/** The keyframe animation engine of anim/animation.go. An animation owns a
    list of properties; each property is bound to an outside scalar and
    walks through its keys in order, one integer tick at a time. The bound
    `*float64` is modelled as a slot of a caller-owned `array<real>`. */
module Anim {
  import opened Common

  datatype EaseKind = EaseLinear | EaseInCubic | EaseOutCubic

  /** `AnimationKey`. */
  datatype Key = Key(easing: EaseKind, startTime: int, duration: int, change: real)

  /** `AnimationProperty`: `slot` is where its `property` pointer points. */
  datatype Property = Property(
    name: string,
    startValue: real,
    resetToStartValue: bool,
    slot: nat,
    keys: seq<Key>,
    keyStartValue: real,
    keyIndex: nat)

  function Cube(x: real): real {
    x * x * x
  }

  /** The time ratio of `ease`, capped at 1 from above and not bounded
      from below. */
  function Scale(time: int, duration: int): (s: real)
    requires duration != 0
    ensures s <= 1.0
    ensures duration > 0 && time >= duration ==> s == 1.0
    ensures duration > 0 && 0 <= time ==> 0.0 <= s
  {
    var s := time as real / duration as real;
    if s > 1.0 then 1.0 else s
  }

  /** The share of `change` an easing has reached at ratio s. */
  function Shape(e: EaseKind, s: real): real {
    match e
    case EaseLinear => s
    case EaseInCubic => Cube(s)
    case EaseOutCubic => Cube(s - 1.0) + 1.0
  }

  /** `ease`: start plus the eased share of change. */
  function Ease(e: EaseKind, start: real, change: real, time: int, duration: int): real
    requires duration != 0
  {
    start + change * Shape(e, Scale(time, duration))
  }

  /** Every easing starts at `start` and, from `duration` on, sits at
      `start + change`. */
  lemma EaseEnds(e: EaseKind, start: real, change: real, time: int, duration: int)
    requires duration > 0
    ensures Ease(e, start, change, 0, duration) == start
    ensures time >= duration ==> Ease(e, start, change, time, duration) == start + change
  {
    assert Scale(0, duration) == 0.0;
    assert Cube(-1.0) == -1.0 && Cube(0.0) == 0.0 && Cube(1.0) == 1.0;
  }

  lemma CubeMonotone(a: real, b: real)
    requires a <= b
    ensures Cube(a) <= Cube(b)
  {
    var h := b - a;
    assert Cube(b) - Cube(a) == h * (a * a + a * b + b * b);
    assert a * a + a * b + b * b == (a + b / 2.0) * (a + b / 2.0) + 3.0 * b * b / 4.0;
    assert 0.0 <= (a + b / 2.0) * (a + b / 2.0);
    assert 0.0 <= b * b;
    assert 0.0 <= h * (a * a + a * b + b * b);
  }

  lemma RatioMonotone(a: real, b: real, d: real)
    requires a <= b && d > 0.0
    ensures a / d <= b / d
  {
    var q := b / d - a / d;
    assert q * d == b - a;
  }

  lemma CubeBetween(x: real)
    requires 0.0 <= x <= 1.0
    ensures 0.0 <= Cube(x) <= 1.0
  {
    CubeMonotone(0.0, x);
    CubeMonotone(x, 1.0);
  }

  lemma ShapeMonotone(e: EaseKind, s1: real, s2: real)
    requires s1 <= s2
    ensures Shape(e, s1) <= Shape(e, s2)
    ensures 0.0 <= s1 <= 1.0 ==> 0.0 <= Shape(e, s1) <= 1.0
  {
    CubeMonotone(s1, s2);
    CubeMonotone(s1 - 1.0, s2 - 1.0);
    if 0.0 <= s1 <= 1.0 {
      CubeBetween(s1);
      CubeMonotone(-1.0, s1 - 1.0);
      CubeMonotone(s1 - 1.0, 0.0);
      assert Cube(-1.0) == -1.0 && Cube(0.0) == 0.0;
    }
  }

  /** The eased share of `change` never moves backwards in time and, from
      time 0 on, stays between 0 and 1: every easing travels from `start`
      towards `start + change` without overshooting either. */
  lemma EasedShareMonotone(e: EaseKind, t1: int, t2: int, duration: int)
    requires duration > 0 && t1 <= t2
    ensures Shape(e, Scale(t1, duration)) <= Shape(e, Scale(t2, duration))
    ensures 0 <= t1 ==> 0.0 <= Shape(e, Scale(t1, duration)) <= 1.0
  {
    ScaleOrder(t1, t2, duration);
    ShapeMonotone(e, Scale(t1, duration), Scale(t2, duration));
  }

  lemma ScaleOrder(t1: int, t2: int, duration: int)
    requires duration > 0 && t1 <= t2
    ensures Scale(t1, duration) <= Scale(t2, duration)
  {
    RatioMonotone(t1 as real, t2 as real, duration as real);
  }

  /** A property whose keys can all be eased. The source divides by zero
      for a key of zero duration. */
  predicate WellKeyed(p: Property) {
    forall k :: 0 <= k < |p.keys| ==> p.keys[k].duration != 0
  }

  /** The outcome of one `advance`: the property after it, the value it
      wrote through its pointer (if any), and its `finished` result. */
  datatype Advanced = Advanced(next: Property, written: Option<real>, finished: bool)

  /** `advance(timer)`. */
  function Advance(p: Property, timer: int): (r: Advanced)
    requires WellKeyed(p)
  {
    if p.keyIndex >= |p.keys| then Advanced(p, None, true)
    else
      var key := p.keys[p.keyIndex];
      var keyTime := timer - key.startTime;
      var v := Ease(key.easing, p.keyStartValue, key.change, keyTime, key.duration);
      if keyTime > key.duration then
        var q := p.(keyIndex := p.keyIndex + 1, keyStartValue := v);
        Advanced(q, Some(v), q.keyIndex >= |p.keys|)
      else Advanced(p, Some(v), false)
  }

  /** `advance` changes nothing but the key index and the baseline. */
  lemma AdvanceKeepsKeys(p: Property, timer: int)
    requires WellKeyed(p)
    ensures var r := Advance(p, timer);
      r.next.(keyIndex := p.keyIndex, keyStartValue := p.keyStartValue) == p && WellKeyed(r.next)
  {
  }

  /** x lies between a and b, in either order. */
  predicate Between(x: real, a: real, b: real) {
    (a <= x <= b) || (b <= x <= a)
  }

  lemma MulNonNegative(x: real, y: real)
    requires 0.0 <= x && 0.0 <= y
    ensures 0.0 <= x * y
  {
  }

  lemma ShareBetween(c: real, s: real)
    requires 0.0 <= s <= 1.0
    ensures Between(c * s, 0.0, c)
  {
    if c >= 0.0 {
      MulNonNegative(c, s);
      MulNonNegative(c, 1.0 - s);
      assert c * (1.0 - s) == c - c * s;
    } else {
      MulNonNegative(-c, s);
      MulNonNegative(-c, 1.0 - s);
      assert (-c) * (1.0 - s) == c * s - c;
      assert (-c) * s == -(c * s);
    }
  }

  lemma ShareOrder(a: real, c: real, s1: real, s2: real, w1: real, w2: real)
    requires s1 <= s2 && w1 == a + c * s1 && w2 == a + c * s2
    ensures c >= 0.0 ==> w1 <= w2
    ensures c <= 0.0 ==> w2 <= w1
  {
    if c >= 0.0 {
      MulNonNegative(c, s2 - s1);
      assert c * (s2 - s1) == c * s2 - c * s1;
    } else {
      MulNonNegative(-c, s2 - s1);
      assert (-c) * (s2 - s1) == c * s1 - c * s2;
    }
  }

  /** Once its key has started, `advance` writes a value between the key's
      baseline and baseline + change; once the key's time is past its
      duration it moves to the next key with baseline + change as the new
      baseline, so consecutive keys continue from where the previous one
      ended. */
  lemma AdvanceBetween(p: Property, timer: int)
    requires WellKeyed(p) && p.keyIndex < |p.keys|
    requires p.keys[p.keyIndex].duration > 0 && timer >= p.keys[p.keyIndex].startTime
    ensures var key := p.keys[p.keyIndex];
      var r := Advance(p, timer);
      r.written.Some? && Between(r.written.value, p.keyStartValue, p.keyStartValue + key.change)
    ensures var key := p.keys[p.keyIndex];
      var r := Advance(p, timer);
      timer - key.startTime > key.duration ==>
        r.next.keyIndex == p.keyIndex + 1 && r.next.keyStartValue == p.keyStartValue + key.change
  {
    var key := p.keys[p.keyIndex];
    var keyTime := timer - key.startTime;
    EasedShareMonotone(key.easing, keyTime, keyTime, key.duration);
    ShareBetween(key.change, Shape(key.easing, Scale(keyTime, key.duration)));
    EaseEnds(key.easing, p.keyStartValue, key.change, keyTime, key.duration);
  }

  /** Within one key, the value `advance` writes moves only towards
      baseline + change as the tick grows: it never decreases for a
      non-negative change and never increases for a non-positive one. */
  lemma AdvanceMonotone(p: Property, t1: int, t2: int)
    requires WellKeyed(p) && p.keyIndex < |p.keys|
    requires p.keys[p.keyIndex].duration > 0 && t1 <= t2
    ensures var change := p.keys[p.keyIndex].change;
      var w1 := Advance(p, t1).written.value;
      var w2 := Advance(p, t2).written.value;
      (change >= 0.0 ==> w1 <= w2) && (change <= 0.0 ==> w2 <= w1)
  {
    var key := p.keys[p.keyIndex];
    EaseMonotone(key.easing, p.keyStartValue, key.change, t1 - key.startTime, t2 - key.startTime, key.duration);
    assert Advance(p, t1).written == Some(Ease(key.easing, p.keyStartValue, key.change, t1 - key.startTime, key.duration));
    assert Advance(p, t2).written == Some(Ease(key.easing, p.keyStartValue, key.change, t2 - key.startTime, key.duration));
  }

  /** An easing moves only towards start + change as time grows. */
  lemma EaseMonotone(e: EaseKind, start: real, change: real, t1: int, t2: int, duration: int)
    requires duration > 0 && t1 <= t2
    ensures change >= 0.0 ==> Ease(e, start, change, t1, duration) <= Ease(e, start, change, t2, duration)
    ensures change <= 0.0 ==> Ease(e, start, change, t2, duration) <= Ease(e, start, change, t1, duration)
  {
    var s1 := EaseShare(e, start, change, t1, duration);
    var s2 := EaseShare(e, start, change, t2, duration);
    EasedShareMonotone(e, t1, t2, duration);
    ShareOrder(start, change, s1, s2, Ease(e, start, change, t1, duration), Ease(e, start, change, t2, duration));
  }

  /** An eased value is the start plus the eased share s of the change. */
  lemma EaseShare(e: EaseKind, start: real, change: real, time: int, duration: int) returns (s: real)
    requires duration != 0
    ensures s == Shape(e, Scale(time, duration))
    ensures Ease(e, start, change, time, duration) == start + change * s
  {
    s := Shape(e, Scale(time, duration));
  }

  /** The last key of a property: once the tick is past its end, `advance`
      lands it on `baseline + change` and reports finished. */
  lemma LastKeyFinishes(p: Property, timer: int)
    requires WellKeyed(p) && p.keyIndex == |p.keys| - 1
    requires p.keys[p.keyIndex].duration > 0
    requires timer > p.keys[p.keyIndex].startTime + p.keys[p.keyIndex].duration
    ensures Advance(p, timer).finished
    ensures Advance(p, timer).written == Some(p.keyStartValue + p.keys[p.keyIndex].change)
  {
    var key := p.keys[p.keyIndex];
    EaseEnds(key.easing, p.keyStartValue, key.change, timer - key.startTime, key.duration);
  }

  /** The outcome of one `reset`. */
  datatype Restarted = Restarted(next: Property, written: Option<real>)

  /** `reset`: back to the first key with baseline 0, and the bound value
      put back to `startValue` when the property asks for it. */
  function ResetProperty(p: Property): (r: Restarted)
    ensures r.next.(keyIndex := p.keyIndex, keyStartValue := p.keyStartValue) == p
    ensures r.next.keyIndex == 0 && r.next.keyStartValue == 0.0
    ensures r.written.Some? <==> p.resetToStartValue
    ensures r.written.Some? ==> r.written.value == p.startValue
  {
    Restarted(p.(keyIndex := 0, keyStartValue := 0.0), if p.resetToStartValue then Some(p.startValue) else None)
  }

  /** `reset` after `reset` is `reset`: it forgets the progress made. */
  lemma ResetForgets(p: Property, timer: int)
    requires WellKeyed(p)
    ensures ResetProperty(ResetProperty(p).next) == ResetProperty(p)
    ensures ResetProperty(Advance(p, timer).next) == ResetProperty(p)
  {
  }

  /** A new property's first key eases from `startValue`, but a reset one
      eases its first key from 0, not from `startValue`: when the start
      value is not 0 a replay starts somewhere else than the first run. */
  lemma ReplayStartsFromZero(name: string, start: real, reset: bool, slot: nat, keys: seq<Key>)
    requires |keys| > 0 && WellKeyed(Property(name, start, reset, slot, keys, start, 0)) && keys[0].duration > 0
    ensures var first := Property(name, start, reset, slot, keys, start, 0);
      var replay := ResetProperty(first).next;
      Advance(first, keys[0].startTime).written == Some(start) &&
      Advance(replay, keys[0].startTime).written == Some(0.0)
  {
    EaseEnds(keys[0].easing, start, keys[0].change, 0, keys[0].duration);
    EaseEnds(keys[0].easing, 0.0, keys[0].change, 0, keys[0].duration);
  }

  /** The index of the first property with this name. */
  function Find(ps: seq<Property>, name: string): (r: Option<nat>)
    ensures r.Some? ==> r.value < |ps| && ps[r.value].name == name
    ensures r.Some? ==> forall j :: 0 <= j < r.value ==> ps[j].name != name
    ensures r.None? ==> forall j :: 0 <= j < |ps| ==> ps[j].name != name
  {
    if ps == [] then None
    else if ps[0].name == name then Some(0)
    else match Find(ps[1..], name)
      case None => None
      case Some(i) => Some(i + 1)
  }

  /** The key `AddKey` appends: from the third key on, it starts where the
      last key ends; the first and second keep the start the caller gave. */
  function Chained(keys: seq<Key>, key: Key): (k: Key)
    ensures k.(startTime := key.startTime) == key
  {
    if |keys| > 1 then key.(startTime := keys[|keys| - 1].startTime + keys[|keys| - 1].duration) else key
  }

  /** Keys appended one after another with `AddKey`, starting from no keys. */
  function Appended(keys: seq<Key>, added: seq<Key>): (r: seq<Key>)
    ensures |r| == |keys| + |added|
    decreases |added|
  {
    if added == [] then keys
    else Appended(keys + [Chained(keys, added[0])], added[1..])
  }

  /** The schedule `AddKey` builds: the first two keys keep the start times
      the caller gave, and every later key starts where its predecessor
      ends. So a property that asks for back-to-back keys from its second
      one on overlaps its first two keys unless the caller spaced them. */
  lemma AppendedSchedule(added: seq<Key>)
    ensures var r := Appended([], added);
      (forall k :: 0 <= k < |r| && k < 2 ==> r[k] == added[k]) &&
      (forall k :: 2 <= k < |r| ==>
        r[k] == added[k].(startTime := r[k - 1].startTime + r[k - 1].duration))
  {
    assert added[0..] == added;
    AppendedScheduleFrom([], added, 0);
  }

  lemma {:induction false} AppendedScheduleFrom(keys: seq<Key>, all: seq<Key>, n: nat)
    requires n == |keys| <= |all|
    requires forall k :: 0 <= k < n && k < 2 ==> keys[k] == all[k]
    requires forall k :: 2 <= k < n ==> keys[k] == all[k].(startTime := keys[k - 1].startTime + keys[k - 1].duration)
    ensures var r := Appended(keys, all[n..]);
      (forall k :: 0 <= k < |r| && k < 2 ==> r[k] == all[k]) &&
      (forall k :: 2 <= k < |r| ==> r[k] == all[k].(startTime := r[k - 1].startTime + r[k - 1].duration))
    decreases |all| - n
  {
    if n < |all| {
      var next := keys + [Chained(keys, all[n])];
      assert all[n..][0] == all[n] && all[n..][1..] == all[n + 1..];
      AppendedScheduleFrom(next, all, n + 1);
    }
  }

  /** Every property's keys can be eased. */
  predicate AllWellKeyed(ps: seq<Property>) {
    forall i :: 0 <= i < |ps| ==> WellKeyed(ps[i])
  }

  /** Every property's pointer points into a store of n values. */
  predicate Bound(ps: seq<Property>, n: nat) {
    forall i :: 0 <= i < |ps| ==> ps[i].slot < n
  }

  /** No two properties of an animation share a name. */
  predicate UniqueNames(ps: seq<Property>) {
    forall i, j :: 0 <= i < j < |ps| ==> ps[i].name != ps[j].name
  }

  /** A value written through a pointer, if any. */
  function Put(vals: seq<real>, slot: nat, w: Option<real>): (r: seq<real>)
    requires slot < |vals|
    ensures |r| == |vals|
  {
    if w.Some? then vals[slot := w.value] else vals
  }

  /** The write through a property's reference into the store, if any. */
  method WriteSlot(store: array<real>, slot: nat, w: Option<real>)
    requires slot < store.Length
    modifies store
    ensures store[..] == Put(old(store[..]), slot, w)
  {
    if w.Some? {
      store[slot] := w.value;
    }
  }

  /** The properties and the store after a loop over the properties. */
  datatype Sweep = Sweep(props: seq<Property>, vals: seq<real>)

  /** The first loop of `Update`: `advance(timer)` on each of the first n
      properties in turn, each writing through its pointer. */
  function AdvanceAll(ps: seq<Property>, vals: seq<real>, timer: int, n: nat): (r: Sweep)
    requires n <= |ps| && AllWellKeyed(ps) && Bound(ps, |vals|)
    ensures |r.props| == n && |r.vals| == |vals|
    ensures forall i :: 0 <= i < n ==> r.props[i] == Advance(ps[i], timer).next
  {
    if n == 0 then Sweep([], vals)
    else
      var r := AdvanceAll(ps, vals, timer, n - 1);
      var a := Advance(ps[n - 1], timer);
      Sweep(r.props + [a.next], Put(r.vals, ps[n - 1].slot, a.written))
  }

  /** One more property of the advance pass. */
  lemma AdvanceAllStep(ps: seq<Property>, vals: seq<real>, timer: int, n: nat)
    requires n < |ps| && AllWellKeyed(ps) && Bound(ps, |vals|)
    ensures var r := AdvanceAll(ps, vals, timer, n);
      var a := Advance(ps[n], timer);
      AdvanceAll(ps, vals, timer, n + 1) == Sweep(r.props + [a.next], Put(r.vals, ps[n].slot, a.written))
  {
  }

  /** An advance pass keeps every property's name, pointer and keys, so the
      animation's invariant and the store bound survive it. */
  lemma AdvanceAllKeepsShape(ps: seq<Property>, vals: seq<real>, timer: int)
    requires AllWellKeyed(ps) && UniqueNames(ps) && Bound(ps, |vals|)
    ensures var out := AdvanceAll(ps, vals, timer, |ps|).props;
      AllWellKeyed(out) && UniqueNames(out) && Bound(out, |vals|) &&
      forall i :: 0 <= i < |ps| ==> out[i].name == ps[i].name && out[i].slot == ps[i].slot && out[i].keys == ps[i].keys
  {
    var out := AdvanceAll(ps, vals, timer, |ps|).props;
    forall i | 0 <= i < |ps|
      ensures out[i].name == ps[i].name && WellKeyed(out[i]) && out[i].slot == ps[i].slot && out[i].keys == ps[i].keys
    {
      AdvanceKeepsKeys(ps[i], timer);
    }
  }

  /** The loops of `Reset` and of `Update`'s completion: `reset` on each of
      the first n properties in turn. */
  function ResetAll(ps: seq<Property>, vals: seq<real>, n: nat): (r: Sweep)
    requires n <= |ps| && Bound(ps, |vals|)
    ensures |r.props| == n && |r.vals| == |vals|
    ensures forall i :: 0 <= i < n ==> r.props[i] == ResetProperty(ps[i]).next
  {
    if n == 0 then Sweep([], vals)
    else
      var r := ResetAll(ps, vals, n - 1);
      var a := ResetProperty(ps[n - 1]);
      Sweep(r.props + [a.next], Put(r.vals, ps[n - 1].slot, a.written))
  }

  /** The `finished` flag of `Update`'s first loop after n properties: it
      is set by the first property that reports finished and then kept. */
  predicate AnyFinished(ps: seq<Property>, timer: int, n: nat)
    requires n <= |ps| && AllWellKeyed(ps)
  {
    n > 0 && (AnyFinished(ps, timer, n - 1) || Advance(ps[n - 1], timer).finished)
  }

  /** The flag is set exactly when some property reports finished. */
  lemma {:induction false} AnyFinishedExists(ps: seq<Property>, timer: int, n: nat)
    requires n <= |ps| && AllWellKeyed(ps)
    ensures AnyFinished(ps, timer, n) <==> exists i :: 0 <= i < n && Advance(ps[i], timer).finished
  {
    if n > 0 {
      AnyFinishedExists(ps, timer, n - 1);
      if Advance(ps[n - 1], timer).finished {
        assert 0 <= n - 1 < n;
      }
    }
  }

  /** The pointers of the properties, in order. */
  function Slots(ps: seq<Property>): (r: seq<nat>)
    ensures |r| == |ps| && forall i :: 0 <= i < |ps| ==> r[i] == ps[i].slot
  {
    seq(|ps|, i requires 0 <= i < |ps| => ps[i].slot)
  }

  /** What each property writes in `advance`, in order. */
  function AdvanceWrites(ps: seq<Property>, timer: int): (r: seq<Option<real>>)
    requires AllWellKeyed(ps)
    ensures |r| == |ps| && forall i :: 0 <= i < |ps| ==> r[i] == Advance(ps[i], timer).written
  {
    seq(|ps|, i requires 0 <= i < |ps| => Advance(ps[i], timer).written)
  }

  /** What each property writes in `reset`, in order. */
  function ResetWrites(ps: seq<Property>): (r: seq<Option<real>>)
    ensures |r| == |ps| && forall i :: 0 <= i < |ps| ==> r[i] == ResetProperty(ps[i]).written
  {
    seq(|ps|, i requires 0 <= i < |ps| => ResetProperty(ps[i]).written)
  }

  /** The store after writing ws[0], ..., ws[n-1] through slots[0], ...,
      slots[n-1] in turn (a `None` writes nothing). */
  function PutEach(vals: seq<real>, slots: seq<nat>, ws: seq<Option<real>>, n: nat): (r: seq<real>)
    requires n <= |slots| == |ws| && forall i :: 0 <= i < |slots| ==> slots[i] < |vals|
    ensures |r| == |vals|
  {
    if n == 0 then vals else Put(PutEach(vals, slots, ws, n - 1), slots[n - 1], ws[n - 1])
  }

  /** No write among lo..n-1 goes to slot k. */
  predicate Untouched(slots: seq<nat>, ws: seq<Option<real>>, lo: nat, n: nat, k: nat)
    requires n <= |slots| == |ws|
  {
    forall j :: lo <= j < n && slots[j] == k ==> ws[j].None?
  }

  /** A slot nobody writes keeps its value. */
  lemma {:induction false} PutEachUntouched(vals: seq<real>, slots: seq<nat>, ws: seq<Option<real>>, n: nat, k: nat)
    requires n <= |slots| == |ws| && forall i :: 0 <= i < |slots| ==> slots[i] < |vals|
    requires k < |vals| && Untouched(slots, ws, 0, n, k)
    ensures PutEach(vals, slots, ws, n)[k] == vals[k]
  {
    if n > 0 {
      assert Untouched(slots, ws, 0, n - 1, k);
      PutEachUntouched(vals, slots, ws, n - 1, k);
    }
  }

  /** The last write to a slot is the value it holds. */
  lemma {:induction false} PutEachLast(vals: seq<real>, slots: seq<nat>, ws: seq<Option<real>>, n: nat, i: nat)
    requires n <= |slots| == |ws| && forall j :: 0 <= j < |slots| ==> slots[j] < |vals|
    requires i < n && ws[i].Some? && Untouched(slots, ws, i + 1, n, slots[i])
    ensures PutEach(vals, slots, ws, n)[slots[i]] == ws[i].value
  {
    if i < n - 1 {
      assert Untouched(slots, ws, i + 1, n - 1, slots[i]);
      PutEachLast(vals, slots, ws, n - 1, i);
    }
  }

  /** The last write wins: a slot nobody writes keeps its value, and a slot
      holds the value of the last write that went to it. */
  lemma PutEachStore(vals: seq<real>, slots: seq<nat>, ws: seq<Option<real>>, n: nat, k: nat)
    requires n <= |slots| == |ws| && forall i :: 0 <= i < |slots| ==> slots[i] < |vals|
    requires k < |vals|
    ensures Untouched(slots, ws, 0, n, k) ==> PutEach(vals, slots, ws, n)[k] == vals[k]
    ensures forall i :: 0 <= i < n && slots[i] == k && ws[i].Some? && Untouched(slots, ws, i + 1, n, k) ==>
      PutEach(vals, slots, ws, n)[k] == ws[i].value
  {
    if Untouched(slots, ws, 0, n, k) {
      PutEachUntouched(vals, slots, ws, n, k);
    }
    forall i | 0 <= i < n && slots[i] == k && ws[i].Some? && Untouched(slots, ws, i + 1, n, k)
      ensures PutEach(vals, slots, ws, n)[k] == ws[i].value
    {
      PutEachLast(vals, slots, ws, n, i);
    }
  }

  /** The store after the advance loop is each property's write through its
      pointer, one property after another. */
  lemma {:induction false} AdvanceAllWrites(ps: seq<Property>, vals: seq<real>, timer: int, n: nat)
    requires n <= |ps| && AllWellKeyed(ps) && Bound(ps, |vals|)
    ensures AdvanceAll(ps, vals, timer, n).vals == PutEach(vals, Slots(ps), AdvanceWrites(ps, timer), n)
  {
    if n > 0 {
      AdvanceAllWrites(ps, vals, timer, n - 1);
    }
  }

  /** The same for the reset loop, whose writes are the start values of the
      properties that ask to be reset to them. */
  lemma {:induction false} ResetAllWrites(ps: seq<Property>, vals: seq<real>, n: nat)
    requires n <= |ps| && Bound(ps, |vals|)
    ensures ResetAll(ps, vals, n).vals == PutEach(vals, Slots(ps), ResetWrites(ps), n)
    ensures forall i :: 0 <= i < |ps| ==>
      (ResetWrites(ps)[i].Some? <==> ps[i].resetToStartValue) &&
      (ps[i].resetToStartValue ==> ResetWrites(ps)[i].value == ps[i].startValue)
  {
    if n > 0 {
      ResetAllWrites(ps, vals, n - 1);
    }
  }

  /** `Animation`: the callback is not held; `Update` returns the name it
      would be called with. */
  class Animation {
    const name: string
    var playing: bool
    var timer: int
    var properties: seq<Property>

    /** The properties can be eased and, as `AddProperty` keeps them, have
      distinct names. */
    ghost predicate Valid()
      reads this
    {
      AllWellKeyed(properties) && UniqueNames(properties)
    }

    /** `NewAnimation`. */
    constructor (name: string)
      ensures Valid() && this.name == name
      ensures !playing && timer == 0 && properties == []
    {
      this.name := name;
      playing := false;
      timer := 0;
      properties := [];
    }

    /** `AddProperty`: a name already present is ignored; otherwise a
      property with no keys and its start value as baseline is appended. */
    method AddProperty(name: string, slot: nat, startValue: real, reset: bool)
      requires Valid()
      modifies this
      ensures Valid() && playing == old(playing) && timer == old(timer)
      ensures Find(old(properties), name).Some? ==> properties == old(properties)
      ensures Find(old(properties), name).None? ==>
        properties == old(properties) + [Property(name, startValue, reset, slot, [], startValue, 0)]
    {
      var exist := false;
      var index := 0;
      while index < |properties|
        invariant 0 <= index <= |properties| && !exist
        invariant forall j :: 0 <= j < index ==> properties[j].name != name
      {
        if properties[index].name == name {
          exist := true;
          break;
        }
        index := index + 1;
      }
      if !exist {
        properties := properties + [Property(name, startValue, reset, slot, [], startValue, 0)];
      }
    }

    /** `SetPropertyRef`: points the first property with this name at a
      new slot; an unknown name is ignored. */
    method SetPropertyRef(name: string, slot: nat)
      requires Valid()
      modifies this
      ensures Valid() && playing == old(playing) && timer == old(timer)
      ensures match Find(old(properties), name)
        case Some(i) => properties == old(properties)[i := old(properties)[i].(slot := slot)]
        case None => properties == old(properties)
    {
      var index := 0;
      while index < |properties|
        invariant 0 <= index <= |properties| && properties == old(properties)
        invariant forall j :: 0 <= j < index ==> properties[j].name != name
      {
        if properties[index].name == name {
          properties := properties[index := properties[index].(slot := slot)];
          return;
        }
        index := index + 1;
      }
    }

    /** `AddKey`: appends the key, chained as Chained says, to the first
      property with this name; an unknown name is ignored. */
    method AddKey(name: string, key: Key)
      requires Valid() && key.duration != 0
      modifies this
      ensures Valid() && playing == old(playing) && timer == old(timer)
      ensures match Find(old(properties), name)
        case Some(i) =>
          properties == old(properties)[i := old(properties)[i].(keys := Appended(old(properties)[i].keys, [key]))]
        case None => properties == old(properties)
    {
      var index := 0;
      while index < |properties|
        invariant 0 <= index <= |properties| && properties == old(properties)
        invariant forall j :: 0 <= j < index ==> properties[j].name != name
      {
        var property := properties[index];
        if property.name == name {
          var k := key;
          var length := |property.keys|;
          if length > 1 {
            k := k.(startTime := property.keys[length - 1].startTime + property.keys[length - 1].duration);
          }
          assert Appended(property.keys, [key]) == property.keys + [k];
          properties := properties[index := property.(keys := property.keys + [k])];
          return;
        }
        index := index + 1;
      }
    }

    /** `Play`. */
    method Play()
      modifies this
      ensures playing && timer == old(timer) && properties == old(properties)
    {
      playing := true;
    }

    /** `Reset`: every property back to its first key; neither the timer
      nor the playing flag changes. */
    method Reset(store: array<real>)
      requires Valid() && Bound(properties, store.Length)
      modifies this, store
      ensures Valid() && playing == old(playing) && timer == old(timer)
      ensures var r := ResetAll(old(properties), old(store[..]), |old(properties)|);
        properties == r.props && store[..] == r.vals
    {
      ResetProperties(store);
    }

    /** The loop over the properties shared by `Reset` and `Update`. */
    method ResetProperties(store: array<real>)
      requires Valid() && Bound(properties, store.Length)
      modifies this, store
      ensures Valid() && playing == old(playing) && timer == old(timer)
      ensures var r := ResetAll(old(properties), old(store[..]), |old(properties)|);
        properties == r.props && store[..] == r.vals
    {
      var done := ResetEach(properties, store);
      assert forall i :: 0 <= i < |properties| ==> done[i].name == properties[i].name && done[i].keys == properties[i].keys;
      properties := done;
    }

    /** The loop itself, over the properties as they were: each reset in turn
      and its start value written through its pointer if it asks for that. */
    static method ResetEach(ps: seq<Property>, store: array<real>) returns (done: seq<Property>)
      requires Bound(ps, store.Length)
      modifies store
      ensures var r := ResetAll(ps, old(store[..]), |ps|);
        done == r.props && store[..] == r.vals
    {
      ghost var vals := store[..];
      done := [];
      while |done| < |ps|
        invariant |done| <= |ps|
        invariant done == ResetAll(ps, vals, |done|).props
        invariant store[..] == ResetAll(ps, vals, |done|).vals
      {
        var index := |done|;
        var r := ResetProperty(ps[index]);
        assert ResetAll(ps, vals, index + 1).vals == Put(store[..], ps[index].slot, r.written);
        WriteSlot(store, ps[index].slot, r.written);
        done := done + [r.next];
      }
    }

    /** `Update`: while playing, one tick more and every property advanced,
      even after one of them reports finished. If any did, the timer goes
      back to 0, every property is reset, the animation stops and its name
      is returned for the callback. */
    method Update(store: array<real>) returns (ended: Option<string>)
      requires Valid() && Bound(properties, store.Length)
      modifies this, store
      ensures Valid()
      ensures !old(playing) ==>
        ended == None && !playing && timer == old(timer) && properties == old(properties) &&
        store[..] == old(store[..])
      ensures old(playing) ==>
        var t := old(timer) + 1;
        var pass := AdvanceAll(old(properties), old(store[..]), t, |old(properties)|);
        if AnyFinished(old(properties), t, |old(properties)|) then
          var r := ResetAll(pass.props, pass.vals, |pass.props|);
          ended == Some(name) && !playing && timer == 0 && properties == r.props && store[..] == r.vals
        else
          ended == None && playing && timer == t && properties == pass.props && store[..] == pass.vals
    {
      ended := None;
      if !playing {
        return;
      }
      timer := timer + 1;
      var finished := AdvanceProperties(store);
      if finished {
        timer := 0;
        ResetProperties(store);
        playing := false;
        ended := Some(name);
      }
    }

    /** The first loop of `Update`. */
    method AdvanceProperties(store: array<real>) returns (finished: bool)
      requires Valid() && Bound(properties, store.Length)
      modifies this, store
      ensures Valid() && playing == old(playing) && timer == old(timer)
      ensures Bound(properties, store.Length)
      ensures finished == AnyFinished(old(properties), timer, |old(properties)|)
      ensures var r := AdvanceAll(old(properties), old(store[..]), timer, |old(properties)|);
        properties == r.props && store[..] == r.vals
    {
      ghost var vals := store[..];
      var done;
      done, finished := AdvanceEach(properties, store, timer);
      AdvanceAllKeepsShape(properties, vals, timer);
      properties := done;
    }

    /** The loop itself, over the properties as they were: each advanced in
      turn and its value written through its pointer. */
    static method AdvanceEach(ps: seq<Property>, store: array<real>, timer: int)
        returns (done: seq<Property>, finished: bool)
      requires AllWellKeyed(ps) && Bound(ps, store.Length)
      modifies store
      ensures finished == AnyFinished(ps, timer, |ps|)
      ensures var r := AdvanceAll(ps, old(store[..]), timer, |ps|);
        done == r.props && store[..] == r.vals
    {
      ghost var vals := store[..];
      finished := false;
      done := [];
      while |done| < |ps|
        invariant |done| <= |ps|
        invariant done == AdvanceAll(ps, vals, timer, |done|).props
        invariant store[..] == AdvanceAll(ps, vals, timer, |done|).vals
        invariant finished == AnyFinished(ps, timer, |done|)
      {
        done, finished := AdvanceNext(ps, store, timer, vals, done, finished);
      }
    }

    /** One pass of the loop: the next property advanced, its value written
      through its pointer, and the flag set if it is the first to finish. */
    static method AdvanceNext(ps: seq<Property>, store: array<real>, timer: int, ghost vals: seq<real>,
        done: seq<Property>, finished: bool)
        returns (done': seq<Property>, finished': bool)
      requires AllWellKeyed(ps) && Bound(ps, |vals|) && |vals| == store.Length && |done| < |ps|
      requires done == AdvanceAll(ps, vals, timer, |done|).props
      requires store[..] == AdvanceAll(ps, vals, timer, |done|).vals
      requires finished == AnyFinished(ps, timer, |done|)
      modifies store
      ensures |done'| == |done| + 1
      ensures done' == AdvanceAll(ps, vals, timer, |done'|).props
      ensures store[..] == AdvanceAll(ps, vals, timer, |done'|).vals
      ensures finished' == AnyFinished(ps, timer, |done'|)
    {
      var index := |done|;
      var r := Advance(ps[index], timer);
      AdvanceAllStep(ps, vals, timer, index);
      WriteSlot(store, ps[index].slot, r.written);
      finished' := finished;
      if !finished' {
        finished' := r.finished;
      }
      done' := done + [r.next];
    }
  }
}
