/** The countdown `timer` of utils.go: a minutes/seconds clock that loses
    one second every TPS calls of `advance` and renders itself as "MM:SS". */
module Timers {
  import opened Common
  import opened Digits

  /** `const tps = 5` inside `advance`: calls per displayed second. */
  const TPS := 5

  /** The clock fields of a timer; `tick` is the source's sub-second
      counter, the field named `timer`. */
  datatype Clock = Clock(running: bool, min: int, sec: int, tick: int)

  /** One call of `advance`: the new clock and the `finished` result. */
  function AdvanceClock(c: Clock): (Clock, bool)
  {
    if !c.running then (c, false)
    else if c.tick + 1 != TPS then (c.(tick := c.tick + 1), false)
    else if c.sec == 0 then
      if c.min == 0 then (c.(running := false, tick := 0), true)
      else (c.(min := c.min - 1, sec := 59, tick := 0), false)
    else (c.(sec := c.sec - 1, tick := 0), false)
  }

  /** True when this call of `advance` completes a second, and so also
      rewrites the text buffer. */
  predicate Rolls(c: Clock) {
    c.running && c.tick + 1 == TPS
  }

  /** The clock after k calls of `advance`. */
  function AfterCalls(c: Clock, k: nat): Clock
  {
    if k == 0 then c else AdvanceClock(AfterCalls(c, k - 1)).0
  }

  /** What the k-th call of `advance` (counting from 1) returns. */
  function FinishedOnCall(c: Clock, k: nat): bool
    requires k >= 1
  {
    AdvanceClock(AfterCalls(c, k - 1)).1
  }

  /** A clock with a non-negative time and an in-range sub-tick. */
  predicate Settled(c: Clock) {
    c.min >= 0 && c.sec >= 0 && 0 <= c.tick < TPS
  }

  /** How many more calls to `advance` until one returns true. */
  function CallsLeft(c: Clock): int {
    TPS * (60 * c.min + c.sec + 1) - c.tick
  }

  /** One call takes one call off the count; the call with one left is the
      one that finishes and stops the clock. */
  lemma AdvanceCountsDown(c: Clock)
    requires c.running && Settled(c)
    ensures CallsLeft(c) >= 1
    ensures CallsLeft(c) > 1 ==> var (d, f) := AdvanceClock(c);
      !f && d.running && Settled(d) && CallsLeft(d) == CallsLeft(c) - 1
    ensures CallsLeft(c) == 1 ==> var (d, f) := AdvanceClock(c);
      f && !d.running && d.min == 0 && d.sec == 0 && d.tick == 0
  {
  }

  lemma {:induction false} CountDownPrefix(c: Clock, k: nat)
    requires c.running && Settled(c) && k < CallsLeft(c)
    ensures var d := AfterCalls(c, k); d.running && Settled(d) && CallsLeft(d) == CallsLeft(c) - k
  {
    if k > 0 {
      CountDownPrefix(c, k - 1);
      AdvanceCountsDown(AfterCalls(c, k - 1));
    }
  }

  lemma {:induction false} StoppedStays(c: Clock, k: nat, j: nat)
    requires j <= k && !AfterCalls(c, j).running
    ensures AfterCalls(c, k) == AfterCalls(c, j)
  {
    if j < k {
      StoppedStays(c, k - 1, j);
    }
  }

  /** A running clock started at m:s with a zero sub-tick reports
      `finished` on call TPS * (60 * m + s + 1) and on no other call; from
      that call on it stands stopped at 00:00. */
  lemma FinishesExactlyOnce(m: int, s: int, k: nat)
    requires m >= 0 && s >= 0 && k >= 1
    ensures FinishedOnCall(Clock(true, m, s, 0), k) <==> k == TPS * (60 * m + s + 1)
    ensures k >= TPS * (60 * m + s + 1) ==> AfterCalls(Clock(true, m, s, 0), k) == Clock(false, 0, 0, 0)
  {
    var c := Clock(true, m, s, 0);
    var n := CallsLeft(c);
    CountDownPrefix(c, n - 1);
    AdvanceCountsDown(AfterCalls(c, n - 1));
    assert AfterCalls(c, n) == Clock(false, 0, 0, 0);
    if k < n {
      BeforeTheEnd(c, k);
    } else if k > n {
      StoppedStays(c, k - 1, n);
      StoppedStays(c, k, n);
    }
  }

  /** A call before the last one does not finish. */
  lemma BeforeTheEnd(c: Clock, k: nat)
    requires c.running && Settled(c) && 1 <= k < CallsLeft(c)
    ensures !FinishedOnCall(c, k)
  {
    CountDownPrefix(c, k - 1);
    AdvanceCountsDown(AfterCalls(c, k - 1));
  }

  /** Two runes for a clock field, as `updateString` writes them: from 10
      on the tens and units digits, below 10 a '0' and `toChar` of the
      value. */
  function TwoRunes(v: int): seq<Rune>
  {
    if v >= 10 then [ToChar(v / 10 % 10), ToChar(v % 10)] else [ZERO, ToChar(v)]
  }

  /** The five runes `updateString` leaves in `buf`. */
  function Render(min: int, sec: int): seq<Rune>
  {
    TwoRunes(min) + [COLON] + TwoRunes(sec)
  }

  /** For a non-negative field the two runes are numerals spelling the
      value modulo 100. */
  lemma TwoRunesShowValue(v: int)
    requires v >= 0
    ensures |TwoRunes(v)| == 2 && IsDigit(TwoRunes(v)[0]) && IsDigit(TwoRunes(v)[1])
    ensures ParseDecimal(TwoRunes(v)) == v % 100
  {
    var t := TwoRunes(v);
    var tens, units := if v >= 10 then v / 10 % 10 else 0, if v >= 10 then v % 10 else v;
    assert t == [ZERO + tens, ZERO + units];
    assert t[..1] == [ZERO + tens];
    assert ParseDecimal([ZERO + tens]) == tens;
    assert ParseDecimal(t) == tens * 10 + units;
    if v >= 10 {
      TensAndUnits(v);
    }
  }

  lemma TensAndUnits(v: int)
    requires v >= 0
    ensures v % 100 == v / 10 % 10 * 10 + v % 10
  {
    var q, b := v / 10, v % 10;
    var h, a := q / 10, q % 10;
    assert v == 10 * q + b;
    assert q == 10 * h + a;
    assert v == 100 * h + (a * 10 + b);
    HundredsRemainder(v, h, a * 10 + b);
  }

  lemma HundredsRemainder(v: int, h: int, r: int)
    requires v == 100 * h + r && 0 <= r < 100
    ensures v % 100 == r
  {
  }

  /** Below 100 the two runes are exactly `numberToString`'s text. */
  lemma TwoRunesAreDecimalText(v: int)
    requires 0 <= v < 100
    ensures TwoRunes(v) == DecimalText(v)
  {
    if 10 <= v {
      var a, b := ToChar(v % 10), ToChar(v / 10);
      assert v / 10 % 10 == v / 10;
      assert LsbDigits(v / 10) == [b] + LsbDigits(0);
      assert LsbDigits(v) == [a, b];
      assert [a, b][1..] == [b];
      assert Reverse([b]) == [b];
      assert Reverse([a, b]) == [b, a];
    }
  }

  /** A field from 0 to 99 is shown as its tens and units numerals. */
  lemma TwoRunesTwoDigits(v: int)
    requires 0 <= v <= 99
    ensures TwoRunes(v) == [ZERO + v / 10, ZERO + v % 10]
  {
  }

  /** For 0 <= min <= 99 and 0 <= sec <= 59 the buffer reads "MM:SS": the
      tens and units numerals of the minutes, ':', and those of the
      seconds. */
  lemma RenderReadsBack(min: int, sec: int)
    requires 0 <= min <= 99 && 0 <= sec <= 59
    ensures Render(min, sec) == [ZERO + min / 10, ZERO + min % 10, COLON, ZERO + sec / 10, ZERO + sec % 10]
  {
    TwoRunesTwoDigits(min);
    TwoRunesTwoDigits(sec);
  }

  class Timer {
    var running: bool
    var min: int
    var sec: int
    /** The source's sub-second counter (its field `timer`). */
    var tick: int
    /** The five-rune "MM:SS" text. */
    const buf: array<Rune>

    ghost predicate Valid()
      reads this
    {
      buf.Length == 5 && 0 <= tick < TPS
    }

    function View(): Clock
      reads this
    {
      Clock(running, min, sec, tick)
    }

    /** The text buffer spells the clock. Every timer has this once its
      duration has been set, and no operation loses it. */
    ghost predicate Shows()
      reads this, buf
    {
      buf[..] == Render(min, sec)
    }

    /** A zero-valued `timer{}`. */
    constructor ()
      ensures Valid() && fresh(buf)
      ensures View() == Clock(false, 0, 0, 0) && buf[..] == [0, 0, 0, 0, 0]
    {
      running, min, sec, tick := false, 0, 0, 0;
      buf := new Rune[5](_ => 0);
    }

    /** `setDuration(m, s)`: loads m:s, clears the sub-tick, keeps
      `running`, and re-renders the text. */
    method SetDuration(m: int, s: int)
      requires Valid()
      modifies this, buf
      ensures Valid()
      ensures View() == Clock(old(running), m, s, 0)
      ensures buf[..] == Render(m, s)
    {
      min := m;
      sec := s;
      tick := 0;
      UpdateString();
    }

    method Start()
      requires Valid()
      modifies this
      ensures Valid() && View() == old(View()).(running := true)
      ensures Shows() == old(Shows())
    {
      running := true;
    }

    method Stop()
      requires Valid()
      modifies this
      ensures Valid() && View() == old(View()).(running := false)
      ensures Shows() == old(Shows())
    {
      running := false;
    }

    /** `advance()`: one frame of the countdown. The text is re-rendered
      exactly on the calls that complete a second. */
    method Advance() returns (finished: bool)
      requires Valid()
      modifies this, buf
      ensures Valid()
      ensures (View(), finished) == AdvanceClock(old(View()))
      ensures buf[..] == if Rolls(old(View())) then Render(min, sec) else old(buf[..])
      ensures old(Shows()) ==> Shows()
    {
      finished := false;
      if running {
        tick := tick + 1;
        if tick == TPS {
          tick := 0;
          if sec == 0 {
            if min == 0 && sec == 0 {
              running := false;
              finished := true;
            } else {
              min := min - 1;
              sec := 59;
            }
          } else {
            sec := sec - 1;
          }
          UpdateString();
        }
      }
    }

    /** `updateString()`: writes Render(min, sec) into the buffer. */
    method UpdateString()
      requires Valid()
      modifies buf
      ensures buf[..] == Render(min, sec)
    {
      if min >= 10 {
        var rem := min;
        var digit := rem % 10;
        buf[1] := ToChar(digit);
        rem := rem / 10;
        digit := rem % 10;
        buf[0] := ToChar(digit);
      } else {
        buf[0] := ZERO;
        buf[1] := ToChar(min);
      }
      if sec >= 10 {
        var rem := sec;
        var digit := rem % 10;
        buf[4] := ToChar(digit);
        rem := rem / 10;
        digit := rem % 10;
        buf[3] := ToChar(digit);
      } else {
        buf[3] := ZERO;
        buf[4] := ToChar(sec);
      }
      buf[2] := COLON;
      assert buf[..] == [buf[0], buf[1], buf[2], buf[3], buf[4]];
    }
  }
}
