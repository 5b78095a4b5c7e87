/** Rectangles, points and the two layout helpers of utils.go: `rectLayout`,
    which carves a rectangle into pieces, and `rectArray`, which finds the
    rectangle under the mouse. Coordinates are reals. */
module Geometry {
  import opened Common

  datatype Rect = Rect(x: real, y: real, width: real, height: real)
  datatype Point = Point(px: real, py: real)

  /** `rectangle.boundCheck`: p lies in r, edges included. */
  predicate BoundCheck(r: Rect, p: Point) {
    r.x <= p.px <= r.x + r.width && r.y <= p.py <= r.y + r.height
  }

  /** `rectangle.addPoint`: r moved by p, size kept. */
  function AddPoint(r: Rect, p: Point): (m: Rect)
    ensures m.width == r.width && m.height == r.height
    ensures m.x - r.x == p.px && m.y - r.y == p.py
  {
    Rect(r.x + p.px, r.y + p.py, r.width, r.height)
  }

  /** `point.sub`: the componentwise difference. */
  function Sub(p: Point, q: Point): (d: Point)
    ensures d.px + q.px == p.px && d.py + q.py == p.py
  {
    Point(p.px - q.px, p.py - q.py)
  }

  /** Testing a point against a rectangle relative to an offset is testing
      the point against the rectangle moved by that offset. */
  lemma BoundCheckRelative(r: Rect, offset: Point, p: Point)
    ensures BoundCheck(r, Sub(p, offset)) <==> BoundCheck(AddPoint(r, offset), p)
  {
  }

  /** The sides a `rectLayout` can cut from. */
  datatype CutKind = Up | Left | Down | Right

  /** The rectangle `cut` hands out: a strip of the given length taken from
      the chosen side of the remaining rectangle. */
  function CutPiece(rem: Rect, kind: CutKind, length: real): Rect
  {
    match kind
    case Up => Rect(rem.x, rem.y, rem.width, length)
    case Left => Rect(rem.x, rem.y, length, rem.height)
    case Down => Rect(rem.x, rem.y + (rem.height - length), rem.width, length)
    case Right => Rect(rem.x + (rem.width - length), rem.y, length, rem.height)
  }

  /** What remains after `cut`: the strip and the padding are taken away;
      cutting from the top or the left also moves the origin. */
  function CutRest(rem: Rect, kind: CutKind, length: real, padding: real): Rect
  {
    match kind
    case Up => rem.(y := rem.y + (length + padding), height := rem.height - (length + padding))
    case Left => rem.(x := rem.x + (length + padding), width := rem.width - (length + padding))
    case Down => rem.(height := rem.height - (length + padding))
    case Right => rem.(width := rem.width - (length + padding))
  }

  /** A cut splits the remaining rectangle along one axis into the piece,
      a gap of `padding`, and the new remainder: along the cut axis they add
      up to the old extent and the piece lies flush with the chosen side,
      the gap separates it from the remainder, and across the axis both
      keep the old position and extent. */
  lemma CutTiles(rem: Rect, kind: CutKind, length: real, padding: real)
    ensures var p, r := CutPiece(rem, kind, length), CutRest(rem, kind, length, padding);
      match kind
      case Up =>
        p.y == rem.y && p.y + p.height + padding == r.y && r.y + r.height == rem.y + rem.height &&
        p.x == r.x == rem.x && p.width == r.width == rem.width
      case Down =>
        r.y == rem.y && r.y + r.height + padding == p.y && p.y + p.height == rem.y + rem.height &&
        p.x == r.x == rem.x && p.width == r.width == rem.width
      case Left =>
        p.x == rem.x && p.x + p.width + padding == r.x && r.x + r.width == rem.x + rem.width &&
        p.y == r.y == rem.y && p.height == r.height == rem.height
      case Right =>
        r.x == rem.x && r.x + r.width + padding == p.x && p.x + p.width == rem.x + rem.width &&
        p.y == r.y == rem.y && p.height == r.height == rem.height
  {
  }

  /** With a positive padding no point of the piece lies in the
      remainder, edges included: the two do not overlap. */
  lemma CutDisjoint(rem: Rect, kind: CutKind, length: real, padding: real, q: Point)
    requires padding > 0.0
    requires BoundCheck(CutPiece(rem, kind, length), q)
    ensures !BoundCheck(CutRest(rem, kind, length, padding), q)
  {
  }

  /** `rectLayout`: the rectangle it was made from and the part not yet
      cut away. */
  class RectLayout {
    var full: Rect
    var remaining: Rect

    /** `newRectLayout`. */
    constructor (r: Rect)
      ensures full == r && remaining == r
    {
      full := r;
      remaining := r;
    }

    /** `cut`: takes a strip off the remaining rectangle and returns it as
      a new layout of its own; `full` is not touched. */
    method Cut(kind: CutKind, length: real, padding: real) returns (piece: RectLayout)
      modifies this
      ensures fresh(piece)
      ensures piece.full == piece.remaining == CutPiece(old(remaining), kind, length)
      ensures remaining == CutRest(old(remaining), kind, length, padding)
      ensures full == old(full)
    {
      var result: Rect;
      match kind {
        case Up =>
          result := Rect(remaining.x, remaining.y, remaining.width, length);
          remaining := remaining.(y := remaining.y + (length + padding));
          remaining := remaining.(height := remaining.height - (length + padding));
        case Left =>
          result := Rect(remaining.x, remaining.y, length, remaining.height);
          remaining := remaining.(x := remaining.x + (length + padding));
          remaining := remaining.(width := remaining.width - (length + padding));
        case Down =>
          result := Rect(remaining.x, remaining.y + (remaining.height - length), remaining.width, length);
          remaining := remaining.(height := remaining.height - (length + padding));
        case Right =>
          result := Rect(remaining.x + (remaining.width - length), remaining.y, length, remaining.height);
          remaining := remaining.(width := remaining.width - (length + padding));
      }
      piece := new RectLayout(result);
    }
  }

  /** `rectElement`: a clickable rectangle and the id reported for it. */
  datatype RectElement = RectElement(userID: int, bounds: Rect)

  /** The index of the first element containing p, if any. */
  function FirstHit(rects: seq<RectElement>, p: Point): (r: Option<nat>)
    ensures r.Some? ==> r.value < |rects|
  {
    if rects == [] then None
    else if BoundCheck(rects[0].bounds, p) then Some(0)
    else match FirstHit(rects[1..], p)
      case None => None
      case Some(i) => Some(i + 1)
  }

  /** FirstHit finds the least index whose rectangle contains p, and finds
      nothing exactly when no rectangle contains it. */
  lemma {:induction false} FirstHitIsLeast(rects: seq<RectElement>, p: Point)
    ensures FirstHit(rects, p).None? <==> forall j :: 0 <= j < |rects| ==> !BoundCheck(rects[j].bounds, p)
    ensures FirstHit(rects, p).Some? ==>
      var i := FirstHit(rects, p).value;
      i < |rects| && BoundCheck(rects[i].bounds, p) &&
      forall j :: 0 <= j < i ==> !BoundCheck(rects[j].bounds, p)
  {
    if rects != [] && !BoundCheck(rects[0].bounds, p) {
      FirstHitIsLeast(rects[1..], p);
      assert forall j :: 1 <= j < |rects| ==> rects[j] == rects[1..][j - 1];
    }
  }

  /** `rectArray`: clickable rectangles laid out relative to `offset`, and
      the rectangle currently under the mouse. The `onClick` callback of
      the receiver becomes the id `Update` returns. */
  class RectArray {
    var offset: Point
    var rects: seq<RectElement>
    var focusActive: bool
    var focusRect: Rect

    /** A zero `rectArray` after `init`: no rectangles yet. */
    constructor ()
      ensures offset == Point(0.0, 0.0) && rects == []
      ensures !focusActive && focusRect == Rect(0.0, 0.0, 0.0, 0.0)
    {
      offset := Point(0.0, 0.0);
      rects := [];
      focusActive := false;
      focusRect := Rect(0.0, 0.0, 0.0, 0.0);
    }

    method SetOffset(p: Point)
      modifies this
      ensures offset == p && rects == old(rects)
      ensures focusActive == old(focusActive) && focusRect == old(focusRect)
    {
      offset := p;
    }

    method Add(r: Rect, userID: int)
      modifies this
      ensures rects == old(rects) + [RectElement(userID, r)]
      ensures offset == old(offset)
      ensures focusActive == old(focusActive) && focusRect == old(focusRect)
    {
      rects := rects + [RectElement(userID, r)];
    }

    /** `update`: focuses the first rectangle under the mouse (relative to
      `offset`) and, on a left click, reports its id. */
    method Update(mPos: Point, mLeft: bool) returns (clicked: Option<int>)
      modifies this
      ensures offset == old(offset) && rects == old(rects)
      ensures var hit := FirstHit(rects, Sub(mPos, offset));
        focusActive == hit.Some? &&
        (hit.Some? ==> focusRect == rects[hit.value].bounds) &&
        (hit.None? ==> focusRect == old(focusRect)) &&
        clicked == if hit.Some? && mLeft then Some(rects[hit.value].userID) else None
    {
      focusActive := false;
      clicked := None;
      var relPos := Sub(mPos, offset);
      FirstHitIsLeast(rects, relPos);
      var i := 0;
      while i < |rects|
        invariant 0 <= i <= |rects|
        invariant forall j :: 0 <= j < i ==> !BoundCheck(rects[j].bounds, relPos)
        invariant !focusActive && clicked == None && focusRect == old(focusRect)
      {
        if BoundCheck(rects[i].bounds, relPos) {
          focusActive := true;
          focusRect := rects[i].bounds;
          if mLeft {
            clicked := Some(rects[i].userID);
          }
          break;
        }
        i := i + 1;
      }
    }
  }
}
