/** The task list column of list.go: one row per task, stacked from the top
    of a 200 by 600 column, and the "New Task" button at its bottom. */
module Lists {
  import opened Common
  import opened Geometry
  import opened Slices
  import opened TextBoxes
  import opened Signals

  /** `initialTaskCap` of todo.go: how many rows (and tasks) fit. */
  const INITIAL_TASK_CAP := 20
  const ITEM_PADDING: real := 4.0
  /** `itemHeight`: the text size plus padding above and below, 28. */
  const ITEM_HEIGHT: real := TEXT_SIZE + ITEM_PADDING * 2.0
  const LIST_WIDTH: real := 200.0
  /** `windowHeight` of todo.go. */
  const WINDOW_HEIGHT: real := 600.0

  /** The whole column, `l.rect.full`. */
  const LIST_RECT := Rect(0.0, 0.0, LIST_WIDTH, WINDOW_HEIGHT)
  /** The "New Task" button: a strip twice the text size high cut from the
      bottom of the column. */
  const ADD_BUTTON := CutPiece(LIST_RECT, Down, TEXT_SIZE * 2.0)

  /** `listItem` without its animations: the row, where its text starts,
      and its check box. */
  datatype ListItem = ListItem(rect: Rect, textPosition: Point, checkRect: Rect)

  /** The zero `listItem`. */
  const EMPTY_ITEM := ListItem(Rect(0.0, 0.0, 0.0, 0.0), Point(0.0, 0.0), Rect(0.0, 0.0, 0.0, 0.0))

  /** The geometry `addItem` and `orderItems` give row i: the full width of
      the column at height i * itemHeight, the text inset by the padding,
      and a 16 by 16 check box against the right edge. */
  function RowItem(i: int): ListItem {
    var rect := Rect(0.0, i as real * ITEM_HEIGHT, LIST_WIDTH, ITEM_HEIGHT);
    var text := Point(rect.x + ITEM_PADDING, rect.y + ITEM_PADDING);
    ListItem(rect, text,
      Rect(rect.x + rect.width - ITEM_HEIGHT, text.py + ITEM_PADDING / 2.0,
           TEXT_SIZE - ITEM_PADDING, TEXT_SIZE - ITEM_PADDING))
  }

  /** Consecutive rows touch without overlapping, and each row's text and
      check box lie inside it. */
  lemma RowsStack(i: int)
    ensures RowItem(i).rect.y + RowItem(i).rect.height == RowItem(i + 1).rect.y
    ensures RowItem(i).rect.x == 0.0 && RowItem(i).rect.width == LIST_WIDTH
    ensures BoundCheck(RowItem(i).rect, RowItem(i).textPosition)
    ensures var c := RowItem(i).checkRect;
      BoundCheck(RowItem(i).rect, Point(c.x, c.y)) &&
      BoundCheck(RowItem(i).rect, Point(c.x + c.width, c.y + c.height))
  {
  }

  /** Go's conversion `int(x)` of a float: truncation toward zero. */
  function TruncToInt(x: real): (r: int)
    ensures x >= 0.0 ==> 0 <= r && r as real <= x < r as real + 1.0
    ensures x < 0.0 ==> r <= 0 && x <= r as real
  {
    if x >= 0.0 then x.Floor else -((-x).Floor)
  }

  /** The row under the point, `int(mPos[1] / itemHeight)`. */
  function RowAt(p: Point): int {
    TruncToInt(p.py / ITEM_HEIGHT)
  }

  /** What `update` returns: the row clicked, or -1. */
  function Selection(count: int, mPos: Point, mLeft: bool): int {
    if mLeft && BoundCheck(LIST_RECT, mPos) && RowAt(mPos) < count then RowAt(mPos) else -1
  }

  /** In the column, the computed row is the one whose band holds the point:
      its top edge included, its bottom edge belonging to the next row. */
  lemma RowAtBand(p: Point)
    requires BoundCheck(LIST_RECT, p)
    ensures var i := RowAt(p);
      0 <= i && i as real * ITEM_HEIGHT <= p.py < (i + 1) as real * ITEM_HEIGHT &&
      BoundCheck(RowItem(i).rect, p)
  {
    var i := RowAt(p);
    var q := p.py / ITEM_HEIGHT;
    assert i as real <= q < i as real + 1.0;
    assert p.py == q * ITEM_HEIGHT;
  }

  /** A click selects a row exactly when it is a left click inside the
      column above the bottom of the last row; the row selected is one of
      the `count` rows and contains the click. */
  lemma SelectionIsClickedRow(count: int, mPos: Point, mLeft: bool)
    ensures Selection(count, mPos, mLeft) >= 0 <==>
      mLeft && BoundCheck(LIST_RECT, mPos) && mPos.py < count as real * ITEM_HEIGHT
    ensures var i := Selection(count, mPos, mLeft);
      i >= 0 ==> i < count && BoundCheck(RowItem(i).rect, mPos)
  {
    if BoundCheck(LIST_RECT, mPos) {
      RowAtBand(mPos);
      var i := RowAt(mPos);
      if i < count {
        assert (i + 1) as real * ITEM_HEIGHT <= count as real * ITEM_HEIGHT;
      } else {
        assert count as real * ITEM_HEIGHT <= i as real * ITEM_HEIGHT;
      }
    }
  }

  /** The "New Task" branch of `update`: the point is in the column, below
      the last live row, and on the button. */
  predicate OnAddButton(count: int, p: Point) {
    BoundCheck(LIST_RECT, p) && !(RowAt(p) < count) && BoundCheck(ADD_BUTTON, p)
  }

  /** The button starts exactly where a full list of `initialTaskCap` rows
      ends, so every row lies above it, and a point on the button is never
      on a live row: for any list that fits, the row branch of `update`
      cannot take a click on the button. */
  lemma ButtonBelowRows(count: int, p: Point)
    requires count <= INITIAL_TASK_CAP
    ensures INITIAL_TASK_CAP as real * ITEM_HEIGHT == ADD_BUTTON.y
    ensures forall i :: 0 <= i < INITIAL_TASK_CAP ==>
      RowItem(i).rect.y + RowItem(i).rect.height <= ADD_BUTTON.y
    ensures OnAddButton(count, p) <==> BoundCheck(LIST_RECT, p) && BoundCheck(ADD_BUTTON, p)
  {
    forall i | 0 <= i < INITIAL_TASK_CAP
      ensures RowItem(i).rect.y + RowItem(i).rect.height <= ADD_BUTTON.y
    {
      assert (i + 1) as real <= INITIAL_TASK_CAP as real;
    }
    if BoundCheck(LIST_RECT, p) && BoundCheck(ADD_BUTTON, p) {
      RowAtBand(p);
      var i := RowAt(p);
      assert ADD_BUTTON.y <= p.py < (i + 1) as real * ITEM_HEIGHT;
      assert INITIAL_TASK_CAP <= i;
    }
  }

  /** `OnAnimationEnd`: the end of a row's "remove" animation is reported
      as `todoTaskRemoveAnimationDone`; the end of any other animation is
      not reported. */
  function OnAnimationEnd(name: string): (s: Option<Signal>)
    ensures s.Some? <==> name == "remove"
    ensures s.Some? ==> s.value == TaskRemoveAnimationDone
  {
    if name == "add" then None
    else if name == "remove" then Some(TaskRemoveAnimationDone)
    else None
  }

  /** `listWindow`. The pointers `hovered`, `previousHovered` and
      `selected` into `items` are slot indices. */
  class ListWindow {
    const items: array<ListItem>
    /** Where `removeItem` starts its shift; never assigned, so 0. */
    const removeIndex: nat
    var count: int
    var hovered: Option<nat>
    var previousHovered: Option<nat>
    var selected: Option<nat>
    var shouldHighlight: bool
    var highlightRect: Rect

    /** The live rows hold the geometry of their position. */
    ghost predicate Valid()
      reads this, items
    {
      items.Length == INITIAL_TASK_CAP && 0 <= count <= items.Length && removeIndex < items.Length &&
      forall i :: 0 <= i < count ==> items[i] == RowItem(i)
    }

    /** `init`: an empty list of `initialTaskCap` slots. */
    constructor ()
      ensures Valid() && fresh(items) && count == 0 && removeIndex == 0
      ensures items[..] == seq(INITIAL_TASK_CAP, _ => EMPTY_ITEM)
      ensures hovered == None && previousHovered == None && selected == None
      ensures !shouldHighlight
    {
      items := new ListItem[INITIAL_TASK_CAP](_ => EMPTY_ITEM);
      removeIndex := 0;
      count := 0;
      hovered, previousHovered, selected := None, None, None;
      shouldHighlight := false;
      highlightRect := Rect(0.0, 0.0, 0.0, 0.0);
    }

    /** `addItem`: a row for one more task, placed below the others. The
      source's growth test `count > len(items)` comes before the write and
      cannot hold, so the write needs a free slot. */
    method AddItem()
      requires Valid() && count < items.Length
      modifies this, items
      ensures Valid() && count == old(count) + 1
      ensures items[..] == old(items[..])[old(count) := RowItem(old(count))]
      ensures hovered == old(hovered) && previousHovered == old(previousHovered)
      ensures selected == old(selected)
      ensures shouldHighlight == old(shouldHighlight) && highlightRect == old(highlightRect)
    {
      var rect := Rect(0.0, count as real * ITEM_HEIGHT, LIST_WIDTH, ITEM_HEIGHT);
      var textPos := Point(rect.x + ITEM_PADDING, rect.y + ITEM_PADDING);
      var item := ListItem(rect, textPos,
        Rect(rect.x + rect.width - ITEM_HEIGHT, textPos.py + ITEM_PADDING / 2.0,
             TEXT_SIZE - ITEM_PADDING, TEXT_SIZE - ITEM_PADDING));
      if count > items.Length {
        assert false;
      }
      items[count] := item;
      count := count + 1;
    }

    /** `removeItem(at)`: deletes the row at `removeIndex` (not at `at`) by
      shifting the later rows left, then lays the remaining rows out again.
      The live rows come out the same whichever row was shifted out; only
      the slots past the end show where the shift started. */
    method RemoveItem(at: int)
      requires Valid() && count >= 1
      modifies this, items
      ensures Valid() && count == old(count) - 1
      ensures forall k :: count <= k < items.Length ==>
        items[k] == ShiftedLeft(old(items[..]), removeIndex)[k]
      ensures hovered == old(hovered) && previousHovered == old(previousHovered)
      ensures selected == old(selected)
      ensures shouldHighlight == old(shouldHighlight) && highlightRect == old(highlightRect)
    {
      ShiftLeft(items, removeIndex);
      count := count - 1;
      OrderItems();
    }

    /** `orderItems`: gives each live row the geometry of its position;
      the slots past `count` are left as they are. */
    method OrderItems()
      requires items.Length == INITIAL_TASK_CAP && 0 <= count <= items.Length
      modifies items
      ensures forall i :: 0 <= i < count ==> items[i] == RowItem(i)
      ensures forall i :: count <= i < items.Length ==> items[i] == old(items[i])
    {
      var i := 0;
      while i < count
        invariant 0 <= i <= count
        invariant forall j :: 0 <= j < i ==> items[j] == RowItem(j)
        invariant forall j :: i <= j < items.Length ==> items[j] == old(items[j])
      {
        var rect := Rect(0.0, (i as real) * ITEM_HEIGHT, LIST_WIDTH, ITEM_HEIGHT);
        var textPos := Point(rect.x + ITEM_PADDING, rect.y + ITEM_PADDING);
        items[i] := ListItem(rect, textPos,
          Rect(rect.x + rect.width - ITEM_HEIGHT, textPos.py + ITEM_PADDING / 2.0,
               TEXT_SIZE - ITEM_PADDING, TEXT_SIZE - ITEM_PADDING));
        i := i + 1;
      }
    }

    /** `update` up to the animation loop: hovers the row under the mouse,
      highlights the row (or its check box, or the button), and on a left
      click returns the row clicked (and records it as selected), reports a
      click on "New Task" as `todoAddBtnPressed`, or, on empty space in the
      column, drops the selection. */
    method Update(mPos: Point, mLeft: bool) returns (sel: int, addPressed: bool)
      requires Valid()
      modifies this
      ensures Valid() && count == old(count)
      ensures sel == Selection(count, mPos, mLeft)
      ensures previousHovered == old(hovered)
      ensures var inList := BoundCheck(LIST_RECT, mPos);
        var onRow := inList && RowAt(mPos) < count;
        var onButton := OnAddButton(count, mPos);
        (hovered.Some? <==> onRow) &&
        (onRow ==> hovered.value == RowAt(mPos)) &&
        (shouldHighlight <==> onRow || onButton) &&
        var row := RowItem(RowAt(mPos));
        (onRow ==> highlightRect == if BoundCheck(row.checkRect, mPos) then row.checkRect else row.rect) &&
        (onButton ==> highlightRect == ADD_BUTTON) &&
        (addPressed <==> onButton && mLeft) &&
        selected == (if onRow && mLeft then Some(RowAt(mPos) as nat)
                     else if inList && !onRow && !onButton && mLeft then None
                     else old(selected))
    {
      sel := -1;
      addPressed := false;
      shouldHighlight := false;
      previousHovered := hovered;
      hovered := None;
      if BoundCheck(LIST_RECT, mPos) {
        var index := TruncToInt(mPos.py / ITEM_HEIGHT);
        if index < count {
          hovered := Some(index);
          shouldHighlight := true;
          if BoundCheck(items[index].checkRect, mPos) {
            highlightRect := items[index].checkRect;
          } else {
            highlightRect := items[index].rect;
          }
          if mLeft {
            sel := index;
            selected := hovered;
          }
        } else if BoundCheck(ADD_BUTTON, mPos) {
          shouldHighlight := true;
          highlightRect := ADD_BUTTON;
          if mLeft {
            addPressed := true;
          }
        } else if mLeft {
          selected := None;
        }
      }
    }
  }
}
