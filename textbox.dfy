/** The single-line text input `textBox` of utils.go: a fixed rune buffer,
    a count of the runes in use, and a cursor placed after the last one. */
module TextBoxes {
  import opened Common
  import opened Geometry

  /** `defaultTextBoxCap`: the buffer's fixed size. */
  const CAPACITY := 100
  /** `textSize` of todo.go, the cursor's height. */
  const TEXT_SIZE: real := 20.0
  /** The cursor's width. */
  const CURSOR_WIDTH: real := 2.0

  /** The horizontal advance of a run of text: the sum of the advances of
      its glyphs. */
  function TextWidth(advance: Rune -> real, s: seq<Rune>): real
  {
    if s == [] then 0.0 else TextWidth(advance, s[..|s| - 1]) + advance(s[|s| - 1])
  }

  /** The cursor drawn after a given text. */
  function CursorAfter(advance: Rune -> real, s: seq<Rune>): Rect
  {
    Rect(TextWidth(advance, s), 0.0, CURSOR_WIDTH, TEXT_SIZE)
  }

  class TextBox {
    /** `font.GlyphAdvance(_, fontSize)` for the font and size the box was
      initialised with. */
    const advance: Rune -> real
    const charBuf: array<Rune>
    var charCount: int
    var cursor: Rect

    /** The cursor always sits right after the text entered so far. */
    ghost predicate Valid()
      reads this, charBuf
    {
      charBuf.Length == CAPACITY && 0 <= charCount <= CAPACITY &&
      cursor == CursorAfter(advance, charBuf[..charCount])
    }

    /** `GetText`: the runes entered so far. */
    function GetText(): (s: seq<Rune>)
      requires Valid()
      reads this, charBuf
      ensures |s| == charCount
    {
      charBuf[..charCount]
    }

    /** `init`: an empty box with its cursor at the origin. */
    constructor (advance: Rune -> real)
      ensures Valid() && fresh(charBuf)
      ensures this.advance == advance && GetText() == []
      ensures cursor == Rect(0.0, 0.0, CURSOR_WIDTH, TEXT_SIZE)
    {
      this.advance := advance;
      charBuf := new Rune[CAPACITY](_ => 0);
      charCount := 0;
      cursor := Rect(0.0, 0.0, CURSOR_WIDTH, TEXT_SIZE);
    }

    /** `AppendChar`: adds r to the text and moves the cursor past it. The
      source writes past the buffer (a panic) when it is full. */
    method AppendChar(r: Rune)
      requires Valid() && charCount < CAPACITY
      modifies this, charBuf
      ensures Valid()
      ensures GetText() == old(GetText()) + [r]
      ensures cursor.x == old(cursor.x) + advance(r)
    {
      charBuf[charCount] := r;
      ghost var s := charBuf[..charCount + 1];
      assert s[..|s| - 1] == old(GetText());
      charCount := charCount + 1;
      cursor := cursor.(x := cursor.x + advance(r));
    }

    /** `DeleteChar`: drops the last rune, if any, and moves the cursor back
      over it; on an empty box nothing changes. */
    method DeleteChar()
      requires Valid()
      modifies this
      ensures Valid()
      ensures old(charCount) == 0 ==> GetText() == [] && cursor == old(cursor)
      ensures old(charCount) > 0 ==> GetText() + [old(GetText())[old(charCount) - 1]] == old(GetText())
    {
      if charCount > 0 {
        var r := charBuf[charCount - 1];
        ghost var s := charBuf[..charCount];
        assert s[..|s| - 1] == charBuf[..charCount - 1];
        charCount := charCount - 1;
        cursor := cursor.(x := cursor.x - advance(r));
      }
    }

    /** `Clear`: empties the text and sends the cursor home. */
    method Clear()
      requires Valid()
      modifies this
      ensures Valid() && GetText() == []
      ensures cursor == Rect(0.0, 0.0, CURSOR_WIDTH, TEXT_SIZE)
    {
      cursor := Rect(0.0, 0.0, CURSOR_WIDTH, TEXT_SIZE);
      charCount := 0;
    }
  }

  /** The typing loop of the add window's `update` as written: each typed
      rune goes to `AppendChar` with no check against the buffer's size.
      `None` stands for the index-out-of-range panic of a write into a full
      buffer. */
  function TypeAsWritten(text: seq<Rune>, runes: seq<Rune>): (r: Option<seq<Rune>>)
    requires |text| <= CAPACITY
    decreases |runes|
  {
    if runes == [] then Some(text)
    else if |text| == CAPACITY then None
    else TypeAsWritten(text + [runes[0]], runes[1..])
  }

  /** Typing panics exactly when the text would grow past the buffer;
      otherwise every rune is appended. */
  lemma {:induction false} TypeAsWrittenPanics(text: seq<Rune>, runes: seq<Rune>)
    requires |text| <= CAPACITY
    ensures TypeAsWritten(text, runes).None? <==> |text| + |runes| > CAPACITY
    ensures TypeAsWritten(text, runes).Some? ==> TypeAsWritten(text, runes).value == text + runes
    decreases |runes|
  {
    if runes != [] && |text| < CAPACITY {
      TypeAsWrittenPanics(text + [runes[0]], runes[1..]);
      assert (text + [runes[0]]) + runes[1..] == text + runes;
    }
  }

  /** A name of 100 runes followed by one more typed rune crashes. */
  lemma HundredAndFirstRunePanics()
    ensures TypeAsWritten(seq(CAPACITY, _ => 97), []).Some?
    ensures TypeAsWritten(seq(CAPACITY, _ => 97), [97]).None?
  {
    TypeAsWrittenPanics(seq(CAPACITY, _ => 97), [97]);
  }

  /** The evidently intended typing loop: runes that no longer fit the
      buffer are dropped. */
  function TypeCapped(text: seq<Rune>, runes: seq<Rune>): (r: seq<Rune>)
    requires |text| <= CAPACITY
    decreases |runes|
  {
    if runes == [] || |text| == CAPACITY then text
    else TypeCapped(text + [runes[0]], runes[1..])
  }

  /** The capped loop never overflows: the text is what was typed, cut at
      the buffer's size, and it agrees with the code as written whenever
      that does not panic. */
  lemma {:induction false} TypeCappedFits(text: seq<Rune>, runes: seq<Rune>)
    requires |text| <= CAPACITY
    ensures var r := TypeCapped(text, runes);
      |r| == if |text| + |runes| <= CAPACITY then |text| + |runes| else CAPACITY
    ensures var r := TypeCapped(text, runes);
      r == (text + runes)[..|r|]
    ensures TypeAsWritten(text, runes).Some? ==> TypeAsWritten(text, runes).value == TypeCapped(text, runes)
    decreases |runes|
  {
    if runes != [] && |text| < CAPACITY {
      TypeCappedFits(text + [runes[0]], runes[1..]);
      assert (text + [runes[0]]) + runes[1..] == text + runes;
    }
  }
}
