/** The counters of addwindow.go's "Add new Task" form: the number of
    sessions, the work length and the rest length, each moved by a pair of
    buttons, clamped to 1..999 and shown through `numberToString`; the name
    input; and the "Add" button that turns the form into a task. */
module AddWindows {
  import opened Common
  import opened Digits
  import opened TextBoxes
  import opened Signals
  import opened Tasks

  /** The element ids the form registers with its rect array. */
  const INPUT_BOX_ID := 0
  const DEC_COUNT_ID := 1
  const INC_COUNT_ID := 2
  const DEC_WORK_ID := 3
  const INC_WORK_ID := 4
  const INC_REST_ID := 5
  const DEC_REST_ID := 6
  const ADD_BTN_ID := 7

  /** The bounds every counter is clamped to. */
  const LOWEST := 1
  const HIGHEST := 999

  /** The name a task gets when the name input is left empty. */
  const UNNAMED: string := "Unnamed Task"

  /** A decrement button: one less, but never below 1. */
  function Lowered(v: int): (r: int)
    ensures r >= LOWEST
    ensures v > LOWEST ==> r == v - 1
    ensures v <= LOWEST ==> r == LOWEST
  {
    if v - 1 < LOWEST then LOWEST else v - 1
  }

  /** An increment button: one more, but never above 999. */
  function Raised(v: int): (r: int)
    ensures r <= HIGHEST
    ensures v < HIGHEST ==> r == v + 1
    ensures v >= HIGHEST ==> r == HIGHEST
  {
    if v + 1 > HIGHEST then HIGHEST else v + 1
  }

  predicate InRange(v: int) {
    LOWEST <= v <= HIGHEST
  }

  /** The buttons keep a counter in range, and inside the range each undoes
      the other: only the ends of the range absorb a click. */
  lemma ButtonsUndoEachOther(v: int)
    requires InRange(v)
    ensures InRange(Lowered(v)) && InRange(Raised(v))
    ensures v < HIGHEST ==> Lowered(Raised(v)) == v
    ensures v > LOWEST ==> Raised(Lowered(v)) == v
    ensures Lowered(v) == v <==> v == LOWEST
    ensures Raised(v) == v <==> v == HIGHEST
  {
  }

  /** The text shown for a counter: `numberToString`'s runes as a string. */
  function Shown(v: int): string {
    RunesToString(DecimalText(v))
  }

  /** Every counter in range fits its three-rune buffer and the text shown
      names its value: it is made of numerals that read back as it. */
  lemma ShownReadsBack(v: int)
    requires InRange(v)
    ensures |DecimalText(v)| <= 3
    ensures v >= 10 ==> |LsbDigits(v)| <= 3
    ensures ParseDecimal(DecimalText(v)) == v
    ensures forall k :: 0 <= k < |DecimalText(v)| ==> IsDigit(DecimalText(v)[k])
  {
    DecimalTextFitsThree(v);
    DecimalTextParses(v);
  }

  class AddWindow {
    var active: bool
    var dirty: bool
    var nameInputSelected: bool
    const nameInput: TextBox

    var countValue: int
    const countBuf: array<Rune>
    var countText: string

    var workLengthValue: int
    const workLengthBuf: array<Rune>
    var workLengthText: string

    var restLengthValue: int
    const restLengthBuf: array<Rune>
    var restLengthText: string

    /** `minSessionCount`, which the program defines elsewhere: the count
      the form starts from and returns to. */
    const minSessionCount: int

    ghost const Repr: set<object>

    /** Each counter lies in 1..999 and its text is its `numberToString`
      text; the three buffers are three different arrays. */
    ghost predicate Valid()
      reads this, Repr
    {
      Repr == {this, nameInput, nameInput.charBuf, countBuf, workLengthBuf, restLengthBuf} &&
      nameInput.Valid() &&
      countBuf.Length == 3 && workLengthBuf.Length == 3 && restLengthBuf.Length == 3 &&
      countBuf != workLengthBuf && countBuf != restLengthBuf && workLengthBuf != restLengthBuf &&
      InRange(minSessionCount) &&
      InRange(countValue) && InRange(workLengthValue) && InRange(restLengthValue) &&
      countText == Shown(countValue) && workLengthText == Shown(workLengthValue) &&
      restLengthText == Shown(restLengthValue)
    }

    /** The value part of `init`: both lengths at `minSessionLength`, the
      count at `minSessionCount`, texts formatted, the window dirty and
      inactive, and an empty name input. */
    constructor (advance: Rune -> real, minSessionCount: int)
      requires InRange(minSessionCount)
      ensures Valid() && fresh(Repr)
      ensures !active && dirty && !nameInputSelected && nameInput.GetText() == []
      ensures countValue == minSessionCount && this.minSessionCount == minSessionCount
      ensures workLengthValue == MIN_SESSION_LENGTH && restLengthValue == MIN_SESSION_LENGTH
    {
      var input := new TextBox(advance);
      nameInput := input;
      countBuf := new Rune[3](_ => 0);
      workLengthBuf := new Rune[3](_ => 0);
      restLengthBuf := new Rune[3](_ => 0);
      this.minSessionCount := minSessionCount;
      Repr := {this, input, input.charBuf, countBuf, workLengthBuf, restLengthBuf};
      active := false;
      nameInputSelected := false;
      new;
      workLengthValue := MIN_SESSION_LENGTH;
      restLengthValue := MIN_SESSION_LENGTH;
      FormatLength();
      countValue := minSessionCount;
      FormatCount();
      dirty := true;
    }

    /** `formatLength`: both length texts are regenerated from their values. */
    method FormatLength()
      requires workLengthBuf != restLengthBuf
      requires workLengthBuf.Length == 3 && restLengthBuf.Length == 3
      requires InRange(workLengthValue) && InRange(restLengthValue)
      modifies this, workLengthBuf, restLengthBuf
      ensures workLengthText == Shown(workLengthValue) && restLengthText == Shown(restLengthValue)
      ensures |DecimalText(workLengthValue)| <= 3 && workLengthBuf[..|DecimalText(workLengthValue)|] == DecimalText(workLengthValue)
      ensures |DecimalText(restLengthValue)| <= 3 && restLengthBuf[..|DecimalText(restLengthValue)|] == DecimalText(restLengthValue)
      ensures active == old(active) && dirty == old(dirty) && nameInputSelected == old(nameInputSelected)
      ensures countValue == old(countValue) && countText == old(countText)
      ensures workLengthValue == old(workLengthValue) && restLengthValue == old(restLengthValue)
    {
      ShownReadsBack(workLengthValue);
      ShownReadsBack(restLengthValue);
      var workCount := NumberToString(workLengthValue, workLengthBuf);
      workLengthText := RunesToString(workLengthBuf[..workCount]);
      var restCount := NumberToString(restLengthValue, restLengthBuf);
      restLengthText := RunesToString(restLengthBuf[..restCount]);
    }

    /** `formatCount`: the count text is regenerated from its value. */
    method FormatCount()
      requires countBuf.Length == 3 && InRange(countValue)
      modifies this, countBuf
      ensures countText == Shown(countValue)
      ensures |DecimalText(countValue)| <= 3 && countBuf[..|DecimalText(countValue)|] == DecimalText(countValue)
      ensures active == old(active) && dirty == old(dirty) && nameInputSelected == old(nameInputSelected)
      ensures countValue == old(countValue)
      ensures workLengthValue == old(workLengthValue) && workLengthText == old(workLengthText)
      ensures restLengthValue == old(restLengthValue) && restLengthText == old(restLengthText)
    {
      ShownReadsBack(countValue);
      var count := NumberToString(countValue, countBuf);
      countText := RunesToString(countBuf[..count]);
    }

    /** The task the "Add" button sends: the typed name, or "Unnamed Task"
      when none was typed, with the current count and lengths. The name is
      never empty, and a typed name spells the typed runes one by one. */
    function Request(): (r: TaskRequest)
      requires Valid()
      reads this, Repr
      ensures |r.name| > 0
      ensures nameInput.charCount == 0 ==> r.name == UNNAMED
      ensures nameInput.charCount > 0 ==>
        |r.name| == nameInput.charCount &&
        forall k :: 0 <= k < |r.name| ==> r.name[k] == RuneToChar(nameInput.GetText()[k])
    {
      var name := if nameInput.charCount == 0 then UNNAMED else RunesToString(nameInput.GetText());
      TaskRequest(name, countValue, workLengthValue, restLengthValue)
    }

    /** `onClick(userID)`. The input box selects the name input; a counter
      button moves its counter within 1..999 and reformats it; "Add" sends
      the task the form describes and puts the form back to its start:
      deselected and cleared input, counters at their minimums, window
      inactive. Any click that changes something marks the window dirty;
      an unknown id changes nothing. */
    method OnClick(id: int) returns (request: Option<TaskRequest>)
      requires Valid()
      modifies this, countBuf, workLengthBuf, restLengthBuf, nameInput
      ensures Valid()
      ensures request.Some? <==> id == ADD_BTN_ID
      ensures id == ADD_BTN_ID ==>
        request.value == old(Request()) &&
        !nameInputSelected && nameInput.GetText() == [] && !active && dirty &&
        countValue == minSessionCount &&
        workLengthValue == MIN_SESSION_LENGTH && restLengthValue == MIN_SESSION_LENGTH
      ensures id != ADD_BTN_ID ==>
        active == old(active) && nameInput.GetText() == old(nameInput.GetText()) &&
        nameInputSelected == (old(nameInputSelected) || id == INPUT_BOX_ID) &&
        dirty == (old(dirty) || INPUT_BOX_ID <= id < ADD_BTN_ID) &&
        countValue == (if id == DEC_COUNT_ID then Lowered(old(countValue))
                       else if id == INC_COUNT_ID then Raised(old(countValue)) else old(countValue)) &&
        workLengthValue == (if id == DEC_WORK_ID then Lowered(old(workLengthValue))
                            else if id == INC_WORK_ID then Raised(old(workLengthValue)) else old(workLengthValue)) &&
        restLengthValue == (if id == DEC_REST_ID then Lowered(old(restLengthValue))
                            else if id == INC_REST_ID then Raised(old(restLengthValue)) else old(restLengthValue))
    {
      request := None;
      if id == ADD_BTN_ID {
        request := Some(Request());
        Reopen();
      } else {
        Adjust(id);
      }
    }

    /** Every case of `onClick` but "Add": select the input, or move one
      counter and reformat it. */
    method Adjust(id: int)
      requires Valid() && id != ADD_BTN_ID
      modifies this, countBuf, workLengthBuf, restLengthBuf
      ensures Valid()
      ensures active == old(active) &&
        nameInputSelected == (old(nameInputSelected) || id == INPUT_BOX_ID) &&
        dirty == (old(dirty) || INPUT_BOX_ID <= id < ADD_BTN_ID)
      ensures countValue == (if id == DEC_COUNT_ID then Lowered(old(countValue))
                             else if id == INC_COUNT_ID then Raised(old(countValue)) else old(countValue))
      ensures workLengthValue == (if id == DEC_WORK_ID then Lowered(old(workLengthValue))
                                  else if id == INC_WORK_ID then Raised(old(workLengthValue)) else old(workLengthValue))
      ensures restLengthValue == (if id == DEC_REST_ID then Lowered(old(restLengthValue))
                                  else if id == INC_REST_ID then Raised(old(restLengthValue)) else old(restLengthValue))
    {
      if id == INPUT_BOX_ID {
        nameInputSelected := true;
        dirty := true;
      } else if id == DEC_COUNT_ID || id == INC_COUNT_ID {
        countValue := if id == DEC_COUNT_ID then Lowered(countValue) else Raised(countValue);
        FormatCount();
        dirty := true;
      } else if id == DEC_WORK_ID || id == INC_WORK_ID {
        workLengthValue := if id == DEC_WORK_ID then Lowered(workLengthValue) else Raised(workLengthValue);
        FormatLength();
        dirty := true;
      } else if id == DEC_REST_ID || id == INC_REST_ID {
        restLengthValue := if id == DEC_REST_ID then Lowered(restLengthValue) else Raised(restLengthValue);
        FormatLength();
        dirty := true;
      }
    }

    /** The end of the "Add" case: the form back to its start. */
    method Reopen()
      requires Valid()
      modifies this, countBuf, workLengthBuf, restLengthBuf, nameInput
      ensures Valid()
      ensures !nameInputSelected && nameInput.GetText() == [] && !active && dirty
      ensures countValue == minSessionCount
      ensures workLengthValue == MIN_SESSION_LENGTH && restLengthValue == MIN_SESSION_LENGTH
    {
      nameInputSelected := false;
      workLengthValue := MIN_SESSION_LENGTH;
      restLengthValue := MIN_SESSION_LENGTH;
      FormatLength();
      countValue := minSessionCount;
      FormatCount();
      nameInput.Clear();
      dirty := true;
      active := false;
    }
  }
}
