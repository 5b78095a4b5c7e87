/** The application state of todo.go: a fixed-capacity store of tasks, the
    task selected in the list, the list window that mirrors the store, and
    the per-frame update that runs every started timer. */
module Todos {
  import opened Common
  import opened Geometry
  import opened Slices
  import opened Timers
  import opened Tasks
  import opened Lists
  import opened Signals

  /** The index of the first name equal to `name`, if any. */
  function FirstNamed(names: seq<string>, name: string): (r: Option<nat>)
    ensures r.Some? ==> r.value < |names|
  {
    if names == [] then None
    else if names[0] == name then Some(0)
    else match FirstNamed(names[1..], name)
      case None => None
      case Some(i) => Some(i + 1)
  }

  /** FirstNamed finds the least index holding the name, and nothing
      exactly when no entry holds it. */
  lemma {:induction false} FirstNamedIsLeast(names: seq<string>, name: string)
    ensures FirstNamed(names, name).None? <==> forall j :: 0 <= j < |names| ==> names[j] != name
    ensures FirstNamed(names, name).Some? ==>
      var i := FirstNamed(names, name).value;
      names[i] == name && forall j :: 0 <= j < i ==> names[j] != name
  {
    if names != [] && names[0] != name {
      FirstNamedIsLeast(names[1..], name);
      assert forall j :: 1 <= j < |names| ==> names[j] == names[1..][j - 1];
    }
  }

  /** An index holding the name, with no earlier one holding it, is what
      FirstNamed finds. */
  lemma {:induction false} FirstNamedAt(names: seq<string>, name: string, i: nat)
    requires i < |names| && names[i] == name
    requires forall j :: 0 <= j < i ==> names[j] != name
    ensures FirstNamed(names, name) == Some(i)
  {
    if i > 0 {
      FirstNamedAt(names[1..], name, i - 1);
    }
  }

  /** Looking up the selected task's own name always finds a task, at or
      before the selected one. It is the selected task itself exactly when
      no earlier task has the same name: with two tasks of the same name
      (say two "Unnamed Task"s) removing the later one removes the earlier. */
  lemma RemovesFirstNamesake(names: seq<string>, s: nat)
    requires s < |names|
    ensures FirstNamed(names, names[s]).Some?
    ensures FirstNamed(names, names[s]).value <= s
    ensures FirstNamed(names, names[s]).value == s <==> forall j :: 0 <= j < s ==> names[j] != names[s]
  {
    FirstNamedIsLeast(names, names[s]);
  }

  ghost function NamesOf(ts: seq<Task>): (names: seq<string>)
    ensures |names| == |ts| && forall i :: 0 <= i < |ts| ==> names[i] == ts[i].name
  {
    seq(|ts|, i requires 0 <= i < |ts| => ts[i].name)
  }

  /** No two tasks share a task object, a timer or a text buffer (a Go
      `task` is a value: each slot has its own). */
  predicate DistinctTasks(ts: seq<Task>) {
    forall i, j :: 0 <= i < j < |ts| ==>
      ts[i] != ts[j] && ts[i].timer != ts[j].timer && ts[i].timer.buf != ts[j].timer.buf
  }

  lemma DistinctWithout(ts: seq<Task>, i: nat)
    requires i < |ts| && DistinctTasks(ts)
    ensures DistinctTasks(ts[..i] + ts[i + 1..])
  {
    var r := ts[..i] + ts[i + 1..];
    assert forall k :: 0 <= k < |r| ==> r[k] == ts[if k < i then k else k + 1];
  }

  /** `Todo`. The `selected` pointer into `tasks` is a slot index. */
  class Todo {
    const tasks: array<Task>
    var count: int
    const cap: int
    var selected: Option<nat>
    const list: ListWindow
    ghost var Repr: set<object>

    /** The store invariant: the count fits the array, so the growth branch
      of `addTask` cannot be taken; the list has a row per task; the live
      tasks are distinct and keep their counting invariant; a selection
      names a live task. */
    ghost predicate Valid()
      reads this, Repr
    {
      this in Repr && tasks in Repr && list in Repr && list.items in Repr &&
      tasks.Length == INITIAL_TASK_CAP && cap == INITIAL_TASK_CAP &&
      0 <= count <= tasks.Length &&
      list.Valid() && list.count == count &&
      DistinctTasks(tasks[..count]) &&
      (forall i :: 0 <= i < count ==>
        tasks[i].Repr() <= Repr && tasks[i].Valid()) &&
      (selected.Some? ==> selected.value < count)
    }

    /** `Init`, without the resources and the other windows: room for
      `initialTaskCap` zero tasks, none in use, nothing selected. */
    constructor ()
      ensures Valid() && fresh(Repr)
      ensures count == 0 && selected == None && list.count == 0
    {
      var zero := new Task("", 0, 0);
      tasks := new Task[INITIAL_TASK_CAP](_ => zero);
      cap := INITIAL_TASK_CAP;
      count := 0;
      selected := None;
      list := new ListWindow();
      new;
      Repr := {this, tasks, list, list.items};
    }

    /** `addTask`: initialises the new task and stores it after the others,
      and adds its row to the list. The growth test comes before the write
      and cannot hold, so the store must have a free slot. */
    method AddTask(request: TaskRequest)
      requires Valid() && count < tasks.Length
      modifies this, tasks, list, list.items
      ensures Valid() && fresh(Repr - old(Repr))
      ensures count == old(count) + 1 && selected == old(selected)
      ensures tasks[..old(count)] == old(tasks[..count])
      ensures tasks[old(count) + 1..] == old(tasks[count + 1..])
      ensures var t := tasks[old(count)];
        fresh(t) && t.name == request.name && t.sessionRequired == request.sessionRequired &&
        t.sessionLength == request.sessionLength &&
        t.State() == TaskState(false, 0, Clock(false, request.sessionLength, 0, 0)) &&
        t.timer.buf[..] == Render(request.sessionLength, 0)
    {
      var t := new Task(request.name, request.sessionRequired, request.sessionLength);
      t.Init();
      if count > tasks.Length {
        assert false;
      }
      Store(t);
    }

    /** The write of `addTask`: a fresh, initialised task goes into the
      first free slot and the list gains a row. */
    method Store(t: Task)
      requires Valid() && count < tasks.Length
      requires t.Repr() !! Repr && t.Valid()
      modifies this, tasks, list, list.items
      ensures Valid() && Repr == old(Repr) + t.Repr()
      ensures count == old(count) + 1 && selected == old(selected)
      ensures tasks[..] == old(tasks[..])[old(count) := t]
      ensures unchanged(t, t.timer, t.timer.buf)
    {
      Place(t);
      list.AddItem();
    }

    /** `t.tasks[t.count] = newTask` and the increment. */
    method Place(t: Task)
      requires Valid() && count < tasks.Length
      requires t.Repr() !! Repr && t.Valid()
      modifies this, tasks
      ensures Repr == old(Repr) + t.Repr()
      ensures count == old(count) + 1 && selected == old(selected)
      ensures tasks[..] == old(tasks[..])[old(count) := t]
      ensures DistinctTasks(tasks[..count])
      ensures forall k :: 0 <= k < count ==>
        tasks[k].Repr() <= Repr && tasks[k].Valid()
    {
      ghost var before := tasks[..count];
      tasks[count] := t;
      count := count + 1;
      Repr := Repr + t.Repr();
      assert tasks[..count] == before + [t];
      forall k | 0 <= k < count - 1
        ensures tasks[k] == before[k]
      {
      }
    }

    /** `OnSignal`: `todoTaskAdded` adds the task it carries,
      `todoTaskRemoveAnimationDone` removes the selected task (see
      RemoveSelected); other signals change nothing. */
    method OnSignal(s: Signal) returns (removed: Option<nat>)
      requires Valid()
      requires s.TaskAdded? ==> count < tasks.Length
      requires s.TaskRemoveAnimationDone? && count > 0 ==> selected.Some?
      modifies this, tasks, list, list.items
      ensures Valid() && fresh(Repr - old(Repr))
      ensures s.TaskAdded? ==>
        removed == None && count == old(count) + 1 && selected == old(selected) &&
        tasks[..old(count)] == old(tasks[..count]) &&
        var t := tasks[old(count)];
        fresh(t) && t.name == s.request.name && t.sessionRequired == s.request.sessionRequired &&
        t.sessionLength == s.request.sessionLength &&
        t.State() == TaskState(false, 0, Clock(false, s.request.sessionLength, 0, 0))
      ensures s.TaskRemoveAnimationDone? && old(count) > 0 ==>
        removed == FirstNamed(NamesOf(old(tasks[..count])), old(tasks[selected.value].name)) &&
        removed.Some? && count == old(count) - 1 && selected == None &&
        tasks[..] == ShiftedLeft(old(tasks[..]), removed.value)
      ensures !s.TaskAdded? && !(s.TaskRemoveAnimationDone? && old(count) > 0) ==>
        removed == None && count == old(count) && selected == old(selected) && tasks[..] == old(tasks[..])
    {
      removed := None;
      match s {
        case TaskAdded(request) =>
          AddTask(request);
        case TaskRemoveAnimationDone =>
          removed := RemoveSelected();
        case _ =>
      }
    }

    /** The `todoTaskRemoveAnimationDone` case of `OnSignal`: removes the
      first task whose name is the selected task's name, closing the gap,
      drops its list row and clears the selection, and returns the index
      removed. The source reads the selected task's name on the first pass
      of its search, so a non-empty store needs a selection. An empty store
      is left as it is. */
    method RemoveSelected() returns (removed: Option<nat>)
      requires Valid()
      requires count > 0 ==> selected.Some?
      modifies this, tasks, list, list.items
      ensures Valid() && Repr == old(Repr)
      ensures old(count) > 0 ==>
        removed == FirstNamed(NamesOf(old(tasks[..count])), old(tasks[selected.value].name)) &&
        removed.Some? && count == old(count) - 1 && selected == None &&
        tasks[..] == ShiftedLeft(old(tasks[..]), removed.value)
      ensures old(count) == 0 ==>
        removed == None && count == 0 && selected == old(selected) && tasks[..] == old(tasks[..])
    {
      removed := None;
      ghost var names := NamesOf(tasks[..count]);
      ghost var name := if count > 0 then names[selected.value] else "";
      var i := 0;
      while i < count
        invariant 0 <= i <= count && removed == None
        invariant unchanged(this, tasks, list, list.items)
        invariant forall j :: 0 <= j < i ==> names[j] != name
      {
        var task := tasks[i];
        assert names[i] == task.name && name == tasks[selected.value].name;
        if task.name == tasks[selected.value].name {
          FirstNamedAt(names, name, i);
          RemoveAt(i);
          removed := Some(i);
          break;
        }
        i := i + 1;
      }
      if removed.None? && count > 0 {
        assert false;
      }
    }

    /** The removal itself: `copy(tasks[i:], tasks[i+1:])`, one task fewer,
      the list row dropped, and nothing selected. */
    method RemoveAt(i: nat)
      requires Valid() && i < count
      modifies this, tasks, list, list.items
      ensures Valid() && Repr == old(Repr)
      ensures count == old(count) - 1 && selected == None
      ensures tasks[..] == ShiftedLeft(old(tasks[..]), i)
      ensures i < tasks.Length - 1 ==>
        tasks[tasks.Length - 2] == tasks[tasks.Length - 1] == old(tasks[tasks.Length - 1])
    {
      CloseGap(i);
      if i < tasks.Length - 1 {
        ShiftedLeftDuplicatesLast(old(tasks[..]), i);
      }
      list.RemoveItem(i);
      selected := None;
    }

    /** The `copy` and the decrement: the tasks after slot i move down one
      slot, and the live tasks keep their invariants. */
    method CloseGap(i: nat)
      requires Valid() && i < count
      modifies this, tasks
      ensures count == old(count) - 1 && selected == old(selected) && Repr == old(Repr)
      ensures tasks[..] == ShiftedLeft(old(tasks[..]), i)
      ensures DistinctTasks(tasks[..count])
      ensures forall k :: 0 <= k < count ==>
        tasks[k].Repr() <= Repr && tasks[k].Valid()
    {
      ghost var before := tasks[..count];
      ghost var rest := before[..i] + before[i + 1..];
      DistinctWithout(before, i);
      ShiftLeft(tasks, i);
      count := count - 1;
      forall k | 0 <= k < count
        ensures tasks[k] == rest[k]
      {
        ShiftedLeftAt(old(tasks[..]), i, k);
      }
      assert tasks[..count] == rest;
      forall k | 0 <= k < count
        ensures tasks[k].Repr() <= Repr && tasks[k].Valid()
      {
        var j := if k < i then k else k + 1;
        assert tasks[k] == before[j];
      }
    }

    /** `Update` without the add and main windows: on Escape the frame ends
      the program and changes nothing. Otherwise the list window handles
      the mouse, and the row it returns becomes the selected task; a click
      on the main window's timer button (`timerClicked`, which the main
      window only reports while a task is selected) restarts the selected
      task's session; then every running timer advances one frame. The list
      window's "New Task" click is returned as `addPressed`. */
    method Update(escape: bool, mPos: Point, mLeft: bool, timerClicked: bool)
      returns (exit: bool, addPressed: bool)
      requires Valid()
      modifies Repr
      ensures Valid() && Repr == old(Repr) && count == old(count)
      ensures tasks[..] == old(tasks[..])
      ensures exit == escape
      ensures addPressed <==> !escape && mLeft && OnAddButton(count, mPos)
      ensures escape ==> selected == old(selected)
      ensures escape ==> forall i :: 0 <= i < count ==> tasks[i].State() == old(tasks[i].State())
      ensures !escape ==>
        var sel := Selection(count, mPos, mLeft);
        selected == (if sel >= 0 then Some(sel as nat) else old(selected)) &&
        forall i :: 0 <= i < count ==>
          var t := tasks[i];
          var st := if timerClicked && selected == Some(i) then Started(old(t.State()), t.sessionLength)
                    else old(t.State());
          t.State() == FrameStep(st, t.sessionRequired, t.sessionLength)
    {
      exit, addPressed := false, false;
      if escape {
        exit := true;
        return;
      }
      addPressed := Select(mPos, mLeft);
      if timerClicked && selected.Some? {
        StartSelected();
      }
      AdvanceTimers();
    }

    /** The list window's part of `Update`: the row it reports under a click
      becomes the selected task. */
    method Select(mPos: Point, mLeft: bool) returns (addPressed: bool)
      requires Valid()
      modifies this, list
      ensures Valid() && Repr == old(Repr) && count == old(count)
      ensures var sel := Selection(count, mPos, mLeft);
        selected == if sel >= 0 then Some(sel as nat) else old(selected)
      ensures addPressed <==> mLeft && OnAddButton(count, mPos)
      ensures unchanged(tasks) && unchanged(list.items)
    {
      var sel;
      sel, addPressed := list.Update(mPos, mLeft);
      if sel >= 0 {
        selected := Some(sel);
      }
    }

    /** `t.selected.startWork()`. */
    method StartSelected()
      requires Valid() && selected.Some?
      modifies tasks[selected.value], tasks[selected.value].timer, tasks[selected.value].timer.buf
      ensures Valid()
      ensures forall i :: 0 <= i < count ==>
        tasks[i].State() == if i == selected.value then Started(old(tasks[i].State()), tasks[i].sessionLength)
                            else old(tasks[i].State())
    {
      var s := selected.value;
      var t := tasks[s];
      t.StartWork();
      ghost var live := tasks[..count];
      forall k | 0 <= k < count
        ensures tasks[k].Valid()
        ensures tasks[k].State() == if k == s then Started(old(tasks[k].State()), tasks[k].sessionLength)
                                    else old(tasks[k].State())
      {
        if k != s {
          assert live[k] != t && live[k].timer != t.timer && live[k].timer.buf != t.timer.buf;
        }
      }
    }

    /** The timer loop of `Update`: each live task makes one frame step. */
    method AdvanceTimers()
      requires Valid()
      modifies Repr
      ensures Valid() && unchanged(this, tasks, list, list.items)
      ensures forall i :: 0 <= i < count ==>
        tasks[i].State() == FrameStep(old(tasks[i].State()), tasks[i].sessionRequired, tasks[i].sessionLength)
    {
      var i := 0;
      while i < count
        invariant 0 <= i <= count && Valid()
        invariant unchanged(this, tasks, list, list.items)
        invariant forall j :: 0 <= j < count ==>
          var t := tasks[j];
          t.State() == if j < i then FrameStep(old(t.State()), t.sessionRequired, t.sessionLength) else old(t.State())
      {
        StepAt(i);
        i := i + 1;
      }
    }

    /** One pass of the timer loop: the task in slot i makes its frame step
      and the other tasks keep their state. */
    method StepAt(i: nat)
      requires Valid() && i < count
      modifies tasks[i], tasks[i].timer, tasks[i].timer.buf
      ensures Valid()
      ensures forall j :: 0 <= j < count ==>
        var t := tasks[j];
        t.State() == if j == i then FrameStep(old(t.State()), t.sessionRequired, t.sessionLength) else old(t.State())
    {
      var t := tasks[i];
      FrameTask(t);
      ghost var live := tasks[..count];
      forall k | 0 <= k < count
        ensures tasks[k].Valid()
        ensures var u := tasks[k];
          u.State() == if k == i then FrameStep(old(u.State()), u.sessionRequired, u.sessionLength) else old(u.State())
      {
        if k != i {
          assert live[k] != t && live[k].timer != t.timer && live[k].timer.buf != t.timer.buf;
        }
      }
    }

    /** The body of the timer loop for one task. */
    static method FrameTask(task: Task)
      requires task.Valid()
      modifies task, task.timer, task.timer.buf
      ensures task.Valid()
      ensures task.State() == FrameStep(old(task.State()), task.sessionRequired, task.sessionLength)
      ensures old(task.timer.Shows()) ==> task.timer.Shows()
    {
      FrameStepCounts(task.State(), task.sessionRequired, task.sessionLength);
      if task.timer.running {
        var finished := task.timer.Advance();
        if finished {
          task.CompleteSession();
          task.timer.SetDuration(task.sessionLength, 0);
        }
      }
    }
  }
}
