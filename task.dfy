/** A to-do task of task.go: a name, a number of work sessions to complete,
    the session length in minutes, and the countdown timer of the running
    session. */
module Tasks {
  import opened Timers

  /** `minSessionLength`: the shortest session, in minutes. */
  const MIN_SESSION_LENGTH := 1

  /** What changes about a task over its life: whether it is done, how many
      sessions it completed, and its timer's clock. */
  datatype TaskState = TaskState(done: bool, completed: int, clock: Clock)

  /** `setDuration(m, s)` on a clock: keeps `running`, clears the sub-tick. */
  function SetClock(c: Clock, m: int, s: int): Clock {
    Clock(c.running, m, s, 0)
  }

  /** `completeSession`: one more session, done once the count reaches the
      requirement, and the timer reloaded with a full session. */
  function Completed(st: TaskState, required: int, length: int): TaskState {
    TaskState(st.done || st.completed + 1 == required, st.completed + 1, SetClock(st.clock, length, 0))
  }

  /** `startWork`: a full session, running. */
  function Started(st: TaskState, length: int): TaskState {
    st.(clock := Clock(true, length, 0, 0))
  }

  /** One pass of the frame loop of `Todo.Update` over this task: a running
      timer advances; when it reports finished the session is completed and
      the timer is loaded again with `sessionLength`:00. */
  function FrameStep(st: TaskState, required: int, length: int): TaskState {
    if !st.clock.running then st
    else
      var (c, finished) := AdvanceClock(st.clock);
      if finished then
        var done := Completed(st.(clock := c), required, length);
        done.(clock := SetClock(done.clock, length, 0))
      else st.(clock := c)
  }

  /** The session counting invariant: the count never goes negative, and
      the task is done exactly when a positive requirement has been met.
      (A requirement of 0 or less is never met, since the count only takes
      the values 1, 2, ... after starting from 0.) */
  predicate Counted(st: TaskState, required: int) {
    st.completed >= 0 && (st.done <==> 1 <= required <= st.completed)
  }

  /** `completeSession` adds exactly one session, never clears `done`, sets
      it exactly when the new count equals the requirement, keeps the
      counting invariant, and reloads a full session without starting or
      stopping the timer. */
  lemma CompletedCounts(st: TaskState, required: int, length: int)
    requires Counted(st, required)
    ensures var n := Completed(st, required, length);
      n.completed == st.completed + 1 &&
      (st.done ==> n.done) &&
      (n.done && !st.done <==> n.completed == required) &&
      Counted(n, required) &&
      n.clock == Clock(st.clock.running, length, 0, 0)
  {
  }

  /** The frame step keeps the counting invariant and never clears `done`. */
  lemma FrameStepCounts(st: TaskState, required: int, length: int)
    requires Counted(st, required)
    ensures Counted(FrameStep(st, required, length), required)
    ensures st.done ==> FrameStep(st, required, length).done
  {
  }

  /** The state after k frames. */
  function Frames(st: TaskState, required: int, length: int, k: nat): TaskState
  {
    if k == 0 then st else FrameStep(Frames(st, required, length, k - 1), required, length)
  }

  lemma {:induction false} FramesFollowClock(st: TaskState, required: int, length: int, k: nat)
    requires st.clock.running && Settled(st.clock) && k < CallsLeft(st.clock)
    ensures Frames(st, required, length, k) == st.(clock := AfterCalls(st.clock, k))
  {
    if k > 0 {
      FramesFollowClock(st, required, length, k - 1);
      CountDownPrefix(st.clock, k - 1);
      AdvanceCountsDown(AfterCalls(st.clock, k - 1));
    }
  }

  /** A started session of L >= 0 minutes: the count stays as it is for the
      first TPS * (60 * L + 1) - 1 frames, and the frame after that completes
      exactly one session and leaves the timer stopped at L:00, ready for the
      next `startWork`. */
  lemma SessionTakesItsLength(st: TaskState, required: int, length: int, k: nat)
    requires length >= 0
    ensures var s := Started(st, length);
      (k < TPS * (60 * length + 1) ==> Frames(s, required, length, k).completed == st.completed) &&
      Frames(s, required, length, TPS * (60 * length + 1)) ==
        Completed(s.(clock := Clock(false, 0, 0, 0)), required, length)
  {
    var s := Started(st, length);
    var n := TPS * (60 * length + 1);
    assert CallsLeft(s.clock) == n;
    FramesFollowClock(s, required, length, n - 1);
    CountDownPrefix(s.clock, n - 1);
    AdvanceCountsDown(AfterCalls(s.clock, n - 1));
    if k < n {
      FramesFollowClock(s, required, length, k);
    }
  }

  /** A stopped task is left alone by the frame loop. */
  lemma StoppedTaskIdle(st: TaskState, required: int, length: int, k: nat)
    requires !st.clock.running
    ensures Frames(st, required, length, k) == st
  {
  }

  class Task {
    const name: string
    const sessionRequired: int
    const sessionLength: int
    const timer: Timer
    var done: bool
    var sessionCompleted: int

    ghost function Repr(): set<object>
    {
      {this, timer, timer.buf}
    }

    ghost predicate Valid()
      reads this, timer
    {
      timer.Valid() && Counted(State(), sessionRequired)
    }

    function State(): TaskState
      reads this, timer
    {
      TaskState(done, sessionCompleted, timer.View())
    }

    /** A `task` literal with the given name, requirement and length: not
      done, no session completed, a zero timer. */
    constructor (name: string, sessionRequired: int, sessionLength: int)
      ensures Valid() && fresh(Repr())
      ensures this.name == name && this.sessionRequired == sessionRequired
      ensures this.sessionLength == sessionLength
      ensures State() == TaskState(false, 0, Clock(false, 0, 0, 0))
    {
      this.name := name;
      this.sessionRequired := sessionRequired;
      this.sessionLength := sessionLength;
      timer := new Timer();
      done := false;
      sessionCompleted := 0;
    }

    /** `init`: loads a full session into the timer. */
    method Init()
      requires Valid()
      modifies timer, timer.buf
      ensures Valid()
      ensures State() == old(State()).(clock := SetClock(old(timer.View()), sessionLength, 0))
      ensures timer.buf[..] == Render(sessionLength, 0)
    {
      timer.SetDuration(sessionLength, 0);
    }

    /** `completeSession`. */
    method CompleteSession()
      requires Valid()
      modifies this, timer, timer.buf
      ensures Valid()
      ensures State() == Completed(old(State()), sessionRequired, sessionLength)
      ensures timer.buf[..] == Render(sessionLength, 0)
    {
      CompletedCounts(State(), sessionRequired, sessionLength);
      sessionCompleted := sessionCompleted + 1;
      if sessionCompleted == sessionRequired {
        done := true;
      }
      timer.SetDuration(sessionLength, 0);
    }

    /** `startWork`: always a full session from the start (there is no
      resume of the time left), and running. */
    method StartWork()
      requires Valid()
      modifies timer, timer.buf
      ensures Valid()
      ensures State() == Started(old(State()), sessionLength)
      ensures timer.buf[..] == Render(sessionLength, 0)
    {
      timer.SetDuration(sessionLength, 0);
      timer.Start();
    }
  }
}
