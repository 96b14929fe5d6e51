/** From the tick that ends a sleep to its return: what the timer, the signals and the scheduler promise together. */
module Wakeup {
  import opened Timer
  import opened TimerRefinement
  import opened Kernel
  import opened Sequences
  import opened System
  import opened SystemRuns
  import opened TaskSteps
  import opened SignalRuns
  import opened Fairness
  import opened SleepTime
  import opened WholeSleep

  /** The task is in a wait that would succeed. */
  predicate Due(s: Sys, id: Id) {
    id in s.k.tasks && id in s.pc && s.pc[id].Waiting? && Answered(s.k.tasks[id], s.pc[id].mask)
  }

  predicate OwnTurn(s: Sys, step: Step, id: Id) {
    step == RunStep && s.k.current == id
  }

  /** At some moment of the run the task is out of its kernel call. */
  ghost predicate GetsBack(s: Sys, steps: seq<Step>, id: Id)
    requires Runs(s, steps)
    decreases |steps|
  {
    (id in s.pc && s.pc[id] == User) || (steps != [] && GetsBack(Apply(s, steps[0]), steps[1..], id))
  }

  ghost predicate TakesTurn(s: Sys, steps: seq<Step>, id: Id)
    requires Runs(s, steps)
    decreases |steps|
  {
    steps != [] && (OwnTurn(s, steps[0], id) || TakesTurn(Apply(s, steps[0]), steps[1..], id))
  }

  /** Whenever the task is selected in the run it also comes to take a turn. */
  ghost predicate TurnsFollow(s: Sys, steps: seq<Step>, id: Id)
    requires Runs(s, steps)
    decreases |steps|
  {
    steps != [] ==>
      && (steps[0] == SwitchStep && Apply(s, SwitchStep).k.current == id ==>
        TakesTurn(Apply(s, steps[0]), steps[1..], id))
      && TurnsFollow(Apply(s, steps[0]), steps[1..], id)
  }

  // ----- A wait that would succeed goes on to -----

  lemma DueStays(s: Sys, step: Step, id: Id)
    requires SysInv(s) && WellFormed(s) && Enabled(s, step) && Due(s, id) && !OwnTurn(s, step, id)
    ensures Due(Apply(s, step), id)
  {
    hide SysInv, WellFormed, Enabled, Apply;
    StepCaller(s, step, id);
    StepSignals(s, step, id);
    PlaceStays(s, step, id);
  }

  lemma PlaceStays(s: Sys, step: Step, id: Id)
    requires SysInv(s) && WellFormed(s) && Enabled(s, step) && id in s.pc && !OwnTurn(s, step, id) && s.pc[id] != User
    requires id in s.k.tasks && id in Apply(s, step).k.tasks
    ensures id in Apply(s, step).pc && Apply(s, step).pc[id] == s.pc[id]
  {
    hide SysInv, WellFormed, Go;
    if step == RunStep {
      StepInv(s, step);
      GoPlace(s, id);
    }
  }

  lemma GoPlace(s: Sys, id: Id)
    requires SysInv(s) && WellFormed(s) && SysInv(Go(s)) && id in s.pc && s.k.current != id
    requires id in s.k.tasks && id in Go(s).k.tasks
    ensures id in Go(s).pc && Go(s).pc[id] == s.pc[id]
  {
    hide SysInv, WellFormed, Go;
    EventsKnown(s, id);
    EventsKnown(Go(s), id);
    GoElsewhere(s, id);
  }

  lemma EventsKnown(s: Sys, id: Id)
    requires SysInv(s) && id in s.k.tasks
    ensures id in s.k.timers.events && id in s.pc
  {
  }

  lemma OwnTurnReturns(s: Sys, id: Id)
    requires SysInv(s) && WellFormed(s) && Due(s, id) && s.k.current == id
    ensures id in Go(s).pc && Go(s).pc[id] == User
  {
    hide SysInv, FlagsOk, Wait, Answered;
    WaitTimers(s.k, s.pc[id].mask);
  }

  // ----- The composition -----

  /** A turn of its own, whenever it comes, ends the wait. */
  lemma {:induction false} TurnReturns(s: Sys, steps: seq<Step>, id: Id)
    requires SysInv(s) && Runs(s, steps) && Due(s, id) && TakesTurn(s, steps, id)
    ensures GetsBack(s, steps, id)
    decreases |steps|
  {
    hide SysInv, WellFormed, Enabled, Due;
    StepInv(s, steps[0]);
    if OwnTurn(s, steps[0], id) {
      OwnTurnReturns(s, id);
    } else {
      hide Apply;
      DueStays(s, steps[0], id);
      TurnReturns(Apply(s, steps[0]), steps[1..], id);
    }
  }

  /** While it has not come back it stays on the run queue, so the scheduler gets to it. */
  lemma {:induction false} QueuedUntilBack(s: Sys, steps: seq<Step>, id: Id)
    requires SysInv(s) && Runs(s, steps) && Due(s, id)
    ensures GetsBack(s, steps, id) || StaysActive(s, steps, id)
    decreases |steps|
  {
    hide SysInv, WellFormed, Enabled, Due;
    DueActive(s, id);
    if steps != [] {
      StepInv(s, steps[0]);
      if OwnTurn(s, steps[0], id) {
        OwnTurnReturns(s, id);
      } else {
        hide Apply;
        DueStays(s, steps[0], id);
        QueuedUntilBack(Apply(s, steps[0]), steps[1..], id);
      }
    }
  }

  lemma DueActive(s: Sys, id: Id)
    requires SysInv(s) && Due(s, id)
    ensures id in s.k.active
  {
    hide SysInv, Answered;
    AnsweredIsRunnable(s, id);
  }

  lemma {:induction false} SelectedReturns(s: Sys, steps: seq<Step>, id: Id)
    requires SysInv(s) && Runs(s, steps) && Due(s, id) && IsSelected(s, steps, id) && TurnsFollow(s, steps, id)
    ensures GetsBack(s, steps, id)
    decreases |steps|
  {
    hide SysInv, WellFormed, Enabled, Due;
    StepInv(s, steps[0]);
    if OwnTurn(s, steps[0], id) {
      OwnTurnReturns(s, id);
    } else {
      hide Apply;
      DueStays(s, steps[0], id);
      var s' := Apply(s, steps[0]);
      if steps[0] == SwitchStep && Apply(s, SwitchStep).k.current == id {
        TurnReturns(s', steps[1..], id);
      } else {
        SelectedReturns(s', steps[1..], id);
      }
    }
  }

  /**
   * A wait that would succeed has returned once the run has made more fair selections than the task's
   * position in the run queue and has given the task a turn when it was selected.
   */
  lemma DueReturns(s: Sys, steps: seq<Step>, id: Id)
    requires SysInv(s) && Runs(s, steps) && Due(s, id) && TurnsFollow(s, steps, id)
    requires Selections(s, steps) > IndexOf(s.k.active, id)
    ensures GetsBack(s, steps, id)
  {
    hide SysInv, Due, IsSelected, TurnsFollow, GetsBack, StaysActive;
    QueuedUntilBack(s, steps, id);
    if StaysActive(s, steps, id) {
      BoundedWaiting(s, steps, id);
      SelectedReturns(s, steps, id);
    }
  }

  lemma SleepMask(s: Sys, b: Bounds, id: Id)
    requires TimeInv(s, b) && Asleep(s, id)
    ensures s.pc[id].mask == KSLEEP
  {
    hide Refines;
    assert SleepOk(s, id, b);
  }

  lemma NowDue(s: Sys, id: Id)
    requires Asleep(s, id) && s.pc[id].mask == KSLEEP
    requires KSLEEP <= s.k.tasks[id].sigSet && KSLEEP <= s.k.tasks[id].sigMask
    ensures Due(s, id)
  {
    assert 0 in s.k.tasks[id].sigSet * KSLEEP * s.k.tasks[id].sigMask;
  }

  /**
   * A sleep whose deadline the tick reaches, with KSLEEP unmasked, has returned after as many fair selections
   * as its place in the run queue is then, plus one, and a turn of its own.
   */
  lemma SleepEnds(s: Sys, b: Bounds, id: Id, steps: seq<Step>)
    requires SysInv(s) && WellFormed(s) && TimeInv(s, b) && Enabled(s, TickStep) && Asleep(s, id)
    requires s.i.elapsed + s.k.timers.interval >= s.pc[id].info.readAt + s.pc[id].info.msec
    requires KSLEEP <= s.k.tasks[id].sigMask
    requires var s' := Apply(s, TickStep);
      Runs(s', steps) && TurnsFollow(s', steps, id) && Selections(s', steps) > IndexOf(s'.k.active, id)
    ensures GetsBack(Apply(s, TickStep), steps, id)
  {
    hide SysInv, WellFormed, TimeInv, Enabled, Apply, Runs, TurnsFollow, Selections, GetsBack;
    StepInv(s, TickStep);
    WakesOnTime(s, b, id);
    StepCaller(s, TickStep, id);
    PlaceStays(s, TickStep, id);
    SleepMask(s, b, id);
    NowDue(Apply(s, TickStep), id);
    DueReturns(Apply(s, TickStep), steps, id);
  }
}
