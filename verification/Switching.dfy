/**
 * The processor is never left with nothing pending while a task could use it: requests for a context switch,
 * the timer that makes them, and the idle task.
 */
module Switching {
  import opened Word32
  import opened Sequences
  import opened Timer
  import opened Kernel
  import opened Scheduler
  import opened System
  import opened SystemRuns

  // ----- Which steps ask for a context switch -----

  /** Some task has come to the run queue. */
  predicate Joined(k: Kernel, k': Kernel) {
    exists id :: id in k'.active && id !in k.active
  }

  predicate Stopped(state: TaskState) {
    state == Sleeping || state == Dying
  }

  /** The task that was executing has gone to sleep or begun to die. */
  predicate Stops(k: Kernel, k': Kernel) {
    && k.current in k.tasks && k.current in k'.tasks
    && k'.tasks[k.current].state != k.tasks[k.current].state && Stopped(k'.tasks[k.current].state)
  }

  /** What calls for a request: a tick, a task that joins the run queue, the executing task giving up. */
  predicate Calls(k: Kernel, k': Kernel, tick: bool) {
    k.switchReady && (tick || Joined(k, k') || Stops(k, k'))
  }

  /** The requests made whether switching is on or not: after a cleanup, and by a task that has exited. */
  predicate AsksAlways(s: Sys, step: Step)
    requires s.k.current in s.pc
  {
    step == RunStep && (s.pc[s.k.current] == Exited || (s.pc[s.k.current] == IdleClean && s.k.dead == []))
  }

  /** The parts of the kernel this is about, as a region leaves them. */
  ghost predicate Asked(k: Kernel, k': Kernel, tick: bool, always: bool) {
    && k'.switchReady == k.switchReady && k'.current == k.current && k'.idle == k.idle
    && (k'.pendsv <==> k.pendsv || always || Calls(k, k', tick))
    && (tick || k'.active == k.active || Joined(k, k') || Stops(k, k'))
  }

  // ----- The regions -----

  lemma NobodyJoins(k: Kernel, k': Kernel)
    requires forall id :: id in k'.active ==> id in k.active
    ensures !Joined(k, k')
  {
  }

  lemma JoinsTail(k: Kernel, k': Kernel, id: Id)
    requires k'.active == k.active + [id] && id !in k.active
    ensures Joined(k, k')
  {
    assert id in k'.active;
  }

  lemma ReadyAsks(k: Kernel, id: Id)
    requires SchedInv(k) && id in k.tasks
    ensures var k' := SetState(k, id, Ready); Asked(k, k', false, false)
  {
    assert TaskOk(k, id) && TaskOk(k, k.current);
    var k' := SetState(k, id, Ready);
    if k.tasks[id].state != Ready && !k.tasks[id].onActive { JoinsTail(k, k', id); } else { NobodyJoins(k, k'); }
  }

  lemma StopAsks(k: Kernel, state: TaskState)
    requires SchedInv(k) && Stopped(state)
    ensures var k' := SetState(k, k.current, state); Asked(k, k', false, false)
  {
    var k' := SetState(k, k.current, state);
    assert TaskOk(k, k.current);
    RemovedOne(k.active, k.current);
    NobodyJoins(k, k');
  }

  lemma SignalAsks(k: Kernel, id: Id, bits: Signals)
    requires SchedInv(k) && id in k.tasks
    ensures var k' := Signal(k, id, bits); Asked(k, k', false, false) && forall x :: x in k.active ==> x in k'.active
  {
    hide Posted;
    RefBalanced(k.tasks[id], bits);
    var k1 := Update(k, id, Posted(k.tasks[id], bits));
    WordsOnly(k, id, Posted(k.tasks[id], bits));
    NobodyJoins(k, k1);
    var k' := Signal(k, id, bits);
    if k' != k1 {
      hide SetState;
      assert TaskOk(k1, id);
      ReadyAsks(k1, id);
      ReadyStays(k1, id);
    }
  }

  lemma ReadyStays(k: Kernel, id: Id)
    requires id in k.tasks
    ensures var k' := SetState(k, id, Ready);
      && (forall x :: x in k.active ==> x in k'.active) && !Stops(k, k')
      && (k.current in k.tasks ==> k.current in k'.tasks)
  {
  }

  lemma {:induction false} SignalAllAsks(k: Kernel, ids: seq<Id>)
    requires SchedInv(k) && forall i :: 0 <= i < |ids| ==> ids[i] in k.tasks
    ensures var k' := SignalAll(k, ids);
      && k'.switchReady == k.switchReady && k'.current == k.current && k'.idle == k.idle
      && (!k.switchReady ==> k'.pendsv == k.pendsv)
    decreases |ids|
  {
    hide SchedInv, Signal;
    if ids != [] {
      SignalKeeps(k, ids[0], KSLEEP);
      SignalAsks(k, ids[0], KSLEEP);
      SignalAllAsks(Signal(k, ids[0], KSLEEP), ids[1..]);
    }
  }

  /** The tick ends in a request, whatever it found to fire. */
  lemma TickAsks(k: Kernel)
    requires SchedInv(k) && EventsOwned(k) && k.timers.firing == []
    ensures Asked(k, Tick(k), true, false)
  {
    hide SchedInv, SignalAll, Collect, Finish;
    FlagsKnown(k.timers);
    CollectFlags(k.timers);
    var k1 := k.(timers := Collect(k.timers));
    CollectOwned(k);
    FiringOwned(k1);
    SameSched(k, k1);
    SignalAllAsks(k1, k1.timers.firing);
  }

  lemma WaitAsks(k: Kernel, mask: Signals)
    requires SchedInv(k)
    ensures Asked(k, Wait(k, mask), false, false)
  {
    hide SetState, Answered;
    var c, k1 := k.current, SetState(k, k.current, Ready);
    if Answered(k.tasks[c], mask) {
      ReadyAsks(k, c);
      ReadyStays(k, c);
      var k' := Wait(k, mask);
      assert k'.active == k1.active && k'.tasks[c].state == k1.tasks[c].state;
    } else {
      StopAsks(k, Sleeping);
    }
  }

  lemma ReapRest(k: Kernel)
    ensures var k' := Reap(k);
      k' == k.(dying := k'.dying, taskList := k'.taskList, dyingCount := k'.dyingCount, dead := k'.dead)
    decreases |k.dying|
  {
    if k.dying != [] { ReapRest(ReapOne(k)); }
  }

  /** A region that changes neither the run queue, the executing task's state nor the request. */
  lemma StillAsked(k: Kernel, k': Kernel)
    requires k'.switchReady == k.switchReady && k'.current == k.current && k'.idle == k.idle && k'.pendsv == k.pendsv
    requires k'.active == k.active
    requires k.current in k.tasks && k.current in k'.tasks ==> k'.tasks[k.current] == k.tasks[k.current]
    ensures Asked(k, k', false, false)
  {
    NobodyJoins(k, k');
  }

  lemma IdleAsks(s: Sys)
    requires SysInv(s) && WellFormed(s) && IdlePc(s.pc[s.k.current])
    ensures Asked(s.k, Go(s).k, false, AsksAlways(s, RunStep))
  {
    hide SysInv, EventsOwned, Reap, Asked;
    ReapRest(s.k);
    if AsksAlways(s, RunStep) { AskedAlways(s.k, Go(s).k); } else { StillAsked(s.k, Go(s).k); }
  }

  lemma AskedAlways(k: Kernel, k': Kernel)
    requires k'.switchReady == k.switchReady && k'.current == k.current && k'.idle == k.idle && k'.pendsv
    requires k'.active == k.active
    ensures Asked(k, k', false, true)
  {
  }

  lemma TaskAsks(s: Sys)
    requires SysInv(s) && WellFormed(s) && !IdlePc(s.pc[s.k.current])
    ensures Asked(s.k, Go(s).k, false, AsksAlways(s, RunStep))
  {
    hide SchedInv, TimersOk, MemInv, PcInv, FlagsOk, Wait, SetState, Answered, Del, Add, Asked;
    var p := s.pc[s.k.current];
    if p.Waiting? { WaitAsks(s.k, p.mask); }
    else if p == ExitDie { StopAsks(s.k, Dying); }
    else if p == Exited { AskedAlways(s.k, Go(s).k); }
    else { StillAsked(s.k, Go(s).k); }
  }

  /**
   * Exactly when each step leaves a context switch pending: it was pending, a tick passed, a task joined the run
   * queue, or the executing task gave up; or the idle task has cleaned up, or a task that has exited asks for it.
   */
  lemma StepAsks(s: Sys, step: Step)
    requires SysInv(s) && WellFormed(s) && Enabled(s, step) && step != SwitchStep
    ensures Asked(s.k, Apply(s, step).k, step == TickStep, AsksAlways(s, step))
  {
    hide SysInv, WellFormed, EventsOwned, Go, Tick, Signal, SetState, Asked, FreshOwner;
    InvParts(s);
    if step == TickStep { TickAsks(s.k); }
    else if step == RunStep { if IdlePc(s.pc[s.k.current]) { IdleAsks(s); } else { TaskAsks(s); } }
    else if step.Post? { SignalAsks(s.k, step.id, step.bits); }
    else if step.StartTask? { ReadyAsks(s.k, step.id); }
    else if step.ChangeMask? { MaskAsks(s.k, step.keep, step.add); }
    else if step.MakeTask? { MakeAsks(s, step.id, step.regions, step.dynamicStruct); }
    else { StillAsked(s.k, Apply(s, step).k); }
  }

  lemma InvParts(s: Sys)
    requires SysInv(s) && WellFormed(s)
    ensures SchedInv(s.k) && EventsOwned(s.k) && s.k.timers.firing == []
    ensures s.k.current in s.k.tasks && s.k.current in s.pc
  {
  }

  lemma MaskAsks(k: Kernel, keep: Signals, add: Signals)
    requires k.current in k.tasks
    ensures Asked(k, SetMask(k, keep, add), false, false)
  {
    NobodyJoins(k, SetMask(k, keep, add));
  }

  lemma MakeAsks(s: Sys, id: Id, r: Regions, d: bool)
    requires FreshOwner(s, id, r, d) && s.k.current in s.k.tasks
    ensures Asked(s.k, Create(s.k, id, r, d), false, false)
  {
    StillAsked(s.k, Create(s.k, id, r, d));
  }

  /** So a tick always does, and a request once made stays until it is taken. */
  lemma TickAlwaysAsks(s: Sys)
    requires SysInv(s) && WellFormed(s) && Enabled(s, TickStep) && s.k.switchReady
    ensures Apply(s, TickStep).k.pendsv
  {
    hide SysInv, WellFormed, Enabled, Apply;
    StepAsks(s, TickStep);
  }

  // ----- Nothing that could run is left waiting for nothing -----

  /** The idle task has work of its own, after which it asks for a context switch. */
  predicate Cleaning(s: Sys)
    requires s.k.idle in s.pc
  {
    s.k.dyingCount > 0 || s.pc[s.k.idle] == IdleClean || s.pc[s.k.idle].IdleFree?
  }

  /** A task that has given up executes only until the switch it asked for. */
  predicate StoppedAsks(s: Sys)
    requires s.k.current in s.k.tasks
  {
    Stopped(s.k.tasks[s.k.current].state) ==> s.k.pendsv
  }

  /** While some task could run, the idle task executes only until a switch that is pending, or to clean up. */
  predicate IdleYields(s: Sys)
    requires s.k.idle in s.pc
  {
    s.k.current == s.k.idle && s.k.active != [] ==> s.k.pendsv || Cleaning(s)
  }

  /** While tasks share the processor, fewer of them than there are addresses, the timer runs or a switch is due. */
  predicate Sliced(s: Sys)
    requires s.k.idle in s.pc
  {
    1 < |s.k.active| < TWO32 ==>
      s.k.timers.running || s.k.pendsv || (s.k.current == s.k.idle && Cleaning(s))
  }

  /** With switching on, all three. */
  ghost predicate Progress(s: Sys) {
    && s.k.current in s.k.tasks && s.k.idle in s.pc
    && (s.k.switchReady ==> StoppedAsks(s) && IdleYields(s) && Sliced(s))
  }

  lemma IdleRuns(s: Sys)
    requires SysInv(s) && WellFormed(s) && IdlePc(s.pc[s.k.current]) && s.pc[s.k.current] != IdleTimer
    ensures Go(s).k.timers.running == s.k.timers.running
  {
    hide SysInv, EventsOwned, Reap;
    ReapRest(s.k);
  }

  lemma IdleCleans(s: Sys)
    requires SysInv(s) && WellFormed(s) && IdlePc(s.pc[s.k.current]) && s.k.current == s.k.idle && s.k.idle in Go(s).pc
    requires Go(s).k.idle == s.k.idle
    ensures Cleaning(s) ==> Cleaning(Go(s)) || Go(s).k.pendsv
  {
    hide SysInv, EventsOwned, Reap;
    ReapRest(s.k);
  }

  /** A tick leaves the timer running. */
  lemma TickRuns(k: Kernel)
    requires SchedInv(k) && EventsOwned(k) && k.timers.firing == []
    ensures var k' := Tick(k);
      k'.timers.running == k.timers.running && k'.dyingCount == k.dyingCount
  {
    hide SchedInv, Tick, EventsOwned;
    TickEffect(k);
    FinishRuns(k.timers);
  }

  lemma FinishRuns(t: Timers)
    requires Known(t)
    ensures Finish(Collect(t)).running == t.running
  {
  }

  /** Only the idle task's own timer region stops the timer. */
  lemma TaskRuns(s: Sys)
    requires SysInv(s) && WellFormed(s) && !IdlePc(s.pc[s.k.current])
    ensures s.k.timers.running ==> Go(s).k.timers.running
  {
    hide SysInv, FlagsOk, Wait, SetState, Answered;
    var p := s.pc[s.k.current];
    if p.Waiting? { WaitRuns(s.k, p.mask); }
    if p == ExitDie { SetStateRuns(s.k, s.k.current, Dying); }
  }

  lemma WaitRuns(k: Kernel, mask: Signals)
    requires k.current in k.tasks
    ensures Wait(k, mask).timers == k.timers
  {
  }

  lemma SetStateRuns(k: Kernel, id: Id, state: TaskState)
    requires id in k.tasks
    ensures SetState(k, id, state).timers == k.timers
    ensures state != Dying ==> SetState(k, id, state).dyingCount == k.dyingCount
  {
  }

  lemma SignalLeaves(k: Kernel, id: Id, bits: Signals)
    requires id in k.tasks
    ensures Signal(k, id, bits).timers == k.timers && Signal(k, id, bits).dyingCount == k.dyingCount
  {
    hide Posted, SetState;
    SetStateRuns(Update(k, id, Posted(k.tasks[id], bits)), id, Ready);
  }

  /** Steps that are neither a selection nor a region of the executing task leave all this alone. */
  lemma OutsideKeeps(s: Sys, step: Step)
    requires SysInv(s) && WellFormed(s) && Enabled(s, step) && step != SwitchStep && step != RunStep
    ensures var s' := Apply(s, step);
      && s'.k.timers.running == s.k.timers.running && s'.k.dyingCount == s.k.dyingCount
      && (s.k.idle in s.pc && s.k.current == s.k.idle ==> s.k.idle in s'.pc && s'.pc[s.k.idle] == s.pc[s.k.idle])
  {
    hide SysInv, WellFormed, EventsOwned, Tick, Signal, SetState, FreshOwner;
    InvParts(s);
    PlaceKnown(s);
    if step == TickStep { TickRuns(s.k); }
    else if step.Post? { SignalLeaves(s.k, step.id, step.bits); }
    else if step.StartTask? { SetStateRuns(s.k, step.id, Ready); }
    else if step.MakeTask? { FreshUnknown(s, step.id, step.regions, step.dynamicStruct); }
  }

  lemma PlaceKnown(s: Sys)
    requires SysInv(s)
    ensures s.pc.Keys == s.k.tasks.Keys && s.k.idle in s.k.tasks && (s.k.current == s.k.idle ==> !UserTurn(s))
  {
  }

  lemma FreshUnknown(s: Sys, id: Id, r: Regions, d: bool)
    requires FreshOwner(s, id, r, d)
    ensures id !in s.k.tasks
  {
  }

  // ----- Every step -----

  lemma StoppedStep(s: Sys, step: Step)
    requires SysInv(s) && WellFormed(s) && Enabled(s, step) && step != SwitchStep && StoppedAsks(s)
    requires s.k.switchReady && s.k.current in Apply(s, step).k.tasks
    ensures Apply(s, step).k.current == s.k.current && StoppedAsks(Apply(s, step))
  {
    hide SysInv, WellFormed, Enabled, Apply, Joined;
    InvKnows(s);
    StepAsks(s, step);
  }

  lemma IdleStep(s: Sys, step: Step)
    requires SysInv(s) && WellFormed(s) && Enabled(s, step) && step != SwitchStep
    requires s.k.idle in s.pc && IdleYields(s) && s.k.switchReady && SysInv(Apply(s, step))
    ensures var s' := Apply(s, step);
      && s'.k.idle == s.k.idle && s.k.idle in s'.pc && IdleYields(s')
      && (s.k.current == s.k.idle && Cleaning(s) ==> s'.k.pendsv || Cleaning(s'))
  {
    hide SysInv, WellFormed, Enabled, Apply, Joined, Cleaning;
    StepAsks(s, step);
    PlaceKnown(s);
    PlaceKnown(Apply(s, step));
    if s.k.current == s.k.idle { IdleStaysCleaning(s, step); }
    if Apply(s, step).k.active != s.k.active { StopsOnlyTasks(s, step); }
  }

  lemma IdleStaysCleaning(s: Sys, step: Step)
    requires SysInv(s) && WellFormed(s) && Enabled(s, step) && step != SwitchStep && SysInv(Apply(s, step))
    requires s.k.idle in s.pc && s.k.current == s.k.idle && Apply(s, step).k.idle == s.k.idle
    requires s.k.idle in Apply(s, step).pc
    ensures Cleaning(s) ==> Apply(s, step).k.pendsv || Cleaning(Apply(s, step))
  {
    hide SysInv, WellFormed, Go;
    if step == RunStep {
      InvParts(s);
      IdleIsCurrent(s);
      IdleCleans(s);
    } else {
      hide Enabled, Apply;
      OutsideKeeps(s, step);
    }
  }

  /** Where the run queue changes, or the idle task's turn ends it, a request has been made or nobody joined. */
  lemma StopsOnlyTasks(s: Sys, step: Step)
    requires SysInv(s) && WellFormed(s) && Enabled(s, step) && step != SwitchStep && s.k.switchReady
    requires Apply(s, step).k.active != s.k.active
    ensures Apply(s, step).k.pendsv
  {
    hide SysInv, WellFormed, Enabled, Apply, Joined;
    StepAsks(s, step);
    if step == TickStep { TickAlwaysAsks(s); }
  }

  lemma SlicedStep(s: Sys, step: Step)
    requires SysInv(s) && WellFormed(s) && Enabled(s, step) && step != SwitchStep
    requires s.k.idle in s.pc && Sliced(s) && IdleYields(s) && s.k.switchReady && SysInv(Apply(s, step))
    ensures s.k.idle in Apply(s, step).pc && Apply(s, step).k.idle == s.k.idle && Sliced(Apply(s, step))
  {
    hide SysInv, WellFormed, Enabled, Apply, Joined, Cleaning;
    var s' := Apply(s, step);
    StepAsks(s, step);
    IdleStep(s, step);
    if s'.k.active != s.k.active {
      StopsOnlyTasks(s, step);
    } else if 1 < |s.k.active| && s.k.timers.running && !s'.k.pendsv {
      RunningStep(s, step);
    }
  }

  lemma RunningStep(s: Sys, step: Step)
    requires SysInv(s) && WellFormed(s) && Enabled(s, step) && step != SwitchStep && s.k.timers.running
    requires s.k.idle in s.pc && IdleYields(s) && s.k.active != [] && s.k.switchReady && SysInv(Apply(s, step))
    requires !s.k.pendsv && s.k.idle in Apply(s, step).pc && Apply(s, step).k.idle == s.k.idle
    ensures Apply(s, step).k.timers.running || (s.k.current == s.k.idle && Cleaning(s))
  {
    hide SysInv, WellFormed, Go;
    if step == RunStep {
      InvParts(s);
      IdleIsCurrent(s);
      if !IdlePc(s.pc[s.k.current]) { TaskRuns(s); } else if s.pc[s.k.current] != IdleTimer { IdleRuns(s); }
    } else {
      hide Enabled, Apply;
      OutsideKeeps(s, step);
    }
  }

  /** A selection makes the chosen task run, chooses the idle task only for want of others or to clean up, and
    * starts the timer if tasks are to share the processor. */
  lemma SwitchProgress(s: Sys)
    requires SysInv(s) && WellFormed(s) && Enabled(s, SwitchStep)
    ensures Progress(Apply(s, SwitchStep)) && !Apply(s, SwitchStep).k.pendsv
  {
    hide SysInv, WellFormed, Select, Choose;
    SelectParts(s);
    PlaceKnown(s);
  }

  lemma SelectParts(s: Sys)
    requires SysInv(s) && WellFormed(s)
    ensures var k, k' := s.k, Select(s.k);
      && k'.current in k'.tasks && k'.tasks[k'.current].state == Running && !k'.pendsv
      && k'.idle == k.idle && k'.dyingCount == k.dyingCount && |k'.active| == |k.active|
      && (k'.current == k.idle && k'.active != [] ==> k.dyingCount > 0)
      && (1 < |k.active| < TWO32 ==> k'.timers.running)
  {
    hide MemInv, PcInv, TimersOk;
    if s.k.active != [] {
      assert s.k.active[0] in s.k.active;
      assert TaskOk(s.k, s.k.active[0]);
    }
  }

  lemma BootProgress(s: Sys)
    requires Start(s)
    ensures SysInv(s) && Progress(s)
  {
    BootInv(s);
  }

  lemma StepProgress(s: Sys, step: Step)
    requires SysInv(s) && WellFormed(s) && Enabled(s, step) && Progress(s)
    ensures Progress(Apply(s, step))
  {
    hide SysInv, WellFormed, Enabled, Apply, StoppedAsks, IdleYields, Sliced;
    StepInv(s, step);
    if step == SwitchStep {
      SwitchProgress(s);
    } else {
      StepAsks(s, step);
      PlaceKnown(Apply(s, step));
      InvKnows(Apply(s, step));
      if s.k.switchReady {
        StoppedStep(s, step);
        IdleStep(s, step);
        SlicedStep(s, step);
      }
    }
  }

  lemma InvKnows(s: Sys)
    requires SysInv(s)
    ensures s.k.current in s.k.tasks
  {
  }

  /** Over every run, all three hold at every moment. */
  lemma {:induction false} EveryRunProgress(s: Sys, steps: seq<Step>)
    requires (Start(s) || (SysInv(s) && Progress(s))) && Runs(s, steps)
    ensures SysInv(Final(s, steps)) && Progress(Final(s, steps))
    decreases |steps|
  {
    hide SysInv, Enabled, Apply, Progress;
    if Start(s) { BootProgress(s); }
    if steps != [] {
      StepInv(s, steps[0]);
      StepProgress(s, steps[0]);
      EveryRunProgress(Apply(s, steps[0]), steps[1..]);
    }
  }

  /**
   * Nobody is forgotten: once switching is on, at every moment of every run a task that could run and is not
   * running has a context switch pending, or a tick to come that will ask for one, or the idle task at its cleanup.
   */
  lemma NobodyForgotten(s: Sys, id: Id)
    requires SysInv(s) && Progress(s) && s.k.switchReady && id in s.k.active && id != s.k.current
    requires |s.k.active| < TWO32
    ensures s.k.pendsv || s.k.timers.running || (s.k.current == s.k.idle && Cleaning(s))
  {
    hide MemInv, PcInv, TimersOk, Cleaning;
    var c := s.k.current;
    assert TaskOk(s.k, c);
    if c in s.k.active { TwoActive(s.k.active, id, c); }
  }

  lemma TwoActive(q: seq<Id>, x: Id, y: Id)
    requires x in q && y in q && x != y
    ensures |q| > 1
  {
  }

  // ----- The idle task's timer region -----

  /** It stops the timer exactly when no event is queued. */
  lemma IdleStopsTimer(s: Sys)
    requires SysInv(s) && WellFormed(s) && s.pc[s.k.current] == IdleTimer
    ensures Go(s).k.timers.running <==> s.k.timers.running && s.k.timers.queue != []
  {
    hide SysInv, EventsOwned;
  }

  /** A selection starts it exactly when more than one task is active. */
  lemma SelectionStartsTimer(s: Sys)
    requires SysInv(s) && WellFormed(s) && Enabled(s, SwitchStep) && |s.k.active| < TWO32
    ensures Apply(s, SwitchStep).k.timers.running <==> s.k.timers.running || |s.k.active| > 1
  {
    hide SysInv, EventsOwned, Choose;
    Counted(s);
    ChooseRest(s.k);
  }

  lemma ChooseRest(k: Kernel)
    requires k.current in k.tasks && k.idle in k.tasks && (k.active != [] ==> k.active[0] in k.tasks)
    ensures Choose(k).activeCount == k.activeCount && Choose(k).timers == k.timers
  {
  }

  lemma Counted(s: Sys)
    requires SysInv(s)
    ensures s.k.activeCount == |s.k.active|
  {
  }
}
