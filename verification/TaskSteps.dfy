/** What one step of the running kernel does to one task. */
module TaskSteps {
  import opened Word32
  import opened Timer
  import opened TimerRefinement
  import opened Kernel
  import opened Scheduler
  import opened System
  import opened SystemInv
  import opened SystemRuns

  /** `t` is what task `id` can have become after the step. */
  ghost predicate Becomes(s: Sys, step: Step, id: Id, t: Task)
    requires WellFormed(s) && id in s.k.tasks && Known(s.k.timers)
  {
    var was := s.k.tasks[id];
    match step
    case TickStep => t == if id in Collect(s.k.timers).firing then Signalled(was, KSLEEP) else was
    case SwitchStep => OnlySwitched(was, t)
    case ChangeMask(keep, add) => t == if id == s.k.current then was.(sigMask := was.sigMask * keep + add) else was
    case Post(x, bits) => t == if x == id then Signalled(was, bits) else was
    case StartTask(x) => t == if x == id then was.(state := Ready, onActive := true) else was
    case RunStep => t == if id == s.k.current then AfterRegion(was, s.pc[id]) else was
    case _ => t == was
  }

  /** The current task after its next region. */
  function AfterRegion(t: Task, p: Pc): Task {
    match p
    case Waiting(mask, _, _) => Waited(t, mask)
    case ExitDie => t.(state := Dying, onActive := false, onDying := true)
    case _ => t
  }

  lemma IdleBecomes(s: Sys, id: Id)
    requires SysInv(s) && WellFormed(s) && IdlePc(s.pc[s.k.current]) && id in s.k.tasks && id in Go(s).k.tasks
    ensures Go(s).k.tasks[id] == s.k.tasks[id]
  {
    hide SysInv, FlagsOk, Reap;
    ReapSame(s.k);
  }

  /** Everywhere but in a wait and at its exit, a task's next region leaves all tasks' structures alone. */
  lemma OtherBecomes(s: Sys)
    requires WellFormed(s) && !IdlePc(s.pc[s.k.current]) && !s.pc[s.k.current].Waiting? && s.pc[s.k.current] != ExitDie
    ensures Go(s).k.tasks == s.k.tasks
  {
    hide FlagsOk, Del, Add;
  }

  lemma TaskBecomes(s: Sys, id: Id)
    requires SysInv(s) && WellFormed(s) && !IdlePc(s.pc[s.k.current]) && id in s.k.tasks && id in Go(s).k.tasks
    ensures Go(s).k.tasks[id] == if id == s.k.current then AfterRegion(s.k.tasks[id], s.pc[id]) else s.k.tasks[id]
  {
    hide SchedInv, TimersOk, MemInv, PcInv, Wait, SetState, Answered, Waited, Del, Add, FlagsOk;
    IdleIsCurrent(s);
    match s.pc[s.k.current]
    case Waiting(mask, _, _) => CurrentAlive(s); WaitEffect(s.k, mask);
    case ExitDie => CurrentAlive(s); DyingEffect(s.k);
    case _ => OtherBecomes(s);
  }

  /** Only a task spinning after its exit is dying while it executes. */
  lemma CurrentAlive(s: Sys)
    requires SysInv(s) && s.k.current in s.pc && s.k.current in s.k.tasks && s.pc[s.k.current] != Exited
    ensures !s.k.tasks[s.k.current].onDying
  {
    hide MemInv;
    CurrentFits(s);
  }

  /** Each step does to each surviving task what `Becomes` says, and nothing else. */
  lemma StepBecomes(s: Sys, step: Step, id: Id)
    requires SysInv(s) && WellFormed(s) && Enabled(s, step) && id in s.k.tasks
    requires id in Apply(s, step).k.tasks
    ensures Known(s.k.timers) && Becomes(s, step, id, Apply(s, step).k.tasks[id])
  {
    hide SchedInv, MemInv, PcInv, Go, Tick, Select, Choose, Signal, SetState, FlagsOk, Timer.Inv;
    FlagsKnown(s.k.timers);
    SchedBasics(s.k);
    IdleIsCurrent(s);
    match step
    case TickStep => TickEffect(s.k);
    case SwitchStep => SelectRest(s.k); SelectTasks(s.k, id);
    case RunStep => if IdlePc(s.pc[s.k.current]) { IdleBecomes(s, id); } else { TaskBecomes(s, id); }
    case Post(x, bits) => SignalEffect(s.k, x, bits);
    case StartTask(x) => StartEffect(s.k, x);
    case _ =>
  }

  // ----- What the idle task's regions leave alone -----

  lemma CleanSlotEffect(s: Sys, id: Id, n: nat)
    requires id in s.k.tasks && n < REGIONS == |s.k.tasks[id].regions.addr| && id in s.returned
    ensures var s' := CleanSlot(s, id, n);
      && s'.k.timers == s.k.timers && s'.k.current == s.k.current && s'.k.tasks == s.k.tasks
      && s'.pc == s.pc && s'.i == s.i
  {
  }

  lemma CleanStructEffect(s: Sys, id: Id)
    requires id in s.k.tasks
    ensures var s' := CleanStruct(s, id);
      && s'.k.current == s.k.current && s'.i == s.i
      && s'.k.timers.interval == s.k.timers.interval && s'.k.tasks.Keys <= s.k.tasks.Keys
      && (forall x :: x in s'.k.timers.events && x in s.k.timers.events ==>
        s'.k.timers.events[x] == s.k.timers.events[x])
      && (forall x :: x in s'.pc && x in s.pc ==> s'.pc[x] == s.pc[x])
      && s'.k.timers.events.Keys <= s.k.timers.events.Keys && s'.pc.Keys <= s.pc.Keys
  {
  }

  /** A region of the idle task: the clock, the other tasks' places, and the events of the tasks that stay. */
  ghost predicate IdleLeaves(s: Sys, s': Sys) {
    && s'.i == s.i && s'.k.current == s.k.current && s'.k.timers.interval == s.k.timers.interval
    && s'.k.tasks.Keys <= s.k.tasks.Keys
    && (forall x :: x in s'.k.timers.events && x in s.k.timers.events ==> s'.k.timers.events[x] == s.k.timers.events[x])
    && (forall x :: x in s'.pc && x in s.pc && x != s.k.current ==> s'.pc[x] == s.pc[x])
    && (s.k.current in s'.pc ==> IdlePc(s'.pc[s.k.current]))
  }

  lemma IdleEffect(s: Sys)
    requires WellFormed(s) && IdlePc(s.pc[s.k.current])
    ensures IdleLeaves(s, Go(s))
  {
    hide EventsOwned, Reap, CleanSlot, CleanStruct;
    ReapSame(s.k);
    match s.pc[s.k.current]
    case IdleFree(x, n) => if n < REGIONS { CleanSlotEffect(s, x, n); } else { CleanStructEffect(s, x); }
    case _ =>
  }

  // ----- A task's next region, case by case -----

  lemma CurrentKnown(s: Sys)
    requires WellFormed(s)
    ensures s.k.current in s.k.tasks && s.k.current in s.pc && s.k.current in s.k.timers.events
  {
  }

  lemma GoDel(s: Sys)
    requires WellFormed(s) && (s.pc[s.k.current].Deleting? || s.pc[s.k.current] == ExitDel)
    ensures s.k.current in s.k.timers.events
    ensures var c, p := s.k.current, s.pc[s.k.current];
      Go(s) == if p == ExitDel then Goto(DelSleep(s), ExitDie)
               else if CanDel(s.k.timers, c) then
                  Goto(DelSleep(s), Reading(p.msec, p.sleep, KSLEEP !! s.k.tasks[c].sigSet))
               else Goto(s, User)
  {
    hide FlagsOk, Del, IdealDel;
  }

  lemma GoAdd(s: Sys)
    requires WellFormed(s) && s.pc[s.k.current].Adding?
    ensures s.k.current in s.k.timers.events && Known(s.k.timers)
    ensures var p := s.pc[s.k.current];
      Go(s) == if CanAdd(s.k.timers, s.k.current)
               then Goto(AddSleep(s, p.abs, p.info.readAt + p.info.msec),
                       if p.sleep then Waiting(KSLEEP, true, p.info) else User)
               else Goto(s, User)
  {
    hide FlagsOk, Add, IdealAdd;
    FlagsKnown(s.k.timers);
  }

  lemma GoRead(s: Sys)
    requires WellFormed(s) && s.pc[s.k.current].Reading?
    ensures var p := s.pc[s.k.current];
      Go(s) == Goto(s, Adding(Wrap(p.msec as int + s.k.timers.now), p.sleep, Sleep(s.i.elapsed, p.msec, p.clean)))
  {
    hide FlagsOk;
  }

  /** The regions that do not touch the timer. */
  lemma GoRest(s: Sys)
    requires WellFormed(s) && !IdlePc(s.pc[s.k.current])
    requires var p := s.pc[s.k.current]; !p.Deleting? && p != ExitDel && !p.Adding? && !p.Reading?
    ensures Go(s).k.timers == s.k.timers && Go(s).i == s.i && Go(s).k.current == s.k.current
    ensures Go(s).pc == s.pc || Go(s).pc == s.pc[s.k.current := User] || Go(s).pc == s.pc[s.k.current := Exited]
    ensures s.pc[s.k.current].Waiting? && !Answered(s.k.tasks[s.k.current], s.pc[s.k.current].mask) ==> Go(s).pc == s.pc
    ensures Go(s).pc == s.pc ==> s.pc[s.k.current] == User || s.pc[s.k.current] == Exited || s.pc[s.k.current].Waiting?
    ensures s.pc[s.k.current].Waiting? && Answered(s.k.tasks[s.k.current], s.pc[s.k.current].mask) ==>
      Go(s).pc == s.pc[s.k.current := User]
  {
    hide FlagsOk, Wait, SetState, Answered;
    if s.pc[s.k.current].Waiting? { WaitTimers(s.k, s.pc[s.k.current].mask); }
    SetStateTimers(s.k, s.k.current, Dying);
  }

  lemma WaitTimers(k: Kernel, mask: Signals)
    requires k.current in k.tasks
    ensures Wait(k, mask).timers == k.timers && Wait(k, mask).current == k.current
  {
  }

  lemma SetStateTimers(k: Kernel, id: Id, st: TaskState)
    requires id in k.tasks
    ensures SetState(k, id, st).timers == k.timers && SetState(k, id, st).current == k.current
  {
  }
}
