/** An exited task's memory does come back: a bound on how many turns of the idle task that takes. */
module Reclaim {
  import opened Sequences
  import opened Timer
  import opened Kernel
  import opened Scheduler
  import opened System
  import opened SystemInv
  import opened SystemRuns
  import opened TaskSteps
  import opened Lifecycle
  import opened Fairness

  /** Turns of the idle loop a dead task takes: one to pick it, one for each slot, one for its structure. */
  const PER_TASK: nat := REGIONS + 2

  /** The idle task goes back to its own business only when no dead task is left. */
  ghost predicate DeadOk(s: Sys) {
    s.k.idle in s.pc && (s.pc[s.k.idle].IdleTop? || s.pc[s.k.idle].IdleTimer? ==> s.k.dead == [])
  }

  predicate IdleTurn(s: Sys, step: Step) {
    step == RunStep && s.k.current == s.k.idle
  }

  // ----- What the steps do to the lists of the dying and the dead -----

  /** Everything but the idle task's own turns. */
  ghost predicate OthersTurn(s: Sys, s': Sys) {
    && s'.k.idle == s.k.idle && s'.k.dead == s.k.dead && (exists more :: s'.k.dying == s.k.dying + more)
    && s.k.idle in s.pc && s.k.idle in s'.pc && s'.pc[s.k.idle] == s.pc[s.k.idle]
    && forall id :: id in s.cleaned && id in s'.cleaned ==> s'.cleaned[id] == s.cleaned[id]
  }

  lemma NoneMore(q: seq<Id>)
    ensures q == q + []
  {
  }

  lemma StepLists(s: Sys, step: Step)
    requires SysInv(s) && WellFormed(s) && Enabled(s, step) && !IdleTurn(s, step)
    ensures OthersTurn(s, Apply(s, step))
  {
    hide SchedInv, PcInv, TimersOk, Go, Tick, Select, Signal, SetState, FreshOwner;
    NoneMore(s.k.dying);
    assert MemInv(s);
    IdleIsCurrent(s);
    match step
    case TickStep => TickEffect(s.k);
    case SwitchStep => SelectRest(s.k);
    case RunStep => GoLists(s);
    case Post(id, bits) => SignalEffect(s.k, id, bits);
    case StartTask(id) => StartEffect(s.k, id);
    case MakeTask(id, r, d) => FreshIsNew(s, id, r, d);
    case _ =>
  }

  lemma FreshIsNew(s: Sys, id: Id, r: Regions, d: bool)
    requires FreshOwner(s, id, r, d)
    ensures id !in s.k.tasks
  {
  }

  lemma GoLists(s: Sys)
    requires SysInv(s) && WellFormed(s) && s.k.current != s.k.idle && s.k.current in s.pc && s.k.idle in s.pc
    ensures OthersTurn(s, Go(s))
  {
    hide SchedInv, PcInv, TimersOk, MemInv, Wait, SetState, Answered, Del, Add, FlagsOk;
    NoneMore(s.k.dying);
    IdleIsCurrent(s);
    match s.pc[s.k.current]
    case Waiting(mask, _, _) => CurrentAlive(s); WaitEffect(s.k, mask);
    case ExitDie => CurrentAlive(s); DyingEffect(s.k);
    case _ =>
  }

  lemma {:induction false} ReapLists(k: Kernel)
    ensures Reap(k).dead == k.dead + k.dying && Reap(k).dying == []
    decreases |k.dying|
  {
    if k.dying != [] {
      ReapLists(ReapOne(k));
      assert k.dying == [k.dying[0]] + k.dying[1..];
    }
  }

  /** The four turns of the idle loop, as far as these lists and the cleanup's place go. */
  ghost predicate OwnTurn(s: Sys, s': Sys)
    requires s.k.idle in s.pc && s.k.idle in s'.pc
  {
    var p, p' := s.pc[s.k.idle], s'.pc[s.k.idle];
    && s'.k.idle == s.k.idle
    && match p
       case IdleTop =>
         if s.k.dyingCount > 0 then p' == IdleClean && s'.k.dead == s.k.dead + s.k.dying && s'.k.dying == []
         else p' == IdleTimer && s'.k.dead == s.k.dead && s'.k.dying == s.k.dying
       case IdleTimer => p' == IdleTop && s'.k.dead == s.k.dead && s'.k.dying == s.k.dying
       case IdleClean =>
         s'.k.dying == s.k.dying &&
         (if s.k.dead == [] then p' == IdleTop && s'.k.dead == []
          else p' == IdleFree(s.k.dead[0], 0) && s'.k.dead == s.k.dead[1..])
       case IdleFree(id, n) =>
         s'.k.dying == s.k.dying && s'.k.dead == s.k.dead
         && p' == (if n < REGIONS then IdleFree(id, n + 1) else IdleClean)
         && (n == REGIONS ==> id !in s'.k.tasks || (id in s'.cleaned && s'.cleaned[id] == REGIONS + 1))
       case _ => false
  }

  lemma IdleLists(s: Sys)
    requires SysInv(s) && WellFormed(s) && s.k.current == s.k.idle && s.k.idle in s.pc
    ensures s.k.idle in Go(s).pc && OwnTurn(s, Go(s))
  {
    hide SchedInv, PcInv, TimersOk, MemInv, Reap, CleanSlot, CleanStruct;
    IdleIsCurrent(s);
    CurrentKnown(s);
    ReapLists(s.k);
    ReapSame(s.k);
    match s.pc[s.k.current]
    case IdleFree(id, n) =>
      CleaningOther(s, id);
      if n < REGIONS { SlotLists(s, id, n); } else { StructLists(s, id); }
    case _ =>
  }

  lemma CleaningOther(s: Sys, id: Id)
    requires SysInv(s) && s.k.current == s.k.idle && s.k.idle in s.pc && s.pc[s.k.idle].IdleFree?
    requires s.pc[s.k.idle].id == id
    ensures id in s.k.tasks && id != s.k.idle
  {
    hide TimersOk, PcInv;
    assert CleanOk(s, id);
    assert TaskOk(s.k, id);
  }

  lemma SlotLists(s: Sys, id: Id, n: nat)
    requires id in s.k.tasks && n < REGIONS == |s.k.tasks[id].regions.addr| && id in s.returned
    ensures var s' := CleanSlot(s, id, n);
      && s'.k.idle == s.k.idle && s'.k.current == s.k.current && s'.k.dead == s.k.dead
      && s'.k.dying == s.k.dying && s'.pc == s.pc
  {
  }

  lemma StructLists(s: Sys, id: Id)
    requires id in s.k.tasks && id != s.k.idle && s.k.idle in s.pc
    ensures var s' := CleanStruct(s, id);
      && s'.k.idle == s.k.idle && s'.k.current == s.k.current && s'.k.dead == s.k.dead && s'.k.dying == s.k.dying
      && s.k.idle in s'.pc && (id !in s'.k.tasks || (id in s'.cleaned && s'.cleaned[id] == REGIONS + 1))
  {
  }

  lemma StepDeadOk(s: Sys, step: Step)
    requires SysInv(s) && WellFormed(s) && Enabled(s, step) && DeadOk(s)
    ensures DeadOk(Apply(s, step))
  {
    hide SysInv, WellFormed, Go;
    if IdleTurn(s, step) {
      IdleLists(s);
      assert Apply(s, step) == Go(s);
      IdlePlace(s);
    } else {
      hide Apply, Enabled;
      StepLists(s, step);
    }
  }

  lemma IdlePlace(s: Sys)
    requires SysInv(s) && s.k.idle in s.pc
    ensures IdlePc(s.pc[s.k.idle])
  {
    hide SchedInv, MemInv;
    assert PcOk(s, s.k.idle);
  }

  // ----- How much there is left to do -----

  /** Turns left in the cleanup the idle task is in the middle of. */
  function Busy(p: Pc): nat {
    if p.IdleFree? && p.n <= REGIONS then REGIONS + 1 - p.n else 0
  }

  /** Turns from a finished cleanup to the next reaping. */
  function ToReap(p: Pc): nat {
    if p.IdleTop? then 1 else 2
  }

  /** How many turns of the idle task it takes until the memory of the exited task `id` is back. */
  function TurnsLeft(s: Sys, id: Id): nat
    requires s.k.idle in s.pc
  {
    var p := s.pc[s.k.idle];
    if BeingCleaned(s, id) then Busy(p)
    else if id in s.k.dead then Busy(p) + (IndexOf(s.k.dead, id) + 1) * PER_TASK
    else Busy(p) + |s.k.dead| * PER_TASK + ToReap(p) + (IndexOf(s.k.dying, id) + 1) * PER_TASK
  }

  /** The cleanup of a task whose structure is static is over, and every dynamic region has gone back. */
  predicate Freed(s: Sys, id: Id) {
    && id in s.k.tasks && id in s.cleaned && id in s.returned && |s.k.tasks[id].regions.addr| == REGIONS
    && s.cleaned[id] == REGIONS + 1 && s.returned[id] == Dynamic(s.k.tasks[id].regions, REGIONS)
  }

  /** The step gives back the structure of a task all of whose dynamic regions have gone back before. */
  ghost predicate Vanishes(s: Sys, step: Step, id: Id)
    requires WellFormed(s) && Enabled(s, step)
  {
    && id in s.k.tasks && id !in Apply(s, step).k.tasks && id in s.returned && |s.k.tasks[id].regions.addr| == REGIONS
    && s.returned[id] == Dynamic(s.k.tasks[id].regions, REGIONS)
    && id in s.k.heap && Apply(s, step).k.heap == s.k.heap - {id}
  }

  /** An exited task that is not done with is dying, dead, or being cleaned up. */
  lemma SomewhereDying(s: Sys, id: Id)
    requires SysInv(s) && s.k.idle in s.pc && id in s.k.tasks && s.k.tasks[id].state == Dying && !Freed(s, id)
    ensures id in s.k.dying || id in s.k.dead || BeingCleaned(s, id)
    ensures BeingCleaned(s, id) ==> s.pc[s.k.idle].n <= REGIONS && id !in s.k.dead && id !in s.k.dying
    ensures id in s.k.dead ==> id !in s.k.dying
    ensures |s.k.dying| == s.k.dyingCount
  {
    hide TimersOk, PcInv;
    assert TaskOk(s.k, id) && CleanOk(s, id);
  }

  /** One turn of the idle task brings the end one turn nearer. */
  lemma TurnCounts(s: Sys, id: Id)
    requires SysInv(s) && WellFormed(s) && DeadOk(s) && s.k.current == s.k.idle && Enabled(s, RunStep)
    requires id in s.k.tasks && s.k.tasks[id].state == Dying && !Freed(s, id)
    requires id in Go(s).k.tasks && !Freed(Go(s), id) && Go(s).k.tasks[id].state == Dying
    ensures Go(s).k.idle == s.k.idle && s.k.idle in Go(s).pc && TurnsLeft(Go(s), id) < TurnsLeft(s, id)
  {
    hide SysInv, WellFormed, Go, Freed;
    SomewhereDying(s, id);
    IdleLists(s);
    StepInv(s, RunStep);
    assert Apply(s, RunStep) == Go(s);
    SomewhereDying(Go(s), id);
    var p := s.pc[s.k.idle];
    if p.IdleFree? { CleaningBound(s, p.id, p.n); }
    if p == IdleFree(id, REGIONS) { StaticFreed(s, id); }
    match p
    case IdleTop => TopCounts(s, Go(s), id);
    case IdleClean => CleanCounts(s, Go(s), id);
    case IdleFree(x, n) => FreeCounts(s, Go(s), id);
    case _ =>
  }

  lemma FreeCounts(s: Sys, s': Sys, id: Id)
    requires s.k.idle in s.pc && s.k.idle in s'.pc && OwnTurn(s, s') && s.pc[s.k.idle].IdleFree?
    requires s.pc[s.k.idle].n <= REGIONS && (s.pc[s.k.idle].n == REGIONS ==> !BeingCleaned(s, id))
    requires id in s.k.dying || id in s.k.dead || BeingCleaned(s, id)
    ensures TurnsLeft(s', id) < TurnsLeft(s, id)
  {
  }

  lemma TopCounts(s: Sys, s': Sys, id: Id)
    requires s.k.idle in s.pc && s.k.idle in s'.pc && OwnTurn(s, s') && DeadOk(s) && s.pc[s.k.idle].IdleTop?
    requires id in s.k.dying && s.k.dyingCount > 0
    ensures TurnsLeft(s', id) < TurnsLeft(s, id)
  {
    assert s.k.dead + s.k.dying == s.k.dying;
  }

  lemma CleanCounts(s: Sys, s': Sys, id: Id)
    requires s.k.idle in s.pc && s.k.idle in s'.pc && OwnTurn(s, s') && s.pc[s.k.idle].IdleClean?
    requires id in s.k.dying || id in s.k.dead
    ensures TurnsLeft(s', id) < TurnsLeft(s, id)
  {
    var dead := s.k.dead;
    if dead != [] && id != dead[0] && id in dead {
      assert id in dead[1..] && IndexOf(dead, id) == IndexOf(dead[1..], id) + 1;
    }
  }

  lemma CleaningBound(s: Sys, id: Id, n: nat)
    requires SysInv(s) && s.k.idle in s.pc && s.pc[s.k.idle] == IdleFree(id, n)
    ensures n <= REGIONS
  {
    hide SchedInv, TimersOk, PcInv;
    assert CleanOk(s, id);
  }

  lemma StaticFreed(s: Sys, id: Id)
    requires SysInv(s) && WellFormed(s) && s.k.current == s.k.idle && s.k.idle in s.pc
    requires s.pc[s.k.idle] == IdleFree(id, REGIONS)
    requires id in Go(s).k.tasks && SysInv(Go(s))
    ensures Freed(Go(s), id)
  {
    hide SchedInv, TimersOk, PcInv, Go;
    IdleLists(s);
    assert CleanOk(Go(s), id);
  }

  /** Everybody else's steps leave the count as it is. */
  lemma OthersKeepCount(s: Sys, s': Sys, id: Id)
    requires OthersTurn(s, s') && (id in s.k.dying || id in s.k.dead || BeingCleaned(s, id))
    ensures TurnsLeft(s', id) == TurnsLeft(s, id)
  {
    hide IndexOf;
    var more :| s'.k.dying == s.k.dying + more;
    if id in s.k.dying { IndexOfPrefix(s.k.dying, more, id); }
  }

  // ----- Over a run -----

  /** How many turns the idle task gets in a run. */
  ghost function IdleTurns(s: Sys, steps: seq<Step>): nat
    requires Runs(s, steps)
    decreases |steps|
  {
    if steps == [] then 0 else (if IdleTurn(s, steps[0]) then 1 else 0) + IdleTurns(Apply(s, steps[0]), steps[1..])
  }

  /** Somewhere in the run the memory of `id` is all back. */
  ghost predicate ComesBack(s: Sys, steps: seq<Step>, id: Id)
    requires Runs(s, steps)
    decreases |steps|
  {
    Freed(s, id) || (steps != [] && (Vanishes(s, steps[0], id) || ComesBack(Apply(s, steps[0]), steps[1..], id)))
  }

  /**
   * Once a task has exited, its dynamic regions, and its structure if that is dynamic, are back with the allocator
   * after as many turns of the idle task as `TurnsLeft` says, whatever other tasks, ticks and exits do in between.
   */
  lemma {:induction false} MemoryComesBack(s: Sys, steps: seq<Step>, id: Id)
    requires SysInv(s) && DeadOk(s) && Runs(s, steps) && id in s.k.tasks && s.k.tasks[id].state == Dying
    requires IdleTurns(s, steps) >= TurnsLeft(s, id)
    ensures ComesBack(s, steps, id)
    decreases |steps|
  {
    hide SysInv, WellFormed, Enabled, Apply, DeadOk, TurnsLeft, Freed, Vanishes, OthersTurn;
    IdleHasPc(s);
    if !Freed(s, id) {
      SomewhereDying(s, id);
      TurnsPositive(s, id);
      var s' := Apply(s, steps[0]);
      if id !in s'.k.tasks {
        GoneVanishes(s, steps[0], id);
      } else {
        StepInv(s, steps[0]);
        StepDeadOk(s, steps[0]);
        IdleHasPc(s');
        ExitIsFinal(s, steps[0], id);
        if !Freed(s', id) { OneStepCounts(s, steps[0], id); }
        DoneOrOn(s', steps[1..], id);
        if !Freed(s', id) { MemoryComesBack(s', steps[1..], id); }
      }
    }
  }

  lemma IdleHasPc(s: Sys)
    requires DeadOk(s)
    ensures s.k.idle in s.pc
  {
  }

  lemma DoneOrOn(s: Sys, steps: seq<Step>, id: Id)
    requires Runs(s, steps)
    ensures Freed(s, id) ==> ComesBack(s, steps, id)
  {
  }

  lemma TurnsPositive(s: Sys, id: Id)
    requires s.k.idle in s.pc && (BeingCleaned(s, id) ==> s.pc[s.k.idle].n <= REGIONS)
    ensures TurnsLeft(s, id) > 0
  {
  }

  lemma OneStepCounts(s: Sys, step: Step, id: Id)
    requires SysInv(s) && WellFormed(s) && DeadOk(s) && Enabled(s, step)
    requires id in s.k.tasks && s.k.tasks[id].state == Dying && !Freed(s, id)
    requires var s' := Apply(s, step);
      && id in s'.k.tasks && !Freed(s', id) && s'.k.tasks[id].state == Dying && s'.k.idle in s'.pc
    ensures TurnsLeft(Apply(s, step), id) + (if IdleTurn(s, step) then 1 else 0) <= TurnsLeft(s, id)
  {
    hide SysInv, WellFormed, Go, Freed, TurnsLeft, OthersTurn;
    if IdleTurn(s, step) {
      assert Apply(s, step) == Go(s);
      TurnCounts(s, id);
    } else {
      hide Apply, Enabled;
      SomewhereDying(s, id);
      StepLists(s, step);
      OthersKeepCount(s, Apply(s, step), id);
    }
  }

  lemma GoneVanishes(s: Sys, step: Step, id: Id)
    requires SysInv(s) && WellFormed(s) && Enabled(s, step) && id in s.k.tasks && id !in Apply(s, step).k.tasks
    ensures Vanishes(s, step, id)
  {
    hide SchedInv, PcInv, TimersOk, WellFormed, Enabled, Apply;
    GoneMeansReturned(s, step, id);
    assert CleanOk(s, id);
  }

  /** The condition about the dead list holds at the start and after any run. */
  lemma {:induction false} EveryRunDeadOk(s: Sys, steps: seq<Step>)
    requires (SystemRuns.Start(s) || (SysInv(s) && DeadOk(s))) && Runs(s, steps)
    ensures SysInv(Final(s, steps)) && DeadOk(Final(s, steps))
    decreases |steps|
  {
    hide SysInv, Enabled, Apply;
    if !SysInv(s) { BootInv(s); }
    if steps != [] {
      StepInv(s, steps[0]);
      StepDeadOk(s, steps[0]);
      EveryRunDeadOk(Apply(s, steps[0]), steps[1..]);
    }
  }
}
