/** The end of a task: who may still see it, and what becomes of its memory. */
module Lifecycle {
  import opened Sequences
  import opened Timer
  import opened Kernel
  import opened Scheduler
  import opened System
  import opened SystemInv
  import opened SystemRuns
  import opened TaskSteps

  /** A reaped task is not current, is on no list but the idle task's own, and its sleep event is on no queue. */
  lemma ReapedIsGone(s: Sys, id: Id)
    requires SysInv(s) && id in s.k.tasks && Reaped(s.k, id)
    ensures id != s.k.current && id != s.k.idle
    ensures id !in s.k.active && id !in s.k.taskList && id !in s.k.dying
    ensures id !in s.k.timers.queue && id !in s.k.timers.firing
  {
    hide MemInv;
    assert TaskOk(s.k, id) && PcOk(s, id);
  }

  /** No tick, signal, wait or switch brings a task back once it has exited. */
  lemma ExitIsFinal(s: Sys, step: Step, id: Id)
    requires SysInv(s) && WellFormed(s) && Enabled(s, step) && id in s.k.tasks && s.k.tasks[id].state == Dying
    ensures id in Apply(s, step).k.tasks ==> Apply(s, step).k.tasks[id] == s.k.tasks[id]
  {
    hide SchedInv, MemInv, TimersOk, FlagsOk, Apply, Collect, FreshOwner;
    if id in Apply(s, step).k.tasks {
      StepBecomes(s, step, id);
      assert PcOk(s, id);
      if step.ChangeMask? { CurrentFits(s); }
    }
  }

  /** Cleaning a slot gives back an address that is live, and that no other slot of any task holds. */
  lemma FreedWhileLive(s: Sys, id: Id, n: nat)
    requires SysInv(s) && WellFormed(s) && s.k.current == s.k.idle && s.pc[s.k.idle] == IdleFree(id, n) && n < REGIONS
    requires id in s.k.tasks && n in s.k.tasks[id].regions.dynamic
    ensures id in s.returned && id in Go(s).returned
    ensures var a := s.k.tasks[id].regions.addr[n]; var s' := Go(s);
      && a in s.k.heap && s'.k.heap == s.k.heap - {a as int} && s'.returned[id] == s.returned[id] + [a as int]
      && Unowned(s', a)
  {
    hide SchedInv, PcInv, TimersOk;
    var s' := Go(s);
    assert CleanOk(s, id);
    assert Owns(s, id, n) && OwnedAddr(s, id, n) == s.k.tasks[id].regions.addr[n];
    forall x, m | Owns(s', x, m) ensures OwnedAddr(s', x, m) != s.k.tasks[id].regions.addr[n] {
      assert Owns(s, x, m) && !(x == id && m == n);
    }
  }

  /**
   * A dynamic task that disappears has been through its whole cleanup: every one of its dynamic
   * regions was given back, each once, and its structure last.
   */
  lemma GoneMeansReturned(s: Sys, step: Step, id: Id)
    requires SysInv(s) && WellFormed(s) && Enabled(s, step)
    requires id in s.k.tasks && id !in Apply(s, step).k.tasks
    ensures step == RunStep && s.k.current == s.k.idle && Reaped(s.k, id) && s.k.tasks[id].dynamicStruct
    ensures id in s.returned && s.returned[id] == Dynamic(s.k.tasks[id].regions, REGIONS)
    ensures Distinct(s.returned[id] + [id])
    ensures id in s.k.heap && Apply(s, step).k.heap == s.k.heap - {id} && Apply(s, step).k.badFrees == 0
  {
    hide SchedInv, PcInv, TimersOk, Go, Tick, Select, Signal, SetState;
    assert step == RunStep by { OnlyRunForgets(s, step, id); }
    assert Go(s) == Apply(s, step);
    ForgetsInCleanup(s, id);
    assert CleanOk(s, id) && Owns(s, id, REGIONS) && OwnedAddr(s, id, REGIONS) == id;
    DynamicDistinct(id, s.k.tasks[id].regions, REGIONS);
    DynamicMembers(s.k.tasks[id].regions, REGIONS);
    IdleRuns(s);
  }

  /**
   * A reaped task that is still there, off the dead list and not being cleaned, is static and has been
   * cleaned up completely.
   */
  lemma StaticMeansReturned(s: Sys, id: Id)
    requires SysInv(s) && id in s.k.tasks && Reaped(s.k, id) && id !in s.k.dead && s.k.idle in s.pc
    requires !BeingCleaned(s, id)
    ensures id in s.returned && s.returned[id] == Dynamic(s.k.tasks[id].regions, |s.k.tasks[id].regions.addr|)
    ensures !s.k.tasks[id].dynamicStruct && forall n :: !Owns(s, id, n)
  {
    hide SchedInv, PcInv, TimersOk;
    assert CleanOk(s, id);
  }

  lemma IdleRuns(s: Sys)
    requires SysInv(s) && s.k.current in s.pc && s.k.current in s.k.tasks && IdlePc(s.pc[s.k.current])
    ensures s.k.current == s.k.idle
  {
    IdleIsCurrent(s);
  }

  lemma OnlyRunForgets(s: Sys, step: Step, id: Id)
    requires SysInv(s) && WellFormed(s) && Enabled(s, step) && id in s.k.tasks && id !in Apply(s, step).k.tasks
    ensures step == RunStep
  {
    hide PcInv, MemInv, Go, Collect, Choose;
    match step
    case TickStep => TickEffect(s.k);
    case SwitchStep => SelectRest(s.k);
    case _ =>
  }

  /** A task's structure goes only at the end of its cleanup. */
  lemma ForgetsInCleanup(s: Sys, id: Id)
    requires SysInv(s) && WellFormed(s) && Enabled(s, RunStep) && id in s.k.tasks && id !in Go(s).k.tasks
    ensures s.pc[s.k.current] == IdleFree(id, REGIONS) && s.k.tasks[id].dynamicStruct
    ensures Go(s).k.heap == (FreeAddr(s.k, id)).heap && Go(s).k.badFrees == FreeAddr(s.k, id).badFrees
    ensures s.k.current == s.k.idle
  {
    hide SysInv, GoIdle, GoTask, EventsOwned;
    if IdlePc(s.pc[s.k.current]) {
      IdleForgets(s, id);
      IdleIsCurrent(s);
    } else {
      TaskKeepsAll(s);
    }
  }

  lemma TaskKeepsAll(s: Sys)
    requires WellFormed(s) && !IdlePc(s.pc[s.k.current])
    ensures Go(s).k.tasks.Keys == s.k.tasks.Keys
  {
    hide FlagsOk, Del, Add, Wait, SetState, Answered;
    if !s.pc[s.k.current].Waiting? && s.pc[s.k.current] != ExitDie { OtherBecomes(s); }
  }

  lemma IdleForgets(s: Sys, id: Id)
    requires WellFormed(s) && IdlePc(s.pc[s.k.current]) && id in s.k.tasks && id !in GoIdle(s).k.tasks
    ensures s.pc[s.k.current] == IdleFree(id, REGIONS) && s.k.tasks[id].dynamicStruct
    ensures GoIdle(s).k.heap == FreeAddr(s.k, id).heap && GoIdle(s).k.badFrees == FreeAddr(s.k, id).badFrees
  {
    hide EventsOwned, Reap, CleanSlot;
    ReapSame(s.k);
    match s.pc[s.k.current]
    case IdleFree(x, n) => if n < REGIONS { CleanSlotEffect(s, x, n); }
    case _ =>
  }

  lemma {:induction false} DynamicMembers(r: Regions, n: nat)
    requires RegionsOk(r) && n <= REGIONS
    ensures forall a :: a in Dynamic(r, n) <==> exists m :: 0 <= m < n && m in r.dynamic && r.addr[m] == a
    ensures |Dynamic(r, n)| <= n
  {
    if n > 0 { DynamicMembers(r, n - 1); }
  }

  lemma {:induction false} DynamicDistinct(id: Id, r: Regions, n: nat)
    requires RegionsOk(r) && n <= REGIONS && DistinctSlots(id, r, true)
    ensures Distinct(Dynamic(r, n)) && id !in Dynamic(r, n)
  {
    if n > 0 {
      DynamicDistinct(id, r, n - 1);
      DynamicMembers(r, n - 1);
      if n - 1 in r.dynamic {
        assert DynamicSlot(r, true, n - 1) && DynamicSlot(r, true, REGIONS);
        assert SlotAddr(id, r, n - 1) != SlotAddr(id, r, REGIONS);
        forall m: nat | m < n - 1 && m in r.dynamic ensures r.addr[m] != r.addr[n - 1] {
          assert DynamicSlot(r, true, m) && SlotAddr(id, r, m) != SlotAddr(id, r, n - 1);
        }
        assert (r.addr[n - 1] as int) !in Dynamic(r, n - 1);
      }
    }
  }
}
