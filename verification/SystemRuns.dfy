/** Cleaning up dead tasks, and the invariant over every run. */
module SystemRuns {
  import opened Sequences
  import opened Timer
  import opened TimerRefinement
  import opened Kernel
  import opened Scheduler
  import opened System
  import opened SystemInv

  // ----- The idle task's cleanup -----

  lemma TakeDeadInv(s: Sys, s': Sys)
    requires SysInv(s) && s.k.current == s.k.idle && s.k.idle in s.pc && s.pc[s.k.idle] == IdleClean && s.k.dead != []
    requires s' == Goto(s.(k := s.k.(dead := s.k.dead[1..])), IdleFree(s.k.dead[0], 0))
    ensures SysInv(s')
  {
    hide Fits, FlagsOk;
    var d := s.k.dead[0];
    TailDistinct(s.k.dead);
    assert d in s.k.dead;
    CurrentFits(s);
    IdleFits(s, s', s.k.idle);
    forall id | id in s'.k.tasks ensures TaskOk(s'.k, id) && CleanOk(s', id) {
      assert TaskOk(s.k, id) && CleanOk(s, id);
    }
    SameOwners(s, s');
  }

  lemma IdleFits(s: Sys, s': Sys, idle: Id)
    requires PcInv(s) && idle in s.k.tasks && idle == s.k.idle == s'.k.idle
    requires s'.k.tasks == s.k.tasks && s'.k.timers == s.k.timers && idle in s'.pc
    requires s'.pc == s.pc[idle := s'.pc[idle]] && IdlePc(s'.pc[idle])
    ensures PcInv(s')
  {
    forall id | id in s'.k.tasks ensures PcOk(s', id) {
      assert PcOk(s, id);
    }
  }

  lemma CleanSlotMemory(s: Sys, s': Sys, id: Id, n: nat)
    requires MemInv(s) && s.k.current == s.k.idle && s.pc[s.k.idle] == IdleFree(id, n) && n < REGIONS
    requires CleanOk(s, id)
    requires s' == Goto(CleanSlot(s, id, n), IdleFree(id, n + 1))
    ensures MemInv(s')
  {
    var r := s.k.tasks[id].regions;
    if n in r.dynamic { assert Owns(s, id, n) && OwnedAddr(s, id, n) == r.addr[n]; }
    forall x | x in s'.k.tasks ensures CleanOk(s', x) {
      assert CleanOk(s, x);
    }
    forall x, m | Owns(s', x, m) ensures Owns(s, x, m) && !(x == id && m == n) {
    }
    forall x, m | Owns(s', x, m) ensures OwnedAddr(s', x, m) in s'.k.heap {
      assert Owns(s, x, m);
    }
    forall x, m, x', m' | Owns(s', x, m) && Owns(s', x', m') && OwnedAddr(s', x, m) == OwnedAddr(s', x', m')
      ensures x == x' && m == m'
    {
      assert Owns(s, x, m) && Owns(s, x', m');
    }
  }

  lemma CleanSlotInv(s: Sys, s': Sys, id: Id, n: nat)
    requires SysInv(s) && s.k.current == s.k.idle && s.k.idle in s.pc
    requires s.pc[s.k.idle] == IdleFree(id, n) && n < REGIONS
    requires id in s.k.tasks && |s.k.tasks[id].regions.addr| == REGIONS && id in s.returned
    requires s' == Goto(CleanSlot(s, id, n), IdleFree(id, n + 1))
    ensures SysInv(s')
  {
    hide Fits, FlagsOk, CleanOk, TaskOk;
    assert CleanOk(s, id);
    CleanSlotMemory(s, s', id, n);
    SameSched(s.k, s'.k);
    IdleFits(s, s', s.k.idle);
  }

  lemma CleanStructMemory(s: Sys, s': Sys, id: Id)
    requires MemInv(s) && SchedInv(s.k) && s.k.current == s.k.idle
    requires s.pc[s.k.idle] == IdleFree(id, REGIONS) && CleanOk(s, id)
    requires s' == Goto(CleanStruct(s, id), IdleClean)
    requires id != s.k.idle
    ensures MemInv(s')
  {
    if s.k.tasks[id].dynamicStruct { assert Owns(s, id, REGIONS) && OwnedAddr(s, id, REGIONS) == id; }
    forall x | x in s'.k.tasks ensures CleanOk(s', x) {
      assert CleanOk(s, x);
    }
    forall x, m | Owns(s', x, m) ensures Owns(s, x, m) && x != id {
    }
    forall x, m | Owns(s', x, m) ensures OwnedAddr(s', x, m) in s'.k.heap {
      assert Owns(s, x, m);
    }
    forall x, m, x', m' | Owns(s', x, m) && Owns(s', x', m') && OwnedAddr(s', x, m) == OwnedAddr(s', x', m')
      ensures x == x' && m == m'
    {
      assert Owns(s, x, m) && Owns(s, x', m');
    }
  }

  /** A cleaned-up task is on no list, is not current, and its event is on no queue: it can go. */
  lemma ForgetTask(s: Sys, s': Sys, id: Id)
    requires SysInv(s) && id in s.k.tasks && Reaped(s.k, id) && id !in s.k.dead && id != s.k.idle && id in s.pc
    requires s'.k == s.k.(tasks := s.k.tasks - {id}, timers := s.k.timers.(events := s.k.timers.events - {id}),
      heap := s'.k.heap, badFrees := s'.k.badFrees)
    requires s'.pc == s.pc - {id}
    ensures SchedInv(s'.k) && TimersOk(s') && PcInv(s')
  {
    hide CleanOk;
    assert TaskOk(s.k, id) && PcOk(s, id);
    forall x | x in s'.k.tasks ensures TaskOk(s'.k, x) && PcOk(s', x) {
      assert TaskOk(s.k, x) && PcOk(s, x);
    }
  }

  lemma CleanStructInv(s: Sys, s': Sys, id: Id)
    requires SysInv(s) && s.k.current == s.k.idle && s.k.idle in s.pc && s.pc[s.k.idle] == IdleFree(id, REGIONS)
    requires id in s.k.tasks && s' == Goto(CleanStruct(s, id), IdleClean)
    ensures SysInv(s')
  {
    hide Fits, FlagsOk, CleanOk, TaskOk;
    assert CleanOk(s, id) && TaskOk(s.k, id) && TaskOk(s.k, s.k.idle);
    CleaningReaped(s, id);
    IdleNotReaped(s, id);
    CleanStructMemory(s, s', id);
    if s.k.tasks[id].dynamicStruct {
      var s1 := s.(k := FreeStruct(s.k, id), pc := s.pc - {id});
      ForgetTask(s, s1, id);
      SameSched(s1.k, s'.k);
      IdleFits(s1, s', s.k.idle);
    } else {
      SameSched(s.k, s'.k);
      IdleFits(s, s', s.k.idle);
    }
  }

  lemma CleaningReaped(s: Sys, id: Id)
    requires MemInv(s) && id in s.k.tasks && BeingCleaned(s, id)
    ensures Reaped(s.k, id) && id !in s.k.dead
  {
    assert CleanOk(s, id);
  }

  lemma IdleNotReaped(s: Sys, id: Id)
    requires SchedInv(s.k) && id in s.k.tasks && Reaped(s.k, id)
    ensures id != s.k.idle && id != s.k.current
  {
    assert TaskOk(s.k, id);
  }

  // ----- Every step -----

  lemma GoIdleInv(s: Sys)
    requires SysInv(s) && WellFormed(s) && IdlePc(s.pc[s.k.current])
    ensures SysInv(Go(s))
  {
    hide SchedInv, TimersOk, MemInv, Fits, CleanSlot, CleanStruct, Reap;
    var c := s.k.current;
    CurrentFits(s);
    IdleIsCurrent(s);
    match s.pc[c]
    case IdleTop =>
      if s.k.dyingCount > 0 {
        var s1 := s.(k := Reap(s.k));
        ReapInv(s, s1);
        ReapSame(s.k);
        IdleGotoInv(s1, IdleClean);
      } else {
        IdleGotoInv(s, IdleTimer);
      }
    case IdleTimer =>
      var s1 := s.(k := s.k.(timers := Idle(s.k.timers)));
      IdleTimerInv(s, s1);
      IdleGotoInv(s1, IdleTop);
    case IdleClean =>
      if s.k.dead == [] {
        var s1 := s.(k := s.k.(pendsv := true));
        KickInv(s, s1);
        IdleGotoInv(s1, IdleTop);
      } else {
        TakeDeadInv(s, Go(s));
      }
    case IdleFree(id, n) =>
      if n < REGIONS { CleanSlotInv(s, Go(s), id, n); } else { CleanStructInv(s, Go(s), id); }
  }

  lemma IdleIsCurrent(s: Sys)
    requires SysInv(s) && s.k.current in s.pc && s.k.current in s.k.tasks
    ensures IdlePc(s.pc[s.k.current]) <==> s.k.current == s.k.idle
  {
    assert PcOk(s, s.k.current);
  }

  lemma ReapSame(k: Kernel)
    ensures var k' := Reap(k);
      k'.current == k.current && k'.idle == k.idle && k'.tasks == k.tasks && k'.timers == k.timers
    decreases |k.dying|
  {
    if k.dying != [] { ReapSame(ReapOne(k)); }
  }

  lemma GoTaskInv(s: Sys)
    requires SysInv(s) && WellFormed(s) && !IdlePc(s.pc[s.k.current])
    ensures SysInv(Go(s))
  {
    hide SchedInv, TimersOk, MemInv, Wait, SetState, Answered, Del, Add;
    var c, s' := s.k.current, Go(s);
    CurrentFits(s);
    IdleIsCurrent(s);
    InvKnown(s);
    match s.pc[c]
    case User =>
    case Deleting(msec, sleep) => DelSleepInv(s, s', Reading(msec, sleep, KSLEEP !! s.k.tasks[c].sigSet));
    case Reading(msec, sleep, clean) => GotoInv(s, s'.pc[c]);
    case Adding(abs, sleep, info) =>
      AddSleepInv(s, s', abs, info.readAt + info.msec, if sleep then Waiting(KSLEEP, true, info) else User);
    case Waiting(mask, _, _) => WaitInv(s, s', mask);
    case ExitDel => DelSleepInv(s, s', ExitDie);
    case ExitDie => ExitInv(s, s');
    case Exited => KickInv(s, s');
  }

  /** Between ticks no event is active, so a task can always delete its own event, and add it once deleted. */
  lemma InvKnown(s: Sys)
    requires SysInv(s) && s.k.current in s.pc && s.k.current in s.k.timers.events
    ensures Known(s.k.timers) && CanDel(s.k.timers, s.k.current)
    ensures s.pc[s.k.current].Adding? ==> CanAdd(s.k.timers, s.k.current)
  {
    hide SchedInv, MemInv;
    FlagsKnown(s.k.timers);
    assert PcOk(s, s.k.current);
  }

  lemma StepInv(s: Sys, step: Step)
    requires SysInv(s) && WellFormed(s) && Enabled(s, step)
    ensures SysInv(Apply(s, step))
  {
    hide SchedInv, TimersOk, MemInv, Go, Tick, Select, Signal, SetState, SetMask, Create, FreshOwner;
    CurrentFits(s);
    IdleIsCurrent(s);
    match step
    case TickStep => TickInv(s, Apply(s, step));
    case SwitchStep => SwitchInv(s, Apply(s, step));
    case CallSleep(msec) => GotoInv(s, Deleting(msec, true));
    case CallTimer(msec) => GotoInv(s, Deleting(msec, false));
    case CallWait(mask) => GotoInv(s, Waiting(mask, false, Sleep(0, 0, false)));
    case CallExit => GotoInv(s, ExitDel);
    case ChangeMask(keep, add) => ChangeMaskInv(s, Apply(s, step), keep, add);
    case RunStep => if IdlePc(s.pc[s.k.current]) { GoIdleInv(s); } else { GoTaskInv(s); }
    case Post(id, bits) => PostInv(s, Apply(s, step), id, bits);
    case MakeTask(id, r, d) => MakeTaskInv(s, Apply(s, step), id, r, d);
    case StartTask(id) => StartInv(s, Apply(s, step), id);
    case AllocMem(a) => HeapKept(s); HeapInv(s, Apply(s, step), s.k.heap + {a});
    case FreeMem(a) => HeapKept(s); HeapInv(s, Apply(s, step), s.k.heap - {a});
  }

  lemma HeapKept(s: Sys)
    requires MemInv(s)
    ensures forall id, n :: Owns(s, id, n) ==> OwnedAddr(s, id, n) in s.k.heap
  {
  }

  // ----- Every run -----

  /** Every step of the run was possible where it was taken. */
  ghost predicate Runs(s: Sys, steps: seq<Step>)
    decreases |steps|
  {
    steps == [] || (WellFormed(s) && Enabled(s, steps[0]) && Runs(Apply(s, steps[0]), steps[1..]))
  }

  ghost function Final(s: Sys, steps: seq<Step>): Sys
    requires Runs(s, steps)
    decreases |steps|
  {
    if steps == [] then s else Final(Apply(s, steps[0]), steps[1..])
  }

  const NO_REGIONS := Regions({}, [0, 0, 0, 0, 0, 0, 0, 0], [0, 0, 0, 0, 0, 0, 0, 0])

  /** The idle task has just been selected; no other task has been created, and no event is queued. */
  ghost predicate Start(s: Sys) {
    var idle := s.k.idle;
    && s.k.tasks == map[idle := Task(Running, false, false, 0, {}, TASK_MASK, false, NO_REGIONS)]
    && s.k.taskList == [idle] && s.k.active == [] && s.k.dying == [] && s.k.dead == []
    && s.k.activeCount == 0 && s.k.dyingCount == 0 && s.k.current == idle && s.k.badFrees == 0
    && s.k.timers.queue == [] && s.k.timers.firing == [] && s.k.timers.now == Clock(0)
    && s.k.timers.events == map[idle := Event(0, false, false, false)]
    && s.pc == map[idle := IdleTop] && s.cleaned == map[idle := 0] && s.returned == map[idle := []]
    && s.i == Ideal(0, [])
  }

  lemma BootInv(s: Sys)
    requires Start(s)
    ensures SysInv(s)
  {
    assert TaskOk(s.k, s.k.idle) && PcOk(s, s.k.idle);
    NoDynamic(NO_REGIONS, REGIONS);
    assert CleanOk(s, s.k.idle);
  }

  lemma NoDynamic(r: Regions, n: nat)
    requires n <= |r.addr| && r.dynamic == {}
    ensures Dynamic(r, 0) == []
  {
  }

  /**
   * Whatever ticks, context switches, signals, waits, sleeps, exits and cleanups interleave, the lists,
   * flags, counts and states agree, sleepers have nothing to wake for, and memory has one owner.
   */
  lemma {:induction false} EveryRun(s: Sys, steps: seq<Step>)
    requires (Start(s) || SysInv(s)) && Runs(s, steps)
    ensures SysInv(Final(s, steps))
    decreases |steps|
  {
    hide SysInv, Enabled, Apply;
    if !SysInv(s) { BootInv(s); }
    if steps != [] {
      StepInv(s, steps[0]);
      EveryRun(Apply(s, steps[0]), steps[1..]);
    }
  }

  /** The invariant also provides what every step needs, so no run is ever stuck in an ill-formed state. */
  lemma NeverStuck(s: Sys, step: Step)
    requires SysInv(s) && Enabled(s, step)
    ensures WellFormed(s) && SysInv(Apply(s, step))
  {
    InvWellFormed(s);
    StepInv(s, step);
  }
}
