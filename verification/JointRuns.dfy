/**
 * The kernel and the allocator together: over every joint run the addresses the kernel's tasks hold are
 * allocations of the allocator, of the recorded sizes, and no two tasks share one.
 */
module JointRuns {
  import opened Word32
  import opened Timer
  import opened Kernel
  import opened Scheduler
  import opened System
  import opened SystemInv
  import opened SystemRuns
  import opened TaskSteps
  import opened Lifecycle
  import opened Reclaim
  import H = HeapInvariant
  import O = HeapOps
  import P = PhysMem
  import TM = TaskMem
  import TA = TaskAlloc
  import M = Mpu

  datatype Joint = Joint(s: Sys, h: H.Heap)

  /** A step of the kernel, or a call to the allocator from outside it. */
  datatype Act =
    | Sched(step: Step)
    | Get(size: u32, align: u32)              // zeroed or not makes no difference to who owns what
    | Give(addr: int)
    | Write(addr: int, written: seq<u8>)
    | AddRange(start: u32, end: u32, flags: u32)

  /** Slot `n` of a task is an allocation of the size recorded for it. */
  ghost predicate Sized(h: H.Heap, r: Regions, n: nat)
    requires n < |r.addr| == |r.size|
  {
    O.Allocated(h, r.addr[n]) && P.RequestOf(h, r.addr[n]) == r.size[n]
  }

  ghost predicate AllSized(j: Joint) {
    forall id, n: nat :: Owns(j.s, id, n) && n < REGIONS ==> Sized(j.h, j.s.k.tasks[id].regions, n)
  }

  /** What every joint run keeps. */
  ghost predicate Linked(j: Joint) {
    SysInv(j.s) && WellFormed(j.s) && H.Settled(j.h) && TM.HeapMatches(j.s.k, j.h) && AllSized(j)
  }

  /** What each action asks. A new task's regions are recorded with the sizes they were allocated with. */
  ghost predicate Can(j: Joint, act: Act) {
    match act
    case Sched(step) =>
      && WellFormed(j.s) && Enabled(j.s, step) && !step.AllocMem? && !step.FreeMem?
      && (step.MakeTask? ==> forall n: nat :: n < REGIONS && n in step.regions.dynamic ==>
            n < |step.regions.addr| == |step.regions.size| && Sized(j.h, step.regions, n))
    case Get(size, align) => size + H.HEADER + align < TWO32
    case Give(a) => a in j.s.k.heap && Unowned(j.s, a)
    case Write(a, written) => P.Allowed(j.h, P.ClientWrite(a, written))
    case AddRange(start, end, flags) => P.Allowed(j.h, P.AddRange(start, end, flags))
  }

  /** The address a step of the kernel gives back to the allocator, if it gives one. */
  function FreedBy(s: Sys, step: Step): seq<int>
    requires s.k.current in s.pc
  {
    var p := s.pc[s.k.current];
    if step != RunStep || !p.IdleFree? || p.id !in s.k.tasks then []
    else
      var t := s.k.tasks[p.id];
      if p.n < REGIONS then (if p.n < |t.regions.addr| && p.n in t.regions.dynamic then [t.regions.addr[p.n]] else [])
      else if t.dynamicStruct then [p.id] else []
  }

  /** The calls the allocator sees. */
  ghost function OpsFor(j: Joint, act: Act): seq<P.Op>
    requires Linked(j) && Can(j, act)
  {
    match act
    case Sched(step) => if FreedBy(j.s, step) == [] then [] else [P.Op.Free(FreedBy(j.s, step)[0])]
    case Get(size, align) => [P.Op.Alloc(size, align, 1)]
    case Give(a) => [P.Op.Free(a)]
    case Write(a, written) => [P.ClientWrite(a, written)]
    case AddRange(start, end, flags) => [P.Op.AddRange(start, end, flags)]
  }

  /** The steps the kernel takes. */
  ghost function StepsFor(j: Joint, act: Act): seq<Step>
    requires Linked(j) && Can(j, act)
  {
    match act
    case Sched(step) => [step]
    case Get(size, align) => var a := P.AllocResult(j.h, size, align, true).1; if a == 0 then [] else [AllocMem(a)]
    case Give(a) => [FreeMem(a)]
    case _ => []
  }

  // ----- What the kernel's steps do to owners and to the live set -----

  /** Nobody comes to own a slot he did not own, unless the task is new. */
  ghost predicate OwnersShrink(s: Sys, s': Sys) {
    forall id, n: nat :: Owns(s', id, n) ==> Owns(s, id, n) && s'.k.tasks[id].regions == s.k.tasks[id].regions
  }

  lemma StepOwners(s: Sys, step: Step)
    requires SysInv(s) && WellFormed(s) && Enabled(s, step) && !step.MakeTask?
    ensures OwnersShrink(s, Apply(s, step))
  {
    hide SysInv, WellFormed, Apply, Enabled, OthersTurn;
    var s' := Apply(s, step);
    forall id, n: nat | Owns(s', id, n) ensures Owns(s, id, n) && s'.k.tasks[id].regions == s.k.tasks[id].regions {
      OldTask(s, step, id);
      CurrentKnown(s);
      StepBecomes(s, step, id);
      SameRegions(s, step, id, s'.k.tasks[id]);
      StepCleaned(s, step, id);
    }
  }

  lemma OldTask(s: Sys, step: Step, id: Id)
    requires SysInv(s) && WellFormed(s) && Enabled(s, step) && !step.MakeTask? && id in Apply(s, step).k.tasks
    ensures id in s.k.tasks && id in s.cleaned
  {
    hide SchedInv, PcInv, TimersOk, Go, Tick, Select, Signal, SetState;
    match step
    case TickStep => TickEffect(s.k);
    case SwitchStep => SelectRest(s.k);
    case RunStep => GoTasks(s);
    case _ => CurrentKnown(s);
  }

  lemma GoTasks(s: Sys)
    requires WellFormed(s)
    ensures Go(s).k.tasks.Keys <= s.k.tasks.Keys
  {
    hide GoIdle, GoTask;
    CurrentKnown(s);
    if IdlePc(s.pc[s.k.current]) { IdleEffect(s); } else { TaskKeepsAll(s); }
  }

  lemma SameRegions(s: Sys, step: Step, id: Id, t: Task)
    requires WellFormed(s) && id in s.k.tasks && Known(s.k.timers) && Becomes(s, step, id, t)
    requires step == RunStep && id == s.k.current ==> id in s.pc
    ensures t.regions == s.k.tasks[id].regions && t.dynamicStruct == s.k.tasks[id].dynamicStruct
  {
  }

  lemma StepCleaned(s: Sys, step: Step, id: Id)
    requires SysInv(s) && WellFormed(s) && Enabled(s, step) && !step.MakeTask? && id in s.cleaned
    requires id in Apply(s, step).cleaned
    ensures Apply(s, step).cleaned[id] >= s.cleaned[id]
  {
    hide SysInv, WellFormed, OthersTurn, Go;
    if IdleTurn(s, step) {
      GoCleaned(s, id);
    } else {
      StepLists(s, step);
      OthersCleaned(s, Apply(s, step), id);
    }
  }

  lemma OthersCleaned(s: Sys, s': Sys, id: Id)
    requires OthersTurn(s, s') && id in s.cleaned && id in s'.cleaned
    ensures s'.cleaned[id] == s.cleaned[id]
  {
  }

  lemma GoCleaned(s: Sys, id: Id)
    requires SysInv(s) && WellFormed(s) && s.k.current == s.k.idle && id in s.cleaned && id in Go(s).cleaned
    ensures Go(s).cleaned[id] >= s.cleaned[id]
  {
    hide SchedInv, PcInv, TimersOk, Reap, FreeRegion, FreeStruct;
    IdleIsCurrent(s);
    if s.pc[s.k.current].IdleFree? { assert CleanOk(s, s.pc[s.k.current].id); }
    assert id in s.k.tasks && CleanOk(s, id);
  }

  /** The live set loses exactly what the step gives back, which was live, and which nobody owns any more. */
  ghost predicate HeapFollows(s: Sys, step: Step, s': Sys)
    requires s.k.current in s.pc
  {
    var freed := FreedBy(s, step);
    if freed == [] then s'.k.heap == s.k.heap
    else freed[0] in s.k.heap && s'.k.heap == s.k.heap - {freed[0]} && Unowned(s', freed[0])
  }

  lemma StepHeap(s: Sys, step: Step)
    requires SysInv(s) && WellFormed(s) && Enabled(s, step) && !step.AllocMem? && !step.FreeMem?
    requires s.k.current in s.pc
    ensures HeapFollows(s, step, Apply(s, step))
  {
    hide SchedInv, PcInv, TimersOk, MemInv, Go, Tick, Select, Signal, SetState, Unowned;
    match step
    case TickStep => TickEffect(s.k);
    case SwitchStep => SelectRest(s.k);
    case RunStep => GoHeap(s);
    case Post(id, bits) => SignalEffect(s.k, id, bits);
    case StartTask(id) => StartEffect(s.k, id);
    case _ =>
  }

  lemma GoHeap(s: Sys)
    requires SysInv(s) && WellFormed(s) && s.k.current in s.pc
    ensures HeapFollows(s, RunStep, Go(s))
  {
    hide SysInv, WellFormed, Go, Unowned;
    CurrentKnown(s);
    IdleIsCurrent(s);
    if s.pc[s.k.current].IdleFree? {
      IdleFreeHeap(s, s.pc[s.k.current].id, s.pc[s.k.current].n);
    } else if IdlePc(s.pc[s.k.current]) {
      IdleHeap(s);
    } else {
      TaskHeap(s);
    }
  }

  lemma IdleHeap(s: Sys)
    requires WellFormed(s) && IdlePc(s.pc[s.k.current]) && !s.pc[s.k.current].IdleFree?
    ensures Go(s).k.heap == s.k.heap
  {
    hide EventsOwned, Reap;
    ReapHeap(s.k);
  }

  lemma {:induction false} ReapHeap(k: Kernel)
    ensures Reap(k).heap == k.heap && Reap(k).current == k.current
    decreases |k.dying|
  {
    if k.dying != [] { ReapHeap(ReapOne(k)); }
  }

  lemma TaskHeap(s: Sys)
    requires SysInv(s) && WellFormed(s) && !IdlePc(s.pc[s.k.current])
    ensures Go(s).k.heap == s.k.heap
  {
    hide SchedInv, PcInv, TimersOk, MemInv, Wait, SetState, Answered, Del, Add, FlagsOk;
    IdleIsCurrent(s);
    match s.pc[s.k.current]
    case Waiting(mask, _, _) => CurrentAlive(s); WaitEffect(s.k, mask);
    case ExitDie => CurrentAlive(s); DyingEffect(s.k);
    case _ =>
  }

  lemma IdleFreeHeap(s: Sys, id: Id, n: nat)
    requires SysInv(s) && WellFormed(s) && s.k.current == s.k.idle && s.k.idle in s.pc
    requires s.pc[s.k.idle] == IdleFree(id, n)
    ensures HeapFollows(s, RunStep, Go(s))
  {
    hide SchedInv, PcInv, TimersOk;
    assert CleanOk(s, id);
    if n < REGIONS {
      SlotHeap(s, id, n);
      if n in s.k.tasks[id].regions.dynamic { FreedWhileLive(s, id, n); }
    } else {
      StructHeap(s, id);
    }
  }

  lemma SlotHeap(s: Sys, id: Id, n: nat)
    requires WellFormed(s) && s.k.current == s.k.idle && s.k.idle in s.pc && s.pc[s.k.idle] == IdleFree(id, n)
    requires n < REGIONS
    ensures n !in s.k.tasks[id].regions.dynamic ==> Go(s).k.heap == s.k.heap
  {
    hide EventsOwned;
  }

  lemma StructHeap(s: Sys, id: Id)
    requires SysInv(s) && WellFormed(s) && s.k.current == s.k.idle && s.k.idle in s.pc
    requires s.pc[s.k.idle] == IdleFree(id, REGIONS)
    requires id in s.k.tasks
    ensures var t, s' := s.k.tasks[id], Go(s);
      if t.dynamicStruct then id in s.k.heap && s'.k.heap == s.k.heap - {id} && Unowned(s', id)
      else s'.k.heap == s.k.heap
  {
    hide SchedInv, PcInv, TimersOk;
    assert CleanOk(s, id);
    if s.k.tasks[id].dynamicStruct {
      assert Owns(s, id, REGIONS) && OwnedAddr(s, id, REGIONS) == id;
      var s' := Go(s);
      forall x, m | Owns(s', x, m) ensures OwnedAddr(s', x, m) != id {
        assert Owns(s, x, m) && x != id;
      }
    }
  }

  // ----- What the allocator's steps do to the link -----

  /** Another allocation is freed: the link to the rest stays. */
  lemma FreeLinks(h: H.Heap, a: int, r: Regions, n: nat)
    requires H.Settled(h) && O.Allocated(h, a) && n < |r.addr| == |r.size| && Sized(h, r, n) && r.addr[n] != a
    ensures H.Settled(O.FreeAt(h, a)) && Sized(O.FreeAt(h, a), r, n)
  {
    hide H.Inv, O.FreeAt, O.Allocated, P.RequestOf;
    TM.FreeOne(h, a);
    P.FreeClient(h, a, r.addr[n]);
    SizedStays(h, O.FreeAt(h, a), r, n);
  }

  lemma SizedStays(h: H.Heap, h': H.Heap, r: Regions, n: nat)
    requires H.Inv(h) && H.Inv(h') && n < |r.addr| == |r.size| && Sized(h, r, n) && P.SameClient(h, h', r.addr[n])
    ensures Sized(h', r, n)
  {
    hide H.Inv;
  }

  /** The joint state after an action. */
  ghost function Do(j: Joint, act: Act): Joint
    requires Linked(j) && Can(j, act) && P.RunAllowed(j.h, OpsFor(j, act)) && Runs(j.s, StepsFor(j, act))
  {
    Joint(Final(j.s, StepsFor(j, act)), P.Run(j.h, OpsFor(j, act)))
  }

  /** Every action the kernel and its clients take is one both sides allow. */
  lemma BothAllow(j: Joint, act: Act)
    requires Linked(j) && Can(j, act)
    ensures P.RunAllowed(j.h, OpsFor(j, act)) && Runs(j.s, StepsFor(j, act))
  {
    hide SysInv, WellFormed, Apply, H.Inv, P.Apply, P.AllocResult, O.FreeAt, O.Allocated;
    match act
    case Sched(step) =>
      CurrentKnown(j.s);
      StepHeap(j.s, step);
    case Get(size, align) =>
      if P.AllocResult(j.h, size, align, true).1 != 0 { TA.AllocBacked(j.h, TA.Request(size, align)); }
    case _ =>
  }

  // ----- Each action keeps the link -----

  /** The live blocks of two heaps are the same ones. */
  ghost predicate SameLive(h: H.Heap, h': H.Heap) {
    && (forall s :: s in h.blocks && h.blocks[s].use.Live? ==> s in h'.blocks && h'.blocks[s] == h.blocks[s])
    && (forall s :: s in h'.blocks && h'.blocks[s].use.Live? ==> s in h.blocks && h.blocks[s] == h'.blocks[s])
  }

  lemma SameLiveSame(h: H.Heap, h': H.Heap, x: int)
    requires H.Inv(h) && H.Inv(h') && SameLive(h, h')
    ensures O.Allocated(h, x) <==> O.Allocated(h', x)
    ensures O.Allocated(h, x) ==> P.RequestOf(h', x) == P.RequestOf(h, x)
  {
    hide H.Inv, O.OwnerOf;
    if O.Allocated(h, x) { O.OwnerFound(h', O.OwnerOf(h, x)); }
    if O.Allocated(h', x) { O.OwnerFound(h, O.OwnerOf(h', x)); }
  }

  lemma LiveLinked(j: Joint, h': H.Heap)
    requires Linked(j) && H.Settled(h') && SameLive(j.h, h')
    ensures Linked(Joint(j.s, h'))
  {
    hide SysInv, WellFormed, H.Inv, O.Allocated, P.RequestOf;
    forall x ensures O.Allocated(j.h, x) <==> O.Allocated(h', x) { SameLiveSame(j.h, h', x); }
    forall id, n: nat | Owns(j.s, id, n) && n < REGIONS ensures Sized(h', j.s.k.tasks[id].regions, n) {
      SameLiveSame(j.h, h', j.s.k.tasks[id].regions.addr[n]);
    }
  }

  lemma WriteLinked(j: Joint, a: int, written: seq<u8>)
    requires Linked(j) && P.Allowed(j.h, P.ClientWrite(a, written))
    ensures Linked(Joint(j.s, P.Apply(j.h, P.ClientWrite(a, written))))
  {
    hide SysInv, WellFormed, H.Inv;
    P.ApplySettles(j.h, P.ClientWrite(a, written));
    LiveLinked(j, P.Apply(j.h, P.ClientWrite(a, written)));
  }

  lemma RangeLinked(j: Joint, start: u32, end: u32, flags: u32)
    requires Linked(j) && P.Allowed(j.h, P.Op.AddRange(start, end, flags))
    ensures Linked(Joint(j.s, P.Apply(j.h, P.Op.AddRange(start, end, flags))))
  {
    hide SysInv, WellFormed, H.Inv, O.RangeAdded, O.PayloadsKept;
    var h' := P.Apply(j.h, P.Op.AddRange(start, end, flags));
    P.ApplySettles(j.h, P.Op.AddRange(start, end, flags));
    if P.TakesRange(j.h, flags) {
      O.ExtendedKeeps(j.h, start, end);
      O.RangeAddedEffect(j.h, start, end);
    }
    LiveLinked(j, h');
  }

  /** An allocation adds its own address to the live ones and no other. */
  lemma AllocAdds(h: H.Heap, size: u32, align: u32, x: int)
    requires H.Settled(h) && size + H.HEADER + align < TWO32 && P.AllocResult(h, size, align, true).1 != 0
    ensures var (h', a) := P.AllocResult(h, size, align, true);
      && H.Settled(h') && (O.Allocated(h', x) <==> O.Allocated(h, x) || x == a)
      && (O.Allocated(h, x) ==> P.RequestOf(h', x) == P.RequestOf(h, x))
  {
    hide H.Inv, O.AllocAt, O.PayloadsKept, O.OwnerOf, P.PayloadBytes;
    TA.AllocBacked(h, TA.Request(size, align));
    var (h', a) := P.AllocResult(h, size, align, true);
    if O.Allocated(h, x) { TA.AllocSpares(h, TA.Request(size, align), x); }
    if O.Allocated(h', x) && x != a {
      O.InvFree(h);
      var k := O.FirstFit(h, 0, size, align);
      O.AllocEffect(h, k, size, align, true);
      P.FreeInBlocks(h, k);
      O.OwnerFound(h, O.OwnerOf(h', x));
    }
  }

  lemma GetLinked(j: Joint, size: u32, align: u32)
    requires Linked(j) && size + H.HEADER + align < TWO32
    ensures var (h', a) := P.AllocResult(j.h, size, align, true);
      && (a == 0 ==> h' == j.h)
      && (a != 0 ==> Enabled(j.s, AllocMem(a)) && Linked(Joint(Apply(j.s, AllocMem(a)), h')))
  {
    hide SysInv, WellFormed, H.Inv, P.AllocResult, O.Allocated, P.RequestOf;
    TA.AllocZero(j.h, TA.Request(size, align));
    var (h', a) := P.AllocResult(j.h, size, align, true);
    if a != 0 {
      AllocAdds(j.h, size, align, a);
      TA.AllocBacked(j.h, TA.Request(size, align));
      var s' := Apply(j.s, AllocMem(a));
      StepInv(j.s, AllocMem(a));
      InvWellFormed(s');
      forall x ensures x in s'.k.heap <==> O.Allocated(h', x) { AllocAdds(j.h, size, align, x); }
      forall id, n: nat | Owns(s', id, n) && n < REGIONS ensures Sized(h', s'.k.tasks[id].regions, n) {
        assert Owns(j.s, id, n);
        AllocAdds(j.h, size, align, j.s.k.tasks[id].regions.addr[n]);
      }
    }
  }

  ghost predicate GivenBack(j: Joint, a: int)
    requires Linked(j) && O.Allocated(j.h, a) && Enabled(j.s, FreeMem(a))
  {
    Linked(Joint(Apply(j.s, FreeMem(a)), O.FreeAt(j.h, a)))
  }

  lemma GiveLinked(j: Joint, a: int)
    requires Linked(j) && Can(j, Give(a))
    ensures O.Allocated(j.h, a) && Enabled(j.s, FreeMem(a))
    ensures GivenBack(j, a)
  {
    hide SysInv, WellFormed, H.Inv, O.FreeAt, O.Allocated, P.RequestOf;
    var s', h' := Apply(j.s, FreeMem(a)), O.FreeAt(j.h, a);
    StepInv(j.s, FreeMem(a));
    InvWellFormed(s');
    TM.FreeOne(j.h, a);
    forall id, n: nat | Owns(s', id, n) && n < REGIONS ensures Sized(h', s'.k.tasks[id].regions, n) {
      assert Owns(j.s, id, n) && OwnedAddr(j.s, id, n) == j.s.k.tasks[id].regions.addr[n];
      FreeLinks(j.h, a, j.s.k.tasks[id].regions, n);
    }
  }

  /** A step of the kernel that gives nothing back. */
  lemma KeepLinked(j: Joint, step: Step)
    requires Linked(j) && Can(j, Sched(step)) && FreedBy(j.s, step) == []
    ensures Linked(Joint(Apply(j.s, step), j.h))
  {
    hide SysInv, WellFormed, H.Settled, O.Allocated, P.RequestOf, Enabled, Apply;
    var s' := Apply(j.s, step);
    CurrentKnown(j.s);
    StepInv(j.s, step);
    InvWellFormed(s');
    StepHeap(j.s, step);
    if step.MakeTask? {
      MadeOwners(j.s, step.id, step.regions, step.dynamicStruct);
    } else {
      StepOwners(j.s, step);
    }
  }

  /** A new task owns its own dynamic slots, and nobody else's ownership changes. */
  lemma MadeOwners(s: Sys, id: Id, r: Regions, d: bool)
    requires WellFormed(s) && Enabled(s, MakeTask(id, r, d))
    ensures var s' := Apply(s, MakeTask(id, r, d));
      && RegionsOk(r)
      && forall x, n: nat :: Owns(s', x, n) && n < REGIONS ==>
        if x == id then s'.k.tasks[x].regions == r && n in r.dynamic
        else Owns(s, x, n) && s'.k.tasks[x].regions == s.k.tasks[x].regions
  {
    hide EventsOwned;
  }

  /** The idle task's cleanup gives one address back. */
  lemma CleanLinked(j: Joint, step: Step)
    requires Linked(j) && Can(j, Sched(step)) && FreedBy(j.s, step) != []
    ensures var a := FreedBy(j.s, step)[0];
      O.Allocated(j.h, a) && Linked(Joint(Apply(j.s, step), O.FreeAt(j.h, a)))
  {
    hide SysInv, WellFormed, H.Inv, O.FreeAt, O.Allocated, P.RequestOf, Enabled, Apply;
    CurrentKnown(j.s);
    var s', a := Apply(j.s, step), FreedBy(j.s, step)[0];
    StepInv(j.s, step);
    InvWellFormed(s');
    StepHeap(j.s, step);
    StepOwners(j.s, step);
    TM.FreeOne(j.h, a);
    forall id, n: nat | Owns(s', id, n) && n < REGIONS ensures Sized(O.FreeAt(j.h, a), s'.k.tasks[id].regions, n) {
      assert Owns(j.s, id, n) && OwnedAddr(s', id, n) == j.s.k.tasks[id].regions.addr[n] != a;
      FreeLinks(j.h, a, j.s.k.tasks[id].regions, n);
    }
  }

  lemma OneOp(h: H.Heap, op: P.Op)
    requires H.Inv(h) && P.Allowed(h, op)
    ensures P.RunAllowed(h, [op]) && P.Run(h, [op]) == P.Apply(h, op)
  {
    hide H.Inv, P.Allowed, P.Apply;
    assert [op][1..] == [];
  }

  lemma OneStep(s: Sys, step: Step)
    requires WellFormed(s) && Enabled(s, step)
    ensures Runs(s, [step]) && Final(s, [step]) == Apply(s, step)
  {
    hide WellFormed, Enabled, Apply;
    assert [step][1..] == [];
  }

  lemma NothingRuns(j: Joint)
    ensures Runs(j.s, []) && Final(j.s, []) == j.s && P.RunAllowed(j.h, []) && P.Run(j.h, []) == j.h
  {
  }

  lemma SchedKeeps(j: Joint, step: Step)
    requires Linked(j) && Can(j, Sched(step)) && P.RunAllowed(j.h, OpsFor(j, Sched(step)))
    requires Runs(j.s, StepsFor(j, Sched(step)))
    ensures Linked(Do(j, Sched(step)))
  {
    hide SysInv, H.Settled, O.Allocated, O.FreeAt, Apply, Enabled, WellFormed, P.RunAllowed, P.Run, Runs, Final,
      AllSized;
    CurrentKnown(j.s);
    OneStep(j.s, step);
    if FreedBy(j.s, step) == [] {
      NothingRuns(j);
      KeepLinked(j, step);
    } else {
      CleanLinked(j, step);
      FreeOp(j.h, FreedBy(j.s, step)[0]);
    }
  }

  lemma FreeOp(h: H.Heap, a: int)
    requires H.Settled(h) && O.Allocated(h, a)
    ensures P.RunAllowed(h, [P.Op.Free(a)]) && P.Run(h, [P.Op.Free(a)]) == O.FreeAt(h, a)
  {
    hide H.Inv, O.Allocated, O.FreeAt;
    OneOp(h, P.Op.Free(a));
  }

  lemma GetKeeps(j: Joint, size: u32, align: u32)
    requires var act := Get(size, align);
      Linked(j) && Can(j, act) && P.RunAllowed(j.h, OpsFor(j, act)) && Runs(j.s, StepsFor(j, act))
    ensures Linked(Do(j, Get(size, align)))
  {
    hide SysInv, H.Inv, P.AllocResult, Apply, Enabled, WellFormed, AllSized, TM.HeapMatches;
    GetLinked(j, size, align);
    OneOp(j.h, P.Op.Alloc(size, align, 1));
    var a := P.AllocResult(j.h, size, align, true).1;
    if a != 0 { OneStep(j.s, AllocMem(a)); }
  }

  lemma GiveKeeps(j: Joint, a: int)
    requires Linked(j) && Can(j, Give(a)) && P.RunAllowed(j.h, OpsFor(j, Give(a))) && Runs(j.s, StepsFor(j, Give(a)))
    ensures Linked(Do(j, Give(a)))
  {
    hide SysInv, H.Settled, O.Allocated, O.FreeAt, Apply, Enabled, WellFormed, P.RunAllowed, P.Run, Runs, Final,
      AllSized, Unowned;
    GiveLinked(j, a);
    OneStep(j.s, FreeMem(a));
    FreeOp(j.h, a);
  }

  lemma ClientKeeps(j: Joint, act: Act)
    requires Linked(j) && Can(j, act) && (act.Write? || act.AddRange?)
    requires P.RunAllowed(j.h, OpsFor(j, act)) && Runs(j.s, StepsFor(j, act))
    ensures Linked(Do(j, act))
  {
    hide SysInv, H.Inv, P.Allowed, P.Apply, WellFormed, AllSized, TM.HeapMatches;
    OneOp(j.h, OpsFor(j, act)[0]);
    match act
    case Write(a, written) => WriteLinked(j, a, written);
    case AddRange(start, end, flags) => RangeLinked(j, start, end, flags);
    case _ =>
  }

  lemma ActKeeps(j: Joint, act: Act)
    requires Linked(j) && Can(j, act)
    ensures P.RunAllowed(j.h, OpsFor(j, act)) && Runs(j.s, StepsFor(j, act)) && Linked(Do(j, act))
  {
    hide Linked, Can, Do, P.RunAllowed, Runs;
    BothAllow(j, act);
    match act
    case Sched(step) => SchedKeeps(j, step);
    case Get(size, align) => GetKeeps(j, size, align);
    case Give(a) => GiveKeeps(j, a);
    case _ => ClientKeeps(j, act);
  }

  // ----- Joint runs -----

  ghost predicate JointRun(j: Joint, acts: seq<Act>)
    requires Linked(j)
    decreases |acts|
  {
    hide Linked, Do, OpsFor, StepsFor;
    acts == [] || (Can(j, acts[0]) && (ActKeeps(j, acts[0]); JointRun(Do(j, acts[0]), acts[1..])))
  }

  ghost function End(j: Joint, acts: seq<Act>): (r: Joint)
    requires Linked(j) && JointRun(j, acts)
    ensures Linked(r)
    decreases |acts|
  {
    hide Linked, Do, Can, OpsFor, StepsFor;
    if acts == [] then j else (ActKeeps(j, acts[0]); End(Do(j, acts[0]), acts[1..]))
  }

  /** All the calls the allocator sees, and all the steps the kernel takes. */
  ghost function AllOps(j: Joint, acts: seq<Act>): seq<P.Op>
    requires Linked(j) && JointRun(j, acts)
    decreases |acts|
  {
    hide Linked, Do, Can;
    if acts == [] then [] else (ActKeeps(j, acts[0]); OpsFor(j, acts[0]) + AllOps(Do(j, acts[0]), acts[1..]))
  }

  ghost function AllSteps(j: Joint, acts: seq<Act>): seq<Step>
    requires Linked(j) && JointRun(j, acts)
    decreases |acts|
  {
    hide Linked, Do, Can;
    if acts == [] then [] else (ActKeeps(j, acts[0]); StepsFor(j, acts[0]) + AllSteps(Do(j, acts[0]), acts[1..]))
  }

  lemma {:induction false} OpsAppend(h: H.Heap, a: seq<P.Op>, b: seq<P.Op>)
    requires P.RunAllowed(h, a) && P.RunAllowed(P.Run(h, a), b)
    ensures P.RunAllowed(h, a + b) && P.Run(h, a + b) == P.Run(P.Run(h, a), b)
    decreases |a|
  {
    hide H.Inv, P.Allowed, P.Apply;
    if a == [] {
      assert a + b == b;
    } else {
      assert (a + b)[0] == a[0] && (a + b)[1..] == a[1..] + b;
      OpsAppend(P.Apply(h, a[0]), a[1..], b);
    }
  }

  lemma {:induction false} StepsAppend(s: Sys, a: seq<Step>, b: seq<Step>)
    requires Runs(s, a) && Runs(Final(s, a), b)
    ensures Runs(s, a + b) && Final(s, a + b) == Final(Final(s, a), b)
    decreases |a|
  {
    hide WellFormed, Enabled, Apply;
    if a == [] {
      assert a + b == b;
    } else {
      assert (a + b)[0] == a[0] && (a + b)[1..] == a[1..] + b;
      StepsAppend(Apply(s, a[0]), a[1..], b);
    }
  }

  /**
   * A joint run is a run of the kernel and a run of the allocator, side by side. At its end the kernel's live set is
   * exactly the allocator's allocations, and every slot a task owns is one, of the size recorded for it.
   */
  lemma {:induction false} EveryJointRun(j: Joint, acts: seq<Act>)
    requires Linked(j) && JointRun(j, acts)
    ensures Runs(j.s, AllSteps(j, acts)) && Final(j.s, AllSteps(j, acts)) == End(j, acts).s
    ensures P.RunAllowed(j.h, AllOps(j, acts)) && P.Run(j.h, AllOps(j, acts)) == End(j, acts).h
    ensures TM.HeapMatches(End(j, acts).s.k, End(j, acts).h) && AllSized(End(j, acts))
    decreases |acts|
  {
    hide SysInv, WellFormed, H.Settled, Can, OpsFor, StepsFor, P.RunAllowed, P.Run, Runs, Final, TM.HeapMatches,
      AllSized;
    if acts == [] {
      NothingRuns(j);
    } else {
      ActKeeps(j, acts[0]);
      var j' := Do(j, acts[0]);
      EveryJointRun(j', acts[1..]);
      OpsAppend(j.h, OpsFor(j, acts[0]), AllOps(j', acts[1..]));
      StepsAppend(j.s, StepsFor(j, acts[0]), AllSteps(j', acts[1..]));
    }
  }

  /** The two begin linked: the idle task alone, and an empty heap. */
  lemma BootLinked(j: Joint)
    requires SystemRuns.Start(j.s) && j.s.k.heap == {} && P.Initial(j.h)
    ensures Linked(j)
  {
    hide SysInv, WellFormed, H.Inv;
    BootInv(j.s);
    InvWellFormed(j.s);
    P.EveryRunSettles(j.h, []);
    NobodyOwns(j.s);
  }

  lemma NobodyOwns(s: Sys)
    requires SystemRuns.Start(s)
    ensures forall id, n: nat :: n < REGIONS ==> !Owns(s, id, n)
  {
  }

  // ----- Isolation of live tasks -----

  /** A user task that is not being cleaned up, with the regions the MPU table is made from. */
  ghost predicate UserTask(s: Sys, id: Id) {
    && id in s.k.tasks && id in s.cleaned && s.cleaned[id] == 0
    && {TM.USER_STACK, TM.USER_HEAP, TM.USER_BSS} <= s.k.tasks[id].regions.dynamic
  }

  /** Every live user task's record is sound: what `Mpu.TasksApart` asks for. */
  lemma UserTaskSound(j: Joint, id: Id)
    requires Linked(j) && UserTask(j.s, id)
    ensures M.Sound(j.h, j.s.k.tasks[id].regions)
  {
    hide SchedInv, PcInv, TimersOk, WellFormed, H.Settled, O.Allocated, P.RequestOf;
    var r := j.s.k.tasks[id].regions;
    assert CleanOk(j.s, id);
    forall n: nat | n < REGIONS && n in r.dynamic ensures Sized(j.h, r, n) && OwnedAt(j.s, id, n) { }
    forall n: nat, m: nat | n < m < REGIONS && n in r.dynamic && m in r.dynamic ensures r.addr[n] != r.addr[m] {
      assert OwnedAt(j.s, id, n) && OwnedAt(j.s, id, m);
    }
  }

  predicate OwnedAt(s: Sys, id: Id, n: nat) {
    n < REGIONS && Owns(s, id, n) && OwnedAddr(s, id, n) == s.k.tasks[id].regions.addr[n]
  }

  /**
   * At the end of every joint run, no two live user tasks can write the same byte, and none can write an
   * allocator header, a byte of any allocation but its own stack, heap and bss, or a byte the allocator never had.
   */
  lemma LiveTasksApart(j: Joint, acts: seq<Act>, a: Id, ta: seq<M.Entry>, b: Id, tb: seq<M.Entry>, x: int)
    requires Linked(j) && JointRun(j, acts) && a != b
    requires var s := End(j, acts).s;
      && UserTask(s, a) && UserTask(s, b)
      && M.Mapped(ta, s.k.tasks[a].regions) && M.Mapped(tb, s.k.tasks[b].regions)
    ensures !(M.UserCanWrite(ta, x) && M.UserCanWrite(tb, x))
    ensures var h := End(j, acts).h;
      M.UserCanWrite(ta, x) ==> forall s :: s in h.blocks ==> !(H.HeaderOf(h, s) <= x < H.HeaderOf(h, s) + H.HEADER)
    ensures var h, r := End(j, acts).h, End(j, acts).s.k.tasks[a].regions;
      M.UserCanWrite(ta, x) ==> forall p :: O.Allocated(h, p) && p <= x < p + P.RequestOf(h, p) ==>
        p == r.addr[TM.USER_STACK] || p == r.addr[TM.USER_HEAP] || p == r.addr[TM.USER_BSS]
    ensures M.UserCanWrite(ta, x) ==> H.InRanges(End(j, acts).h.ranges, x)
  {
    hide SchedInv, PcInv, TimersOk, WellFormed, H.Settled, M.Mapped, M.UserCanWrite, End, JointRun, M.Sound;
    var e := End(j, acts);
    var ra, rb := e.s.k.tasks[a].regions, e.s.k.tasks[b].regions;
    UserTaskSound(e, a);
    UserTaskSound(e, b);
    OwnersApart(e.s, a, b);
    M.TasksApart(e.h, ta, ra, tb, rb, x);
    if M.UserCanWrite(ta, x) { M.WritesStayHome(e.h, ta, ra, x); }
  }

  lemma OwnersApart(s: Sys, a: Id, b: Id)
    requires SysInv(s) && UserTask(s, a) && UserTask(s, b) && a != b
    ensures var ra, rb := s.k.tasks[a].regions, s.k.tasks[b].regions;
      && |ra.addr| == |rb.addr| == REGIONS
      && forall n: nat, m: nat :: n < REGIONS && m < REGIONS && n in ra.dynamic && m in rb.dynamic ==>
        ra.addr[n] != rb.addr[m]
  {
    hide SchedInv, PcInv, TimersOk;
    var ra, rb := s.k.tasks[a].regions, s.k.tasks[b].regions;
    assert CleanOk(s, a) && CleanOk(s, b);
    forall n: nat, m: nat | n < REGIONS && m < REGIONS && n in ra.dynamic && m in rb.dynamic
      ensures ra.addr[n] != rb.addr[m]
    {
      assert OwnedAt(s, a, n) && OwnedAt(s, b, m);
    }
  }
}
