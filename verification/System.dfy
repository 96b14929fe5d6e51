/**
 * The running kernel: every task has a place in its program, and a step is one region with
 * interrupts off, a tick, or a context switch between two such regions.
 */
module System {
  import opened Word32
  import opened Timer
  import opened TimerRefinement
  import opened Kernel
  import opened Scheduler

  /** When a sleep read the clock, for how long it sleeps, and whether KSLEEP was clear once its old event was gone. */
  datatype Sleep = Sleep(readAt: int, msec: nat, clean: bool)

  /** Where a task is between two locked regions. */
  datatype Pc =
    | User
    | Deleting(msec: u32, sleep: bool)               // in kern_task_timer_set, before kern_timer_event_del
    | Reading(msec: u32, sleep: bool, clean: bool)   // in kern_timer_event_add, before the clock is read
    | Adding(abs: u32, sleep: bool, info: Sleep)     // ... after it, before the lock
    | Waiting(mask: Signals, sleep: bool, info: Sleep)
    | ExitDel | ExitDie | Exited
    | IdleTop | IdleTimer | IdleClean | IdleFree(id: Id, n: nat)

  datatype Sys = Sys(
    k: Kernel,
    pc: map<Id, Pc>,
    i: Ideal,                       // the unbounded timer the wrapping one is compared with
    cleaned: map<Id, nat>,          // how many slots of the task's memory its cleanup has been through
    returned: map<Id, seq<int>>)    // the addresses its cleanup has given back

  datatype Step =
    | TickStep
    | SwitchStep
    | CallSleep(msec: u32)
    | CallTimer(msec: u32)
    | CallWait(mask: Signals)
    | CallExit
    | ChangeMask(keep: Signals, add: Signals)
    | RunStep                                        // the current task goes on to its next region
    | Post(id: Id, bits: Signals)
    | MakeTask(id: Id, regions: Regions, dynamicStruct: bool)
    | StartTask(id: Id)
    | AllocMem(a: int)
    | FreeMem(a: int)

  // ----- Who owns which memory -----

  predicate RegionsOk(r: Regions) {
    |r.addr| == REGIONS && |r.size| == REGIONS && forall n :: n in r.dynamic ==> n < REGIONS
  }

  /** Slots 0 to 7 are the regions of struct task_mem; slot 8 is the task structure itself. */
  predicate DynamicSlot(r: Regions, dynamicStruct: bool, n: nat) {
    if n == REGIONS then dynamicStruct else n in r.dynamic
  }

  function SlotAddr(id: Id, r: Regions, n: nat): int
    requires |r.addr| == REGIONS && n <= REGIONS
  {
    if n == REGIONS then id else r.addr[n]
  }

  /** Task `id` owns the memory of slot `n` and its cleanup has not been there yet. */
  predicate Owns(s: Sys, id: Id, n: nat) {
    && id in s.k.tasks && id in s.cleaned && RegionsOk(s.k.tasks[id].regions)
    && s.cleaned[id] <= n <= REGIONS && DynamicSlot(s.k.tasks[id].regions, s.k.tasks[id].dynamicStruct, n)
  }

  function OwnedAddr(s: Sys, id: Id, n: nat): int
    requires Owns(s, id, n)
  {
    SlotAddr(id, s.k.tasks[id].regions, n)
  }

  ghost predicate Unowned(s: Sys, a: int) {
    forall id, n :: Owns(s, id, n) ==> OwnedAddr(s, id, n) != a
  }

  /** The addresses of the dynamic regions among the first `n`, in the order cleanup frees them. */
  function Dynamic(r: Regions, n: nat): seq<int>
    requires n <= |r.addr|
  {
    if n == 0 then [] else Dynamic(r, n - 1) + if n - 1 in r.dynamic then [r.addr[n - 1] as int] else []
  }

  ghost predicate DistinctSlots(id: Id, r: Regions, dynamicStruct: bool)
    requires |r.addr| == REGIONS
  {
    forall n: nat, m: nat ::
      n < m <= REGIONS && DynamicSlot(r, dynamicStruct, n) && DynamicSlot(r, dynamicStruct, m) ==>
      SlotAddr(id, r, n) != SlotAddr(id, r, m)
  }

  /** A new task's memory: live, nobody else's, and no two slots the same. */
  ghost predicate FreshOwner(s: Sys, id: Id, r: Regions, dynamicStruct: bool) {
    && id !in s.k.tasks && RegionsOk(r)
    && (forall n: nat :: n <= REGIONS && DynamicSlot(r, dynamicStruct, n) ==>
      SlotAddr(id, r, n) in s.k.heap && Unowned(s, SlotAddr(id, r, n)))
    && DistinctSlots(id, r, dynamicStruct)
  }

  // ----- Steps -----

  predicate UserTurn(s: Sys) {
    s.k.current in s.pc && s.k.current != s.k.idle && s.pc[s.k.current] == User
  }

  ghost predicate Enabled(s: Sys, step: Step) {
    match step
    case TickStep => s.k.timers.running
    case SwitchStep => s.k.pendsv
    case CallSleep(_) => UserTurn(s)
    case CallTimer(_) => UserTurn(s)
    case CallWait(_) => UserTurn(s)
    case CallExit => UserTurn(s)
    case ChangeMask(_, _) => UserTurn(s)
    case RunStep => s.k.current in s.pc && s.pc[s.k.current] != User
    case Post(id, _) => id in s.k.tasks
    case MakeTask(id, r, d) => FreshOwner(s, id, r, d)
    case StartTask(id) => id in s.k.tasks && id != s.k.idle && s.k.tasks[id].state != Dying
    case AllocMem(a) => a !in s.k.heap
    case FreeMem(a) => a in s.k.heap && Unowned(s, a)
  }

  function Goto(s: Sys, pc: Pc): Sys {
    s.(pc := s.pc[s.k.current := pc])
  }

  /** kern_timer_event_del of the current task's sleep event, on both clocks. */
  function DelSleep(s: Sys): Sys
    requires s.k.current in s.k.timers.events
  {
    var c := s.k.current;
    s.(k := s.k.(timers := Del(s.k.timers, c)), i := if CanDel(s.k.timers, c) then IdealDel(s.i, c) else s.i)
  }

  function AddSleep(s: Sys, abs: u32, due: int): Sys
    requires s.k.current in s.k.timers.events && Known(s.k.timers)
  {
    var c := s.k.current;
    s.(k := s.k.(timers := Add(s.k.timers, c, abs)), i := if CanAdd(s.k.timers, c) then IdealAdd(s.i, c, due) else s.i)
  }

  /** The memory of slot `n` of a reaped task goes back to the allocator. */
  function CleanSlot(s: Sys, id: Id, n: nat): Sys
    requires id in s.k.tasks && n < REGIONS == |s.k.tasks[id].regions.addr| && id in s.returned
  {
    var r := s.k.tasks[id].regions;
    s.(k := FreeRegion(s.k, id, n), cleaned := s.cleaned[id := n + 1],
       returned := s.returned[id := s.returned[id] + if n in r.dynamic then [r.addr[n] as int] else []])
  }

  function CleanStruct(s: Sys, id: Id): Sys
    requires id in s.k.tasks
  {
    if s.k.tasks[id].dynamicStruct then
      s.(k := FreeStruct(s.k, id), pc := s.pc - {id}, cleaned := s.cleaned - {id}, returned := s.returned - {id})
    else
      s.(cleaned := s.cleaned[id := REGIONS + 1])
  }

  /** What a step needs of the state it is taken in; the invariant below provides it. */
  ghost predicate WellFormed(s: Sys) {
    && s.k.current in s.k.tasks && s.k.idle in s.k.tasks && s.k.current in s.pc
    && (s.k.active != [] ==> s.k.active[0] in s.k.tasks)
    && EventsOwned(s.k) && s.k.timers.firing == []
    && s.returned.Keys == s.k.tasks.Keys
    && (s.pc[s.k.current].IdleFree? ==> var p := s.pc[s.k.current];
        p.id in s.k.tasks && p.n <= REGIONS && |s.k.tasks[p.id].regions.addr| == REGIONS)
  }

  predicate IdlePc(p: Pc) {
    p.IdleTop? || p.IdleTimer? || p.IdleClean? || p.IdleFree?
  }

  /** The next region of kern_idle_task_fn. */
  ghost function GoIdle(s: Sys): Sys
    requires WellFormed(s) && IdlePc(s.pc[s.k.current])
  {
    var k := s.k;
    match s.pc[k.current]
    case IdleTop => if k.dyingCount > 0 then Goto(s.(k := Reap(k)), IdleClean) else Goto(s, IdleTimer)
    case IdleTimer => Goto(s.(k := k.(timers := Idle(k.timers))), IdleTop)
    case IdleClean =>
      if k.dead == [] then Goto(s.(k := k.(pendsv := true)), IdleTop)
      else Goto(s.(k := k.(dead := k.dead[1..])), IdleFree(k.dead[0], 0))
    case IdleFree(id, n) =>
      if n < REGIONS then Goto(CleanSlot(s, id, n), IdleFree(id, n + 1)) else Goto(CleanStruct(s, id), IdleClean)
  }

  /** The next region of a task in a kernel call. */
  ghost function GoTask(s: Sys): Sys
    requires WellFormed(s) && !IdlePc(s.pc[s.k.current])
  {
    var c, k := s.k.current, s.k;
    FlagsKnown(k.timers);
    match s.pc[c]
    case User => s
    case Deleting(msec, sleep) =>
      if CanDel(k.timers, c) then Goto(DelSleep(s), Reading(msec, sleep, KSLEEP !! k.tasks[c].sigSet))
      else Goto(s, User)
    case Reading(msec, sleep, clean) =>
      Goto(s, Adding(Wrap(msec as int + k.timers.now), sleep, Sleep(s.i.elapsed, msec, clean)))
    case Adding(abs, sleep, info) =>
      if CanAdd(k.timers, c) then
        Goto(AddSleep(s, abs, info.readAt + info.msec), if sleep then Waiting(KSLEEP, true, info) else User)
      else
        Goto(s, User)
    case Waiting(mask, _, _) =>
      var s' := s.(k := Wait(k, mask));
      if Answered(k.tasks[c], mask) then Goto(s', User) else s'
    case ExitDel => Goto(DelSleep(s), ExitDie)
    case ExitDie => Goto(s.(k := SetState(k, c, Dying)), Exited)
    case Exited => s.(k := k.(pendsv := true))
  }

  /** The current task's next region. */
  ghost function Go(s: Sys): Sys
    requires WellFormed(s)
  {
    if IdlePc(s.pc[s.k.current]) then GoIdle(s) else GoTask(s)
  }

  ghost function Apply(s: Sys, step: Step): Sys
    requires WellFormed(s) && Enabled(s, step)
  {
    match step
    case TickStep => s.(k := Tick(s.k), i := IdealTick(s.i, s.k.timers.interval))
    case SwitchStep => s.(k := Select(s.k))
    case CallSleep(msec) => Goto(s, Deleting(msec, true))
    case CallTimer(msec) => Goto(s, Deleting(msec, false))
    case CallWait(mask) => Goto(s, Waiting(mask, false, Sleep(0, 0, false)))
    case CallExit => Goto(s, ExitDel)
    case ChangeMask(keep, add) => s.(k := SetMask(s.k, keep, add))
    case RunStep => Go(s)
    case Post(id, bits) => s.(k := Signal(s.k, id, bits))
    case MakeTask(id, r, d) =>
      s.(k := Create(s.k, id, r, d), pc := s.pc[id := User],
         cleaned := s.cleaned[id := 0], returned := s.returned[id := []])
    case StartTask(id) => s.(k := SetState(s.k, id, Ready))
    case AllocMem(a) => s.(k := s.k.(heap := s.k.heap + {a}))
    case FreeMem(a) => s.(k := FreeAddr(s.k, a))
  }

  // ----- The invariant of every reachable state -----

  ghost predicate TimersOk(s: Sys) {
    EventsOwned(s.k) && Timer.Inv(s.k.timers) && s.k.timers.firing == []
  }

  /** A task's state and its place in its program agree, and its sleep event is queued only where it can be. */
  predicate Fits(t: Task, p: Pc, queued: bool, idle: bool) {
    && (idle <==> IdlePc(p))
    && (t.state == Dying <==> p == Exited)
    && (t.state == Sleeping ==> p.Waiting? && !Answered(t, p.mask))
    && (t.state == Unstarted ==> p == User)
    && (queued ==> !idle && t.state != Unstarted && !p.Reading? && !p.Adding? && p != ExitDie && p != Exited)
  }

  ghost predicate PcOk(s: Sys, id: Id)
    requires id in s.k.tasks && id in s.pc && id in s.k.timers.events
  {
    Fits(s.k.tasks[id], s.pc[id], s.k.timers.events[id].queued, id == s.k.idle)
  }

  ghost predicate PcInv(s: Sys) {
    && s.pc.Keys == s.k.tasks.Keys == s.k.timers.events.Keys
    && forall id :: id in s.k.tasks ==> PcOk(s, id)
  }

  /** The task the idle task is cleaning up right now. */
  predicate BeingCleaned(s: Sys, id: Id)
    requires s.k.idle in s.pc
  {
    s.pc[s.k.idle].IdleFree? && s.pc[s.k.idle].id == id
  }

  /** How far the cleanup of task `id` has come, and what it has given back. */
  ghost predicate CleanOk(s: Sys, id: Id)
    requires id in s.k.tasks && id in s.cleaned && id in s.returned && s.k.idle in s.pc
  {
    var t, n := s.k.tasks[id], s.cleaned[id];
    && RegionsOk(t.regions) && DistinctSlots(id, t.regions, t.dynamicStruct)
    && n <= REGIONS + 1
    && s.returned[id] == Dynamic(t.regions, if n <= REGIONS then n else REGIONS)
    && (n > 0 ==> Reaped(s.k, id) && id !in s.k.dead)
    && (BeingCleaned(s, id) ==> n == s.pc[s.k.idle].n <= REGIONS && Reaped(s.k, id) && id !in s.k.dead)
    && (Reaped(s.k, id) && id !in s.k.dead && !BeingCleaned(s, id) ==> n == REGIONS + 1 && !t.dynamicStruct)
  }

  ghost predicate MemInv(s: Sys) {
    && s.cleaned.Keys == s.returned.Keys == s.k.tasks.Keys && s.k.idle in s.pc
    && (s.pc[s.k.idle].IdleFree? ==> s.pc[s.k.idle].id in s.k.tasks)
    && (forall id :: id in s.k.tasks ==> CleanOk(s, id))
    && (forall id, n :: Owns(s, id, n) ==> OwnedAddr(s, id, n) in s.k.heap)
    && (forall id, n, id', n' :: Owns(s, id, n) && Owns(s, id', n') && OwnedAddr(s, id, n) == OwnedAddr(s, id', n') ==>
      id == id' && n == n')
    && s.k.badFrees == 0
  }

  ghost predicate SysInv(s: Sys) {
    SchedInv(s.k) && TimersOk(s) && PcInv(s) && MemInv(s)
  }

  lemma InvWellFormed(s: Sys)
    requires SysInv(s)
    ensures WellFormed(s)
  {
    if s.k.active != [] {
      var h := s.k.active[0];
      assert h in s.k.active;
    }
    var p := s.pc[s.k.current];
    if p.IdleFree? {
      assert PcOk(s, s.k.current);
      assert CleanOk(s, p.id);
    }
  }
}
