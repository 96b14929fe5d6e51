/**
 * The task scheduler of task.c as a state and its locked regions as functions of that state.
 *
 * A task is named by the address of its structure, which is also the name of the sleep event inside
 * it. `heap` is the set of addresses the physical memory allocator has live.
 */
module Kernel {
  import opened Word32
  import opened Sequences
  import opened Timer

  /** A 32-bit signal word is the set of the numbers of its set bits. */
  type Signals = set<nat>

  const KSLEEP: Signals := {0}
  const TASK_MASK: Signals := {0, 1, 2, 3, 4, 5, 6, 7}
  const REGIONS: nat := 8

  datatype TaskState = Sleeping | Ready | Running | Dying | Unstarted

  /** struct task_mem: addresses, sizes and the set of bits in dynamic_flags. */
  datatype Regions = Regions(dynamic: set<nat>, addr: seq<u32>, size: seq<u32>)

  datatype Task = Task(
    state: TaskState, onActive: bool, onDying: bool, refcount: u16,
    sigSet: Signals, sigMask: Signals, dynamicStruct: bool, regions: Regions)

  datatype Kernel = Kernel(
    tasks: map<Id, Task>,
    taskList: seq<Id>, active: seq<Id>, dying: seq<Id>,
    dead: seq<Id>,  // the idle task's private list
    activeCount: int, dyingCount: int,
    current: Id, idle: Id,
    switchReady: bool,
    pendsv: bool,   // a context switch has been requested
    timers: Timers,
    heap: set<int>, badFrees: nat)

  function Update(k: Kernel, id: Id, t: Task): Kernel {
    k.(tasks := k.tasks[id := t])
  }

  /** The request for a context switch that ends _kern_task_set_state_locked and kern_task_tick. */
  function Kicked(k: Kernel): Kernel {
    if k.switchReady then k.(pendsv := true) else k
  }

  // ----- _kern_task_set_state_locked -----

  function LeaveActive(k: Kernel, id: Id): Kernel
    requires id in k.tasks
  {
    if k.tasks[id].onActive then
      Update(k, id, k.tasks[id].(onActive := false)).(active := Removed(k.active, id), activeCount := k.activeCount - 1)
    else
      k
  }

  function JoinDying(k: Kernel, id: Id): Kernel
    requires id in k.tasks
  {
    if k.tasks[id].onDying then k else
      Update(k, id, k.tasks[id].(onDying := true)).(dying := k.dying + [id], dyingCount := k.dyingCount + 1)
  }

  function JoinActive(k: Kernel, id: Id): Kernel
    requires id in k.tasks
  {
    if k.tasks[id].onActive then k else
      Kicked(Update(k, id, k.tasks[id].(onActive := true)).(
        active := k.active + [id], activeCount := k.activeCount + 1))
  }

  function SetState(k: Kernel, id: Id, state: TaskState): (k': Kernel)
    requires id in k.tasks
    ensures k'.tasks.Keys == k.tasks.Keys
  {
    if k.tasks[id].state == state then k else
      var k := Update(k, id, k.tasks[id].(state := state));
      match state
      case Dying => Kicked(JoinDying(LeaveActive(k, id), id))
      case Sleeping => Kicked(LeaveActive(k, id))
      case Ready => JoinActive(k, id)
      case _ => k
  }

  // ----- Signals -----

  function Ref(r: u16, d: int): u16 {
    (r + d) % TWO16
  }

  predicate Signalable(t: Task) {
    t.state == Sleeping || t.state == Ready || t.state == Running
  }

  /** The signalled task: looked up, marked if it can be, and released. */
  function Posted(t: Task, bits: Signals): Task {
    var t := t.(refcount := Ref(t.refcount, 1));
    var t := if Signalable(t) then t.(sigSet := t.sigSet + bits) else t;
    t.(refcount := Ref(t.refcount, -1))
  }

  lemma RefBack(r: u16)
    ensures Ref(Ref(r, 1), -1) == r
  {
  }

  /** Looking a task up and letting it go leaves its reference count as it was, wrap or no wrap. */
  lemma RefBalanced(t: Task, bits: Signals)
    ensures Posted(t, bits) == t.(sigSet := if Signalable(t) then t.sigSet + bits else t.sigSet)
  {
    hide Ref;
    RefBack(t.refcount);
  }

  /** kern_task_signal. */
  function Signal(k: Kernel, id: Id, bits: Signals): (k': Kernel)
    requires id in k.tasks
    ensures k'.tasks.Keys == k.tasks.Keys
  {
    var k := Update(k, id, Posted(k.tasks[id], bits));
    var t := k.tasks[id];
    if t.state == Sleeping && t.sigSet * t.sigMask != {} then SetState(k, id, Ready) else k
  }

  /** One turn of the loop in kern_task_wait: it returns if a wanted, unmasked bit is set, and sleeps otherwise. */
  predicate Answered(t: Task, mask: Signals) {
    t.sigSet * mask * t.sigMask != {}
  }

  function Cleared(t: Task, bits: Signals): Task {
    t.(sigSet := t.sigSet - bits)
  }

  function Wait(k: Kernel, mask: Signals): (k': Kernel)
    requires k.current in k.tasks
    ensures k'.tasks.Keys == k.tasks.Keys
  {
    var c, sigs := k.current, k.tasks[k.current].sigSet;
    if Answered(k.tasks[c], mask) then
      hide SetState;
      var k := SetState(k, c, Ready);
      Update(k, c, Cleared(k.tasks[c], sigs * mask))
    else
      SetState(k, c, Sleeping)
  }

  /** kern_task_set_sigmask. */
  function SetMask(k: Kernel, keep: Signals, add: Signals): Kernel
    requires k.current in k.tasks
  {
    var t := k.tasks[k.current];
    Update(k, k.current, t.(sigMask := (t.sigMask * keep) + add))
  }

  // ----- Scheduling -----

  /** kern_task_select up to its unlock. */
  function Choose(k: Kernel): Kernel
    requires k.current in k.tasks && k.idle in k.tasks && (k.active != [] ==> k.active[0] in k.tasks)
  {
    var skip := k.dyingCount > 0;
    var k := if !skip && k.tasks[k.current].state == Running
             then Update(k, k.current, k.tasks[k.current].(state := Ready)) else k;
    var k := if !skip && k.active != []
             then k.(current := k.active[0], active := k.active[1..] + [k.active[0]])
             else k.(current := k.idle);
    Update(k, k.current, k.tasks[k.current].(state := Running))
  }

  /** The PendSV handler: kern_task_select and the timer start it may make. */
  function Select(k: Kernel): Kernel
    requires k.current in k.tasks && k.idle in k.tasks && (k.active != [] ==> k.active[0] in k.tasks)
  {
    var k := Choose(k);
    k.(pendsv := false, timers := TaskCount(k.timers, Wrap(k.activeCount)))
  }

  // ----- The tick -----

  function SignalAll(k: Kernel, ids: seq<Id>): (k': Kernel)
    requires forall i :: 0 <= i < |ids| ==> ids[i] in k.tasks
    ensures k'.tasks.Keys == k.tasks.Keys
    decreases |ids|
  {
    if ids == [] then k else SignalAll(Signal(k, ids[0], KSLEEP), ids[1..])
  }

  ghost predicate EventsOwned(k: Kernel) {
    k.timers.events.Keys == k.tasks.Keys && FlagsOk(k.timers)
  }

  /** SysTick_Handler: collect the due events, signal the task of each, clear the events, ask for a switch. */
  ghost function Tick(k: Kernel): Kernel
    requires EventsOwned(k) && k.timers.firing == []
  {
    FlagsKnown(k.timers);
    CollectFlags(k.timers);
    var k := k.(timers := Collect(k.timers));
    FiringOwned(k);
    var k := SignalAll(k, k.timers.firing);
    Kicked(k.(timers := Finish(k.timers)))
  }

  lemma FiringOwned(k: Kernel)
    requires EventsOwned(k)
    ensures forall i :: 0 <= i < |k.timers.firing| ==> k.timers.firing[i] in k.tasks
  {
    forall i | 0 <= i < |k.timers.firing| ensures k.timers.firing[i] in k.tasks {
      var e := k.timers.firing[i];
      assert e in k.timers.firing;
    }
  }

  // ----- Creation and the end of tasks -----

  /** kern_task_generic_init and its finish, in zeroed memory. */
  function Create(k: Kernel, id: Id, regions: Regions, dynamicStruct: bool): Kernel {
    k.(tasks := k.tasks[id := Task(Unstarted, false, false, 0, {}, TASK_MASK, dynamicStruct, regions)],
       taskList := k.taskList + [id], timers := Setup(k.timers, id))
  }

  /** One turn of kern_reap_dying_tasks_locked. */
  function ReapOne(k: Kernel): Kernel
    requires k.dying != []
  {
    k.(dying := k.dying[1..], taskList := Removed(k.taskList, k.dying[0]), dyingCount := k.dyingCount - 1,
       dead := k.dead + [k.dying[0]])
  }

  /** kern_reap_dying_tasks_locked. */
  function Reap(k: Kernel): Kernel
    decreases |k.dying|
  {
    if k.dying == [] then k else Reap(ReapOne(k))
  }

  /** kern_physmem_free, as far as which addresses are live. */
  function FreeAddr(k: Kernel, a: int): Kernel {
    if a in k.heap then k.(heap := k.heap - {a}) else k.(badFrees := k.badFrees + 1)
  }

  /** One turn of the loop in kern_task_mem_cleanup. */
  function FreeRegion(k: Kernel, id: Id, n: nat): Kernel
    requires id in k.tasks && n < |k.tasks[id].regions.addr|
  {
    var r := k.tasks[id].regions;
    if n in r.dynamic then FreeAddr(k, r.addr[n]) else k
  }

  /** The end of kern_task_cleanup: a dynamic structure goes back to the allocator and is gone. */
  function FreeStruct(k: Kernel, id: Id): Kernel
    requires id in k.tasks
  {
    if k.tasks[id].dynamicStruct then
      FreeAddr(k, id).(tasks := k.tasks - {id}, timers := k.timers.(events := k.timers.events - {id}))
    else
      k
  }
}
