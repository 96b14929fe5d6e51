/**
 * The code of task.c: task structures, counters, and four lists linked through two nodes of each task, in the
 * memory the timer's lists are in too. The task list and the list of the dead share one node; the run queue and
 * the list of the dying share the other.
 */
module TaskCode {
  import opened Word32
  import opened Memory
  import opened IntrusiveList
  import opened Sequences
  import opened NodeList
  import opened Timer
  import opened TimerCode
  import opened Kernel
  import opened Scheduler

  type Id = Timer.Id

  /** The flags agree with the lists as far as the sharing of nodes needs it. */
  ghost predicate TaskListed(k: Kernel, id: Id)
    requires id in k.tasks
  {
    var t := k.tasks[id];
    && (t.onActive <==> id in k.active)
    && (t.onDying ==> t.state == Dying && !t.onActive)
    && (id in k.dying ==> t.onDying && id in k.taskList)
    && (id in k.dead ==> id !in k.taskList)
  }

  ghost predicate ListsOk(k: Kernel) {
    && AllIn(k.taskList, k.tasks.Keys) && AllIn(k.active, k.tasks.Keys) && AllIn(k.dying, k.tasks.Keys)
    && AllIn(k.dead, k.tasks.Keys)
    && forall id :: id in k.tasks ==> TaskListed(k, id)
  }

  class TaskSystem {
    const mem: array<u8>
    const taskList: StructList
    const active: StructList
    const dying: StructList
    const dead: StructList       // local to the idle task
    const timer: TimerQueue
    var tasks: map<Id, Task>     // the other fields of the task structures, by address
    var activeCount: int
    var dyingCount: int
    var current: Id
    var idle: Id
    var switchReady: bool
    var pendsv: bool
    ghost var heap: set<int>
    ghost var badFrees: nat

    ghost function St(): Kernel
      reads this, taskList, active, dying, dead, timer, timer.list, timer.due
    {
      Kernel(tasks, taskList.q, active.q, dying.q, dead.q, activeCount, dyingCount, current, idle, switchReady, pendsv,
             timer.St(), heap, badFrees)
    }

    /** All lists are in one memory, no two have one head, and each is linked through its node of the structure. */
    ghost predicate Parts()
      reads this, timer
    {
      && taskList != dead && active != dying && timer.list != timer.due && timer.list.ends != timer.due.ends
      && taskList.ends !in {active.ends, dying.ends, dead.ends, timer.list.ends, timer.due.ends}
      && active.ends !in {dying.ends, dead.ends, timer.list.ends, timer.due.ends}
      && dying.ends !in {dead.ends, timer.list.ends, timer.due.ends}
      && dead.ends !in {timer.list.ends, timer.due.ends}
      && taskList.mem == active.mem == dying.mem == dead.mem == timer.mem == mem
      && taskList.off == dead.off == LIST_NODE && active.off == dying.off == ACTIVE_NODE
      && timer.list.off == timer.due.off == EVENT_NODE && timer.list.mem == timer.due.mem == mem
      && Spaced(mem.Length, tasks.Keys, TASK_SIZE) && timer.events.Keys == tasks.Keys
    }

    ghost predicate Valid()
      reads this, mem, taskList, active, dying, dead, timer, timer.list, timer.due
      reads taskList.ends, active.ends, dying.ends, dead.ends, timer.list.ends, timer.due.ends
    {
      && Parts() && taskList.Valid() && active.Valid() && dying.Valid() && dead.Valid() && timer.Valid()
      && ListsOk(St())
    }

    /** kern_task_setup before its kern_task_init calls, with the idle task running. */
    constructor (mem: array<u8>, timer: TimerQueue, idle: Id)
      requires timer.mem == mem && timer.Valid() && timer.events == map[]
      ensures this.mem == mem && this.timer == timer && this.idle == idle == current && Valid()
      ensures St() == Kernel(map[], [], [], [], [], 0, 0, idle, idle, false, false, timer.St(), {}, 0)
    {
      hide Holds, Spaced, FlagsOk, ListsOk;
      this.mem, this.timer, this.idle, current := mem, timer, idle, idle;
      tasks, activeCount, dyingCount, switchReady, pendsv := map[], 0, 0, false, false;
      heap, badFrees := {}, 0;
      taskList := new StructList(mem, LIST_NODE);
      active := new StructList(mem, ACTIVE_NODE);
      dying := new StructList(mem, ACTIVE_NODE);
      dead := new StructList(mem, LIST_NODE);
      new;
      NoLists(St());
    }

    /** Lists linked through another node than the ones touched hold what they held. */
    lemma OthersKept(m: Mem, off: int, touched: set<Id>)
      requires Parts() && ListsOk(St()) && FlagsOk(timer.St())
      requires |m| == mem.Length && TouchesNodes(m, mem[..], off, touched) && touched <= tasks.Keys
      requires off == LIST_NODE || off == ACTIVE_NODE || off == EVENT_NODE
      requires off != LIST_NODE ==>
        Holds(taskList.ends.On(m), LIST_NODE, taskList.q) && Holds(dead.ends.On(m), LIST_NODE, dead.q)
      requires off != ACTIVE_NODE ==>
        Holds(active.ends.On(m), ACTIVE_NODE, active.q) && Holds(dying.ends.On(m), ACTIVE_NODE, dying.q)
      requires off != EVENT_NODE ==>
        Holds(timer.list.ends.On(m), EVENT_NODE, timer.list.q) && Holds(timer.due.ends.On(m), EVENT_NODE, timer.due.q)
      ensures off != LIST_NODE ==> taskList.Valid() && dead.Valid()
      ensures off != ACTIVE_NODE ==> active.Valid() && dying.Valid()
      ensures off != EVENT_NODE ==> timer.Valid()
    {
      hide TouchesNodes, Holds, Spaced;
      ListsApart(timer.St());
      if off != LIST_NODE {
        HoldsKept(taskList.ends.On(m), LIST_NODE, taskList.q, mem[..], off, touched, tasks.Keys, TASK_SIZE);
        HoldsKept(dead.ends.On(m), LIST_NODE, dead.q, mem[..], off, touched, tasks.Keys, TASK_SIZE);
      }
      if off != ACTIVE_NODE {
        HoldsKept(active.ends.On(m), ACTIVE_NODE, active.q, mem[..], off, touched, tasks.Keys, TASK_SIZE);
        HoldsKept(dying.ends.On(m), ACTIVE_NODE, dying.q, mem[..], off, touched, tasks.Keys, TASK_SIZE);
      }
      if off != EVENT_NODE {
        HoldsKept(timer.list.ends.On(m), EVENT_NODE, timer.list.q, mem[..], off, touched, tasks.Keys, TASK_SIZE);
        HoldsKept(timer.due.ends.On(m), EVENT_NODE, timer.due.q, mem[..], off, touched, tasks.Keys, TASK_SIZE);
      }
    }

    /** The list that shares the touched nodes holds what it held if none of its own were touched. */
    lemma SiblingKept(l: StructList, m: Mem, touched: set<Id>)
      requires l.mem == mem && |m| == mem.Length && Spaced(mem.Length, tasks.Keys, TASK_SIZE)
      requires 0 <= l.off && l.off + 8 <= TASK_SIZE && Holds(l.ends.On(m), l.off, l.q) && AllIn(l.q, tasks.Keys)
      requires TouchesNodes(m, mem[..], l.off, touched) && touched <= tasks.Keys
      requires forall e :: e in l.q ==> e !in touched
      ensures l.Valid()
    {
      HoldsKept(l.ends.On(m), l.off, l.q, mem[..], l.off, touched, tasks.Keys, TASK_SIZE);
    }

    /** The other fields of a structure are stored; its place on the lists does not change. */
    method Store(id: Id, t: Task)
      requires Valid() && id in tasks && t.onActive == tasks[id].onActive && t.onDying == tasks[id].onDying
      requires t.onDying ==> t.state == Dying
      modifies this`tasks
      ensures Valid() && St() == Update(old(St()), id, t) && tasks[id] == t && tasks.Keys == old(tasks.Keys)
    {
      hide Holds, Spaced, FlagsOk, AllIn;
      StoredLists(St(), id, t);
      tasks := tasks[id := t];
      assert tasks.Keys == old(tasks.Keys);
    }

    /** The request for a context switch: PendSV is set pending. */
    method KickContextSwitch()
      requires Valid()
      modifies this`pendsv
      ensures Valid() && St() == old(St()).(pendsv := true)
    {
      hide Holds, Spaced, FlagsOk, AllIn;
      pendsv := true;
    }

    method KickLocked()
      requires Valid()
      modifies this`pendsv
      ensures Valid() && St() == Kicked(old(St()))
    {
      hide Holds, Spaced, FlagsOk, ListsOk;
      if switchReady { KickContextSwitch(); }
    }

    /** The first half of leaving for Dying or Sleeping: off the run queue, if the task is on it. */
    method LeaveActiveLocked(id: Id)
      requires Valid() && id in tasks
      modifies this, mem, active, active.ends
      ensures Valid() && St() == LeaveActive(old(St()), id)
    {
      hide TouchesNodes, Holds, Spaced, Members, FlagsOk, ListsOk;
      if tasks[id].onActive {
        ghost var m, q, k := mem[..], active.q, St();
        LeaveLists(k, id, active.ends.On(m));
        active.Remove(id);
        tasks := tasks[id := tasks[id].(onActive := false)];
        activeCount := activeCount - 1;
        assert tasks.Keys == old(tasks.Keys) && St() == LeaveActive(k, id);
        OthersKept(m, ACTIVE_NODE, Members(q));
        SiblingKept(dying, m, Members(q));
      }
    }

    method JoinDyingLocked(id: Id)
      requires Valid() && id in tasks && tasks[id].state == Dying && !tasks[id].onActive && id in taskList.q
      modifies this, mem, dying, dying.ends
      ensures Valid() && St() == JoinDying(old(St()), id)
    {
      hide TouchesNodes, Holds, Spaced, Members, FlagsOk, ListsOk;
      if !tasks[id].onDying {
        ghost var m, k := mem[..], St();
        JoinDyingLists(k, id);
        tasks := tasks[id := tasks[id].(onDying := true)];
        assert tasks.Keys == old(tasks.Keys);
        dyingCount := dyingCount + 1;
        dying.PushTail(id, tasks.Keys, TASK_SIZE);
        assert St() == JoinDying(k, id);
        OthersKept(m, ACTIVE_NODE, Members(dying.q));
        SiblingKept(active, m, Members(dying.q));
      }
    }

    method JoinActiveLocked(id: Id)
      requires Valid() && id in tasks && !tasks[id].onDying
      modifies this, mem, active, active.ends
      ensures Valid() && St() == JoinActive(old(St()), id)
    {
      hide TouchesNodes, Holds, Spaced, Members, FlagsOk, ListsOk;
      if !tasks[id].onActive {
        ghost var m, k := mem[..], St();
        JoinActiveLists(k, id);
        active.PushTail(id, tasks.Keys, TASK_SIZE);
        tasks := tasks[id := tasks[id].(onActive := true)];
        activeCount := activeCount + 1;
        assert tasks.Keys == old(tasks.Keys) && St() == JoinedActive(k, id);
        OthersKept(m, ACTIVE_NODE, Members(active.q));
        SiblingKept(dying, m, Members(active.q));
        KickLocked();
      }
    }

    /**
     * _kern_task_set_state_locked. A task on the list of the dying cannot take another state: its node is in use.
     */
    method SetStateLocked(id: Id, state: TaskState)
      requires Valid() && id in tasks && (state == Dying || state == Sleeping || state == Ready)
      requires if state == Dying then id in taskList.q else !tasks[id].onDying
      modifies this, mem, active, active.ends, dying, dying.ends
      ensures Valid() && St() == SetState(old(St()), id, state)
    {
      hide LeaveActive, JoinDying, JoinActive, Kicked, Holds, Spaced, FlagsOk, ListsOk;
      if tasks[id].state == state { return; }
      Store(id, tasks[id].(state := state));
      match state {
        case Dying =>
          LeaveKeeps(St(), id);
          LeaveActiveLocked(id);
          JoinDyingLocked(id);
          KickLocked();
        case Sleeping =>
          LeaveActiveLocked(id);
          KickLocked();
        case Ready =>
          JoinActiveLocked(id);
        case _ =>
      }
    }

    /** kern_task_signal: 0 if the signals were posted, -1 if the task is in no state to take them. */
    method PostSignal(id: Id, bits: Signals) returns (ret: int)
      requires Valid() && id in tasks
      modifies this, mem, active, active.ends, dying, dying.ends
      ensures Valid() && St() == Signal(old(St()), id, bits)
      ensures ret == if old(Signalable(tasks[id])) then 0 else -1
    {
      hide Ref, Holds, Spaced, FlagsOk, ListsOk, SetState, Signal, Woken, Update, Parts, StructList.Valid,
        TimerQueue.Valid;
      ghost var k := St();
      NotDying(k, id);
      RefcountInc(id);
      ghost var t := tasks[id];
      if !Signalable(tasks[id]) {
        RefusedInSteps(k, id, bits);
        RefcountDec(id);
        UpdatedTwice(k, id, t, tasks[id]);
        return -1;
      }
      Store(id, tasks[id].(sigSet := tasks[id].sigSet + bits));
      UpdatedTwice(k, id, t, tasks[id]);
      assert St() == Update(k, id, Held(k.tasks[id], bits));
      PostedInSteps(k, id, bits);
      WakeUp(id);
      RefcountDec(id);
      ret := 0;
    }

    /** kern_task_refcount_inc. */
    method RefcountInc(id: Id)
      requires Valid() && id in tasks
      modifies this`tasks
      ensures Valid() && tasks.Keys == old(tasks.Keys)
      ensures tasks[id] == old(tasks[id]).(refcount := Ref(old(tasks[id]).refcount, 1))
      ensures St() == Update(old(St()), id, tasks[id])
    {
      hide Ref, Holds, Spaced, FlagsOk, ListsOk;
      NotDying(St(), id);
      Store(id, tasks[id].(refcount := Ref(tasks[id].refcount, 1)));
    }

    /** kern_task_refcount_dec. */
    method RefcountDec(id: Id)
      requires Valid() && id in tasks
      modifies this`tasks
      ensures Valid() && tasks.Keys == old(tasks.Keys)
      ensures tasks[id] == old(tasks[id]).(refcount := Ref(old(tasks[id]).refcount, -1))
      ensures St() == Update(old(St()), id, tasks[id])
    {
      hide Ref, Holds, Spaced, FlagsOk, ListsOk;
      NotDying(St(), id);
      Store(id, tasks[id].(refcount := Ref(tasks[id].refcount, -1)));
    }

    /** A sleeping task with an unmasked signal set is made ready. */
    method WakeUp(id: Id)
      requires Valid() && id in tasks && (tasks[id].onDying ==> tasks[id].state == Dying)
      modifies this, mem, active, active.ends, dying, dying.ends
      ensures Valid() && St() == Woken(old(St()), id)
    {
      hide SetState, Holds, Spaced, FlagsOk, ListsOk;
      if tasks[id].sigSet * tasks[id].sigMask != {} {
        if tasks[id].state == Sleeping { SetStateLocked(id, Ready); }
      }
    }

    /** One turn of the loop in kern_task_wait: `done` when it returns, with the signals it reports. */
    method WaitTurn(mask: Signals) returns (done: bool, sigs: Signals)
      requires Valid() && current in tasks && !tasks[current].onDying
      modifies this, mem, active, active.ends, dying, dying.ends
      ensures Valid() && St() == Wait(old(St()), mask)
      ensures done == Answered(old(tasks[current]), mask) && sigs == old(tasks[current].sigSet)
    {
      hide SetState, Holds, Spaced, FlagsOk, ListsOk;
      ghost var k := St();
      sigs := tasks[current].sigSet;
      if sigs * mask * tasks[current].sigMask != {} {
        SetStateSame(k, current, Ready);
        SetStateLocked(current, Ready);
        Store(current, tasks[current].(sigSet := tasks[current].sigSet - (sigs * mask)));
        return true, sigs;
      }
      SetStateLocked(current, Sleeping);
      done := false;
    }

    /** kern_task_select up to its unlock; the idle task does not exit. */
    method ChooseTask()
      requires Valid() && current in tasks && idle in tasks && !tasks[idle].onDying
      modifies this, mem, active, active.ends
      ensures ActiveKnown(old(St())) && Valid() && St() == Choose(old(St()))
    {
      hide Holds, Spaced, FlagsOk, ListsOk;
      HeadRunnable(St());
      ghost var k := St();
      var found, task := FindTask();
      SwitchTo(task);
      if found { RotateActive(task); }
      NotDying(St(), task);
      Store(current, tasks[current].(state := Running));
    }

    /** Up to `skip`: the task to run if there is one, and the current task no longer running. */
    method FindTask() returns (found: bool, task: Id)
      requires Valid() && current in tasks
      modifies this`tasks
      ensures Valid() && St() == Paused(old(St())) && found == (dyingCount <= 0 && active.q != [])
      ensures task == if found then active.q[0] else idle
    {
      hide Holds, Spaced, FlagsOk, ListsOk;
      found, task := false, idle;
      if dyingCount <= 0 {
        NotDying(St(), current);
        var empty := active.IsEmpty();
        if !empty {
          task := active.First();
          found := true;
        }
        if tasks[current].state == Running { Store(current, tasks[current].(state := Ready)); }
      }
    }

    method SwitchTo(task: Id)
      requires Valid()
      modifies this`current
      ensures Valid() && St() == old(St()).(current := task)
    {
      hide Holds, Spaced, FlagsOk, AllIn;
      current := task;
    }

    /** The head of the run queue is deleted and added at the tail. */
    method RotateActive(task: Id)
      requires Valid() && active.q != [] && task == active.q[0]
      modifies this, mem, active, active.ends
      ensures Valid() && St() == old(St()).(active := old(active.q)[1..] + [task])
    {
      hide TouchesNodes, Holds, Spaced, Members, FlagsOk, ListsOk;
      ghost var m, q, k := mem[..], active.q, St();
      RotateLists(k, active.ends.On(m));
      active.Remove(task);
      ghost var m1 := mem[..];
      active.PushTail(task, tasks.Keys, TASK_SIZE);
      TouchesBoth(m, m1, mem[..], ACTIVE_NODE, Members(q));
      OthersKept(m, ACTIVE_NODE, Members(q));
      SiblingKept(dying, m, Members(q));
    }

    /** kern_task_select, as the PendSV handler calls it. */
    method SelectTask()
      requires Valid() && current in tasks && idle in tasks && !tasks[idle].onDying
      modifies this, mem, active, active.ends, timer
      ensures ActiveKnown(old(St())) && Valid() && St() == Select(old(St()))
    {
      hide Choose, Holds, Spaced, FlagsOk, AllIn;
      ChooseTask();
      pendsv := false;
      timer.TaskCount(Wrap(activeCount));
    }

    /**
     * The callbacks kern_timer_tick makes between its two locked regions, walking its list: the sleep event of
     * each task posts KSLEEP.
     */
    method FireSleepEvents()
      requires Valid() && forall j :: 0 <= j < |timer.due.q| ==> timer.due.q[j] in tasks
      modifies this, mem, active, active.ends, dying, dying.ends
      ensures forall j :: 0 <= j < |timer.due.q| ==> timer.due.q[j] in old(tasks)
      ensures Valid() && St() == SignalAll(old(St()), timer.due.q) && St().timers == old(St()).timers
    {
      hide Valid, SignalAll, AllFrom, Named;
      ghost var k0, due := St(), timer.due.q;
      ghost var i := 0;
      assert Named(due, tasks.Keys) by { NamedAll(due, tasks.Keys); }
      SignalsToCome(k0, due, 0);
      var empty, e := FirstDue();
      while !empty
        invariant Valid() && timer.due.q == due && St().timers == k0.timers && tasks.Keys == k0.tasks.Keys
        invariant i <= |due| && empty == (i == |due|) && (!empty ==> e == due[i]) && Named(due, tasks.Keys)
        invariant AllFrom(St(), due, i) == AllFrom(k0, due, 0)
        decreases |due| - i
      {
        empty, e := FireSleepEvent(e, due, i);
        i := i + 1;
      }
      SignalsToCome(St(), due, i);
    }

    method FirstDue() returns (empty: bool, e: Id)
      requires Valid()
      ensures empty == (timer.due.q == []) && (!empty ==> e == timer.due.q[0])
    {
      hide Holds, Spaced, FlagsOk, ListsOk;
      empty := timer.due.IsEmpty();
      e := 0;
      if !empty { e := timer.due.First(); }
    }

    method FireSleepEvent(e: Id, ghost due: seq<Id>, ghost i: nat) returns (empty: bool, next: Id)
      requires Valid() && due == timer.due.q && i < |due| && e == due[i] && Named(due, tasks.Keys)
      modifies this, mem, active, active.ends, dying, dying.ends
      ensures Valid() && St().timers == old(St()).timers && tasks.Keys == old(tasks.Keys)
      ensures AllFrom(St(), due, i + 1) == AllFrom(old(St()), due, i)
      ensures empty == (i + 1 == |due|) && (!empty ==> next == due[i + 1])
    {
      hide Signal, Holds, Spaced, FlagsOk, ListsOk;
      SignalTimersSame(St(), e);
      SignalsToCome(St(), due, i);
      var ret := PostSignal(e, KSLEEP);
      var more: bool;
      more, next := timer.due.After(e, i);
      empty := !more;
    }

    /** SysTick_Handler: kern_timer_tick, its callbacks, and kern_task_tick. */
    method SysTick()
      requires Valid() && timer.due.q == []
      modifies this, mem, active, active.ends, dying, dying.ends
      modifies timer, timer.list, timer.list.ends, timer.due, timer.due.ends
      ensures EventsOwned(old(St())) && old(St()).timers.firing == [] && Valid() && St() == Tick(old(St()))
    {
      hide FlagsOk, Timer.Collect, Timer.Finish, Signal, SignalAll, Holds, Spaced, ListsOk;
      ghost var k0 := St();
      CollectLocked();
      FiringOwned(St());
      FireSleepEvents();
      FinishLocked();
      KickLocked();
    }

    /** The first locked region of kern_timer_tick, as the task lists see it. */
    method CollectLocked()
      requires Valid() && timer.due.q == []
      modifies mem, timer, timer.list, timer.list.ends, timer.due, timer.due.ends
      ensures Timer.Known(old(St()).timers) && Valid()
      ensures St() == old(St()).(timers := Timer.Collect(old(St()).timers))
    {
      hide TouchesNodes, Holds, Spaced, FlagsOk, AllIn, Timer.Collect;
      ghost var m, t := mem[..], timer.St();
      timer.Collect();
      CollectKeys(t);
      OthersKept(m, EVENT_NODE, tasks.Keys);
    }

    /** The second. */
    method FinishLocked()
      requires Valid()
      modifies mem, timer, timer.list, timer.list.ends, timer.due, timer.due.ends
      ensures Valid() && St() == old(St()).(timers := Timer.Finish(old(St()).timers))
    {
      hide TouchesNodes, Holds, Spaced, FlagsOk, AllIn, Timer.Finish;
      ghost var m, t := mem[..], timer.St();
      timer.Finish();
      FinishKeys(t);
      OthersKept(m, EVENT_NODE, tasks.Keys);
    }

    /** kern_task_start. */
    method StartTask(id: Id)
      requires Valid() && id in tasks && !tasks[id].onDying
      modifies this, mem, active, active.ends, dying, dying.ends
      ensures Valid() && St() == SetState(old(St()), id, Ready)
    {
      SetStateLocked(id, Ready);
    }

    /** A list that does not hold the structure `id` is not changed by what is written to its nodes. */
    lemma ApartKept(l: StructList, m: Mem, off: int, ids: set<Id>, id: Id)
      requires l.mem == mem && |m| == mem.Length && Spaced(mem.Length, ids, TASK_SIZE)
      requires l.off == LIST_NODE || l.off == ACTIVE_NODE || l.off == EVENT_NODE
      requires off == LIST_NODE || off == ACTIVE_NODE || off == EVENT_NODE
      requires Holds(l.ends.On(m), l.off, l.q) && AllIn(l.q, ids) && id in ids && id !in l.q
      requires TouchesNodes(m, mem[..], off, {id})
      ensures l.Valid()
    {
      HoldsKept(l.ends.On(m), l.off, l.q, mem[..], off, {id}, ids, TASK_SIZE);
    }

    /** list_node_init on a node of a structure that is not known yet. */
    method InitNode(off: int, id: Id)
      requires Valid() && id !in tasks && Spaced(mem.Length, tasks.Keys + {id}, TASK_SIZE)
      requires off == LIST_NODE || off == ACTIVE_NODE
      modifies mem
      ensures Valid()
    {
      hide TouchesNodes, Holds, FlagsOk;
      ghost var m, ids := mem[..], tasks.Keys + {id};
      ListsApart(timer.St());
      assert id in ids;
      NodeInit(mem, off, id);
      ApartKept(taskList, m, off, ids, id);
      ApartKept(dead, m, off, ids, id);
      ApartKept(active, m, off, ids, id);
      ApartKept(dying, m, off, ids, id);
      ApartKept(timer.list, m, off, ids, id);
      ApartKept(timer.due, m, off, ids, id);
    }

    /** kern_task_generic_init, in a zeroed structure that lies apart from the others. */
    method GenericInit(id: Id, regions: Regions, dynamicStruct: bool)
      requires Valid() && id !in tasks && Spaced(mem.Length, tasks.Keys + {id}, TASK_SIZE)
      modifies this`tasks, mem, timer`events
      ensures Valid() && tasks.Keys == old(tasks.Keys) + {id}
      ensures St() == Create(old(St()), id, regions, dynamicStruct).(taskList := old(taskList.q))
    {
      hide TouchesNodes, Holds, FlagsOk, ListsOk, Spaced, Members, AllIn;
      CreateLists(St(), id, regions, dynamicStruct);
      InitNode(LIST_NODE, id);
      InitNode(ACTIVE_NODE, id);
      ghost var m, ids := mem[..], tasks.Keys + {id};
      assert id in ids;
      ListsApart(timer.St());
      timer.Setup(id);
      ApartKept(taskList, m, EVENT_NODE, ids, id);
      ApartKept(dead, m, EVENT_NODE, ids, id);
      ApartKept(active, m, EVENT_NODE, ids, id);
      ApartKept(dying, m, EVENT_NODE, ids, id);
      tasks := tasks[id := Task(Unstarted, false, false, 0, {}, TASK_MASK, dynamicStruct, regions)];
      assert tasks.Keys == ids;
    }

    /** kern_task_init and kern_task_user_init, as far as the scheduler can tell. */
    method CreateTask(id: Id, regions: Regions, dynamicStruct: bool)
      requires Valid() && id !in tasks && Spaced(mem.Length, tasks.Keys + {id}, TASK_SIZE)
      modifies this`tasks, mem, timer`events, taskList, taskList.ends
      ensures Valid() && St() == Create(old(St()), id, regions, dynamicStruct)
    {
      hide TouchesNodes, Holds, Spaced, Members, FlagsOk, ListsOk;
      CreateLists(St(), id, regions, dynamicStruct);
      GenericInit(id, regions, dynamicStruct);
      ghost var m := mem[..];
      taskList.PushTail(id, tasks.Keys, TASK_SIZE);
      OthersKept(m, LIST_NODE, Members(taskList.q));
      SiblingKept(dead, m, Members(taskList.q));
    }

    /** kern_reap_dying_tasks_locked. */
    method ReapDyingLocked()
      requires Valid()
      modifies this, mem, dying, dying.ends, taskList, taskList.ends, dead, dead.ends
      ensures Valid() && St() == Reap(old(St()))
    {
      hide Valid;
      var empty, task := FirstDying();
      while !empty
        invariant Valid() && empty == (dying.q == []) && (!empty ==> task == dying.q[0])
        invariant Reap(St()) == Reap(old(St()))
        decreases |dying.q|
      {
        ReapTask(task);
        empty, task := FirstDying();
      }
    }

    method FirstDying() returns (empty: bool, e: Id)
      requires Valid()
      ensures empty == (dying.q == []) && (!empty ==> e == dying.q[0])
    {
      hide Holds, Spaced, FlagsOk, ListsOk;
      empty := dying.IsEmpty();
      e := 0;
      if !empty { e := dying.First(); }
    }

    /** One turn of that loop: both nodes of the task leave their lists, and the first goes on the list of the dead. */
    method ReapTask(task: Id)
      requires Valid() && dying.q != [] && task == dying.q[0]
      modifies this, mem, dying, dying.ends, taskList, taskList.ends, dead, dead.ends
      ensures Valid() && St() == ReapOne(old(St()))
    {
      hide Holds, Spaced, FlagsOk, ListsOk;
      UnlinkDying(task);
      UnlinkTask(task);
      CountReaped();
      LinkDead(task);
    }

    method UnlinkDying(task: Id)
      requires Valid() && dying.q != [] && task == dying.q[0]
      modifies mem, dying, dying.ends
      ensures Valid() && St() == old(St()).(dying := old(dying.q)[1..])
      ensures task in taskList.q && task !in dying.q && task !in dead.q
    {
      hide TouchesNodes, Holds, Spaced, Members, FlagsOk, ListsOk;
      ghost var m, q, k := mem[..], dying.q, St();
      UnlinkDyingLists(k, dying.ends.On(m));
      dying.Remove(task);
      OthersKept(m, ACTIVE_NODE, Members(q));
      SiblingKept(active, m, Members(q));
    }

    method UnlinkTask(task: Id)
      requires Valid() && task in taskList.q && task !in dying.q && task !in dead.q
      modifies mem, taskList, taskList.ends
      ensures Valid() && St() == old(St()).(taskList := Removed(old(taskList.q), task))
      ensures task in tasks && task !in taskList.q && task !in dead.q && task !in dying.q
    {
      hide TouchesNodes, Holds, Spaced, Members, FlagsOk, ListsOk;
      ghost var m, q, k := mem[..], taskList.q, St();
      UnlinkTaskLists(k, task, taskList.ends.On(m));
      taskList.Remove(task);
      OthersKept(m, LIST_NODE, Members(q));
      SiblingKept(dead, m, Members(q));
    }

    method LinkDead(task: Id)
      requires Valid() && task in tasks && task !in taskList.q && task !in dead.q
      modifies mem, dead, dead.ends
      ensures Valid() && St() == old(St()).(dead := old(dead.q) + [task])
    {
      hide TouchesNodes, Holds, Spaced, Members, FlagsOk, ListsOk;
      ghost var m, k := mem[..], St();
      LinkDeadLists(k, task);
      dead.PushTail(task, tasks.Keys, TASK_SIZE);
      OthersKept(m, LIST_NODE, Members(dead.q));
      SiblingKept(taskList, m, Members(dead.q));
    }

    method CountReaped()
      requires Valid()
      modifies this`dyingCount
      ensures Valid() && St() == old(St()).(dyingCount := old(dyingCount) - 1)
    {
      hide Holds, Spaced, FlagsOk, AllIn;
      dyingCount := dyingCount - 1;
    }

    /** kern_task_timer_set, when nothing comes between its two locked regions. */
    method TimerSet(msec: u32) returns (ok: bool)
      requires Valid() && current in tasks
      modifies mem, timer, timer.list, timer.list.ends
      ensures Known(old(timer.St())) && current in old(timer.St()).events
      ensures Known(Del(old(timer.St()), current)) && current in Del(old(timer.St()), current).events
      ensures Valid() && ok == CanDel(old(timer.St()), current)
      ensures ok ==> St() == old(St()).(
        timers := Add(Del(old(timer.St()), current), current, Wrap(msec as int + old(timer.now))))
      ensures !ok ==> St() == old(St())
    {
      hide Holds, Spaced, FlagsOk, ListsOk, Add, Del;
      FlagsKnown(timer.St());
      DelKnown(timer.St(), current);
      ok := DelLocked(current);
      if !ok { return; }
      var abs := Wrap(msec as int + timer.now);
      ok := AddLocked(current, abs);
    }

    /** kern_timer_event_del on a task's event, as the task lists see it. */
    method DelLocked(id: Id) returns (ok: bool)
      requires Valid() && id in tasks
      modifies mem, timer`events, timer.list, timer.list.ends
      ensures Known(old(timer.St())) && id in old(timer.St()).events
      ensures Valid() && St() == old(St()).(timers := Del(old(timer.St()), id)) && ok == CanDel(old(timer.St()), id)
    {
      hide TouchesNodes, Holds, Spaced, FlagsOk, AllIn, Del;
      ghost var m, t := mem[..], timer.St();
      FlagsKnown(t);
      DelKnown(t, id);
      ok := timer.Del(id);
      OthersKept(m, EVENT_NODE, tasks.Keys);
    }

    /** The locked part of kern_timer_event_add on a task's event. */
    method AddLocked(id: Id, abs: u32) returns (ok: bool)
      requires Valid() && id in tasks
      modifies mem, timer, timer.list, timer.list.ends
      ensures Known(old(timer.St())) && id in old(timer.St()).events
      ensures Valid() && St() == old(St()).(timers := Add(old(timer.St()), id, abs))
      ensures ok == CanAdd(old(timer.St()), id)
    {
      hide TouchesNodes, Holds, Spaced, FlagsOk, AllIn, Add;
      ghost var m, t := mem[..], timer.St();
      FlagsKnown(t);
      AddKeys(t, id, abs);
      ok := timer.Add(id, abs);
      OthersKept(m, EVENT_NODE, tasks.Keys);
    }
  }

  /** The last task in the run queue, its flag set and the count gone up; the request for a switch is to come. */
  function JoinedActive(k: Kernel, id: Id): Kernel
    requires id in k.tasks
  {
    Update(k, id, k.tasks[id].(onActive := true)).(active := k.active + [id], activeCount := k.activeCount + 1)
  }

  function Paused(k: Kernel): Kernel
    requires k.current in k.tasks
  {
    if k.dyingCount <= 0 && k.tasks[k.current].state == Running then
      Update(k, k.current, k.tasks[k.current].(state := Ready))
    else
      k
  }

  ghost predicate ActiveKnown(k: Kernel) {
    k.active != [] ==> k.active[0] in k.tasks
  }

  lemma UpdatedTwice(k: Kernel, id: Id, t: Task, t': Task)
    ensures Update(Update(k, id, t), id, t') == Update(k, id, t')
  {
  }

  function Woken(k: Kernel, id: Id): Kernel
    requires id in k.tasks
  {
    var t := k.tasks[id];
    if t.state == Sleeping && t.sigSet * t.sigMask != {} then SetState(k, id, Ready) else k
  }

  /** A task held by its signaller, marked. */
  function Held(t: Task, bits: Signals): Task {
    t.(refcount := Ref(t.refcount, 1), sigSet := t.sigSet + bits)
  }

  lemma RefusedInSteps(k: Kernel, id: Id, bits: Signals)
    requires id in k.tasks && !Signalable(k.tasks[id])
    ensures var t := k.tasks[id];
      Signal(k, id, bits) == Update(k, id, t.(refcount := Ref(Ref(t.refcount, 1), -1)))
  {
    hide Ref, SetState;
  }

  /** The reference is let go after the wakeup; `Signal` has it before, which comes to the same. */
  lemma PostedInSteps(k: Kernel, id: Id, bits: Signals)
    requires id in k.tasks && Signalable(k.tasks[id])
    ensures var w := Woken(Update(k, id, Held(k.tasks[id], bits)), id);
      && id in w.tasks
      && Signal(k, id, bits) == Update(w, id, w.tasks[id].(refcount := Ref(w.tasks[id].refcount, -1)))
  {
    hide Ref, SetState;
    var t, r := k.tasks[id], Ref(Ref(k.tasks[id].refcount, 1), -1);
    var h := Update(k, id, Held(t, bits));
    assert Posted(t, bits) == Held(t, bits).(refcount := r);
    UpdatedTwice(k, id, Held(t, bits), Posted(t, bits));
    if t.state == Sleeping && (t.sigSet + bits) * t.sigMask != {} { ReadyKeepsRef(h, id, r); }
  }

  lemma ReadyKeepsRef(k: Kernel, id: Id, r: u16)
    requires id in k.tasks && k.tasks[id].state != Ready
    ensures var w := SetState(k, id, Ready);
      && w.tasks[id].refcount == k.tasks[id].refcount
      && SetState(Update(k, id, k.tasks[id].(refcount := r)), id, Ready) == Update(w, id, w.tasks[id].(refcount := r))
  {
    hide Kicked;
    var t := k.tasks[id].(state := Ready);
    var k', k'' := Update(k, id, t), Update(Update(k, id, k.tasks[id].(refcount := r)), id, t.(refcount := r));
    assert k'' == Update(k', id, t.(refcount := r));
    if !t.onActive {
      KickedKeeps(JoinedActive(k', id), id, t.(onActive := true, refcount := r));
      assert JoinedActive(k'', id) == Update(JoinedActive(k', id), id, t.(onActive := true, refcount := r));
    }
  }

  lemma KickedKeeps(k: Kernel, id: Id, t: Task)
    ensures Kicked(k).tasks == k.tasks && Kicked(Update(k, id, t)) == Update(Kicked(k), id, t)
  {
  }

  /** In every state the scheduler's invariant allows, the lists and flags are as the code above needs them. */
  lemma InvServes(k: Kernel, id: Id)
    requires SchedInv(k) && id in k.tasks
    ensures ListsOk(k) && !k.tasks[k.idle].onDying
    ensures k.tasks[id].state != Dying ==> !k.tasks[id].onDying && id in k.taskList
  {
    assert TaskOk(k, k.idle) && TaskOk(k, id);
    forall x | x in k.tasks ensures TaskListed(k, x) { assert TaskOk(k, x); }
  }

  /** Starting a task keeps the lists as they have to be exactly when it has not exited; else its node is on two. */
  lemma StartKeepsLists(k: Kernel, id: Id)
    requires ListsOk(k) && id in k.tasks
    ensures ListsOk(SetState(k, id, Ready)) <==> !k.tasks[id].onDying
    ensures id in k.dying ==> id in SetState(k, id, Ready).dying && id in SetState(k, id, Ready).active
  {
    var k' := SetState(k, id, Ready);
    assert TaskListed(k, id);
    if k.tasks[id].onDying {
      assert !TaskListed(k', id);
    } else {
      forall x | x in k'.tasks ensures TaskListed(k', x) { assert TaskListed(k, x); }
    }
  }

  lemma StoredLists(k: Kernel, id: Id, t: Task)
    requires ListsOk(k) && id in k.tasks && t.onActive == k.tasks[id].onActive && t.onDying == k.tasks[id].onDying
    requires t.onDying ==> t.state == Dying
    ensures ListsOk(Update(k, id, t))
  {
    forall x | x in k.tasks ensures TaskListed(Update(k, id, t), x) { assert TaskListed(k, x); }
  }

  lemma NoLists(k: Kernel)
    requires k.tasks == map[] && k.taskList == [] && k.active == [] && k.dying == [] && k.dead == []
    ensures ListsOk(k)
  {
  }

  lemma LeaveLists(k: Kernel, id: Id, l: List)
    requires ListsOk(k) && id in k.tasks && k.tasks[id].onActive && Holds(l, ACTIVE_NODE, k.active)
    ensures id in k.active && ListsOk(LeaveActive(k, id)) && Members(k.active) <= k.tasks.Keys
    ensures AllIn(k.dying, k.tasks.Keys) && forall e :: e in k.dying ==> e !in Members(k.active)
  {
    hide Holds;
    HeldDistinct(l, ACTIVE_NODE, k.active);
    RemovedOne(k.active, id);
    assert TaskListed(k, id);
    forall x | x in k.tasks ensures TaskListed(LeaveActive(k, id), x) { assert TaskListed(k, x); }
    forall e | e in k.dying ensures e !in k.active { assert TaskListed(k, e); }
  }

  lemma LeaveKeeps(k: Kernel, id: Id)
    requires id in k.tasks
    ensures var k' := LeaveActive(k, id);
      && k'.tasks.Keys == k.tasks.Keys && k'.tasks[id] == k.tasks[id].(onActive := false) && k'.taskList == k.taskList
  {
  }

  lemma JoinDyingLists(k: Kernel, id: Id)
    requires ListsOk(k) && id in k.tasks && k.tasks[id].state == Dying && !k.tasks[id].onActive && !k.tasks[id].onDying
    requires id in k.taskList
    ensures id !in k.dying && AllIn(k.dying, k.tasks.Keys) && ListsOk(JoinDying(k, id))
    ensures Members(k.dying + [id]) <= k.tasks.Keys && AllIn(k.active, k.tasks.Keys)
    ensures forall e :: e in k.active ==> e !in Members(k.dying + [id])
  {
    assert TaskListed(k, id);
    forall x | x in k.tasks ensures TaskListed(JoinDying(k, id), x) { assert TaskListed(k, x); }
    forall e | e in k.dying + [id] ensures e in k.tasks {}
    forall e | e in k.active ensures e !in k.dying + [id] { assert TaskListed(k, e); }
  }

  lemma JoinActiveLists(k: Kernel, id: Id)
    requires ListsOk(k) && id in k.tasks && !k.tasks[id].onActive && !k.tasks[id].onDying
    ensures id !in k.active && AllIn(k.active, k.tasks.Keys) && ListsOk(JoinedActive(k, id))
    ensures Members(k.active + [id]) <= k.tasks.Keys && AllIn(k.dying, k.tasks.Keys)
    ensures forall e :: e in k.dying ==> e !in Members(k.active + [id])
  {
    assert TaskListed(k, id);
    forall x | x in k.tasks ensures TaskListed(JoinedActive(k, id), x) { assert TaskListed(k, x); }
    forall e | e in k.active + [id] ensures e in k.tasks {}
    forall e | e in k.dying ensures e !in k.active + [id] { assert TaskListed(k, e); }
  }

  lemma NotDying(k: Kernel, id: Id)
    requires ListsOk(k) && id in k.tasks
    ensures k.tasks[id].onDying ==> k.tasks[id].state == Dying
  {
    assert TaskListed(k, id);
  }

  lemma HeadRunnable(k: Kernel)
    requires ListsOk(k)
    ensures k.active != [] ==> k.active[0] in k.tasks && !k.tasks[k.active[0]].onDying
    ensures forall id :: id in k.tasks && k.tasks[id].onDying ==> k.tasks[id].state == Dying
  {
    forall id | id in k.tasks ensures k.tasks[id].onDying ==> k.tasks[id].state == Dying { assert TaskListed(k, id); }
    if k.active != [] {
      assert k.active[0] in k.active;
      assert TaskListed(k, k.active[0]);
    }
  }

  lemma RotateLists(k: Kernel, l: List)
    requires ListsOk(k) && k.active != [] && Holds(l, ACTIVE_NODE, k.active)
    ensures var e, r := k.active[0], Removed(k.active, k.active[0]);
      && e in k.active && e in k.tasks && r == k.active[1..] && e !in r && AllIn(r, k.tasks.Keys)
      && Members(r + [e]) == Members(k.active)
      && ListsOk(k.(active := r + [e]))
    ensures Members(k.active) <= k.tasks.Keys && AllIn(k.dying, k.tasks.Keys)
    ensures forall e :: e in k.dying ==> e !in Members(k.active)
  {
    hide Holds;
    var e, r := k.active[0], Removed(k.active, k.active[0]);
    HeldDistinct(l, ACTIVE_NODE, k.active);
    RotateDistinct(k.active);
    TailDistinct(k.active);
    assert IndexOf(k.active, e) == 0 && r == k.active[1..];
    assert Members(r + [e]) == Members(k.active) by {
      forall x ensures x in Members(r + [e]) <==> x in Members(k.active) { assert x in r + [e] <==> x in k.active; }
    }
    forall x | x in k.tasks ensures TaskListed(k.(active := r + [e]), x) { assert TaskListed(k, x); }
    forall x | x in k.dying ensures x !in k.active { assert TaskListed(k, x); }
  }

  lemma SetStateSame(k: Kernel, id: Id, state: TaskState)
    requires id in k.tasks
    ensures SetState(k, id, state).current == k.current
    ensures SetState(k, id, state).tasks[id].onDying ==
      (k.tasks[id].onDying || (state == Dying && k.tasks[id].state != Dying))
  {
  }

  lemma UnlinkDyingLists(k: Kernel, l: List)
    requires ListsOk(k) && k.dying != [] && Holds(l, ACTIVE_NODE, k.dying)
    ensures var e, r := k.dying[0], Removed(k.dying, k.dying[0]);
      && e in k.dying && r == k.dying[1..] && ListsOk(k.(dying := r))
      && e in k.taskList && e !in r && e !in k.dead
    ensures Members(k.dying) <= k.tasks.Keys && AllIn(k.active, k.tasks.Keys)
    ensures forall e :: e in k.active ==> e !in Members(k.dying)
  {
    hide Holds;
    var e, r := k.dying[0], Removed(k.dying, k.dying[0]);
    HeldDistinct(l, ACTIVE_NODE, k.dying);
    TailDistinct(k.dying);
    assert e in k.dying && IndexOf(k.dying, e) == 0 && r == k.dying[1..];
    assert TaskListed(k, e);
    forall x | x in k.tasks ensures TaskListed(k.(dying := r), x) { assert TaskListed(k, x); }
    forall x | x in k.active ensures x !in k.dying { assert TaskListed(k, x); }
  }

  lemma UnlinkTaskLists(k: Kernel, task: Id, l: List)
    requires ListsOk(k) && task in k.taskList && task !in k.dying && task !in k.dead && Holds(l, LIST_NODE, k.taskList)
    ensures var r := Removed(k.taskList, task);
      task in k.tasks && task !in r && ListsOk(k.(taskList := r))
    ensures Members(k.taskList) <= k.tasks.Keys && AllIn(k.dead, k.tasks.Keys)
    ensures forall e :: e in k.dead ==> e !in Members(k.taskList)
  {
    hide Holds;
    var r := Removed(k.taskList, task);
    HeldDistinct(l, LIST_NODE, k.taskList);
    RemovedOne(k.taskList, task);
    forall x | x in k.tasks ensures TaskListed(k.(taskList := r), x) { assert TaskListed(k, x); }
    forall x | x in k.dead ensures x !in k.taskList { assert TaskListed(k, x); }
  }

  lemma LinkDeadLists(k: Kernel, task: Id)
    requires ListsOk(k) && task in k.tasks && task !in k.taskList && task !in k.dead
    ensures AllIn(k.dead, k.tasks.Keys) && ListsOk(k.(dead := k.dead + [task]))
    ensures Members(k.dead + [task]) <= k.tasks.Keys && AllIn(k.taskList, k.tasks.Keys)
    ensures forall e :: e in k.taskList ==> e !in Members(k.dead + [task])
  {
    forall x | x in k.tasks ensures TaskListed(k.(dead := k.dead + [task]), x) { assert TaskListed(k, x); }
    forall e | e in k.dead + [task] ensures e in k.tasks {}
    forall e | e in k.taskList ensures e !in k.dead + [task] { assert TaskListed(k, e); }
  }

  lemma CreateLists(k: Kernel, id: Id, regions: Regions, dynamicStruct: bool)
    requires ListsOk(k) && id !in k.tasks
    ensures var k' := Create(k, id, regions, dynamicStruct);
      && ListsOk(k') && ListsOk(k'.(taskList := k.taskList)) && k'.tasks.Keys == k.tasks.Keys + {id}
      && Members(k.taskList + [id]) <= k'.tasks.Keys && AllIn(k.taskList, k'.tasks.Keys)
      && AllIn(k.dead, k'.tasks.Keys) && AllIn(k.active, k'.tasks.Keys) && AllIn(k.dying, k'.tasks.Keys)
    ensures id !in k.taskList && id !in k.active && id !in k.dying && id !in k.dead
    ensures forall e :: e in k.dead ==> e !in Members(k.taskList + [id])
  {
    var k' := Create(k, id, regions, dynamicStruct);
    forall x | x in k'.tasks ensures TaskListed(k', x) && TaskListed(k'.(taskList := k.taskList), x) {
      if x != id { assert TaskListed(k, x); }
    }
    forall e | e in k.taskList + [id] ensures e in k'.tasks {}
    forall e | e in k.dead ensures e !in k.taskList + [id] { assert TaskListed(k, e); }
  }

  lemma CollectKeys(t: Timers)
    requires Known(t)
    ensures Timer.Collect(t).events.Keys == t.events.Keys
  {
  }

  lemma FinishKeys(t: Timers)
    ensures Timer.Finish(t).events.Keys == t.events.Keys
  {
  }

  ghost predicate Named(q: seq<Id>, ids: set<Id>) {
    forall j :: 0 <= j < |q| ==> q[j] in ids
  }

  lemma NamedAll(q: seq<Id>, ids: set<Id>)
    requires forall j :: 0 <= j < |q| ==> q[j] in ids
    ensures Named(q, ids)
  {
  }

  /** What is left of the callbacks once the first `i` have been made. */
  ghost function AllFrom(k: Kernel, due: seq<Id>, i: nat): Kernel
    requires i <= |due| && Named(due, k.tasks.Keys)
  {
    SignalAll(k, due[i..])
  }

  lemma SignalsToCome(k: Kernel, due: seq<Id>, i: nat)
    requires i <= |due| && Named(due, k.tasks.Keys)
    ensures forall j :: 0 <= j < |due| ==> due[j] in k.tasks
    ensures i == 0 ==> AllFrom(k, due, i) == SignalAll(k, due)
    ensures i == |due| ==> AllFrom(k, due, i) == k
    ensures i < |due| ==> AllFrom(k, due, i) == AllFrom(Signal(k, due[i], KSLEEP), due, i + 1)
  {
    hide Signal;
    if i == 0 { assert due[0..] == due; }
    if i < |due| { assert due[i..][1..] == due[i + 1..]; }
  }

  lemma SignalTimersSame(k: Kernel, id: Id)
    requires id in k.tasks
    ensures Signal(k, id, KSLEEP).timers == k.timers
  {
    hide Posted;
  }

  lemma AddKeys(t: Timers, ev: Id, abs: u32)
    requires Known(t) && ev in t.events
    ensures Add(t, ev, abs).events.Keys == t.events.Keys
  {
  }

  lemma DelKnown(t: Timers, ev: Id)
    requires Known(t) && ev in t.events
    ensures Known(Del(t, ev)) && ev in Del(t, ev).events
    ensures Del(t, ev).events.Keys == t.events.Keys && Del(t, ev).now == t.now
    ensures CanDel(t, ev) ==> CanAdd(Del(t, ev), ev)
    ensures !CanDel(t, ev) ==> Del(t, ev) == t
  {
    if ev in t.queue { WithoutIndex(t.queue, IndexOf(t.queue, ev)); }
  }
}
