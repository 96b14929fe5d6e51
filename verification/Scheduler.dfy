/** The invariant of the scheduler: flags, counts, lists and states agree. */
module Scheduler {
  import opened Sequences
  import opened Timer
  import opened Kernel

  /** Taken off the dying list by the idle task, and not yet (or never) given back. */
  predicate Reaped(k: Kernel, id: Id)
    requires id in k.tasks
  {
    k.tasks[id].onDying && id !in k.dying
  }

  ghost predicate TaskOk(k: Kernel, id: Id)
    requires id in k.tasks
  {
    var t := k.tasks[id];
    && (t.onActive <==> id in k.active)
    && (t.onActive <==> id != k.idle && (t.state == Ready || t.state == Running))
    && (t.onDying <==> t.state == Dying)
    && (id in k.dying ==> t.onDying)
    && (id in k.dead ==> Reaped(k, id))
    && (id in k.taskList <==> !Reaped(k, id))
    && (t.state == Running ==> id == k.current)
    && (id == k.idle ==> t.state == Ready || t.state == Running)
    && (id == k.current ==> t.state != Unstarted && !Reaped(k, id))
    && (id == k.current && k.dyingCount > 0 ==> id == k.idle || t.state == Dying)
  }

  ghost predicate ListOk(k: Kernel, list: seq<Id>) {
    Distinct(list) && forall id :: id in list ==> id in k.tasks
  }

  ghost predicate SchedInv(k: Kernel) {
    && k.current in k.tasks && k.idle in k.tasks
    && ListOk(k, k.active) && ListOk(k, k.dying) && ListOk(k, k.dead) && ListOk(k, k.taskList)
    && k.activeCount == |k.active| && k.dyingCount == |k.dying|
    && (forall id :: id in k.tasks ==> TaskOk(k, id))
  }

  // ----- State changes -----

  lemma ToReady(k: Kernel, id: Id)
    requires SchedInv(k) && id in k.tasks && id != k.idle && !k.tasks[id].onDying
    requires id == k.current || k.tasks[id].state == Sleeping || k.tasks[id].state == Unstarted
    ensures SchedInv(SetState(k, id, Ready))
  {
    var k' := SetState(k, id, Ready);
    assert TaskOk(k, id);
    if !k.tasks[id].onActive { AppendDistinct(k.active, id); }
    forall x | x in k'.tasks ensures TaskOk(k', x) {
      assert TaskOk(k, x);
    }
  }

  lemma ToSleeping(k: Kernel)
    requires SchedInv(k) && k.current != k.idle && !k.tasks[k.current].onDying
    ensures SchedInv(SetState(k, k.current, Sleeping))
  {
    var id, k' := k.current, SetState(k, k.current, Sleeping);
    assert TaskOk(k, id);
    RemovedOne(k.active, id);
    if id in k.active { assert |Removed(k.active, id)| == |k.active| - 1; }
    forall x | x in k'.tasks ensures TaskOk(k', x) {
      assert TaskOk(k, x);
    }
  }

  lemma ToDying(k: Kernel)
    requires SchedInv(k) && k.current != k.idle && !k.tasks[k.current].onDying
    ensures SchedInv(SetState(k, k.current, Dying))
  {
    var id, k' := k.current, SetState(k, k.current, Dying);
    assert TaskOk(k, id);
    RemovedOne(k.active, id);
    AppendDistinct(k.dying, id);
    if id in k.active { assert |Removed(k.active, id)| == |k.active| - 1; }
    forall x | x in k'.tasks ensures TaskOk(k', x) {
      assert TaskOk(k, x);
    }
  }

  /** Changing a task's signal words or reference count is no business of the scheduler. */
  lemma WordsOnly(k: Kernel, id: Id, t: Task)
    requires SchedInv(k) && id in k.tasks
    requires t.state == k.tasks[id].state && t.onActive == k.tasks[id].onActive && t.onDying == k.tasks[id].onDying
    ensures SchedInv(Update(k, id, t))
  {
    var k' := Update(k, id, t);
    forall x | x in k'.tasks ensures TaskOk(k', x) {
      assert TaskOk(k, x);
    }
  }

  lemma SignalKeeps(k: Kernel, id: Id, bits: Signals)
    requires SchedInv(k) && id in k.tasks
    ensures SchedInv(Signal(k, id, bits))
  {
    hide SetState, Posted;
    RefBalanced(k.tasks[id], bits);
    var k1 := Update(k, id, Posted(k.tasks[id], bits));
    WordsOnly(k, id, Posted(k.tasks[id], bits));
    assert TaskOk(k1, id);
    if k1.tasks[id].state == Sleeping { ToReady(k1, id); }
  }

  lemma WaitKeeps(k: Kernel, mask: Signals)
    requires SchedInv(k) && k.current != k.idle && !k.tasks[k.current].onDying
    ensures SchedInv(Wait(k, mask))
  {
    hide SetState;
    if Answered(k.tasks[k.current], mask) {
      var k1 := SetState(k, k.current, Ready);
      ToReady(k, k.current);
      WordsOnly(k1, k.current, Cleared(k1.tasks[k.current], k.tasks[k.current].sigSet * mask));
    } else {
      ToSleeping(k);
    }
  }

  lemma ChooseIdle(k: Kernel)
    requires SchedInv(k) && (k.dyingCount > 0 || k.active == []) && (k.active != [] ==> k.active[0] in k.tasks)
    ensures SchedInv(Choose(k))
  {
    assert TaskOk(k, k.current) && TaskOk(k, k.idle);
    var k' := Choose(k);
    forall x | x in k'.tasks ensures TaskOk(k', x) {
      assert TaskOk(k, x);
    }
  }

  lemma ChooseHeadEffect(k: Kernel)
    requires k.current in k.tasks && k.idle in k.tasks && k.dyingCount == 0 && k.active != [] && k.active[0] in k.tasks
    ensures var h, c, k' := k.active[0], k.current, Choose(k);
      && k' == k.(tasks := k'.tasks, current := h, active := k.active[1..] + [h])
      && k'.tasks.Keys == k.tasks.Keys
      && k'.tasks[h] == k.tasks[h].(state := Running)
      && (c != h ==>
        k'.tasks[c] == k.tasks[c].(state := if k.tasks[c].state == Running then Ready else k.tasks[c].state))
      && (forall x :: x in k.tasks && x != h && x != c ==> k'.tasks[x] == k.tasks[x])
  {
  }

  lemma ChooseHead(k: Kernel)
    requires SchedInv(k) && k.dyingCount == 0 && k.active != [] && k.active[0] in k.tasks
    ensures SchedInv(Choose(k))
  {
    var h, c, k' := k.active[0], k.current, Choose(k);
    assert h in k.active;
    RotateDistinct(k.active);
    assert TaskOk(k, h) && TaskOk(k, c);
    ChooseHeadEffect(k);
    hide Choose;
    forall x | x in k'.tasks ensures TaskOk(k', x) {
      assert TaskOk(k, x);
    }
  }

  lemma ChooseKeeps(k: Kernel)
    requires SchedInv(k)
    ensures k.active != [] ==> k.active[0] in k.tasks
    ensures SchedInv(Choose(k))
  {
    hide Choose;
    if k.active != [] {
      var h := k.active[0];
      assert h in k.active;
    }
    if k.dyingCount > 0 || k.active == [] { ChooseIdle(k); } else { ChooseHead(k); }
  }

  /** kern_task_select keeps the invariant, through the early exit taken when tasks are dying as well. */
  lemma SelectKeeps(k: Kernel)
    requires SchedInv(k)
    ensures k.active != [] ==> k.active[0] in k.tasks
    ensures SchedInv(Select(k)) && Select(k).tasks[Select(k).current].state == Running
  {
    hide Choose;
    ChooseKeeps(k);
    SameSched(Choose(k), Select(k));
    ChosenRuns(k);
  }

  lemma ChosenRuns(k: Kernel)
    requires k.current in k.tasks && k.idle in k.tasks && (k.active != [] ==> k.active[0] in k.tasks)
    ensures Choose(k).current in Choose(k).tasks && Choose(k).tasks[Choose(k).current].state == Running
  {
  }

  /** The invariant speaks of nothing but the tasks, the lists, the counts and the two special tasks. */
  lemma SameSched(k: Kernel, k': Kernel)
    requires SchedInv(k)
    requires k'.tasks == k.tasks && k'.taskList == k.taskList && k'.active == k.active
    requires k'.dying == k.dying && k'.dead == k.dead
    requires k'.activeCount == k.activeCount && k'.dyingCount == k.dyingCount
    requires k'.current == k.current && k'.idle == k.idle
    ensures SchedInv(k')
  {
    forall x | x in k'.tasks ensures TaskOk(k', x) {
      assert TaskOk(k, x);
    }
  }

  lemma {:induction false} SignalAllKeeps(k: Kernel, ids: seq<Id>)
    requires SchedInv(k) && forall i :: 0 <= i < |ids| ==> ids[i] in k.tasks
    ensures SchedInv(SignalAll(k, ids))
    decreases |ids|
  {
    hide SchedInv, Signal;
    if ids != [] {
      SignalKeeps(k, ids[0], KSLEEP);
      SignalAllKeeps(Signal(k, ids[0], KSLEEP), ids[1..]);
    }
  }

  lemma TickKeeps(k: Kernel)
    requires SchedInv(k) && EventsOwned(k) && k.timers.firing == []
    ensures SchedInv(Tick(k))
  {
    hide SchedInv, SignalAll, Collect, Finish;
    FlagsKnown(k.timers);
    CollectFlags(k.timers);
    var k1 := k.(timers := Collect(k.timers));
    CollectOwned(k);
    FiringOwned(k1);
    SameSched(k, k1);
    SignalAllKeeps(k1, k1.timers.firing);
    var k2 := SignalAll(k1, k1.timers.firing);
    SameSched(k2, Kicked(k2.(timers := Finish(k2.timers))));
  }

  lemma CollectOwned(k: Kernel)
    requires EventsOwned(k) && k.timers.firing == []
    ensures Known(k.timers) && EventsOwned(k.(timers := Collect(k.timers)))
  {
    FlagsKnown(k.timers);
    CollectFlags(k.timers);
  }

  // ----- Creation and reaping -----

  lemma CreateKeeps(k: Kernel, id: Id, regions: Regions, dynamicStruct: bool)
    requires SchedInv(k) && id !in k.tasks
    ensures SchedInv(Create(k, id, regions, dynamicStruct))
  {
    var k' := Create(k, id, regions, dynamicStruct);
    AppendDistinct(k.taskList, id);
    forall x | x in k'.tasks ensures TaskOk(k', x) {
      if x != id { assert TaskOk(k, x); }
    }
  }

  lemma ReapOneKeeps(k: Kernel)
    requires SchedInv(k) && k.dying != [] && k.current == k.idle
    ensures SchedInv(ReapOne(k))
  {
    var k', d := ReapOne(k), k.dying[0];
    assert d in k.dying && TaskOk(k, d);
    TailDistinct(k.dying);
    RemovedOne(k.taskList, d);
    AppendDistinct(k.dead, d);
    forall x | x in k'.tasks ensures TaskOk(k', x) {
      assert TaskOk(k, x);
    }
  }

  lemma {:induction false} ReapKeeps(k: Kernel)
    requires SchedInv(k) && k.current == k.idle
    ensures SchedInv(Reap(k)) && Reap(k).dying == [] && Reap(k).current == k.current
    ensures Reap(k).tasks == k.tasks && Reap(k).timers == k.timers && Reap(k).idle == k.idle
    decreases |k.dying|
  {
    if k.dying != [] {
      ReapOneKeeps(k);
      ReapKeeps(ReapOne(k));
    }
  }

  // ----- What the locked regions do to each task -----

  /** A task after a signal: the bits posted, and awake if one of its bits is unmasked. */
  function Signalled(t: Task, bits: Signals): Task {
    if !Signalable(t) then t
    else if t.state == Sleeping && (t.sigSet + bits) * t.sigMask != {} then
      t.(sigSet := t.sigSet + bits, state := Ready, onActive := true)
    else
      t.(sigSet := t.sigSet + bits)
  }

  /** Everything but the tasks, the run queue and the request to switch is as it was. */
  predicate OnlyTasks(k: Kernel, k': Kernel) {
    k' == k.(tasks := k'.tasks, active := k'.active, activeCount := k'.activeCount, pendsv := k'.pendsv)
  }

  lemma SignalEffect(k: Kernel, id: Id, bits: Signals)
    requires SchedInv(k) && id in k.tasks
    ensures var k' := Signal(k, id, bits);
      && OnlyTasks(k, k') && k'.tasks == k.tasks[id := Signalled(k.tasks[id], bits)]
      && (forall x :: x in k.active ==> x in k'.active)
  {
    hide Ref;
    assert TaskOk(k, id);
    RefBalanced(k.tasks[id], bits);
  }

  lemma {:induction false} SignalAllEffect(k: Kernel, ids: seq<Id>)
    requires SchedInv(k) && Distinct(ids) && forall i :: 0 <= i < |ids| ==> ids[i] in k.tasks
    ensures var k' := SignalAll(k, ids);
      && SchedInv(k') && OnlyTasks(k, k')
      && forall x :: x in k.tasks ==> k'.tasks[x] == if x in ids then Signalled(k.tasks[x], KSLEEP) else k.tasks[x]
    decreases |ids|
  {
    hide SchedInv, Signal, Signalled;
    if ids != [] {
      TailDistinct(ids);
      SignalKeeps(k, ids[0], KSLEEP);
      SignalEffect(k, ids[0], KSLEEP);
      SignalAllEffect(Signal(k, ids[0], KSLEEP), ids[1..]);
    }
  }

  lemma TickEffect(k: Kernel)
    requires SchedInv(k) && EventsOwned(k) && k.timers.firing == []
    ensures Known(k.timers)
    ensures var k', due := Tick(k), Collect(k.timers).firing;
      && SchedInv(k')
      && k' == k.(tasks := k'.tasks, active := k'.active, activeCount := k'.activeCount, pendsv := k'.pendsv,
                  timers := Finish(Collect(k.timers)))
      && k'.tasks.Keys == k.tasks.Keys
      && forall x :: x in k.tasks ==> k'.tasks[x] == if x in due then Signalled(k.tasks[x], KSLEEP) else k.tasks[x]
  {
    hide SchedInv, SignalAll, Collect, Finish, Signalled;
    FlagsKnown(k.timers);
    CollectFlags(k.timers);
    TickKeeps(k);
    var k1 := k.(timers := Collect(k.timers));
    CollectOwned(k);
    FiringOwned(k1);
    SameSched(k, k1);
    SignalAllEffect(k1, k1.timers.firing);
  }

  /** A task after one turn of the loop in kern_task_wait. */
  function Waited(t: Task, mask: Signals): Task {
    if Answered(t, mask) then t.(sigSet := t.sigSet - t.sigSet * mask, state := Ready, onActive := true)
    else t.(state := Sleeping, onActive := false)
  }

  /** A successful wait takes the bits it asked for; an unsuccessful one leaves the task asleep, off the run queue. */
  lemma WaitEffect(k: Kernel, mask: Signals)
    requires SchedInv(k) && k.current != k.idle && !k.tasks[k.current].onDying
    ensures var k', c := Wait(k, mask), k.current; var t := k.tasks[c];
      && OnlyTasks(k, k')
      && (forall x :: x in k.tasks && x != c ==> k'.tasks[x] == k.tasks[x])
      && k'.tasks[c] == Waited(t, mask)
  {
    assert TaskOk(k, k.current);
    if Answered(k.tasks[k.current], mask) { ReadyEffect(k); } else { SleepEffect(k); }
    hide SetState;
  }

  lemma ReadyEffect(k: Kernel)
    requires SchedInv(k) && k.current != k.idle && !k.tasks[k.current].onDying
    ensures var k', c := SetState(k, k.current, Ready), k.current;
      OnlyTasks(k, k') && k'.tasks == k.tasks[c := k.tasks[c].(state := Ready, onActive := true)]
  {
    assert TaskOk(k, k.current);
  }

  lemma SleepEffect(k: Kernel)
    requires SchedInv(k) && k.current != k.idle && !k.tasks[k.current].onDying
    ensures var k', c := SetState(k, k.current, Sleeping), k.current;
      OnlyTasks(k, k') && k'.tasks == k.tasks[c := k.tasks[c].(state := Sleeping, onActive := false)]
  {
    assert TaskOk(k, k.current);
  }
}
