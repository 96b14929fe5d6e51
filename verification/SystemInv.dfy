/** Every step of the running kernel keeps its invariant. */
module SystemInv {
  import opened Word32
  import opened Sequences
  import opened Timer
  import opened Kernel
  import opened Scheduler
  import opened System

  // ----- Steps that leave memory alone -----

  /** Nothing that says who owns what has changed. */
  ghost predicate SameMemory(s: Sys, s': Sys) {
    && s'.k.tasks.Keys == s.k.tasks.Keys && s'.k.idle == s.k.idle && s.k.idle in s.pc && s'.k.idle in s'.pc
    && (forall id :: id in s.k.tasks ==>
      && s'.k.tasks[id].regions == s.k.tasks[id].regions && s'.k.tasks[id].dynamicStruct == s.k.tasks[id].dynamicStruct
      && Reaped(s'.k, id) == Reaped(s.k, id))
    && s'.k.dead == s.k.dead && s'.k.heap == s.k.heap && s'.k.badFrees == s.k.badFrees
    && s'.cleaned == s.cleaned && s'.returned == s.returned
    && (s'.pc[s.k.idle] == s.pc[s.k.idle] || (!s'.pc[s.k.idle].IdleFree? && !s.pc[s.k.idle].IdleFree?))
  }

  lemma MemKept(s: Sys, s': Sys)
    requires MemInv(s) && SameMemory(s, s')
    ensures MemInv(s')
  {
    forall id | id in s'.k.tasks ensures CleanOk(s', id) {
      assert CleanOk(s, id);
    }
    forall id, n ensures Owns(s', id, n) == Owns(s, id, n) {
    }
    forall id, n | Owns(s', id, n) ensures OwnedAddr(s', id, n) in s'.k.heap {
      assert Owns(s, id, n);
    }
    forall id, n, id', n' | Owns(s', id, n) && Owns(s', id', n') && OwnedAddr(s', id, n) == OwnedAddr(s', id', n')
      ensures id == id' && n == n'
    {
      assert Owns(s, id, n) && Owns(s, id', n');
    }
  }

  // ----- The tick and the switch -----

  /** A signal wakes a sleeper whose bit is unmasked, so one that stays asleep still has nothing to wake for. */
  lemma SignalledFits(t: Task, p: Pc, queued: bool, queued': bool, idle: bool, bits: Signals)
    requires Fits(t, p, queued, idle) && (queued' ==> queued)
    ensures Fits(Signalled(t, bits), p, queued', idle)
  {
    if p.Waiting? && t.state == Sleeping && (t.sigSet + bits) * t.sigMask == {} {
      assert (t.sigSet + bits) * p.mask * t.sigMask == (t.sigSet + bits) * t.sigMask * p.mask;
    }
  }

  lemma TickEvents(t: Timers)
    requires FlagsOk(t) && t.firing == [] && Known(t)
    ensures var t' := Finish(Collect(t));
      && t'.events.Keys == t.events.Keys && t'.running == t.running && (t'.queue != [] ==> t.queue != [])
      && forall e :: e in t.events ==> (t'.events[e].queued ==> t.events[e].queued)
  {
  }

  lemma TickInv(s: Sys, s': Sys)
    requires SysInv(s) && s'.pc == s.pc && s'.cleaned == s.cleaned && s'.returned == s.returned && s'.k == Tick(s.k)
    ensures SysInv(s')
  {
    hide SchedInv, Tick, Collect, Finish, Signalled, Fits, CleanOk, FlagsOk;
    TickEffect(s.k);
    TickFlags(s.k.timers);
    TickEvents(s.k.timers);
    forall id | id in s'.k.tasks ensures PcOk(s', id) {
      assert PcOk(s, id);
      SignalledFits(s.k.tasks[id], s.pc[id], s.k.timers.events[id].queued, s'.k.timers.events[id].queued,
        id == s.k.idle, KSLEEP);
      FewerQueued(s.k.tasks[id], s.pc[id], s.k.timers.events[id].queued, s'.k.timers.events[id].queued, id == s.k.idle);
    }
    SignalledMemory(s, s');
    MemKept(s, s');
  }

  lemma FewerQueued(t: Task, p: Pc, queued: bool, queued': bool, idle: bool)
    requires Fits(t, p, queued, idle) && (queued' ==> queued)
    ensures Fits(t, p, queued', idle)
  {
  }

  /** Signals move no task on or off the dying list. */
  lemma SignalledMemory(s: Sys, s': Sys)
    requires s'.k.tasks.Keys == s.k.tasks.Keys && s'.pc == s.pc && s'.cleaned == s.cleaned && s'.returned == s.returned
    requires s'.k.idle == s.k.idle && s.k.idle in s.pc
    requires s'.k.dying == s.k.dying && s'.k.dead == s.k.dead && s'.k.heap == s.k.heap && s'.k.badFrees == s.k.badFrees
    requires forall id :: id in s.k.tasks ==>
      s'.k.tasks[id] == s.k.tasks[id] || s'.k.tasks[id] == Signalled(s.k.tasks[id], KSLEEP)
    ensures SameMemory(s, s')
  {
  }

  predicate OnlySwitched(t: Task, t': Task) {
    t' == t || ((t.state == Ready || t.state == Running) && (t' == t.(state := Ready) || t' == t.(state := Running)))
  }

  lemma SelectTasks(k: Kernel, id: Id)
    requires SchedInv(k) && (k.active != [] ==> k.active[0] in k.tasks) && id in k.tasks
    ensures id in Choose(k).tasks && OnlySwitched(k.tasks[id], Choose(k).tasks[id])
  {
    assert TaskOk(k, id) && TaskOk(k, k.idle);
    if k.dyingCount == 0 && k.active != [] {
      var h := k.active[0];
      assert h in k.active && TaskOk(k, h);
      ChooseHeadEffect(k);
      hide Choose;
    }
  }

  lemma SelectRest(k: Kernel)
    requires k.current in k.tasks && k.idle in k.tasks && (k.active != [] ==> k.active[0] in k.tasks)
    ensures var k', c := Select(k), Choose(k);
      && k'.tasks == c.tasks && k'.tasks.Keys == k.tasks.Keys
      && k'.dying == k.dying && k'.dead == k.dead && k'.idle == k.idle
      && k'.heap == k.heap && k'.badFrees == k.badFrees && k'.timers == TaskCount(k.timers, Wrap(k.activeCount))
  {
  }

  lemma SchedBasics(k: Kernel)
    requires SchedInv(k)
    ensures k.current in k.tasks && k.idle in k.tasks
  {
  }

  lemma SwitchedFits(t: Task, t': Task, p: Pc, queued: bool, idle: bool)
    requires Fits(t, p, queued, idle) && OnlySwitched(t, t')
    ensures Fits(t', p, queued, idle)
  {
  }

  lemma SwitchInv(s: Sys, s': Sys)
    requires SysInv(s) && (s.k.active != [] ==> s.k.active[0] in s.k.tasks)
    requires s'.pc == s.pc && s'.cleaned == s.cleaned && s'.returned == s.returned && s'.k == Select(s.k)
    ensures SysInv(s')
  {
    hide Select, SchedInv, Choose, Fits, CleanOk, FlagsOk;
    SchedBasics(s.k);
    SelectKeeps(s.k);
    SelectRest(s.k);
    forall id | id in s'.k.tasks ensures PcOk(s', id) && OnlySwitched(s.k.tasks[id], s'.k.tasks[id]) {
      assert PcOk(s, id);
      SelectTasks(s.k, id);
      SwitchedFits(s.k.tasks[id], s'.k.tasks[id], s.pc[id], s.k.timers.events[id].queued, id == s.k.idle);
    }
    TaskCountFlags(s.k.timers, Wrap(s.k.activeCount));
    MemKept(s, s');
  }

  lemma TaskCountFlags(t: Timers, n: u32)
    requires Timer.Inv(t)
    ensures Timer.Inv(TaskCount(t, n)) && Timer.Inv(Idle(t))
  {
  }

  // ----- Steps that concern one task -----

  /** Only task `c`, its place and its event may differ. */
  ghost predicate OnlyTask(s: Sys, s': Sys, c: Id) {
    && c in s.k.tasks && s'.k.idle == s.k.idle
    && s'.pc.Keys == s.pc.Keys
    && s'.k.tasks.Keys == s.k.tasks.Keys == s.pc.Keys == s.k.timers.events.Keys == s'.k.timers.events.Keys
    && forall id :: id in s.k.tasks && id != c ==>
      && s'.k.tasks[id] == s.k.tasks[id] && s'.pc[id] == s.pc[id]
      && s'.k.timers.events[id].queued == s.k.timers.events[id].queued
  }

  lemma LocalPc(s: Sys, s': Sys, c: Id)
    requires PcInv(s) && OnlyTask(s, s', c)
    requires Fits(s'.k.tasks[c], s'.pc[c], s'.k.timers.events[c].queued, c == s.k.idle)
    ensures PcInv(s')
  {
    hide Fits;
    forall id | id in s'.k.tasks ensures PcOk(s', id) {
      assert PcOk(s, id);
    }
  }

  /** A step that changes one task, its place and its event, and no memory. */
  lemma LocalInv(s: Sys, s': Sys, c: Id)
    requires SysInv(s) && SchedInv(s'.k) && TimersOk(s') && OnlyTask(s, s', c) && s.k.idle in s.pc
    requires Fits(s'.k.tasks[c], s'.pc[c], s'.k.timers.events[c].queued, c == s.k.idle)
    requires s'.k.dying == s.k.dying && s'.k.dead == s.k.dead && s'.k.heap == s.k.heap && s'.k.badFrees == s.k.badFrees
    requires s'.cleaned == s.cleaned && s'.returned == s.returned
    requires var t, t' := s.k.tasks[c], s'.k.tasks[c];
      t'.onDying == t.onDying && t'.regions == t.regions && t'.dynamicStruct == t.dynamicStruct
    requires s'.pc[s.k.idle] == s.pc[s.k.idle] || (!s'.pc[s.k.idle].IdleFree? && !s.pc[s.k.idle].IdleFree?)
    ensures SysInv(s')
  {
    hide SchedInv, CleanOk, Fits, FlagsOk;
    LocalPc(s, s', c);
    MemKept(s, s');
  }

  /** The current task, not the idle task, moves on without touching the kernel. */
  lemma GotoInv(s: Sys, p: Pc)
    requires SysInv(s) && s.k.current != s.k.idle && s.k.current in s.k.tasks && s.k.current in s.k.timers.events
    requires Fits(s.k.tasks[s.k.current], p, s.k.timers.events[s.k.current].queued, false)
    ensures SysInv(Goto(s, p))
  {
    hide SchedInv, CleanOk, Fits, FlagsOk;
    LocalInv(s, Goto(s, p), s.k.current);
  }

  /** A task that is executing has been started, and is asleep or dying only where its program says so. */
  lemma CurrentFits(s: Sys)
    requires SysInv(s)
    ensures s.k.current in s.k.tasks && s.k.current in s.pc && s.k.current in s.k.timers.events
    ensures Fits(s.k.tasks[s.k.current], s.pc[s.k.current], s.k.timers.events[s.k.current].queued,
      s.k.current == s.k.idle)
    ensures s.k.tasks[s.k.current].state != Unstarted && !s.k.timers.events[s.k.current].active
    ensures s.k.tasks[s.k.current].onDying <==> s.k.tasks[s.k.current].state == Dying
  {
    hide CleanOk, Fits;
    assert PcOk(s, s.k.current) && TaskOk(s.k, s.k.current);
  }

  lemma PostInv(s: Sys, s': Sys, id: Id, bits: Signals)
    requires SysInv(s) && id in s.k.tasks && s' == s.(k := Signal(s.k, id, bits))
    ensures SysInv(s')
  {
    hide SchedInv, CleanOk, Fits, FlagsOk, Signal, Signalled;
    assert PcOk(s, id);
    SignalKeeps(s.k, id, bits);
    SignalEffect(s.k, id, bits);
    SignalledFits(s.k.tasks[id], s.pc[id], s.k.timers.events[id].queued, s.k.timers.events[id].queued,
      id == s.k.idle, bits);
    SignalledDying(s.k.tasks[id], bits);
    LocalInv(s, s', id);
  }

  lemma SignalledDying(t: Task, bits: Signals)
    ensures var t' := Signalled(t, bits);
      t'.onDying == t.onDying && t'.regions == t.regions && t'.dynamicStruct == t.dynamicStruct
  {
  }

  lemma StartInv(s: Sys, s': Sys, id: Id)
    requires SysInv(s) && id in s.k.tasks && id != s.k.idle && s.k.tasks[id].state != Dying
    requires s' == s.(k := SetState(s.k, id, Ready))
    ensures SysInv(s')
  {
    hide CleanOk, FlagsOk, SetState, SchedInv, Fits;
    assert PcOk(s, id);
    StartEffect(s.k, id);
    StartFits(s.k.tasks[id], s.k.tasks[id].(state := Ready, onActive := true), s.pc[id],
      s.k.timers.events[id].queued, id == s.k.idle);
    LocalInv(s, s', id);
  }

  lemma StartEffect(k: Kernel, id: Id)
    requires SchedInv(k) && id in k.tasks && id != k.idle && k.tasks[id].state != Dying
    ensures var k' := SetState(k, id, Ready);
      && SchedInv(k') && OnlyTasks(k, k') && k'.tasks == k.tasks[id := k.tasks[id].(state := Ready, onActive := true)]
  {
    assert TaskOk(k, id) && TaskOk(k, k.idle);
    if k.tasks[id].state == Ready {
      assert k.tasks == k.tasks[id := k.tasks[id].(state := Ready, onActive := true)];
    } else {
      ToReady(k, id);
    }
  }

  lemma StartFits(t: Task, t': Task, p: Pc, queued: bool, idle: bool)
    requires Fits(t, p, queued, idle) && t.state != Dying && t' == t.(state := Ready, onActive := true)
    ensures Fits(t', p, queued, idle)
  {
  }

  lemma ChangeMaskInv(s: Sys, s': Sys, keep: Signals, add: Signals)
    requires SysInv(s) && UserTurn(s) && s.k.current in s.k.tasks && s' == s.(k := SetMask(s.k, keep, add))
    ensures SysInv(s')
  {
    hide SchedInv, CleanOk, FlagsOk;
    var c := s.k.current;
    CurrentFits(s);
    WordsOnly(s.k, c, s'.k.tasks[c]);
    LocalInv(s, s', c);
  }

  lemma MakeTaskInv(s: Sys, s': Sys, id: Id, r: Regions, d: bool)
    requires SysInv(s) && FreshOwner(s, id, r, d)
    requires s' == s.(k := Create(s.k, id, r, d), pc := s.pc[id := User],
      cleaned := s.cleaned[id := 0], returned := s.returned[id := []])
    ensures SysInv(s')
  {
    hide SchedInv, CleanOk, Fits, FlagsOk;
    CreateKeeps(s.k, id, r, d);
    MakeTimers(s, s', id, r, d);
    MakePc(s, s', id, r, d);
    MakeMemory(s, s', id, r, d);
  }

  lemma MakeTimers(s: Sys, s': Sys, id: Id, r: Regions, d: bool)
    requires TimersOk(s) && id !in s.k.tasks && s'.k == Create(s.k, id, r, d)
    ensures TimersOk(s')
  {
  }

  lemma MakePc(s: Sys, s': Sys, id: Id, r: Regions, d: bool)
    requires SysInv(s) && id !in s.k.tasks && s'.k == Create(s.k, id, r, d) && s'.pc == s.pc[id := User]
    ensures PcInv(s')
  {
    hide CleanOk, FlagsOk, TaskOk;
    assert id != s.k.idle;
    forall x | x in s'.k.tasks ensures PcOk(s', x) {
      if x != id { assert PcOk(s, x); }
    }
  }

  lemma MakeMemory(s: Sys, s': Sys, id: Id, r: Regions, d: bool)
    requires MemInv(s) && SchedInv(s.k) && FreshOwner(s, id, r, d)
    requires s' == s.(k := Create(s.k, id, r, d), pc := s.pc[id := User],
      cleaned := s.cleaned[id := 0], returned := s.returned[id := []])
    ensures MemInv(s')
  {
    forall x | x in s'.k.tasks ensures CleanOk(s', x) {
      if x != id { assert CleanOk(s, x); }
    }
    forall x, n | Owns(s', x, n) ensures OwnedAddr(s', x, n) in s'.k.heap {
      if x != id { assert Owns(s, x, n); }
    }
    forall x, n, x', n' | Owns(s', x, n) && Owns(s', x', n') && OwnedAddr(s', x, n) == OwnedAddr(s', x', n')
      ensures x == x' && n == n'
    {
      if x != id { assert Owns(s, x, n); }
      if x' != id { assert Owns(s, x', n'); }
    }
  }

  lemma HeapInv(s: Sys, s': Sys, heap: set<int>)
    requires SysInv(s) && s' == s.(k := s.k.(heap := heap))
    requires forall id, n :: Owns(s, id, n) ==> OwnedAddr(s, id, n) in heap
    ensures SysInv(s')
  {
    hide TaskOk, Fits, FlagsOk;
    SameSched(s.k, s'.k);
    forall id | id in s.k.tasks ensures PcOk(s', id) && CleanOk(s', id) {
      assert PcOk(s, id) && CleanOk(s, id);
    }
    forall id, n ensures Owns(s', id, n) == Owns(s, id, n) {
    }
    forall id, n | Owns(s', id, n) ensures OwnedAddr(s', id, n) in heap {
      assert Owns(s, id, n);
    }
    forall id, n, id', n' | Owns(s', id, n) && Owns(s', id', n') && OwnedAddr(s', id, n) == OwnedAddr(s', id', n')
      ensures id == id' && n == n'
    {
      assert Owns(s, id, n) && Owns(s, id', n');
    }
  }

  // ----- The current task's next region -----

  lemma DelSleepInv(s: Sys, s': Sys, p: Pc)
    requires SysInv(s) && s.k.current != s.k.idle && s.k.current in s.k.timers.events && s' == Goto(DelSleep(s), p)
    requires s.pc[s.k.current].Deleting? || s.pc[s.k.current] == ExitDel
    requires p.Reading? || p == ExitDie
    ensures SysInv(s')
  {
    hide SchedInv, CleanOk, Fits, FlagsOk, Del;
    var c := s.k.current;
    CurrentFits(s);
    DelFlags(s.k.timers, c);
    DelEvents(s.k.timers, c);
    SameSched(s.k, s'.k);
    MovedOn(s.k.tasks[c], s.pc[c], p, s.k.timers.events[c].queued, false);
    LocalInv(s, s', c);
  }

  lemma DelEvents(t: Timers, ev: Id)
    requires FlagsOk(t) && ev in t.events && !t.events[ev].active
    ensures var t' := Del(t, ev);
      && t'.events.Keys == t.events.Keys && !t'.events[ev].queued && t'.firing == t.firing && t'.running == t.running
      && (t'.queue != [] ==> t.queue != [])
      && forall e :: e in t.events && e != ev ==> t'.events[e].queued == t.events[e].queued
  {
    RemovedOne(t.queue, ev);
  }

  lemma AddEvents(t: Timers, ev: Id, abs: u32)
    requires Known(t) && ev in t.events
    ensures var t' := Add(t, ev, abs);
      && t'.events.Keys == t.events.Keys && t'.firing == t.firing && (t'.running || t' == t)
      && forall e :: e in t.events && e != ev ==> t'.events[e].queued == t.events[e].queued
  {
  }

  /** The places of a task that is neither asleep, dying nor unstarted, and what each says of its event. */
  lemma MovedOn(t: Task, p: Pc, p': Pc, queued: bool, queued': bool)
    requires Fits(t, p, queued, false) && t.state != Unstarted && !p.Waiting? && p != Exited
    requires !IdlePc(p') && p' != Exited && (queued' ==> !p'.Reading? && !p'.Adding? && p' != ExitDie)
    ensures Fits(t, p', queued', false)
  {
  }

  lemma AddSleepInv(s: Sys, s': Sys, abs: u32, due: int, p: Pc)
    requires SysInv(s) && s.k.current != s.k.idle && s.k.current in s.k.timers.events && Known(s.k.timers)
    requires s' == Goto(AddSleep(s, abs, due), p) && s.pc[s.k.current].Adding? && (p == User || p.Waiting?)
    ensures SysInv(s')
  {
    hide SchedInv, CleanOk, Fits, FlagsOk, Add;
    var c := s.k.current;
    CurrentFits(s);
    AddFlags(s.k.timers, c, abs);
    AddEvents(s.k.timers, c, abs);
    SameSched(s.k, s'.k);
    MovedOn(s.k.tasks[c], s.pc[c], p, s.k.timers.events[c].queued, s'.k.timers.events[c].queued);
    LocalInv(s, s', c);
  }

  lemma WaitInv(s: Sys, s': Sys, mask: Signals)
    requires SysInv(s) && s.k.current in s.k.tasks && s.k.current in s.pc
    requires s.pc[s.k.current].Waiting? && s.pc[s.k.current].mask == mask
    requires var k' := Wait(s.k, mask);
      s' == if Answered(s.k.tasks[s.k.current], mask) then Goto(s.(k := k'), User) else s.(k := k')
    ensures SysInv(s')
  {
    hide SchedInv, CleanOk, FlagsOk, Wait, Fits, Answered, Waited;
    var c := s.k.current;
    CurrentFits(s);
    WaiterFits(s.k.tasks[c], s.pc[c], s.k.timers.events[c].queued, c == s.k.idle);
    WaitKeeps(s.k, mask);
    WaitEffect(s.k, mask);
    LocalInv(s, s', c);
  }

  lemma WaiterFits(t: Task, p: Pc, queued: bool, idle: bool)
    requires Fits(t, p, queued, idle) && p.Waiting? && t.state != Unstarted
    ensures !idle && t.state != Dying
    ensures Fits(Waited(t, p.mask), if Answered(t, p.mask) then User else p, queued, idle)
    ensures var t' := Waited(t, p.mask);
      t'.onDying == t.onDying && t'.regions == t.regions && t'.dynamicStruct == t.dynamicStruct
  {
  }

  lemma ExitInv(s: Sys, s': Sys)
    requires SysInv(s) && s.k.current in s.k.tasks && s.k.current in s.pc && s.pc[s.k.current] == ExitDie
    requires s' == Goto(s.(k := SetState(s.k, s.k.current, Dying)), Exited)
    ensures SysInv(s')
  {
    hide SchedInv, CleanOk, FlagsOk, SetState;
    var c := s.k.current;
    CurrentFits(s);
    ToDying(s.k);
    DyingEffect(s.k);
    LocalPc(s, s', c);
    MemKept(s, s');
  }

  lemma DyingEffect(k: Kernel)
    requires SchedInv(k) && k.current != k.idle && !k.tasks[k.current].onDying
    ensures var k', c := SetState(k, k.current, Dying), k.current;
      && k'.tasks == k.tasks[c := k.tasks[c].(state := Dying, onActive := false, onDying := true)]
      && k'.dying == k.dying + [c] && k'.dead == k.dead && k'.idle == k.idle && k'.current == c
      && k'.heap == k.heap && k'.badFrees == k.badFrees && k'.timers == k.timers
  {
    assert TaskOk(k, k.current);
  }

  /** Asking for a context switch concerns no invariant. */
  lemma KickInv(s: Sys, s': Sys)
    requires SysInv(s) && s' == s.(k := s.k.(pendsv := true))
    ensures SysInv(s')
  {
    hide SchedInv, CleanOk, Fits, FlagsOk;
    SameSched(s.k, s'.k);
    SchedBasics(s.k);
    assert PcOk(s, s.k.idle);
    LocalInv(s, s', s.k.idle);
  }

  // ----- The idle task -----

  /** The idle task moves on inside its loop, not into or out of a cleanup. */
  lemma IdleGotoInv(s: Sys, p: Pc)
    requires SysInv(s) && s.k.current == s.k.idle && s.k.idle in s.pc
    requires IdlePc(p) && !p.IdleFree? && !s.pc[s.k.idle].IdleFree?
    ensures SysInv(Goto(s, p))
  {
    hide SchedInv, CleanOk, FlagsOk;
    CurrentFits(s);
    LocalInv(s, Goto(s, p), s.k.idle);
  }

  lemma IdleTimerInv(s: Sys, s': Sys)
    requires SysInv(s) && s' == s.(k := s.k.(timers := Idle(s.k.timers)))
    ensures SysInv(s')
  {
    hide SchedInv, CleanOk, Fits;
    SameSched(s.k, s'.k);
    SchedBasics(s.k);
    assert PcOk(s, s.k.idle);
    TaskCountFlags(s.k.timers, 0);
    LocalInv(s, s', s.k.idle);
  }

  lemma {:induction false} ReapInv(s: Sys, s': Sys)
    requires SysInv(s) && s.k.current == s.k.idle && s.k.idle in s.pc && !s.pc[s.k.idle].IdleFree?
    requires s' == s.(k := Reap(s.k))
    ensures SysInv(s')
    decreases |s.k.dying|
  {
    hide SchedInv, TaskOk, Fits, FlagsOk, CleanOk;
    if s.k.dying != [] {
      var s1 := s.(k := ReapOne(s.k));
      ReapOneKeeps(s.k);
      ReapOneMemory(s, s1);
      forall id | id in s1.k.tasks ensures PcOk(s1, id) {
        assert PcOk(s, id);
      }
      ReapInv(s1, s');
    }
  }

  lemma ReapOneMemory(s: Sys, s': Sys)
    requires MemInv(s) && SchedInv(s.k) && s.k.dying != [] && !s.pc[s.k.idle].IdleFree? && s' == s.(k := ReapOne(s.k))
    ensures MemInv(s')
  {
    TailDistinct(s.k.dying);
    forall id | id in s'.k.tasks ensures CleanOk(s', id) {
      assert CleanOk(s, id) && TaskOk(s.k, id);
    }
    SameOwners(s, s');
  }

  /** Same tasks with the same memory and the same progress of their cleanup: the same owners. */
  lemma SameOwners(s: Sys, s': Sys)
    requires MemInv(s) && s'.k.tasks == s.k.tasks && s'.cleaned == s.cleaned && s'.k.heap == s.k.heap
    ensures forall id, n :: Owns(s', id, n) ==> OwnedAddr(s', id, n) in s'.k.heap
    ensures forall id, n, id', n' ::
      Owns(s', id, n) && Owns(s', id', n') && OwnedAddr(s', id, n) == OwnedAddr(s', id', n') ==>
      id == id' && n == n'
  {
    forall id, n ensures Owns(s', id, n) == Owns(s, id, n) {
    }
    forall id, n | Owns(s', id, n) ensures OwnedAddr(s', id, n) in s'.k.heap {
      assert Owns(s, id, n);
    }
    forall id, n, id', n' | Owns(s', id, n) && Owns(s', id', n') && OwnedAddr(s', id, n) == OwnedAddr(s', id', n')
      ensures id == id' && n == n'
    {
      assert Owns(s, id, n) && Owns(s, id', n');
    }
  }
}
