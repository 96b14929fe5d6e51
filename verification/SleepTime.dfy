/** How long a sleep lasts: never shorter than asked, and over at the first tick at or past its deadline. */
module SleepTime {
  import opened Word32
  import opened Sequences
  import opened Timer
  import opened TimerRefinement
  import opened Kernel
  import opened Scheduler
  import opened System
  import opened SystemRuns
  import opened TaskSteps
  import opened SignalRuns

  /** What KSLEEP was when the sleep's old event was deleted, it still is until the new event fires. */
  predicate InfoOk(info: Sleep, sigs: Signals, b: Bounds) {
    info.msec <= b.delay && (info.clean ==> KSLEEP !! sigs) && (!info.clean ==> KSLEEP <= sigs)
  }

  /** What a task's place says about its sleep event, its KSLEEP bit and the time. */
  predicate SleepFits(p: Pc, sigs: Signals, queued: bool, due: seq<Timed>, elapsed: int, id: Id, b: Bounds) {
    match p
    case Deleting(msec, _) => msec <= b.delay
    case Reading(msec, _, clean) => InfoOk(Sleep(elapsed, msec, clean), sigs, b)
    case Adding(abs, _, info) =>
      abs == Clock(info.readAt + info.msec) && info.readAt <= elapsed && InfoOk(info, sigs, b)
    case Waiting(mask, sleep, info) =>
      sleep ==> (mask == KSLEEP && (if queued then Timed(id, info.readAt + info.msec) in due && InfoOk(info, sigs, b)
                                    else KSLEEP <= sigs && elapsed >= info.readAt + info.msec))
    case _ => true
  }

  ghost predicate SleepOk(s: Sys, id: Id, b: Bounds)
    requires id in s.k.tasks && id in s.pc && id in s.k.timers.events
  {
    SleepFits(s.pc[id], s.k.tasks[id].sigSet, s.k.timers.events[id].queued, s.i.pending, s.i.elapsed, id, b)
  }

  ghost predicate TimeInv(s: Sys, b: Bounds) {
    && Refines(s.k.timers, s.i, b) && BoundsOk(b, s.k.timers.interval)
    && s.pc.Keys == s.k.tasks.Keys == s.k.timers.events.Keys
    && forall id :: id in s.k.tasks ==> SleepOk(s, id, b)
  }

  /**
   * The runs the timing claims are about: delays and the gap between reading the clock and taking the
   * timer lock are within bounds, and nobody but the sleep timer posts KSLEEP.
   */
  predicate Polite(s: Sys, step: Step, b: Bounds) {
    match step
    case CallSleep(msec) => msec <= b.delay
    case CallTimer(msec) => msec <= b.delay
    case Post(_, bits) => KSLEEP !! bits
    case RunStep => s.k.current in s.pc && s.pc[s.k.current].Adding? ==>
      s.i.elapsed - s.pc[s.k.current].info.readAt <= b.late
    case _ => true
  }

  // ----- The clocks -----

  lemma RefinesSame(t: Timers, t': Timers, i: Ideal, b: Bounds)
    requires Refines(t, i, b) && t'.now == t.now && t'.queue == t.queue
    requires forall e :: e in t.queue ==> e in t'.events && e in t.events && t'.events[e].tick == t.events[e].tick
    ensures Refines(t', i, b)
  {
    forall j | 0 <= j < |i.pending|
      ensures t'.queue[j] in t'.events && t'.events[t'.queue[j]].tick == Clock(i.pending[j].due)
    {
      var e := t.queue[j];
      assert e in t.queue;
    }
  }

  lemma GoRefines(s: Sys, b: Bounds)
    requires SysInv(s) && WellFormed(s) && TimeInv(s, b) && Polite(s, RunStep, b)
    ensures Refines(Go(s).k.timers, Go(s).i, b)
  {
    hide SchedInv, MemInv, PcInv, Wait, SetState, Answered, Del, Add, Reap, FlagsOk, Refines, Clock;
    InvKnown(s);
    var c, t := s.k.current, s.k.timers;
    assert SleepOk(s, c, b);
    ReapSame(s.k);
    FlagsKnown(t);
    match s.pc[c]
    case Deleting(_, _) => DelRefines(t, s.i, b, c);
    case ExitDel => DelRefines(t, s.i, b, c);
    case Adding(abs, _, info) => AddRefines(t, s.i, b, c, info.readAt + info.msec);
    case IdleTimer => RefinesSame(t, Idle(t), s.i, b);
    case IdleFree(id, n) => ForgetRefines(s, id, n, b);
    case Waiting(mask, _, _) => WaitTimers(s.k, mask);
    case ExitDie => SetStateTimers(s.k, c, Dying);
    case _ =>
  }

  lemma ForgetRefines(s: Sys, id: Id, n: nat, b: Bounds)
    requires SysInv(s) && WellFormed(s) && TimeInv(s, b) && s.pc[s.k.current] == IdleFree(id, n)
    ensures Refines(Go(s).k.timers, s.i, b) && Go(s).i == s.i
  {
    hide SysInv, EventsOwned, Refines, CleanSlot, CleanStruct;
    CleaningQueue(s, id);
    SysKeys(s);
    if n < REGIONS {
      CleanSlotEffect(s, id, n);
    } else {
      CleanStructEffect(s, id);
      CleanStructTimers(s, id);
      QueueInEvents(s);
      RefinesSame(s.k.timers, CleanStruct(s, id).k.timers, s.i, b);
    }
  }

  lemma CleanStructTimers(s: Sys, id: Id)
    requires id in s.k.tasks
    ensures var t, t' := s.k.timers, CleanStruct(s, id).k.timers;
      t'.now == t.now && t'.queue == t.queue && t.events.Keys - {id} <= t'.events.Keys
  {
  }

  lemma QueueInEvents(s: Sys)
    requires WellFormed(s)
    ensures forall e :: e in s.k.timers.queue ==> e in s.k.timers.events
  {
  }

  lemma CleaningQueue(s: Sys, id: Id)
    requires SysInv(s) && id in s.k.tasks && s.k.current in s.pc && s.pc[s.k.current].IdleFree?
    requires s.pc[s.k.current].id == id
    ensures id !in s.k.timers.queue
  {
    IdleIsCurrent(s);
    CleaningReaped(s, id);
    assert TaskOk(s.k, id) && PcOk(s, id);
  }

  // ----- The sleepers -----

  /** Time passing, other events coming and going, and signals other than KSLEEP change nothing for a sleep. */
  lemma SleepUndisturbed(p: Pc, sigs: Signals, sigs': Signals, queued: bool, due: seq<Timed>, due': seq<Timed>,
                         elapsed: int, elapsed': int, id: Id, b: Bounds)
    requires SleepFits(p, sigs, queued, due, elapsed, id, b)
    requires elapsed <= elapsed' && (p.Reading? ==> elapsed == elapsed' || sigs == sigs')
    requires sigs <= sigs' && (KSLEEP !! sigs ==> KSLEEP !! sigs')
    requires queued ==> forall d :: Timed(id, d) in due ==> Timed(id, d) in due'
    ensures SleepFits(p, sigs', queued, due', elapsed', id, b)
  {
  }

  /** A step that is not the task's own, nor a tick. */
  lemma OthersStep(s: Sys, s': Sys, id: Id, b: Bounds)
    requires TimeInv(s, b) && id in s.k.tasks && id in s'.k.tasks && id in s'.pc && id in s'.k.timers.events
    requires s'.pc[id] == s.pc[id] && s'.i.elapsed == s.i.elapsed
    requires s.k.tasks[id].sigSet <= s'.k.tasks[id].sigSet
    requires KSLEEP !! s.k.tasks[id].sigSet ==> KSLEEP !! s'.k.tasks[id].sigSet
    requires s'.k.timers.events[id].queued == s.k.timers.events[id].queued
    requires forall d :: Timed(id, d) in s.i.pending ==> Timed(id, d) in s'.i.pending
    ensures SleepOk(s', id, b)
  {
    hide SleepFits, Refines;
    assert SleepOk(s, id, b);
    SleepUndisturbed(s.pc[id], s.k.tasks[id].sigSet, s'.k.tasks[id].sigSet, s.k.timers.events[id].queued,
      s.i.pending, s'.i.pending, s.i.elapsed, s'.i.elapsed, id, b);
  }

  lemma IdealDelKeeps(i: Ideal, ev: Id, id: Id, d: int)
    requires id != ev && Timed(id, d) in i.pending
    ensures Timed(id, d) in IdealDel(i, ev).pending
  {
    var k := IndexOf(Ids(i.pending), ev);
    if k < |i.pending| {
      var j :| 0 <= j < |i.pending| && i.pending[j] == Timed(id, d);
      WithoutIndex(i.pending, k);
      assert Without(i.pending, k)[if j < k then j else j - 1] == Timed(id, d);
    }
  }

  lemma TickSleep(s: Sys, s': Sys, id: Id, b: Bounds)
    requires SysInv(s) && TimeInv(s, b) && id in s.k.tasks && EventsOwned(s.k) && s.k.timers.firing == []
    requires s'.pc == s.pc && s'.k == Tick(s.k) && s'.i == IdealTick(s.i, s.k.timers.interval)
    requires id in s'.k.tasks && id in s'.k.timers.events
    ensures SleepOk(s', id, b)
  {
    hide SchedInv, MemInv, Refines, Tick, Collect, Finish, FlagsOk, TimersOk;
    var t, t', p := s.k.tasks[id], s.k.timers, s.pc[id];
    assert SleepOk(s, id, b) && PcOk(s, id);
    TickEffect(s.k);
    if t'.events[id].queued {
      if p.Waiting? && p.sleep {
        TickDecides(t', s.i, b, id, p.info.readAt + p.info.msec);
      }
    } else {
      NotQueued(t', id);
      TickIgnores(t', id);
    }
  }

  // ----- The sleeper's own steps -----

  lemma OwnStep(s: Sys, b: Bounds)
    requires SysInv(s) && WellFormed(s) && TimeInv(s, b) && !IdlePc(s.pc[s.k.current])
    requires s.k.current in Go(s).k.tasks && s.k.current in Go(s).pc && s.k.current in Go(s).k.timers.events
    ensures SleepOk(Go(s), s.k.current, b)
  {
    hide SysInv, WellFormed, Go, TimeInv, SleepOk;
    CurrentKnown(s);
    var p := s.pc[s.k.current];
    if p.Deleting? || p == ExitDel {
      OwnDel(s, b);
    } else if p.Adding? {
      OwnAdd(s, b);
    } else if p.Reading? {
      OwnRead(s, b);
    } else {
      OwnRest(s, b);
    }
  }

  lemma OwnDel(s: Sys, b: Bounds)
    requires SysInv(s) && WellFormed(s) && TimeInv(s, b)
    requires s.pc[s.k.current].Deleting? || s.pc[s.k.current] == ExitDel
    requires s.k.current in Go(s).k.tasks && s.k.current in Go(s).pc && s.k.current in Go(s).k.timers.events
    ensures SleepOk(Go(s), s.k.current, b)
  {
    hide SysInv, WellFormed, Refines, Go, Del, IdealDel;
    CurrentKnown(s);
    var c := s.k.current;
    assert SleepOk(s, c, b);
    GoDel(s);
    IdealDelTime(s.i, c);
    ClearOrSet(s.k.tasks[c].sigSet);
  }

  lemma OwnAdd(s: Sys, b: Bounds)
    requires SysInv(s) && WellFormed(s) && TimeInv(s, b) && s.pc[s.k.current].Adding?
    requires s.k.current in Go(s).k.tasks && s.k.current in Go(s).pc && s.k.current in Go(s).k.timers.events
    ensures SleepOk(Go(s), s.k.current, b)
  {
    hide SysInv, WellFormed, Refines, Go, Clock, Add, IdealAdd, InfoOk;
    CurrentKnown(s);
    var c, p := s.k.current, s.pc[s.k.current];
    assert SleepOk(s, c, b);
    GoAdd(s);
    IdealAddKeeps(s.i, c, p.info.readAt + p.info.msec);
    AddQueues(s.k.timers, c, p.info.readAt + p.info.msec);
  }

  lemma OwnRead(s: Sys, b: Bounds)
    requires SysInv(s) && WellFormed(s) && TimeInv(s, b) && s.pc[s.k.current].Reading?
    requires s.k.current in Go(s).k.tasks && s.k.current in Go(s).pc && s.k.current in Go(s).k.timers.events
    ensures SleepOk(Go(s), s.k.current, b)
  {
    hide SysInv, WellFormed, Refines, Go, Clock, InfoOk;
    CurrentKnown(s);
    assert SleepOk(s, s.k.current, b);
    GoRead(s);
    ReadClock(s, b, s.pc[s.k.current].msec);
  }

  lemma OwnRest(s: Sys, b: Bounds)
    requires SysInv(s) && WellFormed(s) && TimeInv(s, b) && !IdlePc(s.pc[s.k.current])
    requires var p := s.pc[s.k.current]; !p.Deleting? && p != ExitDel && !p.Adding? && !p.Reading?
    requires s.k.current in Go(s).k.tasks && s.k.current in Go(s).pc && s.k.current in Go(s).k.timers.events
    ensures SleepOk(Go(s), s.k.current, b)
  {
    hide SysInv, WellFormed, Refines, Go, Answered, InfoOk;
    CurrentKnown(s);
    assert SleepOk(s, s.k.current, b);
    OwnWords(s);
    GoRest(s);
  }

  lemma ClearOrSet(sigs: Signals)
    ensures KSLEEP !! sigs || KSLEEP <= sigs
  {
  }

  lemma ReadClock(s: Sys, b: Bounds, msec: u32)
    requires Refines(s.k.timers, s.i, b)
    ensures Wrap(msec as int + s.k.timers.now) == Clock(s.i.elapsed + msec)
  {
    ClockAdvances(s.i.elapsed, msec);
  }

  lemma AddQueues(t: Timers, ev: Id, due: int)
    requires Known(t) && ev in t.events
    ensures CanAdd(t, ev) ==> ev in Add(t, ev, Clock(due)).events && Add(t, ev, Clock(due)).events[ev].queued
  {
  }

  /** No region but a successful wait takes signals from the task that runs it, and none posts any. */
  lemma OwnWords(s: Sys)
    requires SysInv(s) && WellFormed(s) && !IdlePc(s.pc[s.k.current]) && s.k.current in Go(s).k.tasks
    ensures var c := s.k.current; var t, t', p := s.k.tasks[c], Go(s).k.tasks[c], s.pc[c];
      !(p.Waiting? && Answered(t, p.mask)) ==> t'.sigSet == t.sigSet
  {
    hide SysInv, EventsOwned, Go, Answered;
    TaskBecomes(s, s.k.current);
  }

  lemma OthersOnGo(s: Sys, id: Id, b: Bounds)
    requires SysInv(s) && WellFormed(s) && TimeInv(s, b) && id in s.k.tasks && id != s.k.current
    requires id in Go(s).k.tasks && id in Go(s).pc && id in Go(s).k.timers.events
    ensures SleepOk(Go(s), id, b)
  {
    hide SysInv, Refines, SleepFits, Go;
    if IdlePc(s.pc[s.k.current]) {
      IdleBecomes(s, id);
      IdleElsewhere(s, id);
    } else {
      TaskBecomes(s, id);
      TaskElsewhere(s, id);
    }
    OthersStep(s, Go(s), id, b);
  }

  /** A region has left task `id`'s place, event and deadline alone. */
  ghost predicate LeftAlone(s: Sys, s': Sys, id: Id)
    requires id in s.pc && id in s'.pc && id in s.k.timers.events && id in s'.k.timers.events
  {
    && s'.pc[id] == s.pc[id] && s'.i.elapsed == s.i.elapsed
    && s'.k.timers.events[id].queued == s.k.timers.events[id].queued
    && forall d :: Timed(id, d) in s.i.pending ==> Timed(id, d) in s'.i.pending
  }

  lemma IdleElsewhere(s: Sys, id: Id)
    requires WellFormed(s) && IdlePc(s.pc[s.k.current]) && id in s.pc && id in s.k.timers.events && id != s.k.current
    requires id in Go(s).pc && id in Go(s).k.timers.events
    ensures LeftAlone(s, Go(s), id)
  {
    hide WellFormed, Go;
    IdleEffect(s);
  }

  lemma TaskElsewhere(s: Sys, id: Id)
    requires SysInv(s) && WellFormed(s) && !IdlePc(s.pc[s.k.current]) && id in s.pc
    requires id in s.k.timers.events && id != s.k.current
    requires id in Go(s).pc && id in Go(s).k.timers.events
    ensures LeftAlone(s, Go(s), id)
  {
    hide SysInv, WellFormed, Go, DelSleep, AddSleep, Clock;
    CurrentKnown(s);
    var p := s.pc[s.k.current];
    if p.Deleting? || p == ExitDel {
      GoDel(s);
      DelElsewhere(s, id);
    } else if p.Adding? {
      GoAdd(s);
      AddElsewhere(s, id, p.abs, p.info.readAt + p.info.msec);
    } else if p.Reading? {
      GoRead(s);
    } else {
      GoRest(s);
    }
  }

  lemma AddElsewhere(s: Sys, id: Id, abs: u32, due: int)
    requires id != s.k.current && s.k.current in s.k.timers.events && Known(s.k.timers) && id in s.k.timers.events
    ensures var s' := AddSleep(s, abs, due);
      && s'.k.current == s.k.current && s'.pc == s.pc && s'.i.elapsed == s.i.elapsed
      && id in s'.k.timers.events && s'.k.timers.events[id].queued == s.k.timers.events[id].queued
      && forall d :: Timed(id, d) in s.i.pending ==> Timed(id, d) in s'.i.pending
  {
    hide IdealAdd;
    IdealAddKeeps(s.i, s.k.current, due);
  }

  lemma DelElsewhere(s: Sys, id: Id)
    requires id != s.k.current && s.k.current in s.k.timers.events && id in s.k.timers.events
    ensures var s' := DelSleep(s);
      && s'.k.current == s.k.current && s'.pc == s.pc && s'.i.elapsed == s.i.elapsed
      && id in s'.k.timers.events && s'.k.timers.events[id].queued == s.k.timers.events[id].queued
      && forall d :: Timed(id, d) in s.i.pending ==> Timed(id, d) in s'.i.pending
  {
    hide IdealDel;
    IdealDelTime(s.i, s.k.current);
    forall d | Timed(id, d) in s.i.pending ensures Timed(id, d) in IdealDel(s.i, s.k.current).pending {
      IdealDelKeeps(s.i, s.k.current, id, d);
    }
  }

  // ----- Every step and every run -----

  lemma GoTime(s: Sys, b: Bounds)
    requires SysInv(s) && WellFormed(s) && TimeInv(s, b) && Polite(s, RunStep, b)
    ensures TimeInv(Go(s), b)
  {
    hide SysInv, SchedInv, MemInv, Refines, SleepOk, Go, Polite;
    var s' := Go(s);
    GoRefines(s, b);
    GoAfter(s);
    forall id | id in s'.k.tasks ensures SleepOk(s', id, b) {
      if id == s.k.current {
        if IdlePc(s.pc[id]) { IdleSleepless(s, b); } else { OwnStep(s, b); }
      } else {
        OthersOnGo(s, id, b);
      }
    }
  }

  lemma GoAfter(s: Sys)
    requires SysInv(s) && WellFormed(s)
    ensures SysInv(Go(s)) && Go(s).k.timers.interval == s.k.timers.interval
    ensures var s' := Go(s);
      && s'.pc.Keys == s'.k.tasks.Keys == s'.k.timers.events.Keys && s'.k.tasks.Keys <= s.k.tasks.Keys
  {
    hide SysInv, Go;
    if IdlePc(s.pc[s.k.current]) { GoIdleInv(s); } else { GoTaskInv(s); }
    GoKeys(s);
    SysKeys(Go(s));
  }

  lemma SysKeys(s: Sys)
    requires SysInv(s)
    ensures s.pc.Keys == s.k.tasks.Keys == s.k.timers.events.Keys
  {
  }

  lemma GoKeys(s: Sys)
    requires WellFormed(s)
    ensures Go(s).k.tasks.Keys <= s.k.tasks.Keys && Go(s).k.timers.interval == s.k.timers.interval
  {
    hide GoIdle, GoTask;
    if IdlePc(s.pc[s.k.current]) { GoIdleKeys(s); } else { GoTaskKeys(s); }
  }

  lemma GoIdleKeys(s: Sys)
    requires WellFormed(s) && IdlePc(s.pc[s.k.current])
    ensures GoIdle(s).k.tasks.Keys <= s.k.tasks.Keys && GoIdle(s).k.timers.interval == s.k.timers.interval
  {
    hide GoIdle;
    IdleEffect(s);
  }

  lemma GoTaskKeys(s: Sys)
    requires WellFormed(s) && !IdlePc(s.pc[s.k.current])
    ensures GoTask(s).k.tasks.Keys <= s.k.tasks.Keys && GoTask(s).k.timers.interval == s.k.timers.interval
  {
    hide FlagsOk, Wait, SetState, Clock;
    if s.pc[s.k.current].Waiting? { WaitTimers(s.k, s.pc[s.k.current].mask); }
    SetStateTimers(s.k, s.k.current, Dying);
  }

  lemma IdleSleepless(s: Sys, b: Bounds)
    requires SysInv(s) && WellFormed(s) && IdlePc(s.pc[s.k.current])
    requires s.k.current in Go(s).k.tasks && s.k.current in Go(s).pc && s.k.current in Go(s).k.timers.events
    ensures SleepOk(Go(s), s.k.current, b)
  {
    hide SysInv, WellFormed, Go;
    IdleEffect(s);
  }

  lemma StepTime(s: Sys, step: Step, b: Bounds)
    requires SysInv(s) && WellFormed(s) && Enabled(s, step) && TimeInv(s, b) && Polite(s, step, b)
    ensures TimeInv(Apply(s, step), b)
  {
    hide SysInv, MemInv, Refines, SleepOk, Go, Tick, Select, Signal, SetState;
    match step
    case TickStep => TickTime(s, Apply(s, step), b);
    case RunStep => GoTime(s, b);
    case MakeTask(id, r, d) => MakeTime(s, Apply(s, step), id, r, d, b);
    case _ => QuietTime(s, step, b);
  }

  lemma TickTime(s: Sys, s': Sys, b: Bounds)
    requires SysInv(s) && TimeInv(s, b) && EventsOwned(s.k) && s.k.timers.firing == []
    requires s' == s.(k := Tick(s.k), i := IdealTick(s.i, s.k.timers.interval))
    ensures TimeInv(s', b)
  {
    hide SchedInv, MemInv, PcInv, Refines, SleepOk, Tick, Collect, Finish, FlagsOk;
    TickEffect(s.k);
    FlagsKnown(s.k.timers);
    TickRefines(s.k.timers, s.i, b);
    TickTimers(s.k.timers);
    forall id | id in s'.k.tasks ensures SleepOk(s', id, b) {
      TickSleep(s, s', id, b);
    }
  }

  lemma TickTimers(t: Timers)
    requires Known(t)
    ensures Finish(Collect(t)).events.Keys == t.events.Keys && Finish(Collect(t)).interval == t.interval
  {
  }

  lemma MakeTime(s: Sys, s': Sys, id: Id, r: Regions, d: bool, b: Bounds)
    requires SysInv(s) && TimeInv(s, b) && id !in s.k.tasks
    requires s'.k == Create(s.k, id, r, d) && s'.pc == s.pc[id := User] && s'.i == s.i
    ensures TimeInv(s', b)
  {
    hide SchedInv, MemInv, PcInv, Refines, SleepFits;
    RefinesSame(s.k.timers, s'.k.timers, s.i, b);
    forall x | x in s'.k.tasks ensures SleepOk(s', x, b) {
      if x != id { assert SleepOk(s, x, b); } else { UserSleepless({}, false, s.i.pending, s.i.elapsed, id, b); }
    }
  }

  lemma UserSleepless(sigs: Signals, queued: bool, due: seq<Timed>, elapsed: int, id: Id, b: Bounds)
    ensures SleepFits(User, sigs, queued, due, elapsed, id, b)
  {
  }

  /** The steps that leave the clock and the queue alone. */
  lemma QuietTime(s: Sys, step: Step, b: Bounds)
    requires SysInv(s) && WellFormed(s) && Enabled(s, step) && TimeInv(s, b) && Polite(s, step, b)
    requires step != TickStep && step != RunStep && !step.MakeTask?
    ensures TimeInv(Apply(s, step), b)
  {
    hide SysInv, MemInv, Refines, SleepFits;
    QuietTimers(s, step);
    var s' := Apply(s, step);
    QuietRefines(s, s', b);
    forall id | id in s'.k.tasks ensures SleepOk(s', id, b) {
      QuietSleep(s, step, id, b);
    }
  }

  predicate Quiet(step: Step) {
    step != TickStep && step != RunStep && !step.MakeTask?
  }

  predicate IsCall(step: Step) {
    step.CallSleep? || step.CallTimer? || step.CallWait? || step.CallExit?
  }

  lemma QuietTimers(s: Sys, step: Step)
    requires SysInv(s) && WellFormed(s) && Enabled(s, step) && Quiet(step)
    ensures var s' := Apply(s, step);
      && s'.i == s.i && s'.k.timers == s.k.timers.(running := s'.k.timers.running)
      && s'.k.tasks.Keys == s.k.tasks.Keys && s'.pc.Keys == s.pc.Keys
      && (forall id :: id in s.pc && !(IsCall(step) && id == s.k.current) ==> s'.pc[id] == s.pc[id])
  {
    hide SysInv, EventsOwned, Choose, Signal, SetState;
    match step
    case SwitchStep => SysKeys(s); SwitchKeys(s.k);
    case Post(id, bits) => SignalTimers(s.k, id, bits);
    case StartTask(id) => SetStateTimers(s.k, id, Ready);
    case _ => CallKeys(s);
  }

  lemma CallKeys(s: Sys)
    requires WellFormed(s)
    ensures s.pc.Keys + {s.k.current} == s.pc.Keys && s.k.tasks.Keys + {s.k.current} == s.k.tasks.Keys
  {
  }

  lemma SwitchKeys(k: Kernel)
    requires k.current in k.tasks && k.idle in k.tasks && (k.active != [] ==> k.active[0] in k.tasks)
    ensures Select(k).tasks.Keys == k.tasks.Keys && Choose(k).timers == k.timers
  {
  }

  lemma SignalTimers(k: Kernel, id: Id, bits: Signals)
    requires id in k.tasks
    ensures Signal(k, id, bits).timers == k.timers
  {
    hide Posted;
  }

  lemma QuietSleep(s: Sys, step: Step, id: Id, b: Bounds)
    requires SysInv(s) && WellFormed(s) && Enabled(s, step) && TimeInv(s, b) && Polite(s, step, b) && Quiet(step)
    requires var s' := Apply(s, step); id in s.k.tasks && id in s'.k.tasks && id in s'.pc && id in s'.k.timers.events
    ensures SleepOk(Apply(s, step), id, b)
  {
    hide SysInv, EventsOwned, Refines, Select, Signal, SetState, SleepFits, WellFormed;
    var s' := Apply(s, step);
    QuietTimers(s, step);
    if IsCall(step) && id == s.k.current {
      CallFits(step, s.k.tasks[id].sigSet, s.k.timers.events[id].queued, s.i.pending, s.i.elapsed, id, b);
    } else {
      StepSignals(s, step, id);
      OthersStep(s, s', id, b);
    }
  }

  /** The places the calls lead to ask nothing of the sleep event but a bounded delay. */
  lemma CallFits(step: Step, sigs: Signals, queued: bool, due: seq<Timed>, elapsed: int, id: Id, b: Bounds)
    requires IsCall(step)
    ensures step.CallSleep? && step.msec <= b.delay ==>
      SleepFits(Deleting(step.msec, true), sigs, queued, due, elapsed, id, b)
    ensures step.CallTimer? && step.msec <= b.delay ==>
      SleepFits(Deleting(step.msec, false), sigs, queued, due, elapsed, id, b)
    ensures step.CallWait? ==>
      SleepFits(Waiting(step.mask, false, Sleep(0, 0, false)), sigs, queued, due, elapsed, id, b)
    ensures SleepFits(ExitDel, sigs, queued, due, elapsed, id, b)
  {
  }

  lemma QuietRefines(s: Sys, s': Sys, b: Bounds)
    requires Refines(s.k.timers, s.i, b) && s'.i == s.i && s'.k.timers == s.k.timers.(running := s'.k.timers.running)
    ensures Refines(s'.k.timers, s'.i, b)
  {
  }

  /** Every step of the run kept to the rules of `Polite`. */
  ghost predicate PoliteRun(s: Sys, steps: seq<Step>, b: Bounds)
    requires Runs(s, steps)
    decreases |steps|
  {
    steps != [] ==> Polite(s, steps[0], b) && PoliteRun(Apply(s, steps[0]), steps[1..], b)
  }

  lemma BootTime(s: Sys, b: Bounds)
    requires SystemRuns.Start(s) && BoundsOk(b, s.k.timers.interval)
    ensures TimeInv(s, b)
  {
  }

  lemma {:induction false} EveryRunInTime(s: Sys, steps: seq<Step>, b: Bounds)
    requires (SystemRuns.Start(s) && BoundsOk(b, s.k.timers.interval)) || (SysInv(s) && TimeInv(s, b))
    requires Runs(s, steps) && PoliteRun(s, steps, b)
    ensures SysInv(Final(s, steps)) && TimeInv(Final(s, steps), b)
    decreases |steps|
  {
    hide SysInv, TimeInv, Enabled, Apply, Polite;
    if SystemRuns.Start(s) && BoundsOk(b, s.k.timers.interval) {
      BootInv(s);
      BootTime(s, b);
    }
    if steps != [] {
      StepInv(s, steps[0]);
      StepTime(s, steps[0], b);
      EveryRunInTime(Apply(s, steps[0]), steps[1..], b);
    }
  }

  // ----- What a sleeping task can count on -----

  predicate Asleep(s: Sys, id: Id) {
    id in s.k.tasks && id in s.pc && id in s.k.timers.events && s.pc[id].Waiting? && s.pc[id].sleep
  }

  /**
   * A sleep that found KSLEEP clear never returns early: when its wait succeeds, the milliseconds it
   * asked for have passed on the tick clock since it read that clock.
   */
  lemma NeverEarly(s: Sys, b: Bounds)
    requires SysInv(s) && TimeInv(s, b) && Asleep(s, s.k.current)
    requires Answered(s.k.tasks[s.k.current], s.pc[s.k.current].mask) && s.pc[s.k.current].info.clean
    ensures s.i.elapsed >= s.pc[s.k.current].info.readAt + s.pc[s.k.current].info.msec
  {
    hide SysInv, Refines;
    assert SleepOk(s, s.k.current, b);
  }

  /**
   * If KSLEEP was still set from an earlier timer when the sleep deleted its old event, the sleep's
   * wait succeeds at its first look, whatever the time, as long as KSLEEP is not masked.
   */
  lemma StaleSignalEndsSleep(s: Sys, b: Bounds, id: Id)
    requires SysInv(s) && TimeInv(s, b) && Asleep(s, id) && !s.pc[id].info.clean && KSLEEP <= s.k.tasks[id].sigMask
    ensures Answered(s.k.tasks[id], s.pc[id].mask)
  {
    hide SysInv, Refines;
    assert SleepOk(s, id, b);
    assert 0 in s.k.tasks[id].sigSet * KSLEEP * s.k.tasks[id].sigMask;
  }

  /**
   * The first tick at or past the deadline ends the sleep: KSLEEP is set and, unless the task masks it,
   * the task is on the run queue. A tick before the deadline leaves the event queued.
   */
  lemma WakesOnTime(s: Sys, b: Bounds, id: Id)
    requires SysInv(s) && WellFormed(s) && TimeInv(s, b) && Enabled(s, TickStep) && Asleep(s, id)
    ensures var s', info := Apply(s, TickStep), s.pc[id].info;
      && Asleep(s', id) && s'.i.elapsed == s.i.elapsed + s.k.timers.interval
      && (s'.i.elapsed >= info.readAt + info.msec ==>
        && KSLEEP <= s'.k.tasks[id].sigSet && !s'.k.timers.events[id].queued
        && (KSLEEP <= s'.k.tasks[id].sigMask ==> id in s'.k.active))
      && (s'.i.elapsed < info.readAt + info.msec ==> s'.k.timers.events[id].queued)
  {
    hide SchedInv, MemInv, PcInv, TimersOk, Refines, Tick;
    var s' := Apply(s, TickStep);
    StepInv(s, TickStep);
    StepTime(s, TickStep, b);
    TickKeys(s.k);
    assert SleepOk(s', id, b) && SleepOk(s, id, b);
    if s.k.timers.events[id].queued { DecideSleep(s, b, id); } else { TickNeverQueues(s.k, id); }
    if s'.i.elapsed >= s.pc[id].info.readAt + s.pc[id].info.msec && KSLEEP <= s'.k.tasks[id].sigMask {
      assert 0 in s'.k.tasks[id].sigSet * KSLEEP * s'.k.tasks[id].sigMask;
      AnsweredIsRunnable(s', id);
    }
  }

  lemma TickKeys(k: Kernel)
    requires SchedInv(k) && EventsOwned(k) && k.timers.firing == []
    ensures Tick(k).tasks.Keys == k.tasks.Keys && Tick(k).timers.events.Keys == k.timers.events.Keys
  {
    hide SchedInv, Tick;
    TickEffect(k);
  }

  lemma TickNeverQueues(k: Kernel, id: Id)
    requires SchedInv(k) && EventsOwned(k) && k.timers.firing == [] && id in k.timers.events
    requires !k.timers.events[id].queued
    ensures id in Tick(k).timers.events && !Tick(k).timers.events[id].queued
  {
    hide SchedInv, Tick;
    TickEffect(k);
    NotQueued(k.timers, id);
    TickIgnores(k.timers, id);
  }

  lemma DecideSleep(s: Sys, b: Bounds, id: Id)
    requires SysInv(s) && WellFormed(s) && TimeInv(s, b) && Asleep(s, id) && s.k.timers.events[id].queued
    ensures var k', info := Tick(s.k), s.pc[id].info;
      && id in k'.timers.events
      && (k'.timers.events[id].queued <==> s.i.elapsed + s.k.timers.interval < info.readAt + info.msec)
  {
    hide SchedInv, MemInv, PcInv, Refines, Tick;
    assert SleepOk(s, id, b);
    TickEffect(s.k);
    TickDecides(s.k.timers, s.i, b, id, s.pc[id].info.readAt + s.pc[id].info.msec);
  }
}
