/**
 * A whole sleep, from the call of kern_syscall_sleep to its return: exactly when it may be short.
 */
module WholeSleep {
  import opened Word32
  import opened Timer
  import opened TimerRefinement
  import opened Kernel
  import opened Scheduler
  import opened System
  import opened SystemRuns
  import opened TaskSteps
  import opened Lifecycle
  import opened SignalRuns
  import opened SleepTime
  import opened EarlySleep

  // ----- The claim -----

  /** Task `c`, in a kernel call at first, is back from it at the end of the run, and not before. */
  ghost predicate Returns(s: Sys, c: Id, steps: seq<Step>)
    requires Runs(s, steps)
    decreases |steps|
  {
    c in s.pc && if steps == [] then s.pc[c] == User else s.pc[c] != User && Returns(Apply(s, steps[0]), c, steps[1..])
  }

  /** A polite run that begins with the current task's call for a sleep and ends when that call returns. */
  ghost predicate SleepRun(s: Sys, msec: u32, steps: seq<Step>, b: Bounds) {
    && steps != [] && steps[0] == CallSleep(msec) && Runs(s, steps) && PoliteRun(s, steps, b)
    && Returns(Apply(s, steps[0]), s.k.current, steps[1..])
  }

  /** Some number of ticks ends a wait of `wait` milliseconds, and takes less than `msec`. */
  predicate TicksEnd(wait: int, interval: u32, msec: u32) {
    exists n :: 1 <= n <= msec && wait <= n * interval < msec
  }

  /**
   * What the caller can check before the call. The task does not mask KSLEEP, and either the bit is set already,
   * or the task's sleep event is still queued from before and some tick ends that wait before the new one.
   */
  predicate MayBeShort(k: Kernel, msec: u32)
    requires k.current in k.tasks && k.current in k.timers.events
  {
    var t, e := k.tasks[k.current], k.timers.events[k.current];
    msec > 0 && KSLEEP <= t.sigMask
    && (KSLEEP <= t.sigSet || (e.queued && TicksEnd(Signed(Wrap(e.tick - k.timers.now)), k.timers.interval, msec)))
  }

  // ----- What a step leaves alone -----

  /** A task in the middle of a kernel call stays, and nobody changes its mask. */
  lemma StepCaller(s: Sys, step: Step, c: Id)
    requires SysInv(s) && WellFormed(s) && Enabled(s, step) && c in s.k.tasks && c in s.pc
    requires s.pc[c] != User && s.pc[c] != Exited && !IdlePc(s.pc[c])
    ensures c in Apply(s, step).k.tasks && Apply(s, step).k.tasks[c].sigMask == s.k.tasks[c].sigMask
  {
    hide SysInv, WellFormed, Apply, Collect;
    if c !in Apply(s, step).k.tasks {
      GoneMeansReturned(s, step, c);
      NotReaped(s, c);
    }
    StepBecomes(s, step, c);
  }

  lemma NotReaped(s: Sys, c: Id)
    requires SysInv(s) && c in s.k.tasks && c in s.pc && s.pc[c] != Exited
    ensures !Reaped(s.k, c)
  {
    hide MemInv, TimersOk;
    assert TaskOk(s.k, c) && PcOk(s, c);
  }

  /** A step that is neither a tick nor the task's own leaves its place, its event and its deadline alone. */
  lemma StepElsewhere(s: Sys, step: Step, c: Id, b: Bounds)
    requires SysInv(s) && WellFormed(s) && Enabled(s, step) && c in s.k.tasks && step != TickStep
    requires c in s.pc && s.pc[c] != User && c in s.k.timers.events && (step == RunStep ==> c != s.k.current)
    requires var s' := Apply(s, step); c in s'.pc && c in s'.k.timers.events
    ensures LeftAlone(s, Apply(s, step), c) && Apply(s, step).k.timers.interval == s.k.timers.interval
  {
    hide SysInv, WellFormed, Go, Select, Signal, SetState;
    match step
    case RunStep => GoElsewhere(s, c);
    case MakeTask(_, _, _) =>
    case _ => hide Apply; QuietTimers(s, step);
  }

  lemma GoElsewhere(s: Sys, c: Id)
    requires SysInv(s) && WellFormed(s) && c in s.pc && c in s.k.timers.events && c != s.k.current
    requires c in Go(s).pc && c in Go(s).k.timers.events
    ensures LeftAlone(s, Go(s), c) && Go(s).k.timers.interval == s.k.timers.interval
  {
    hide SysInv, Go, LeftAlone;
    GoKeys(s);
    CurrentKnown(s);
    if IdlePc(s.pc[s.k.current]) { IdleElsewhere(s, c); } else { TaskElsewhere(s, c); }
  }

  // ----- Not short -----

  predicate Masked(s: Sys, c: Id)
    requires c in s.k.tasks
  {
    !(KSLEEP <= s.k.tasks[c].sigMask)
  }

  /** No tick after the `n`th ends a wait until `due` before `t0 + msec`. */
  ghost predicate LateEnough(due: int, n: nat, interval: u32, t0: int, msec: u32) {
    forall j :: j > n && due <= t0 + j * interval ==> j * interval >= msec
  }

  /** The event left over from before, if it is still queued, ends late enough. */
  ghost predicate OldEventLate(s: Sys, c: Id, n: nat, t0: int, msec: u32)
    requires c in s.k.timers.events
  {
    s.k.timers.events[c].queued ==>
      exists due :: Timed(c, due) in s.i.pending && LateEnough(due, n, s.k.timers.interval, t0, msec)
  }

  /** `clean` is what the place of the task in its sleep remembers of KSLEEP. */
  predicate Remembers(p: Pc, t0: int, msec: u32) {
    match p
    case Reading(m, sleep, _) => sleep && m == msec
    case Adding(_, sleep, info) => sleep && info.msec == msec && info.readAt >= t0
    case Waiting(_, sleep, info) => sleep && info.msec == msec && info.readAt >= t0
    case _ => false
  }

  predicate CleanPc(p: Pc) {
    (p.Reading? && p.clean) || (p.Adding? && p.info.clean) || (p.Waiting? && p.info.clean)
  }

  /** In its sleep, `n` ticks after the call, and on course not to return before `t0 + msec`. */
  ghost predicate OnCourse(s: Sys, c: Id, n: nat, t0: int, msec: u32) {
    && c in s.k.tasks && c in s.pc && c in s.k.timers.events && s.i.elapsed == t0 + n * s.k.timers.interval
    && (s.pc[c] == Deleting(msec, true) || Remembers(s.pc[c], t0, msec))
    && (Masked(s, c) || s.i.elapsed >= t0 + msec || CleanPc(s.pc[c])
        || (s.pc[c].Deleting? && KSLEEP !! s.k.tasks[c].sigSet && OldEventLate(s, c, n, t0, msec)))
  }

  lemma TickOnCourse(s: Sys, c: Id, n: nat, t0: int, msec: u32, b: Bounds)
    requires SysInv(s) && WellFormed(s) && TimeInv(s, b) && Enabled(s, TickStep) && OnCourse(s, c, n, t0, msec)
    ensures OnCourse(Apply(s, TickStep), c, n + 1, t0, msec)
  {
    hide SysInv, WellFormed, TimeInv, Tick, OldEventLate;
    var s' := Apply(s, TickStep);
    StepCaller(s, TickStep, c);
    StepInv(s, TickStep);
    SysKeys(s');
    TickClock(s);
    if s.pc[c].Deleting? && KSLEEP !! s.k.tasks[c].sigSet && OldEventLate(s, c, n, t0, msec)
       && s'.i.elapsed < t0 + msec {
      OldEventStays(s, c, n, t0, msec, b);
    }
  }

  lemma TickClock(s: Sys)
    requires SysInv(s) && WellFormed(s) && Enabled(s, TickStep)
    ensures var s' := Apply(s, TickStep);
      && s'.i.elapsed == s.i.elapsed + s.k.timers.interval && s'.k.timers.interval == s.k.timers.interval
      && s'.k.current == s.k.current && s'.k.idle == s.k.idle
  {
    hide PcInv, MemInv, Tick, Collect, Finish;
    TickEffect(s.k);
    FlagsKnown(s.k.timers);
    TickTimers(s.k.timers);
  }

  /** A tick that comes too early to matter leaves the old event queued and KSLEEP clear. */
  lemma OldEventStays(s: Sys, c: Id, n: nat, t0: int, msec: u32, b: Bounds)
    requires SysInv(s) && WellFormed(s) && TimeInv(s, b) && Enabled(s, TickStep) && OnCourse(s, c, n, t0, msec)
    requires KSLEEP !! s.k.tasks[c].sigSet && OldEventLate(s, c, n, t0, msec)
    requires s.i.elapsed + s.k.timers.interval < t0 + msec
    requires c in Apply(s, TickStep).k.tasks && c in Apply(s, TickStep).k.timers.events
    ensures KSLEEP !! Apply(s, TickStep).k.tasks[c].sigSet && OldEventLate(Apply(s, TickStep), c, n + 1, t0, msec)
  {
    hide MemInv, PcInv, SchedInv, Tick, Collect, Finish, Refines;
    var s', t := Apply(s, TickStep), s.k.timers;
    StepSignals(s, TickStep, c);
    TickClock(s);
    TickEffect(s.k);
    if t.events[c].queued {
      var due :| Timed(c, due) in s.i.pending && LateEnough(due, n, t.interval, t0, msec);
      TickDecides(t, s.i, b, c, due);
      assert t0 + (n + 1) * t.interval == s.i.elapsed + t.interval;
      assert LateEnough(due, n + 1, t.interval, t0, msec);
      assert Timed(c, due) in s'.i.pending;
    } else {
      NotQueued(t, c);
      TickIgnores(t, c);
    }
  }

  lemma ElsewhereOnCourse(s: Sys, step: Step, c: Id, n: nat, t0: int, msec: u32, b: Bounds)
    requires SysInv(s) && WellFormed(s) && TimeInv(s, b) && Enabled(s, step) && Polite(s, step, b)
    requires OnCourse(s, c, n, t0, msec)
    requires step != TickStep && (step == RunStep ==> c != s.k.current)
    ensures OnCourse(Apply(s, step), c, n, t0, msec)
  {
    hide SysInv, WellFormed, TimeInv, Apply, Enabled, LateEnough, Collect;
    StepCaller(s, step, c);
    StepInv(s, step);
    SysKeys(Apply(s, step));
    StepElsewhere(s, step, c, b);
    StepSignals(s, step, c);
  }

  /** The task's own steps: each takes it on, and the last lets it go no earlier than it should. */
  lemma OwnOnCourse(s: Sys, c: Id, n: nat, t0: int, msec: u32, b: Bounds)
    requires SysInv(s) && WellFormed(s) && TimeInv(s, b) && Enabled(s, RunStep) && OnCourse(s, c, n, t0, msec)
    requires c == s.k.current
    ensures var s' := Apply(s, RunStep);
      OnCourse(s', c, n, t0, msec) || (c in s'.pc && s'.pc[c] == User && s'.i.elapsed >= t0 + msec)
  {
    hide SysInv, WellFormed, TimeInv, Go, OldEventLate;
    StepCaller(s, RunStep, c);
    StepInv(s, RunStep);
    SysKeys(Go(s));
    GoKeys(s);
    assert Apply(s, RunStep) == Go(s);
    if s.pc[c].Waiting? { OwnWait(s, c, t0, msec, b); } else { OwnRegion(s, c, t0, msec); }
  }

  lemma OwnRegion(s: Sys, c: Id, t0: int, msec: u32)
    requires SysInv(s) && WellFormed(s) && c == s.k.current && c in s.k.tasks && c in s.pc
    requires s.pc[c] == Deleting(msec, true) || (Remembers(s.pc[c], t0, msec) && !s.pc[c].Waiting?)
    requires s.i.elapsed >= t0
    ensures var s' := Go(s);
      && c in s'.pc && s'.i.elapsed == s.i.elapsed && Remembers(s'.pc[c], t0, msec)
      && (CleanPc(s.pc[c]) || (s.pc[c].Deleting? && KSLEEP !! s.k.tasks[c].sigSet) ==> CleanPc(s'.pc[c]))
  {
    hide SysInv, WellFormed, Go, Del, IdealDel, Add, IdealAdd, Wrap;
    EventFree(s);
    var p := s.pc[c];
    if p.Deleting? {
      GoDel(s);
      IdealDelTime(s.i, c);
    } else if p.Reading? {
      GoRead(s);
    } else {
      GoAdd(s);
      IdealAddKeeps(s.i, c, p.info.readAt + p.info.msec);
    }
  }

  lemma OwnWait(s: Sys, c: Id, t0: int, msec: u32, b: Bounds)
    requires SysInv(s) && WellFormed(s) && TimeInv(s, b) && c == s.k.current && c in s.k.tasks && c in s.pc
    requires c in s.k.timers.events && s.pc[c].Waiting? && Remembers(s.pc[c], t0, msec)
    ensures var s' := Go(s);
      && c in s'.pc && s'.i.elapsed == s.i.elapsed
      && (s'.pc[c] == s.pc[c]
          || (s'.pc[c] == User && !Masked(s, c) && (s.pc[c].info.clean ==> s.i.elapsed >= t0 + msec)))
  {
    hide SysInv, WellFormed, TimeInv, Go, Answered, Masked;
    GoRest(s);
    if Answered(s.k.tasks[c], s.pc[c].mask) { WaitOver(s, c, t0, msec, b); }
  }

  lemma WaitOver(s: Sys, c: Id, t0: int, msec: u32, b: Bounds)
    requires SysInv(s) && TimeInv(s, b) && c == s.k.current && c in s.k.tasks && c in s.pc && c in s.k.timers.events
    requires s.pc[c].Waiting? && Remembers(s.pc[c], t0, msec) && Answered(s.k.tasks[c], s.pc[c].mask)
    ensures !Masked(s, c) && (s.pc[c].info.clean ==> s.i.elapsed >= t0 + msec)
  {
    hide SysInv, Refines;
    assert SleepOk(s, c, b);
    if s.pc[c].info.clean { NeverEarly(s, b); }
  }

  lemma StepOnCourse(s: Sys, step: Step, c: Id, n: nat, t0: int, msec: u32, b: Bounds)
    requires SysInv(s) && WellFormed(s) && TimeInv(s, b) && Enabled(s, step) && Polite(s, step, b)
    requires OnCourse(s, c, n, t0, msec)
    ensures var s' := Apply(s, step); var n' := if step == TickStep then n + 1 else n;
      OnCourse(s', c, n', t0, msec) || (c in s'.pc && s'.pc[c] == User && s'.i.elapsed >= t0 + msec)
  {
    hide SysInv, WellFormed, TimeInv, Apply, Enabled, OnCourse, Polite;
    if step == TickStep {
      TickOnCourse(s, c, n, t0, msec, b);
    } else if step == RunStep && c == s.k.current {
      OwnOnCourse(s, c, n, t0, msec, b);
    } else {
      ElsewhereOnCourse(s, step, c, n, t0, msec, b);
    }
  }

  lemma InCall(s: Sys, c: Id, n: nat, t0: int, msec: u32)
    requires OnCourse(s, c, n, t0, msec)
    ensures c in s.pc && s.pc[c] != User
  {
  }

  lemma {:induction false} NotShortFrom(s: Sys, steps: seq<Step>, c: Id, n: nat, t0: int, msec: u32, b: Bounds)
    requires SysInv(s) && TimeInv(s, b) && Runs(s, steps) && PoliteRun(s, steps, b) && OnCourse(s, c, n, t0, msec)
    requires Returns(s, c, steps)
    ensures Final(s, steps).i.elapsed >= t0 + msec
    decreases |steps|
  {
    hide SysInv, WellFormed, TimeInv, Apply, Enabled, OnCourse, Polite;
    InCall(s, c, n, t0, msec);
    var s' := Apply(s, steps[0]);
    StepOnCourse(s, steps[0], c, n, t0, msec, b);
    StepInv(s, steps[0]);
    StepTime(s, steps[0], b);
    var n' := if steps[0] == TickStep then n + 1 else n;
    if OnCourse(s', c, n', t0, msec) {
      NotShortFrom(s', steps[1..], c, n', t0, msec, b);
    } else {
      ReturnedAtOnce(s', c, steps[1..]);
    }
  }

  lemma ReturnedAtOnce(s: Sys, c: Id, steps: seq<Step>)
    requires Runs(s, steps) && Returns(s, c, steps) && c in s.pc && s.pc[c] == User
    ensures steps == [] && Final(s, steps) == s
  {
  }

  // ----- The call itself -----

  lemma Called(s: Sys, msec: u32)
    requires SysInv(s) && WellFormed(s) && UserTurn(s)
    ensures var s', c := Apply(s, CallSleep(msec)), s.k.current;
      && s'.k == s.k && s'.i == s.i && c in s'.pc && s'.pc[c] == Deleting(msec, true)
      && c in s.k.tasks && c in s.k.timers.events && SysInv(s') && WellFormed(s')
  {
    hide SysInv, WellFormed;
    CurrentKnown(s);
    StepInv(s, CallSleep(msec));
    InvWellFormed(Apply(s, CallSleep(msec)));
  }

  /** What the 32-bit clock says about a queued event is how far its true deadline is off. */
  lemma WaitIsTrue(t: Timers, i: Ideal, b: Bounds, ev: Id)
    requires Refines(t, i, b) && BoundsOk(b, t.interval) && FlagsOk(t) && ev in t.events && t.events[ev].queued
    ensures Timed(ev, i.elapsed + Signed(Wrap(t.events[ev].tick - t.now))) in i.pending
  {
    var j :| 0 <= j < |t.queue| && t.queue[j] == ev;
    var due := i.pending[j].due;
    ClockDifference(i.elapsed, due);
    SignedOfSmall(due - i.elapsed);
    assert i.pending[j] == Timed(ev, due);
  }

  lemma LateUnless(wait: int, interval: u32, t0: int, msec: u32)
    requires !TicksEnd(wait, interval, msec)
    ensures LateEnough(t0 + wait, 0, interval, t0, msec)
  {
    forall j: nat | j > 0 && t0 + wait <= t0 + j * interval ensures j * interval >= msec {
      if j * interval < msec { EnoughTicks(wait, j, interval, msec); }
    }
  }

  /** Any number of ticks that does it shows that one no larger than `msec` does. */
  lemma EnoughTicks(wait: int, j: nat, interval: u32, msec: u32)
    requires j > 0 && wait <= j * interval < msec
    ensures TicksEnd(wait, interval, msec)
  {
    if interval > 0 {
      AtLeastTimes(j, interval);
      assert 1 <= j <= msec && wait <= j * interval < msec;
    } else {
      assert 1 <= 1 <= msec && wait <= 1 * interval < msec;
    }
  }

  lemma AtLeastTimes(j: nat, interval: nat)
    requires interval > 0
    ensures j * interval >= j
  {
    assert j * interval == j + j * (interval - 1);
  }

  /** When the sleep cannot be short, the call puts the task on course. */
  lemma CallOnCourse(s: Sys, msec: u32, b: Bounds)
    requires SysInv(s) && WellFormed(s) && TimeInv(s, b) && UserTurn(s)
    requires s.k.current in s.k.tasks && s.k.current in s.k.timers.events && !MayBeShort(s.k, msec)
    ensures OnCourse(Apply(s, CallSleep(msec)), s.k.current, 0, s.i.elapsed, msec)
  {
    hide WellFormed, SchedInv, PcInv, MemInv, Refines, TicksEnd, LateEnough, FlagsOk;
    var c, t := s.k.current, s.k.timers;
    Called(s, msec);
    ClearOrSet(s.k.tasks[c].sigSet);
    if t.events[c].queued {
      var wait := Signed(Wrap(t.events[c].tick - t.now));
      WaitIsTrue(t, s.i, b, c);
      if !TicksEnd(wait, t.interval, msec) { LateUnless(wait, t.interval, s.i.elapsed, msec); }
    }
  }

  // ----- Short -----

  lemma OneStep(s: Sys, c: Id, step: Step, rest: seq<Step>, b: Bounds)
    requires WellFormed(s) && Enabled(s, step) && Polite(s, step, b) && c in s.pc && s.pc[c] != User
    requires Runs(Apply(s, step), rest) && PoliteRun(Apply(s, step), rest, b) && Returns(Apply(s, step), c, rest)
    ensures Runs(s, [step] + rest) && PoliteRun(s, [step] + rest, b) && Returns(s, c, [step] + rest)
    ensures Final(s, [step] + rest) == Final(Apply(s, step), rest)
  {
    hide WellFormed, Apply, Enabled, Polite;
    var steps := [step] + rest;
    assert steps[0] == step && steps[1..] == rest;
  }

  lemma Ends(s: Sys, c: Id, b: Bounds)
    requires c in s.pc && s.pc[c] == User
    ensures Runs(s, []) && PoliteRun(s, [], b) && Returns(s, c, []) && Final(s, []) == s
  {
  }

  /** With KSLEEP set before the old event is deleted, the sleep goes through without a tick. */
  lemma StaleReturns(s: Sys, c: Id, msec: u32, elapsed: int, b: Bounds) returns (steps: seq<Step>)
    requires Stale(s, c, Deleting(msec, true), elapsed)
    ensures Runs(s, steps) && PoliteRun(s, steps, b) && Returns(s, c, steps) && Final(s, steps).i.elapsed == elapsed
  {
    hide SysInv, WellFormed, Go, Runs, PoliteRun, Returns, Final;
    AfterDelete(s, c, msec, elapsed);
    var s2 := Go(s);
    AfterRead(s2, c, msec, elapsed);
    var s3, abs, info := Go(s2), Wrap(msec as int + s2.k.timers.now), Sleep(elapsed, msec, false);
    AfterAdd(s3, c, abs, info, elapsed);
    var s4 := Go(s3);
    AfterWait(s4, c, info, elapsed);
    Ends(Go(s4), c, b);
    OneStep(s4, c, RunStep, [], b);
    OneStep(s3, c, RunStep, [RunStep] + [], b);
    OneStep(s2, c, RunStep, [RunStep] + ([RunStep] + []), b);
    OneStep(s, c, RunStep, [RunStep] + ([RunStep] + ([RunStep] + [])), b);
    steps := [RunStep] + ([RunStep] + ([RunStep] + ([RunStep] + [])));
  }

  /** The current task is about to delete its old event, which is still queued for `due`; it does not mask KSLEEP. */
  ghost predicate OldQueued(s: Sys, c: Id, msec: u32, due: int, b: Bounds) {
    && SysInv(s) && WellFormed(s) && TimeInv(s, b) && s.k.current == c && c != s.k.idle
    && c in s.pc && s.pc[c] == Deleting(msec, true) && c in s.k.tasks && KSLEEP <= s.k.tasks[c].sigMask
    && c in s.k.timers.events && s.k.timers.events[c].queued && Timed(c, due) in s.i.pending
  }

  /** One tick either fires the old event, leaving KSLEEP stale, or leaves everything as it was. */
  lemma TickOld(s: Sys, c: Id, msec: u32, due: int, b: Bounds)
    requires OldQueued(s, c, msec, due, b)
    ensures Enabled(s, TickStep)
    ensures var s', e := Apply(s, TickStep), s.i.elapsed + s.k.timers.interval;
      && s'.i.elapsed == e && s'.k.timers.interval == s.k.timers.interval
      && (due <= e ==> Stale(s', c, Deleting(msec, true), e))
      && (due > e ==> OldQueued(s', c, msec, due, b))
  {
    hide SchedInv, MemInv, PcInv, WellFormed, Tick, Collect, Finish, Refines, Stale;
    QueuedRuns(s.k.timers, c);
    var s', t := Apply(s, TickStep), s.k.timers;
    StepInv(s, TickStep);
    InvWellFormed(s');
    StepTime(s, TickStep, b);
    SysKeys(s');
    TickClock(s);
    TickEffect(s.k);
    TickDecides(t, s.i, b, c, due);
    StepCaller(s, TickStep, c);
    if due <= s'.i.elapsed { TickSets(s, c, msec, b); }
  }

  lemma QueuedRuns(t: Timers, ev: Id)
    requires Timer.Inv(t) && ev in t.events && t.events[ev].queued
    ensures t.running
  {
  }

  lemma TickSets(s: Sys, c: Id, msec: u32, b: Bounds)
    requires SysInv(s) && WellFormed(s) && Enabled(s, TickStep) && s.k.current == c && c != s.k.idle
    requires Known(s.k.timers) && c in Collect(s.k.timers).firing
    requires c in s.pc && s.pc[c] == Deleting(msec, true) && c in s.k.tasks && KSLEEP <= s.k.tasks[c].sigMask
    ensures Stale(Apply(s, TickStep), c, Deleting(msec, true), s.i.elapsed + s.k.timers.interval)
  {
    hide SysInv, WellFormed, Tick, Collect;
    StepInv(s, TickStep);
    InvWellFormed(Apply(s, TickStep));
    StepCaller(s, TickStep, c);
    StepSignals(s, TickStep, c);
    TickClock(s);
    CallerTakes(s, c);
  }

  lemma CallerTakes(s: Sys, c: Id)
    requires SysInv(s) && c == s.k.current && c in s.k.tasks && c in s.pc && s.pc[c].Deleting?
    ensures Signalable(s.k.tasks[c])
  {
    hide MemInv, TimersOk;
    assert TaskOk(s.k, c) && PcOk(s, c);
  }

  /** `n` ticks are enough to end the wait for the old event, and the sleep with it. */
  lemma {:induction false} OldReturns(s: Sys, c: Id, msec: u32, due: int, n: nat, b: Bounds) returns (steps: seq<Step>)
    requires OldQueued(s, c, msec, due, b) && n > 0 && due <= s.i.elapsed + n * s.k.timers.interval
    ensures Runs(s, steps) && PoliteRun(s, steps, b) && Returns(s, c, steps)
    ensures Final(s, steps).i.elapsed <= s.i.elapsed + n * s.k.timers.interval
    decreases n
  {
    hide SysInv, WellFormed, TimeInv, Enabled, Apply, Runs, PoliteRun, Returns, Final;
    TickOld(s, c, msec, due, b);
    var s', interval := Apply(s, TickStep), s.k.timers.interval;
    assert n * interval == interval + (n - 1) * interval;
    if due <= s.i.elapsed + interval {
      steps := StaleReturns(s', c, msec, s'.i.elapsed, b);
    } else {
      steps := OldReturns(s', c, msec, due, n - 1, b);
    }
    OneStep(s, c, TickStep, steps, b);
    steps := [TickStep] + steps;
  }

  lemma ShortRun(s: Sys, msec: u32, b: Bounds) returns (steps: seq<Step>)
    requires SysInv(s) && WellFormed(s) && TimeInv(s, b) && UserTurn(s) && msec <= b.delay
    requires s.k.current in s.k.tasks && s.k.current in s.k.timers.events && MayBeShort(s.k, msec)
    ensures SleepRun(s, msec, steps, b) && Final(s, steps).i.elapsed < s.i.elapsed + msec
  {
    hide SysInv, WellFormed, TimeInv, Runs, PoliteRun, Returns, Final, TicksEnd;
    var c, s1 := s.k.current, Apply(s, CallSleep(msec));
    Called(s, msec);
    StepTime(s, CallSleep(msec), b);
    if KSLEEP <= s.k.tasks[c].sigSet {
      assert Stale(s1, c, Deleting(msec, true), s.i.elapsed);
      steps := StaleReturns(s1, c, msec, s.i.elapsed, b);
    } else {
      steps := OldShort(s1, c, msec, b);
    }
    Begins(s, msec, steps, b);
    steps := [CallSleep(msec)] + steps;
  }

  lemma OldShort(s: Sys, c: Id, msec: u32, b: Bounds) returns (steps: seq<Step>)
    requires SysInv(s) && WellFormed(s) && TimeInv(s, b) && s.k.current == c && c != s.k.idle
    requires c in s.pc && s.pc[c] == Deleting(msec, true) && c in s.k.tasks && c in s.k.timers.events
    requires MayBeShort(s.k, msec) && !(KSLEEP <= s.k.tasks[c].sigSet)
    ensures Runs(s, steps) && PoliteRun(s, steps, b) && Returns(s, c, steps)
    ensures Final(s, steps).i.elapsed < s.i.elapsed + msec
  {
    hide WellFormed, SchedInv, PcInv, MemInv, Refines, Runs, PoliteRun, Returns, Final, FlagsOk;
    var t := s.k.timers;
    var wait := Signed(Wrap(t.events[c].tick - t.now));
    var n :| 1 <= n <= msec && wait <= n * t.interval < msec;
    WaitIsTrue(t, s.i, b, c);
    steps := OldReturns(s, c, msec, s.i.elapsed + wait, n, b);
  }

  lemma Begins(s: Sys, msec: u32, rest: seq<Step>, b: Bounds)
    requires WellFormed(s) && UserTurn(s) && msec <= b.delay
    requires var s' := Apply(s, CallSleep(msec));
      Runs(s', rest) && PoliteRun(s', rest, b) && Returns(s', s.k.current, rest)
    ensures SleepRun(s, msec, [CallSleep(msec)] + rest, b)
    ensures Final(s, [CallSleep(msec)] + rest) == Final(Apply(s, CallSleep(msec)), rest)
  {
    hide WellFormed, Apply;
    var steps := [CallSleep(msec)] + rest;
    assert steps[0] == CallSleep(msec) && steps[1..] == rest;
  }

  lemma NotShort(s: Sys, msec: u32, steps: seq<Step>, b: Bounds)
    requires SysInv(s) && WellFormed(s) && TimeInv(s, b) && UserTurn(s) && SleepRun(s, msec, steps, b)
    requires s.k.current in s.k.tasks && s.k.current in s.k.timers.events && !MayBeShort(s.k, msec)
    ensures Final(s, steps).i.elapsed >= s.i.elapsed + msec
  {
    hide SysInv, WellFormed, TimeInv, Apply, OnCourse, MayBeShort;
    StepInv(s, CallSleep(msec));
    StepTime(s, CallSleep(msec), b);
    CallOnCourse(s, msec, b);
    NotShortFrom(Apply(s, CallSleep(msec)), steps[1..], s.k.current, 0, s.i.elapsed, msec, b);
  }

  /**
   * A sleep lasts at least as long as asked, measured from the call to the return, in every polite run,
   * if and only if the caller's mask, KSLEEP bit and old event say so at the call.
   */
  lemma SleepLastsExactly(s: Sys, msec: u32, b: Bounds)
    requires SysInv(s) && WellFormed(s) && TimeInv(s, b) && UserTurn(s) && msec <= b.delay
    ensures s.k.current in s.k.tasks && s.k.current in s.k.timers.events
    ensures (forall steps :: SleepRun(s, msec, steps, b) ==> Final(s, steps).i.elapsed >= s.i.elapsed + msec)
       <==> !MayBeShort(s.k, msec)
  {
    hide SysInv, WellFormed, TimeInv, MayBeShort, Runs, PoliteRun, Returns, Final;
    CurrentKnown(s);
    if MayBeShort(s.k, msec) {
      var steps := ShortRun(s, msec, b);
    } else {
      forall steps | SleepRun(s, msec, steps, b) ensures Final(s, steps).i.elapsed >= s.i.elapsed + msec {
        NotShort(s, msec, steps, b);
      }
    }
  }
}
