/** When a sleep does return early: a KSLEEP bit left over from an earlier timer ends it at once. */
module EarlySleep {
  import opened Word32
  import opened Timer
  import opened TimerRefinement
  import opened Kernel
  import opened Scheduler
  import opened System
  import opened SystemRuns
  import opened TaskSteps

  /** The current task is at `p` with KSLEEP set and unmasked, and `elapsed` milliseconds of tick time have passed. */
  ghost predicate Stale(s: Sys, c: Id, p: Pc, elapsed: int) {
    && SysInv(s) && WellFormed(s) && s.k.current == c && s.i.elapsed == elapsed && c != s.k.idle
    && c in s.pc && s.pc[c] == p && c in s.k.tasks && KSLEEP <= s.k.tasks[c].sigSet && KSLEEP <= s.k.tasks[c].sigMask
  }

  lemma EventFree(s: Sys)
    requires SysInv(s) && WellFormed(s)
    ensures s.k.current in s.k.timers.events && CanDel(s.k.timers, s.k.current)
    ensures s.pc[s.k.current].Adding? ==> CanAdd(s.k.timers, s.k.current)
  {
    hide SchedInv, MemInv, FlagsOk;
    assert PcOk(s, s.k.current);
    NotFiring(s.k.timers, s.k.current);
  }

  lemma NotFiring(t: Timers, ev: Id)
    requires FlagsOk(t) && t.firing == [] && ev in t.events
    ensures !t.events[ev].active
  {
  }

  /** A region of a kernel call other than its wait or exit leaves the words and the invariant as they were. */
  lemma KeepsWords(s: Sys, c: Id, p: Pc, elapsed: int)
    requires Stale(s, c, p, elapsed) && !IdlePc(p) && !p.Waiting? && p != ExitDie
    ensures SysInv(Go(s)) && WellFormed(Go(s)) && Go(s).k.tasks == s.k.tasks
  {
    hide SysInv, WellFormed, Go;
    GoTaskInv(s);
    InvWellFormed(Go(s));
    OtherBecomes(s);
  }

  lemma AfterDelete(s: Sys, c: Id, msec: u32, elapsed: int)
    requires Stale(s, c, Deleting(msec, true), elapsed)
    ensures Stale(Go(s), c, Reading(msec, true, false), elapsed)
  {
    hide SysInv, WellFormed, Go, Del, IdealDel;
    EventFree(s);
    GoDel(s);
    KeepsWords(s, c, Deleting(msec, true), elapsed);
    IdealDelTime(s.i, c);
    assert 0 in s.k.tasks[c].sigSet;
  }

  lemma AfterRead(s: Sys, c: Id, msec: u32, elapsed: int)
    requires Stale(s, c, Reading(msec, true, false), elapsed)
    ensures Stale(Go(s), c, Adding(Wrap(msec as int + s.k.timers.now), true, Sleep(elapsed, msec, false)), elapsed)
  {
    hide SysInv, WellFormed, Go, Wrap;
    GoRead(s);
    KeepsWords(s, c, Reading(msec, true, false), elapsed);
  }

  lemma AfterAdd(s: Sys, c: Id, abs: u32, info: Sleep, elapsed: int)
    requires Stale(s, c, Adding(abs, true, info), elapsed)
    ensures Stale(Go(s), c, Waiting(KSLEEP, true, info), elapsed)
  {
    hide SysInv, WellFormed, Go, Add, IdealAdd;
    EventFree(s);
    GoAdd(s);
    KeepsWords(s, c, Adding(abs, true, info), elapsed);
    IdealAddKeeps(s.i, c, info.readAt + info.msec);
  }

  lemma AfterWait(s: Sys, c: Id, info: Sleep, elapsed: int)
    requires Stale(s, c, Waiting(KSLEEP, true, info), elapsed)
    ensures c in Go(s).pc && Go(s).k.current == c && Go(s).pc[c] == User && Go(s).i.elapsed == elapsed
  {
    hide SysInv, WellFormed, Go;
    assert 0 in s.k.tasks[c].sigSet * KSLEEP * s.k.tasks[c].sigMask;
    GoRest(s);
  }

  /** CallSleep and the four regions of the sleep, with nothing in between. */
  function SleepCall(msec: u32): seq<Step> {
    [CallSleep(msec), RunStep, RunStep, RunStep, RunStep]
  }

  ghost predicate AtOnce(s: Sys, msec: u32) {
    && Runs(s, SleepCall(msec))
    && var s' := Final(s, SleepCall(msec));
    s'.k.current == s.k.current && s.k.current in s'.pc && s'.pc[s.k.current] == User && s'.i.elapsed == s.i.elapsed
  }

  /**
   * Whenever a task that has KSLEEP set and unmasked calls for a sleep, of any length, the sleep can
   * return with no time passed at all.
   */
  lemma StaleSleepReturnsAtOnce(s: Sys, msec: u32)
    requires SysInv(s) && WellFormed(s) && UserTurn(s)
    requires KSLEEP <= s.k.tasks[s.k.current].sigSet && KSLEEP <= s.k.tasks[s.k.current].sigMask
    ensures AtOnce(s, msec)
  {
    hide SysInv, WellFormed, Go;
    var c, e := s.k.current, s.i.elapsed;
    CurrentKnown(s);
    var s1 := Apply(s, CallSleep(msec));
    StepInv(s, CallSleep(msec));
    InvWellFormed(s1);
    assert Stale(s1, c, Deleting(msec, true), e);
    AfterDelete(s1, c, msec, e);
    var s2 := Go(s1);
    AfterRead(s2, c, msec, e);
    var s3 := Go(s2);
    AfterAdd(s3, c, Wrap(msec as int + s2.k.timers.now), Sleep(e, msec, false), e);
    var s4 := Go(s3);
    AfterWait(s4, c, Sleep(e, msec, false), e);
    FourRuns(s1, s2, s3, s4);
    var steps := SleepCall(msec);
    assert steps[1..] == [RunStep, RunStep, RunStep, RunStep];
    assert Runs(s, steps) && Final(s, steps) == Final(s1, steps[1..]);
  }

  lemma FourRuns(s1: Sys, s2: Sys, s3: Sys, s4: Sys)
    requires CanGo(s1) && s2 == Go(s1) && CanGo(s2) && s3 == Go(s2) && CanGo(s3) && s4 == Go(s3) && CanGo(s4)
    ensures Runs(s1, [RunStep, RunStep, RunStep, RunStep])
    ensures Final(s1, [RunStep, RunStep, RunStep, RunStep]) == Go(s4)
  {
    hide WellFormed, Go;
    OneRun(s4, []);
    OneRun(s3, [RunStep]);
    OneRun(s2, [RunStep, RunStep]);
    OneRun(s1, [RunStep, RunStep, RunStep]);
  }

  ghost predicate CanGo(s: Sys) {
    WellFormed(s) && s.k.current in s.pc && s.pc[s.k.current] != User
  }

  lemma OneRun(s: Sys, rest: seq<Step>)
    requires CanGo(s) && Runs(Go(s), rest)
    ensures Runs(s, [RunStep] + rest) && Final(s, [RunStep] + rest) == Final(Go(s), rest)
  {
    hide WellFormed, Go;
    var steps := [RunStep] + rest;
    assert steps[1..] == rest;
    assert Apply(s, RunStep) == Go(s);
  }
}
