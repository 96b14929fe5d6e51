/** A run from boot after which a sleep of a second can be over at once. */
module SleepExample {
  import opened Word32
  import opened Timer
  import opened TimerRefinement
  import opened Kernel
  import opened System
  import opened SystemRuns
  import opened TaskSteps
  import opened SleepTime
  import opened EarlySleep
  import opened WholeSleep

  const IDLE: Id := 0x1000
  const TASK: Id := 0x2000
  const BOUNDS := Bounds(1000, 0)
  const NEW: Task := Task(Unstarted, false, false, 0, {}, TASK_MASK, false, NO_REGIONS)

  // ----- The states of the run -----

  function Boot(): Sys {
    var none := Event(0, false, false, false);
    var timers := Timers(Clock(0), 1, false, [], [], map[IDLE := none]);
    var tasks := map[IDLE := Task(Running, false, false, 0, {}, TASK_MASK, false, NO_REGIONS)];
    Sys(Kernel(tasks, [IDLE], [], [], [], 0, 0, IDLE, IDLE, true, false, timers, {}, 0),
        map[IDLE := IdleTop], Ideal(0, []), map[IDLE := 0], map[IDLE := []])
  }

  function Made(): Sys {
    var s := Boot();
    s.(k := s.k.(tasks := s.k.tasks[TASK := NEW], taskList := [IDLE, TASK],
                 timers := s.k.timers.(events := s.k.timers.events[TASK := Event(0, false, false, false)])),
       pc := s.pc[TASK := User], cleaned := s.cleaned[TASK := 0], returned := s.returned[TASK := []])
  }

  function Started(): Sys {
    var s := Made();
    s.(k := s.k.(tasks := s.k.tasks[TASK := NEW.(state := Ready, onActive := true)], active := [TASK], activeCount := 1,
                 pendsv := true))
  }

  /** The task runs, and the idle task is ready. */
  function Turn(): Sys {
    var s := Started();
    var tasks := s.k.tasks[IDLE := s.k.tasks[IDLE].(state := Ready)][TASK := NEW.(state := Running, onActive := true)];
    s.(k := s.k.(tasks := tasks, current := TASK, pendsv := false))
  }

  function At(p: Pc): Sys {
    var s := Turn();
    s.(pc := s.pc[TASK := p])
  }

  /** Its timer has been set for one millisecond. */
  function Queued(): Sys {
    var s := Turn();
    var e := Event(Clock(1), true, false, false);
    s.(k := s.k.(timers := Timers(Clock(0), 1, true, [TASK], [], s.k.timers.events[TASK := e])),
       i := Ideal(0, [Timed(TASK, 1)]))
  }

  // ----- The steps between them -----

  ghost predicate Leads(s: Sys, step: Step, s': Sys) {
    WellFormed(s) && Enabled(s, step) && Apply(s, step) == s' && SysInv(s')
  }

  lemma Reaches(s: Sys, step: Step, s': Sys)
    requires SysInv(s) && WellFormed(s) && Enabled(s, step) && Apply(s, step) == s'
    ensures Leads(s, step, s') && WellFormed(s')
  {
    hide SysInv, WellFormed, Enabled, Apply;
    StepInv(s, step);
    InvWellFormed(s');
  }

  lemma BootReady()
    ensures SystemRuns.Start(Boot()) && SysInv(Boot()) && WellFormed(Boot())
  {
    hide SysInv, WellFormed;
    BootInv(Boot());
    InvWellFormed(Boot());
  }

  lemma Makes()
    requires WellFormed(Boot())
    ensures Enabled(Boot(), MakeTask(TASK, NO_REGIONS, false))
    ensures Apply(Boot(), MakeTask(TASK, NO_REGIONS, false)) == Made()
  {
  }

  lemma Starts()
    requires WellFormed(Made())
    ensures Enabled(Made(), StartTask(TASK)) && Apply(Made(), StartTask(TASK)) == Started()
  {
    assert Made().k.tasks[TASK := NEW.(state := Ready)][TASK := NEW.(state := Ready, onActive := true)]
      == Started().k.tasks;
  }

  lemma Switches()
    requires WellFormed(Started())
    ensures Enabled(Started(), SwitchStep) && Apply(Started(), SwitchStep) == Turn()
  {
    var k := Started().k;
    assert k.active[1..] + [k.active[0]] == [TASK];
    assert Select(k).tasks == Turn().k.tasks;
  }

  lemma Calls()
    requires WellFormed(Turn())
    ensures Enabled(Turn(), CallTimer(1)) && Apply(Turn(), CallTimer(1)) == At(Deleting(1, false))
  {
  }

  lemma Deletes()
    requires WellFormed(At(Deleting(1, false)))
    ensures Go(At(Deleting(1, false))) == At(Reading(1, false, true))
  {
    hide WellFormed, Clock, Go;
    var s := At(Deleting(1, false));
    GoDel(s);
    assert DelSleep(s) == s;
    assert s.pc[TASK := Reading(1, false, true)] == At(Reading(1, false, true)).pc;
  }

  lemma Reads()
    requires WellFormed(At(Reading(1, false, true)))
    ensures Go(At(Reading(1, false, true))) == At(Adding(Clock(1), false, Sleep(0, 1, true)))
  {
    hide WellFormed, Clock, Go;
    var s, p := At(Reading(1, false, true)), Adding(Clock(1), false, Sleep(0, 1, true));
    GoRead(s);
    ClockAdvances(0, 1);
    assert s.pc[TASK := p] == At(p).pc;
  }

  lemma Adds()
    requires WellFormed(At(Adding(Clock(1), false, Sleep(0, 1, true))))
    ensures Go(At(Adding(Clock(1), false, Sleep(0, 1, true)))) == Queued()
  {
    hide WellFormed, Clock, Go;
    var s := At(Adding(Clock(1), false, Sleep(0, 1, true)));
    GoAdd(s);
    assert s.pc[TASK := User] == Queued().pc;
    assert AddSleep(s, Clock(1), 1).i == Queued().i;
  }

  /** From boot: make a task, start it, switch to it, and let it set its timer for one millisecond without waiting. */
  const REGIONS3: seq<Step> := [RunStep] + ([RunStep] + ([RunStep] + []))
  const STEPS: seq<Step> :=
    [MakeTask(TASK, NO_REGIONS, false)] + ([StartTask(TASK)] + ([SwitchStep] + ([CallTimer(1)] + REGIONS3)))

  lemma RunsOn(s: Sys, step: Step, s': Sys, rest: seq<Step>)
    requires Leads(s, step, s') && Runs(s', rest)
    ensures Runs(s, [step] + rest) && Final(s, [step] + rest) == Final(s', rest)
  {
    hide SysInv, WellFormed, Enabled, Apply;
    assert ([step] + rest)[1..] == rest;
  }

  lemma RunsNone(s: Sys)
    ensures Runs(s, []) && Final(s, []) == s
  {
  }

  lemma UpToTurn()
    ensures Leads(Boot(), MakeTask(TASK, NO_REGIONS, false), Made())
    ensures Leads(Made(), StartTask(TASK), Started()) && Leads(Started(), SwitchStep, Turn())
    ensures Leads(Turn(), CallTimer(1), At(Deleting(1, false))) && WellFormed(At(Deleting(1, false)))
  {
    hide SysInv, WellFormed, Enabled, Apply, Leads, Boot, Made, Started, Turn, At, SystemRuns.Start;
    BootReady();
    Makes();
    Reaches(Boot(), MakeTask(TASK, NO_REGIONS, false), Made());
    LeadsInv(Boot(), MakeTask(TASK, NO_REGIONS, false), Made());
    Starts();
    Reaches(Made(), StartTask(TASK), Started());
    LeadsInv(Made(), StartTask(TASK), Started());
    Switches();
    Reaches(Started(), SwitchStep, Turn());
    LeadsInv(Started(), SwitchStep, Turn());
    Calls();
    Reaches(Turn(), CallTimer(1), At(Deleting(1, false)));
  }

  lemma LeadsInv(s: Sys, step: Step, s': Sys)
    requires Leads(s, step, s')
    ensures SysInv(s')
  {
    hide SysInv, WellFormed, Enabled, Apply;
  }

  /** One region of the call to kern_task_timer_set. */
  lemma Region(p: Pc, s': Sys)
    requires SysInv(At(p)) && WellFormed(At(p)) && p != User && Go(At(p)) == s'
    ensures Leads(At(p), RunStep, s') && WellFormed(s') && SysInv(s')
  {
    hide SysInv, WellFormed, Go;
    Reaches(At(p), RunStep, s');
  }

  lemma SetsTimer()
    requires SysInv(At(Deleting(1, false))) && WellFormed(At(Deleting(1, false)))
    ensures Runs(At(Deleting(1, false)), REGIONS3) && Final(At(Deleting(1, false)), REGIONS3) == Queued()
    ensures SysInv(Queued()) && WellFormed(Queued())
  {
    hide SysInv, WellFormed, Leads, Go, At, Queued, Clock, Runs, Final;
    var p, q := Reading(1, false, true), Adding(Clock(1), false, Sleep(0, 1, true));
    Deletes();
    Region(Deleting(1, false), At(p));
    Reads();
    Region(p, At(q));
    Adds();
    Region(q, Queued());
    RunsNone(Queued());
    RunsOn(At(q), RunStep, Queued(), []);
    RunsOn(At(p), RunStep, At(q), [RunStep] + []);
    RunsOn(At(Deleting(1, false)), RunStep, At(p), [RunStep] + ([RunStep] + []));
  }

  /** The run is possible, and ends with the timer set. */
  lemma Reachable()
    ensures SystemRuns.Start(Boot()) && Runs(Boot(), STEPS) && Final(Boot(), STEPS) == Queued()
    ensures SysInv(Queued()) && WellFormed(Queued())
  {
    hide SysInv, WellFormed, Leads, Boot, Made, Started, Turn, At, Queued, Runs, Final, SystemRuns.Start;
    BootReady();
    UpToTurn();
    LeadsInv(Turn(), CallTimer(1), At(Deleting(1, false)));
    SetsTimer();
    RunsOn(Turn(), CallTimer(1), At(Deleting(1, false)), REGIONS3);
    RunsOn(Started(), SwitchStep, Turn(), [CallTimer(1)] + REGIONS3);
    RunsOn(Made(), StartTask(TASK), Started(), [SwitchStep] + ([CallTimer(1)] + REGIONS3));
    RunsOn(Boot(), MakeTask(TASK, NO_REGIONS, false), Made(),
      [StartTask(TASK)] + ([SwitchStep] + ([CallTimer(1)] + REGIONS3)));
  }

  // ----- Two sleeps of a second -----

  lemma QueuedInTime()
    ensures TimeInv(Queued(), BOUNDS) && UserTurn(Queued())
  {
    hide Clock;
    var s := Queued();
    assert SleepOk(s, IDLE, BOUNDS) && SleepOk(s, TASK, BOUNDS);
  }

  lemma QueuedShort()
    ensures MayBeShort(Queued().k, 1000)
  {
    WrapPlus(-32768, 1);
    ClockDifference(0, 1);
    SignedOfSmall(1);
    assert 1 <= 1 <= 1000 && 1 <= 1 * 1 < 1000;
    assert TicksEnd(1, 1, 1000);
    assert 0 in TASK_MASK;
  }

  /** A sleep of a second called while the short timer is still set can be over before the second is. */
  lemma SecondCutShort()
    ensures Runs(Boot(), STEPS) && Final(Boot(), STEPS) == Queued()
    ensures exists steps ::
      && SleepRun(Queued(), 1000, steps, BOUNDS)
      && Final(Queued(), steps).i.elapsed < Queued().i.elapsed + 1000
  {
    hide SysInv, WellFormed, TimeInv, Queued, Boot, MayBeShort, Runs, Final, Returns, PoliteRun, UserTurn;
    Reachable();
    QueuedInTime();
    QueuedShort();
    CurrentKnown(Queued());
    var steps := ShortRun(Queued(), 1000, BOUNDS);
  }

  /** The state one tick later: the short timer has fired, and KSLEEP is set. */
  ghost function Fired(): Sys
    requires WellFormed(Queued()) && Enabled(Queued(), TickStep)
  {
    Apply(Queued(), TickStep)
  }

  lemma TimerFires()
    requires SysInv(Queued()) && WellFormed(Queued())
    ensures Enabled(Queued(), TickStep) && SysInv(Fired()) && WellFormed(Fired()) && UserTurn(Fired())
    ensures Fired().i.elapsed == 1 && Fired().k.current == TASK && TASK in Fired().k.tasks
    ensures KSLEEP <= Fired().k.tasks[TASK].sigSet && KSLEEP <= Fired().k.tasks[TASK].sigMask
  {
    hide SysInv, WellFormed, Tick, Collect, Finish, Clock;
    var s := Queued();
    QueuedInTime();
    StepInv(s, TickStep);
    InvWellFormed(Fired());
    TickClock(s);
    SysKeys(Fired());
    InvKnown(s);
    TimerDue();
    StepBecomes(s, TickStep, TASK);
    assert 0 in TASK_MASK;
  }

  lemma TimerDue()
    requires Known(Queued().k.timers)
    ensures TASK in Collect(Queued().k.timers).firing
  {
    var t := Queued().k.timers;
    ClockAdvances(0, 1);
    CompareTrue(1, 1);
    assert DuePrefix(Advanced(t), 0) == DuePrefix(Advanced(t), 1) == 1;
    assert t.queue[..1][0] == TASK;
  }

  /** The whole run from boot, and then a sleep of a second that takes no time at all. */
  lemma SecondInNoTime()
    ensures Runs(Boot(), STEPS) && Final(Boot(), STEPS) == Queued() && WellFormed(Queued())
    ensures Enabled(Queued(), TickStep)
    ensures AtOnce(Fired(), 1000)
  {
    hide SysInv, WellFormed, AtOnce, Queued, Boot, Fired, Runs, Final, Enabled;
    Reachable();
    TimerFires();
    StaleSleepReturnsAtOnce(Fired(), 1000);
  }
}
