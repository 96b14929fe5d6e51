/** A run from boot to a task on the list of the dying, and what starting it there would do. */
module ExitExample {
  import opened Sequences
  import T = Timer
  import opened Kernel
  import opened Scheduler
  import opened System
  import opened SystemRuns
  import opened TaskSteps
  import opened TaskCode
  import opened SleepExample

  /** The task has exited and waits to be reaped. */
  function Dead(): Sys {
    var s := At(Exited);
    s.(k := s.k.(tasks := s.k.tasks[TASK := NEW.(state := Dying, onDying := true)], active := [], activeCount := 0,
                 dying := [TASK], dyingCount := 1, pendsv := true))
  }

  /** Make a task, start it, switch to it, and let it exit. */
  const EXIT_STEPS: seq<Step> :=
    [MakeTask(TASK, NO_REGIONS, false)]
    + ([StartTask(TASK)] + ([SwitchStep] + ([CallExit] + ([RunStep] + ([RunStep] + [])))))

  lemma Exits()
    requires WellFormed(Turn())
    ensures Enabled(Turn(), CallExit) && Apply(Turn(), CallExit) == At(ExitDel)
  {
  }

  lemma Cancels()
    requires WellFormed(At(ExitDel))
    ensures Go(At(ExitDel)) == At(ExitDie)
  {
    hide WellFormed, T.Clock, Go;
    var s := At(ExitDel);
    GoDel(s);
    assert DelSleep(s) == s;
    assert s.pc[TASK := ExitDie] == At(ExitDie).pc;
  }

  lemma Dies()
    requires WellFormed(At(ExitDie))
    ensures Go(At(ExitDie)) == Dead()
  {
    hide T.FlagsOk, T.Clock;
    var s := At(ExitDie);
    var k := SetState(s.k, TASK, Dying);
    assert k.tasks == Dead().k.tasks;
    assert k.active == [] by { assert Removed([TASK], TASK) == []; }
    assert s.pc[TASK := Exited] == Dead().pc;
  }

  lemma DeadReached()
    ensures SystemRuns.Start(Boot()) && Runs(Boot(), EXIT_STEPS) && Final(Boot(), EXIT_STEPS) == Dead()
    ensures SysInv(Dead())
  {
    hide SysInv, WellFormed, Leads, Boot, Made, Started, Turn, At, Dead, Runs, Final, SystemRuns.Start, Enabled, Apply;
    hide Go;
    BootReady();
    UpToTurn();
    LeadsInv(Started(), SwitchStep, Turn());
    InvWellFormed(Turn());
    Exits();
    Reaches(Turn(), CallExit, At(ExitDel));
    LeadsInv(Turn(), CallExit, At(ExitDel));
    Cancels();
    Region(ExitDel, At(ExitDie));
    Dies();
    Region(ExitDie, Dead());
    RunsNone(Dead());
    RunsOn(At(ExitDie), RunStep, Dead(), []);
    RunsOn(At(ExitDel), RunStep, At(ExitDie), [RunStep] + []);
    RunsOn(Turn(), CallExit, At(ExitDel), [RunStep] + ([RunStep] + []));
    RunsOn(Started(), SwitchStep, Turn(), [CallExit] + ([RunStep] + ([RunStep] + [])));
    RunsOn(Made(), StartTask(TASK), Started(), [SwitchStep] + ([CallExit] + ([RunStep] + ([RunStep] + []))));
    RunsOn(Boot(), MakeTask(TASK, NO_REGIONS, false), Made(),
      [StartTask(TASK)] + ([SwitchStep] + ([CallExit] + ([RunStep] + ([RunStep] + [])))));
  }

  /** From there kern_task_start puts the one node of the task on the run queue as well. */
  lemma StartAfterExit()
    ensures SystemRuns.Start(Boot()) && Runs(Boot(), EXIT_STEPS) && Final(Boot(), EXIT_STEPS) == Dead()
    ensures TASK in Dead().k.tasks
    ensures var k := SetState(Dead().k, TASK, Ready); TASK in k.dying && TASK in k.active && !ListsOk(k)
  {
    hide SysInv, SetState, ListsOk, Runs, Final, SystemRuns.Start;
    DeadReached();
    DeadListed();
    StartKeepsLists(Dead().k, TASK);
  }

  lemma DeadListed()
    requires SysInv(Dead())
    ensures ListsOk(Dead().k)
  {
    hide ListsOk, TimersOk, PcInv, MemInv, SchedInv, Dead;
    DeadKnows();
    InvServes(Dead().k, TASK);
  }

  lemma DeadKnows()
    ensures TASK in Dead().k.tasks && Dead().k.idle in Dead().k.tasks
  {
  }
}
