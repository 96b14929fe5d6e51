/** Bounded waiting in ticks of the clock: how long a task that could run waits for the processor. */
module Slices {
  import opened Sequences
  import opened Timer
  import opened TimerRefinement
  import opened Kernel
  import opened System
  import opened SystemRuns
  import opened Fairness
  import opened Switching
  import opened SleepTime
  import opened Wakeup

  /** A context switch is made before the next tick. */
  ghost predicate Taken(s: Sys, steps: seq<Step>)
    requires Runs(s, steps)
    decreases |steps|
  {
    && steps != [] && steps[0] != TickStep
    && (steps[0] == SwitchStep || Taken(Apply(s, steps[0]), steps[1..]))
  }

  /** Each switch that a tick leaves pending is made before the next tick. */
  ghost predicate Prompt(s: Sys, steps: seq<Step>)
    requires Runs(s, steps)
    decreases |steps|
  {
    steps != [] ==>
      && (steps[0] == TickStep && Apply(s, TickStep).k.pendsv ==> Taken(Apply(s, steps[0]), steps[1..]))
      && Prompt(Apply(s, steps[0]), steps[1..])
  }

  /** No task is dying up to the next switch or tick. */
  ghost predicate Calm(s: Sys, steps: seq<Step>)
    requires Runs(s, steps)
    decreases |steps|
  {
    steps == [] || steps[0] == TickStep
    || (s.k.dyingCount == 0 && (steps[0] == SwitchStep || Calm(Apply(s, steps[0]), steps[1..])))
  }

  /** How many ticks of the run pass without a task dying before the switch they ask for. */
  ghost function FairTicks(s: Sys, steps: seq<Step>): nat
    requires Runs(s, steps)
    decreases |steps|
  {
    if steps == [] then 0 else
      (if steps[0] == TickStep && Calm(Apply(s, steps[0]), steps[1..]) then 1 else 0)
      + FairTicks(Apply(s, steps[0]), steps[1..])
  }

  /** The switch that a fair tick asks for is a fair selection of its own. */
  lemma {:induction false} TicksSelect(s: Sys, steps: seq<Step>)
    requires SysInv(s) && Runs(s, steps) && Prompt(s, steps) && s.k.switchReady
    ensures Selections(s, steps) >= FairTicks(s, steps)
    ensures Taken(s, steps) && Calm(s, steps) ==> Selections(s, steps) > FairTicks(s, steps)
    decreases |steps|
  {
    hide SysInv, WellFormed, Enabled, Apply;
    if steps != [] {
      StepInv(s, steps[0]);
      ReadyStaysOn(s, steps[0]);
      if steps[0] == TickStep { TickAlwaysAsks(s); }
      TicksSelect(Apply(s, steps[0]), steps[1..]);
    }
  }

  lemma ReadyStaysOn(s: Sys, step: Step)
    requires SysInv(s) && WellFormed(s) && Enabled(s, step)
    ensures Apply(s, step).k.switchReady == s.k.switchReady
  {
    hide SysInv, WellFormed, Go, Tick, Signal, SetState, Choose;
    if step == SwitchStep { SelectReady(s); } else { hide Enabled, Apply; StepAsks(s, step); }
  }

  lemma SelectReady(s: Sys)
    requires SysInv(s) && WellFormed(s) && Enabled(s, SwitchStep)
    ensures Apply(s, SwitchStep).k.switchReady == s.k.switchReady
  {
    hide SysInv, EventsOwned;
  }

  /**
   * With switching on, and each switch a tick asks for made before the next, a task at position k of the run queue
   * that stays on it is selected within k + 1 ticks during which no task is dying.
   */
  lemma SelectedInTicks(s: Sys, steps: seq<Step>, id: Id)
    requires SysInv(s) && Runs(s, steps) && StaysActive(s, steps, id) && s.k.switchReady && Prompt(s, steps)
    requires FairTicks(s, steps) > IndexOf(s.k.active, id)
    ensures IsSelected(s, steps, id)
  {
    hide SysInv, Runs, StaysActive, Prompt, FairTicks, Selections, IsSelected;
    TicksSelect(s, steps);
    BoundedWaiting(s, steps, id);
  }

  /**
   * So an unmasked sleep has returned once, after the tick that reaches its deadline, as many such ticks have passed
   * as its place in the run queue is then, plus one, and it has had a turn of its own.
   */
  lemma SleepEndsInTicks(s: Sys, b: Bounds, id: Id, steps: seq<Step>)
    requires SysInv(s) && WellFormed(s) && TimeInv(s, b) && Enabled(s, TickStep) && Asleep(s, id)
    requires s.i.elapsed + s.k.timers.interval >= s.pc[id].info.readAt + s.pc[id].info.msec
    requires KSLEEP <= s.k.tasks[id].sigMask && s.k.switchReady
    requires var s' := Apply(s, TickStep);
      && Runs(s', steps) && TurnsFollow(s', steps, id) && Prompt(s', steps)
      && FairTicks(s', steps) > IndexOf(s'.k.active, id)
    ensures GetsBack(Apply(s, TickStep), steps, id)
  {
    hide SysInv, WellFormed, TimeInv, Enabled, Apply, Runs, TurnsFollow, Selections, GetsBack, Prompt, FairTicks;
    StepInv(s, TickStep);
    ReadyStaysOn(s, TickStep);
    TicksSelect(Apply(s, TickStep), steps);
    SleepEnds(s, b, id, steps);
  }
}
