/** No wakeup and no signal is lost, over every run. */
module SignalRuns {
  import opened Timer
  import opened Kernel
  import opened Scheduler
  import opened System
  import opened SystemRuns
  import opened TaskSteps

  /** A sleeping task is in a wait none of whose signals is both set and unmasked. */
  lemma SleepersHaveNothingToWakeFor(s: Sys, id: Id)
    requires SysInv(s) && id in s.k.tasks && s.k.tasks[id].state == Sleeping
    ensures id in s.pc && s.pc[id].Waiting?
    ensures s.k.tasks[id].sigSet * s.pc[id].mask * s.k.tasks[id].sigMask == {}
  {
    hide SchedInv, MemInv;
    assert PcOk(s, id);
  }

  /** A waiting task whose wait would succeed is on the run queue. */
  lemma AnsweredIsRunnable(s: Sys, id: Id)
    requires SysInv(s) && id in s.k.tasks && id in s.pc && s.pc[id].Waiting? && Answered(s.k.tasks[id], s.pc[id].mask)
    ensures id in s.k.active && (s.k.tasks[id].state == Ready || s.k.tasks[id].state == Running)
  {
    hide MemInv, Answered;
    assert PcOk(s, id) && TaskOk(s.k, id);
  }

  /** The step that takes signals away from a task: its own successful wait. */
  predicate TakesSignals(s: Sys, step: Step, id: Id)
    requires id in s.k.tasks && id in s.pc
  {
    step == RunStep && id == s.k.current && s.pc[id].Waiting? && Answered(s.k.tasks[id], s.pc[id].mask)
  }

  /** The signals a step posts to a task, if it can take any. */
  ghost function Posts(s: Sys, step: Step, id: Id): Signals
    requires id in s.k.tasks && Known(s.k.timers)
  {
    if !Signalable(s.k.tasks[id]) then {}
    else match step
      case TickStep => if id in Collect(s.k.timers).firing then KSLEEP else {}
      case Post(x, bits) => if x == id then bits else {}
      case _ => {}
  }

  /**
   * The signals of a task after any step: what was there and what the step posted, except that its own
   * successful wait takes what it asked for, all of which was in the set it reports. The reference
   * count is what it was.
   */
  lemma StepSignals(s: Sys, step: Step, id: Id)
    requires SysInv(s) && WellFormed(s) && Enabled(s, step) && id in s.k.tasks && id in s.pc
    requires id in Apply(s, step).k.tasks
    ensures Known(s.k.timers)
    ensures var t, t' := s.k.tasks[id], Apply(s, step).k.tasks[id];
      && t'.refcount == t.refcount
      && (TakesSignals(s, step, id) ==> t'.sigSet == t.sigSet - s.pc[id].mask)
      && (!TakesSignals(s, step, id) ==> t'.sigSet == t.sigSet + Posts(s, step, id))
  {
    hide SysInv, Apply, Collect;
    StepBecomes(s, step, id);
  }

  /**
   * A turn of the wait loop ends with the task READY, not RUNNING, and back in its own code, or SLEEPING and still
   * in the wait; it is on the run queue in the first case and not in the second.
   */
  lemma WaitEnds(s: Sys)
    requires SysInv(s) && WellFormed(s) && Enabled(s, RunStep) && s.pc[s.k.current].Waiting?
    ensures var c, s' := s.k.current, Apply(s, RunStep);
      && c in s'.k.tasks && c in s'.pc
      && (TakesSignals(s, RunStep, c) ==> s'.k.tasks[c].state == Ready && s'.pc[c] == User && c in s'.k.active)
      && (!TakesSignals(s, RunStep, c) ==> s'.k.tasks[c].state == Sleeping && s'.pc[c] == s.pc[c] && c !in s'.k.active)
  {
    hide SysInv, Wait, EventsOwned;
    var c := s.k.current;
    StepInv(s, RunStep);
    Listed(Apply(s, RunStep), c);
    Listed(s, c);
    SameCurrent(s.k, s.pc[c].mask);
    StepBecomes(s, RunStep, c);
  }

  lemma SameCurrent(k: Kernel, mask: Signals)
    requires k.current in k.tasks
    ensures Wait(k, mask).current == k.current
  {
  }

  lemma Listed(s: Sys, id: Id)
    requires SysInv(s) && id in s.k.tasks
    ensures (id in s.k.active <==> s.k.tasks[id].onActive) && id in s.pc && s.k.current in s.k.tasks
  {
    hide MemInv, TimersOk;
    assert TaskOk(s.k, id);
  }

  /** Signal `b` is set for `id` at the start, `id` lives on, and no wait of its own takes `b`. */
  ghost predicate NotTaken(s: Sys, steps: seq<Step>, id: Id, b: nat)
    requires Runs(s, steps)
    decreases |steps|
  {
    && id in s.k.tasks && id in s.pc
    && (steps != [] ==>
      && !(TakesSignals(s, steps[0], id) && b in s.pc[id].mask)
      && NotTaken(Apply(s, steps[0]), steps[1..], id, b))
  }

  /** A signal that has been posted stays set until a wait naming it takes it, however the run goes. */
  lemma {:induction false} SignalStays(s: Sys, steps: seq<Step>, id: Id, b: nat)
    requires SysInv(s) && Runs(s, steps) && NotTaken(s, steps, id, b) && b in s.k.tasks[id].sigSet
    ensures id in Final(s, steps).k.tasks && b in Final(s, steps).k.tasks[id].sigSet
    decreases |steps|
  {
    hide SysInv, Apply, Enabled;
    if steps != [] {
      StepInv(s, steps[0]);
      StepSignals(s, steps[0], id);
      SignalStays(Apply(s, steps[0]), steps[1..], id, b);
    }
  }

  /**
   * A post to a task that can take it sets every bit, and is answered at once: the task is asleep only
   * if all its bits are masked.
   */
  lemma PostArrives(s: Sys, id: Id, bits: Signals)
    requires SysInv(s) && WellFormed(s) && id in s.k.tasks && Signalable(s.k.tasks[id])
    ensures var s' := Apply(s, Post(id, bits));
      && id in s'.k.tasks && bits <= s'.k.tasks[id].sigSet
      && (s'.k.tasks[id].state == Sleeping ==> s'.k.tasks[id].sigSet * s'.k.tasks[id].sigMask == {} )
  {
    hide SchedInv, MemInv, PcInv, TimersOk, Signal;
    SignalEffect(s.k, id, bits);
  }

  /** It takes every state but one: a task that has not been started or has exited takes no signal. */
  lemma PostTaken(s: Sys, id: Id, bits: Signals)
    requires SysInv(s) && WellFormed(s) && id in s.k.tasks
    ensures var t := s.k.tasks[id]; var s' := Apply(s, Post(id, bits));
      && id in s'.k.tasks
      && s'.k.tasks[id].sigSet == if t.state == Unstarted || t.state == Dying then t.sigSet else t.sigSet + bits
  {
    hide SchedInv, MemInv, PcInv, TimersOk, Signal;
    SignalEffect(s.k, id, bits);
  }

  /**
   * A new task takes no signal until it is started, has none set, and has the lowest eight unmasked, the one
   * that ends a sleep among them.
   */
  lemma NewTaskSignals(s: Sys, id: Id, r: Regions, dynamicStruct: bool)
    requires WellFormed(s) && FreshOwner(s, id, r, dynamicStruct)
    ensures var k := Apply(s, MakeTask(id, r, dynamicStruct)).k;
      && id in k.tasks && !Signalable(k.tasks[id]) && k.tasks[id].sigSet == {} && k.tasks[id].refcount == 0
      && (forall b: nat :: b in k.tasks[id].sigMask <==> b < 8)
      && k.active == s.k.active && k.taskList == s.k.taskList + [id]
      && k.tasks[id].regions == r && k.tasks[id].dynamicStruct == dynamicStruct
    ensures forall b: nat :: b in KSLEEP <==> b == 0
  {
    hide EventsOwned;
  }
}
