/** Round-robin scheduling makes every runnable task wait a bounded number of selections. */
module Fairness {
  import opened Sequences
  import opened Timer
  import opened Kernel
  import opened Scheduler
  import opened System
  import opened SystemRuns

  /** A selection made while no task is dying. */
  predicate FairSwitch(s: Sys, step: Step) {
    step == SwitchStep && s.k.dyingCount == 0
  }

  // ----- How a step can change the run queue -----

  /** Tasks joined at the tail, or one left. */
  ghost predicate QueueMoves(q: seq<Id>, q': seq<Id>) {
    (exists more :: q' == q + more) || (exists x :: q' == Removed(q, x))
  }

  lemma SameQueue(q: seq<Id>)
    ensures QueueMoves(q, q)
  {
    assert q == q + [];
  }

  lemma {:induction false} IndexOfPrefix(q: seq<Id>, more: seq<Id>, id: Id)
    requires id in q
    ensures IndexOf(q + more, id) == IndexOf(q, id)
  {
    if q[0] != id {
      assert (q + more)[1..] == q[1..] + more;
      IndexOfPrefix(q[1..], more, id);
    }
  }

  lemma IndexOfRemoved(q: seq<Id>, x: Id, id: Id)
    requires id in q && x != id
    ensures IndexOf(Removed(q, x), id) <= IndexOf(q, id)
  {
    if x in q {
      var i, k := IndexOf(q, id), IndexOf(q, x);
      WithoutIndex(q, k);
      IndexOfAtMost(Removed(q, x), id, if i < k then i else i - 1);
    }
  }

  /** A task's rank never rises as others come and go. */
  lemma RankNeverRises(q: seq<Id>, q': seq<Id>, id: Id)
    requires QueueMoves(q, q') && id in q && id in q' && Distinct(q)
    ensures IndexOf(q', id) <= IndexOf(q, id)
  {
    if more :| q' == q + more {
      IndexOfPrefix(q, more, id);
    } else {
      var x :| q' == Removed(q, x);
      RemovedOne(q, x);
      IndexOfRemoved(q, x, id);
    }
  }

  lemma SetStateQueue(k: Kernel, id: Id, state: TaskState)
    requires id in k.tasks
    ensures QueueMoves(k.active, SetState(k, id, state).active)
  {
    SameQueue(k.active);
  }

  lemma SignalQueue(k: Kernel, id: Id, bits: Signals)
    requires id in k.tasks
    ensures exists more :: Signal(k, id, bits).active == k.active + more
  {
    assert k.active == k.active + [];
    var k' := Signal(k, id, bits);
    assert k'.active == k.active + [] || k'.active == k.active + [id];
  }

  lemma {:induction false} SignalAllQueue(k: Kernel, ids: seq<Id>)
    requires forall i :: 0 <= i < |ids| ==> ids[i] in k.tasks
    ensures exists more :: SignalAll(k, ids).active == k.active + more
    decreases |ids|
  {
    hide Signal;
    if ids == [] {
      assert SignalAll(k, ids).active == k.active + [];
    } else {
      var k1 := Signal(k, ids[0], KSLEEP);
      SignalQueue(k, ids[0], KSLEEP);
      var a :| k1.active == k.active + a;
      SignalAllQueue(k1, ids[1..]);
      var b :| SignalAll(k1, ids[1..]).active == k1.active + b;
      assert SignalAll(k, ids).active == k.active + (a + b);
    }
  }

  lemma TickQueue(k: Kernel)
    requires EventsOwned(k) && k.timers.firing == []
    ensures QueueMoves(k.active, Tick(k).active)
  {
    hide SignalAll, Collect, Finish;
    FlagsKnown(k.timers);
    CollectFlags(k.timers);
    var k1 := k.(timers := Collect(k.timers));
    CollectOwned(k);
    FiringOwned(k1);
    SignalAllQueue(k1, k1.timers.firing);
    var more :| SignalAll(k1, k1.timers.firing).active == k.active + more;
  }

  lemma ReapQueue(k: Kernel)
    ensures Reap(k).active == k.active
    decreases |k.dying|
  {
    if k.dying != [] { ReapQueue(ReapOne(k)); }
  }

  lemma GoQueue(s: Sys)
    requires WellFormed(s)
    ensures QueueMoves(s.k.active, Go(s).k.active)
  {
    hide EventsOwned, FlagsOk, SetState, Reap, Del, Add, QueueMoves;
    SameQueue(s.k.active);
    ReapQueue(s.k);
    SetStateQueue(s.k, s.k.current, Ready);
    SetStateQueue(s.k, s.k.current, Sleeping);
    SetStateQueue(s.k, s.k.current, Dying);
  }

  /** Starts, signals, sleeps, exits, reaps and ticks only append to the run queue or take one task out. */
  lemma StepQueue(s: Sys, step: Step)
    requires SysInv(s) && WellFormed(s) && Enabled(s, step) && step != SwitchStep
    ensures QueueMoves(s.k.active, Apply(s, step).k.active)
  {
    hide SysInv, EventsOwned, Go, Tick, Signal, SetState, QueueMoves;
    SameQueue(s.k.active);
    match step
    case TickStep => TickQueue(s.k);
    case RunStep => GoQueue(s);
    case Post(id, bits) => PostQueue(s.k, id, bits);
    case StartTask(id) => SetStateQueue(s.k, id, Ready);
    case _ =>
  }

  lemma PostQueue(k: Kernel, id: Id, bits: Signals)
    requires id in k.tasks
    ensures QueueMoves(k.active, Signal(k, id, bits).active)
  {
    hide Signal;
    SignalQueue(k, id, bits);
  }

  // ----- Selections -----

  lemma RotateRank(q: seq<Id>, id: Id)
    requires id in q && q[0] != id
    ensures id in q[1..] + [q[0]] && IndexOf(q[1..] + [q[0]], id) + 1 == IndexOf(q, id)
  {
    assert id in q[1..];
    IndexOfPrefix(q[1..], [q[0]], id);
    assert IndexOf(q, id) == IndexOf(q[1..], id) + 1;
  }

  lemma SelectQueue(k: Kernel)
    requires k.current in k.tasks && k.idle in k.tasks && (k.active != [] ==> k.active[0] in k.tasks)
    ensures var k' := Select(k);
      if k.dyingCount > 0 || k.active == [] then k'.active == k.active && k'.current == k.idle
      else k'.active == k.active[1..] + [k.active[0]] && k'.current == k.active[0]
  {
  }

  /** A fair selection runs the task at the head and moves everyone else one place up. */
  lemma SwitchRank(s: Sys, id: Id)
    requires SysInv(s) && WellFormed(s) && s.k.pendsv && id in s.k.active
    ensures var s' := Apply(s, SwitchStep);
      if s.k.dyingCount > 0 then s'.k.active == s.k.active && s'.k.current == s.k.idle
      else if s.k.active[0] == id then s'.k.current == id
      else id in s'.k.active && IndexOf(s'.k.active, id) + 1 == IndexOf(s.k.active, id)
  {
    hide SysInv, EventsOwned, Select, IndexOf;
    SelectQueue(s.k);
    var q, q' := s.k.active, Select(s.k).active;
    if s.k.dyingCount <= 0 && q[0] != id {
      RotateRank(q, id);
      assert q' == q[1..] + [q[0]];
    }
  }

  /** How many fair selections a run makes. */
  ghost function Selections(s: Sys, steps: seq<Step>): nat
    requires Runs(s, steps)
    decreases |steps|
  {
    if steps == [] then 0 else
      (if FairSwitch(s, steps[0]) then 1 else 0) + Selections(Apply(s, steps[0]), steps[1..])
  }

  ghost predicate StaysActive(s: Sys, steps: seq<Step>, id: Id)
    requires Runs(s, steps)
    decreases |steps|
  {
    id in s.k.active && (steps != [] ==> StaysActive(Apply(s, steps[0]), steps[1..], id))
  }

  ghost predicate IsSelected(s: Sys, steps: seq<Step>, id: Id)
    requires Runs(s, steps)
    decreases |steps|
  {
    && steps != []
    && ((steps[0] == SwitchStep && Apply(s, SwitchStep).k.current == id)
        || IsSelected(Apply(s, steps[0]), steps[1..], id))
  }

  /**
   * Bounded waiting: a task at position k of the run queue that stays on it is selected within k + 1
   * selections made with no task dying, whatever else the run does in between.
   */
  lemma {:induction false} BoundedWaiting(s: Sys, steps: seq<Step>, id: Id)
    requires SysInv(s) && Runs(s, steps) && StaysActive(s, steps, id)
    requires Selections(s, steps) > IndexOf(s.k.active, id)
    ensures IsSelected(s, steps, id)
    decreases |steps|
  {
    hide SysInv, Apply, QueueMoves;
    var s' := Apply(s, steps[0]);
    StepInv(s, steps[0]);
    if steps[0] == SwitchStep {
      assert s.k.pendsv;
      SwitchRank(s, id);
    } else {
      StepQueue(s, steps[0]);
      QueueDistinct(s);
      RankNeverRises(s.k.active, s'.k.active, id);
    }
    if !(steps[0] == SwitchStep && s'.k.current == id) {
      BoundedWaiting(s', steps[1..], id);
    }
  }

  lemma QueueDistinct(s: Sys)
    requires SysInv(s)
    ensures Distinct(s.k.active)
  {
  }
}
