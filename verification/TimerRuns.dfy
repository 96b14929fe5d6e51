/** Every run of the timer: what stays true of it, what fires, and when. */
module TimerRuns {
  import opened Word32
  import opened Sequences
  import opened Timer
  import opened TimerRefinement

  datatype Op =
    | Tick
    | AddAfter(ev: Id, msec: nat, late: nat)  // locked `late` ms of tick time after the deadline was computed
    | Cancel(ev: Id)
    | GoIdle
    | Count(tasks: u32)

  /** The timer, its unbounded counterpart, and the history of both. */
  datatype World = World(
    t: Timers, i: Ideal,
    fired: seq<Id>, idealFired: seq<Id>,
    armed: multiset<Id>,     // successful adds
    cancelled: multiset<Id>) // deletes that took an event off the queue

  function DueOf(w: World, op: Op): int
    requires op.AddAfter?
  {
    w.i.elapsed - op.late + op.msec
  }

  ghost predicate Allowed(w: World, op: Op, b: Bounds) {
    match op
    case Tick => w.t.running
    case AddAfter(ev, msec, late) => ev in w.t.events && msec <= b.delay && late <= b.late
    case Cancel(ev) => ev in w.t.events
    case _ => true
  }

  function Step(w: World, op: Op): World
    requires Known(w.t) && (op.AddAfter? ==> op.ev in w.t.events) && (op.Cancel? ==> op.ev in w.t.events)
  {
    match op
    case Tick =>
      var t := Collect(w.t);
      w.(t := Finish(t), i := IdealTick(w.i, w.t.interval), fired := w.fired + t.firing,
         idealFired := w.idealFired + IdealFired(w.i, w.t.interval))
    case AddAfter(ev, _, _) =>
      var t := Add(w.t, ev, Clock(DueOf(w, op)));
      if CanAdd(w.t, ev) then w.(t := t, i := IdealAdd(w.i, ev, DueOf(w, op)), armed := w.armed + multiset{ev})
      else w.(t := t)
    case Cancel(ev) =>
      w.(t := Del(w.t, ev), i := if CanDel(w.t, ev) then IdealDel(w.i, ev) else w.i,
         cancelled := w.cancelled + if CanDel(w.t, ev) && w.t.events[ev].queued then multiset{ev} else multiset{})
    case GoIdle => w.(t := Idle(w.t))
    case Count(tasks) => w.(t := TaskCount(w.t, tasks))
  }

  ghost predicate RunAllowed(w: World, ops: seq<Op>, b: Bounds)
    decreases |ops|
  {
    ops == [] || (Known(w.t) && Allowed(w, ops[0], b) && RunAllowed(Step(w, ops[0]), ops[1..], b))
  }

  ghost function Run(w: World, ops: seq<Op>, b: Bounds): World
    requires RunAllowed(w, ops, b)
    decreases |ops|
  {
    if ops == [] then w else Run(Step(w, ops[0]), ops[1..], b)
  }

  /** Every successful add is a callback that has run, an add that was cancelled, or an event still queued. */
  ghost predicate Accounted(w: World) {
    w.armed == multiset(w.fired) + w.cancelled + multiset(w.t.queue)
  }

  /** Between operations: flags, lists, clock, deadlines and history all agree with the unbounded timer. */
  ghost predicate WorldOk(w: World, b: Bounds) {
    && Inv(w.t) && w.t.firing == []
    && Refines(w.t, w.i, b) && BoundsOk(b, w.t.interval)
    && w.fired == w.idealFired
    && Accounted(w)
  }

  /** kern_timer_init, the events set up, before any tick. */
  ghost predicate Initial(w: World, b: Bounds) {
    && w.t.now == Clock(0) && w.t.queue == [] && w.t.firing == [] && w.i == Ideal(0, []) && BoundsOk(b, w.t.interval)
    && (forall e :: e in w.t.events ==> !w.t.events[e].queued && !w.t.events[e].active)
    && w.fired == [] && w.idealFired == [] && w.armed == multiset{} && w.cancelled == multiset{}
  }

  lemma TickOk(w: World, b: Bounds)
    requires WorldOk(w, b) && Allowed(w, Tick, b)
    ensures Known(w.t) && WorldOk(Step(w, Tick), b)
  {
    hide Refines, FlagsOk, Collect;
    TickFlags(w.t);
    TickRefines(w.t, w.i, b);
    TickKeeps(w.t);
    var c := Collect(w.t);
    assert multiset(w.t.queue) == multiset(c.firing) + multiset(c.queue) by {
      assert c.firing + c.queue == w.t.queue;
    }
  }

  lemma TickKeeps(t: Timers)
    requires Known(t)
    ensures Collect(t).running == t.running && Collect(t).interval == t.interval && |Collect(t).queue| <= |t.queue|
  {
  }

  lemma AddOk(w: World, op: Op, b: Bounds)
    requires WorldOk(w, b) && op.AddAfter? && Allowed(w, op, b)
    ensures Known(w.t) && WorldOk(Step(w, op), b)
  {
    hide Refines;
    FlagsKnown(w.t);
    AddFlags(w.t, op.ev, Clock(DueOf(w, op)));
    if CanAdd(w.t, op.ev) {
      AddRefines(w.t, w.i, b, op.ev, DueOf(w, op));
      InsertedBag(w.t.queue, InsertAt(w.t, 0, Clock(DueOf(w, op))), op.ev);
    }
  }

  lemma CancelOk(w: World, op: Op, b: Bounds)
    requires WorldOk(w, b) && op.Cancel? && Allowed(w, op, b)
    ensures Known(w.t) && WorldOk(Step(w, op), b)
  {
    hide Refines;
    FlagsKnown(w.t);
    DelFlags(w.t, op.ev);
    DelRefines(w.t, w.i, b, op.ev);
    if op.ev in w.t.queue { WithoutBag(w.t.queue, IndexOf(w.t.queue, op.ev)); }
  }

  lemma StepOk(w: World, op: Op, b: Bounds)
    requires WorldOk(w, b) && Allowed(w, op, b)
    ensures Known(w.t) && WorldOk(Step(w, op), b)
  {
    FlagsKnown(w.t);
    match op
    case Tick => TickOk(w, b);
    case AddAfter(_, _, _) => AddOk(w, op, b);
    case Cancel(_) => CancelOk(w, op, b);
    case GoIdle =>
    case Count(_) =>
  }

  /**
   * Over every run, across any number of rollovers of the 32-bit clock, the timer fires what the
   * unbounded timer fires, in the same order; a non-empty queue has the timer running; and every
   * successful add is accounted for once.
   */
  lemma {:induction false} EveryRunRefines(w: World, ops: seq<Op>, b: Bounds)
    requires (Initial(w, b) || WorldOk(w, b)) && RunAllowed(w, ops, b)
    ensures WorldOk(Run(w, ops, b), b)
    decreases |ops|
  {
    if ops != [] {
      assert WorldOk(w, b);
      StepOk(w, ops[0], b);
      EveryRunRefines(Step(w, ops[0]), ops[1..], b);
    }
  }

  /** A tick fires exactly the queued events whose true deadline has now passed, each once. */
  lemma TickFires(w: World, b: Bounds, j: nat)
    requires WorldOk(w, b) && Allowed(w, Tick, b) && j < |w.t.queue|
    ensures Known(w.t)
    ensures var ev, fired := w.t.queue[j], Collect(w.t).firing;
      && Distinct(fired)
      && (ev in fired <==> w.i.pending[j].due <= w.i.elapsed + w.t.interval)
      && (ev in Step(w, Tick).t.queue <==> ev !in fired)
  {
    hide Refines, Collect, Finish, FlagsOk, Accounted, DuePrefix, Distinct;
    FlagsKnown(w.t);
    var k := DuePrefix(Advanced(w.t), 0);
    PendingQueued(w.t, w.i, b, j);
    TickDecides(w.t, w.i, b, w.t.queue[j], w.i.pending[j].due);
    CollectSplits(w.t, k);
    SplitDistinct(w.t.queue, k);
    SplitAt(w.t.queue, k, j);
    FinishQueue(Collect(w.t));
  }

  lemma FinishQueue(t: Timers)
    ensures Finish(t).queue == t.queue && Finish(t).firing == []
  {
  }

  /**
   * An event that is not queued stays silent until it is added again: over any run that does not add
   * it, and so in particular after a successful delete, its callback does not run.
   */
  lemma {:induction false} SilentUntilAdded(w: World, ops: seq<Op>, b: Bounds, ev: Id)
    requires WorldOk(w, b) && RunAllowed(w, ops, b) && ev !in w.t.queue
    requires forall j :: 0 <= j < |ops| && ops[j].AddAfter? ==> ops[j].ev != ev
    ensures multiset(Run(w, ops, b).fired)[ev] == multiset(w.fired)[ev]
    decreases |ops|
  {
    if ops != [] {
      StepOk(w, ops[0], b);
      StepSilent(w, ops[0], b, ev);
      SilentUntilAdded(Step(w, ops[0]), ops[1..], b, ev);
    }
  }

  lemma StepSilent(w: World, op: Op, b: Bounds, ev: Id)
    requires WorldOk(w, b) && Allowed(w, op, b) && ev !in w.t.queue && (op.AddAfter? ==> op.ev != ev)
    requires Known(w.t)
    ensures ev !in Step(w, op).t.queue && multiset(Step(w, op).fired)[ev] == multiset(w.fired)[ev]
  {
    hide Refines, FlagsOk, Collect, Finish, Accounted;
    match op
    case Tick => TickSilent(w.t, ev); FinishQueue(Collect(w.t));
    case AddAfter(e, _, _) => InsertedAt(w.t.queue, InsertAt(w.t, 0, Clock(DueOf(w, op))), e);
    case Cancel(e) => CancelSilent(w.t, e, ev);
    case GoIdle =>
    case Count(_) =>
  }

  lemma TickSilent(t: Timers, ev: Id)
    requires FlagsOk(t) && t.firing == [] && Known(t) && ev !in t.queue
    ensures ev !in Collect(t).firing && ev !in Collect(t).queue
  {
    TickFlags(t);
    var c := Collect(t);
    assert forall x :: x in c.firing + c.queue <==> x in c.firing || x in c.queue;
  }

  lemma CancelSilent(t: Timers, e: Id, ev: Id)
    requires FlagsOk(t) && e in t.events && ev !in t.queue
    ensures ev !in Del(t, e).queue
  {
    RemovedOne(t.queue, e);
  }

  // ----- The lateness that the bounds keep out does come up -----

  /** The timer freshly initialised, ticking every millisecond, with two events set up. */
  function Fresh(): World {
    World(Timers(Clock(0), 1, false, [], [], map[FIRST := Event(0, false, false, false),
                                                 SECOND := Event(0, false, false, false)]),
          Ideal(0, []), [], [], multiset{}, multiset{})
  }

  /** Two ticks, an add of 2^31 - 1, and an add of 0 whose deadline was computed at the start. */
  const LATE_RUN := [Count(2), Tick, Tick, AddAfter(FIRST, TWO31 - 1, 0), AddAfter(SECOND, 0, 2)]

  function Ticked(n: nat): World {
    var w := Fresh();
    w.(t := w.t.(running := true, now := Clock(n)), i := Ideal(n, []))
  }

  lemma EmptyTick(n: nat)
    ensures Known(Ticked(n).t) && Step(Ticked(n), Tick) == Ticked(n + 1)
  {
    hide Clock;
    ClockAdvances(n, 1);
    var t := Ticked(n).t;
    assert DuePrefix(Advanced(t), 0) == 0;
    assert Finish(Collect(t)).events == t.events;
  }

  function Queued(): World {
    World(OneQueued(2, TWO31 + 1, 1), Ideal(2, [Timed(FIRST, TWO31 + 1)]), [], [], multiset{FIRST}, multiset{})
  }

  lemma FirstAdd()
    ensures Known(Ticked(2).t) && Step(Ticked(2), AddAfter(FIRST, TWO31 - 1, 0)) == Queued()
  {
    hide Clock;
    assert InsertAt(Ticked(2).t, 0, Clock(TWO31 + 1)) == 0;
  }

  /** From the start the timer gets to where the later deadline comes first. */
  lemma LateAddHappens()
    ensures var b := Bounds(TWO31 - 1, 2);
      && Initial(Fresh(), Bounds(0, 0)) && RunAllowed(Fresh(), LATE_RUN, b)
      && var w := Run(Fresh(), LATE_RUN, b);
      && w.t.queue == [FIRST, SECOND] && w.i.pending == [Timed(SECOND, 0), Timed(FIRST, TWO31 + 1)]
      && !Refines(w.t, w.i, b)
  {
    hide Clock, Refines, Collect, Finish, Add, IdealAdd, Run, RunAllowed;
    var b, first, second := Bounds(TWO31 - 1, 2), AddAfter(FIRST, TWO31 - 1, 0), AddAfter(SECOND, 0, 2);
    LateAdd();
    FirstAdd();
    EmptyTick(0);
    EmptyTick(1);
    NoRun(Step(Queued(), second), b);
    RunStep(Queued(), second, [], b);
    RunStep(Ticked(2), first, [second] + [], b);
    RunStep(Ticked(1), Tick, [first] + ([second] + []), b);
    RunStep(Ticked(0), Tick, [Tick] + ([first] + ([second] + [])), b);
    assert Step(Fresh(), Count(2)) == Ticked(0);
    RunStep(Fresh(), Count(2), [Tick] + ([Tick] + ([first] + ([second] + []))), b);
    assert LATE_RUN == [Count(2)] + ([Tick] + ([Tick] + ([first] + ([second] + []))));
  }

  lemma NoRun(w: World, b: Bounds)
    ensures RunAllowed(w, [], b) && Run(w, [], b) == w
  {
  }

  lemma RunStep(w: World, op: Op, ops: seq<Op>, b: Bounds)
    requires Known(w.t) && Allowed(w, op, b) && RunAllowed(Step(w, op), ops, b)
    ensures RunAllowed(w, [op] + ops, b) && Run(w, [op] + ops, b) == Run(Step(w, op), ops, b)
  {
    hide Step, Allowed;
    assert ([op] + ops)[1..] == ops;
  }
}
