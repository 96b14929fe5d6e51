/** The wrapping timer queue refines one on unbounded time, across any number of rollovers. */
module TimerRefinement {
  import opened Word32
  import opened Sequences
  import opened Timer

  datatype Timed = Timed(id: Id, due: int)

  /** A timer with all the time in the world: how long it has run, and what is pending and when it falls due. */
  datatype Ideal = Ideal(elapsed: int, pending: seq<Timed>)

  function DueBy(p: seq<Timed>, time: int): seq<Timed> {
    if p == [] then [] else (if p[0].due <= time then [p[0]] else []) + DueBy(p[1..], time)
  }

  function NotDueBy(p: seq<Timed>, time: int): seq<Timed> {
    if p == [] then [] else (if p[0].due <= time then [] else [p[0]]) + NotDueBy(p[1..], time)
  }

  /** A tick removes every event whose deadline has passed, wherever it is in the queue. */
  function IdealTick(i: Ideal, interval: int): Ideal {
    Ideal(i.elapsed + interval, NotDueBy(i.pending, i.elapsed + interval))
  }

  function IdealFired(i: Ideal, interval: int): seq<Id> {
    Ids(DueBy(i.pending, i.elapsed + interval))
  }

  function Ids(p: seq<Timed>): (r: seq<Id>)
    ensures |r| == |p| && forall j :: 0 <= j < |p| ==> r[j] == p[j].id
  {
    seq(|p|, j requires 0 <= j < |p| => p[j].id)
  }

  ghost predicate Sorted(p: seq<Timed>) {
    forall j, k :: 0 <= j < k < |p| ==> p[j].due <= p[k].due
  }

  /** Position for a deadline in true order: before the first event that is not due sooner. */
  function IdealInsertAt(p: seq<Timed>, k: nat, due: int): (r: nat)
    requires k <= |p|
    ensures k <= r <= |p|
    ensures forall j :: k <= j < r ==> p[j].due < due
    ensures r < |p| ==> p[r].due >= due
    decreases |p| - k
  {
    if k < |p| && p[k].due < due then IdealInsertAt(p, k + 1, due) else k
  }

  function IdealAdd(i: Ideal, ev: Id, due: int): Ideal {
    i.(pending := Inserted(i.pending, IdealInsertAt(i.pending, 0, due), Timed(ev, due)))
  }

  function IdealDel(i: Ideal, ev: Id): Ideal {
    var k := IndexOf(Ids(i.pending), ev);
    if k < |i.pending| then i.(pending := Without(i.pending, k)) else i
  }

  /**
   * Delays are at most `delay`, and a deadline is queued at most `late` milliseconds of tick time
   * after it was computed. Without the second bound the queue need not stay sorted: see LateAdd.
   */
  datatype Bounds = Bounds(delay: nat, late: nat)

  predicate BoundsOk(b: Bounds, interval: u32) {
    b.delay + b.late < TWO31 && interval + b.late < TWO31
  }

  /** The deadlines are the true ones modulo 2^32, in true order, and close enough to now to tell. */
  ghost predicate Refines(t: Timers, i: Ideal, b: Bounds) {
    && t.now == Clock(i.elapsed)
    && |t.queue| == |i.pending|
    && (forall j :: 0 <= j < |i.pending| ==>
      && t.queue[j] == i.pending[j].id && t.queue[j] in t.events
      && t.events[t.queue[j]].tick == Clock(i.pending[j].due)
      && i.elapsed - b.late <= i.pending[j].due <= i.elapsed + b.delay)
    && Sorted(i.pending)
  }

  lemma IdealAddKeeps(i: Ideal, ev: Id, due: int)
    ensures forall x :: x in IdealAdd(i, ev, due).pending <==> x in i.pending || x == Timed(ev, due)
    ensures IdealAdd(i, ev, due).elapsed == i.elapsed
  {
    InsertedAt(i.pending, IdealInsertAt(i.pending, 0, due), Timed(ev, due));
  }

  lemma IdealDelTime(i: Ideal, ev: Id)
    ensures IdealDel(i, ev).elapsed == i.elapsed
  {
  }

  // ----- A tick -----

  lemma {:induction false} DueIsPrefix(p: seq<Timed>, k: nat, time: int)
    requires k <= |p| && (forall j :: 0 <= j < k ==> p[j].due <= time) && (forall j :: k <= j < |p| ==> p[j].due > time)
    ensures DueBy(p, time) == p[..k] && NotDueBy(p, time) == p[k..]
    decreases |p|
  {
    if p != [] {
      var rest, i := p[1..], if k > 0 then k - 1 else 0;
      forall j | 0 <= j < |rest| ensures rest[j] == p[j + 1] {
      }
      DueIsPrefix(rest, i, time);
      assert p == [p[0]] + rest;
      if k > 0 {
        assert p[..k] == [p[0]] + rest[..i] && p[k..] == rest[i..];
      } else {
        assert rest[..0] == [] == p[..0] && rest[0..] == rest && p[0..] == p;
      }
    }
  }

  /** The events the wrapping tick finds due are the ones whose true deadline has passed. */
  lemma CollectFindsDue(t: Timers, i: Ideal, b: Bounds)
    requires Refines(t, i, b) && BoundsOk(b, t.interval) && Known(t)
    ensures var time, k := i.elapsed + t.interval, DuePrefix(Advanced(t), 0);
      && Advanced(t).now == Clock(time)
      && (forall j :: 0 <= j < k ==> i.pending[j].due <= time)
      && (forall j :: k <= j < |i.pending| ==> i.pending[j].due > time)
  {
    var time, t' := i.elapsed + t.interval, Advanced(t);
    var k := DuePrefix(t', 0);
    ClockAdvances(i.elapsed, t.interval);
    forall j | 0 <= j < |i.pending|
      ensures BeforeEq(t.events[t.queue[j]].tick, t'.now) <==> i.pending[j].due <= time
    {
      CompareTrue(i.pending[j].due, time);
    }
    forall j | k <= j < |i.pending| ensures i.pending[j].due > time {
      if j > k { assert i.pending[k].due <= i.pending[j].due; }
    }
  }

  /**
   * Each tick removes exactly the events whose true deadline has passed, in deadline order, and
   * leaves the queue sorted and every remaining deadline in the future.
   */
  lemma TickRefines(t: Timers, i: Ideal, b: Bounds)
    requires Refines(t, i, b) && BoundsOk(b, t.interval) && Known(t)
    ensures var i' := IdealTick(i, t.interval);
      && Collect(t).firing == t.firing + IdealFired(i, t.interval)
      && Refines(Finish(Collect(t)), i', b)
      && forall j :: 0 <= j < |i'.pending| ==> i'.pending[j].due > i'.elapsed
  {
    hide Collect, Finish, DuePrefix, Refines, Clock, DueBy, NotDueBy, Ids;
    var k := DuePrefix(Advanced(t), 0);
    CollectFindsDue(t, i, b);
    PendingIds(t, i, b);
    TickQueue(t);
    DueIsPrefix(i.pending, k, i.elapsed + t.interval);
    IdsOfPrefix(i.pending, k);
    ShiftRefines(t, i, b, k, Finish(Collect(t)), IdealTick(i, t.interval));
  }

  lemma PendingIds(t: Timers, i: Ideal, b: Bounds)
    requires Refines(t, i, b)
    ensures Ids(i.pending) == t.queue && |i.pending| == |t.queue|
  {
  }

  lemma IdsOfPrefix(p: seq<Timed>, k: nat)
    requires k <= |p|
    ensures Ids(p[..k]) == Ids(p)[..k]
  {
  }

  /** What one tick decides about a queued event, by its true deadline. */
  lemma TickDecides(t: Timers, i: Ideal, b: Bounds, ev: Id, due: int)
    requires Refines(t, i, b) && BoundsOk(b, t.interval) && FlagsOk(t) && t.firing == [] && Timed(ev, due) in i.pending
    ensures Known(t) && ev in t.events
    ensures var t', i' := Finish(Collect(t)), IdealTick(i, t.interval);
      && ev in t'.events && i'.elapsed == i.elapsed + t.interval
      && (ev in Collect(t).firing <==> due <= i'.elapsed)
      && (due > i'.elapsed ==> t'.events[ev].queued == t.events[ev].queued && Timed(ev, due) in i'.pending)
      && (due <= i'.elapsed ==> !t'.events[ev].queued)
  {
    hide Refines, Finish, Collect, FlagsOk, DuePrefix, Clock, Wrap, NotDueBy, DueBy, BeforeEq, Distinct;
    FlagsKnown(t);
    var j :| 0 <= j < |i.pending| && i.pending[j] == Timed(ev, due);
    PendingQueued(t, i, b, j);
    CollectFindsDue(t, i, b);
    CollectFlags(t);
    var k := DuePrefix(Advanced(t), 0);
    CollectSplits(t, k);
    DueIsPrefix(i.pending, k, i.elapsed + t.interval);
    SplitAt(t.queue, k, j);
    SplitAt(i.pending, k, j);
    FinishFlag(Collect(t), ev);
  }

  lemma CollectSplits(t: Timers, k: nat)
    requires FlagsOk(t) && t.firing == [] && Known(t) && k == DuePrefix(Advanced(t), 0)
    ensures Collect(t).firing == t.queue[..k] && Collect(t).queue == t.queue[k..]
    ensures Collect(t).events.Keys == t.events.Keys
    ensures Distinct(t.queue) && forall e :: e in t.queue ==> e in t.events && t.events[e].queued
  {
  }

  /**
   * Each element of a sequence is on the side of a cut its position says; if elements are distinct, on
   * that side only.
   */
  lemma SplitAt<T>(s: seq<T>, k: nat, j: nat)
    requires k <= |s| && j < |s|
    ensures if j < k then s[j] in s[..k] else s[j] in s[k..]
    ensures Distinct(s) ==> (s[j] in s[..k] <==> j < k) && (s[j] in s[k..] <==> j >= k)
  {
    if j < k { assert s[..k][j] == s[j]; } else { assert s[k..][j - k] == s[j]; }
    if Distinct(s) { SplitDistinct(s, k); }
  }

  lemma PendingQueued(t: Timers, i: Ideal, b: Bounds, j: nat)
    requires Refines(t, i, b) && (j < |i.pending| || j < |t.queue|)
    ensures |t.queue| == |i.pending| && t.queue[j] == i.pending[j].id && t.queue[j] in t.events
  {
  }

  lemma FinishFlag(t: Timers, ev: Id)
    requires FlagsOk(t) && ev in t.events
    ensures ev in Finish(t).events && (Finish(t).events[ev].queued <==> ev in t.queue)
  {
  }

  /** An event that is not queued is untouched by a tick. */
  lemma TickIgnores(t: Timers, ev: Id)
    requires FlagsOk(t) && t.firing == [] && ev in t.events && ev !in t.queue
    ensures Known(t) && ev !in Collect(t).firing && ev in Finish(Collect(t)).events
    ensures !Finish(Collect(t)).events[ev].queued
  {
    TickFlags(t);
    CollectFlags(t);
    assert forall x :: x in Collect(t).firing + Collect(t).queue <==> x in Collect(t).firing || x in Collect(t).queue;
  }

  lemma NotQueued(t: Timers, id: Id)
    requires FlagsOk(t) && id in t.events && !t.events[id].queued
    ensures id !in t.queue
  {
  }

  /** Dropping a prefix of both queues keeps the refinement, as long as what remains is still to come. */
  lemma ShiftRefines(t: Timers, i: Ideal, b: Bounds, k: nat, t': Timers, i': Ideal)
    requires Refines(t, i, b) && k <= |i.pending| && t'.queue == t.queue[k..] && i'.pending == i.pending[k..]
    requires t'.events.Keys == t.events.Keys && forall e :: e in t.events ==> t'.events[e].tick == t.events[e].tick
    requires t'.now == Clock(i'.elapsed) && i.elapsed <= i'.elapsed
    requires forall j :: k <= j < |i.pending| ==> i.pending[j].due > i'.elapsed
    ensures Refines(t', i', b) && forall j :: 0 <= j < |i'.pending| ==> i'.pending[j].due > i'.elapsed
  {
    hide Clock;
    forall j | 0 <= j < |i'.pending| ensures t'.queue[j] == t.queue[k + j] && i'.pending[j] == i.pending[k + j] {
    }
  }

  lemma TickQueue(t: Timers)
    requires Known(t)
    ensures var k, t' := DuePrefix(Advanced(t), 0), Finish(Collect(t));
      && Collect(t).firing == t.firing + t.queue[..k] && t'.queue == t.queue[k..] && t'.now == Advanced(t).now
      && t'.events.Keys == t.events.Keys && forall e :: e in t.events ==> t'.events[e].tick == t.events[e].tick
  {
  }

  // ----- Adding and deleting -----

  lemma InsertAtTrue(t: Timers, i: Ideal, b: Bounds, due: int, k: nat)
    requires Refines(t, i, b) && BoundsOk(b, t.interval) && Known(t) && k <= |t.queue|
    requires i.elapsed - b.late <= due <= i.elapsed + b.delay
    ensures InsertAt(t, k, Clock(due)) == IdealInsertAt(i.pending, k, due)
    decreases |t.queue| - k
  {
    if k < |t.queue| {
      CompareTrue(i.pending[k].due, due);
      InsertAtTrue(t, i, b, due, k + 1);
    }
  }

  /** A new deadline goes where its true time belongs, wherever the clock is on its circle. */
  lemma AddRefines(t: Timers, i: Ideal, b: Bounds, ev: Id, due: int)
    requires Refines(t, i, b) && BoundsOk(b, t.interval) && Known(t) && FlagsOk(t)
    requires ev in t.events && CanAdd(t, ev) && i.elapsed - b.late <= due <= i.elapsed + b.delay
    ensures Refines(Add(t, ev, Clock(due)), IdealAdd(i, ev, due), b)
  {
    InsertAtTrue(t, i, b, due, 0);
    var k := IdealInsertAt(i.pending, 0, due);
    var t', i' := Add(t, ev, Clock(due)), IdealAdd(i, ev, due);
    forall j | 0 <= j < |i'.pending|
      ensures t'.queue[j] == i'.pending[j].id && t'.queue[j] in t'.events
      ensures t'.events[t'.queue[j]].tick == Clock(i'.pending[j].due)
      ensures i.elapsed - b.late <= i'.pending[j].due <= i.elapsed + b.delay
    {
      if j != k {
        var o := if j < k then j else j - 1;
        assert i'.pending[j] == i.pending[o] && t'.queue[j] == t.queue[o];
        var e := t.queue[o];
        assert e in t.queue;
      }
    }
    InsertSorted(i.pending, k, Timed(ev, due));
  }

  lemma InsertSorted(p: seq<Timed>, k: nat, x: Timed)
    requires Sorted(p) && k <= |p|
    requires (forall j :: 0 <= j < k ==> p[j].due < x.due) && (k < |p| ==> p[k].due >= x.due)
    ensures Sorted(Inserted(p, k, x))
  {
    var r := Inserted(p, k, x);
    forall j | 0 <= j < |r| ensures r[j] == if j < k then p[j] else if j == k then x else p[j - 1] {
    }
  }

  lemma DelRefines(t: Timers, i: Ideal, b: Bounds, ev: Id)
    requires Refines(t, i, b) && FlagsOk(t) && ev in t.events
    ensures Refines(Del(t, ev), IdealDel(i, ev), b)
  {
    PendingIds(t, i, b);
    if ev in t.queue { DropRefines(t, i, b, ev, IndexOf(t.queue, ev)); }
  }

  lemma DropRefines(t: Timers, i: Ideal, b: Bounds, ev: Id, k: nat)
    requires Refines(t, i, b) && FlagsOk(t) && ev in t.events && k == IndexOf(t.queue, ev) < |t.queue|
    requires IndexOf(Ids(i.pending), ev) == k
    ensures Refines(Del(t, ev), IdealDel(i, ev), b)
  {
    hide Clock, Distinct, IndexOf;
    var t', i' := Del(t, ev), IdealDel(i, ev);
    assert t'.queue == Without(t.queue, k) && i'.pending == Without(i.pending, k);
    WithoutIndex(t.queue, k);
    WithoutIndex(i.pending, k);
    forall j | 0 <= j < |i'.pending|
      ensures t'.queue[j] == i'.pending[j].id && t'.queue[j] in t'.events
      ensures t'.events[t'.queue[j]].tick == Clock(i'.pending[j].due)
    {
      DelKeepsTick(t, ev, if j < k then j else j + 1);
    }
  }

  lemma DelKeepsTick(t: Timers, ev: Id, o: nat)
    requires FlagsOk(t) && ev in t.events && o < |t.queue| && t.queue[o] in t.events
    ensures t.queue[o] in Del(t, ev).events && Del(t, ev).events[t.queue[o]].tick == t.events[t.queue[o]].tick
  {
  }

  // ----- The bounds are exactly right -----

  /** From `from` milliseconds on, every add within the bounds leaves a queue that refines the unbounded one. */
  ghost predicate AddsRefine(b: Bounds, interval: u32, from: int) {
    forall t: Timers, i: Ideal, ev: Id, due: int {:trigger Refines(t, i, b), IdealAdd(i, ev, due)} ::
      t.interval == interval && FlagsOk(t) && Known(t) && Refines(t, i, b) && from <= i.elapsed && ev in t.events
      && CanAdd(t, ev) && i.elapsed - b.late <= due <= i.elapsed + b.delay ==>
      Refines(Add(t, ev, Clock(due)), IdealAdd(i, ev, due), b)
  }

  /** From then on, every tick fires what the unbounded timer fires, and leaves a queue that refines it. */
  ghost predicate TicksRefine(b: Bounds, interval: u32, from: int) {
    forall t: Timers, i: Ideal {:trigger Refines(t, i, b)} ::
      t.interval == interval && FlagsOk(t) && Known(t) && t.firing == [] && Refines(t, i, b) && from <= i.elapsed ==>
      Collect(t).firing == IdealFired(i, interval) && Refines(Finish(Collect(t)), IdealTick(i, interval), b)
  }

  /**
   * The 32-bit timer does what the unbounded one does, whatever is queued, if and only if both sums stay
   * below half the number circle: delay plus lateness, and tick interval plus lateness. That is so from any
   * moment on: however long the timer has run, wider bounds fail.
   */
  lemma BoundsExact(b: Bounds, interval: u32, from: int)
    ensures AddsRefine(b, interval, from) && TicksRefine(b, interval, from) <==> BoundsOk(b, interval)
  {
    hide Refines, Add, Collect, Finish, FlagsOk, IdealAdd, IdealTick, Clock;
    if BoundsOk(b, interval) {
      forall t: Timers, i: Ideal, ev: Id, due: int |
        t.interval == interval && FlagsOk(t) && Known(t) && Refines(t, i, b) && ev in t.events
          && CanAdd(t, ev) && i.elapsed - b.late <= due <= i.elapsed + b.delay
        ensures Refines(Add(t, ev, Clock(due)), IdealAdd(i, ev, due), b)
      {
        AddRefines(t, i, b, ev, due);
      }
      forall t: Timers, i: Ideal | t.interval == interval && Known(t) && t.firing == [] && Refines(t, i, b)
        ensures Collect(t).firing == IdealFired(i, interval) && Refines(Finish(Collect(t)), IdealTick(i, interval), b)
      {
        TickRefines(t, i, b);
      }
    } else if b.delay + b.late >= TWO31 {
      LateAddBreaks(b, interval, from);
    } else {
      LongTickBreaks(b, interval, from);
    }
  }

  const FIRST: Id := 1
  const SECOND: Id := 2

  /** After `elapsed` milliseconds one event is queued for true time `due`, and another is free. */
  function OneQueued(elapsed: int, due: int, interval: u32): Timers {
    Timers(Clock(elapsed), interval, true, [FIRST], [],
      map[FIRST := Event(Clock(due), true, false, false), SECOND := Event(0, false, false, false)])
  }

  lemma OneQueuedRefines(elapsed: int, due: int, interval: u32, b: Bounds)
    requires elapsed - b.late <= due <= elapsed + b.delay
    ensures FlagsOk(OneQueued(elapsed, due, interval)) && Known(OneQueued(elapsed, due, interval))
    ensures Refines(OneQueued(elapsed, due, interval), Ideal(elapsed, [Timed(FIRST, due)]), b)
  {
    hide Clock;
  }

  /** Two deadlines half the circle apart: the later one is put ahead of the earlier. */
  lemma LateAddBreaks(b: Bounds, interval: u32, from: int)
    requires b.delay + b.late >= TWO31
    ensures !AddsRefine(b, interval, from)
  {
    var x := from - b.late;
    var t, i, y := OneQueued(from, x, interval), Ideal(from, [Timed(FIRST, x)]), x + TWO31;
    OneQueuedRefines(from, x, interval, b);
    LateOrder(from, x, interval);
    assert Refines(t, i, b) && CanAdd(t, SECOND) && IdealAdd(i, SECOND, y).pending[0] == Timed(FIRST, x);
    assert Add(t, SECOND, Clock(y)).queue[0] == SECOND;
    assert !Refines(Add(t, SECOND, Clock(y)), IdealAdd(i, SECOND, y), b);
  }

  lemma LateOrder(elapsed: int, x: int, interval: u32)
    ensures var t, y := OneQueued(elapsed, x, interval), x + TWO31;
      Known(t) && Add(t, SECOND, Clock(y)).queue == [SECOND, FIRST]
      && IdealAdd(Ideal(elapsed, [Timed(FIRST, x)]), SECOND, y).pending == [Timed(FIRST, x), Timed(SECOND, y)]
  {
    hide Clock;
    var t, y := OneQueued(elapsed, x, interval), x + TWO31;
    AfterEqExact(x, y);
    assert InsertAt(t, 0, Clock(y)) == 0;
    assert IdealInsertAt([Timed(FIRST, x)], 0, y) == IdealInsertAt([Timed(FIRST, x)], 1, y) == 1;
  }

  /** A deadline that the tick passes by half the circle or more is taken for one still to come. */
  lemma LongTickBreaks(b: Bounds, interval: u32, from: int)
    requires interval + b.late >= TWO31 && b.delay + b.late < TWO31
    ensures !TicksRefine(b, interval, from)
  {
    var due := from + if interval - TWO31 <= b.delay then interval - TWO31 else b.delay;
    var t, i := OneQueued(from, due, interval), Ideal(from, [Timed(FIRST, due)]);
    OneQueuedRefines(from, due, interval, b);
    assert Refines(t, i, b);
    PassedOver(from, due, interval);
    assert Collect(t).firing != IdealFired(i, interval);
  }

  lemma PassedOver(elapsed: int, due: int, interval: u32)
    requires TWO31 <= elapsed + interval - due < TWO32
    ensures var t := OneQueued(elapsed, due, interval);
      Known(t) && Collect(t).firing == [] && IdealFired(Ideal(elapsed, [Timed(FIRST, due)]), interval) == [FIRST]
  {
    hide Clock;
    var t := OneQueued(elapsed, due, interval);
    ClockAdvances(elapsed, interval);
    LooksFuture(due, elapsed + interval);
    assert DuePrefix(Advanced(t), 0) == 0;
    assert DueBy([Timed(FIRST, due)], elapsed + interval) == [Timed(FIRST, due)];
  }

  lemma LooksFuture(due: int, now: int)
    requires TWO31 <= now - due < TWO32
    ensures !BeforeEq(Clock(due), Clock(now))
  {
    ClockDifference(due, now);
    SignedOfSmall(now - due - TWO32);
    WrapShift(now - due - TWO32, 1);
  }

  /**
   * An instance: kern_timer_event_add computes the deadline before it takes the lock. Two milliseconds after
   * the start an event has been queued for 2^31 - 1 ahead; an add whose deadline was computed at the start is
   * put behind that one, although its time has passed.
   */
  lemma LateAdd()
    ensures var t, i, b := OneQueued(2, TWO31 + 1, 1), Ideal(2, [Timed(FIRST, TWO31 + 1)]), Bounds(TWO31 - 1, 2);
      && Refines(t, i, b) && FlagsOk(t) && Known(t)
      && Add(t, SECOND, Clock(0)).queue == [FIRST, SECOND]
      && IdealAdd(i, SECOND, 0).pending == [Timed(SECOND, 0), Timed(FIRST, TWO31 + 1)]
      && !Refines(Add(t, SECOND, Clock(0)), IdealAdd(i, SECOND, 0), b)
  {
    hide Clock;
    var t := OneQueued(2, TWO31 + 1, 1);
    AfterEqExact(TWO31 + 1, 0);
    assert InsertAt(t, 0, Clock(0)) == InsertAt(t, 1, Clock(0)) == 1;
    assert IdealInsertAt([Timed(FIRST, TWO31 + 1)], 0, 0) == 0;
    assert Add(t, SECOND, Clock(0)).queue[0] == FIRST;
    assert IdealAdd(Ideal(2, [Timed(FIRST, TWO31 + 1)]), SECOND, 0).pending[0].id == SECOND;
  }
}
