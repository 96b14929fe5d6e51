/**
 * Lists of structures: an intrusive list whose nodes lie at a fixed offset inside the structures it holds,
 * as container_of finds them.
 */
module NodeList {
  import opened Word32
  import opened Memory
  import opened IntrusiveList
  import opened Sequences
  type Id = int

  /** The nodes of the structures `q`. */
  function NodesAt(q: seq<Id>, off: int): (F: seq<int>)
    ensures |F| == |q| && forall i :: 0 <= i < |q| ==> F[i] == q[i] + off
  {
    seq(|q|, i requires 0 <= i < |q| => q[i] + off)
  }

  /** The list `l` holds exactly the structures `q`, in that order. */
  ghost predicate Holds(l: List, off: int, q: seq<Id>) {
    Linked(l, NodesAt(q, off))
  }

  /** Structures of `size` bytes, all in memory, no two overlapping. */
  ghost predicate Spaced(n: int, ids: set<Id>, size: int) {
    && (forall e :: e in ids ==> 0 < e && e + size <= n <= TWO32)
    && (forall e, f :: e in ids && f in ids && e != f ==> e + size <= f || f + size <= e)
  }

  ghost predicate AllIn(q: seq<Id>, ids: set<Id>) {
    forall e :: e in q ==> e in ids
  }

  /** Nothing has changed but the nodes, at offset `off`, of the structures `ids`. */
  ghost predicate TouchesNodes(m: Mem, m': Mem, off: int, ids: set<Id>) {
    && |m'| == |m|
    && forall x :: 0 <= x < |m| && (forall e :: e in ids ==> !(e + off <= x < e + off + 8)) ==> m'[x] == m[x]
  }

  function Members(q: seq<Id>): set<Id> {
    set e | e in q
  }

  lemma TouchesAt(m: Mem, m': Mem, q: seq<Id>, off: int)
    requires Touches(m, m', NodesAt(q, off))
    ensures TouchesNodes(m, m', off, Members(q))
  {
    var F := NodesAt(q, off);
    forall x | 0 <= x < |m| && (forall e :: e in Members(q) ==> !(e + off <= x < e + off + 8)) ensures m'[x] == m[x] {
      forall i | 0 <= i < |F| ensures !(F[i] <= x < F[i] + 8) { assert q[i] in Members(q); }
      assert Outside(F, x);
    }
  }

  lemma TouchesMore(m: Mem, m': Mem, off: int, a: set<Id>, b: set<Id>)
    requires TouchesNodes(m, m', off, a) && a <= b
    ensures TouchesNodes(m, m', off, b)
  {
  }

  lemma TouchesBoth(m: Mem, m1: Mem, m': Mem, off: int, ids: set<Id>)
    requires TouchesNodes(m, m1, off, ids) && TouchesNodes(m1, m', off, ids)
    ensures TouchesNodes(m, m', off, ids)
  {
  }

  /** A list none of whose nodes is touched holds what it held. */
  lemma HoldsKept(l: List, off: int, q: seq<Id>, m': Mem, touchedOff: int, touched: set<Id>, ids: set<Id>, size: int)
    requires Holds(l, off, q) && TouchesNodes(l.mem, m', touchedOff, touched)
    requires Spaced(|l.mem|, ids, size) && touched <= ids && AllIn(q, ids)
    requires 0 <= off && off + 8 <= size && 0 <= touchedOff && touchedOff + 8 <= size
    requires
      || off + 8 <= touchedOff || touchedOff + 8 <= off
      || (off == touchedOff && forall e :: e in q ==> e !in touched)
    ensures Holds(l.(mem := m'), off, q)
  {
    var F := NodesAt(q, off);
    forall i, x | 0 <= i < |F| && F[i] <= x < F[i] + 8 ensures 0 <= x < |m'| && m'[x] == l.mem[x] {
      assert q[i] in q && InMemory(l.mem, F[i]);
      forall e | e in touched ensures !(e + touchedOff <= x < e + touchedOff + 8) {
        assert e in ids && q[i] in ids;
      }
    }
    BytesKept(l, m', F);
  }

  lemma BytesKept(l: List, m': Mem, F: seq<int>)
    requires Linked(l, F) && |m'| == |l.mem|
    requires forall i, x :: 0 <= i < |F| && F[i] <= x < F[i] + 8 ==> 0 <= x < |m'| && m'[x] == l.mem[x]
    ensures Linked(l.(mem := m'), F)
  {
    hide Get32;
    forall i | 0 <= i < |F|
      ensures Prev(m', F[i]) == Before(F, i) && Next(m', F[i]) == After(F, i)
    {
      var n := F[i];
      assert InMemory(l.mem, n) && Prev(l.mem, n) == Before(F, i) && Next(l.mem, n) == After(F, i);
      assert forall x :: n <= x < n + 8 ==> m'[x] == l.mem[x];
      assert m'[n..n + 4] == l.mem[n..n + 4] && m'[n + 4..n + 8] == l.mem[n + 4..n + 8];
      GetAgrees(l.mem, n, m', n);
      GetAgrees(l.mem, n + 4, m', n + 4);
    }
  }

  // ----- The nodes of struct kern_task, by their offsets in it -----

  const LIST_NODE: int := 172
  const ACTIVE_NODE: int := 180
  const EVENT_NODE: int := 204   // of the sleep event inside it
  const TASK_SIZE: int := 240

  // ----- What linked memory says about the sequence -----

  lemma HeldDistinct(l: List, off: int, q: seq<Id>)
    requires Holds(l, off, q)
    ensures Distinct(q) && forall i :: 0 <= i < |q| ==> InMemory(l.mem, q[i] + off)
    ensures l.head == (if q == [] then 0 else q[0] + off) && (q == [] <==> l.head == 0)
    ensures q != [] ==> l.head > 0
  {
    hide Get32;
    var F := NodesAt(q, off);
    forall i | 0 <= i < |q| ensures InMemory(l.mem, q[i] + off) { assert InMemory(l.mem, F[i]); }
    forall i, j | 0 <= i < j < |q| ensures q[i] != q[j] { assert Disjoint(F[i], F[j]); }
  }

  /** Following the link of entry `k` leads to entry `k + 1`, or to null from the last. */
  lemma LinkAt(l: List, off: int, q: seq<Id>, k: nat)
    requires Holds(l, off, q) && k < |q|
    ensures InMemory(l.mem, q[k] + off)
    ensures Next(l.mem, q[k] + off) == if k + 1 < |q| then q[k + 1] + off else 0
    ensures k + 1 < |q| ==> q[k + 1] + off > 0
  {
    hide Get32;
    var F := NodesAt(q, off);
    assert InMemory(l.mem, F[k]) && Next(l.mem, F[k]) == After(F, k);
    if k + 1 < |q| { assert InMemory(l.mem, F[k + 1]); }
  }

  lemma ApartFrom(l: List, off: int, q: seq<Id>, e: Id, ids: set<Id>, size: int)
    requires Holds(l, off, q) && Spaced(|l.mem|, ids, size) && AllIn(q, ids) && e in ids && e !in q
    requires 0 <= off && off + 8 <= size
    ensures InMemory(l.mem, e + off) && Apart(NodesAt(q, off), e + off)
  {
    forall i | 0 <= i < |q| ensures Disjoint(NodesAt(q, off)[i], e + off) { assert q[i] in q; }
  }

  /** list_node_init. */
  method NodeInit(mem: array<u8>, off: int, e: Id)
    requires InMemory(mem[..], e + off)
    modifies mem
    ensures TouchesNodes(old(mem[..]), mem[..], off, {e})
  {
    hide Get32;
    Store32(mem, e + off, 0);
    Store32(mem, e + off + 4, 0);
  }

  // ----- The lists -----

  /** A list head, and for the proof the structures it holds. */
  class StructList {
    const mem: array<u8>
    const off: int
    const ends: ListHead
    ghost var q: seq<Id>

    ghost predicate Valid()
      reads this, mem, ends
    {
      Holds(ends.On(mem[..]), off, q)
    }

    /** list_head_init. */
    constructor (mem: array<u8>, off: int)
      ensures this.mem == mem && this.off == off && fresh(ends) && q == [] && Valid()
    {
      this.mem, this.off := mem, off;
      ends := new ListHead();
      q := [];
    }

    method IsEmpty() returns (empty: bool)
      requires Valid()
      ensures empty <==> q == []
    {
      HeldDistinct(ends.On(mem[..]), off, q);
      empty := ends.IsEmpty();
    }

    /** container_of the head. */
    method First() returns (e: Id)
      requires Valid() && q != []
      ensures e == q[0]
    {
      HeldDistinct(ends.On(mem[..]), off, q);
      e := ends.head as int - off;
    }

    /** list_add_tail. */
    method PushTail(e: Id, ghost ids: set<Id>, ghost size: int)
      requires Valid() && Spaced(mem.Length, ids, size) && AllIn(q, ids) && e in ids && e !in q
      requires 0 <= off && off + 8 <= size
      modifies this, mem, ends
      ensures Valid() && q == old(q) + [e] && TouchesNodes(old(mem[..]), mem[..], off, Members(q))
    {
      hide Linked, TailAdded, Get32, InMemory, Touches;
      ghost var l := ends.On(mem[..]);
      ApartFrom(l, off, q, e, ids, size);
      AddTailInserts(l, NodesAt(q, off), e + off);
      ends.AddTail(mem, e + off);
      assert NodesAt(q + [e], off) == NodesAt(q, off) + [e + off];
      q := q + [e];
      TouchesAt(l.mem, mem[..], q, off);
    }

    /** list_add_head. */
    method PushHead(e: Id, ghost ids: set<Id>, ghost size: int)
      requires Valid() && Spaced(mem.Length, ids, size) && AllIn(q, ids) && e in ids && e !in q
      requires 0 <= off && off + 8 <= size
      modifies this, mem, ends
      ensures Valid() && q == [e] + old(q) && TouchesNodes(old(mem[..]), mem[..], off, Members(q))
    {
      hide Linked, HeadAdded, Get32, InMemory, Touches;
      ghost var l := ends.On(mem[..]);
      ApartFrom(l, off, q, e, ids, size);
      AddHeadInserts(l, NodesAt(q, off), e + off);
      ends.AddHead(mem, e + off);
      assert NodesAt([e] + q, off) == [e + off] + NodesAt(q, off);
      q := [e] + q;
      TouchesAt(l.mem, mem[..], q, off);
    }

    /** list_add_before, in front of the entry `b` at position `k`. */
    method InsertBefore(b: Id, ghost k: nat, e: Id, ghost ids: set<Id>, ghost size: int)
      requires Valid() && Spaced(mem.Length, ids, size) && AllIn(q, ids) && e in ids && e !in q
      requires 0 <= off && off + 8 <= size
      requires k < |q| && q[k] == b
      modifies this, mem, ends
      ensures Valid() && q == Inserted(old(q), k, e) && TouchesNodes(old(mem[..]), mem[..], off, Members(q))
    {
      hide Linked, AddedBefore, Get32, Touches;
      ghost var l, F := ends.On(mem[..]), NodesAt(q, off);
      ApartFrom(l, off, q, e, ids, size);
      AddBeforeInserts(l, F, k, e + off);
      HeldDistinct(l, off, q);
      assert Disjoint(F[k], e + off);
      ends.AddBefore(mem, b + off, e + off);
      assert NodesAt(Inserted(q, k, e), off) == F[..k] + [e + off] + F[k..];
      q := Inserted(q, k, e);
      TouchesAt(l.mem, mem[..], q, off);
    }

    /** list_delete. */
    method Remove(e: Id)
      requires Valid() && e in q
      modifies this, mem, ends
      ensures Valid() && q == Removed(old(q), e) && TouchesNodes(old(mem[..]), mem[..], off, Members(old(q)))
    {
      hide Linked, Deleted, Get32, Touches;
      ghost var l, F, k := ends.On(mem[..]), NodesAt(q, off), IndexOf(q, e);
      DeleteRemoves(l, F, k);
      HeldDistinct(l, off, q);
      ends.Delete(mem, e + off);
      assert NodesAt(Without(q, k), off) == F[..k] + F[k + 1..];
      TouchesAt(l.mem, mem[..], q, off);
      q := Without(q, k);
    }

    /** The structure after entry `k`, whose node leads to it; `more` is whether there is one. */
    method After(e: Id, ghost k: nat) returns (more: bool, next: Id)
      requires Valid() && k < |q| && q[k] == e
      ensures more == (k + 1 < |q|) && (more ==> next == q[k + 1])
    {
      hide Linked, Get32;
      LinkAt(ends.On(mem[..]), off, q, k);
      var n := Load32(mem, e + off + 4);
      more, next := n != 0, n as int - off;
    }
  }
}
