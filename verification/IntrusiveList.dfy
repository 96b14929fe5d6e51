/**
 * The kernel's intrusive doubly linked lists, in the raw memory they are threaded through.
 *
 * A node is eight bytes somewhere inside another structure: the address of the previous node,
 * then the address of the next. Address 0 is the null pointer. A list of nodes at the addresses
 * `F` is described by `Linked(l, F)`; the operations are shown to be insertion into and removal
 * from `F`, and to touch no byte that is not inside one of those nodes.
 */
module IntrusiveList {
  import opened Word32
  import opened Memory

  /** Memory together with one `struct list_head`. */
  datatype List = List(mem: Mem, head: u32, tail: u32)

  function Prev(m: Mem, n: int): u32
    requires InMemory(m, n)
  {
    Get32(m, n)
  }

  function Next(m: Mem, n: int): u32
    requires InMemory(m, n)
  {
    Get32(m, n + 4)
  }

  predicate InMemory(m: Mem, n: int) {
    0 < n && n + 8 <= |m| && n < TWO32
  }

  predicate Disjoint(a: int, b: int) {
    a + 8 <= b || b + 8 <= a
  }

  /** Node addresses are usable and no two nodes share a byte. */
  ghost predicate Nodes(m: Mem, F: seq<int>) {
    && (forall i :: 0 <= i < |F| ==> InMemory(m, F[i]))
    && (forall i, j {:trigger Disjoint(F[i], F[j])} :: 0 <= i < |F| && 0 <= j < |F| && i != j ==> Disjoint(F[i], F[j]))
  }

  ghost function Before(F: seq<int>, i: int): int
    requires 0 <= i <= |F|
  {
    if i == 0 then 0 else F[i - 1]
  }

  ghost function After(F: seq<int>, i: int): int
    requires -1 <= i < |F|
  {
    if i == |F| - 1 then 0 else F[i + 1]
  }

  /** `l` is exactly the list of the nodes `F`, in that order, readable from either end. */
  ghost predicate Linked(l: List, F: seq<int>) {
    && Nodes(l.mem, F)
    && l.head == After(F, -1)
    && l.tail == Before(F, |F|)
    && (forall i {:trigger Prev(l.mem, F[i])} :: 0 <= i < |F| ==> Prev(l.mem, F[i]) == Before(F, i))
    && (forall i {:trigger Next(l.mem, F[i])} :: 0 <= i < |F| ==> Next(l.mem, F[i]) == After(F, i))
  }

  /** Node `n` shares no byte with a node of `F`. */
  ghost predicate Apart(F: seq<int>, n: int) {
    forall i :: 0 <= i < |F| ==> Disjoint(F[i], n)
  }

  /** Byte `x` lies in no node of `F`. */
  ghost predicate Outside(F: seq<int>, x: int) {
    forall i :: 0 <= i < |F| ==> !(F[i] <= x < F[i] + 8)
  }

  /** Every byte outside the nodes `F` is as it was. */
  ghost predicate Touches(m: Mem, m': Mem, F: seq<int>) {
    |m'| == |m| && forall x :: 0 <= x < |m| && Outside(F, x) ==> m'[x] == m[x]
  }

  // ----- The operations of list.c -----

  function HeadAdded(l: List, n: int): List
    requires InMemory(l.mem, n) && (l.head != 0 ==> InMemory(l.mem, l.head))
  {
    var m := Put32(l.mem, n, 0);
    if l.head != 0 then
      var m := Put32(m, n + 4, l.head);
      List(Put32(m, l.head, n), n, l.tail)
    else
      List(Put32(m, n + 4, 0), n, n)
  }

  function TailAdded(l: List, n: int): List
    requires InMemory(l.mem, n) && (l.tail != 0 ==> InMemory(l.mem, l.tail))
  {
    var m := Put32(l.mem, n + 4, 0);
    if l.tail != 0 then
      var m := Put32(m, n, l.tail);
      List(Put32(m, l.tail + 4, n), l.head, n)
    else
      List(Put32(m, n, 0), n, n)
  }

  function AddedBefore(l: List, b: int, n: int): List
    requires InMemory(l.mem, b) && InMemory(l.mem, n) && Disjoint(b, n)
    requires Prev(l.mem, b) != 0 ==> InMemory(l.mem, Prev(l.mem, b)) && Disjoint(b, Prev(l.mem, b))
  {
    var p := Prev(l.mem, b);
    var m := Put32(Put32(l.mem, n + 4, b), n, p);
    var m := if p != 0 then Put32(m, p + 4, n) else m;
    List(Put32(m, b, n), if p != 0 then l.head else n, l.tail)
  }

  function AddedAfter(l: List, a: int, n: int): List
    requires InMemory(l.mem, a) && InMemory(l.mem, n) && Disjoint(a, n)
    requires Next(l.mem, a) != 0 ==> InMemory(l.mem, Next(l.mem, a)) && Disjoint(a, Next(l.mem, a))
  {
    var x := Next(l.mem, a);
    var m := Put32(Put32(l.mem, n, a), n + 4, x);
    var m := if x != 0 then Put32(m, x, n) else m;
    List(Put32(m, a + 4, n), l.head, if x != 0 then l.tail else n)
  }

  function Deleted(l: List, n: int): List
    requires InMemory(l.mem, n)
    requires var x := Next(l.mem, n); x != 0 ==> InMemory(l.mem, x) && Disjoint(x, n)
    requires var p := Prev(l.mem, n); p != 0 ==> InMemory(l.mem, p) && Disjoint(p, n)
  {
    var x := Next(l.mem, n);
    var p := Prev(l.mem, n);
    var m := if x != 0 then Put32(l.mem, x, p) else l.mem;
    var m := if p != 0 then Put32(m, p + 4, x) else m;
    var m := Put32(Put32(m, n + 4, 0), n, 0);
    List(m, if l.head == n then x else l.head, if l.tail == n then p else l.tail)
  }

  // ----- What they do to the sequence of nodes -----

  /** The four words an insertion between `p` and `x` leaves, and every other node's words as they were. */
  ghost predicate Spliced(m: Mem, m': Mem, p: int, n: int, x: int) {
    && InMemory(m, n) && |m'| == |m|
    && Prev(m', n) == p && Next(m', n) == x
    && (p != 0 ==> InMemory(m, p) && Next(m', p) == n && Prev(m', p) == Prev(m, p))
    && (x != 0 ==> InMemory(m, x) && Prev(m', x) == n && Next(m', x) == Next(m, x))
    && (forall y {:trigger Prev(m', y)} {:trigger Next(m', y)} ::
      InMemory(m, y) && Disjoint(y, n) && (p != 0 ==> Disjoint(y, p)) && (x != 0 ==> Disjoint(y, x)) ==>
      Prev(m', y) == Prev(m, y) && Next(m', y) == Next(m, y))
  }

  lemma SplicedNode(l: List, m': Mem, F: seq<int>, k: int, n: int, j: int)
    requires Linked(l, F) && Apart(F, n) && 0 <= k <= |F| && 0 <= j < |F|
    requires Spliced(l.mem, m', Before(F, k), n, After(F, k - 1))
    ensures Prev(m', F[j]) == if j == k then n else Before(F, j)
    ensures Next(m', F[j]) == if j == k - 1 then n else After(F, j)
  {
    hide Get32;
    assert Disjoint(F[j], n);
    assert j != k && k < |F| ==> Disjoint(F[j], F[k]);
    assert j != k - 1 && k > 0 ==> Disjoint(F[j], F[k - 1]);
    assert Prev(l.mem, F[j]) == Before(F, j) && Next(l.mem, F[j]) == After(F, j);
  }

  lemma NodesInsert(m: Mem, m': Mem, F: seq<int>, k: int, n: int)
    requires Nodes(m, F) && InMemory(m, n) && Apart(F, n) && 0 <= k <= |F| && |m'| == |m|
    ensures Nodes(m', F[..k] + [n] + F[k..])
  {
    var F' := F[..k] + [n] + F[k..];
    forall i | 0 <= i < |F'|
      ensures F'[i] == if i < k then F[i] else if i == k then n else F[i - 1]
    {
    }
  }

  lemma SplicedInserts(l: List, l': List, F: seq<int>, k: int, n: int)
    requires Linked(l, F) && InMemory(l.mem, n) && Apart(F, n) && 0 <= k <= |F|
    requires Spliced(l.mem, l'.mem, Before(F, k), n, After(F, k - 1))
    requires l'.head == if k == 0 then n else l.head
    requires l'.tail == if k == |F| then n else l.tail
    ensures Linked(l', F[..k] + [n] + F[k..])
  {
    hide Prev, Next, Nodes, Apart;
    var F' := F[..k] + [n] + F[k..];
    NodesInsert(l.mem, l'.mem, F, k, n);
    forall i | 0 <= i < |F'|
      ensures Prev(l'.mem, F'[i]) == Before(F', i) && Next(l'.mem, F'[i]) == After(F', i)
    {
      SplicedAt(l, l', F, k, n, i);
    }
  }

  lemma SplicedAt(l: List, l': List, F: seq<int>, k: int, n: int, i: int)
    requires Linked(l, F) && InMemory(l.mem, n) && Apart(F, n) && 0 <= k <= |F| && 0 <= i <= |F|
    requires Spliced(l.mem, l'.mem, Before(F, k), n, After(F, k - 1))
    ensures var F' := F[..k] + [n] + F[k..];
      InMemory(l'.mem, F'[i]) && Prev(l'.mem, F'[i]) == Before(F', i) && Next(l'.mem, F'[i]) == After(F', i)
  {
    hide Prev, Next;
    var F' := F[..k] + [n] + F[k..];
    assert F'[k] == n;
    assert forall j :: 0 <= j < k ==> F'[j] == F[j];
    assert forall j :: k < j < |F'| ==> F'[j] == F[j - 1];
    if i < k {
      SplicedNode(l, l'.mem, F, k, n, i);
    } else if i > k {
      SplicedNode(l, l'.mem, F, k, n, i - 1);
    }
  }

  lemma AddHeadInserts(l: List, F: seq<int>, n: int)
    requires Linked(l, F) && InMemory(l.mem, n) && Apart(F, n)
    ensures l.head != 0 ==> InMemory(l.mem, l.head)
    ensures var l' := HeadAdded(l, n); Linked(l', [n] + F) && Touches(l.mem, l'.mem, [n] + F)
  {
    hide Get32, Put32;
    var l', F' := HeadAdded(l, n), [n] + F;
    assert |F| > 0 ==> Disjoint(F[0], n) && F'[1] == F[0];
    assert F' == F[..0] + [n] + F[0..] && F'[0] == n;
    SplicedInserts(l, l', F, 0, n);
  }

  lemma AddTailInserts(l: List, F: seq<int>, n: int)
    requires Linked(l, F) && InMemory(l.mem, n) && Apart(F, n)
    ensures l.tail != 0 ==> InMemory(l.mem, l.tail)
    ensures var l' := TailAdded(l, n); Linked(l', F + [n]) && Touches(l.mem, l'.mem, F + [n])
  {
    hide Get32, Put32;
    var l', F', z := TailAdded(l, n), F + [n], |F|;
    assert z > 0 ==> Disjoint(F[z - 1], n) && F'[z - 1] == F[z - 1];
    assert F' == F[..z] + [n] + F[z..] && F'[z] == n;
    SplicedInserts(l, l', F, z, n);
  }

  lemma AddBeforeInserts(l: List, F: seq<int>, k: int, n: int)
    requires Linked(l, F) && InMemory(l.mem, n) && Apart(F, n) && 0 <= k < |F|
    ensures var p := Prev(l.mem, F[k]); p != 0 ==> InMemory(l.mem, p) && Disjoint(F[k], p)
    ensures var l', F' := AddedBefore(l, F[k], n), F[..k] + [n] + F[k..];
      Linked(l', F') && Touches(l.mem, l'.mem, F')
  {
    hide Get32, Put32;
    assert Prev(l.mem, F[k]) == Before(F, k);
    assert k > 0 ==> Disjoint(F[k - 1], F[k]) && Disjoint(F[k - 1], n);
    var F', l' := F[..k] + [n] + F[k..], AddedBefore(l, F[k], n);
    SplicedInserts(l, l', F, k, n);
    assert F'[k] == n && F'[k + 1] == F[k] && (k > 0 ==> F'[k - 1] == F[k - 1]);
  }

  lemma AddAfterInserts(l: List, F: seq<int>, k: int, n: int)
    requires Linked(l, F) && InMemory(l.mem, n) && Apart(F, n) && 0 <= k < |F|
    ensures var x := Next(l.mem, F[k]); x != 0 ==> InMemory(l.mem, x) && Disjoint(F[k], x)
    ensures var l', F' := AddedAfter(l, F[k], n), F[..k + 1] + [n] + F[k + 1..];
      Linked(l', F') && Touches(l.mem, l'.mem, F')
  {
    hide Get32, Put32;
    assert Next(l.mem, F[k]) == After(F, k);
    assert k + 1 < |F| ==> Disjoint(F[k], F[k + 1]) && Disjoint(F[k + 1], n);
    var F', l' := F[..k + 1] + [n] + F[k + 1..], AddedAfter(l, F[k], n);
    SplicedInserts(l, l', F, k + 1, n);
    assert F'[k] == F[k] && F'[k + 1] == n && (k + 1 < |F| ==> F'[k + 2] == F[k + 1]);
  }

  lemma DeletedNode(l: List, F: seq<int>, k: int, j: int)
    requires Linked(l, F) && 0 <= k < |F| && 0 <= j < |F| && j != k
    ensures var x := Next(l.mem, F[k]); x != 0 ==> InMemory(l.mem, x) && Disjoint(x, F[k])
    ensures var p := Prev(l.mem, F[k]); p != 0 ==> InMemory(l.mem, p) && Disjoint(p, F[k])
    ensures var m' := Deleted(l, F[k]).mem;
      && |m'| == |l.mem|
      && Prev(m', F[j]) == (if j == k + 1 then Before(F, k) else Before(F, j))
      && Next(m', F[j]) == (if j == k - 1 then After(F, k) else After(F, j))
  {
    hide Get32, Put32;
    assert Prev(l.mem, F[k]) == Before(F, k) && Next(l.mem, F[k]) == After(F, k);
    assert k + 1 < |F| ==> Disjoint(F[k], F[k + 1]);
    assert k > 0 ==> Disjoint(F[k - 1], F[k]);
    assert Disjoint(F[j], F[k]);
    assert j != k + 1 && k + 1 < |F| ==> Disjoint(F[j], F[k + 1]);
    assert j != k - 1 && k > 0 ==> Disjoint(F[j], F[k - 1]);
    assert Prev(l.mem, F[j]) == Before(F, j) && Next(l.mem, F[j]) == After(F, j);
  }

  lemma DeleteTouches(l: List, F: seq<int>, k: int)
    requires Linked(l, F) && 0 <= k < |F|
    ensures var x := Next(l.mem, F[k]); x != 0 ==> InMemory(l.mem, x) && Disjoint(x, F[k])
    ensures var p := Prev(l.mem, F[k]); p != 0 ==> InMemory(l.mem, p) && Disjoint(p, F[k])
    ensures var l' := Deleted(l, F[k]);
      && Touches(l.mem, l'.mem, F)
      && l'.head == (if k == 0 then After(F, 0) else l.head)
      && l'.tail == (if k == |F| - 1 then Before(F, k) else l.tail)
      && Prev(l'.mem, F[k]) == 0 == Next(l'.mem, F[k])
  {
    hide Get32, Put32;
    assert Prev(l.mem, F[k]) == Before(F, k) && Next(l.mem, F[k]) == After(F, k);
    assert k + 1 < |F| ==> Disjoint(F[k], F[k + 1]) && Disjoint(F[k], F[|F| - 1]);
    assert k > 0 ==> Disjoint(F[k - 1], F[k]) && Disjoint(F[0], F[k]);
  }

  lemma DeleteRemoves(l: List, F: seq<int>, k: int)
    requires Linked(l, F) && 0 <= k < |F|
    ensures var x := Next(l.mem, F[k]); x != 0 ==> InMemory(l.mem, x) && Disjoint(x, F[k])
    ensures var p := Prev(l.mem, F[k]); p != 0 ==> InMemory(l.mem, p) && Disjoint(p, F[k])
    ensures var l' := Deleted(l, F[k]);
      && Linked(l', F[..k] + F[k + 1..]) && Touches(l.mem, l'.mem, F)
      && Prev(l'.mem, F[k]) == 0 == Next(l'.mem, F[k])
  {
    hide Prev, Next, Deleted;
    DeleteTouches(l, F, k);
    var F', l' := F[..k] + F[k + 1..], Deleted(l, F[k]);
    assert forall i :: 0 <= i < k ==> F'[i] == F[i];
    assert forall i :: k <= i < |F'| ==> F'[i] == F[i + 1];
    forall i | 0 <= i < |F'|
      ensures Prev(l'.mem, F'[i]) == Before(F', i) && Next(l'.mem, F'[i]) == After(F', i)
    {
      DeletedNode(l, F, k, if i < k then i else i + 1);
    }
  }

  /** A list none of whose nodes is touched keeps its contents. */
  lemma OtherListKept(l: List, m': Mem, F: seq<int>, touched: seq<int>)
    requires Linked(l, F) && Touches(l.mem, m', touched)
    requires forall i :: 0 <= i < |F| ==> Apart(touched, F[i])
    ensures Linked(l.(mem := m'), F)
  {
    hide Get32;
    forall i | 0 <= i < |F|
      ensures Prev(m', F[i]) == Before(F, i) && Next(m', F[i]) == After(F, i)
    {
      UntouchedBytes(l.mem, m', touched, F[i], 8);
      assert Prev(l.mem, F[i]) == Before(F, i) && Next(l.mem, F[i]) == After(F, i);
      var b := m'[F[i]..F[i] + 8];
      assert b[0..4] == m'[F[i]..F[i] + 4] == l.mem[F[i]..F[i] + 4];
      assert b[4..8] == m'[F[i] + 4..F[i] + 8] == l.mem[F[i] + 4..F[i] + 8];
      GetAgrees(l.mem, F[i], m', F[i]);
      GetAgrees(l.mem, F[i] + 4, m', F[i] + 4);
    }
  }

  lemma UntouchedBytes(m: Mem, m': Mem, touched: seq<int>, a: int, n: nat)
    requires Touches(m, m', touched) && 0 <= a && a + n <= |m|
    requires forall i :: 0 <= i < |touched| ==> touched[i] + 8 <= a || a + n <= touched[i]
    ensures m'[a..a + n] == m[a..a + n]
  {
    forall x | a <= x < a + n ensures m'[x] == m[x] {
      assert Outside(touched, x);
    }
  }

  // ----- list.c, in place -----

  /** A `struct list_head`; the nodes it reaches are in `mem`. */
  class ListHead {
    var head: u32
    var tail: u32

    /** list_head_init. */
    constructor ()
      ensures head == 0 && tail == 0
    {
      head, tail := 0, 0;
    }

    ghost function On(m: Mem): List
      reads this
    {
      List(m, head, tail)
    }

    /** list_is_empty. */
    predicate IsEmpty()
      reads this
    {
      head == 0
    }

    method AddHead(mem: array<u8>, node: int)
      requires InMemory(mem[..], node) && (head != 0 ==> InMemory(mem[..], head))
      modifies this, mem
      ensures On(mem[..]) == HeadAdded(old(On(mem[..])), node)
    {
      Store32(mem, node, 0);
      if head != 0 {
        Store32(mem, node + 4, head);
        Store32(mem, head, node);
        head := node;
      } else {
        Store32(mem, node + 4, 0);
        head := node;
        tail := node;
      }
    }

    method AddTail(mem: array<u8>, node: int)
      requires InMemory(mem[..], node) && (tail != 0 ==> InMemory(mem[..], tail))
      modifies this, mem
      ensures On(mem[..]) == TailAdded(old(On(mem[..])), node)
    {
      Store32(mem, node + 4, 0);
      if tail != 0 {
        Store32(mem, node, tail);
        Store32(mem, tail + 4, node);
        tail := node;
      } else {
        Store32(mem, node, 0);
        head := node;
        tail := node;
      }
    }

    method AddBefore(mem: array<u8>, before: int, node: int)
      requires InMemory(mem[..], before) && InMemory(mem[..], node) && Disjoint(before, node)
      requires var p := Prev(mem[..], before); p != 0 ==> InMemory(mem[..], p) && Disjoint(before, p)
      modifies this, mem
      ensures On(mem[..]) == AddedBefore(old(On(mem[..])), before, node)
    {
      hide Get32, Put32;
      Store32(mem, node + 4, before);
      var p: int := Load32(mem, before);
      Store32(mem, node, p);
      if p != 0 {
        Store32(mem, p + 4, node);
      } else {
        head := node;
      }
      Store32(mem, before, node);
    }

    method AddAfter(mem: array<u8>, after: int, node: int)
      requires InMemory(mem[..], after) && InMemory(mem[..], node) && Disjoint(after, node)
      requires var x := Next(mem[..], after); x != 0 ==> InMemory(mem[..], x) && Disjoint(after, x)
      modifies this, mem
      ensures On(mem[..]) == AddedAfter(old(On(mem[..])), after, node)
    {
      hide Get32, Put32;
      Store32(mem, node, after);
      var x := Load32(mem, after + 4);
      Store32(mem, node + 4, x);
      if x != 0 {
        Store32(mem, x, node);
      } else {
        tail := node;
      }
      Store32(mem, after + 4, node);
    }

    method Delete(mem: array<u8>, node: int)
      requires InMemory(mem[..], node)
      requires var x := Next(mem[..], node); x != 0 ==> InMemory(mem[..], x) && Disjoint(x, node)
      requires var p := Prev(mem[..], node); p != 0 ==> InMemory(mem[..], p) && Disjoint(p, node)
      modifies this, mem
      ensures On(mem[..]) == Deleted(old(On(mem[..])), node)
    {
      hide Get32, Put32;
      var x := Load32(mem, node + 4);
      var p: int := Load32(mem, node);
      if head == node { head := x; }
      if tail == node { tail := p; }
      if x != 0 {
        Store32(mem, x, p);
      }
      if p != 0 {
        Store32(mem, p + 4, x);
      }
      Store32(mem, node + 4, 0);
      Store32(mem, node, 0);
    }
  }
}
