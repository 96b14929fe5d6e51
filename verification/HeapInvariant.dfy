/**
 * The physical memory allocator: what it keeps true of the heap.
 *
 * Headers and free-list links are bytes of the memory being allocated. `Heap` adds to that memory
 * the history needed to say what the bytes mean: which blocks the added ranges have been cut into
 * and what each block is used for.
 */
module HeapInvariant {
  import opened Word32
  import opened Memory
  import opened IntrusiveList
  import opened Sequences

  // Layout of struct kern_physmem_free_entry.
  const MAGIC := 0
  const IS_FREE := 4
  const NODE := 8
  const START := 16
  const SIZE := 20
  const HEADER: int := 24

  const MINIMUM_ALLOCATION: int := 256
  const BOOTSTRAP_REGIONS := 4
  const FLAG_NORMAL: u32 := 1
  const FLAG_EXCLUDE: u32 := 2
  const FLAG_SRAM: u32 := 4
  const FLAG_NORMAL_SRAM: u32 := FLAG_NORMAL + FLAG_SRAM

  datatype Use =
    | Free
    | Live(addr: int, req: int)  // `req` bytes at `addr` belong to a client
    | Hole                       // being cut up or handed over inside an operation

  datatype Block = Block(size: int, use: Use)

  datatype Range = Range(start: int, end: int)

  datatype Heap = Heap(list: List, free: seq<int>, blocks: map<int, Block>, ranges: seq<Range>,
                       entries: nat)  // kern_physmem_range_bootstrap entries used

  // ----- Headers -----

  function Magic(start: u32, size: u32): u32 {
    Xor(Xor(0x9e37_79b9, start), size)
  }

  /** kern_physmem_magic_verify. */
  predicate MagicOk(m: Mem, e: int)
    requires 0 <= e && e + HEADER <= |m|
  {
    Get32(m, e + MAGIC) == Magic(Get32(m, e + START), Get32(m, e + SIZE))
  }

  /** The header at `e` describes `size` bytes from `start`, and its magic check succeeds. */
  predicate HeaderIs(m: Mem, e: int, start: int, size: int, isFree: bool)
    requires 0 <= e && e + HEADER <= |m|
  {
    && Get32(m, e + START) == start
    && Get32(m, e + SIZE) == size
    && m[e + IS_FREE] == (if isFree then 1 else 0)
    && MagicOk(m, e)
  }

  /** kern_physmem_init_memory_region_node and the header stores at the end of kern_physmem_alloc. */
  function WriteHeader(m: Mem, e: int, start: u32, size: u32, isFree: bool): Mem
    requires 0 <= e && e + HEADER <= |m|
  {
    var m := Put32(m, e + START, start);
    var m := Put32(m, e + SIZE, size);
    var m := Put8(m, e + IS_FREE, if isFree then 1 else 0);
    var m := Put32(m, e + MAGIC, Magic(start, size));
    Put32(Put32(m, e + NODE, 0), e + NODE + 4, 0)
  }

  lemma WriteHeaderSets(m: Mem, e: int, start: u32, size: u32, isFree: bool)
    requires 0 <= e && e + HEADER <= |m|
    ensures var m' := WriteHeader(m, e, start, size, isFree);
      && |m'| == |m| && HeaderIs(m', e, start, size, isFree)
      && forall x :: 0 <= x < |m| && !(e <= x < e + HEADER) ==> m'[x] == m[x]
  {
    hide Get32, Put32, Put8, Magic;
  }

  /** A header is the same header as long as the bytes on either side of its list node are. */
  lemma HeaderKept(m: Mem, m': Mem, e: int, start: int, size: int, isFree: bool)
    requires 0 <= e && e + HEADER <= |m| && |m'| == |m| && HeaderIs(m, e, start, size, isFree)
    requires m'[e..e + NODE] == m[e..e + NODE] && m'[e + START..e + HEADER] == m[e + START..e + HEADER]
    ensures HeaderIs(m', e, start, size, isFree)
  {
    hide Get32, Magic;
    var b, c := m'[e..e + NODE], m'[e + START..e + HEADER];
    assert b[..4] == m'[e..e + 4] == m[e..e + 4] && b[4] == m'[e + 4] == m[e + 4];
    assert c[..4] == m'[e + 16..e + 20] == m[e + 16..e + 20];
    assert c[4..] == m'[e + 20..e + 24] == m[e + 20..e + 24];
    GetAgrees(m, e, m', e);
    GetAgrees(m, e + START, m', e + START);
    GetAgrees(m, e + SIZE, m', e + SIZE);
  }

  // ----- The heap invariant -----

  function End(h: Heap, s: int): int
    requires s in h.blocks
  {
    s + h.blocks[s].size
  }

  /** Where block `s` keeps its header: just before a live payload, otherwise at its start. */
  function HeaderOf(h: Heap, s: int): int
    requires s in h.blocks
  {
    if h.blocks[s].use.Live? then h.blocks[s].use.addr - HEADER else s
  }

  predicate BlockOk(h: Heap, s: int)
    requires s in h.blocks
  {
    && 0 <= s && HEADER <= h.blocks[s].size && End(h, s) < TWO32
    && match h.blocks[s].use
       case Live(addr, req) => s + HEADER <= addr && 0 <= req && addr + req <= End(h, s)
       case _ => true
  }

  ghost predicate BlocksOk(h: Heap) {
    && |h.list.mem| == TWO32
    && (forall s :: s in h.blocks ==> BlockOk(h, s))
    && (forall s, t :: s in h.blocks && t in h.blocks && s < t ==> End(h, s) <= t)
  }

  ghost predicate HeadersOk(h: Heap)
    requires BlocksOk(h)
  {
    forall s :: s in h.blocks && h.blocks[s].use != Hole ==>
      HeaderIs(h.list.mem, HeaderOf(h, s), s, h.blocks[s].size, h.blocks[s].use == Free)
  }

  ghost predicate FreeListed(h: Heap) {
    && (forall i :: 0 <= i < |h.free| ==> h.free[i] in h.blocks && h.blocks[h.free[i]].use == Free)
    && (forall s :: s in h.blocks && h.blocks[s].use == Free ==> s in h.free)
    && (forall i, j :: 0 <= i < j < |h.free| ==> h.free[i] != h.free[j])
  }

  function NodesOf(free: seq<int>): (F: seq<int>)
    ensures |F| == |free| && forall i :: 0 <= i < |F| ==> F[i] == free[i] + NODE
  {
    seq(|free|, i requires 0 <= i < |free| => free[i] + NODE)
  }

  predicate InRanges(ranges: seq<Range>, x: int) {
    exists i :: 0 <= i < |ranges| && ranges[i].start <= x < ranges[i].end
  }

  predicate InBlocks(blocks: map<int, Block>, x: int) {
    exists s :: s in blocks && s <= x < s + blocks[s].size
  }

  /** The blocks are exactly the bytes that were added. */
  ghost predicate Covers(h: Heap) {
    forall x: int :: InRanges(h.ranges, x) <==> InBlocks(h.blocks, x)
  }

  ghost predicate Inv(h: Heap) {
    && BlocksOk(h)
    && HeadersOk(h)
    && FreeListed(h)
    && Linked(h.list, NodesOf(h.free))
    && Covers(h)
  }

  /** Between operations nothing is half cut: the blocks are the free ones and the live ones. */
  ghost predicate Settled(h: Heap) {
    Inv(h) && forall s :: s in h.blocks ==> h.blocks[s].use != Hole
  }

  predicate HoleAt(h: Heap, s: int) {
    s in h.blocks && h.blocks[s].use == Hole
  }

  // ----- Changes that keep it -----

  ghost predicate SameHeader(h: Heap, m': Mem, s: int)
    requires BlocksOk(h) && s in h.blocks && |m'| == |h.list.mem|
  {
    var e := HeaderOf(h, s);
    m'[e..e + HEADER] == h.list.mem[e..e + HEADER]
  }

  lemma SameHeaderParts(h: Heap, m': Mem, s: int)
    requires BlocksOk(h) && s in h.blocks && |m'| == |h.list.mem| && SameHeader(h, m', s)
    ensures var e, m := HeaderOf(h, s), h.list.mem;
      && m'[e..e + NODE] == m[e..e + NODE] && m'[e + START..e + HEADER] == m[e + START..e + HEADER]
      && m'[e + NODE..e + 12] == m[e + NODE..e + 12] && m'[e + 12..e + 16] == m[e + 12..e + 16]
  {
    var e, m := HeaderOf(h, s), h.list.mem;
    var b, b' := m[e..e + HEADER], m'[e..e + HEADER];
    assert b' == b && 0 <= e && e + HEADER <= |m|;
    SliceOfSlice(m, e, HEADER, 0, NODE);
    SliceOfSlice(m', e, HEADER, 0, NODE);
    SliceOfSlice(m, e, HEADER, START, HEADER);
    SliceOfSlice(m', e, HEADER, START, HEADER);
    SliceOfSlice(m, e, HEADER, NODE, 12);
    SliceOfSlice(m', e, HEADER, NODE, 12);
    SliceOfSlice(m, e, HEADER, 12, 16);
    SliceOfSlice(m', e, HEADER, 12, 16);
  }

  lemma MemOnlyLinks(h: Heap, m': Mem)
    requires BlocksOk(h) && FreeListed(h) && Linked(h.list, NodesOf(h.free)) && |m'| == |h.list.mem|
    requires forall i :: 0 <= i < |h.free| ==> SameHeader(h, m', h.free[i])
    ensures Linked(h.list.(mem := m'), NodesOf(h.free))
  {
    hide Get32, SameHeader, BlocksOk, FreeListed, Before, After;
    var F := NodesOf(h.free);
    forall i | 0 <= i < |F|
      ensures InMemory(m', F[i]) && Prev(m', F[i]) == Before(F, i) && Next(m', F[i]) == After(F, i)
    {
      SameLinks(h, m', i);
      assert InMemory(h.list.mem, F[i]);
      assert Prev(h.list.mem, F[i]) == Before(F, i) && Next(h.list.mem, F[i]) == After(F, i);
    }
  }

  lemma SameLinks(h: Heap, m': Mem, i: int)
    requires BlocksOk(h) && FreeListed(h) && |m'| == |h.list.mem| && 0 <= i < |h.free| && SameHeader(h, m', h.free[i])
    requires InMemory(h.list.mem, NodesOf(h.free)[i])
    ensures var n := NodesOf(h.free)[i];
      InMemory(m', n) && Prev(m', n) == Prev(h.list.mem, n) && Next(m', n) == Next(h.list.mem, n)
  {
    hide Get32, SameHeader;
    var e := h.free[i];
    SameHeaderParts(h, m', e);
    GetAgrees(h.list.mem, e + 8, m', e + 8);
    GetAgrees(h.list.mem, e + 12, m', e + 12);
  }

  /** A change of memory that spares every header keeps the invariant. */
  lemma MemOnly(h: Heap, m': Mem)
    requires Inv(h) && |m'| == |h.list.mem|
    requires forall s :: s in h.blocks && h.blocks[s].use != Hole ==> SameHeader(h, m', s)
    ensures Inv(h.(list := h.list.(mem := m')))
  {
    hide HeaderIs, SameHeader, Linked;
    var h' := h.(list := h.list.(mem := m'));
    forall s | s in h.blocks && h.blocks[s].use != Hole
      ensures HeaderIs(m', HeaderOf(h, s), s, h.blocks[s].size, h.blocks[s].use == Free)
    {
      SameHeaderParts(h, m', s);
      HeaderKept(h.list.mem, m', HeaderOf(h, s), s, h.blocks[s].size, h.blocks[s].use == Free);
    }
    assert forall s :: s in h'.blocks ==> BlockOk(h', s) by {
      assert forall s :: s in h'.blocks ==> BlockOk(h, s);
    }
    MemOnlyLinks(h, m');
  }

  /** A list operation on the nodes of `touched` blocks leaves every header's other fields alone. */
  lemma ListTouch(h: Heap, m': Mem, touched: seq<int>)
    requires BlocksOk(h) && HeadersOk(h) && Touches(h.list.mem, m', NodesOf(touched))
    requires forall i :: 0 <= i < |touched| ==> touched[i] in h.blocks && !h.blocks[touched[i]].use.Live?
    ensures |m'| == TWO32
    ensures forall s :: s in h.blocks && h.blocks[s].use != Hole ==>
      HeaderIs(m', HeaderOf(h, s), s, h.blocks[s].size, h.blocks[s].use == Free)
  {
    hide HeaderIs, Touches;
    TouchesSize(h.list.mem, m', NodesOf(touched));
    var F := NodesOf(touched);
    forall s | s in h.blocks && h.blocks[s].use != Hole
      ensures HeaderIs(m', HeaderOf(h, s), s, h.blocks[s].size, h.blocks[s].use == Free)
    {
      var e := HeaderOf(h, s);
      forall i | 0 <= i < |F| ensures F[i] == e + NODE || F[i] + 8 <= e || e + HEADER <= F[i] {
        var t := touched[i];
        assert s < t ==> End(h, s) <= t;
        assert t < s ==> End(h, t) <= s;
      }
      UntouchedBytes(h.list.mem, m', F, e, NODE);
      UntouchedBytes(h.list.mem, m', F, e + START, 8);
      HeaderKept(h.list.mem, m', e, s, h.blocks[s].size, h.blocks[s].use == Free);
    }
  }

  lemma TouchesSize(m: Mem, m': Mem, F: seq<int>)
    requires Touches(m, m', F)
    ensures |m'| == |m|
  {
  }

  // ----- Taking a block off the free list -----

  ghost function TakeFree(h: Heap, k: int): Heap
    requires Inv(h) && 0 <= k < |h.free|
  {
    DeleteRemoves(h.list, NodesOf(h.free), k);
    h.(list := Deleted(h.list, h.free[k] + NODE), free := Without(h.free, k),
       blocks := h.blocks[h.free[k] := h.blocks[h.free[k]].(use := Hole)])
  }

  /** Putting block `s` to another use moves no boundary. */
  lemma Reuse(h: Heap, h': Heap, s: int, use: Use)
    requires BlocksOk(h) && Covers(h) && s in h.blocks
    requires h'.blocks == h.blocks[s := h.blocks[s].(use := use)] && h'.ranges == h.ranges
    requires |h'.list.mem| == TWO32 && BlockOk(h', s)
    ensures BlocksOk(h') && Covers(h')
  {
    forall t | t in h'.blocks ensures BlockOk(h', t) {
      assert BlockOk(h, t);
    }
    forall x: int ensures InBlocks(h'.blocks, x) == InBlocks(h.blocks, x) {
      if t :| t in h.blocks && t <= x < t + h.blocks[t].size { assert t in h'.blocks; }
    }
  }

  lemma TakeFreeList(h: Heap, k: int)
    requires Inv(h) && 0 <= k < |h.free|
    ensures FreeListed(TakeFree(h, k))
    ensures Linked(TakeFree(h, k).list, NodesOf(TakeFree(h, k).free))
  {
    hide HeadersOk, Deleted, Linked, Covers, BlocksOk, Touches;
    var h', F := TakeFree(h, k), NodesOf(h.free);
    DeleteRemoves(h.list, F, k);
    assert NodesOf(h'.free) == F[..k] + F[k + 1..];
    WithoutOne(h.free, k);
  }

  lemma TakeFreeKeeps(h: Heap, k: int)
    requires Inv(h) && 0 <= k < |h.free|
    ensures Inv(TakeFree(h, k)) && HoleAt(TakeFree(h, k), h.free[k])
    ensures TakeFree(h, k).blocks[h.free[k]].size == h.blocks[h.free[k]].size
  {
    hide HeaderIs, Deleted, Linked, Touches;
    var h' := TakeFree(h, k);
    DeleteRemoves(h.list, NodesOf(h.free), k);
    ListTouch(h, h'.list.mem, h.free);
    TakeFreeList(h, k);
    Reuse(h, h', h.free[k], Hole);
  }

  // ----- Writing inside one block -----

  /** Writes into a hole, or into a live payload, reach no header. */
  lemma BlockWrite(h: Heap, m': Mem, s: int, lo: int, hi: int)
    requires Inv(h) && |m'| == |h.list.mem| && s in h.blocks && s <= lo && hi <= End(h, s)
    requires h.blocks[s].use == Hole || (h.blocks[s].use.Live? && h.blocks[s].use.addr <= lo)
    requires forall x :: 0 <= x < |m'| && !(lo <= x < hi) ==> m'[x] == h.list.mem[x]
    ensures Inv(h.(list := h.list.(mem := m')))
  {
    hide HeaderIs, Linked, Covers, FreeListed;
    forall t | t in h.blocks && h.blocks[t].use != Hole ensures SameHeader(h, m', t) {
      assert t < s ==> End(h, t) <= s;
      assert s < t ==> End(h, s) <= t;
    }
    MemOnly(h, m');
  }

  // ----- Cutting a hole -----

  ghost function SplitHole(h: Heap, s: int, n: int): Heap
    requires HoleAt(h, s)
  {
    h.(blocks := h.blocks[s := Block(n, Hole)][s + n := Block(h.blocks[s].size - n, Hole)])
  }

  lemma SplitHoleKeeps(h: Heap, s: int, n: int)
    requires Inv(h) && HoleAt(h, s)
    requires HEADER <= n && n + HEADER <= h.blocks[s].size
    ensures Inv(SplitHole(h, s, n)) && HoleAt(SplitHole(h, s, n), s + n) && s + n !in h.blocks
  {
    hide HeaderIs, Linked, BlockOk, Covers, FreeListed;
    var h' := SplitHole(h, s, n);
    SplitFresh(h, s, n);
    SplitBlocksOk(h, h', s, n);
    SplitCovers(h, h', s, n);
    SplitRest(h, h', s, n);
  }

  lemma SplitFresh(h: Heap, s: int, n: int)
    requires BlocksOk(h) && HoleAt(h, s) && HEADER <= n && n + HEADER <= h.blocks[s].size
    ensures s + n !in h.blocks
  {
    if s + n in h.blocks { assert false; }
  }

  lemma SplitRest(h: Heap, h': Heap, s: int, n: int)
    requires HoleAt(h, s) && h' == SplitHole(h, s, n) && s + n !in h.blocks
    requires BlocksOk(h) && HeadersOk(h) && FreeListed(h) && BlocksOk(h')
    ensures HeadersOk(h') && FreeListed(h')
  {
    hide HeaderIs, BlocksOk;
    assert forall t :: t in h'.blocks && h'.blocks[t].use != Hole ==> t in h.blocks && h'.blocks[t] == h.blocks[t];
  }

  lemma SplitBlocksOk(h: Heap, h': Heap, s: int, n: int)
    requires BlocksOk(h) && HoleAt(h, s) && h' == SplitHole(h, s, n)
    requires HEADER <= n && n + HEADER <= h.blocks[s].size && s + n !in h.blocks
    ensures BlocksOk(h')
  {
    forall t | t in h'.blocks ensures BlockOk(h', t) {
      if t != s && t != s + n { assert BlockOk(h, t); } else { assert BlockOk(h, s); }
    }
    forall t, u | t in h'.blocks && u in h'.blocks && t < u ensures End(h', t) <= u {
      var t0 := if t == s + n then s else t;
      var u0 := if u == s + n then s else u;
      if t0 < u0 { assert End(h, t0) <= u0; }
    }
  }

  lemma SplitCovers(h: Heap, h': Heap, s: int, n: int)
    requires Covers(h) && HoleAt(h, s) && h' == SplitHole(h, s, n)
    requires HEADER <= n && n + HEADER <= h.blocks[s].size && s + n !in h.blocks
    ensures Covers(h')
  {
    forall x: int ensures InBlocks(h'.blocks, x) == InBlocks(h.blocks, x) {
      if t :| t in h.blocks && t <= x < t + h.blocks[t].size {
        var t' := if t == s && s + n <= x then s + n else t;
        assert t' in h'.blocks && t' <= x < t' + h'.blocks[t'].size;
      }
      if t :| t in h'.blocks && t <= x < t + h'.blocks[t].size {
        var t' := if t == s + n then s else t;
        assert t' in h.blocks && t' <= x < t' + h.blocks[t'].size;
      }
    }
  }

  // ----- Giving a hole to the free list -----

  /** The hole `s` with a fresh header at its start. */
  ghost function Stamp(h: Heap, s: int): Heap
    requires BlocksOk(h) && s in h.blocks
  {
    assert BlockOk(h, s);
    h.(list := h.list.(mem := WriteHeader(h.list.mem, s, s, h.blocks[s].size, true)))
  }

  lemma StampKeeps(h: Heap, s: int)
    requires Inv(h) && HoleAt(h, s)
    ensures Inv(Stamp(h, s)) && HeaderIs(Stamp(h, s).list.mem, s, s, h.blocks[s].size, true)
    ensures forall x :: 0 <= x < TWO32 && !(s <= x < End(h, s)) ==> Stamp(h, s).list.mem[x] == h.list.mem[x]
  {
    hide HeaderIs, Linked, WriteHeader;
    assert BlockOk(h, s);
    WriteHeaderSets(h.list.mem, s, s, h.blocks[s].size, true);
    BlockWrite(h, Stamp(h, s).list.mem, s, s, s + HEADER);
  }

  /** Linking a stamped hole into the free list makes it a free block. */
  lemma LinkKeeps(h: Heap, s: int, l': List, k: int)
    requires Inv(h) && HoleAt(h, s) && 0 <= k <= |h.free|
    requires HeaderIs(h.list.mem, s, s, h.blocks[s].size, true)
    requires Linked(l', NodesOf(Inserted(h.free, k, s)))
    requires Touches(h.list.mem, l'.mem, NodesOf(Inserted(h.free, k, s)))
    ensures Inv(h.(list := l', free := Inserted(h.free, k, s), blocks := h.blocks[s := h.blocks[s].(use := Free)]))
  {
    hide HeaderIs, Linked, Touches, Covers;
    var blocks := h.blocks[s := h.blocks[s].(use := Free)];
    var free := Inserted(h.free, k, s);
    var h1 := h.(blocks := blocks);
    assert BlockOk(h, s);
    Reuse(h, h1, s, Free);
    forall i | 0 <= i < |free| ensures free[i] in blocks && blocks[free[i]].use == Free {
      if i != k { assert free[i] == h.free[if i < k then i else i - 1]; }
    }
    ListTouch(h1, l'.mem, free);
    var h' := h.(list := l', free := free, blocks := blocks);
    Reuse(h, h', s, Free);
    LinkFreeListed(h, h', s, k);
  }

  lemma LinkFreeListed(h: Heap, h': Heap, s: int, k: int)
    requires FreeListed(h) && HoleAt(h, s) && 0 <= k <= |h.free|
    requires h'.free == Inserted(h.free, k, s) && h'.blocks == h.blocks[s := h.blocks[s].(use := Free)]
    ensures FreeListed(h')
  {
    InsertedAt(h.free, k, s);
    InsertedDistinct(h.free, k, s);
    forall t | t in h'.blocks && h'.blocks[t].use == Free ensures t in h'.free {
      if t != s { assert t in h.free; }
    }
    forall i | 0 <= i < |h'.free| ensures h'.free[i] in h'.blocks && h'.blocks[h'.free[i]].use == Free {
      if h'.free[i] != s { assert h'.free[i] in h.free; }
    }
  }

  /** A hole's node shares no byte with the node of any free block. */
  lemma HoleApart(h: Heap, s: int)
    requires Inv(h) && HoleAt(h, s)
    ensures InMemory(h.list.mem, s + NODE) && Apart(NodesOf(h.free), s + NODE)
  {
    hide HeadersOk, Linked, Covers;
    assert BlockOk(h, s);
    var F := NodesOf(h.free);
    forall i | 0 <= i < |F| ensures Disjoint(F[i], s + NODE) {
      var t := h.free[i];
      assert t < s ==> End(h, t) <= s;
      assert s < t ==> End(h, s) <= t;
    }
  }

  /** kern_physmem_add_to_free_list_locked, and the two ways kern_physmem_free inserts. */
  datatype Place = AtHead | AtTail | Ahead(k: nat)

  predicate PlaceOk(h: Heap, p: Place) {
    p.Ahead? ==> p.k < |h.free|
  }

  function Index(p: Place, n: nat): nat {
    match p
    case AtHead => 0
    case AtTail => n
    case Ahead(k) => k
  }

  ghost function Link(h: Heap, s: int, p: Place): List
    requires Inv(h) && HoleAt(h, s) && PlaceOk(h, p)
  {
    HoleApart(h, s);
    var F := NodesOf(h.free);
    match p
    case AtHead => AddHeadInserts(h.list, F, s + NODE); HeadAdded(h.list, s + NODE)
    case AtTail => AddTailInserts(h.list, F, s + NODE); TailAdded(h.list, s + NODE)
    case Ahead(k) => AddBeforeInserts(h.list, F, k, s + NODE); AddedBefore(h.list, F[k], s + NODE)
  }

  ghost function Linking(h: Heap, s: int, p: Place): Heap
    requires Inv(h) && HoleAt(h, s) && PlaceOk(h, p)
  {
    hide Link;
    h.(list := Link(h, s, p), free := Inserted(h.free, Index(p, |h.free|), s),
       blocks := h.blocks[s := h.blocks[s].(use := Free)])
  }

  ghost function GiveFree(h: Heap, s: int, p: Place): Heap
    requires Inv(h) && HoleAt(h, s) && PlaceOk(h, p)
  {
    StampKeeps(h, s);
    Linking(Stamp(h, s), s, p)
  }

  /** The list operation's pointers are in order when a hole is about to be linked in. */
  lemma LinkReady(h: Heap, s: int, p: Place)
    requires Inv(h) && HoleAt(h, s) && PlaceOk(h, p)
    ensures InMemory(h.list.mem, s + NODE)
    ensures h.list.head != 0 ==> InMemory(h.list.mem, h.list.head)
    ensures h.list.tail != 0 ==> InMemory(h.list.mem, h.list.tail)
    ensures p.Ahead? ==> var b := h.free[p.k] + NODE;
      && InMemory(h.list.mem, b) && Disjoint(b, s + NODE)
      && (Prev(h.list.mem, b) != 0 ==> InMemory(h.list.mem, Prev(h.list.mem, b)) && Disjoint(b, Prev(h.list.mem, b)))
  {
    hide HeadersOk, BlocksOk, FreeListed, Covers, Touches, HeadAdded, TailAdded, AddedBefore, Get32;
    HoleApart(h, s);
    var F := NodesOf(h.free);
    AddHeadInserts(h.list, F, s + NODE);
    AddTailInserts(h.list, F, s + NODE);
    if p.Ahead? { AddBeforeInserts(h.list, F, p.k, s + NODE); }
  }

  /** Walking the free list through memory: the head is its first entry. */
  lemma WalkStart(h: Heap)
    requires Inv(h)
    ensures h.list.head == After(NodesOf(h.free), -1)
    ensures h.list.head == 0 <==> h.free == []
  {
    hide HeadersOk, BlocksOk, FreeListed, Covers;
  }

  /** ... each entry is where its header says, and its next pointer leads to the following entry. */
  lemma WalkStep(h: Heap, k: int)
    requires Inv(h) && 0 <= k < |h.free|
    ensures var s := h.free[k]; var n := s + NODE;
      && 0 <= s && s in h.blocks && s + HEADER <= s + h.blocks[s].size < TWO32 == |h.list.mem|
      && After(NodesOf(h.free), k - 1) == n
      && InMemory(h.list.mem, n) && Next(h.list.mem, n) == After(NodesOf(h.free), k)
      && Get32(h.list.mem, s + SIZE) == h.blocks[s].size && Get32(h.list.mem, s + START) == s
    ensures After(NodesOf(h.free), k) == 0 <==> k + 1 == |h.free|
  {
    hide Covers, Get32, MagicOk;
    var s := h.free[k];
    assert BlockOk(h, s);
    assert HeaderIs(h.list.mem, HeaderOf(h, s), s, h.blocks[s].size, true);
    assert NodesOf(h.free)[k] == s + NODE;
    assert Next(h.list.mem, NodesOf(h.free)[k]) == After(NodesOf(h.free), k);
  }

  /** The list operation's pointers are in order when an entry is about to be unlinked. */
  lemma DeleteReady(h: Heap, k: int)
    requires Inv(h) && 0 <= k < |h.free|
    ensures var n, m := h.free[k] + NODE, h.list.mem;
      && InMemory(m, n)
      && (Next(m, n) != 0 ==> InMemory(m, Next(m, n)) && Disjoint(Next(m, n), n))
      && (Prev(m, n) != 0 ==> InMemory(m, Prev(m, n)) && Disjoint(Prev(m, n), n))
  {
    hide HeadersOk, BlocksOk, FreeListed, Covers, Touches, Deleted, Get32;
    DeleteRemoves(h.list, NodesOf(h.free), k);
  }

  lemma LinkInserts(h: Heap, s: int, p: Place)
    requires Inv(h) && HoleAt(h, s) && PlaceOk(h, p)
    ensures var G := NodesOf(Inserted(h.free, Index(p, |h.free|), s));
      Linked(Link(h, s, p), G) && Touches(h.list.mem, Link(h, s, p).mem, G)
  {
    hide Linked, Touches, HeadAdded, TailAdded, AddedBefore, HeadersOk, BlocksOk, FreeListed, Covers, Prev;
    HoleApart(h, s);
    var F, n, k := NodesOf(h.free), s + NODE, Index(p, |h.free|);
    var G := NodesOf(Inserted(h.free, k, s));
    assert G == F[..k] + [n] + F[k..];
    match p
    case AtHead =>
      AddHeadInserts(h.list, F, n);
      assert G == [n] + F;
    case AtTail =>
      AddTailInserts(h.list, F, n);
      assert G == F + [n];
    case Ahead(k) =>
      AddBeforeInserts(h.list, F, k, n);
  }

  lemma GiveFreeKeeps(h: Heap, s: int, p: Place)
    requires Inv(h) && HoleAt(h, s) && PlaceOk(h, p)
    ensures Inv(GiveFree(h, s, p))
  {
    hide Linked, Touches, HeaderIs, Link;
    StampKeeps(h, s);
    LinkInserts(Stamp(h, s), s, p);
    LinkKeeps(Stamp(h, s), s, Link(Stamp(h, s), s, p), Index(p, |h.free|));
  }
}
