/** What kern_physmem_alloc, kern_physmem_free and kern_physmem_add_range do to the heap. */
module HeapOps {
  import opened Word32
  import opened Memory
  import opened IntrusiveList
  import opened Sequences
  import opened HeapInvariant

  // ----- First fit -----

  /** Bytes skipped to align the payload: a whole unit when it is aligned already, none for alignment 0. */
  function Pad(s: int, align: u32): int {
    if align == 0 then 0 else align - (s + HEADER) % align
  }

  function Needed(s: int, size: int, align: u32): int {
    size + HEADER + Pad(s, align)
  }

  function PayloadOf(s: int, align: u32): int {
    s + HEADER + Pad(s, align)
  }

  predicate Fits(h: Heap, i: int, size: int, align: u32)
    requires 0 <= i < |h.free| && h.free[i] in h.blocks
  {
    Needed(h.free[i], size, align) <= h.blocks[h.free[i]].size
  }

  /** The position of the first free entry, from `i` on, that can hold the request; `|h.free|` if none can. */
  ghost function FirstFit(h: Heap, i: nat, size: int, align: u32): (k: nat)
    requires FreeListed(h) && i <= |h.free|
    ensures i <= k <= |h.free|
    ensures forall j :: i <= j < k ==> !Fits(h, j, size, align)
    ensures k < |h.free| ==> Fits(h, k, size, align)
    decreases |h.free| - i
  {
    if i == |h.free| || Fits(h, i, size, align) then i else FirstFit(h, i + 1, size, align)
  }

  lemma FirstFitStep(h: Heap, i: nat, size: int, align: u32)
    requires FreeListed(h) && i < |h.free|
    ensures FirstFit(h, i, size, align) == if Fits(h, i, size, align) then i else FirstFit(h, i + 1, size, align)
  {
  }

  lemma FreePlaceStep(h: Heap, i: nat, s: int)
    requires i < |h.free|
    ensures FreePlace(h, i, s) == if h.free[i] > s then Ahead(i) else FreePlace(h, i + 1, s)
  {
  }

  lemma PadAligns(s: int, align: u32)
    requires 0 <= s
    ensures 0 <= Pad(s, align) <= align
    ensures align != 0 ==> PayloadOf(s, align) % align == 0
  {
    if align != 0 { AlignedUp(s + HEADER, align); }
  }

  // ----- kern_physmem_alloc -----

  /** Cut the hole `s` down to `need` bytes and free the rest, when the rest is worth having. */
  ghost function Trim(h: Heap, s: int, need: int): Heap
    requires HoleAt(h, s)
  {
    hide Inv, GiveFree;
    var rest := SplitHole(h, s, need);
    if h.blocks[s].size - need > MINIMUM_ALLOCATION + HEADER && Inv(rest) && HoleAt(rest, s + need) then
      GiveFree(rest, s + need, AtTail)
    else
      h
  }

  lemma TrimKeeps(h: Heap, s: int, need: int)
    requires Inv(h) && HoleAt(h, s) && HEADER <= need <= h.blocks[s].size
    ensures Inv(Trim(h, s, need)) && HoleAt(Trim(h, s, need), s) && need <= Trim(h, s, need).blocks[s].size
  {
    hide HeadersOk, Linked, Covers, BlocksOk, FreeListed;
    if h.blocks[s].size - need > MINIMUM_ALLOCATION + HEADER {
      SplitHoleKeeps(h, s, need);
      GiveFreeKeeps(SplitHole(h, s, need), s + need, AtTail);
    }
  }

  ghost function Cleared(h: Heap, s: int, zero: bool): Heap
    requires BlocksOk(h) && s in h.blocks
  {
    assert BlockOk(h, s);
    if zero then h.(list := h.list.(mem := Zeroed(h.list.mem, s, h.blocks[s].size))) else h
  }

  lemma ClearedKeeps(h: Heap, s: int, zero: bool)
    requires Inv(h) && HoleAt(h, s)
    ensures Inv(Cleared(h, s, zero)) && Cleared(h, s, zero).blocks == h.blocks
  {
    hide HeadersOk, Linked, Covers, FreeListed;
    assert BlockOk(h, s);
    if zero { BlockWrite(h, Cleared(h, s, zero).list.mem, s, s, End(h, s)); }
  }

  /** Write the header just before the payload and hand the hole to a client. */
  ghost function HandOver(h: Heap, s: int, addr: int, req: int): Heap
    requires BlocksOk(h) && s in h.blocks && s + HEADER <= addr <= End(h, s)
  {
    assert BlockOk(h, s);
    h.(list := h.list.(mem := WriteHeader(h.list.mem, addr - HEADER, s, h.blocks[s].size, false)),
       blocks := h.blocks[s := h.blocks[s].(use := Live(addr, req))])
  }

  lemma HandOverKeeps(h: Heap, s: int, addr: int, req: int)
    requires Inv(h) && HoleAt(h, s) && s + HEADER <= addr && 0 <= req && addr + req <= End(h, s)
    ensures Inv(HandOver(h, s, addr, req))
  {
    hide HeaderIs, Linked, WriteHeader, FreeListed;
    assert BlockOk(h, s);
    var h' := HandOver(h, s, addr, req);
    WriteHeaderSets(h.list.mem, addr - HEADER, s, h.blocks[s].size, false);
    BlockWrite(h, h'.list.mem, s, addr - HEADER, addr);
    Reuse(h, h', s, Live(addr, req));
    assert FreeListed(h') by { LiveNotListed(h, h', s); }
  }

  lemma LiveNotListed(h: Heap, h': Heap, s: int)
    requires FreeListed(h) && HoleAt(h, s) && s in h'.blocks && h'.blocks[s].use.Live?
    requires h'.free == h.free && h'.blocks == h.blocks[s := h'.blocks[s]]
    ensures FreeListed(h')
  {
  }

  /** What kern_physmem_alloc does once it has chosen entry `k`. */
  ghost function AllocAt(h: Heap, k: int, size: int, align: u32, zero: bool): Heap
    requires Inv(h) && 0 <= k < |h.free| && 0 <= size && Fits(h, k, size, align)
  {
    hide Inv, TakeFree, Trim, HandOver, Cleared, BlocksOk;
    AllocStages(h, k, size, align, zero);
    var s := h.free[k];
    HandOver(Cleared(Trim(TakeFree(h, k), s, Needed(s, size, align)), s, zero), s, PayloadOf(s, align), size)
  }

  lemma AllocStages(h: Heap, k: int, size: int, align: u32, zero: bool)
    requires Inv(h) && 0 <= k < |h.free| && 0 <= size && Fits(h, k, size, align)
    ensures var s := h.free[k]; var need := Needed(s, size, align); var h1 := TakeFree(h, k);
      && Inv(h1) && HoleAt(h1, s) && HEADER <= need <= h1.blocks[s].size
      && var h2 := Trim(h1, s, need);
      && Inv(h2) && HoleAt(h2, s)
      && var h3 := Cleared(h2, s, zero);
      && Inv(h3) && HoleAt(h3, s) && s + HEADER <= PayloadOf(s, align) && PayloadOf(s, align) + size <= End(h3, s)
  {
    hide TakeFree, Trim, Cleared, HeadersOk, Linked, Covers;
    var s := h.free[k];
    var need := Needed(s, size, align);
    assert BlockOk(h, s);
    PadAligns(s, align);
    TakeFreeKeeps(h, k);
    TrimKeeps(TakeFree(h, k), s, need);
    ClearedKeeps(Trim(TakeFree(h, k), s, need), s, zero);
  }

  // ----- What a client sees -----

  ghost predicate SamePayload(h: Heap, m': Mem, s: int)
    requires BlocksOk(h) && s in h.blocks && h.blocks[s].use.Live? && |m'| == TWO32
  {
    assert BlockOk(h, s);
    var Live(addr, req) := h.blocks[s].use;
    m'[addr..addr + req] == h.list.mem[addr..addr + req]
  }

  /** Every allocation of `h` is still there in `h'`, with the same bytes. */
  ghost predicate PayloadsKept(h: Heap, h': Heap) {
    && BlocksOk(h) && |h'.list.mem| == TWO32
    && forall s :: s in h.blocks && h.blocks[s].use.Live? ==>
      s in h'.blocks && h'.blocks[s] == h.blocks[s] && SamePayload(h, h'.list.mem, s)
  }

  lemma PayloadsKeptTransitive(h: Heap, h1: Heap, h2: Heap)
    requires PayloadsKept(h, h1) && PayloadsKept(h1, h2)
    ensures PayloadsKept(h, h2)
  {
    forall s | s in h.blocks && h.blocks[s].use.Live?
      ensures s in h2.blocks && h2.blocks[s] == h.blocks[s] && SamePayload(h, h2.list.mem, s)
    {
      assert SamePayload(h, h1.list.mem, s);
      assert SamePayload(h1, h2.list.mem, s);
    }
  }

  lemma ListTouchPayloads(h: Heap, m': Mem, touched: seq<int>)
    requires BlocksOk(h) && Touches(h.list.mem, m', NodesOf(touched))
    requires forall i :: 0 <= i < |touched| ==> touched[i] in h.blocks && !h.blocks[touched[i]].use.Live?
    ensures |m'| == TWO32
    ensures forall s :: s in h.blocks && h.blocks[s].use.Live? ==> SamePayload(h, m', s)
  {
    hide Touches;
    TouchesSize(h.list.mem, m', NodesOf(touched));
    var F := NodesOf(touched);
    forall s | s in h.blocks && h.blocks[s].use.Live? ensures SamePayload(h, m', s) {
      assert BlockOk(h, s);
      var Live(addr, req) := h.blocks[s].use;
      forall i | 0 <= i < |F| ensures F[i] + 8 <= addr || addr + req <= F[i] {
        var t := touched[i];
        assert BlockOk(h, t);
        assert s < t ==> End(h, s) <= t;
        assert t < s ==> End(h, t) <= s;
      }
      UntouchedBytes(h.list.mem, m', F, addr, req);
    }
  }

  lemma BlockWritePayloads(h: Heap, m': Mem, s: int)
    requires BlocksOk(h) && |m'| == TWO32 && s in h.blocks
    requires forall x :: 0 <= x < TWO32 && !(s <= x < End(h, s)) ==> m'[x] == h.list.mem[x]
    ensures forall t :: t in h.blocks && t != s && h.blocks[t].use.Live? ==> SamePayload(h, m', t)
  {
    forall t | t in h.blocks && t != s && h.blocks[t].use.Live? ensures SamePayload(h, m', t) {
      assert BlockOk(h, t);
      assert s < t ==> End(h, s) <= t;
      assert t < s ==> End(h, t) <= s;
    }
  }

  lemma TakeFreePayloads(h: Heap, k: int)
    requires Inv(h) && 0 <= k < |h.free|
    ensures PayloadsKept(h, TakeFree(h, k))
  {
    hide HeadersOk, Linked, Covers, Touches, Deleted;
    DeleteRemoves(h.list, NodesOf(h.free), k);
    ListTouchPayloads(h, TakeFree(h, k).list.mem, h.free);
  }

  lemma GiveFreePayloads(h: Heap, s: int, p: Place)
    requires Inv(h) && HoleAt(h, s) && PlaceOk(h, p)
    ensures PayloadsKept(h, GiveFree(h, s, p))
  {
    hide HeadersOk, Linked, Covers, Touches, Link, WriteHeader, HeaderIs;
    var h1 := Stamp(h, s);
    StampKeeps(h, s);
    BlockWritePayloads(h, h1.list.mem, s);
    assert PayloadsKept(h, h1);
    LinkPayloads(h1, s, p);
    PayloadsKeptTransitive(h, h1, GiveFree(h, s, p));
  }

  lemma LinkPayloads(h: Heap, s: int, p: Place)
    requires Inv(h) && HoleAt(h, s) && PlaceOk(h, p)
    ensures PayloadsKept(h, Linking(h, s, p))
  {
    hide HeadersOk, Linked, Covers, Touches, Link, WriteHeader, HeaderIs;
    LinkInserts(h, s, p);
    NotLive(h, s, Index(p, |h.free|));
    ListTouchPayloads(h, Link(h, s, p).mem, Inserted(h.free, Index(p, |h.free|), s));
  }

  lemma NotLive(h: Heap, s: int, k: int)
    requires FreeListed(h) && HoleAt(h, s) && 0 <= k <= |h.free|
    ensures var G := Inserted(h.free, k, s);
      forall i :: 0 <= i < |G| ==> G[i] in h.blocks && !h.blocks[G[i]].use.Live?
  {
    var G := Inserted(h.free, k, s);
    forall i | 0 <= i < |G| ensures G[i] in h.blocks && !h.blocks[G[i]].use.Live? {
      if i != k { assert G[i] == h.free[if i < k then i else i - 1]; }
    }
  }

  lemma TrimPayloads(h: Heap, s: int, need: int)
    requires Inv(h) && HoleAt(h, s) && HEADER <= need <= h.blocks[s].size
    ensures PayloadsKept(h, Trim(h, s, need))
  {
    hide HeadersOk, Linked, Covers, FreeListed, GiveFree;
    if h.blocks[s].size - need > MINIMUM_ALLOCATION + HEADER {
      SplitHoleKeeps(h, s, need);
      assert PayloadsKept(h, SplitHole(h, s, need));
      GiveFreePayloads(SplitHole(h, s, need), s + need, AtTail);
      PayloadsKeptTransitive(h, SplitHole(h, s, need), Trim(h, s, need));
    }
  }

  /** The block list after `need` bytes of the free block `s` have been given out as `live`. */
  function Given(h: Heap, s: int, need: int, live: Use): map<int, Block>
    requires s in h.blocks
  {
    if h.blocks[s].size - need > MINIMUM_ALLOCATION + HEADER then
      h.blocks[s := Block(need, live)][s + need := Block(h.blocks[s].size - need, Free)]
    else
      h.blocks[s := h.blocks[s].(use := live)]
  }

  /** The free list after entry `k` went and the leftover, if kept, came in at the tail. */
  function GivenFree(h: Heap, k: int, need: int): seq<int>
    requires 0 <= k < |h.free| && h.free[k] in h.blocks
  {
    var s := h.free[k];
    if h.blocks[s].size - need > MINIMUM_ALLOCATION + HEADER then Without(h.free, k) + [s + need]
    else Without(h.free, k)
  }

  lemma TrimEffect(h: Heap, s: int, need: int)
    requires Inv(h) && HoleAt(h, s) && HEADER <= need <= h.blocks[s].size
    ensures Trim(h, s, need).blocks == Given(h, s, need, Hole) && Trim(h, s, need).ranges == h.ranges
    ensures Trim(h, s, need).free ==
      if h.blocks[s].size - need > MINIMUM_ALLOCATION + HEADER then h.free + [s + need] else h.free
  {
    hide HeadersOk, Linked, Covers, FreeListed, BlocksOk, Link, Stamp;
    if h.blocks[s].size - need > MINIMUM_ALLOCATION + HEADER {
      SplitHoleKeeps(h, s, need);
      StampBlocks(SplitHole(h, s, need), s + need);
      assert Inserted(h.free, |h.free|, s + need) == h.free + [s + need];
    } else {
      assert h.blocks[s := h.blocks[s].(use := Hole)] == h.blocks;
    }
  }

  lemma StampBlocks(h: Heap, s: int)
    requires BlocksOk(h) && s in h.blocks
    ensures Stamp(h, s).blocks == h.blocks && Stamp(h, s).free == h.free && Stamp(h, s).ranges == h.ranges
  {
    hide WriteHeader;
  }

  lemma InvFree(h: Heap)
    requires Inv(h)
    ensures FreeListed(h)
  {
  }

  lemma InvBlocks(h: Heap)
    requires Inv(h)
    ensures BlocksOk(h)
  {
  }

  lemma HandOverPayloads(h: Heap, s: int, addr: int, req: int, zero: bool)
    requires Inv(h) && HoleAt(h, s) && s + HEADER <= addr && 0 <= req && addr + req <= End(h, s)
    ensures BlocksOk(Cleared(h, s, zero)) && PayloadsKept(h, HandOver(Cleared(h, s, zero), s, addr, req))
  {
    hide Inv, WriteHeader, HeaderIs;
    InvBlocks(h);
    assert BlockOk(h, s);
    ClearedKeeps(h, s, zero);
    var h3 := Cleared(h, s, zero);
    InvBlocks(h3);
    WriteHeaderSets(h3.list.mem, addr - HEADER, s, h3.blocks[s].size, false);
    BlockWritePayloads(h, HandOver(h3, s, addr, req).list.mem, s);
  }

  lemma HandOverZeroes(h: Heap, s: int, addr: int, req: int)
    requires BlocksOk(h) && HoleAt(h, s) && s + HEADER <= addr && 0 <= req && addr + req <= End(h, s)
    requires BlocksOk(Cleared(h, s, true))
    ensures var h' := HandOver(Cleared(h, s, true), s, addr, req);
      0 <= addr && addr + req <= |h'.list.mem| && forall x :: addr <= x < addr + req ==> h'.list.mem[x] == 0
  {
    hide WriteHeader, HeaderIs;
    assert BlockOk(h, s);
    var h3 := Cleared(h, s, true);
    WriteHeaderSets(h3.list.mem, addr - HEADER, s, h3.blocks[s].size, false);
  }

  lemma AllocInside(h: Heap, k: int, size: int, align: u32, zero: bool)
    requires Inv(h) && 0 <= k < |h.free| && 0 <= size && Fits(h, k, size, align)
    ensures var addr := PayloadOf(h.free[k], align);
      0 <= addr && addr + size <= |AllocAt(h, k, size, align, zero).list.mem|
  {
    hide Inv, TakeFree, Trim, Cleared, WriteHeader, HeaderIs;
    AllocStages(h, k, size, align, zero);
    var s := h.free[k];
    InvBlocks(Trim(TakeFree(h, k), s, Needed(s, size, align)));
    var h3 := Cleared(Trim(TakeFree(h, k), s, Needed(s, size, align)), s, zero);
    InvBlocks(h3);
    assert BlockOk(h3, s);
    WriteHeaderSets(h3.list.mem, PayloadOf(s, align) - HEADER, s, h3.blocks[s].size, false);
  }

  /** An allocation cuts one free block, leaves every other allocation alone, and gives zeroes when asked to. */
  lemma AllocEffect(h: Heap, k: int, size: int, align: u32, zero: bool)
    requires Inv(h) && 0 <= k < |h.free| && 0 <= size && Fits(h, k, size, align)
    ensures var s := h.free[k]; var need, addr := Needed(s, size, align), PayloadOf(s, align);
      var h' := AllocAt(h, k, size, align, zero);
      && h'.blocks == Given(h, s, need, Live(addr, size))
      && h'.free == GivenFree(h, k, need) && h'.ranges == h.ranges
      && 0 <= addr && addr + size <= |h'.list.mem| && PayloadsKept(h, h')
      && (zero ==> forall x :: addr <= x < addr + size ==> h'.list.mem[x] == 0)
  {
    hide Inv, TakeFree, Trim, WriteHeader, PayloadsKept, BlocksOk;
    AllocStages(h, k, size, align, zero);
    var s := h.free[k];
    var need, addr := Needed(s, size, align), PayloadOf(s, align);
    var h1 := TakeFree(h, k);
    var h2 := Trim(h1, s, need);
    TakeFreeBlocks(h, k);
    TrimEffect(h1, s, need);
    TakeFreePayloads(h, k);
    TrimPayloads(h1, s, need);
    HandOverPayloads(h2, s, addr, size, zero);
    InvBlocks(h2);
    AllocInside(h, k, size, align, zero);
    if zero { HandOverZeroes(h2, s, addr, size); }
    PayloadsKeptTransitive(h, h1, h2);
    PayloadsKeptTransitive(h, h2, AllocAt(h, k, size, align, zero));
  }

  lemma TakeFreeBlocks(h: Heap, k: int)
    requires Inv(h) && 0 <= k < |h.free|
    ensures var h', s := TakeFree(h, k), h.free[k];
      h'.blocks == h.blocks[s := h.blocks[s].(use := Hole)] && h'.free == Without(h.free, k) && h'.ranges == h.ranges
  {
    hide Deleted, Linked, HeadersOk, Covers;
  }

  lemma AllocSettles(h: Heap, k: int, size: int, align: u32, zero: bool)
    requires Settled(h) && 0 <= k < |h.free| && 0 <= size && Fits(h, k, size, align)
    ensures Settled(AllocAt(h, k, size, align, zero))
  {
    hide HeadersOk, Linked, Covers, BlocksOk, TakeFree, Trim, Cleared, HandOver, PayloadsKept;
    AllocStages(h, k, size, align, zero);
    var s := h.free[k];
    var h3 := Cleared(Trim(TakeFree(h, k), s, Needed(s, size, align)), s, zero);
    HandOverKeeps(h3, s, PayloadOf(s, align), size);
    AllocEffect(h, k, size, align, zero);
  }

  // ----- What an allocation that does not ask for zeroes leaves in the bytes it gives -----

  ghost predicate SameBytes(m: Mem, m': Mem, a: int, b: int) {
    0 <= a && b <= |m| == |m'| && forall x :: a <= x < b ==> m'[x] == m[x]
  }

  /** List operations reach only nodes, which lie in the headers of other blocks or in the block's own. */
  lemma NodesMiss(h: Heap, m': Mem, touched: seq<int>, s: int)
    requires BlocksOk(h) && s in h.blocks && Touches(h.list.mem, m', NodesOf(touched))
    requires forall i :: 0 <= i < |touched| ==> touched[i] in h.blocks
    ensures SameBytes(h.list.mem, m', s + HEADER, End(h, s))
  {
    hide Touches;
    TouchesSize(h.list.mem, m', NodesOf(touched));
    var F := NodesOf(touched);
    assert BlockOk(h, s);
    var n := End(h, s) - (s + HEADER);
    forall i | 0 <= i < |F| ensures F[i] + 8 <= s + HEADER || s + HEADER + n <= F[i] {
      var t := touched[i];
      assert BlockOk(h, t);
      assert s < t ==> End(h, s) <= t;
      assert t < s ==> End(h, t) <= s;
    }
    UntouchedBytes(h.list.mem, m', F, s + HEADER, n);
    var b, c := m'[s + HEADER..s + HEADER + n], h.list.mem[s + HEADER..s + HEADER + n];
    forall x | s + HEADER <= x < End(h, s) ensures m'[x] == h.list.mem[x] {
      assert b[x - (s + HEADER)] == m'[x] && c[x - (s + HEADER)] == h.list.mem[x];
    }
  }

  lemma TakeFreeBytes(h: Heap, k: int)
    requires Inv(h) && 0 <= k < |h.free|
    ensures h.free[k] in h.blocks
    ensures SameBytes(h.list.mem, TakeFree(h, k).list.mem, h.free[k] + HEADER, End(h, h.free[k]))
  {
    hide HeadersOk, Linked, Covers, Touches, Deleted;
    DeleteRemoves(h.list, NodesOf(h.free), k);
    NodesMiss(h, TakeFree(h, k).list.mem, h.free, h.free[k]);
  }

  lemma GiveFreeBytes(h: Heap, s: int, t: int)
    requires Inv(h) && HoleAt(h, s) && HoleAt(h, t) && s != t
    ensures SameBytes(h.list.mem, GiveFree(h, t, AtTail).list.mem, s + HEADER, End(h, s))
  {
    hide HeadersOk, Linked, Covers, Touches, Link, WriteHeader, HeaderIs;
    var h1 := Stamp(h, t);
    StampKeeps(h, t);
    assert BlockOk(h, s) && BlockOk(h, t);
    assert s < t ==> End(h, s) <= t;
    assert t < s ==> End(h, t) <= s;
    LinkInserts(h1, t, AtTail);
    NotLive(h1, t, |h1.free|);
    NodesMiss(h1, Link(h1, t, AtTail).mem, Inserted(h1.free, |h1.free|, t), s);
  }

  lemma TrimBytes(h: Heap, s: int, need: int)
    requires Inv(h) && HoleAt(h, s) && HEADER <= need <= h.blocks[s].size
    ensures SameBytes(h.list.mem, Trim(h, s, need).list.mem, s + HEADER, s + need)
  {
    hide HeadersOk, Linked, Covers, FreeListed, GiveFree;
    assert BlockOk(h, s);
    if h.blocks[s].size - need > MINIMUM_ALLOCATION + HEADER {
      SplitHoleKeeps(h, s, need);
      GiveFreeBytes(SplitHole(h, s, need), s, s + need);
    }
  }

  /** Without the request for zeroes the client gets the bytes as they were. */
  lemma AllocLeavesBytes(h: Heap, k: int, size: int, align: u32)
    requires Inv(h) && 0 <= k < |h.free| && 0 <= size && Fits(h, k, size, align)
    ensures var addr := PayloadOf(h.free[k], align);
      SameBytes(h.list.mem, AllocAt(h, k, size, align, false).list.mem, addr, addr + size)
  {
    hide Inv, TakeFree, Trim, WriteHeader, HeaderIs;
    AllocStages(h, k, size, align, false);
    var s := h.free[k];
    var need, addr := Needed(s, size, align), PayloadOf(s, align);
    var h1 := TakeFree(h, k);
    var h2 := Trim(h1, s, need);
    TakeFreeBytes(h, k);
    TakeFreeBlocks(h, k);
    TrimBytes(h1, s, need);
    InvBlocks(h);
    InvBlocks(h2);
    assert BlockOk(h, s) && BlockOk(h2, s);
    WriteHeaderSets(h2.list.mem, addr - HEADER, s, h2.blocks[s].size, false);
  }

  // ----- kern_physmem_free -----

  /** The block start recorded in the header just before `addr`. */
  function OwnerOf(h: Heap, addr: int): int
    requires |h.list.mem| == TWO32 && HEADER <= addr <= TWO32
  {
    Get32(h.list.mem, addr - HEADER + START)
  }

  predicate Allocated(h: Heap, addr: int) {
    && |h.list.mem| == TWO32 && HEADER <= addr <= TWO32
    && OwnerOf(h, addr) in h.blocks
    && h.blocks[OwnerOf(h, addr)].use.Live?
    && h.blocks[OwnerOf(h, addr)].use.addr == addr
  }

  /** The header a client's address leads to describes the block the address was cut from. */
  lemma OwnerFound(h: Heap, s: int)
    requires Inv(h) && s in h.blocks && h.blocks[s].use.Live?
    ensures Allocated(h, h.blocks[s].use.addr) && OwnerOf(h, h.blocks[s].use.addr) == s
  {
    hide Get32, MagicOk, Linked, Covers, FreeListed;
    assert BlockOk(h, s);
    assert HeaderIs(h.list.mem, HeaderOf(h, s), s, h.blocks[s].size, false);
  }

  lemma FreeHeader(h: Heap, addr: int)
    requires Inv(h) && Allocated(h, addr)
    ensures var s := OwnerOf(h, addr);
      Get32(h.list.mem, addr - HEADER + START) == s && Get32(h.list.mem, addr - HEADER + SIZE) == h.blocks[s].size
  {
    hide MagicOk, Linked, Covers, FreeListed;
    var s := OwnerOf(h, addr);
    assert HeaderIs(h.list.mem, HeaderOf(h, s), s, h.blocks[s].size, false);
  }

  /** Where the freed block goes: before the first entry that starts above it, or at the head. */
  ghost function FreePlace(h: Heap, i: nat, s: int): (p: Place)
    requires i <= |h.free|
    ensures PlaceOk(h, p) && !p.AtTail?
    ensures p.Ahead? ==> i <= p.k && h.free[p.k] > s && forall j :: i <= j < p.k ==> h.free[j] <= s
    ensures p.AtHead? ==> forall j :: i <= j < |h.free| ==> h.free[j] <= s
    decreases |h.free| - i
  {
    if i == |h.free| then AtHead else if h.free[i] > s then Ahead(i) else FreePlace(h, i + 1, s)
  }

  ghost function Released(h: Heap, s: int): Heap
    requires s in h.blocks
  {
    h.(blocks := h.blocks[s := h.blocks[s].(use := Hole)])
  }

  lemma ReleasedKeeps(h: Heap, s: int)
    requires Inv(h) && s in h.blocks && h.blocks[s].use.Live?
    ensures Inv(Released(h, s)) && HoleAt(Released(h, s), s)
  {
    hide HeaderIs, Linked;
    assert BlockOk(h, s);
    Reuse(h, Released(h, s), s, Hole);
  }

  ghost function FreeAt(h: Heap, addr: int): Heap
    requires Inv(h) && Allocated(h, addr)
  {
    hide Inv, GiveFree;
    var s := OwnerOf(h, addr);
    ReleasedKeeps(h, s);
    GiveFree(Released(h, s), s, FreePlace(h, 0, s))
  }

  /** Freeing restores the block's true bounds, wherever in it the payload was, and disturbs no one. */
  lemma FreeEffect(h: Heap, addr: int)
    requires Inv(h) && Allocated(h, addr)
    ensures var s := OwnerOf(h, addr); var h' := FreeAt(h, addr);
      && Inv(h')
      && h'.blocks == h.blocks[s := Block(h.blocks[s].size, Free)]
      && h'.free == Inserted(h.free, Index(FreePlace(h, 0, s), |h.free|), s) && h'.ranges == h.ranges
      && h'.entries == h.entries
      && PayloadsKept(Released(h, s), h')
  {
    hide Inv, Link, WriteHeader, PayloadsKept;
    var s := OwnerOf(h, addr);
    var h1 := Released(h, s);
    ReleasedKeeps(h, s);
    InvBlocks(h1);
    GiveFreeKeeps(h1, s, FreePlace(h, 0, s));
    GiveFreePayloads(h1, s, FreePlace(h, 0, s));
    StampBlocks(h1, s);
  }

  // ----- kern_physmem_add_range -----

  ghost predicate RangeOk(h: Heap, start: int, end: int) {
    && 0 <= start && start + HEADER <= end < TWO32
    && forall x: int :: start <= x < end ==> !InRanges(h.ranges, x)
  }

  ghost function Extended(h: Heap, start: int, end: int): Heap {
    h.(ranges := h.ranges + [Range(start, end)], blocks := h.blocks[start := Block(end - start, Hole)])
  }

  lemma ExtendedKeeps(h: Heap, start: int, end: int)
    requires Inv(h) && RangeOk(h, start, end)
    ensures Inv(Extended(h, start, end)) && HoleAt(Extended(h, start, end), start)
    ensures start !in h.blocks
  {
    hide HeaderIs, Linked;
    var h' := Extended(h, start, end);
    NewRangeApart(h, start, end);
    forall s | s in h'.blocks ensures BlockOk(h', s) {
      if s != start { assert BlockOk(h, s); }
    }
    ExtendedCovers(h, start, end);
  }

  lemma NewRangeApart(h: Heap, start: int, end: int)
    requires BlocksOk(h) && Covers(h) && RangeOk(h, start, end)
    ensures forall s :: s in h.blocks ==> End(h, s) <= start || end <= s
  {
    forall s | s in h.blocks ensures End(h, s) <= start || end <= s {
      assert BlockOk(h, s);
      var x := if s < start then start else s;
      assert s <= x < End(h, s) ==> InBlocks(h.blocks, x);
    }
  }

  lemma ExtendedCovers(h: Heap, start: int, end: int)
    requires Covers(h) && start !in h.blocks
    ensures Covers(Extended(h, start, end))
  {
    var h' := Extended(h, start, end);
    forall x: int ensures InRanges(h'.ranges, x) <==> InBlocks(h'.blocks, x) {
      if i :| 0 <= i < |h.ranges| && h.ranges[i].start <= x < h.ranges[i].end {
        assert h'.ranges[i] == h.ranges[i] && InRanges(h.ranges, x);
        var s :| s in h.blocks && s <= x < s + h.blocks[s].size;
        assert s in h'.blocks;
      }
      if start <= x < end { assert h'.ranges[|h.ranges|] == Range(start, end) && start in h'.blocks; }
      if s :| s in h'.blocks && s <= x < s + h'.blocks[s].size {
        if s != start {
          assert InBlocks(h.blocks, x);
          var i :| 0 <= i < |h.ranges| && h.ranges[i].start <= x < h.ranges[i].end;
          assert h'.ranges[i] == h.ranges[i];
        }
      }
    }
  }

  ghost function RangeAdded(h: Heap, start: int, end: int): Heap
    requires Inv(h) && RangeOk(h, start, end)
  {
    hide Inv, GiveFree;
    ExtendedKeeps(h, start, end);
    GiveFree(Extended(h, start, end), start, AtTail)
  }

  lemma RangeAddedEffect(h: Heap, start: int, end: int)
    requires Inv(h) && RangeOk(h, start, end)
    ensures var h' := RangeAdded(h, start, end);
      && Inv(h') && h'.blocks == h.blocks[start := Block(end - start, Free)] && h'.free == h.free + [start]
      && h'.ranges == h.ranges + [Range(start, end)] && h'.entries == h.entries
      && PayloadsKept(h, h')
  {
    hide Inv, Link, WriteHeader, PayloadsKept;
    var h1 := Extended(h, start, end);
    ExtendedKeeps(h, start, end);
    InvBlocks(h1);
    InvBlocks(h);
    GiveFreeKeeps(h1, start, AtTail);
    GiveFreePayloads(h1, start, AtTail);
    StampBlocks(h1, start);
    assert Inserted(h.free, |h.free|, start) == h.free + [start];
    ExtendedPayloads(h, start, end);
    PayloadsKeptTransitive(h, h1, RangeAdded(h, start, end));
  }

  lemma ExtendedPayloads(h: Heap, start: int, end: int)
    requires BlocksOk(h) && start !in h.blocks
    ensures PayloadsKept(h, Extended(h, start, end))
  {
  }

  // ----- The order of the free list -----

  /** What the comments of physmem.c intend of the free list. */
  predicate Ascending(free: seq<int>) {
    forall i, j :: 0 <= i < j < |free| ==> free[i] < free[j]
  }

  /**
   * Freeing keeps an ascending free list ascending exactly when some entry starts above the freed block,
   * or the list is empty: with no later entry the block goes to the head, where it is the highest.
   */
  lemma FreeKeepsOrder(h: Heap, addr: int)
    requires Inv(h) && Allocated(h, addr) && Ascending(h.free)
    ensures Ascending(FreeAt(h, addr).free) <==> h.free == [] || OwnerOf(h, addr) < h.free[|h.free| - 1]
  {
    hide Inv, FreeAt, PayloadsKept, OwnerOf, Ascending, FreePlace;
    FreeEffect(h, addr);
    OwnerNotFree(h, addr);
    InsertKeepsOrder(h, OwnerOf(h, addr));
  }

  lemma OwnerNotFree(h: Heap, addr: int)
    requires Inv(h) && Allocated(h, addr)
    ensures OwnerOf(h, addr) !in h.free
  {
    hide HeadersOk, Linked, Covers, BlocksOk, OwnerOf;
  }

  lemma InsertKeepsOrder(h: Heap, s: int)
    requires Ascending(h.free) && s !in h.free
    ensures Ascending(Inserted(h.free, Index(FreePlace(h, 0, s), |h.free|), s)) <==>
      h.free == [] || s < h.free[|h.free| - 1]
  {
    var p, n := FreePlace(h, 0, s), |h.free|;
    var r := Inserted(h.free, Index(p, n), s);
    InsertedIndex(h.free, Index(p, n), s);
    if p.AtHead? && n > 0 { assert r[0] == s && r[n] == h.free[n - 1]; }
    if p.Ahead? {
      forall j | 0 <= j < p.k ensures h.free[j] < s { assert h.free[j] in h.free; }
    }
  }

  /** Allocating keeps it ascending exactly when nothing is left over, or the entry cut is the last one. */
  lemma AllocKeepsOrder(h: Heap, k: int, size: int, align: u32, zero: bool)
    requires Inv(h) && 0 <= k < |h.free| && 0 <= size && Fits(h, k, size, align) && Ascending(h.free)
    ensures h.free[k] in h.blocks
    ensures Ascending(AllocAt(h, k, size, align, zero).free) <==>
      k == |h.free| - 1
      || h.blocks[h.free[k]].size - Needed(h.free[k], size, align) <= MINIMUM_ALLOCATION + HEADER
  {
    hide HeadersOk, Linked, Covers, AllocAt, PayloadsKept, Given, Needed, Ascending;
    AllocEffect(h, k, size, align, zero);
    var s, last := h.free[k], |h.free| - 1;
    assert BlockOk(h, s);
    NeededPositive(s, size, align);
    if k < last { LaterBlock(h, k, last); }
    TailKeepsOrder(h.free, k, s + Needed(s, size, align));
  }

  lemma LaterBlock(h: Heap, k: int, j: int)
    requires Inv(h) && 0 <= k < j < |h.free| && Ascending(h.free)
    ensures h.free[k] in h.blocks && End(h, h.free[k]) <= h.free[j]
  {
    hide HeadersOk, Linked, Covers;
    assert h.free[k] < h.free[j] && h.free[j] in h.blocks;
  }

  /** Taking entry `k` out keeps the order; an address just above it at the tail keeps it only behind the last entry. */
  lemma TailKeepsOrder(free: seq<int>, k: int, x: int)
    requires Ascending(free) && 0 <= k < |free| && free[k] < x && (k < |free| - 1 ==> x <= free[|free| - 1])
    ensures Ascending(Without(free, k)) && (Ascending(Without(free, k) + [x]) <==> k == |free| - 1)
  {
    var last, w := |free| - 1, Without(free, k);
    WithoutIndex(free, k);
    var r := w + [x];
    assert r[last] == x && forall j :: 0 <= j < last ==> r[j] == w[j];
    if k < last { assert r[last - 1] == free[last]; }
  }

  lemma NeededPositive(s: int, size: int, align: u32)
    requires 0 <= size && 0 <= s
    ensures Needed(s, size, align) > 0
  {
  }
}
