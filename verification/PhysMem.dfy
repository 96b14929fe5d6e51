/** The physical memory allocator of physmem.c: every run of it, and its code in place. */
module PhysMem {
  import opened Word32
  import opened Memory
  import opened IntrusiveList
  import opened Sequences
  import opened HeapInvariant
  import opened HeapOps

  // ----- Runs -----

  datatype Op =
    | AddRange(start: u32, end: u32, flags: u32)
    | Alloc(size: u32, align: u32, flags: u32)
    | Free(addr: int)
    | ClientWrite(addr: int, written: Mem)

  predicate ZeroFlag(flags: u32) {
    flags % 2 == 1
  }

  /** Only a range of normal SRAM, and only while the bootstrap table has room, becomes free memory. */
  predicate TakesRange(h: Heap, flags: u32) {
    h.entries < BOOTSTRAP_REGIONS && flags == FLAG_NORMAL_SRAM
  }

  /** What each operation asks of its caller; a client may write anywhere inside its own payload. */
  ghost predicate Allowed(h: Heap, op: Op) {
    match op
    case AddRange(start, end, flags) => TakesRange(h, flags) ==> start + HEADER <= end && RangeOk(h, start, end)
    case Alloc(size, align, _) => size + HEADER + align < TWO32
    case Free(addr) => Allocated(h, addr)
    case ClientWrite(addr, written) =>
      && Allocated(h, addr) && |written| == TWO32
      && forall x :: 0 <= x < TWO32 && !(addr <= x < addr + h.blocks[OwnerOf(h, addr)].use.req) ==>
        written[x] == h.list.mem[x]
  }

  /** The address kern_physmem_alloc returns, and the heap it leaves. */
  ghost function AllocResult(h: Heap, size: u32, align: u32, zero: bool): (r: (Heap, int))
    requires Inv(h)
  {
    var k := FirstFit(h, 0, size, align);
    if k == |h.free| then (h, 0) else (AllocAt(h, k, size, align, zero), PayloadOf(h.free[k], align))
  }

  ghost function Apply(h: Heap, op: Op): Heap
    requires Inv(h) && Allowed(h, op)
  {
    match op
    case AddRange(start, end, flags) =>
      if h.entries >= BOOTSTRAP_REGIONS then h
      else if TakesRange(h, flags) then RangeAdded(h, start, end).(entries := h.entries + 1)
      else h.(entries := h.entries + 1)
    case Alloc(size, align, flags) => AllocResult(h, size, align, ZeroFlag(flags)).0
    case Free(addr) => FreeAt(h, addr)
    case ClientWrite(_, written) => h.(list := h.list.(mem := written))
  }

  lemma ApplySettles(h: Heap, op: Op)
    requires Settled(h) && Allowed(h, op)
    ensures Settled(Apply(h, op))
  {
    hide Inv, RangeAdded, AllocAt, FreeAt, PayloadsKept;
    InvFree(h);
    match op
    case AddRange(start, end, flags) =>
      if TakesRange(h, flags) {
        RangeAddedEffect(h, start, end);
        EntriesOnly(RangeAdded(h, start, end), h.entries + 1);
      }
      EntriesOnly(h, h.entries + 1);
    case Alloc(size, align, flags) =>
      var k := FirstFit(h, 0, size, align);
      if k < |h.free| { AllocSettles(h, k, size, align, ZeroFlag(flags)); }
    case Free(addr) =>
      FreeEffect(h, addr);
    case ClientWrite(addr, written) =>
      ClientWriteKeeps(h, addr, written);
  }

  lemma EntriesOnly(h: Heap, n: nat)
    requires Inv(h)
    ensures Inv(h.(entries := n))
  {
    hide HeaderIs, Linked;
    var h' := h.(entries := n);
    assert BlocksOk(h') by {
      assert forall s :: s in h.blocks ==> BlockOk(h, s) == BlockOk(h', s);
    }
  }

  lemma ClientWriteKeeps(h: Heap, addr: int, written: Mem)
    requires Inv(h) && Allowed(h, ClientWrite(addr, written))
    ensures Inv(h.(list := h.list.(mem := written)))
  {
    hide HeadersOk, Linked, Covers, FreeListed;
    var s := OwnerOf(h, addr);
    assert BlockOk(h, s);
    BlockWrite(h, written, s, addr, addr + h.blocks[s].use.req);
  }

  /** Every operation of the run was allowed where it was made. */
  ghost predicate RunAllowed(h: Heap, ops: seq<Op>)
    decreases |ops|
  {
    ops == [] || (Inv(h) && Allowed(h, ops[0]) && RunAllowed(Apply(h, ops[0]), ops[1..]))
  }

  ghost function Run(h: Heap, ops: seq<Op>): Heap
    requires RunAllowed(h, ops)
    decreases |ops|
  {
    if ops == [] then h else Run(Apply(h, ops[0]), ops[1..])
  }

  /** kern_physmem_init: an empty free list over whatever memory holds. */
  ghost predicate Initial(h: Heap) {
    |h.list.mem| == TWO32 && h == Heap(List(h.list.mem, 0, 0), [], map[], [], 0)
  }

  /**
   * The heap partition, over every run of add-range, alloc, free and client writes: the free and
   * live blocks are disjoint and are exactly the bytes added, and every header still describes its block.
   */
  lemma {:induction false} EveryRunSettles(h: Heap, ops: seq<Op>)
    requires (Initial(h) || Settled(h)) && RunAllowed(h, ops)
    ensures Settled(Run(h, ops))
    decreases |ops|
  {
    if ops != [] {
      assert Settled(h);
      ApplySettles(h, ops[0]);
      EveryRunSettles(Apply(h, ops[0]), ops[1..]);
    }
  }

  predicate Owns(h: Heap, s: int, x: int) {
    s in h.blocks && s <= x < End(h, s) && (h.blocks[s].use == HeapInvariant.Free || h.blocks[s].use.Live?)
  }

  /** Bytes are conserved: a byte was added if and only if it is in a free or live block, and then in one only. */
  lemma Partition(h: Heap, x: int)
    requires Settled(h)
    ensures InRanges(h.ranges, x) <==> exists s :: Owns(h, s, x)
    ensures forall s, t :: Owns(h, s, x) && Owns(h, t, x) ==> s == t
  {
    hide HeadersOk, Linked, FreeListed;
    if InRanges(h.ranges, x) {
      assert InBlocks(h.blocks, x);
      var s :| s in h.blocks && s <= x < s + h.blocks[s].size;
      assert Owns(h, s, x);
    }
    if s :| Owns(h, s, x) {
      assert InBlocks(h.blocks, x);
    }
  }

  /** A header lies inside its own block, so no payload, its own included, can reach it. */
  lemma HeadersOutOfReach(h: Heap, s: int, t: int)
    requires Settled(h) && s in h.blocks && t in h.blocks && h.blocks[t].use.Live?
    ensures s <= HeaderOf(h, s) && HeaderOf(h, s) + HEADER <= End(h, s)
    ensures var Live(addr, req) := h.blocks[t].use;
      HeaderOf(h, s) + HEADER <= addr || addr + req <= HeaderOf(h, s)
  {
    hide HeadersOk, Linked, FreeListed, Covers;
    assert BlockOk(h, s) && BlockOk(h, t);
    assert s < t ==> End(h, s) <= t;
    assert t < s ==> End(h, t) <= s;
  }

  /** The header of a block as it lies in memory. */
  lemma HeaderWords(h: Heap, s: int)
    requires Settled(h) && s in h.blocks
    ensures var e, n := HeaderOf(h, s), h.blocks[s].size;
      && 0 <= e && e + 24 <= |h.list.mem| && 0 <= s < TWO32 && 0 <= n < TWO32
      && Get32(h.list.mem, e) == Xor(Xor(0x9e37_79b9, s), n)
      && h.list.mem[e + 4] == (if h.blocks[s].use.Live? then 0 else 1)
      && Get32(h.list.mem, e + 16) == s && Get32(h.list.mem, e + 20) == n
  {
    hide Get32, Xor, Linked, FreeListed, Covers;
    assert BlockOk(h, s);
  }

  /** Every magic check the allocator can make, on a free entry or on a client's address, succeeds. */
  lemma MagicHolds(h: Heap)
    requires Settled(h)
    ensures forall i :: 0 <= i < |h.free| ==>
      0 <= h.free[i] && h.free[i] + HEADER <= |h.list.mem| && MagicOk(h.list.mem, h.free[i])
    ensures forall addr :: Allocated(h, addr) ==> MagicOk(h.list.mem, addr - HEADER)
  {
    hide Get32, Magic, Linked, Covers;
    forall i | 0 <= i < |h.free|
      ensures 0 <= h.free[i] && h.free[i] + HEADER <= |h.list.mem| && MagicOk(h.list.mem, h.free[i])
    {
      var s := h.free[i];
      assert BlockOk(h, s) && HeaderIs(h.list.mem, HeaderOf(h, s), s, h.blocks[s].size, true);
    }
    forall addr | Allocated(h, addr) ensures MagicOk(h.list.mem, addr - HEADER) {
      var s := OwnerOf(h, addr);
      assert HeaderIs(h.list.mem, HeaderOf(h, s), s, h.blocks[s].size, false);
    }
  }

  /** Two live payloads never share a byte. */
  lemma PayloadsDisjoint(h: Heap, a: int, b: int)
    requires Inv(h) && Allocated(h, a) && Allocated(h, b) && a != b
    ensures a + h.blocks[OwnerOf(h, a)].use.req <= b || b + h.blocks[OwnerOf(h, b)].use.req <= a
  {
    hide HeadersOk, Linked, FreeListed, Covers, OwnerOf;
    var s, t := OwnerOf(h, a), OwnerOf(h, b);
    assert s != t && BlockOk(h, s) && BlockOk(h, t);
    assert s < t ==> End(h, s) <= t;
    assert t < s ==> End(h, t) <= s;
  }

  // ----- The contract of one call -----

  /** Where the payload of a block that starts at `s` goes: past the header, at the next multiple strictly above. */
  predicate PlacedAt(s: int, align: u32, p: int) {
    if align == 0 then p == s + HEADER else p % align == 0 && s + HEADER < p <= s + HEADER + align
  }

  /** Free entry `i` has room for `size` bytes at the place its payload would go. */
  ghost predicate Holds(h: Heap, i: int, size: int, align: u32)
    requires 0 <= i < |h.free| && h.free[i] in h.blocks
  {
    exists p :: PlacedAt(h.free[i], align, p) && p + size <= End(h, h.free[i])
  }

  /** There is one such place. */
  lemma OnePlace(s: int, align: u32, p: int)
    requires 0 <= s
    ensures PlacedAt(s, align, p) <==> p == PayloadOf(s, align)
  {
    if align != 0 {
      AlignedUp(s + HEADER, align);
      if PlacedAt(s, align, p) { OneMultiple(align, p, PayloadOf(s, align)); }
    }
  }

  lemma OneMultiple(a: int, p: int, q: int)
    requires 0 < a && p % a == 0 && q % a == 0 && -a < p - q < a
    ensures p == q
  {
    assert p == a * (p / a) && q == a * (q / a);
    var d := p / a - q / a;
    assert p - q == a * d;
    if d != 0 { TimesAtLeast(a, if d > 0 then d else -d); }
  }

  lemma TimesAtLeast(a: int, d: int)
    requires 0 < a && 1 <= d
    ensures a * d >= a
  {
  }

  lemma FitsHolds(h: Heap, i: int, size: int, align: u32)
    requires BlocksOk(h) && 0 <= i < |h.free| && h.free[i] in h.blocks
    ensures Fits(h, i, size, align) <==> Holds(h, i, size, align)
  {
    hide Pad;
    var s := h.free[i];
    assert BlockOk(h, s);
    OnePlace(s, align, PayloadOf(s, align));
    forall p | PlacedAt(s, align, p) ensures p == PayloadOf(s, align) { OnePlace(s, align, p); }
  }

  /**
   * kern_physmem_alloc. It fails exactly when no free entry has room for the request at the first aligned place
   * strictly past its header, and then changes nothing; otherwise it takes the first entry that has, in list order.
   */
  lemma AllocContract(h: Heap, size: u32, align: u32, zero: bool)
    requires Settled(h) && size + HEADER + align < TWO32
    ensures var (h', addr) := AllocResult(h, size, align, zero); var n := |h.free|;
      && (addr == 0 <==> forall i :: 0 <= i < n && h.free[i] in h.blocks ==> !Holds(h, i, size, align))
      && (addr == 0 ==> h' == h)
      && (addr != 0 ==> exists k :: 0 <= k < n && AllocatedFrom(h, h', k, addr, size, align, zero))
  {
    hide Inv, AllocAt, PayloadsKept, Given, GivenFree, Allocated, Holds;
    InvFree(h);
    InvBlocks(h);
    var k := FirstFit(h, 0, size, align);
    forall i | 0 <= i < |h.free| ensures Fits(h, i, size, align) <==> Holds(h, i, size, align) {
      FitsHolds(h, i, size, align);
    }
    if k < |h.free| {
      AllocEffect(h, k, size, align, zero);
      AllocSettles(h, k, size, align, zero);
      assert BlockOk(h, h.free[k]) by { InvBlocks(h); FreeInBlocks(h, k); }
      PadAligns(h.free[k], align);
      AllocFrom(h, k, size, align, zero);
    }
  }

  lemma FreeInBlocks(h: Heap, k: int)
    requires Inv(h) && 0 <= k < |h.free|
    ensures h.free[k] in h.blocks && h.blocks[h.free[k]].use == HeapInvariant.Free
  {
    hide HeadersOk, Linked, Covers, BlocksOk;
  }

  /**
   * What the request leaves over of the entry is a free block at the tail of the list if it is worth it, more than
   * 256 bytes and a header of 24; otherwise the allocation keeps it.
   */
  ghost predicate LeftOver(h: Heap, h': Heap, k: int, addr: int, size: int)
    requires 0 <= k < |h.free| && h.free[k] in h.blocks
  {
    var s, end := h.free[k], addr + size;
    var left := End(h, s) - end;
    if left > 280 then
      && h'.blocks == h.blocks[s := Block(end - s, Live(addr, size))][end := Block(left, HeapInvariant.Free)]
      && h'.free == Without(h.free, k) + [end]
    else
      h'.blocks == h.blocks[s := Block(h.blocks[s].size, Live(addr, size))] && h'.free == Without(h.free, k)
  }

  /** `addr` was cut from entry `k`, the first that fits, and the leftover starts where the payload ends. */
  ghost predicate AllocatedFrom(h: Heap, h': Heap, k: int, addr: int, size: int, align: u32, zero: bool) {
    && 0 <= k < |h.free| && h.free[k] in h.blocks
    && (forall j :: 0 <= j < k && h.free[j] in h.blocks ==> !Holds(h, j, size, align))
    && var s := h.free[k];
    && PlacedAt(s, align, addr) && addr + size <= End(h, s)
    && LeftOver(h, h', k, addr, size)
    && Allocated(h', addr) && PayloadsKept(h, h')
    && (zero ==> forall x :: addr <= x < addr + size ==> 0 <= x < |h'.list.mem| && h'.list.mem[x] == 0)
    && (!zero ==> SameBytes(h.list.mem, h'.list.mem, addr, addr + size))
  }

  lemma AllocFrom(h: Heap, k: int, size: u32, align: u32, zero: bool)
    requires Settled(h) && k == FirstFit(h, 0, size, align) < |h.free|
    requires Settled(AllocAt(h, k, size, align, zero))
    ensures AllocatedFrom(h, AllocAt(h, k, size, align, zero), k, PayloadOf(h.free[k], align), size, align, zero)
  {
    hide Inv, AllocAt, PayloadsKept, Allocated, Holds, PlacedAt, Pad, SameBytes;
    InvFree(h);
    var s, addr := h.free[k], PayloadOf(h.free[k], align);
    var h' := AllocAt(h, k, size, align, zero);
    FreeInBlocks(h, k);
    AllocEffect(h, k, size, align, zero);
    assert BlockOk(h, s) by { InvBlocks(h); }
    PadAligns(s, align);
    assert Needed(s, size, align) == addr + size - s;
    OwnerFound(h', s);
    OnePlace(s, align, addr);
    if !zero { AllocLeavesBytes(h, k, size, align); }
    forall j | 0 <= j < k ensures !Holds(h, j, size, align) {
      InvBlocks(h);
      FitsHolds(h, j, size, align);
    }
  }

  /** The lowest bit of the flags asks for zeroes, and no other does. */
  lemma ZeroesByFlag(h: Heap, size: u32, align: u32, flags: u32)
    requires Settled(h) && Allowed(h, Alloc(size, align, flags))
    ensures var (h', addr) := AllocResult(h, size, align, ZeroFlag(flags));
      && Apply(h, Alloc(size, align, flags)) == h'
      && (addr != 0 ==>
        && Allocated(h', addr) && RequestOf(h', addr) == size && 0 <= addr && addr + size <= |h'.list.mem|
        && if flags % 2 == 1 then forall x :: addr <= x < addr + size ==> h'.list.mem[x] == 0
           else SameBytes(h.list.mem, h'.list.mem, addr, addr + size))
  {
    hide Inv, AllocResult, SameBytes, Allocated, LeftOver, Holds;
    AllocContract(h, size, align, ZeroFlag(flags));
    var (h', addr) := AllocResult(h, size, align, ZeroFlag(flags));
    if addr != 0 {
      var k :| 0 <= k < |h.free| && AllocatedFrom(h, h', k, addr, size, align, ZeroFlag(flags));
      ApplySettles(h, Alloc(size, align, flags));
      PayloadInMemory(h', addr);
      GivenSize(h, h', k, addr, size);
    }
  }

  lemma PayloadInMemory(h: Heap, addr: int)
    requires Settled(h) && Allocated(h, addr)
    ensures 0 <= addr && addr + RequestOf(h, addr) <= |h.list.mem|
  {
    hide HeadersOk, FreeListed, Covers;
    assert BlockOk(h, OwnerOf(h, addr));
  }

  lemma GivenSize(h: Heap, h': Heap, k: int, addr: int, size: int)
    requires Settled(h) && Settled(h') && 0 <= k < |h.free| && h.free[k] in h.blocks && LeftOver(h, h', k, addr, size)
    requires Allocated(h', addr) && 0 <= size && h.free[k] < addr
    ensures RequestOf(h', addr) == size
  {
    hide HeadersOk, FreeListed, Covers;
    var s := h.free[k];
    assert h'.blocks[s].use == Live(addr, size);
    OwnerFound(h', s);
  }

  // ----- What a client can count on over a run -----

  ghost predicate SpareClient(op: Op, addr: int) {
    match op
    case Free(a) => a != addr
    case ClientWrite(a, _) => a != addr
    case _ => true
  }

  function RequestOf(h: Heap, addr: int): int
    requires Allocated(h, addr)
  {
    h.blocks[OwnerOf(h, addr)].use.req
  }

  /** Every byte of an allocation was added by some range. */
  lemma PayloadAdded(h: Heap, a: int, x: int)
    requires Settled(h) && Allocated(h, a) && a <= x < a + RequestOf(h, a)
    ensures InRanges(h.ranges, x)
  {
    hide HeadersOk, FreeListed, InRanges;
    var s := OwnerOf(h, a);
    assert BlockOk(h, s) && s <= x < s + h.blocks[s].size;
    assert InBlocks(h.blocks, x);
  }

  /** The bytes of the allocation at `addr`. */
  ghost function PayloadBytes(h: Heap, addr: int): seq<u8>
    requires Inv(h) && Allocated(h, addr)
  {
    InvBlocks(h);
    assert BlockOk(h, OwnerOf(h, addr));
    h.list.mem[addr..addr + RequestOf(h, addr)]
  }

  ghost predicate SameClient(h: Heap, h': Heap, addr: int)
    requires Inv(h) && Allocated(h, addr) && Inv(h')
  {
    Allocated(h', addr) && RequestOf(h', addr) == RequestOf(h, addr) && PayloadBytes(h', addr) == PayloadBytes(h, addr)
  }

  lemma KeptClient(h: Heap, h': Heap, addr: int)
    requires Inv(h) && Allocated(h, addr) && Inv(h') && PayloadsKept(h, h')
    ensures SameClient(h, h', addr)
  {
    hide Inv, OwnerOf;
    var s := OwnerOf(h, addr);
    assert SamePayload(h, h'.list.mem, s);
    OwnerFound(h', s);
  }

  lemma ReleasedClient(h: Heap, s: int, addr: int)
    requires Inv(h) && Allocated(h, addr) && s in h.blocks && h.blocks[s].use.Live? && h.blocks[s].use.addr != addr
    ensures Inv(Released(h, s)) && SameClient(h, Released(h, s), addr)
  {
    hide Inv;
    ReleasedKeeps(h, s);
  }

  lemma ClientWriteOther(h: Heap, a: int, written: Mem, addr: int)
    requires Inv(h) && Allowed(h, ClientWrite(a, written)) && Allocated(h, addr) && a != addr
    ensures Inv(h.(list := h.list.(mem := written))) && SameClient(h, h.(list := h.list.(mem := written)), addr)
  {
    hide Inv, OwnerOf;
    var h' := h.(list := h.list.(mem := written));
    ClientWriteKeeps(h, a, written);
    PayloadsDisjoint(h, a, addr);
    var s := OwnerOf(h, addr);
    OwnerFound(h', s);
    InvBlocks(h);
    assert BlockOk(h, s);
    assert written[addr..addr + RequestOf(h, addr)] == h.list.mem[addr..addr + RequestOf(h, addr)];
  }

  lemma AddRangeClient(h: Heap, start: u32, end: u32, flags: u32, addr: int)
    requires Settled(h) && Allowed(h, AddRange(start, end, flags)) && Allocated(h, addr)
    requires Settled(Apply(h, AddRange(start, end, flags)))
    ensures SameClient(h, Apply(h, AddRange(start, end, flags)), addr)
  {
    hide Inv, RangeAdded, PayloadsKept, SameClient;
    var h' := Apply(h, AddRange(start, end, flags));
    InvBlocks(h);
    PayloadsKeptSelf(h, h');
    if TakesRange(h, flags) {
      var h1 := RangeAdded(h, start, end);
      RangeAddedEffect(h, start, end);
      InvBlocks(h1);
      PayloadsKeptSelf(h1, h');
      PayloadsKeptTransitive(h, h1, h');
    }
    KeptClient(h, h', addr);
  }

  lemma FreeClient(h: Heap, a: int, addr: int)
    requires Settled(h) && Allocated(h, a) && Allocated(h, addr) && a != addr
    requires Settled(FreeAt(h, a))
    ensures SameClient(h, FreeAt(h, a), addr)
  {
    hide Inv, FreeAt, PayloadsKept, SameClient, OwnerOf;
    var s := OwnerOf(h, a);
    FreeEffect(h, a);
    ReleasedClient(h, s, addr);
    StillAllocated(h, Released(h, s), addr);
    KeptClient(Released(h, s), FreeAt(h, a), addr);
    SameClientTransitive(h, Released(h, s), FreeAt(h, a), addr);
  }

  lemma AllocClient(h: Heap, size: u32, align: u32, zero: bool, addr: int)
    requires Settled(h) && size + HEADER + align < TWO32 && Allocated(h, addr)
    requires Settled(AllocResult(h, size, align, zero).0)
    ensures SameClient(h, AllocResult(h, size, align, zero).0, addr)
  {
    hide Inv, AllocAt, PayloadsKept, SameClient;
    InvFree(h);
    InvBlocks(h);
    PayloadsKeptSelf(h, h);
    var k := FirstFit(h, 0, size, align);
    if k < |h.free| { AllocEffect(h, k, size, align, zero); }
    KeptClient(h, AllocResult(h, size, align, zero).0, addr);
  }

  lemma StepKeepsClient(h: Heap, op: Op, addr: int)
    requires Settled(h) && Allowed(h, op) && Allocated(h, addr) && SpareClient(op, addr)
    ensures Settled(Apply(h, op)) && SameClient(h, Apply(h, op), addr)
  {
    hide Inv, RangeAdded, AllocResult, FreeAt, SameClient;
    ApplySettles(h, op);
    match op
    case AddRange(start, end, flags) => AddRangeClient(h, start, end, flags, addr);
    case Alloc(size, align, flags) => AllocClient(h, size, align, ZeroFlag(flags), addr);
    case Free(a) => FreeClient(h, a, addr);
    case ClientWrite(a, written) => ClientWriteOther(h, a, written, addr);
  }

  lemma PayloadsKeptSelf(h: Heap, h': Heap)
    requires BlocksOk(h)
    ensures h'.blocks == h.blocks && h'.list == h.list ==> PayloadsKept(h, h')
  {
  }

  lemma SameClientTransitive(h: Heap, h1: Heap, h2: Heap, addr: int)
    requires Inv(h) && Inv(h1) && Inv(h2) && Allocated(h, addr) && SameClient(h, h1, addr) && SameClient(h1, h2, addr)
    ensures SameClient(h, h2, addr)
  {
    hide Inv;
  }

  /** An allocation stays where it is, with the bytes its owner last wrote, until its owner writes or frees it. */
  lemma {:induction false} RunKeepsClient(h: Heap, ops: seq<Op>, addr: int)
    requires Settled(h) && RunAllowed(h, ops) && Allocated(h, addr)
    requires forall i :: 0 <= i < |ops| ==> SpareClient(ops[i], addr)
    ensures Settled(Run(h, ops)) && SameClient(h, Run(h, ops), addr)
    decreases |ops|
  {
    hide Inv, Apply, Allowed, SameClient, SpareClient;
    if ops == [] {
      SameClientSelf(h, addr);
    } else {
      StepKeepsClient(h, ops[0], addr);
      StillAllocated(h, Apply(h, ops[0]), addr);
      RunKeepsClient(Apply(h, ops[0]), ops[1..], addr);
      SameClientTransitive(h, Apply(h, ops[0]), Run(h, ops), addr);
    }
  }

  lemma SameClientSelf(h: Heap, addr: int)
    requires Inv(h) && Allocated(h, addr)
    ensures SameClient(h, h, addr)
  {
  }

  lemma StillAllocated(h: Heap, h': Heap, addr: int)
    requires Inv(h) && Inv(h') && Allocated(h, addr) && SameClient(h, h', addr)
    ensures Allocated(h', addr)
  {
  }

  // ----- From boot -----

  predicate Bit(w: u32, unit: int)
    requires unit > 0
  {
    w / unit % 2 == 1
  }

  /** Bits 0 (normal memory) and 2 (static RAM) are set, and no other. */
  predicate NormalStaticRam(flags: u32) {
    Bit(flags, 1) && !Bit(flags, 2) && Bit(flags, 4) && flags < 8
  }

  /**
   * A range becomes one free block at the tail of the list if the table of four has room and the flags say normal
   * static RAM and nothing more; otherwise no memory changes hands. While there is room the table takes it anyway.
   */
  lemma AddRangeExact(h: Heap, start: u32, end: u32, flags: u32)
    requires Settled(h) && Allowed(h, AddRange(start, end, flags))
    ensures var h' := Apply(h, AddRange(start, end, flags));
      && (h.entries < 4 && NormalStaticRam(flags) ==>
        && h'.blocks == h.blocks[start as int := Block(end - start, HeapInvariant.Free)]
        && h'.free == h.free + [start as int] && h'.ranges == h.ranges + [Range(start, end)])
      && (!(h.entries < 4 && NormalStaticRam(flags)) ==>
        h'.blocks == h.blocks && h'.free == h.free && h'.ranges == h.ranges && h'.list == h.list)
      && h'.entries == if h.entries < 4 then h.entries + 1 else h.entries
  {
    hide Inv, RangeAdded, PayloadsKept;
    if TakesRange(h, flags) { RangeAddedEffect(h, start, end); }
  }

  function Empty(m: Mem): Heap {
    Heap(List(m, 0, 0), [], map[], [], 0)
  }

  /** The two calls of the board's start: what lies between bss and the stack, and the stack itself. */
  function BootCalls(ebss: u32, stack: u32): seq<Op>
    requires stack + 1024 < TWO32
  {
    [AddRange(ebss, stack, 0x5), AddRange(stack, stack + 1024, 0x2)]
  }

  /** They leave the first range free and nothing else, and any request it has room for is met. */
  lemma Boots(m: Mem, ebss: u32, stack: u32)
    requires |m| == TWO32 && ebss as int + 24 <= stack as int && stack + 1024 < TWO32
    ensures RunAllowed(Empty(m), BootCalls(ebss, stack))
    ensures var h := Run(Empty(m), BootCalls(ebss, stack));
      && Settled(h) && h.free == [ebss as int] && h.entries == 2
      && h.blocks == map[ebss as int := Block(stack - ebss, HeapInvariant.Free)]
      && forall size: u32, align: u32, zero: bool, p: int
           {:trigger AllocResult(h, size, align, zero), PlacedAt(ebss, align, p)} ::
           size + HEADER + align < TWO32 && PlacedAt(ebss, align, p) && p + size <= stack as int ==>
           AllocResult(h, size, align, zero).1 != 0
  {
    hide Inv, Apply, Allowed, AllocResult, PlacedAt;
    var h0, ops := Empty(m), BootCalls(ebss, stack);
    BootFirst(m, ebss, stack);
    var h1 := Apply(h0, ops[0]);
    BootSecond(h1, ebss, stack);
    var h := Apply(h1, ops[1]);
    assert ops[1..] == [ops[1]];
    LastOp(h1, ops[1]);
    forall size: u32, align: u32, zero: bool, p: int |
      size + HEADER + align < TWO32 && PlacedAt(ebss, align, p) && p + size <= stack as int
      ensures AllocResult(h, size, align, zero).1 != 0
    {
      RoomIsGiven(h, size, align, zero, p);
    }
  }

  lemma LastOp(h: Heap, op: Op)
    requires Inv(h) && Allowed(h, op)
    ensures RunAllowed(h, [op]) && Run(h, [op]) == Apply(h, op)
  {
    hide Inv, Apply, Allowed;
    assert [op][1..] == [];
  }

  lemma BootFirst(m: Mem, ebss: u32, stack: u32)
    requires |m| == TWO32 && ebss as int + 24 <= stack as int && stack + 1024 < TWO32
    ensures Inv(Empty(m)) && Allowed(Empty(m), AddRange(ebss, stack, 0x5))
    ensures var h := Apply(Empty(m), AddRange(ebss, stack, 0x5));
      && Settled(h) && h.free == [ebss as int] && h.ranges == [Range(ebss, stack)] && h.entries == 1
      && h.blocks == map[ebss as int := Block(stack - ebss, HeapInvariant.Free)]
  {
    hide Inv, RangeAdded;
    EveryRunSettles(Empty(m), []);
    assert Allowed(Empty(m), AddRange(ebss, stack, 0x5));
    hide Allowed, Apply;
    ApplySettles(Empty(m), AddRange(ebss, stack, 0x5));
    AddRangeExact(Empty(m), ebss, stack, 0x5);
  }

  lemma BootSecond(h: Heap, ebss: u32, stack: u32)
    requires Settled(h) && h.entries == 1 && stack + 1024 < TWO32
    ensures Allowed(h, AddRange(stack, stack + 1024, 0x2))
    ensures var h' := Apply(h, AddRange(stack, stack + 1024, 0x2));
      Settled(h') && h'.free == h.free && h'.blocks == h.blocks && h'.entries == 2
  {
    hide Inv, RangeAdded;
    assert Allowed(h, AddRange(stack, stack + 1024, 0x2));
    hide Allowed, Apply;
    ApplySettles(h, AddRange(stack, stack + 1024, 0x2));
    AddRangeExact(h, stack, stack + 1024, 0x2);
  }

  lemma RoomIsGiven(h: Heap, size: u32, align: u32, zero: bool, p: int)
    requires Settled(h) && size + HEADER + align < TWO32 && |h.free| == 1 && h.free[0] in h.blocks
    requires PlacedAt(h.free[0], align, p) && p + size <= End(h, h.free[0])
    ensures AllocResult(h, size, align, zero).1 != 0
  {
    hide Inv, AllocResult, AllocatedFrom, PlacedAt;
    AllocContract(h, size, align, zero);
    assert Holds(h, 0, size, align);
  }

  /**
   * Addresses: from a free entry of 600 bytes at 0x2000_1000, 512 bytes aligned to 8 are given at 0x2000_1020, a
   * whole unit past the aligned place behind the header; 576 are refused, though they would fit without that unit.
   */
  lemma WholeUnit(m: Mem)
    requires |m| == TWO32
    ensures RunAllowed(Empty(m), BootCalls(0x2000_1000, 0x2000_1258))
    ensures var h := Run(Empty(m), BootCalls(0x2000_1000, 0x2000_1258));
      && Inv(h) && AllocResult(h, 512, 8, false).1 == 0x2000_1020 && AllocResult(h, 576, 8, false).1 == 0
      && AllocResult(h, 568, 8, false).1 == 0x2000_1020 && AllocResult(h, 576, 0, false).1 == 0x2000_1018
  {
    hide Inv, AllocAt, Run, RunAllowed, BootCalls, PayloadsKept;
    Boots(m, 0x2000_1000, 0x2000_1258);
    var h := Run(Empty(m), BootCalls(0x2000_1000, 0x2000_1258));
    InvFree(h);
    assert Fits(h, 0, 512, 8) && !Fits(h, 0, 576, 8) && Fits(h, 0, 568, 8) && Fits(h, 0, 576, 0);
    assert FirstFit(h, 0, 576, 8) == FirstFit(h, 1, 576, 8) == 1;
  }

  // ----- What the free list is not -----

  /** Nothing coalesces: over any run a block keeps its start for ever, and never grows. */
  ghost predicate OnlyCut(h: Heap, h': Heap) {
    forall s :: s in h.blocks ==> s in h'.blocks && h'.blocks[s].size <= h.blocks[s].size
  }

  lemma StepOnlyCuts(h: Heap, op: Op)
    requires Settled(h) && Allowed(h, op)
    ensures OnlyCut(h, Apply(h, op))
  {
    hide Inv, RangeAdded, AllocAt, FreeAt, PayloadsKept, Given, Needed, OwnerOf;
    match op
    case AddRange(start, end, flags) =>
      if TakesRange(h, flags) {
        ExtendedKeeps(h, start, end);
        RangeAddedEffect(h, start, end);
      }
    case Alloc(size, align, flags) =>
      InvFree(h);
      var k := FirstFit(h, 0, size, align);
      if k < |h.free| {
        AllocEffect(h, k, size, align, ZeroFlag(flags));
        FreeInBlocks(h, k);
        assert BlockOk(h, h.free[k]) by { InvBlocks(h); }
        NeededPositive(h.free[k], size, align);
        CutOnly(h, h.free[k], Needed(h.free[k], size, align), Live(PayloadOf(h.free[k], align), size));
      }
    case Free(addr) => FreeEffect(h, addr);
    case ClientWrite(_, _) =>
  }

  lemma CutOnly(h: Heap, s: int, need: int, live: Use)
    requires Inv(h) && s in h.blocks && 0 < need <= h.blocks[s].size
    ensures forall t :: t in h.blocks ==>
      t in Given(h, s, need, live) && Given(h, s, need, live)[t].size <= h.blocks[t].size
  {
    hide HeadersOk, Linked, FreeListed, Covers;
    forall t | t in h.blocks
      ensures t in Given(h, s, need, live) && Given(h, s, need, live)[t].size <= h.blocks[t].size
    {
      assert BlockOk(h, s) && BlockOk(h, t);
      assert s < t ==> End(h, s) <= t;
    }
  }

  lemma {:induction false} NeverCoalesces(h: Heap, ops: seq<Op>)
    requires Settled(h) && RunAllowed(h, ops)
    ensures OnlyCut(h, Run(h, ops))
    decreases |ops|
  {
    hide Inv, Apply, Allowed;
    if ops != [] {
      ApplySettles(h, ops[0]);
      StepOnlyCuts(h, ops[0]);
      NeverCoalesces(Apply(h, ops[0]), ops[1..]);
    }
  }

  const LOW: u32 := 0x2000_0000
  const HIGH: u32 := 0x2000_1000

  /** Two ranges, of 300 and of 600 bytes. */
  ghost function TwoRanges(m: Mem): (h: Heap)
    requires |m| == TWO32
    ensures Settled(h) && h.free == [LOW as int, HIGH as int]
    ensures h.blocks == map[LOW as int := Block(300, HeapInvariant.Free), HIGH as int := Block(600, HeapInvariant.Free)]
  {
    hide Inv, RangeAdded, PayloadsKept;
    var h0 := Heap(List(m, 0, 0), [], map[], [], 0);
    EveryRunSettles(h0, []);
    RangeAddedEffect(h0, LOW, LOW + 300);
    var h1 := RangeAdded(h0, LOW, LOW + 300);
    assert RangeOk(h1, HIGH, HIGH + 600);
    RangeAddedEffect(h1, HIGH, HIGH + 600);
    RangeAdded(h1, HIGH, HIGH + 600)
  }

  /** 512 bytes fit only the upper range; given back, it lands in front of the lower one. */
  lemma OutOfOrder(m: Mem)
    requires |m| == TWO32
    ensures var (h, addr) := AllocResult(TwoRanges(m), 512, 8, false);
      && Ascending(TwoRanges(m).free) && Inv(h) && Allocated(h, addr) && Ascending(h.free)
      && !Ascending(FreeAt(h, addr).free)
  {
    hide Inv, TwoRanges, AllocAt, PayloadsKept, OwnerOf, FreeAt, Allocated;
    var h := TwoRanges(m);
    InvFree(h);
    assert !Fits(h, 0, 512, 8) && Fits(h, 1, 512, 8);
    assert FirstFit(h, 0, 512, 8) == FirstFit(h, 1, 512, 8) == 1;
    AllocSettles(h, 1, 512, 8, false);
    AllocEffect(h, 1, 512, 8, false);
    var h', addr := AllocAt(h, 1, 512, 8, false), PayloadOf(HIGH, 8);
    assert Given(h, HIGH, Needed(HIGH, 512, 8), Live(addr, 512))[HIGH as int].use == Live(addr, 512);
    OwnerFound(h', HIGH);
    assert Without(h.free, 1) == [LOW as int];
    FreeKeepsOrder(h', addr);
  }
}
