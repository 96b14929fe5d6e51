/** The memory a user task is given: task_mem_alloc.c. */
module TaskAlloc {
  import opened Word32
  import opened Memory
  import opened Sequences
  import opened IntrusiveList
  import opened HeapInvariant
  import opened HeapOps
  import opened PhysMem
  import opened PhysMemCode
  import opened Loader
  import opened TaskMem
  import K = Kernel

  const MPU_MIN: u32 := 32
  const KERN_STACK_SIZE: u32 := 512
  const KERN_STACK_ALIGN: u32 := 8
  const FLAG_ZERO: u32 := 1

  function Pow2(n: nat): nat {
    if n == 0 then 1 else 2 * Pow2(n - 1)
  }

  lemma {:induction false} Pow2Mono(a: nat, b: nat)
    requires a <= b
    ensures 0 < Pow2(a) <= Pow2(b) && (a < b ==> 2 * Pow2(a) <= Pow2(b))
    decreases b
  {
    if a < b { Pow2Mono(a, b - 1); }
    else if a > 0 { Pow2Mono(a - 1, a - 1); }
  }

  lemma Pow2Values()
    ensures Pow2(5) == 32 && Pow2(29) == 0x2000_0000 && Pow2(30) == 0x4000_0000 && Pow2(31) == TWO31
  {
    assert Pow2(10) == 1024 && Pow2(20) == 0x10_0000;
  }

  /** The largest length that the loop below rounds up; anything above it is passed through unrounded. */
  const LARGEST: int := 0x2000_0000

  function RoundedFrom(len: u32, i: nat): nat
    requires i <= 30
    decreases 30 - i
  {
    if i == 30 then len else if Pow2(i) >= len then Pow2(i) else RoundedFrom(len, i + 1)
  }

  /** What platform_user_task_mpu_region_size returns, and platform_user_task_mpu_region_alignment with it. */
  function RegionSize(len: u32): (r: u32)
    ensures r >= len
  {
    Pow2Values();
    RoundedFromBound(len, 0);
    if len < MPU_MIN then MPU_MIN else RoundedFrom(len, 0)
  }

  lemma {:induction false} RoundedFromBound(len: u32, i: nat)
    requires i <= 30
    ensures len <= RoundedFrom(len, i) < TWO32
    decreases 30 - i
  {
    if i < 30 { Pow2Mono(i, 29); Pow2Values(); RoundedFromBound(len, i + 1); }
  }

  /** platform_user_task_mpu_region_size. */
  method MpuRegionSize(len: u32) returns (r: u32)
    ensures r == RegionSize(len)
  {
    if len < MPU_MIN { return MPU_MIN; }
    var retLen: u32 := 1;
    var i := 0;
    while i < 30
      invariant 0 <= i <= 30 && retLen == Pow2(i) && RoundedFrom(len, 0) == RoundedFrom(len, i)
    {
      if retLen >= len { return retLen; }
      Pow2Mono(i + 1, 30);
      Pow2Values();
      retLen, i := 2 * retLen, i + 1;
    }
    r := len;
  }

  lemma {:induction false} RoundedIsLeast(len: u32, i: nat) returns (n: nat)
    requires i <= 29 && len <= LARGEST && (i > 0 ==> Pow2(i - 1) < len)
    ensures i <= n <= 29 && RoundedFrom(len, i) == Pow2(n) && len <= Pow2(n) && (n > 0 ==> Pow2(n - 1) < len)
    decreases 29 - i
  {
    Pow2Values();
    n := i;
    if Pow2(i) < len {
      assert i < 29;
      n := RoundedIsLeast(len, i + 1);
    }
  }

  /** Up to 2^29 the size is the least power of two that holds the length and that the MPU can describe. */
  lemma RegionSizeIsLeast(len: u32) returns (n: nat)
    requires len <= LARGEST
    ensures 5 <= n <= 29 && RegionSize(len) == Pow2(n)
    ensures forall k: nat :: 5 <= k && len <= Pow2(k) ==> n <= k
  {
    Pow2Values();
    if len < MPU_MIN {
      n := 5;
    } else {
      n := RoundedIsLeast(len, 0);
      Pow2Mono(5, 5);
      assert Pow2(4) == 16;
      if n < 5 { Pow2Mono(n, 4); }
      forall k: nat | 5 <= k && len <= Pow2(k) ensures n <= k {
        if k < n { Pow2Mono(k, n - 1); }
      }
    }
  }

  /** Above 2^29 the length comes back as it is, which is a power of two only if it was one. */
  lemma RegionSizeAbove(len: u32)
    requires len > LARGEST
    ensures RegionSize(len) == len
  {
    Pow2Values();
    RoundedAbove(len, 0);
  }

  lemma {:induction false} RoundedAbove(len: u32, i: nat)
    requires i <= 30 && len > LARGEST
    ensures RoundedFrom(len, i) == len
    decreases 30 - i
  {
    if i < 30 { Pow2Mono(i, 29); Pow2Values(); RoundedAbove(len, i + 1); }
  }

  /** The GOT words the loader writes stay inside the region allocated for them, exactly for these GOT sizes. */
  lemma GotFitsRegion(hdr: Header)
    ensures 4 * GotWords(hdr) <= RegionSize(hdr.gotSize) <==> hdr.gotSize <= LARGEST || hdr.gotSize % 4 == 0
  {
    hide RegionSize, GotWords;
    WordsCover(hdr);
    if hdr.gotSize <= LARGEST {
      var n := RegionSizeIsLeast(hdr.gotSize);
      assert Pow2(n) == 4 * Pow2(n - 2) by { assert Pow2(n) == 2 * Pow2(n - 1); }
    } else {
      RegionSizeAbove(hdr.gotSize);
    }
  }

  lemma WordsCover(hdr: Header)
    ensures hdr.gotSize <= 4 * GotWords(hdr) < hdr.gotSize + 4
  {
  }

  // ----- A series of allocations -----

  datatype Request = Request(size: u32, align: u32)

  ghost predicate Feasible(reqs: seq<Request>) {
    forall i :: 0 <= i < |reqs| ==> reqs[i].size + HEADER + reqs[i].align < TWO32
  }

  /** `a` is an allocation of exactly what was asked for, aligned, and still zero. */
  ghost predicate Backed(h: Heap, a: int, q: Request)
    requires Settled(h)
  {
    && Allocated(h, a) && RequestOf(h, a) == q.size && (q.align != 0 ==> a % q.align == 0)
    && forall i :: 0 <= i < |PayloadBytes(h, a)| ==> PayloadBytes(h, a)[i] == 0
  }

  /** A new allocation is backed, and was nobody's before. */
  lemma AllocBacked(h: Heap, q: Request)
    requires Settled(h) && q.size + HEADER + q.align < TWO32 && AllocResult(h, q.size, q.align, true).1 != 0
    ensures var (h', a) := AllocResult(h, q.size, q.align, true);
      Settled(h') && Backed(h', a, q) && !Allocated(h, a) && 0 < a < TWO32
  {
    hide Inv, AllocAt, PayloadsKept, Allocated, OwnerOf, AllocResult;
    var (h', a) := AllocResult(h, q.size, q.align, true);
    AllocContract(h, q.size, q.align, true);
    ApplySettles(h, Op.Alloc(q.size, q.align, FLAG_ZERO));
    var k :| 0 <= k < |h.free| && AllocatedFrom(h, h', k, a, q.size, q.align, true);
    FreeInBlocks(h, k);
    var s := h.free[k];
    assert h'.blocks[s].use == Live(a, q.size);
    OwnerFound(h', s);
    InvBlocks(h);
    InvBlocks(h');
    assert BlockOk(h, s) && BlockOk(h', s);
    FreshAddress(h, s, a);
  }

  /** An address inside a free block is nobody's. */
  lemma FreshAddress(h: Heap, s: int, a: int)
    requires Settled(h) && s in h.blocks && h.blocks[s].use == HeapInvariant.Free && s + HEADER <= a <= End(h, s)
    ensures !Allocated(h, a)
  {
    hide HeadersOk, Linked, FreeListed, Covers, OwnerOf;
    forall t | t in h.blocks && h.blocks[t].use.Live? ensures h.blocks[t].use.addr != a {
      assert BlockOk(h, s) && BlockOk(h, t);
      assert s < t ==> End(h, s) <= t;
      assert t < s ==> End(h, t) <= s;
    }
  }

  lemma AllocWord(h: Heap, q: Request)
    requires Settled(h) && q.size + HEADER + q.align < TWO32
    ensures 0 <= AllocResult(h, q.size, q.align, true).1 < TWO32
  {
    hide Inv, AllocResult, Backed, Allocated;
    if AllocResult(h, q.size, q.align, true).1 != 0 { AllocBacked(h, q); }
  }

  /** The first `k` requests, each zeroed, made one after another until one fails: the heap, and the addresses given. */
  ghost function AllocFirst(h: Heap, reqs: seq<Request>, k: nat): (r: (Heap, seq<u32>))
    requires Settled(h) && Feasible(reqs) && k <= |reqs|
    ensures Settled(r.0) && |r.1| <= k
    decreases k
  {
    hide Inv, AllocResult;
    if k == 0 then (h, []) else
      var (h1, given) := AllocFirst(h, reqs, k - 1);
      if |given| < k - 1 then (h1, given) else
        var q := reqs[k - 1];
        ApplySettles(h1, Op.Alloc(q.size, q.align, FLAG_ZERO));
        AllocWord(h1, q);
        var (h2, a) := AllocResult(h1, q.size, q.align, true);
        if a == 0 then (h1, given) else (h2, given + [a])
  }

  /** Once a request has failed, no more are made. */
  lemma {:induction false} FailedStops(h: Heap, reqs: seq<Request>, j: nat, k: nat)
    requires Settled(h) && Feasible(reqs) && j <= k <= |reqs| && |AllocFirst(h, reqs, j).1| < j
    ensures AllocFirst(h, reqs, k) == AllocFirst(h, reqs, j)
    decreases k
  {
    hide Inv, AllocResult;
    if j < k { FailedStops(h, reqs, j, k - 1); }
  }

  lemma AllocSpares(h: Heap, q: Request, x: int)
    requires Settled(h) && q.size + HEADER + q.align < TWO32 && Allocated(h, x)
    ensures var h' := AllocResult(h, q.size, q.align, true).0;
      Settled(h') && SameClient(h, h', x) && Allocated(h', x)
  {
    hide Inv, AllocResult, SameClient, Allocated;
    ApplySettles(h, Op.Alloc(q.size, q.align, FLAG_ZERO));
    AllocClient(h, q.size, q.align, true, x);
    StillAllocated(h, AllocResult(h, q.size, q.align, true).0, x);
  }

  /**
   * Each address given out is backed by an allocation of its own that nobody had before,
   * and every allocation there was is as it was.
   */
  lemma {:induction false} SeriesBacked(h: Heap, reqs: seq<Request>, k: nat)
    requires Settled(h) && Feasible(reqs) && k <= |reqs|
    ensures var (h', given) := AllocFirst(h, reqs, k);
      && Distinct(given)
      && (forall i :: 0 <= i < |given| ==> Backed(h', given[i], reqs[i]) && !Allocated(h, given[i]))
      && (forall x :: Allocated(h, x) ==> SameClient(h, h', x) && Allocated(h', x))
    decreases k
  {
    hide Inv, AllocResult, Allocated, SameClient, RequestOf, PayloadBytes;
    if k == 0 {
      forall x | Allocated(h, x) ensures SameClient(h, h, x) { SameClientSelf(h, x); }
    } else {
      SeriesBacked(h, reqs, k - 1);
      var (h1, given) := AllocFirst(h, reqs, k - 1);
      if |given| == k - 1 && AllocResult(h1, reqs[k - 1].size, reqs[k - 1].align, true).1 != 0 {
        SeriesStep(h, h1, given, reqs, k);
      }
    }
  }

  lemma SeriesStep(h: Heap, h1: Heap, given: seq<u32>, reqs: seq<Request>, k: nat)
    requires Settled(h) && Settled(h1) && Feasible(reqs) && 0 < k <= |reqs| && |given| == k - 1 && Distinct(given)
    requires forall i :: 0 <= i < |given| ==> Backed(h1, given[i], reqs[i]) && !Allocated(h, given[i])
    requires forall x :: Allocated(h, x) ==> SameClient(h, h1, x) && Allocated(h1, x)
    requires AllocResult(h1, reqs[k - 1].size, reqs[k - 1].align, true).1 != 0
    ensures var (h2, a) := AllocResult(h1, reqs[k - 1].size, reqs[k - 1].align, true); var all := given + [a];
      && Settled(h2) && Distinct(all)
      && (forall i :: 0 <= i < k ==> Backed(h2, all[i], reqs[i]) && !Allocated(h, all[i]))
      && (forall x :: Allocated(h, x) ==> SameClient(h, h2, x) && Allocated(h2, x))
  {
    hide Inv, AllocResult, Allocated, SameClient, Backed;
    var q := reqs[k - 1];
    var (h2, a) := AllocResult(h1, q.size, q.align, true);
    AllocBacked(h1, q);
    forall i | 0 <= i < k - 1 ensures Backed(h2, given[i], reqs[i]) && given[i] != a {
      BackedAllocated(h1, given[i], reqs[i]);
      AllocSpares(h1, q, given[i]);
      BackedKept(h1, h2, given[i], reqs[i]);
    }
    forall x | Allocated(h, x) ensures SameClient(h, h2, x) && Allocated(h2, x) {
      AllocSpares(h1, q, x);
      SameClientTransitive(h, h1, h2, x);
    }
  }

  lemma BackedAllocated(h: Heap, a: int, q: Request)
    requires Settled(h) && Backed(h, a, q)
    ensures Allocated(h, a)
  {
  }

  lemma BackedKept(h: Heap, h': Heap, a: int, q: Request)
    requires Settled(h) && Settled(h') && Backed(h, a, q) && Allocated(h, a) && SameClient(h, h', a)
    ensures Backed(h', a, q)
  {
    hide Inv, PayloadBytes, RequestOf;
  }

  // ----- platform_user_task_mem_allocate -----

  function Sized(len: u32): Request {
    Request(RegionSize(len), RegionSize(len))
  }

  /** In the order they are made: kernel stack, GOT, bss, data, heap, stack. */
  function Requests(hdr: Header): seq<Request> {
    [Request(KERN_STACK_SIZE, KERN_STACK_ALIGN), Sized(hdr.gotSize), Sized(hdr.bssSize), Sized(hdr.dataSize),
     Sized(hdr.heapSize), Sized(hdr.stackSize)]
  }

  /** The slots after a successful call, all eight of which it sets; `a` is what the six requests gave. */
  function Placed(hdr: Header, a: seq<u32>): Regions
    requires |a| == 6
  {
    K.Regions.Regions({KERN_STACK, USER_STACK, USER_HEAP, USER_BSS, USER_DATA, USER_GOT},
      [0x0800_0000, a[0], a[5], a[4], a[2], a[3], 0, a[1]],
      [0x20_0000, KERN_STACK_SIZE, RegionSize(hdr.stackSize), RegionSize(hdr.heapSize), RegionSize(hdr.bssSize),
       RegionSize(hdr.dataSize), hdr.rodataSize, RegionSize(hdr.gotSize)])
  }

  /** Each dynamic region of `r` is an allocation of its own, of the recorded size, that nobody had in `h`. */
  ghost predicate NewlyOwns(h: Heap, h': Heap, r: Regions) {
    OwnsFrom(h', r, 0) && forall j :: 0 <= j < REGIONS && j in r.dynamic ==>
      Allocated(h', r.addr[j]) && RequestOf(h', r.addr[j]) == r.size[j] && !Allocated(h, r.addr[j])
  }

  /** Which request each slot was filled by. */
  function RequestFor(slot: nat): nat {
    if slot == KERN_STACK then 0 else if slot == USER_GOT then 1 else if slot == USER_BSS then 2
    else if slot == USER_DATA then 3 else if slot == USER_HEAP then 4 else 5
  }

  lemma PlacedSlot(hdr: Header, a: seq<u32>, j: nat)
    requires |a| == 6 && j in Placed(hdr, a).dynamic
    ensures j < REGIONS && RequestFor(j) < 6
    ensures Placed(hdr, a).addr[j] == a[RequestFor(j)] && Placed(hdr, a).size[j] == Requests(hdr)[RequestFor(j)].size
    ensures forall k :: k in Placed(hdr, a).dynamic && RequestFor(k) == RequestFor(j) ==> k == j
  {
    hide RegionSize;
  }

  lemma BackedSize(h: Heap, a: int, q: Request)
    requires Settled(h) && Backed(h, a, q)
    ensures Allocated(h, a) && RequestOf(h, a) == q.size
  {
    hide Inv, PayloadBytes;
  }

  /** A successful call gives the task six regions, each a zeroed allocation of its own. */
  lemma TaskOwns(h: Heap, hdr: Header)
    requires Settled(h) && Feasible(Requests(hdr)) && |AllocFirst(h, Requests(hdr), 6).1| == 6
    ensures var (h', a) := AllocFirst(h, Requests(hdr), 6);
      NewlyOwns(h, h', Placed(hdr, a)) && forall i :: 0 <= i < 6 ==> Backed(h', a[i], Requests(hdr)[i])
  {
    hide Inv, AllocResult, Allocated, SameClient, RequestOf, PayloadBytes;
    hide AllocFirst, RegionSize, Backed, Requests, Placed, RequestFor;
    SixRequests(hdr);
    SeriesBacked(h, Requests(hdr), 6);
    var (h', a) := AllocFirst(h, Requests(hdr), 6);
    var r, q := Placed(hdr, a), Requests(hdr);
    PlacedForm(hdr, a);
    forall j | j in r.dynamic
      ensures j < REGIONS && Allocated(h', r.addr[j]) && RequestOf(h', r.addr[j]) == r.size[j]
      ensures !Allocated(h, r.addr[j])
    {
      PlacedSlot(hdr, a, j);
      BackedSize(h', a[RequestFor(j)], q[RequestFor(j)]);
    }
    forall j, k | 0 <= j < k < REGIONS && j in r.dynamic && k in r.dynamic ensures r.addr[j] != r.addr[k] {
      PlacedSlot(hdr, a, j);
      PlacedSlot(hdr, a, k);
    }
  }

  /** The kernel stack is 512 bytes on a boundary of eight, as the calling convention of the processor asks. */
  lemma KernelStack(h: Heap, hdr: Header)
    requires Settled(h) && Feasible(Requests(hdr)) && |AllocFirst(h, Requests(hdr), 6).1| == 6
    ensures var (h', a) := AllocFirst(h, Requests(hdr), 6); var r := Placed(hdr, a);
      && KERN_STACK in r.dynamic && r.size[KERN_STACK] == 512 && r.addr[KERN_STACK] % 8 == 0
      && Allocated(h', r.addr[KERN_STACK]) && RequestOf(h', r.addr[KERN_STACK]) == 512
  {
    hide Inv, AllocFirst, RegionSize, Allocated, RequestOf, PayloadBytes;
    TaskOwns(h, hdr);
    var a := AllocFirst(h, Requests(hdr), 6).1;
    assert Backed(AllocFirst(h, Requests(hdr), 6).0, a[0], Requests(hdr)[0]);
  }

  lemma PlacedForm(hdr: Header, a: seq<u32>)
    requires |a| == 6
    ensures WellFormed(Placed(hdr, a))
  {
    hide RegionSize;
  }

  lemma SixRequests(hdr: Header)
    ensures |Requests(hdr)| == 6
  {
  }

  ghost predicate SameAllocations(h: Heap, h': Heap) {
    forall x :: Allocated(h', x) <==> Allocated(h, x)
  }

  lemma NothingFreed(h: Heap)
    ensures RunAllowed(h, FreeOps(NOTHING, 0)) && Run(h, FreeOps(NOTHING, 0)) == h
  {
    NothingToFree(0);
  }

  /**
   * A call that fails leaves live what it had taken, recorded nowhere: cleaning up the caller's empty structure
   * afterwards, as the code asks, restores the allocations exactly when it was the first request that failed.
   */
  lemma FailedCallLeaks(h: Heap, hdr: Header)
    requires Settled(h) && Feasible(Requests(hdr)) && |AllocFirst(h, Requests(hdr), 6).1| < 6
    ensures var h' := AllocFirst(h, Requests(hdr), 6).0;
      && RunAllowed(h', FreeOps(NOTHING, 0))
      && (SameAllocations(h, Run(h', FreeOps(NOTHING, 0))) <==>
        FirstFit(h, 0, KERN_STACK_SIZE, KERN_STACK_ALIGN) == |h.free|)
  {
    hide Inv, AllocResult, Allocated, RequestOf, PayloadBytes, RegionSize;
    hide Backed, FirstFit, AllocFirst, Run, RunAllowed, FreeOps;
    var q := Requests(hdr);
    var h' := AllocFirst(h, q, 6).0;
    NothingFreed(h');
    FirstRequest(h, q);
    AllocNone(h, q);
    if |AllocFirst(h, q, 1).1| == 0 {
      FailedStops(h, q, 1, 6);
    } else {
      GivenPrefix(h, q, 1, 6);
      FirstIsNew(h, q, 6);
    }
  }

  lemma FirstIsNew(h: Heap, q: seq<Request>, k: nat)
    requires Settled(h) && Feasible(q) && k <= |q| && |AllocFirst(h, q, k).1| > 0
    ensures !SameAllocations(h, AllocFirst(h, q, k).0)
  {
    hide Inv, AllocResult, Allocated, SameClient, RequestOf, PayloadBytes, AllocFirst;
    SeriesBacked(h, q, k);
    var (h', a) := AllocFirst(h, q, k);
    assert Backed(h', a[0], q[0]) && !Allocated(h, a[0]);
  }

  lemma FirstRequest(h: Heap, q: seq<Request>)
    requires Settled(h) && Feasible(q) && |q| > 0
    ensures AllocFirst(h, q, 1).1 == [] <==> FirstFit(h, 0, q[0].size, q[0].align) == |h.free|
    ensures AllocFirst(h, q, 1).1 == [] ==> AllocFirst(h, q, 1).0 == h
  {
    hide Inv, AllocAt, FirstFit;
    assert AllocFirst(h, q, 0) == (h, []);
    AllocZero(h, q[0]);
  }

  lemma AllocZero(h: Heap, q: Request)
    requires Settled(h) && q.size + HEADER + q.align < TWO32
    ensures var (h', a) := AllocResult(h, q.size, q.align, true);
      (a == 0 <==> FirstFit(h, 0, q.size, q.align) == |h.free|) && (a == 0 ==> h' == h)
  {
    hide Inv, AllocAt, PayloadsKept, FirstFit;
    InvFree(h);
    InvBlocks(h);
    var k := FirstFit(h, 0, q.size, q.align);
    if k < |h.free| {
      FreeInBlocks(h, k);
      assert BlockOk(h, h.free[k]);
      PadAligns(h.free[k], q.align);
    }
  }

  lemma {:induction false} GivenPrefix(h: Heap, q: seq<Request>, j: nat, k: nat)
    requires Settled(h) && Feasible(q) && j <= k <= |q|
    ensures AllocFirst(h, q, j).1 <= AllocFirst(h, q, k).1
    decreases k
  {
    hide Inv, AllocResult;
    if j < k { GivenPrefix(h, q, j, k - 1); }
  }

  lemma NextAlloc(h: Heap, q: seq<Request>, k: nat)
    requires Settled(h) && Feasible(q) && k < |q| && |AllocFirst(h, q, k).1| == k
    ensures var (h1, given) := AllocFirst(h, q, k);
      var (h2, a) := AllocResult(h1, q[k].size, q[k].align, true);
      && 0 <= a < TWO32
      && AllocFirst(h, q, k + 1) == (h2, if a == 0 then given else given + [a])
      && (a == 0 ==> AllocFirst(h, q, |q|) == AllocFirst(h, q, k + 1))
  {
    hide Inv, AllocResult, FirstFit;
    var (h1, given) := AllocFirst(h, q, k);
    AllocZero(h1, q[k]);
    AllocWord(h1, q[k]);
    if AllocResult(h1, q[k].size, q[k].align, true).1 == 0 { FailedStops(h, q, k + 1, |q|); }
  }

  function At(a: seq<u32>, i: nat): u32 {
    if i < |a| then a[i] else 0
  }

  /** The addresses reported to the caller, who fills in text, start and rodata. */
  function AddrsOf(a: seq<u32>): Addrs {
    Addrs(0, 0, At(a, 1), At(a, 2), At(a, 3), 0, At(a, 4), At(a, 5))
  }

  /** platform_user_task_mem_allocate. */
  method AllocateUserTask(hdr: Header, tm: TaskMemory, pm: Allocator) returns (ok: bool, addrs: Addrs)
    requires tm.Valid() && pm.Valid() && Feasible(Requests(hdr))
    modifies tm, tm.addr, tm.size, pm, pm.mem, pm.freeList
    ensures var (h', a) := AllocFirst(old(pm.St()), Requests(hdr), 6);
      pm.St() == h' && ok == (|a| == 6) && addrs == AddrsOf(a)
      && tm.Contents() == if ok then Placed(hdr, a) else old(tm.Contents())
    ensures tm.Valid() && pm.Valid() && pm.magicFailures == old(pm.magicFailures)
  {
    hide Inv, AllocResult, AllocFirst, RegionSize, Settled;
    ghost var h, q := pm.St(), Requests(hdr);
    addrs := Addrs(0, 0, 0, 0, 0, 0, 0, 0);
    ok := false;
    AllocNone(h, q);
    SizesFeasible(hdr);
    var kernStack := pm.Alloc(KERN_STACK_SIZE, KERN_STACK_ALIGN, FLAG_ZERO);
    NextAlloc(h, q, 0);
    if kernStack == 0 { return; }
    var a := AllocRounded(hdr.gotSize, pm, h, q, 1);
    addrs := addrs.(got := a);
    if a == 0 { return; }
    a := AllocRounded(hdr.bssSize, pm, h, q, 2);
    addrs := addrs.(bss := a);
    if a == 0 { return; }
    a := AllocRounded(hdr.dataSize, pm, h, q, 3);
    addrs := addrs.(data := a);
    if a == 0 { return; }
    a := AllocRounded(hdr.heapSize, pm, h, q, 4);
    addrs := addrs.(heap := a);
    if a == 0 { return; }
    a := AllocRounded(hdr.stackSize, pm, h, q, 5);
    addrs := addrs.(stack := a);
    if a == 0 { return; }
    Record(hdr, addrs, kernStack, tm);
    ok := true;
  }

  /** One of the five MPU-sized, MPU-aligned requests: request `k` of the series `q` begun in heap `h`. */
  method AllocRounded(len: u32, pm: Allocator, ghost h: Heap, ghost q: seq<Request>, ghost k: nat) returns (a: u32)
    requires pm.Valid() && 2 * RegionSize(len) + HEADER < TWO32
    requires Settled(h) && Feasible(q) && k < |q| && q[k] == Sized(len)
    requires |AllocFirst(h, q, k).1| == k && pm.St() == AllocFirst(h, q, k).0
    modifies pm, pm.mem, pm.freeList
    ensures pm.Valid() && pm.magicFailures == old(pm.magicFailures)
    ensures AllocFirst(h, q, k + 1) ==
      (pm.St(), if a == 0 then AllocFirst(h, q, k).1 else AllocFirst(h, q, k).1 + [a])
    ensures a == 0 ==> AllocFirst(h, q, |q|) == AllocFirst(h, q, k + 1)
  {
    hide Inv, AllocResult, AllocFirst, RegionSize, Settled;
    var n := MpuRegionSize(len);
    a := pm.Alloc(n, n, FLAG_ZERO);
    NextAlloc(h, q, k);
  }

  lemma AllocNone(h: Heap, q: seq<Request>)
    requires Settled(h) && Feasible(q)
    ensures AllocFirst(h, q, 0) == (h, [])
  {
  }

  /** The end of platform_user_task_mem_allocate, where the regions are recorded. */
  method Record(hdr: Header, addrs: Addrs, kernStack: u32, tm: TaskMemory)
    requires tm.Valid() && addrs.rodata == 0
    modifies tm, tm.addr, tm.size
    ensures tm.Valid()
    ensures tm.Contents() == Placed(hdr, [kernStack, addrs.got, addrs.bss, addrs.data, addrs.heap, addrs.stack])
  {
    hide RegionSize, Assigned;
    ghost var r := tm.Contents();
    tm.Set(TEXT, 0x0800_0000, 0x20_0000, false);
    var n := MpuRegionSize(hdr.gotSize);
    tm.Set(USER_GOT, addrs.got, n, true);
    n := MpuRegionSize(hdr.bssSize);
    tm.Set(USER_BSS, addrs.bss, n, true);
    n := MpuRegionSize(hdr.dataSize);
    tm.Set(USER_DATA, addrs.data, n, true);
    tm.Set(USER_RODATA, addrs.rodata, hdr.rodataSize, false);
    n := MpuRegionSize(hdr.heapSize);
    tm.Set(USER_HEAP, addrs.heap, n, true);
    n := MpuRegionSize(hdr.stackSize);
    tm.Set(USER_STACK, addrs.stack, n, true);
    tm.Set(KERN_STACK, kernStack, KERN_STACK_SIZE, true);
    AllAssigned(r, hdr, addrs, kernStack);
  }

  function Recorded(r: Regions, hdr: Header, addrs: Addrs, kernStack: u32): Regions
    requires WellFormed(r)
  {
    var r := Assigned(r, TEXT, 0x0800_0000, 0x20_0000, false);
    var r := Assigned(r, USER_GOT, addrs.got, RegionSize(hdr.gotSize), true);
    var r := Assigned(r, USER_BSS, addrs.bss, RegionSize(hdr.bssSize), true);
    var r := Assigned(r, USER_DATA, addrs.data, RegionSize(hdr.dataSize), true);
    var r := Assigned(r, USER_RODATA, addrs.rodata, hdr.rodataSize, false);
    var r := Assigned(r, USER_HEAP, addrs.heap, RegionSize(hdr.heapSize), true);
    var r := Assigned(r, USER_STACK, addrs.stack, RegionSize(hdr.stackSize), true);
    Assigned(r, KERN_STACK, kernStack, KERN_STACK_SIZE, true)
  }

  /** The eight calls of kern_task_mem_set fill all eight slots, so what they held before does not matter. */
  lemma AllAssigned(r: Regions, hdr: Header, addrs: Addrs, kernStack: u32)
    requires WellFormed(r) && addrs.rodata == 0
    ensures Recorded(r, hdr, addrs, kernStack)
         == Placed(hdr, [kernStack, addrs.got, addrs.bss, addrs.data, addrs.heap, addrs.stack])
  {
    hide RegionSize;
    var r1 := Recorded(r, hdr, addrs, kernStack);
    var r2 := Placed(hdr, [kernStack, addrs.got, addrs.bss, addrs.data, addrs.heap, addrs.stack]);
    assert r1.dynamic == r2.dynamic;
    assert r1.addr == r2.addr;
    assert r1.size == r2.size;
  }

  lemma SizesFeasible(hdr: Header)
    requires Feasible(Requests(hdr))
    ensures 2 * RegionSize(hdr.gotSize) + HEADER < TWO32 && 2 * RegionSize(hdr.bssSize) + HEADER < TWO32
    ensures 2 * RegionSize(hdr.dataSize) + HEADER < TWO32 && 2 * RegionSize(hdr.heapSize) + HEADER < TWO32
    ensures 2 * RegionSize(hdr.stackSize) + HEADER < TWO32
  {
    hide RegionSize;
    var q := Requests(hdr);
    assert q[1] == Sized(hdr.gotSize) && q[2] == Sized(hdr.bssSize) && q[3] == Sized(hdr.dataSize);
    assert q[4] == Sized(hdr.heapSize) && q[5] == Sized(hdr.stackSize);
  }

  // ----- An allocation that fails partway -----

  const SMALL: u32 := 0x2000_0000

  /** A heap of one 600-byte range. */
  ghost function SmallHeap(m: Mem): (h: Heap)
    requires |m| == TWO32
    ensures Settled(h) && h.free == [SMALL as int] && h.blocks == map[SMALL as int := Block(600, HeapInvariant.Free)]
  {
    hide Inv, RangeAdded;
    var h0 := Heap(IntrusiveList.List(m, 0, 0), [], map[], [], 0);
    EveryRunSettles(h0, []);
    ApplySettles(h0, Op.AddRange(SMALL, SMALL + 600, FLAG_NORMAL_SRAM));
    RangeAddedEffect(h0, SMALL, SMALL + 600);
    RangeAdded(h0, SMALL, SMALL + 600)
  }

  /** There the kernel stack takes everything, the GOT gets nothing, and cleaning up does not bring the stack back. */
  lemma LeakExample(m: Mem, hdr: Header)
    requires |m| == TWO32 && Feasible(Requests(hdr))
    ensures var (h', a) := AllocFirst(SmallHeap(m), Requests(hdr), 6);
      |a| == 1 && RunAllowed(h', FreeOps(NOTHING, 0)) && !SameAllocations(SmallHeap(m), Run(h', FreeOps(NOTHING, 0)))
  {
    hide Inv, AllocAt, AllocFirst, RegionSize, SmallHeap, Run, RunAllowed, FreeOps, SameAllocations;
    var h, q := SmallHeap(m), Requests(hdr);
    StackTakesAll(h);
    AllocNone(h, q);
    NextAlloc(h, q, 0);
    var h1 := AllocFirst(h, q, 1).0;
    NoneFree(h1, q[1]);
    NextAlloc(h, q, 1);
    FirstIsNew(h, q, 6);
    NothingFreed(h1);
  }

  lemma StackTakesAll(h: Heap)
    requires Settled(h) && h.free == [SMALL as int] && h.blocks == map[SMALL as int := Block(600, HeapInvariant.Free)]
    ensures var (h', a) := AllocResult(h, KERN_STACK_SIZE, KERN_STACK_ALIGN, true); a != 0 && h'.free == []
  {
    hide Inv, AllocAt, Given, Allocated, PayloadsKept;
    AllocContract(h, KERN_STACK_SIZE, KERN_STACK_ALIGN, true);
    assert Fits(h, 0, KERN_STACK_SIZE, KERN_STACK_ALIGN);
    InvFree(h);
    AllocEffect(h, 0, KERN_STACK_SIZE, KERN_STACK_ALIGN, true);
    assert FirstFit(h, 0, KERN_STACK_SIZE, KERN_STACK_ALIGN) == 0;
    assert Without(h.free, 0) == [];
  }

  lemma NoneFree(h: Heap, q: Request)
    requires Settled(h) && h.free == [] && q.size + HEADER + q.align < TWO32
    ensures AllocResult(h, q.size, q.align, true) == (h, 0)
  {
    hide Inv;
    InvFree(h);
  }
}
