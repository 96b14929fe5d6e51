/** Loading a program into the memory a task has just been given: allocator, task allocation and loader together. */
module LoadedTask {
  import opened Word32
  import opened Memory
  import opened HeapInvariant
  import opened HeapOps
  import opened PhysMem
  import opened Loader
  import opened TaskAlloc
  import TM = TaskMem
  import M = Mpu

  // Which request of the allocation serves which destination.
  const GOT := 1
  const BSS := 2
  const DATA := 3

  /** The addresses the loader is called with: the allocated ones, and text, start and rodata in the image. */
  function LoadAddrs(addr: u32, hdr: Header, a: seq<u32>): Addrs {
    AddrsOf(a).(text := Wrap(addr as int + hdr.textOffset), start := Wrap(addr as int + hdr.startOffset),
                rodata := Wrap(addr as int + hdr.rodataOffset))
  }

  /**
   * The image lies in memory that never was the allocator's, as in flash, and holds all that its header
   * speaks of; the GOT's size is one for which the region allocated for it holds whole words.
   */
  ghost predicate ImageApart(h: Heap, addr: u32, size: u32, hdr: Header) {
    && 0 < size && addr as int + size < TWO32
    && hdr.gotOffset as int + 4 * GotWords(hdr) <= size
    && (forall g :: g != Bss ==> OffsetOf(hdr, g) as int + SizeOf(hdr, g) <= size)
    && (hdr.gotSize <= LARGEST || hdr.gotSize % 4 == 0)
    && forall x: int :: addr <= x < addr as int + size ==> !InRanges(h.ranges, x)
  }

  /** The task's six requests have all been met. */
  ghost predicate Given(h: Heap, hdr: Header) {
    Settled(h) && Feasible(Requests(hdr)) && |AllocFirst(h, Requests(hdr), 6).1| == 6
  }

  // ----- The allocation leaves the ranges as they were -----

  lemma AllocRanges(h: Heap, q: Request)
    requires Settled(h) && q.size + HEADER + q.align < TWO32
    ensures AllocResult(h, q.size, q.align, true).0.ranges == h.ranges
  {
    hide Inv, AllocAt, PayloadsKept;
    InvFree(h);
    var k := FirstFit(h, 0, q.size, q.align);
    if k < |h.free| { AllocEffect(h, k, q.size, q.align, true); }
  }

  lemma {:induction false} SeriesRanges(h: Heap, reqs: seq<Request>, k: nat)
    requires Settled(h) && Feasible(reqs) && k <= |reqs|
    ensures AllocFirst(h, reqs, k).0.ranges == h.ranges
    decreases k
  {
    hide Inv, AllocResult;
    if k > 0 {
      SeriesRanges(h, reqs, k - 1);
      AllocRanges(AllocFirst(h, reqs, k - 1).0, reqs[k - 1]);
    }
  }

  // ----- Where the three destinations lie -----

  /** `a` is an allocation of at least `n` and at least 32 bytes. */
  ghost predicate Room(h: Heap, a: int, n: int) {
    Allocated(h, a) && MPU_MIN <= RequestOf(h, a) && n <= RequestOf(h, a)
  }

  lemma PayloadFits(h: Heap, a: int)
    requires Settled(h) && Allocated(h, a)
    ensures 0 < a && a + RequestOf(h, a) < TWO32
  {
    hide HeadersOk, FreeListed, Covers;
    assert BlockOk(h, OwnerOf(h, a));
  }

  /** An allocation and an image outside the ranges do not meet. */
  lemma ApartFromImage(h: Heap, addr: u32, size: u32, a: int, n: int)
    requires Settled(h) && Room(h, a, n) && 0 <= n && 0 < size
    requires forall x: int :: addr <= x < addr as int + size ==> !InRanges(h.ranges, x)
    ensures Separate(addr, size, a, n)
  {
    hide Settled, InRanges, Allocated, RequestOf;
    if !Separate(addr, size, a, RequestOf(h, a)) {
      var x := if addr as int <= a then a else addr as int;
      PayloadAdded(h, a, x);
    }
  }

  lemma ApartFromEachOther(h: Heap, a: int, n: int, b: int, k: int)
    requires Settled(h) && Room(h, a, n) && Room(h, b, k) && a != b
    ensures Separate(a, n, b, k)
  {
    hide Inv, OwnerOf;
    PayloadsDisjoint(h, a, b);
  }

  lemma Rooms(h: Heap, hdr: Header)
    requires Given(h, hdr) && (hdr.gotSize <= LARGEST || hdr.gotSize % 4 == 0)
    ensures var (h', a) := AllocFirst(h, Requests(hdr), 6);
      && Room(h', a[GOT], 4 * GotWords(hdr)) && Room(h', a[BSS], hdr.bssSize) && Room(h', a[DATA], hdr.dataSize)
      && a[GOT] != a[BSS] && a[GOT] != a[DATA] && a[BSS] != a[DATA]
      && !Allocated(h, a[GOT]) && !Allocated(h, a[BSS]) && !Allocated(h, a[DATA])
      && forall x :: Allocated(h, x) ==> SameClient(h, h', x) && Allocated(h', x)
  {
    hide Inv, AllocFirst, Allocated, RequestOf, RegionSize, GotWords, SameClient, Backed;
    SixRequests(hdr);
    SeriesBacked(h, Requests(hdr), 6);
    GotFitsRegion(hdr);
    var (h', a) := AllocFirst(h, Requests(hdr), 6);
    Sizes(hdr);
    BackedSize(h', a[GOT], Requests(hdr)[GOT]);
    BackedSize(h', a[BSS], Requests(hdr)[BSS]);
    BackedSize(h', a[DATA], Requests(hdr)[DATA]);
  }

  lemma Sizes(hdr: Header)
    ensures Requests(hdr)[GOT].size == RegionSize(hdr.gotSize) >= MPU_MIN
    ensures Requests(hdr)[BSS].size == RegionSize(hdr.bssSize) >= MPU_MIN
    ensures Requests(hdr)[DATA].size == RegionSize(hdr.dataSize) >= MPU_MIN
  {
    hide RoundedFrom;
    AtLeastMin(hdr.gotSize);
    AtLeastMin(hdr.bssSize);
    AtLeastMin(hdr.dataSize);
  }

  lemma AtLeastMin(len: u32)
    ensures RegionSize(len) >= MPU_MIN
  {
  }

  /**
   * What the loader relies on holds for every program given memory by the allocator: its destinations overlap
   * neither the image nor each other.
   */
  lemma GivenIsPlaced(h: Heap, addr: u32, size: u32, hdr: Header)
    requires Given(h, hdr) && ImageApart(h, addr, size, hdr)
    ensures PlacedOk(TWO32, addr, size, hdr, LoadAddrs(addr, hdr, AllocFirst(h, Requests(hdr), 6).1))
  {
    hide Inv, AllocFirst, GotWords, Allocated, RequestOf, InRanges, Room, Separate, SameClient;
    var (h', a) := AllocFirst(h, Requests(hdr), 6);
    Rooms(h, hdr);
    SixRequests(hdr);
    SeriesRanges(h, Requests(hdr), 6);
    ApartFromImage(h', addr, size, a[GOT], 4 * GotWords(hdr));
    ApartFromImage(h', addr, size, a[BSS], hdr.bssSize);
    ApartFromImage(h', addr, size, a[DATA], hdr.dataSize);
    ApartFromEachOther(h', a[DATA], hdr.dataSize, a[BSS], hdr.bssSize);
    ApartFromEachOther(h', a[DATA], hdr.dataSize, a[GOT], 4 * GotWords(hdr));
    ApartFromEachOther(h', a[BSS], hdr.bssSize, a[GOT], 4 * GotWords(hdr));
    RoomFits(h', a[GOT], 4 * GotWords(hdr));
    RoomFits(h', a[BSS], hdr.bssSize);
    RoomFits(h', a[DATA], hdr.dataSize);
    assert OffsetOf(hdr, Text) as int + SizeOf(hdr, Text) <= size;
    assert OffsetOf(hdr, Rodata) as int + SizeOf(hdr, Rodata) <= size;
    assert OffsetOf(hdr, Data) as int + SizeOf(hdr, Data) <= size;
  }

  lemma RoomFits(h: Heap, a: int, n: int)
    requires Settled(h) && Room(h, a, n)
    ensures a + n < TWO32
  {
    hide Inv, Allocated, RequestOf;
    PayloadFits(h, a);
  }

  // ----- What loading does to the heap -----

  /** A write that keeps to the first `n` bytes of the allocation `a` is one its owner may make. */
  ghost predicate WritesOnly(m: Mem, m': Mem, a: int, n: int) {
    |m| == |m'| == TWO32 && forall x :: 0 <= x < TWO32 && !(a <= x < a + n) ==> m'[x] == m[x]
  }

  ghost function WithMem(h: Heap, m: Mem): Heap {
    h.(list := h.list.(mem := m))
  }

  lemma RoomWrite(h: Heap, a: int, n: int, m': Mem)
    requires Settled(h) && Room(h, a, n) && WritesOnly(h.list.mem, m', a, n)
    ensures Allowed(h, ClientWrite(a, m')) && Apply(h, ClientWrite(a, m')) == WithMem(h, m')
    ensures Settled(WithMem(h, m'))
    ensures forall x, k :: x != a && Room(h, x, k) ==> Room(WithMem(h, m'), x, k)
    ensures forall x :: x != a && Allocated(h, x) ==> SameClient(h, WithMem(h, m'), x)
  {
    hide Inv, OwnerOf, SameClient;
    assert Allowed(h, ClientWrite(a, m'));
    ApplySettles(h, ClientWrite(a, m'));
    forall x | x != a && Allocated(h, x) ensures SameClient(h, WithMem(h, m'), x) {
      ClientWriteOther(h, a, m', x);
    }
    forall x, k | x != a && Room(h, x, k) ensures Room(WithMem(h, m'), x, k) {
      RoomKept(h, WithMem(h, m'), x, k);
    }
  }

  lemma RoomKept(h: Heap, h': Heap, x: int, k: int)
    requires Inv(h) && Inv(h') && Room(h, x, k) && SameClient(h, h', x)
    ensures Room(h', x, k)
  {
    hide Inv, PayloadBytes;
  }

  /** The loader's three stages as writes of the task: to its data, its bss and its GOT. */
  ghost function Writes(m: Mem, addr: u32, hdr: Header, addrs: Addrs): seq<Op>
    requires Loader.InMemory(|m|, addr, hdr, addrs)
  {
    var m1 := DataCopied(m, addr, hdr, addrs);
    var m2 := Zeroed(m1, addrs.bss, hdr.bssSize);
    [ClientWrite(addrs.data, m1), ClientWrite(addrs.bss, m2), ClientWrite(addrs.got, Setup(m, addr, hdr, addrs).0)]
  }

  lemma StagesWriteOnly(m: Mem, addr: u32, hdr: Header, addrs: Addrs)
    requires |m| == TWO32 && Loader.InMemory(|m|, addr, hdr, addrs)
    ensures var m1 := DataCopied(m, addr, hdr, addrs);
      var m2 := Zeroed(m1, addrs.bss, hdr.bssSize);
      && WritesOnly(m, m1, addrs.data, hdr.dataSize) && WritesOnly(m1, m2, addrs.bss, hdr.bssSize)
      && WritesOnly(m2, Setup(m, addr, hdr, addrs).0, addrs.got, 4 * GotWords(hdr))
  {
    hide GotFrom, Get32;
    var m2 := Zeroed(DataCopied(m, addr, hdr, addrs), addrs.bss, hdr.bssSize);
    GotStays(m2, addr as int + hdr.gotOffset, hdr, addrs, 0);
  }

  /** Three writes, each to another allocation. */
  lemma ThreeWrites(h: Heap, a: int, m1: Mem, n1: int, b: int, m2: Mem, n2: int, c: int, m3: Mem, n3: int)
    requires Settled(h) && Room(h, a, n1) && Room(h, b, n2) && Room(h, c, n3) && a != b && a != c && b != c
    requires WritesOnly(h.list.mem, m1, a, n1) && WritesOnly(m1, m2, b, n2) && WritesOnly(m2, m3, c, n3)
    ensures var ops := [ClientWrite(a, m1), ClientWrite(b, m2), ClientWrite(c, m3)];
      RunAllowed(h, ops) && Run(h, ops) == WithMem(h, m3)
  {
    hide Inv, Room, WritesOnly, SameClient, Allowed, Apply;
    var h1, h2 := WithMem(h, m1), WithMem(h, m2);
    RoomWrite(h, a, n1, m1);
    RoomWrite(h1, b, n2, m2);
    assert WithMem(h1, m2) == h2;
    RoomWrite(h2, c, n3, m3);
    assert WithMem(h2, m3) == WithMem(h, m3);
    var ops := [ClientWrite(a, m1), ClientWrite(b, m2), ClientWrite(c, m3)];
    OneOp(h2, ClientWrite(c, m3), []);
    assert ops[1..][1..] == [ClientWrite(c, m3)] && ops[1..][0] == ClientWrite(b, m2) && ops[2..] == ops[1..][1..];
    OneOp(h1, ClientWrite(b, m2), ops[1..][1..]);
    assert ops[1..] == [ClientWrite(b, m2)] + ops[1..][1..];
    OneOp(h, ClientWrite(a, m1), ops[1..]);
    assert ops == [ClientWrite(a, m1)] + ops[1..];
  }

  lemma OneOp(h: Heap, op: Op, ops: seq<Op>)
    requires Inv(h) && Allowed(h, op) && RunAllowed(Apply(h, op), ops)
    ensures RunAllowed(h, [op] + ops) && Run(h, [op] + ops) == Run(Apply(h, op), ops)
  {
    hide Inv, Allowed, Apply;
    assert ([op] + ops)[1..] == ops;
  }

  /**
   * Loading is a run of the allocator's clients: three writes by the task to allocations of its own. So the heap
   * stays settled, and every allocation but those three, the ones made before among them, keeps its place, its
   * size and its bytes, whether or not the GOT was good.
   */
  lemma LoadingSpares(h: Heap, addr: u32, size: u32, hdr: Header)
    requires Given(h, hdr) && ImageApart(h, addr, size, hdr)
    ensures var (h', a) := AllocFirst(h, Requests(hdr), 6); var addrs := LoadAddrs(addr, hdr, a);
      && PlacedOk(TWO32, addr, size, hdr, addrs) && |h'.list.mem| == TWO32
      && RunAllowed(h', Writes(h'.list.mem, addr, hdr, addrs))
      && var loaded := WithMem(h', Setup(h'.list.mem, addr, hdr, addrs).0);
      && Run(h', Writes(h'.list.mem, addr, hdr, addrs)) == loaded && Settled(loaded)
      && (forall x :: Allocated(h', x) && x != a[DATA] && x != a[BSS] && x != a[GOT] ==> SameClient(h', loaded, x))
      && (forall x :: Allocated(h, x) ==> SameClient(h, loaded, x))
  {
    hide Inv, AllocFirst, GotWords, Allocated, InRanges, Room, SameClient, WritesOnly, RunAllowed, Run, Setup;
    hide DataCopied, Zeroed, PlacedOk, GotFrom, RequestOf;
    var (h', a) := AllocFirst(h, Requests(hdr), 6);
    var addrs, m := LoadAddrs(addr, hdr, a), h'.list.mem;
    GivenIsPlaced(h, addr, size, hdr);
    PlacedInMemory(addr, size, hdr, addrs);
    Rooms(h, hdr);
    SixRequests(hdr);
    SettledMem(h');
    StagesWriteOnly(m, addr, hdr, addrs);
    var m1 := DataCopied(m, addr, hdr, addrs);
    var m2 := Zeroed(m1, addrs.bss, hdr.bssSize);
    ThreeWrites(h', a[DATA], m1, hdr.dataSize, a[BSS], m2, hdr.bssSize,
      a[GOT], Setup(m, addr, hdr, addrs).0, 4 * GotWords(hdr));
    var ops := Writes(m, addr, hdr, addrs);
    EveryRunSettles(h', ops);
    var loaded := WithMem(h', Setup(m, addr, hdr, addrs).0);
    forall x | Allocated(h', x) && x != a[DATA] && x != a[BSS] && x != a[GOT] ensures SameClient(h', loaded, x) {
      RunKeepsClient(h', ops, x);
    }
    forall x | Allocated(h, x) ensures SameClient(h, loaded, x) {
      SameClientTransitive(h, h', loaded, x);
    }
  }

  lemma PlacedInMemory(addr: u32, size: u32, hdr: Header, addrs: Addrs)
    requires PlacedOk(TWO32, addr, size, hdr, addrs)
    ensures Loader.InMemory(TWO32, addr, hdr, addrs)
  {
  }

  lemma SettledMem(h: Heap)
    requires Settled(h)
    ensures |h.list.mem| == TWO32
  {
    hide HeadersOk, FreeListed, Covers;
  }

  // ----- What the loaded task can reach -----

  /** The header's sizes are ones for which rounding gives regions the MPU can describe. */
  predicate Encodable(hdr: Header) {
    && hdr.gotSize <= LARGEST && hdr.bssSize <= LARGEST && hdr.dataSize <= LARGEST
    && hdr.heapSize <= LARGEST && hdr.stackSize <= LARGEST
  }

  /** The flash window mapped as text was never given to the allocator. */
  ghost predicate FlashApart(h: Heap) {
    forall x: int :: 0x0800_0000 <= x < 0x0820_0000 ==> !InRanges(h.ranges, x)
  }

  predicate In(x: int, a: int, n: int) {
    a <= x < a + n
  }

  lemma GivenDescribable(h: Heap, hdr: Header)
    requires Given(h, hdr) && Encodable(hdr)
    ensures M.MappedDescribable(Placed(hdr, AllocFirst(h, Requests(hdr), 6).1))
  {
    hide Inv, AllocFirst, RegionSize, M.Describable, Backed;
    M.AllocatedDescribable(h, hdr);
  }

  /** What slot holds each address the loader was told. */
  lemma PlacedWhere(addr: u32, hdr: Header, a: seq<u32>, x: int)
    requires |a| == 6 && TM.WellFormed(Placed(hdr, a))
    ensures var r, at := Placed(hdr, a), LoadAddrs(addr, hdr, a);
      && (In(x, at.bss, hdr.bssSize) ==> M.Holds(r, TM.USER_BSS, x))
      && (In(x, at.heap, hdr.heapSize) ==> M.Holds(r, TM.USER_HEAP, x))
      && (In(x, at.stack, hdr.stackSize) ==> M.Holds(r, TM.USER_STACK, x))
      && (In(x, at.data, hdr.dataSize) ==> M.Holds(r, TM.USER_DATA, x))
      && (In(x, at.got, hdr.gotSize) ==> M.Holds(r, TM.USER_GOT, x))
      && (M.Holds(r, TM.TEXT, x) <==> 0x0800_0000 <= x < 0x0820_0000)
  {
    hide RoundedFrom;
  }

  /** Two different slots of the task share no byte, and none is in flash. */
  lemma SlotsApart(h: Heap, hdr: Header, i: nat, j: nat, x: int)
    requires Given(h, hdr) && i < TM.REGIONS && j < TM.REGIONS && i != j
    requires var r := Placed(hdr, AllocFirst(h, Requests(hdr), 6).1);
      TM.WellFormed(r) && i in r.dynamic && M.Holds(r, i, x) && M.Holds(r, j, x)
    ensures j !in Placed(hdr, AllocFirst(h, Requests(hdr), 6).1).dynamic
    ensures InRanges(AllocFirst(h, Requests(hdr), 6).0.ranges, x)
  {
    hide Inv, AllocFirst, RegionSize, Allocated, RequestOf, Placed, Backed, InRanges;
    TaskOwns(h, hdr);
    var (h', a) := AllocFirst(h, Requests(hdr), 6);
    var r := Placed(hdr, a);
    PayloadAdded(h', r.addr[i], x);
    if j in r.dynamic { M.SharedByte(h', r.addr[i], r.addr[j], x); }
  }

  /**
   * The rights of a task after allocation, loading and MPU setup, at the addresses its program uses. It can execute
   * the flash window and nothing else, and write its bss, heap and stack. But no slot is made for its data segment:
   * with the MPU on a program that has one cannot even read it. Its kernel stack is out of reach, as it should be.
   */
  lemma LoadedRights(h: Heap, addr: u32, hdr: Header, table: seq<M.Entry>, x: int)
    requires Given(h, hdr) && Encodable(hdr) && FlashApart(h)
    requires M.Mapped(table, Placed(hdr, AllocFirst(h, Requests(hdr), 6).1))
    ensures var a := AllocFirst(h, Requests(hdr), 6).1; var at := LoadAddrs(addr, hdr, a);
      && (M.UserCanFetch(table, x) <==> 0x0800_0000 <= x < 0x0820_0000)
      && (In(x, at.bss, hdr.bssSize) || In(x, at.heap, hdr.heapSize) || In(x, at.stack, hdr.stackSize) ==>
          M.UserCanRead(table, x) && M.UserCanWrite(table, x))
      && (In(x, at.got, hdr.gotSize) ==> M.UserCanRead(table, x) && !M.UserCanWrite(table, x))
      && (In(x, at.data, hdr.dataSize) ==> !M.UserCanRead(table, x) && !M.UserCanWrite(table, x))
      && (In(x, a[0], KERN_STACK_SIZE) ==> !M.UserCanRead(table, x) && !M.UserCanWrite(table, x))
  {
    hide Inv, AllocFirst, RegionSize, InRanges, M.Mapped, M.Holds, M.UserCanRead, M.UserCanWrite, M.UserCanFetch;
    hide M.MappedDescribable;
    var (h', a) := AllocFirst(h, Requests(hdr), 6);
    var r := Placed(hdr, a);
    PlacedForm(hdr, a);
    GivenDescribable(h, hdr);
    M.RightsExact(table, r, x);
    PlacedWhere(addr, hdr, a, x);
    SixRequests(hdr);
    SeriesRanges(h, Requests(hdr), 6);
    if M.Holds(r, TM.USER_DATA, x) { OnlyHere(h, hdr, TM.USER_DATA, x); }
    if M.Holds(r, TM.KERN_STACK, x) { OnlyHere(h, hdr, TM.KERN_STACK, x); }
    if M.Holds(r, TM.USER_GOT, x) { OnlyHere(h, hdr, TM.USER_GOT, x); }
    if In(x, a[0], KERN_STACK_SIZE) { StackHeld(hdr, a, x); }
  }

  /** So a program can read its data segment exactly when it has none. */
  lemma DataReadable(h: Heap, addr: u32, hdr: Header, table: seq<M.Entry>)
    requires Given(h, hdr) && Encodable(hdr) && FlashApart(h)
    requires M.Mapped(table, Placed(hdr, AllocFirst(h, Requests(hdr), 6).1))
    ensures var data := LoadAddrs(addr, hdr, AllocFirst(h, Requests(hdr), 6).1).data;
      (forall x :: In(x, data, hdr.dataSize) ==> M.UserCanRead(table, x)) <==> hdr.dataSize == 0
  {
    hide Inv, AllocFirst, RegionSize, InRanges, M.Mapped, M.UserCanRead, M.UserCanWrite, M.UserCanFetch, FlashApart;
    var data: int := LoadAddrs(addr, hdr, AllocFirst(h, Requests(hdr), 6).1).data;
    if hdr.dataSize > 0 {
      LoadedRights(h, addr, hdr, table, data);
      assert In(data, data, hdr.dataSize);
    }
  }

  lemma StackHeld(hdr: Header, a: seq<u32>, x: int)
    requires |a| == 6 && TM.WellFormed(Placed(hdr, a)) && In(x, a[0], KERN_STACK_SIZE)
    ensures M.Holds(Placed(hdr, a), TM.KERN_STACK, x)
  {
    hide RegionSize;
  }

  lemma OnlyHere(h: Heap, hdr: Header, i: nat, x: int)
    requires Given(h, hdr) && FlashApart(h) && i < TM.REGIONS
    requires var r := Placed(hdr, AllocFirst(h, Requests(hdr), 6).1);
      TM.WellFormed(r) && i in r.dynamic && M.Holds(r, i, x)
    ensures var r := Placed(hdr, AllocFirst(h, Requests(hdr), 6).1);
      forall j :: 0 <= j < TM.REGIONS && j != i && (j == TM.TEXT || j in r.dynamic) ==> !M.Holds(r, j, x)
  {
    hide Inv, AllocFirst, RegionSize, InRanges;
    var r := Placed(hdr, AllocFirst(h, Requests(hdr), 6).1);
    SixRequests(hdr);
    SeriesRanges(h, Requests(hdr), 6);
    forall j | 0 <= j < TM.REGIONS && j != i && (j == TM.TEXT || j in r.dynamic) ensures !M.Holds(r, j, x) {
      if M.Holds(r, j, x) { SlotsApart(h, hdr, i, j, x); }
    }
  }
}
