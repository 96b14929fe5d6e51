/** The MPU table of a task: arm_m4_platform.c, and kern_task_mem_setup_mpu of task_mem.c. */
module Mpu {
  import opened Word32
  import opened HeapInvariant
  import opened HeapOps
  import opened PhysMem
  import opened Loader
  import opened TaskMem
  import opened TaskAlloc

  datatype Prot = NoAccess | ExecRo | NoexecRo | NoexecRw | DeviceRo | DeviceRw

  /** platform_mpu_phys_entry_t: the values for MPU_RBAR and MPU_RASR. */
  datatype Entry = Entry(base: u32, rasr: bv32)

  const BLANK := Entry(0, 0)
  const SLOTS: nat := 8

  // ----- What the hardware makes of an entry: section B3.5 of the ARMv7-M Architecture Reference Manual -----

  function Enabled(e: Entry): bool { e.rasr & 1 == 1 }
  function SizeField(e: Entry): bv32 { (e.rasr >> 1) & 0x1f }
  function SubregionsOff(e: Entry): bv32 { (e.rasr >> 8) & 0xff }
  function MemoryType(e: Entry): bv32 { (e.rasr >> 16) & 0x3f }  // TEX, S, C, B
  function AccessField(e: Entry): bv32 { (e.rasr >> 24) & 7 }
  function ExecuteNever(e: Entry): bool { (e.rasr >> 28) & 1 == 1 }
  function Reserved(e: Entry): bv32 { e.rasr & 0xe8c0_00c0 }

  /** RBAR.VALID: the entry would choose its own region number, instead of the slot it is written to. */
  function PicksOwnSlot(e: Entry): bool { e.base / 16 % 2 == 1 }

  function RegionBytes(e: Entry): nat {
    Pow2(SizeField(e) as int + 1)
  }

  /** The address bits below the region size are not part of the base. */
  function RegionBase(e: Entry): int {
    Pow2Mono(0, SizeField(e) as int + 1);
    e.base - e.base % RegionBytes(e)
  }

  predicate Covers(e: Entry, x: int) {
    Enabled(e) && RegionBase(e) <= x < RegionBase(e) + RegionBytes(e)
  }

  predicate UserMayRead(e: Entry) {
    AccessField(e) == 2 || AccessField(e) == 3 || AccessField(e) == 6 || AccessField(e) == 7
  }
  predicate UserMayWrite(e: Entry) { AccessField(e) == 3 }
  predicate KernelMayWrite(e: Entry) { AccessField(e) == 1 || AccessField(e) == 2 || AccessField(e) == 3 }
  predicate UserMayExecute(e: Entry) { UserMayRead(e) && !ExecuteNever(e) }

  // ----- The encoder -----

  /** The hardware can describe the region: a power of two from 32 bytes to 2 GB, on a boundary of its own size. */
  ghost predicate Describable(base: u32, size: u32) {
    size > 0 && base % size == 0 && exists n :: 5 <= n <= 31 && Pow2(n) == size
  }

  predicate Programmable(prot: Prot) {
    prot == ExecRo || prot == NoexecRo || prot == NoexecRw
  }

  /** The entry describes exactly the bytes from `base`, no subregion left out, with the rights `prot` names. */
  ghost predicate Encodes(e: Entry, base: u32, size: u32, prot: Prot) {
    && Enabled(e) && RegionBase(e) == base && RegionBytes(e) == size && SubregionsOff(e) == 0
    && !PicksOwnSlot(e) && Reserved(e) == 0
    && Permits(e, prot)
  }

  /** Normal shared memory; users read it always, write it if RW, and run code from it if EXEC. */
  predicate Permits(e: Entry, prot: Prot) {
    && MemoryType(e) == (if prot == ExecRo then 0x06 else 0x0f)
    && UserMayRead(e)
    && (UserMayWrite(e) <==> prot == NoexecRw)
    && (UserMayExecute(e) <==> prot == ExecRo)
    && (KernelMayWrite(e) <==> prot != ExecRo)
  }

  const SIZE_M: bv32 := 0x0000_003e
  const SRD_M: bv32 := 0x0000_ff00
  const TEX_M: bv32 := 0x0038_0000
  const AP_M: bv32 := 0x0700_0000
  const B_BIT: bv32 := 0x0001_0000
  const C_BIT: bv32 := 0x0002_0000
  const S_BIT: bv32 := 0x0004_0000
  const XN_BIT: bv32 := 0x1000_0000

  function Rmw(reg: bv32, mask: bv32, shift: bv6, v: bv32): bv32
    requires shift <= 32
  {
    (reg & !mask) | ((v << shift) & mask)
  }

  /** The search for the size field: 0 if the size is not a power of two the hardware has. */
  method FindSize(size: u32) returns (sf: nat)
    ensures sf == 0 || 4 <= sf <= 30
    ensures sf != 0 ==> Pow2(sf + 1) == size
    ensures sf == 0 ==> forall n :: 5 <= n <= 31 ==> Pow2(n) != size
  {
    sf := 0;
    var i := 4;
    while i < 31
      invariant 4 <= i <= 31 && forall n :: 5 <= n <= i ==> Pow2(n) != size
    {
      if Pow2(i + 1) == size { return i; }
      i := i + 1;
    }
  }

  lemma TooSmall(size: u32)
    requires size < MPU_MIN
    ensures forall n :: 5 <= n <= 31 ==> Pow2(n) != size
  {
    Pow2Values();
    forall n | 5 <= n <= 31 ensures Pow2(n) != size { Pow2Mono(5, n); }
  }

  lemma DescribedBy(base: u32, size: u32, sf: nat)
    requires 4 <= sf <= 30 && Pow2(sf + 1) == size && size > 0
    ensures Describable(base, size) <==> base % size == 0
  {
  }

  /** platform_mpu_table_entry_validate. */
  method Validate(base: u32, size: u32, prot: Prot) returns (ok: bool)
    ensures ok <==> Describable(base, size)
  {
    if size < MPU_MIN {
      TooSmall(size);
      return false;
    }
    var sf := FindSize(size);
    if sf == 0 { return false; }
    Pow2Mono(0, sf + 1);
    DescribedBy(base, size, sf);
    ok := base % Pow2(sf + 1) == 0;
  }

  function Bits(sf: nat): (v: bv32)
    requires sf <= 31
    ensures v as int == sf
  {
    sf as bv32
  }

  /** The RASR value for a size field and a protection. */
  method BuildRasr(v: bv32, prot: Prot) returns (ok: bool, rasr: bv32)
    requires v <= 31
    ensures ok <==> Programmable(prot)
    ensures var e := Entry(0, rasr); ok ==>
      Enabled(e) && SizeField(e) == v && SubregionsOff(e) == 0 && Reserved(e) == 0 && Permits(e, prot)
  {
    rasr := 0;
    rasr := rasr | Rmw(rasr, SIZE_M, 1, v);
    rasr := rasr | Rmw(rasr, SRD_M, 8, 0);
    rasr := rasr | 1;
    match prot {
      case ExecRo =>
        rasr := rasr | Rmw(rasr, TEX_M, 19, 0);
        rasr := rasr | Rmw(rasr, AP_M, 24, 6);
        rasr := rasr | C_BIT;
        rasr := rasr | S_BIT;
      case NoexecRw =>
        rasr := rasr | Rmw(rasr, TEX_M, 19, 1);
        rasr := rasr | Rmw(rasr, AP_M, 24, 3);
        rasr := rasr | B_BIT;
        rasr := rasr | C_BIT;
        rasr := rasr | S_BIT;
        rasr := rasr | XN_BIT;
      case NoexecRo =>
        rasr := rasr | Rmw(rasr, TEX_M, 19, 1);
        rasr := rasr | Rmw(rasr, AP_M, 24, 2);
        rasr := rasr | B_BIT;
        rasr := rasr | C_BIT;
        rasr := rasr | S_BIT;
        rasr := rasr | XN_BIT;
      case _ =>
        return false, rasr;
    }
    ok := true;
  }

  /** platform_mpu_table_set, on slot `i` of the table. */
  method Set(table: array<Entry>, i: nat, base: u32, size: u32, prot: Prot) returns (ok: bool)
    requires i < table.Length
    modifies table
    ensures ok <==> prot == NoAccess || (Programmable(prot) && Describable(base, size))
    ensures ok ==> if prot == NoAccess then table[i] == BLANK else Encodes(table[i], base, size, prot)
    ensures !ok ==> table[i] == old(table[i])
    ensures forall k :: 0 <= k < table.Length && k != i ==> table[k] == old(table[k])
  {
    hide Enabled, SizeField, SubregionsOff, Reserved, Permits, Bits, Encodes, RegionBytes, RegionBase, Rmw;
    if prot == NoAccess {
      table[i] := BLANK;
      return true;
    }
    if size < MPU_MIN {
      TooSmall(size);
      return false;
    }
    var sf := FindSize(size);
    if sf == 0 { return false; }
    Pow2Mono(0, sf + 1);
    DescribedBy(base, size, sf);
    if base % Pow2(sf + 1) != 0 { return false; }
    var rasr;
    ok, rasr := BuildRasr(Bits(sf), prot);
    if !ok { return; }
    table[i] := Entry(base, rasr);
    SameRights(Entry(0, rasr), Entry(base, rasr));
    Completes(Entry(base, rasr), size, sf, prot);
  }

  lemma Completes(e: Entry, size: u32, sf: nat, prot: Prot)
    requires 4 <= sf <= 31 && size > 0 && Pow2(sf + 1) == size && e.base % size == 0 && SizeField(e) == Bits(sf)
    requires Enabled(e) && SubregionsOff(e) == 0 && Reserved(e) == 0 && Permits(e, prot)
    ensures Encodes(e, e.base, size, prot)
  {
    hide Enabled, SizeField, SubregionsOff, Reserved, Permits, Bits;
    AlignedBase(e.base, sf + 1);
  }

  lemma SameRights(d: Entry, e: Entry)
    requires d.rasr == e.rasr
    ensures Enabled(d) == Enabled(e) && SizeField(d) == SizeField(e) && SubregionsOff(d) == SubregionsOff(e)
    ensures Reserved(d) == Reserved(e) && forall prot :: Permits(d, prot) == Permits(e, prot)
  {
  }

  lemma AlignedBase(base: u32, n: nat)
    requires 5 <= n && Pow2(n) > 0 && base % Pow2(n) == 0
    ensures base / 16 % 2 == 0
  {
    var p := Factor32(n);
    var q := base / Pow2(n);
    assert base == q * Pow2(n);
    TimesThirtyTwo(q, p);
  }

  lemma {:induction false} Factor32(n: nat) returns (p: nat)
    requires 5 <= n
    ensures Pow2(n) == 32 * p
  {
    if n == 5 {
      Pow2Values();
      p := 1;
    } else {
      p := Factor32(n - 1);
      p := 2 * p;
    }
  }

  lemma TimesThirtyTwo(q: nat, p: nat)
    ensures q * (32 * p) / 16 % 2 == 0
  {
    var r := q * p;
    assert q * (32 * p) == 32 * r;
  }

  // ----- The table of a task -----

  /** The slot as kern_task_mem_setup_mpu leaves it: it does not look at what platform_mpu_table_set returns. */
  ghost predicate SlotFor(e: Entry, r: Regions, id: nat, prot: Prot)
    requires WellFormed(r) && id < REGIONS
  {
    if Describable(r.addr[id], r.size[id]) then Encodes(e, r.addr[id], r.size[id], prot) else e == BLANK
  }

  ghost predicate Mapped(table: seq<Entry>, r: Regions) {
    && |table| == SLOTS && WellFormed(r)
    && SlotFor(table[0], r, TEXT, ExecRo)
    && SlotFor(table[1], r, USER_STACK, NoexecRw)
    && SlotFor(table[2], r, USER_HEAP, NoexecRw)
    && SlotFor(table[3], r, USER_GOT, NoexecRo)
    && table[4] == table[5] == BLANK
    && SlotFor(table[6], r, USER_BSS, NoexecRw)
    && table[7] == BLANK
  }

  /** platform_mpu_table_init. */
  method Init(table: array<Entry>)
    requires table.Length == SLOTS
    modifies table
    ensures forall i :: 0 <= i < SLOTS ==> table[i] == BLANK
  {
    var i := 0;
    while i < SLOTS
      invariant 0 <= i <= SLOTS && forall k :: 0 <= k < i ==> table[k] == BLANK
    {
      table[i] := BLANK;
      i := i + 1;
    }
  }

  /** kern_task_mem_setup_mpu, with `enable` the task's TASK_FLAGS_ENABLE_MPU. */
  method SetupMpu(table: array<Entry>, tm: TaskMemory, enable: bool) returns (ok: bool)
    requires table.Length == SLOTS && tm.Valid()
    modifies table
    ensures ok && (enable ==> Mapped(table[..], old(tm.Contents()))) && (!enable ==> table[..] == old(table[..]))
    ensures enable && MappedDescribable(old(tm.Contents())) ==>
      forall x :: RightsAt(table[..], old(tm.Contents()), x)
  {
    hide Encodes, Describable, RightsAt, MappedDescribable;
    if !enable { return true; }
    ghost var r := tm.Contents();
    Init(table);
    var _ := Set(table, 0, tm.addr[TEXT], tm.size[TEXT], ExecRo);
    var _ := Set(table, 1, tm.addr[USER_STACK], tm.size[USER_STACK], NoexecRw);
    var _ := Set(table, 2, tm.addr[USER_HEAP], tm.size[USER_HEAP], NoexecRw);
    var _ := Set(table, 3, tm.addr[USER_GOT], tm.size[USER_GOT], NoexecRo);
    var _ := Set(table, 6, tm.addr[USER_BSS], tm.size[USER_BSS], NoexecRw);
    ok := true;
    forall x | MappedDescribable(r) ensures RightsAt(table[..], r, x) { RightsExact(table[..], r, x); }
  }

  // ----- What the allocator gives, the MPU takes -----

  /** Rounding makes a region describable exactly for lengths up to 2^29, and for 2^30 and 2^31. */
  lemma RoundedDescribable(base: u32, len: u32)
    requires base % RegionSize(len) == 0
    ensures Describable(base, RegionSize(len)) <==> len <= LARGEST || len == 0x4000_0000 || len == TWO31
  {
    hide RegionSize;
    Pow2Values();
    if len <= LARGEST {
      var n := RegionSizeIsLeast(len);
      Pow2Mono(0, n);
    } else {
      RegionSizeAbove(len);
      if Describable(base, len) {
        var n :| 5 <= n <= 31 && Pow2(n) == len;
        if n <= 29 { Pow2Mono(n, 29); }
      }
    }
  }

  /** The six regions of a user task, as far as the MPU cares. */
  ghost predicate AllDescribable(r: Regions) {
    && WellFormed(r)
    && forall j :: 0 <= j < REGIONS && j in r.dynamic && j != KERN_STACK ==> Describable(r.addr[j], r.size[j])
  }

  /** For sizes up to 2^29 every region of a successful allocation can be encoded, the data segment's included. */
  lemma AllocatedDescribable(h: Heap, hdr: Header)
    requires Settled(h) && Feasible(Requests(hdr)) && |AllocFirst(h, Requests(hdr), 6).1| == 6
    requires hdr.gotSize <= LARGEST && hdr.bssSize <= LARGEST && hdr.dataSize <= LARGEST
    requires hdr.heapSize <= LARGEST && hdr.stackSize <= LARGEST
    ensures var (h', a) := AllocFirst(h, Requests(hdr), 6);
      AllDescribable(Placed(hdr, a)) && Describable(0x0800_0000, 0x20_0000)
  {
    hide Inv, AllocFirst, RegionSize, Describable, Backed;
    TaskOwns(h, hdr);
    var (h', a) := AllocFirst(h, Requests(hdr), 6);
    RequestDescribable(h', a[1], hdr.gotSize);
    RequestDescribable(h', a[2], hdr.bssSize);
    RequestDescribable(h', a[3], hdr.dataSize);
    RequestDescribable(h', a[4], hdr.heapSize);
    RequestDescribable(h', a[5], hdr.stackSize);
    TextDescribable();
  }

  /** So the table made for such a task maps each region it has a slot for, to the byte. */
  lemma MappedExactly(table: seq<Entry>, r: Regions)
    requires Mapped(table, r) && AllDescribable(r) && {USER_STACK, USER_HEAP, USER_GOT, USER_BSS} <= r.dynamic
    ensures Encodes(table[1], r.addr[USER_STACK], r.size[USER_STACK], NoexecRw)
    ensures Encodes(table[2], r.addr[USER_HEAP], r.size[USER_HEAP], NoexecRw)
    ensures Encodes(table[3], r.addr[USER_GOT], r.size[USER_GOT], NoexecRo)
    ensures Encodes(table[6], r.addr[USER_BSS], r.size[USER_BSS], NoexecRw)
    ensures forall x :: UserCanWrite(table, x) <==>
      Holds(r, USER_STACK, x) || Holds(r, USER_HEAP, x) || Holds(r, USER_BSS, x)
  {
    hide Describable, Covers, Encodes, UserMayWrite, Holds;
    forall x
      ensures UserCanWrite(table, x) <==> Holds(r, USER_STACK, x) || Holds(r, USER_HEAP, x) || Holds(r, USER_BSS, x)
    {
      if UserCanWrite(table, x) { WritesInside(table, r, x); }
      SlotOpen(table[1], r, USER_STACK, x);
      SlotOpen(table[2], r, USER_HEAP, x);
      SlotOpen(table[6], r, USER_BSS, x);
    }
  }

  // ----- What a task can read and execute -----

  /** Some slot lets a user-mode load of `x` through. */
  ghost predicate UserCanRead(table: seq<Entry>, x: int) {
    exists i :: 0 <= i < |table| && Covers(table[i], x) && UserMayRead(table[i])
  }

  /** Some slot lets a user-mode instruction fetch at `x` through. */
  ghost predicate UserCanFetch(table: seq<Entry>, x: int) {
    exists i :: 0 <= i < |table| && Covers(table[i], x) && UserMayExecute(table[i])
  }

  /** Each of the five mapped regions of the record can be described. */
  ghost predicate MappedDescribable(r: Regions) {
    && AllDescribable(r) && {USER_STACK, USER_HEAP, USER_GOT, USER_BSS} <= r.dynamic
    && Describable(r.addr[TEXT], r.size[TEXT])
  }

  /** The rights of a task by what the hardware makes of its table, byte by byte. */
  ghost predicate RightsAt(table: seq<Entry>, r: Regions, x: int)
    requires WellFormed(r)
  {
    && (UserCanFetch(table, x) <==> Holds(r, TEXT, x))
    && (UserCanWrite(table, x) <==> Holds(r, USER_STACK, x) || Holds(r, USER_HEAP, x) || Holds(r, USER_BSS, x))
    && (UserCanRead(table, x) <==>
        || Holds(r, TEXT, x) || Holds(r, USER_STACK, x) || Holds(r, USER_HEAP, x)
        || Holds(r, USER_GOT, x) || Holds(r, USER_BSS, x))
  }

  lemma SlotRights(e: Entry, r: Regions, id: nat, prot: Prot, x: int)
    requires WellFormed(r) && id < REGIONS && Encodes(e, r.addr[id], r.size[id], prot)
    ensures Covers(e, x) <==> Holds(r, id, x)
    ensures UserMayRead(e) && (UserMayWrite(e) <==> prot == NoexecRw) && (UserMayExecute(e) <==> prot == ExecRo)
  {
    hide AccessField, ExecuteNever;
  }

  /** Text can be executed and nothing else can; what can be read is text, stack, heap, GOT and bss. */
  lemma RightsExact(table: seq<Entry>, r: Regions, x: int)
    requires Mapped(table, r) && MappedDescribable(r)
    ensures RightsAt(table, r, x)
  {
    hide Describable, Covers, Encodes, UserMayWrite, UserMayRead, UserMayExecute, Holds;
    SlotRights(table[0], r, TEXT, ExecRo, x);
    SlotRights(table[1], r, USER_STACK, NoexecRw, x);
    SlotRights(table[2], r, USER_HEAP, NoexecRw, x);
    SlotRights(table[3], r, USER_GOT, NoexecRo, x);
    SlotRights(table[6], r, USER_BSS, NoexecRw, x);
    BlankCoversNothing(x);
    ReadAt(table, x, 0);
    ReadAt(table, x, 1);
    ReadAt(table, x, 2);
    ReadAt(table, x, 3);
    ReadAt(table, x, 6);
  }

  lemma ReadAt(table: seq<Entry>, x: int, i: nat)
    requires i < |table|
    ensures Covers(table[i], x) && UserMayRead(table[i]) ==> UserCanRead(table, x)
    ensures Covers(table[i], x) && UserMayWrite(table[i]) ==> UserCanWrite(table, x)
    ensures Covers(table[i], x) && UserMayExecute(table[i]) ==> UserCanFetch(table, x)
  {
  }

  lemma SlotOpen(e: Entry, r: Regions, id: nat, x: int)
    requires WellFormed(r) && id < REGIONS && Encodes(e, r.addr[id], r.size[id], NoexecRw)
    ensures Holds(r, id, x) ==> Covers(e, x) && UserMayWrite(e)
  {
  }

  lemma TextDescribable()
    ensures Describable(0x0800_0000, 0x20_0000)
  {
    assert Pow2(10) == 1024 && Pow2(21) == 0x20_0000;
  }

  lemma RequestDescribable(h: Heap, a: u32, len: u32)
    requires Settled(h) && Backed(h, a, Sized(len)) && len <= LARGEST
    ensures Describable(a, RegionSize(len))
  {
    hide Inv, Allocated, PayloadBytes, RequestOf, RegionSize;
    var n := RegionSizeIsLeast(len);
    Pow2Mono(0, n);
    RoundedDescribable(a, len);
  }

  // ----- What a task can reach -----

  /** Some slot lets a user-mode store at `x` through. Where slots overlap the hardware is at most this generous. */
  ghost predicate UserCanWrite(table: seq<Entry>, x: int) {
    exists i :: 0 <= i < |table| && Covers(table[i], x) && UserMayWrite(table[i])
  }

  /** The recorded regions are allocations of the recorded sizes. */
  ghost predicate Sound(h: Heap, r: Regions) {
    && OwnsFrom(h, r, 0) && {USER_STACK, USER_HEAP, USER_BSS} <= r.dynamic
    && forall j :: 0 <= j < REGIONS && j in r.dynamic ==> RequestOf(h, r.addr[j]) == r.size[j]
  }

  predicate Holds(r: Regions, j: nat, x: int)
    requires WellFormed(r) && j < REGIONS
  {
    r.addr[j] <= x < r.addr[j] as int + r.size[j]
  }

  lemma SlotReach(e: Entry, r: Regions, id: nat, prot: Prot, x: int)
    requires WellFormed(r) && id < REGIONS && SlotFor(e, r, id, prot) && Covers(e, x) && UserMayWrite(e)
    ensures prot == NoexecRw && Holds(r, id, x)
  {
  }

  /** A task can write only inside its own stack, heap or bss. */
  lemma WritesInside(table: seq<Entry>, r: Regions, x: int)
    requires Mapped(table, r) && UserCanWrite(table, x)
    ensures Holds(r, USER_STACK, x) || Holds(r, USER_HEAP, x) || Holds(r, USER_BSS, x)
  {
    hide SlotFor, Covers, UserMayWrite, Holds;
    var i :| 0 <= i < |table| && Covers(table[i], x) && UserMayWrite(table[i]);
    BlankCoversNothing(x);
    if i == 0 { SlotReach(table[0], r, TEXT, ExecRo, x); }
    if i == 1 { SlotReach(table[1], r, USER_STACK, NoexecRw, x); }
    if i == 2 { SlotReach(table[2], r, USER_HEAP, NoexecRw, x); }
    if i == 3 { SlotReach(table[3], r, USER_GOT, NoexecRo, x); }
    if i == 6 { SlotReach(table[6], r, USER_BSS, NoexecRw, x); }
  }

  lemma BlankCoversNothing(x: int)
    ensures !Covers(BLANK, x)
  {
  }

  /**
   * ... so it can reach no allocator header, no byte of any other allocation, and nothing that was never the
   * allocator's: neither allocated kernel stacks nor static ones.
   */
  lemma WritesStayHome(h: Heap, table: seq<Entry>, r: Regions, x: int)
    requires Settled(h) && Sound(h, r) && Mapped(table, r) && UserCanWrite(table, x)
    ensures forall s :: s in h.blocks ==> !(HeaderOf(h, s) <= x < HeaderOf(h, s) + HEADER)
    ensures forall a :: Allocated(h, a) && a <= x < a + RequestOf(h, a) ==>
      a == r.addr[USER_STACK] || a == r.addr[USER_HEAP] || a == r.addr[USER_BSS]
    ensures InRanges(h.ranges, x)
  {
    hide Inv, Mapped, UserCanWrite, Allocated, RequestOf, InRanges;
    WritesInside(table, r, x);
    var j := if Holds(r, USER_STACK, x) then USER_STACK else if Holds(r, USER_HEAP, x) then USER_HEAP else USER_BSS;
    PayloadAdded(h, r.addr[j], x);
    forall s | s in h.blocks ensures !(HeaderOf(h, s) <= x < HeaderOf(h, s) + HEADER) {
      HeaderMissed(h, r.addr[j], s, x);
    }
    forall a | Allocated(h, a) && a <= x < a + RequestOf(h, a) ensures a == r.addr[j] {
      if a != r.addr[j] { SharedByte(h, a, r.addr[j], x); }
    }
  }

  lemma HeaderMissed(h: Heap, a: int, s: int, x: int)
    requires Settled(h) && Allocated(h, a) && s in h.blocks && a <= x < a + RequestOf(h, a)
    ensures !(HeaderOf(h, s) <= x < HeaderOf(h, s) + HEADER)
  {
    hide Inv, OwnerOf;
    HeadersOutOfReach(h, s, OwnerOf(h, a));
  }

  lemma SharedByte(h: Heap, a: int, b: int, x: int)
    requires Settled(h) && Allocated(h, a) && Allocated(h, b) && a <= x < a + RequestOf(h, a)
    requires b <= x < b + RequestOf(h, b)
    ensures a == b
  {
    hide Inv, OwnerOf;
    if a != b { PayloadsDisjoint(h, a, b); }
  }

  /** Two tasks that own different allocations can never both write the same byte. */
  lemma TasksApart(h: Heap, t1: seq<Entry>, r1: Regions, t2: seq<Entry>, r2: Regions, x: int)
    requires Settled(h) && Sound(h, r1) && Sound(h, r2) && Mapped(t1, r1) && Mapped(t2, r2)
    requires forall j, k :: 0 <= j < REGIONS && 0 <= k < REGIONS && j in r1.dynamic && k in r2.dynamic ==>
      r1.addr[j] != r2.addr[k]
    ensures !(UserCanWrite(t1, x) && UserCanWrite(t2, x))
  {
    hide Inv, Mapped, UserCanWrite, Allocated, RequestOf;
    if UserCanWrite(t1, x) && UserCanWrite(t2, x) {
      WritesInside(t1, r1, x);
      WritesInside(t2, r2, x);
      var j := if Holds(r1, USER_STACK, x) then USER_STACK else if Holds(r1, USER_HEAP, x) then USER_HEAP else USER_BSS;
      var k := if Holds(r2, USER_STACK, x) then USER_STACK else if Holds(r2, USER_HEAP, x) then USER_HEAP else USER_BSS;
      SharedByte(h, r1.addr[j], r2.addr[k], x);
    }
  }

  /** What a successful allocation records is sound, and shares nothing with a task that was there before. */
  lemma NewTaskSound(h: Heap, hdr: Header, old_: Regions)
    requires Settled(h) && Feasible(Requests(hdr)) && |AllocFirst(h, Requests(hdr), 6).1| == 6 && Sound(h, old_)
    ensures var (h', a) := AllocFirst(h, Requests(hdr), 6); var r := Placed(hdr, a);
      && Sound(h', r) && Sound(h', old_)
      && forall j, k :: 0 <= j < REGIONS && 0 <= k < REGIONS && j in r.dynamic && k in old_.dynamic ==>
        r.addr[j] != old_.addr[k]
  {
    hide Inv, AllocFirst, RegionSize, Allocated, RequestOf, PayloadBytes;
    TaskOwns(h, hdr);
    SeriesBacked(h, Requests(hdr), 6);
  }
}
