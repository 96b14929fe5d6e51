/** The code of physmem.c, working in place on the memory it hands out. */
module PhysMemCode {
  import opened Word32
  import opened Memory
  import opened IntrusiveList
  import opened Sequences
  import opened HeapInvariant
  import opened HeapOps
  import opened PhysMem

  datatype BootRange = BootRange(start: u32, end: u32, flags: u32)

  class Allocator {
    const mem: array<u8>
    const freeList: ListHead
    /** kern_physmem_range_bootstrap and the number of its entries in use. */
    const bootstrap: array<BootRange>
    var entries: nat
    /** How many magic checks have failed, each of which logs a critical message. */
    var magicFailures: nat

    // What the bytes of `mem` are being used for.
    ghost var free: seq<int>
    ghost var blocks: map<int, Block>
    ghost var ranges: seq<Range>

    ghost function St(): Heap
      reads this, mem, freeList
    {
      Heap(freeList.On(mem[..]), free, blocks, ranges, entries)
    }

    ghost predicate Valid()
      reads this, mem, freeList
    {
      Settled(St())
    }

    /** kern_physmem_init. */
    constructor (mem: array<u8>)
      requires mem.Length == TWO32
      ensures Initial(St()) && Valid() && magicFailures == 0
      ensures this.mem == mem && fresh(freeList) && fresh(bootstrap) && bootstrap.Length == BOOTSTRAP_REGIONS
    {
      this.mem := mem;
      freeList := new ListHead();
      bootstrap := new BootRange[BOOTSTRAP_REGIONS](_ => BootRange(0, 0, 0));
      entries, magicFailures := 0, 0;
      free, blocks, ranges := [], map[], [];
      new;
      assert Initial(St());
      EveryRunSettles(St(), []);
    }

    method StampHeader(e: int, start: u32, size: u32, isFree: bool)
      requires 0 <= e && e + HEADER <= mem.Length
      modifies mem
      ensures mem[..] == WriteHeader(old(mem[..]), e, start, size, isFree)
    {
      hide Get32, Put32, Put8, Magic;
      Store32(mem, e + START, start);
      Store32(mem, e + SIZE, size);
      Store8(mem, e + IS_FREE, if isFree then 1 else 0);
      Store32(mem, e + MAGIC, Magic(start, size));
      Store32(mem, e + NODE, 0);
      Store32(mem, e + NODE + 4, 0);
    }

    /** kern_physmem_add_to_free_list_locked. */
    method AddToFreeListLocked(start: u32, size: u32)
      requires Inv(St()) && HoleAt(St(), start) && blocks[start].size == size
      modifies mem, freeList, this`free, this`blocks
      ensures St() == GiveFree(old(St()), start, AtTail)
    {
      hide Inv, WriteHeader, TailAdded, Linked, Touches;
      ghost var h := St();
      InvBlocks(h);
      assert BlockOk(h, start);
      StampKeeps(h, start);
      StampHeader(start, start, size, true);
      ghost var h1 := St();
      assert h1 == Stamp(h, start);
      LinkReady(h1, start, AtTail);
      freeList.AddTail(mem, start + NODE);
      free := Inserted(free, |free|, start);
      blocks := blocks[start := blocks[start].(use := HeapInvariant.Free)];
    }

    /** kern_physmem_magic_verify, and the message a failure logs. */
    method MagicCheck(e: int)
      requires 0 <= e && e + HEADER <= mem.Length
      modifies this`magicFailures
      ensures magicFailures == old(magicFailures) + if MagicOk(mem[..], e) then 0 else 1
    {
      hide Get32, Magic;
      var start := Load32(mem, e + START);
      var size := Load32(mem, e + SIZE);
      var magic := Load32(mem, e + MAGIC);
      if magic != Magic(start, size) { magicFailures := magicFailures + 1; }
    }

    /** The payload address and block size an allocation from entry `e` would need, in 32-bit arithmetic. */
    static method Candidate(e: int, size: u32, alignment: u32) returns (allocStart: u32, allocSize: u32)
      requires 0 <= e && e + HEADER < TWO32 && size + HEADER + alignment < TWO32
      ensures allocStart == Wrap(PayloadOf(e, alignment)) && allocSize == Needed(e, size, alignment)
    {
      allocStart := e + HEADER;
      allocSize := size + HEADER;
      if alignment != 0 {
        var m := alignment - allocStart % alignment;
        allocStart := Wrap(allocStart as int + m);
        allocSize := allocSize + m;
      }
    }

    /** The search of kern_physmem_alloc: follow the links through memory to the first entry that fits. */
    method FindFit(size: u32, alignment: u32) returns (n: int, allocStart: u32, allocSize: u32)
      requires Valid() && size + HEADER + alignment < TWO32
      modifies this`magicFailures
      ensures magicFailures == old(magicFailures)
      ensures FreeListed(St())
      ensures var k := FirstFit(St(), 0, size, alignment);
        (k == |free| <==> n == 0) &&
        (k < |free| ==> n == free[k] + NODE && allocStart == PayloadOf(free[k], alignment)
                        && allocSize == Needed(free[k], size, alignment))
    {
      hide Inv, Get32, Magic, MagicOk, Allocated, Linked, FreeListed, Pad, FirstFit, After, BlocksOk;
      ghost var h := St();
      ghost var k := 0;
      InvFree(h);
      allocStart, allocSize := 0, 0;
      WalkStart(h);
      MagicHolds(h);
      n := freeList.head;
      while n != 0
        invariant k <= |h.free| && n == After(NodesOf(h.free), k - 1)
        invariant FirstFit(h, 0, size, alignment) == FirstFit(h, k, size, alignment)
        invariant n == 0 <==> k == |h.free|
        invariant magicFailures == old(magicFailures) && St() == h
        decreases |h.free| - k
      {
        WalkStep(h, k);
        FirstFitStep(h, k, size, alignment);
        var e := n - NODE;
        MagicCheck(e);
        allocStart, allocSize := Candidate(e, size, alignment);
        var eSize := Load32(mem, e + SIZE);
        if allocSize <= eSize {
          PadAligns(e, alignment);
          break;
        }
        n := Load32(mem, n + 4);
        k := k + 1;
      }
    }

    /** kern_physmem_alloc. */
    method Alloc(size: u32, alignment: u32, flags: u32) returns (retaddr: u32)
      requires Valid() && size + HEADER + alignment < TWO32
      modifies this, mem, freeList
      ensures St() == AllocResult(old(St()), size, alignment, ZeroFlag(flags)).0
      ensures retaddr == AllocResult(old(St()), size, alignment, ZeroFlag(flags)).1
      ensures Valid() && magicFailures == old(magicFailures)
    {
      hide Inv, AllocAt, Pad, FirstFit;
      ghost var h := St();
      InvFree(h);
      ghost var k := FirstFit(h, 0, size, alignment);
      var n, allocStart, allocSize := FindFit(size, alignment);
      assert St() == h;
      retaddr := 0;
      if n != 0 {
        AllocSettles(h, k, size, alignment, ZeroFlag(flags));
        Take(n, allocStart, allocSize, size, alignment, ZeroFlag(flags), k);
        retaddr := allocStart;
      }
    }

    /** The rest of kern_physmem_alloc, once entry `k`, whose node is at `n`, has been chosen. */
    method Take(n: int, allocStart: u32, allocSize: u32, size: u32, alignment: u32, zero: bool, ghost k: int)
      requires Valid() && 0 <= k < |free| && free[k] in blocks && Fits(St(), k, size, alignment) && n == free[k] + NODE
      requires allocStart == PayloadOf(free[k], alignment) && allocSize == Needed(free[k], size, alignment)
      modifies this, mem, freeList
      ensures Inv(old(St())) && St() == AllocAt(old(St()), k, size, alignment, zero)
      ensures magicFailures == old(magicFailures)
    {
      hide Inv, Deleted, WriteHeader, Get32, Trim, BlocksOk;
      ghost var h := St();
      AllocStages(h, k, size, alignment, zero);
      WalkStep(h, k);
      DeleteReady(h, k);
      var eStart := Load32(mem, n - NODE + START);
      var eSize := Load32(mem, n - NODE + SIZE);
      freeList.Delete(mem, n);
      free := Without(free, k);
      blocks := blocks[eStart := blocks[eStart].(use := Hole)];
      assert St() == TakeFree(h, k);
      eSize := Shorten(eStart, eSize, allocSize);
      ghost var h2 := St();
      InvBlocks(h2);
      assert BlockOk(h2, eStart);
      if zero {
        Bzero(mem, eStart, eSize);
      }
      assert St() == Cleared(h2, eStart, zero);
      StampHeader(allocStart as int - HEADER, eStart, eSize, false);
      blocks := blocks[eStart := blocks[eStart].(use := Live(allocStart, size))];
    }

    /** The fragmenting step: give back what the request leaves over, when that is worth having. */
    method Shorten(eStart: u32, eSize: u32, allocSize: u32) returns (kept: u32)
      requires Inv(St()) && HoleAt(St(), eStart) && blocks[eStart].size == eSize && HEADER <= allocSize <= eSize
      modifies mem, freeList, this`free, this`blocks
      ensures St() == Trim(old(St()), eStart, allocSize)
      ensures eStart in blocks && kept == blocks[eStart].size
    {
      hide Inv, GiveFree;
      ghost var h := St();
      TrimEffect(h, eStart, allocSize);
      kept := eSize;
      if eSize - allocSize > MINIMUM_ALLOCATION + HEADER {
        blocks := SplitHole(h, eStart, allocSize).blocks;
        assert St() == SplitHole(h, eStart, allocSize);
        SplitHoleKeeps(h, eStart, allocSize);
        InvBlocks(St());
        assert BlockOk(St(), eStart as int + allocSize);
        AddToFreeListLocked(eStart as int + allocSize, eSize - allocSize);
        kept := allocSize;
      }
    }

    /** kern_physmem_free. */
    method Free(addr: u32)
      requires Valid() && Allocated(St(), addr)
      modifies this, mem, freeList
      ensures Inv(old(St())) && St() == FreeAt(old(St()), addr)
      ensures Valid() && magicFailures == old(magicFailures)
    {
      hide Inv, MagicOk, Get32, GiveFree, FreePlace;
      ghost var h := St();
      ghost var s := OwnerOf(h, addr);
      var e := addr as int - HEADER;
      MagicHolds(h);
      FreeEffect(h, addr);
      ReleasedKeeps(h, s);
      FreeHeader(h, addr);
      MagicCheck(e);
      var start := Load32(mem, e + START);
      var size := Load32(mem, e + SIZE);
      var n := FindPlace(start);
      blocks := blocks[s := blocks[s].(use := Hole)];
      GiveBack(start, size, n, FreePlace(h, 0, s));
    }

    /** The search of kern_physmem_free: the first entry that starts above `start`. */
    method FindPlace(start: u32) returns (n: int)
      requires Valid()
      modifies this`magicFailures
      ensures magicFailures == old(magicFailures)
      ensures match FreePlace(St(), 0, start) case Ahead(k) => n == free[k] + NODE && n != 0 case _ => n == 0
    {
      hide Inv, Get32, Magic, MagicOk, Allocated, Linked, FreeListed, FreePlace;
      ghost var h := St();
      ghost var k := 0;
      WalkStart(h);
      MagicHolds(h);
      n := freeList.head;
      while n != 0
        invariant k <= |h.free| && n == After(NodesOf(h.free), k - 1)
        invariant FreePlace(h, 0, start) == FreePlace(h, k, start)
        invariant n == 0 ==> k == |h.free|
        invariant magicFailures == old(magicFailures) && St() == h
        decreases |h.free| - k
      {
        WalkStep(h, k);
        FreePlaceStep(h, k, start);
        var ee := n - NODE;
        MagicCheck(ee);
        var eeStart := Load32(mem, ee + START);
        if eeStart > start { break; }
        n := Load32(mem, n + 4);
        k := k + 1;
      }
    }

    /** The end of kern_physmem_free: a fresh header at the block's true start, linked in before `n` or at the head. */
    method GiveBack(start: u32, size: u32, n: int, ghost p: Place)
      requires Inv(St()) && HoleAt(St(), start) && blocks[start].size == size && PlaceOk(St(), p) && !p.AtTail?
      requires n == if p.Ahead? then free[p.k] + NODE else 0
      requires n != 0 <==> p.Ahead?
      modifies mem, freeList, this`free, this`blocks
      ensures St() == GiveFree(old(St()), start, p)
    {
      hide Inv, WriteHeader, HeadAdded, AddedBefore, Linked, Touches;
      ghost var h := St();
      InvBlocks(h);
      assert BlockOk(h, start);
      StampKeeps(h, start);
      StampHeader(start, start, size, true);
      ghost var h1 := St();
      assert h1 == Stamp(h, start);
      LinkReady(h1, start, p);
      if n == 0 {
        freeList.AddHead(mem, start as int + NODE);
      } else {
        freeList.AddBefore(mem, n, start as int + NODE);
      }
      free := Inserted(free, Index(p, |free|), start);
      blocks := blocks[start := blocks[start].(use := HeapInvariant.Free)];
    }

    /** kern_physmem_add_range. */
    method AddRange(start: u32, end: u32, flags: u32)
      requires Valid() && bootstrap.Length == BOOTSTRAP_REGIONS
      requires TakesRange(St(), flags) ==> start + HEADER <= end && RangeOk(St(), start, end)
      modifies this, mem, freeList, bootstrap
      ensures Inv(old(St())) && St() == Apply(old(St()), PhysMem.AddRange(start, end, flags))
      ensures Valid() && magicFailures == old(magicFailures)
      ensures old(entries) < BOOTSTRAP_REGIONS ==>
        entries == old(entries) + 1 && bootstrap[old(entries)] == BootRange(start, end, flags)
    {
      hide Inv, GiveFree;
      ghost var h := St();
      ApplySettles(h, PhysMem.AddRange(start, end, flags));
      if entries >= BOOTSTRAP_REGIONS { return; }
      bootstrap[entries] := BootRange(start, end, flags);
      if flags == FLAG_NORMAL_SRAM {
        ExtendedKeeps(h, start, end);
        ranges := ranges + [Range(start, end)];
        blocks := blocks[start as int := Block(end - start, Hole)];
        assert St() == Extended(h, start, end);
        AddToFreeListLocked(start, end - start);
      }
      entries := entries + 1;
    }
  }
}
