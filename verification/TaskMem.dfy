/** The memory a task owns: struct task_mem of task_mem.c, and the allocation of a user task's memory. */
module TaskMem {
  import opened Word32
  import opened HeapInvariant
  import opened HeapOps
  import opened PhysMem
  import opened PhysMemCode
  import K = Kernel

  type Regions = K.Regions

  const TEXT := 0
  const KERN_STACK := 1
  const USER_STACK := 2
  const USER_HEAP := 3
  const USER_BSS := 4
  const USER_DATA := 5
  const USER_RODATA := 6
  const USER_GOT := 7
  const REGIONS: nat := K.REGIONS

  const NOTHING: Regions := K.Regions.Regions({}, [0, 0, 0, 0, 0, 0, 0, 0], [0, 0, 0, 0, 0, 0, 0, 0])

  predicate WellFormed(r: Regions) {
    |r.addr| == |r.size| == REGIONS && forall n :: n in r.dynamic ==> n < REGIONS
  }

  function Assigned(r: Regions, id: nat, start: u32, size: u32, isDynamic: bool): Regions
    requires WellFormed(r) && id < REGIONS
  {
    K.Regions.Regions(if isDynamic then r.dynamic + {id} else r.dynamic - {id}, r.addr[id := start], r.size[id := size])
  }

  // ----- Giving a task's memory back -----

  /** The calls the loop of kern_task_mem_cleanup makes from region `i` on. */
  function FreeOps(r: Regions, i: nat): (ops: seq<Op>)
    requires WellFormed(r) && i <= REGIONS
    ensures forall j :: 0 <= j < |ops| ==> ops[j].Free?
    decreases REGIONS - i
  {
    if i == REGIONS then []
    else if i in r.dynamic then [Op.Free(r.addr[i])] + FreeOps(r, i + 1)
    else FreeOps(r, i + 1)
  }

  /** From region `i` on, each dynamic region is an allocation, and no two are the same one. */
  ghost predicate OwnsFrom(h: Heap, r: Regions, i: nat) {
    && WellFormed(r)
    && (forall j :: i <= j < REGIONS && j in r.dynamic ==> Allocated(h, r.addr[j]))
    && (forall j, k :: i <= j < k < REGIONS && j in r.dynamic && k in r.dynamic ==> r.addr[j] != r.addr[k])
  }

  predicate Releases(r: Regions, i: nat, x: int)
    requires WellFormed(r)
  {
    exists j :: i <= j < REGIONS && j in r.dynamic && r.addr[j] == x
  }

  /** Freeing an allocation ends that allocation and no other. */
  lemma FreeOne(h: Heap, a: int)
    requires Settled(h) && Allocated(h, a)
    ensures Settled(FreeAt(h, a))
    ensures forall x :: Allocated(FreeAt(h, a), x) <==> Allocated(h, x) && x != a
  {
    hide Inv, FreeAt, Allocated, PayloadsKept;
    ApplySettles(h, Op.Free(a));
    forall x ensures Allocated(FreeAt(h, a), x) <==> Allocated(h, x) && x != a {
      if Allocated(h, x) && x != a { FreeClient(h, a, x); StillAllocated(h, FreeAt(h, a), x); }
      if Allocated(FreeAt(h, a), x) { NotFreed(h, a, x); }
    }
  }

  lemma NotFreed(h: Heap, a: int, x: int)
    requires Settled(h) && Allocated(h, a) && Settled(FreeAt(h, a)) && Allocated(FreeAt(h, a), x)
    ensures Allocated(h, x) && x != a
  {
    hide Inv, FreeAt, PayloadsKept, OwnerOf;
    FreeEffect(h, a);
    var t := OwnerOf(FreeAt(h, a), x);
    assert h.blocks[t] == FreeAt(h, a).blocks[t];
    OwnerFound(h, t);
  }

  /** The cleanup loop is allowed to make every call it makes, and afterwards exactly its regions are gone. */
  lemma {:induction false} CleanupRun(h: Heap, r: Regions, i: nat)
    requires Settled(h) && i <= REGIONS && OwnsFrom(h, r, i)
    ensures RunAllowed(h, FreeOps(r, i)) && Settled(Run(h, FreeOps(r, i)))
    ensures forall x :: Allocated(Run(h, FreeOps(r, i)), x) <==> Allocated(h, x) && !Releases(r, i, x)
    decreases REGIONS - i
  {
    hide Inv, Allocated, FreeAt;
    if i < REGIONS {
      if i in r.dynamic {
        var a := r.addr[i];
        FreeOne(h, a);
        var h1 := FreeAt(h, a);
        CleanupRun(h1, r, i + 1);
        FreeFirst(h, r, i);
      } else {
        CleanupRun(h, r, i + 1);
      }
    }
  }

  lemma FreeFirst(h: Heap, r: Regions, i: nat)
    requires Settled(h) && i < REGIONS && WellFormed(r) && i in r.dynamic && Allocated(h, r.addr[i])
    requires RunAllowed(FreeAt(h, r.addr[i]), FreeOps(r, i + 1))
    ensures RunAllowed(h, FreeOps(r, i)) && Run(h, FreeOps(r, i)) == Run(FreeAt(h, r.addr[i]), FreeOps(r, i + 1))
  {
    hide Inv, Allocated, FreeAt;
    var ops := FreeOps(r, i);
    assert ops[0] == Op.Free(r.addr[i]) && ops[1..] == FreeOps(r, i + 1);
    assert Apply(h, ops[0]) == FreeAt(h, r.addr[i]);
  }

  /** Cleaning up does not disturb a byte of any allocation that is not its own. */
  lemma CleanupSpares(h: Heap, r: Regions, x: int)
    requires Settled(h) && OwnsFrom(h, r, 0) && Allocated(h, x) && !Releases(r, 0, x)
    ensures RunAllowed(h, FreeOps(r, 0)) && Settled(Run(h, FreeOps(r, 0))) && SameClient(h, Run(h, FreeOps(r, 0)), x)
  {
    hide Inv, Allocated, SameClient;
    CleanupRun(h, r, 0);
    FreeOpsOwn(r, 0, x);
    RunKeepsClient(h, FreeOps(r, 0), x);
  }

  lemma {:induction false} FreeOpsOwn(r: Regions, i: nat, x: int)
    requires WellFormed(r) && i <= REGIONS && !Releases(r, i, x)
    ensures forall j :: 0 <= j < |FreeOps(r, i)| ==> SpareClient(FreeOps(r, i)[j], x)
    decreases REGIONS - i
  {
    if i < REGIONS { FreeOpsOwn(r, i + 1, x); }
  }

  // ----- The same, as the scheduler sees it -----

  /** Every region of task `id` from the `n`th on, freed as the scheduler's model frees them. */
  function FreeRegions(k: K.Kernel, id: int, n: nat): K.Kernel
    requires id in k.tasks && WellFormed(k.tasks[id].regions) && n <= REGIONS
    decreases REGIONS - n
  {
    if n == REGIONS then k else FreeRegions(K.FreeRegion(k, id, n), id, n + 1)
  }

  ghost predicate HeapMatches(k: K.Kernel, h: Heap) {
    forall x :: x in k.heap <==> Allocated(h, x)
  }

  /** The scheduler's set of live addresses stays the allocator's through a cleanup, and no free is a bad one. */
  lemma {:induction false} CleanupMatches(k: K.Kernel, id: int, h: Heap, n: nat)
    requires id in k.tasks && Settled(h) && HeapMatches(k, h) && n <= REGIONS && OwnsFrom(h, k.tasks[id].regions, n)
    ensures RunAllowed(h, FreeOps(k.tasks[id].regions, n))
    ensures HeapMatches(FreeRegions(k, id, n), Run(h, FreeOps(k.tasks[id].regions, n)))
    ensures FreeRegions(k, id, n).badFrees == k.badFrees
    decreases REGIONS - n
  {
    hide Inv, Allocated, FreeAt;
    var r := k.tasks[id].regions;
    if n < REGIONS {
      var k1 := K.FreeRegion(k, id, n);
      if n in r.dynamic {
        FreeOne(h, r.addr[n]);
        CleanupMatches(k1, id, FreeAt(h, r.addr[n]), n + 1);
        FreeFirst(h, r, n);
      } else {
        CleanupMatches(k1, id, h, n + 1);
      }
    }
  }

  // ----- The structure, updated in place -----

  class TaskMemory {
    const addr: array<u32>
    const size: array<u32>
    var dynamic: set<nat>   // the bits set in dynamic_flags

    ghost function Contents(): Regions
      reads this, addr, size
    {
      K.Regions.Regions(dynamic, addr[..], size[..])
    }

    ghost predicate Valid()
      reads this, addr, size
    {
      addr != size && WellFormed(Contents())
    }

    /** A structure with kern_task_mem_init done. */
    constructor ()
      ensures Valid() && Contents() == NOTHING && fresh(addr) && fresh(size)
    {
      addr := new u32[8](_ => 0);
      size := new u32[8](_ => 0);
      dynamic := {};
    }

    /** kern_task_mem_set. */
    method Set(id: nat, start: u32, length: u32, isDynamic: bool)
      requires Valid() && id < REGIONS
      modifies this, addr, size
      ensures Valid() && Contents() == Assigned(old(Contents()), id, start, length, isDynamic)
    {
      addr[id] := start;
      size[id] := length;
      if isDynamic { dynamic := dynamic + {id}; } else { dynamic := dynamic - {id}; }
    }

    /** kern_task_mem_cleanup: each dynamic region goes back to the allocator, once. */
    method Cleanup(pm: Allocator)
      requires Valid() && pm.Valid() && OwnsFrom(pm.St(), Contents(), 0)
      modifies pm, pm.mem, pm.freeList
      ensures RunAllowed(old(pm.St()), FreeOps(old(Contents()), 0))
      ensures pm.Valid() && pm.St() == Run(old(pm.St()), FreeOps(old(Contents()), 0))
      ensures pm.magicFailures == old(pm.magicFailures)
      ensures Valid() && Contents() == old(Contents())
    {
      hide Inv, Allocated, FreeAt, Run, RunAllowed;
      ghost var r, h := Contents(), pm.St();
      CleanupRun(h, r, 0);
      var i := 0;
      while i < REGIONS
        invariant 0 <= i <= REGIONS && Contents() == r
        invariant pm.Valid() && pm.magicFailures == old(pm.magicFailures)
        invariant OwnsFrom(pm.St(), r, i) && RunAllowed(pm.St(), FreeOps(r, i))
        invariant Run(pm.St(), FreeOps(r, i)) == Run(h, FreeOps(r, 0))
      {
        ghost var h1 := pm.St();
        if i in dynamic {
          FreeOne(h1, r.addr[i]);
          CleanupRun(FreeAt(h1, r.addr[i]), r, i + 1);
          FreeFirst(h1, r, i);
          pm.Free(addr[i]);
        }
        i := i + 1;
      }
      RunNothing(pm.St(), r);
    }
  }

  lemma RunNothing(h: Heap, r: Regions)
    requires WellFormed(r)
    ensures RunAllowed(h, FreeOps(r, REGIONS)) && Run(h, FreeOps(r, REGIONS)) == h
  {
  }

  /** kern_task_mem_transfer: the destination takes over everything and the source owns nothing. */
  method Transfer(dst: TaskMemory, src: TaskMemory)
    requires dst.Valid() && src.Valid()
    requires dst != src && {dst.addr, dst.size} !! {src.addr, src.size}
    modifies dst, dst.addr, dst.size, src, src.addr, src.size
    ensures dst.Valid() && dst.Contents() == old(src.Contents())
    ensures src.Valid() && src.Contents() == NOTHING
  {
    forall i | 0 <= i < REGIONS { dst.addr[i] := src.addr[i]; }
    forall i | 0 <= i < REGIONS { dst.size[i] := src.size[i]; }
    dst.dynamic := src.dynamic;
    forall i | 0 <= i < REGIONS { src.addr[i] := 0; }
    forall i | 0 <= i < REGIONS { src.size[i] := 0; }
    src.dynamic := {};
    assert dst.addr[..] == old(src.addr[..]) && dst.size[..] == old(src.size[..]);
  }

  /** Cleaning up a structure that has been transferred from frees nothing, so nothing is freed twice. */
  lemma NothingToFree(i: nat)
    requires i <= REGIONS
    ensures FreeOps(NOTHING, i) == []
    decreases REGIONS - i
  {
    if i < REGIONS { NothingToFree(i + 1); }
  }
}
