/** The user program loader of user_exec.c: filling a task's segments and relocating its GOT. */
module Loader {
  import opened Word32
  import opened Memory

  /** struct user_exec_program_header: where each segment lies in the image, from its start. */
  datatype Header = Header(
    textOffset: u32, textSize: u32, startOffset: u32, startSize: u32, gotOffset: u32, gotSize: u32,
    bssOffset: u32, bssSize: u32, dataOffset: u32, dataSize: u32, rodataOffset: u32, rodataSize: u32,
    heapSize: u32, stackSize: u32)

  /** struct user_exec_program_addrs: where each segment lies in memory. */
  datatype Addrs = Addrs(text: u32, start: u32, got: u32, bss: u32, data: u32, rodata: u32, heap: u32, stack: u32)

  datatype Segment = Bss | Text | Data | Rodata

  datatype Option<T> = None | Some(value: T)

  function OffsetOf(hdr: Header, g: Segment): u32 {
    match g
    case Bss => hdr.bssOffset
    case Text => hdr.textOffset
    case Data => hdr.dataOffset
    case Rodata => hdr.rodataOffset
  }

  function SizeOf(hdr: Header, g: Segment): u32 {
    match g case Bss => hdr.bssSize case Text => hdr.textSize case Data => hdr.dataSize case Rodata => hdr.rodataSize
  }

  function HomeOf(addrs: Addrs, g: Segment): u32 {
    match g case Bss => addrs.bss case Text => addrs.text case Data => addrs.data case Rodata => addrs.rodata
  }

  /** is_in_range, whose sum is a 32-bit one. */
  predicate IsInRange(val: u32, start: u32, len: u32) {
    val >= start && val < Wrap(start as int + len)
  }

  /** File offset `val` lies in segment `g`. */
  predicate Names(hdr: Header, g: Segment, val: u32) {
    OffsetOf(hdr, g) <= val < OffsetOf(hdr, g) as int + SizeOf(hdr, g)
  }

  /** A segment that runs up to or past the last 32-bit offset is found empty; every other is found as it is. */
  lemma InRangeExact(hdr: Header, g: Segment, val: u32)
    ensures IsInRange(val, OffsetOf(hdr, g), SizeOf(hdr, g)) <==>
      Names(hdr, g, val) && OffsetOf(hdr, g) as int + SizeOf(hdr, g) < TWO32
  {
    var end: int := OffsetOf(hdr, g) as int + SizeOf(hdr, g);
    if end >= TWO32 {
      WrapShift(end - TWO32, 1);
      assert Wrap(end) == end - TWO32;
    }
  }

  /** The order in which the loader tries the segments. */
  function SegmentOf(hdr: Header, val: u32): Option<Segment> {
    if IsInRange(val, hdr.bssOffset, hdr.bssSize) then Some(Bss)
    else if IsInRange(val, hdr.textOffset, hdr.textSize) then Some(Text)
    else if IsInRange(val, hdr.dataOffset, hdr.dataSize) then Some(Data)
    else if IsInRange(val, hdr.rodataOffset, hdr.rodataSize) then Some(Rodata)
    else None
  }

  /** Before segment `g` in that order. */
  predicate Earlier(g: Segment, than: Segment) {
    match than
    case Bss => false
    case Text => g == Bss
    case Data => g == Bss || g == Text
    case Rodata => g != Rodata
  }

  /** Where segments overlap the first of bss, text, data and rodata that holds the offset counts. */
  lemma FirstCounts(hdr: Header, val: u32, g: Segment)
    ensures SegmentOf(hdr, val) == Some(g) <==>
      && Names(hdr, g, val) && OffsetOf(hdr, g) as int + SizeOf(hdr, g) < TWO32
      && forall e :: Earlier(e, g) && Names(hdr, e, val) ==> OffsetOf(hdr, e) as int + SizeOf(hdr, e) >= TWO32
  {
    hide IsInRange;
    InRangeExact(hdr, Bss, val);
    InRangeExact(hdr, Text, val);
    InRangeExact(hdr, Data, val);
    InRangeExact(hdr, Rodata, val);
    assert Earlier(Bss, Text) && Earlier(Bss, Data) && Earlier(Bss, Rodata);
    assert Earlier(Text, Data) && Earlier(Text, Rodata) && Earlier(Data, Rodata);
  }

  function Relocated(hdr: Header, addrs: Addrs, g: Segment, val: u32): u32 {
    Wrap(HomeOf(addrs, g) as int + (val - OffsetOf(hdr, g)))
  }

  /** How many words the GOT loop writes. */
  function GotWords(hdr: Header): nat {
    (hdr.gotSize + 3) / 4
  }

  // ----- Each stage as a function of memory -----

  /** The GOT loop from word `j` on; it stops at the first word that no segment holds. */
  function GotFrom(m: Mem, src: int, hdr: Header, addrs: Addrs, j: nat): (Mem, bool)
    requires 0 <= src && src + 4 * GotWords(hdr) <= |m| && addrs.got as int + 4 * GotWords(hdr) <= |m|
    requires j <= GotWords(hdr)
    decreases GotWords(hdr) - j
  {
    if j == GotWords(hdr) then (m, true) else
      var val := Get32(m, src + 4 * j);
      match SegmentOf(hdr, val)
      case None => (m, false)
      case Some(g) => GotFrom(Put32(m, addrs.got as int + 4 * j, Relocated(hdr, addrs, g, val)), src, hdr, addrs, j + 1)
  }

  /**
   * Every source and destination is in memory, as the loader's pointers rely on, and the GOT's 32-bit
   * index cannot wrap.
   */
  predicate InMemory(n: int, addr: u32, hdr: Header, addrs: Addrs) {
    && 4 * GotWords(hdr) < TWO32
    && addr as int + hdr.dataOffset + hdr.dataSize <= n
    && addr as int + hdr.gotOffset + 4 * GotWords(hdr) <= n
    && addrs.data as int + hdr.dataSize <= n
    && addrs.bss as int + hdr.bssSize <= n
    && addrs.got as int + 4 * GotWords(hdr) <= n
  }

  predicate Separate(a: int, n: int, b: int, k: int) {
    a + n <= b || b + k <= a
  }

  function DataCopied(m: Mem, addr: u32, hdr: Header, addrs: Addrs): (r: Mem)
    requires InMemory(|m|, addr, hdr, addrs)
    ensures |r| == |m|
  {
    var src := addr as int + hdr.dataOffset;
    Put(m, addrs.data, m[src..src + hdr.dataSize])
  }

  /** user_exec_program_setup_segments. */
  function Setup(m: Mem, addr: u32, hdr: Header, addrs: Addrs): (Mem, bool)
    requires InMemory(|m|, addr, hdr, addrs)
  {
    GotFrom(Zeroed(DataCopied(m, addr, hdr, addrs), addrs.bss, hdr.bssSize), addr as int + hdr.gotOffset, hdr, addrs, 0)
  }

  // ----- The code, in place -----

  /** user_exec_program_setup_got_segment. */
  method SetupGot(mem: array<u8>, addr: u32, hdr: Header, addrs: Addrs) returns (ok: bool)
    requires InMemory(mem.Length, addr, hdr, addrs) && mem.Length == TWO32
    modifies mem
    ensures (mem[..], ok) == GotFrom(old(mem[..]), addr as int + hdr.gotOffset, hdr, addrs, 0)
  {
    hide Get32, Put32;
    ghost var m := mem[..];
    ghost var j := 0;
    var s, gotEntry := addr as int + hdr.gotOffset, addrs.got as int;
    var i: u32 := 0;
    while i < hdr.gotSize
      invariant j <= GotWords(hdr) && i == 4 * j
      invariant s == addr as int + hdr.gotOffset + 4 * j && gotEntry == addrs.got as int + 4 * j
      invariant GotFrom(mem[..], addr as int + hdr.gotOffset, hdr, addrs, j)
             == GotFrom(m, addr as int + hdr.gotOffset, hdr, addrs, 0)
    {
      var val := Load32(mem, s);
      if IsInRange(val, hdr.bssOffset, hdr.bssSize) {
        Store32(mem, gotEntry, Wrap(addrs.bss as int + (val - hdr.bssOffset)));
      } else if IsInRange(val, hdr.textOffset, hdr.textSize) {
        Store32(mem, gotEntry, Wrap(addrs.text as int + (val - hdr.textOffset)));
      } else if IsInRange(val, hdr.dataOffset, hdr.dataSize) {
        Store32(mem, gotEntry, Wrap(addrs.data as int + (val - hdr.dataOffset)));
      } else if IsInRange(val, hdr.rodataOffset, hdr.rodataSize) {
        Store32(mem, gotEntry, Wrap(addrs.rodata as int + (val - hdr.rodataOffset)));
      } else {
        return false;
      }
      gotEntry, s, i, j := gotEntry + 4, s + 4, i + 4, j + 1;
    }
    ok := true;
  }

  /** user_exec_program_setup_segments: data, then bss, then the GOT; rodata stays where it is. */
  method SetupSegments(mem: array<u8>, addr: u32, hdr: Header, addrs: Addrs) returns (ok: bool)
    requires InMemory(mem.Length, addr, hdr, addrs) && mem.Length == TWO32
    requires Separate(addrs.data, hdr.dataSize, addr as int + hdr.dataOffset, hdr.dataSize)
    modifies mem
    ensures (mem[..], ok) == Setup(old(mem[..]), addr, hdr, addrs)
  {
    hide GotFrom, Put, Zeroed;
    ghost var m := mem[..];
    var src := addr as int + hdr.dataOffset;
    assert mem[src..src + hdr.dataSize] == m[src..src + hdr.dataSize];
    Memcpy(mem, addrs.data, src, hdr.dataSize);
    assert mem[..] == DataCopied(m, addr, hdr, addrs);
    Bzero(mem, addrs.bss, hdr.bssSize);
    ok := SetupGot(mem, addr, hdr, addrs);
  }

  // ----- What the GOT loop does -----

  /** From word `j` on it leaves every byte outside those words of the GOT alone, whether or not it succeeds. */
  lemma {:induction false} GotStays(m: Mem, src: int, hdr: Header, addrs: Addrs, j: nat)
    requires 0 <= src && src + 4 * GotWords(hdr) <= |m| && addrs.got as int + 4 * GotWords(hdr) <= |m|
    requires j <= GotWords(hdr)
    ensures var (m', _) := GotFrom(m, src, hdr, addrs, j);
      && |m'| == |m|
      && forall x :: 0 <= x < |m| && !(addrs.got as int + 4 * j <= x < addrs.got as int + 4 * GotWords(hdr)) ==>
        m'[x] == m[x]
    decreases GotWords(hdr) - j
  {
    hide Get32;
    if j < GotWords(hdr) {
      var val := Get32(m, src + 4 * j);
      if SegmentOf(hdr, val).Some? {
        var m1 := Put32(m, addrs.got as int + 4 * j, Relocated(hdr, addrs, SegmentOf(hdr, val).value, val));
        GotStays(m1, src, hdr, addrs, j + 1);
      }
    }
  }

  ghost predicate Found(m: Mem, src: int, hdr: Header, j: int)
    requires 0 <= src && 0 <= j < GotWords(hdr) && src + 4 * GotWords(hdr) <= |m|
  {
    SegmentOf(hdr, Get32(m, src + 4 * j)).Some?
  }

  ghost predicate WordRelocated(m: Mem, m': Mem, src: int, hdr: Header, addrs: Addrs, j: int)
    requires 0 <= src && 0 <= j < GotWords(hdr) && src + 4 * GotWords(hdr) <= |m| == |m'|
    requires addrs.got as int + 4 * GotWords(hdr) <= |m|
    requires Found(m, src, hdr, j)
  {
    var val := Get32(m, src + 4 * j);
    Get32(m', addrs.got as int + 4 * j) == Relocated(hdr, addrs, SegmentOf(hdr, val).value, val)
  }

  /** The loop succeeds exactly when every word of the image's GOT is in a segment, and then relocates each of them. */
  lemma {:induction false} GotRelocates(m: Mem, src: int, hdr: Header, addrs: Addrs, j: nat)
    requires 0 <= src && src + 4 * GotWords(hdr) <= |m| && addrs.got as int + 4 * GotWords(hdr) <= |m|
    requires j <= GotWords(hdr) && Separate(src, 4 * GotWords(hdr), addrs.got, 4 * GotWords(hdr))
    ensures var (m', ok) := GotFrom(m, src, hdr, addrs, j);
      && |m'| == |m|
      && (ok <==> forall k :: j <= k < GotWords(hdr) ==> Found(m, src, hdr, k))
      && (ok ==> forall k :: j <= k < GotWords(hdr) ==>
        Found(m, src, hdr, k) && WordRelocated(m, m', src, hdr, addrs, k))
    decreases GotWords(hdr) - j
  {
    hide Get32, SegmentOf, Relocated;
    GotStays(m, src, hdr, addrs, j);
    if j < GotWords(hdr) {
      var val, at := Get32(m, src + 4 * j), addrs.got as int + 4 * j;
      assert Found(m, src, hdr, j) == SegmentOf(hdr, val).Some?;
      if SegmentOf(hdr, val).Some? {
        var m1 := Put32(m, at, Relocated(hdr, addrs, SegmentOf(hdr, val).value, val));
        var (m', ok) := GotFrom(m1, src, hdr, addrs, j + 1);
        GotRelocates(m1, src, hdr, addrs, j + 1);
        GotStays(m1, src, hdr, addrs, j + 1);
        forall k | j <= k < GotWords(hdr) ensures Get32(m1, src + 4 * k) == Get32(m, src + 4 * k) {
        }
        assert m'[at..at + 4] == m1[at..at + 4];
        GetAgrees(m1, at, m', at);
        forall k | j <= k < GotWords(hdr) && ok
          ensures Found(m, src, hdr, k) && WordRelocated(m, m', src, hdr, addrs, k)
        {
          if k > j { assert Found(m1, src, hdr, k) && WordRelocated(m1, m', src, hdr, addrs, k); }
        }
        assert forall k :: j < k < GotWords(hdr) ==> Found(m1, src, hdr, k) == Found(m, src, hdr, k);
      }
    }
  }

  // ----- What a loaded program means -----

  /** The segments of the image do not overlap, and none runs up to the last 32-bit offset. */
  ghost predicate ImageOk(hdr: Header) {
    && (forall g :: OffsetOf(hdr, g) as int + SizeOf(hdr, g) < TWO32)
    && (forall g, g' :: g != g' ==> Separate(OffsetOf(hdr, g), SizeOf(hdr, g), OffsetOf(hdr, g'), SizeOf(hdr, g')))
  }

  /**
   * The image is in place, its text and rodata are used where they lie, and the three destinations
   * overlap neither the image nor each other.
   */
  ghost predicate PlacedOk(n: int, addr: u32, size: u32, hdr: Header, addrs: Addrs) {
    && InMemory(n, addr, hdr, addrs) && addr as int + size <= n <= TWO32
    && hdr.gotOffset as int + 4 * GotWords(hdr) <= size
    && (forall g :: g != Bss ==> OffsetOf(hdr, g) as int + SizeOf(hdr, g) <= size)
    && addrs.text == addr as int + hdr.textOffset && addrs.rodata == addr as int + hdr.rodataOffset
    && var got := 4 * GotWords(hdr);
    && Separate(addr, size, addrs.data, hdr.dataSize) && Separate(addr, size, addrs.bss, hdr.bssSize)
    && Separate(addr, size, addrs.got, got)
    && Separate(addrs.data, hdr.dataSize, addrs.bss, hdr.bssSize) && Separate(addrs.data, hdr.dataSize, addrs.got, got)
    && Separate(addrs.bss, hdr.bssSize, addrs.got, got)
  }

  /** The byte the program expects at file offset `val` of segment `g`: nothing is stored for bss. */
  function ImageByte(m: Mem, addr: u32, g: Segment, val: u32): u8
    requires g == Bss || addr as int + val < |m|
  {
    if g == Bss then 0 else m[addr as int + val]
  }

  /** The three stages leave alone what is not theirs: nothing outside the data, bss and GOT destinations changes. */
  lemma SetupStays(m: Mem, addr: u32, size: u32, hdr: Header, addrs: Addrs, x: int)
    requires PlacedOk(|m|, addr, size, hdr, addrs) && 0 <= x < |m|
    requires Separate(x, 1, addrs.data, hdr.dataSize) && Separate(x, 1, addrs.bss, hdr.bssSize)
    requires Separate(x, 1, addrs.got, 4 * GotWords(hdr))
    ensures |Setup(m, addr, hdr, addrs).0| == |m| && Setup(m, addr, hdr, addrs).0[x] == m[x]
  {
    hide GotFrom;
    var m1 := Zeroed(DataCopied(m, addr, hdr, addrs), addrs.bss, hdr.bssSize);
    GotStays(m1, addr as int + hdr.gotOffset, hdr, addrs, 0);
  }

  /**
   * No stage undoes another: every byte of every segment is afterwards what the program expects, even if
   * a GOT word was bad.
   */
  lemma SegmentsLoaded(m: Mem, addr: u32, size: u32, hdr: Header, addrs: Addrs, g: Segment, val: u32)
    requires PlacedOk(|m|, addr, size, hdr, addrs) && Names(hdr, g, val)
    requires HomeOf(addrs, g) as int + SizeOf(hdr, g) <= |m|
    ensures var m' := Setup(m, addr, hdr, addrs).0; var at := HomeOf(addrs, g) as int + (val - OffsetOf(hdr, g));
      |m'| == |m| && 0 <= at < |m| && (g != Bss ==> addr as int + val < |m|) && m'[at] == ImageByte(m, addr, g, val)
  {
    hide GotFrom, DataCopied, Zeroed;
    var at := HomeOf(addrs, g) as int + (val - OffsetOf(hdr, g));
    var m2 := Zeroed(DataCopied(m, addr, hdr, addrs), addrs.bss, hdr.bssSize);
    GotStays(m2, addr as int + hdr.gotOffset, hdr, addrs, 0);
    assert Setup(m, addr, hdr, addrs).0[at] == m2[at];
    if g == Data {
      DataByte(m, addr, hdr, addrs, val);
    } else if g != Bss {
      StoredInPlace(m, addr, size, hdr, addrs, g, val);
    }
  }

  lemma DataByte(m: Mem, addr: u32, hdr: Header, addrs: Addrs, val: u32)
    requires InMemory(|m|, addr, hdr, addrs) && Names(hdr, Data, val)
    ensures DataCopied(m, addr, hdr, addrs)[addrs.data as int + (val - hdr.dataOffset)] == m[addr as int + val]
  {
    var src := addr as int + hdr.dataOffset;
    assert m[src..src + hdr.dataSize][val - hdr.dataOffset] == m[addr as int + val];
  }

  /** Text and rodata are used where the image has them, which neither copy nor clearing touches. */
  lemma StoredInPlace(m: Mem, addr: u32, size: u32, hdr: Header, addrs: Addrs, g: Segment, val: u32)
    requires PlacedOk(|m|, addr, size, hdr, addrs) && Names(hdr, g, val) && g != Bss && g != Data
    ensures var x := addr as int + val;
      HomeOf(addrs, g) as int + (val - OffsetOf(hdr, g)) == x && x < |m| && x < addr as int + size
      && DataCopied(m, addr, hdr, addrs)[x] == m[x]
  {
  }

  /** What the relocated word `w` must be for the file offset `val`. */
  ghost predicate Preserved(m: Mem, m': Mem, addr: u32, hdr: Header, addrs: Addrs, g: Segment, val: u32, w: u32)
    requires |m'| == |m|
  {
    && Names(hdr, g, val)
    && w == HomeOf(addrs, g) as int + (val - OffsetOf(hdr, g))
    && w < |m| && (g == Bss || addr as int + val < |m|)
    && m'[w] == ImageByte(m, addr, g, val)
  }

  ghost predicate InSomeSegment(m: Mem, addr: u32, hdr: Header, j: int)
    requires 0 <= j && addr as int + hdr.gotOffset + 4 * j + 4 <= |m|
  {
    exists g :: Names(hdr, g, GotOffset(m, addr, hdr, j))
  }

  ghost predicate EntryPreserved(m: Mem, m': Mem, addr: u32, hdr: Header, addrs: Addrs, j: int)
    requires 0 <= j && addr as int + hdr.gotOffset + 4 * j + 4 <= |m| == |m'| && addrs.got as int + 4 * j + 4 <= |m|
  {
    exists g :: Preserved(m, m', addr, hdr, addrs, g, GotOffset(m, addr, hdr, j), GotEntry(m', addrs, j))
  }

  /** With segments that do not overlap, a file offset is in at most one, and the loader finds it. */
  lemma FoundIsNamed(hdr: Header, val: u32)
    requires ImageOk(hdr)
    ensures SegmentOf(hdr, val).Some? <==> exists g :: Names(hdr, g, val)
    ensures SegmentOf(hdr, val).Some? ==> Names(hdr, SegmentOf(hdr, val).value, val)
    ensures forall g, g' :: Names(hdr, g, val) && Names(hdr, g', val) ==> g == g'
  {
    InRangeExact(hdr, Bss, val);
    InRangeExact(hdr, Text, val);
    InRangeExact(hdr, Data, val);
    InRangeExact(hdr, Rodata, val);
    forall g, g' | g != g' ensures !(Names(hdr, g, val) && Names(hdr, g', val)) {
      assert Separate(OffsetOf(hdr, g), SizeOf(hdr, g), OffsetOf(hdr, g'), SizeOf(hdr, g'));
    }
    if g :| Names(hdr, g, val) { assert IsInRange(val, OffsetOf(hdr, g), SizeOf(hdr, g)); }
  }

  /** The stages before the GOT do not change the GOT of the image. */
  lemma GotSourceKept(m: Mem, addr: u32, size: u32, hdr: Header, addrs: Addrs, j: int)
    requires PlacedOk(|m|, addr, size, hdr, addrs) && 0 <= j < GotWords(hdr)
    ensures var at := addr as int + hdr.gotOffset + 4 * j;
      Get32(Zeroed(DataCopied(m, addr, hdr, addrs), addrs.bss, hdr.bssSize), at) == Get32(m, at)
  {
    hide Get32;
    var at := addr as int + hdr.gotOffset + 4 * j;
    var m2 := Zeroed(DataCopied(m, addr, hdr, addrs), addrs.bss, hdr.bssSize);
    assert m2[at..at + 4] == m[at..at + 4];
    GetAgrees(m, at, m2, at);
  }

  /** The file offset the image keeps in word `j` of its GOT, and the address the loader leaves in the task's. */
  function GotOffset(m: Mem, addr: u32, hdr: Header, j: int): u32
    requires 0 <= j && addr as int + hdr.gotOffset + 4 * j + 4 <= |m|
  {
    Get32(m, addr as int + hdr.gotOffset + 4 * j)
  }

  function GotEntry(m: Mem, addrs: Addrs, j: int): u32
    requires 0 <= j && addrs.got as int + 4 * j + 4 <= |m|
  {
    Get32(m, addrs.got as int + 4 * j)
  }

  /**
   * The loader preserves meaning. It succeeds exactly when every file offset in the image's GOT is in some
   * segment; then each entry of the task's GOT points into the one segment its offset named, at the same
   * relative place, where memory holds the byte of the image, or zero in bss.
   */
  lemma SetupPreservesMeaning(m: Mem, addr: u32, size: u32, hdr: Header, addrs: Addrs)
    requires PlacedOk(|m|, addr, size, hdr, addrs) && ImageOk(hdr)
    ensures var (m', ok) := Setup(m, addr, hdr, addrs);
      && |m'| == |m|
      && (ok <==> forall j :: 0 <= j < GotWords(hdr) ==> InSomeSegment(m, addr, hdr, j))
      && (ok ==> forall j :: 0 <= j < GotWords(hdr) ==> EntryPreserved(m, m', addr, hdr, addrs, j))
  {
    hide Get32, GotFrom, SegmentOf, Names, Separate, Zeroed, DataCopied, ImageByte, InSomeSegment, EntryPreserved;
    var src := addr as int + hdr.gotOffset;
    var m2 := Zeroed(DataCopied(m, addr, hdr, addrs), addrs.bss, hdr.bssSize);
    var (m', ok) := Setup(m, addr, hdr, addrs);
    SourceApart(|m|, addr, size, hdr, addrs);
    GotRelocates(m2, src, hdr, addrs, 0);
    forall j | 0 <= j < GotWords(hdr) ensures Found(m2, src, hdr, j) == InSomeSegment(m, addr, hdr, j) {
      FoundInSome(m, addr, size, hdr, addrs, j);
    }
    forall j | ok && 0 <= j < GotWords(hdr) ensures EntryPreserved(m, m', addr, hdr, addrs, j) {
      assert Found(m2, src, hdr, j) && WordRelocated(m2, m', src, hdr, addrs, j);
      GotSourceKept(m, addr, size, hdr, addrs, j);
      WordPreserved(m, addr, size, hdr, addrs, j);
    }
  }

  lemma FoundInSome(m: Mem, addr: u32, size: u32, hdr: Header, addrs: Addrs, j: int)
    requires PlacedOk(|m|, addr, size, hdr, addrs) && ImageOk(hdr) && 0 <= j < GotWords(hdr)
    ensures var m2 := Zeroed(DataCopied(m, addr, hdr, addrs), addrs.bss, hdr.bssSize);
      Found(m2, addr as int + hdr.gotOffset, hdr, j) == InSomeSegment(m, addr, hdr, j)
  {
    hide Get32, SegmentOf, Names, Separate, Zeroed, DataCopied;
    GotSourceKept(m, addr, size, hdr, addrs, j);
    FoundIsNamed(hdr, GotOffset(m, addr, hdr, j));
  }

  lemma SourceApart(n: int, addr: u32, size: u32, hdr: Header, addrs: Addrs)
    requires PlacedOk(n, addr, size, hdr, addrs)
    ensures Separate(addr as int + hdr.gotOffset, 4 * GotWords(hdr), addrs.got, 4 * GotWords(hdr))
  {
  }

  lemma WordPreserved(m: Mem, addr: u32, size: u32, hdr: Header, addrs: Addrs, j: int)
    requires PlacedOk(|m|, addr, size, hdr, addrs) && ImageOk(hdr) && 0 <= j < GotWords(hdr)
    requires |Setup(m, addr, hdr, addrs).0| == |m|
    requires SegmentOf(hdr, GotOffset(m, addr, hdr, j)).Some?
    requires GotEntry(Setup(m, addr, hdr, addrs).0, addrs, j)
          == Relocated(hdr, addrs, SegmentOf(hdr, GotOffset(m, addr, hdr, j)).value, GotOffset(m, addr, hdr, j))
    ensures EntryPreserved(m, Setup(m, addr, hdr, addrs).0, addr, hdr, addrs, j)
  {
    hide Setup, GotOffset, GotEntry, SegmentOf, ImageByte;
    var val := GotOffset(m, addr, hdr, j);
    var g := SegmentOf(hdr, val).value;
    FoundIsNamed(hdr, val);
    SegmentsLoaded(m, addr, size, hdr, addrs, g, val);
    assert Preserved(m, Setup(m, addr, hdr, addrs).0, addr, hdr, addrs, g, val,
      GotEntry(Setup(m, addr, hdr, addrs).0, addrs, j));
  }
}
