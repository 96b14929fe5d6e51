/** Flash resource paks: the tool that prints them, make_entry.c, and the parser in the kernel, flash_resource.c. */
module FlashPak {
  import opened Word32
  import opened Memory

  const ENTRY_MAGIC: u32 := 0x0509_1979
  const HEADER_SIZE: nat := 32
  const PAK_ALIGNMENT: u32 := 32
  const LABEL_SIZE: nat := 16

  type Bytes = seq<u8>

  // ----- Alignment: align_uint32 of the tool and align_paddr_t of the kernel are the same sum -----

  function AlignUp(val: u32, align: u32): u32
    requires align > 0
  {
    Wrap(val as int + (align - val % align))
  }

  lemma AlignUpValue(val: u32, align: u32)
    requires 0 < align && val as int + align < TWO32
    ensures AlignUp(val, align) == val as int + (align - val % align)
  {
  }

  lemma WrapSmall(x: int)
    requires 0 <= x < TWO32
    ensures Wrap(x) == x
  {
  }

  /** Without overflow it is the next multiple of the unit strictly above: an aligned value moves up a whole unit. */
  lemma AlignUpIsNext(val: u32, align: u32)
    requires 0 < align && val as int + align < TWO32
    ensures AlignUp(val, align) % align == 0 && val < AlignUp(val, align) <= val + align
  {
    AlignedUp(val, align);
    AlignUpValue(val, align);
  }

  // ----- What the tool is given, and the sizes it computes -----

  datatype Entry = Entry(kind: u32, name: Bytes, payload: Bytes)

  /** A label is a C string, and header, label, payload and both paddings fit in 32 bits. */
  ghost predicate Buildable(p: Entry) {
    0 !in p.name && HEADER_SIZE + |p.name| + |p.payload| + 2 * PAK_ALIGNMENT < TWO32
  }

  /** calculate_header_size, calculate_payload_size and calculate_buffer_size. */
  function HeaderBytes(nameLen: nat): u32 {
    AlignUp(Wrap(HEADER_SIZE + nameLen), PAK_ALIGNMENT)
  }

  function PayloadBytes(payloadLen: nat): u32 {
    AlignUp(Wrap(payloadLen), PAK_ALIGNMENT)
  }

  function BufferBytes(payloadLen: nat, nameLen: nat): u32 {
    AlignUp(Wrap(HeaderBytes(nameLen) as int + payloadLen), PAK_ALIGNMENT)
  }

  /** The total computed for the header's length field is what the two writes add up to. */
  lemma SizesAgree(p: Entry)
    requires Buildable(p)
    ensures BufferBytes(|p.payload|, |p.name|) == HeaderBytes(|p.name|) as int + PayloadBytes(|p.payload|)
    ensures HeaderBytes(|p.name|) % 32 == 0 && PayloadBytes(|p.payload|) % 32 == 0
    ensures HEADER_SIZE + |p.name| < HeaderBytes(|p.name|) && |p.payload| < PayloadBytes(|p.payload|)
  {
    hide Wrap, AlignUp;
    var n, len := HEADER_SIZE + |p.name|, |p.payload|;
    WrapSmall(n);
    WrapSmall(len);
    AlignUpIsNext(n, PAK_ALIGNMENT);
    AlignUpIsNext(len, PAK_ALIGNMENT);
    AlignUpValue(len, PAK_ALIGNMENT);
    var h: int := HeaderBytes(|p.name|);
    WrapSmall(h + len);
    AlignUpValue(h + len, PAK_ALIGNMENT);
    assert (h + len) % 32 == len % 32;
  }

  /** `b` is the pak of `p`: the header words, the label, the payload from the first padding on, and zeros between. */
  ghost predicate IsPak(b: Bytes, p: Entry) {
    var n, h := |p.name|, HeaderBytes(|p.name|) as int;
    && |b| == h + PayloadBytes(|p.payload|) && HEADER_SIZE + n <= h && h + |p.payload| <= |b|
    && Get32(b, 0) == ENTRY_MAGIC && Get32(b, 4) == 0 && Get32(b, 8) == p.kind && Get32(b, 12) == |b|
    && Get32(b, 16) == PAK_ALIGNMENT && Get32(b, 20) == n && Get32(b, 24) == |p.payload| && Get32(b, 28) == 0
    && b[HEADER_SIZE..HEADER_SIZE + n] == p.name && b[h..h + |p.payload|] == p.payload
    && forall i :: HEADER_SIZE + n <= i < h || h + |p.payload| <= i < |b| ==> b[i] == 0
  }

  // ----- The tool -----

  /** align_uint32. */
  method AlignUint32(val: u32, align: u32) returns (v: u32)
    requires align > 0
    ensures v == AlignUp(val, align)
  {
    v := Wrap(val as int + (align - val % align));
  }

  ghost predicate HeaderWords(b: Bytes, kind: u32, nameLen: int, payloadLength: u32, length: u32) {
    && HEADER_SIZE <= |b|
    && Get32(b, 0) == ENTRY_MAGIC && Get32(b, 4) == 0 && Get32(b, 8) == kind && Get32(b, 12) == length
    && Get32(b, 16) == PAK_ALIGNMENT && Get32(b, 20) == nameLen && Get32(b, 24) == payloadLength && Get32(b, 28) == 0
  }

  /** populate_header_buf. */
  method PopulateHeaderBuf(kind: u32, name: Bytes, payloadLength: u32, length: u32) returns (buf: array<u8>)
    requires HEADER_SIZE + |name| + PAK_ALIGNMENT < TWO32
    ensures fresh(buf) && buf.Length == HeaderBytes(|name|) && HEADER_SIZE + |name| < buf.Length
    ensures HeaderWords(buf[..], kind, |name|, payloadLength, length)
    ensures buf[HEADER_SIZE..HEADER_SIZE + |name|] == name
    ensures forall i :: HEADER_SIZE + |name| <= i < buf.Length ==> buf[i] == 0
  {
    hide Get32;
    AlignUpIsNext(HEADER_SIZE + |name|, PAK_ALIGNMENT);
    var hdrLen := AlignUint32(Wrap(HEADER_SIZE + |name|), PAK_ALIGNMENT);
    buf := new u8[hdrLen](_ => 0);
    PutWords(buf, kind, |name|, payloadLength, length);
    ghost var words := buf[..];
    var p, i := HEADER_SIZE, 0;
    while i < |name|
      invariant 0 <= i <= |name|
      invariant buf[..p] == words[..p]
      invariant forall k :: 0 <= k < i ==> buf[p + k] == name[k]
      invariant forall k :: p + i <= k < buf.Length ==> buf[k] == 0
    {
      buf[p + i] := name[i];
      i := i + 1;
    }
    WordsKept(words, buf[..], kind, |name|, payloadLength, length);
  }

  /** The eight header words, through a pointer that moves over the buffer. */
  method PutWords(buf: array<u8>, kind: u32, nameLen: u32, payloadLength: u32, length: u32)
    requires HEADER_SIZE <= buf.Length
    modifies buf
    ensures HeaderWords(buf[..], kind, nameLen, payloadLength, length)
    ensures forall i :: HEADER_SIZE <= i < buf.Length ==> buf[i] == old(buf[i])
  {
    hide Get32, Put32;
    var p := 0;
    Store32(buf, p, ENTRY_MAGIC); p := p + 4;
    Store32(buf, p, 0); p := p + 4;
    Store32(buf, p, kind); p := p + 4;
    Store32(buf, p, length); p := p + 4;
    Store32(buf, p, PAK_ALIGNMENT); p := p + 4;
    Store32(buf, p, nameLen); p := p + 4;
    Store32(buf, p, payloadLength); p := p + 4;
    Store32(buf, p, 0);
    ghost var b := buf[..];
    assert forall i :: HEADER_SIZE <= i < buf.Length ==> b[i] == old(buf[i]);
  }

  lemma WordAt(b: Bytes, c: Bytes, at: nat, shift: nat)
    requires at + 4 <= |c| && shift + |c| <= |b| && b[shift..shift + |c|] == c
    ensures Get32(b, shift + at) == Get32(c, at)
  {
    SliceOfSlice(b, shift, |c|, at, at + 4);
    GetAgrees(c, at, b, shift + at);
  }

  lemma WordsKept(b: Bytes, c: Bytes, kind: u32, nameLen: int, payloadLength: u32, length: u32)
    requires HeaderWords(b, kind, nameLen, payloadLength, length) && HEADER_SIZE <= |c|
    requires c[..HEADER_SIZE] == b[..HEADER_SIZE]
    ensures HeaderWords(c, kind, nameLen, payloadLength, length)
  {
    hide Get32;
    var w := b[..HEADER_SIZE];
    assert b[0..0 + |w|] == w && c[0..0 + |w|] == w;
    forall k: nat | k + 4 <= HEADER_SIZE ensures Get32(c, k) == Get32(b, k) {
      WordAt(b, w, k, 0);
      WordAt(c, w, k, 0);
    }
  }

  /** main, between reading the payload and closing the file: what is written. */
  method MakePak(p: Entry) returns (file: Bytes)
    requires Buildable(p)
    ensures IsPak(file, p)
  {
    hide Get32;
    SizesAgree(p);
    var payloadBuf := AlignUint32(Wrap(|p.payload|), PAK_ALIGNMENT);
    var size := AlignUint32(Wrap(HEADER_SIZE + |p.name|), PAK_ALIGNMENT);
    size := AlignUint32(Wrap(size as int + |p.payload|), PAK_ALIGNMENT);
    var hdr := PopulateHeaderBuf(p.kind, p.name, |p.payload|, size);
    var padding := seq(payloadBuf - |p.payload|, _ => 0);
    file := hdr[..] + p.payload + padding;
    assert file[..HEADER_SIZE] == hdr[..HEADER_SIZE];
    WordsKept(hdr[..], file, p.kind, |p.name|, |p.payload|, size);
    assert file[HEADER_SIZE..HEADER_SIZE + |p.name|] == p.name;
  }

  // ----- The parser -----

  datatype PakHeader = PakHeader(magic: u32, checksum: u32, kind: u32, length: u32, alignment: u32, namelength: u32,
                                 payloadLength: u32, rsv0: u32)

  datatype Pak = Pak(hdr: PakHeader, payloadStart: u32, payloadSize: u32)

  predicate MagicAt(m: Mem, start: int)
    requires 0 <= start && start + 4 <= |m|
  {
    Get32(m, start) == ENTRY_MAGIC
  }

  function Shorter(a: nat, b: nat): nat {
    if a < b then a else b
  }

  /** What the parser may read: the magic word, and behind a good one the header and the label it will copy. */
  ghost predicate Readable(m: Mem, start: int, labelSize: nat) {
    && 0 <= start && start + 4 <= |m| && labelSize > 0
    && (MagicAt(m, start) ==>
          && start + HEADER_SIZE <= |m| && Get32(m, start + 16) > 0
          && start + HEADER_SIZE + Shorter(Get32(m, start + 20), labelSize - 1) <= |m|)
  }

  function HeaderAt(m: Mem, start: int): PakHeader
    requires 0 <= start && start + HEADER_SIZE <= |m|
  {
    PakHeader(Get32(m, start), Get32(m, start + 4), Get32(m, start + 8), Get32(m, start + 12), Get32(m, start + 16),
              Get32(m, start + 20), Get32(m, start + 24), Get32(m, start + 28))
  }

  function ParsedAt(m: Mem, start: int): Pak
    requires 0 <= start && start + HEADER_SIZE <= |m| && Get32(m, start + 16) > 0
  {
    var hdr := HeaderAt(m, start);
    Pak(hdr, AlignUp(Wrap(start + HEADER_SIZE + hdr.namelength), hdr.alignment), hdr.payloadLength)
  }

  /** A buffer after kern_strlcpyn of the `n` bytes at `src`: as many as fit, a NUL, and the rest as it was. */
  ghost predicate CopiedTo(was: Bytes, now: Bytes, m: Mem, src: int, n: nat) {
    0 < |was| == |now| && 0 <= src && var k := Shorter(n, |was| - 1);
    && 0 <= src && src + k <= |m|
    && now[..k] == m[src..src + k] && now[k] == 0 && now[k + 1..] == was[k + 1..]
  }

  /** kern_strlcpyn, with `srcLen` the length of the source. */
  method Strlcpyn(dst: array<u8>, mem: array<u8>, src: int, srcLen: nat) returns (sl: nat)
    requires dst != mem && dst.Length > 0 && 0 <= src && src + Shorter(srcLen, dst.Length - 1) <= mem.Length
    modifies dst
    ensures sl == srcLen && CopiedTo(old(dst[..]), dst[..], mem[..], src, srcLen)
  {
    var i: nat, left: nat := 0, srcLen;
    sl := 0;
    while left != 0
      invariant left + sl == srcLen && i == Shorter(sl, dst.Length - 1)
      invariant dst[..i] == mem[src..src + i] && dst[i..] == old(dst[i..])
      invariant mem[..] == old(mem[..])
      decreases left
    {
      if i + 1 < dst.Length {
        dst[i] := mem[src + sl];
        i := i + 1;
      }
      sl := sl + 1;
      left := left - 1;
    }
    dst[i] := 0;
  }

  /** flash_resource_check_pak: a header without the magic leaves `pak` as it was. */
  method CheckPak(mem: array<u8>, start: u32, pak0: Pak, name: array<u8>) returns (ok: bool, pak: Pak)
    requires name != mem && name.Length > 0 && mem.Length <= TWO32 && Readable(mem[..], start, name.Length)
    modifies name
    ensures ok == MagicAt(mem[..], start)
    ensures ok ==> pak == ParsedAt(mem[..], start)
    ensures ok ==>
      CopiedTo(old(name[..]), name[..], mem[..], start as int + HEADER_SIZE, Get32(mem[..], start as int + 20))
    ensures !ok ==> pak == pak0 && name[..] == old(name[..])
  {
    hide Get32, AlignUp;
    pak := pak0;
    var s: int := start;
    var magic := Load32(mem, s);
    if magic != ENTRY_MAGIC { return false, pak; }
    s := s + 4;
    var checksum := Load32(mem, s); s := s + 4;
    var kind := Load32(mem, s); s := s + 4;
    var length := Load32(mem, s); s := s + 4;
    var alignment := Load32(mem, s); s := s + 4;
    var namelength := Load32(mem, s); s := s + 4;
    var payloadLength := Load32(mem, s); s := s + 4;
    var rsv0 := Load32(mem, s); s := s + 4;
    var _ := Strlcpyn(name, mem, s, namelength);
    var hdr := PakHeader(magic, checksum, kind, length, alignment, namelength, payloadLength, rsv0);
    pak := Pak(hdr, AlignUp(Wrap(start as int + HEADER_SIZE + namelength), alignment), payloadLength);
    ok := true;
  }

  // ----- Round trip -----

  /** Memory holds the pak of `p` at `start`. */
  ghost predicate PakIn(m: Mem, start: int, p: Entry) {
    0 <= start && start + PakBytes(p) <= |m| && IsPak(m[start..start + PakBytes(p)], p)
  }

  function PakBytes(p: Entry): nat {
    HeaderBytes(|p.name|) as int + PayloadBytes(|p.payload|)
  }

  lemma HeaderFields(m: Mem, start: int, p: Entry)
    requires PakIn(m, start, p)
    ensures start + HEADER_SIZE + |p.name| <= |m| && |p.payload| < TWO32 && |p.name| < TWO32 && PakBytes(p) < TWO32
    ensures HeaderAt(m, start) ==
      PakHeader(ENTRY_MAGIC, 0, p.kind, PakBytes(p), PAK_ALIGNMENT, |p.name|, |p.payload|, 0)
  {
    hide Get32;
    var b := m[start..start + PakBytes(p)];
    forall at: nat | at + 4 <= HEADER_SIZE ensures Get32(m, start + at) == Get32(b, at) {
      WordAt(m, b, at, start);
    }
    assert Get32(m, start + 0) == ENTRY_MAGIC;
  }

  /**
   * Parsing what the tool wrote recovers the fields, and the payload begins where the parser says it does
   * exactly when the pak lies on a 32-byte boundary: the tool aligns relative to the pak, the parser absolutely.
   */
  lemma RoundTrip(m: Mem, start: int, p: Entry)
    requires PakIn(m, start, p) && Buildable(p) && start + HEADER_SIZE + |p.name| + PAK_ALIGNMENT < TWO32
    ensures Readable(m, start, LABEL_SIZE) && MagicAt(m, start)
    ensures var pak := ParsedAt(m, start);
      && pak.hdr == PakHeader(ENTRY_MAGIC, 0, p.kind, PakBytes(p), PAK_ALIGNMENT, |p.name|, |p.payload|, 0)
      && pak.payloadSize == |p.payload|
      && (pak.payloadStart == start + HeaderBytes(|p.name|) <==> start % 32 == 0)
      && (start % 32 == 0 ==> pak.payloadStart as int + pak.payloadSize <= |m|
                              && m[pak.payloadStart..pak.payloadStart as int + pak.payloadSize] == p.payload)
    ensures start + HEADER_SIZE + |p.name| <= |m| && m[start + HEADER_SIZE..start + HEADER_SIZE + |p.name|] == p.name
  {
    hide Get32, AlignUp, Wrap;
    HeaderFields(m, start, p);
    SizesAgree(p);
    WrapSmall(HEADER_SIZE + |p.name|);
    WrapSmall(start + HEADER_SIZE + |p.name|);
    AlignShift(start, HEADER_SIZE + |p.name|);
    PakParts(m, start, p);
    assert ParsedAt(m, start).hdr == HeaderAt(m, start);
  }

  lemma PakParts(m: Mem, start: int, p: Entry)
    requires PakIn(m, start, p)
    ensures var h := start + HeaderBytes(|p.name|); h + |p.payload| <= |m| && m[h..h + |p.payload|] == p.payload
    ensures start + HEADER_SIZE + |p.name| <= |m| && m[start + HEADER_SIZE..start + HEADER_SIZE + |p.name|] == p.name
  {
    hide Get32, AlignUp, Wrap;
    var h := HeaderBytes(|p.name|) as int;
    SliceOfSlice(m, start, PakBytes(p), h, h + |p.payload|);
    SliceOfSlice(m, start, PakBytes(p), HEADER_SIZE, HEADER_SIZE + |p.name|);
  }

  lemma AlignShift(start: nat, x: nat)
    requires start + x + 32 < TWO32
    ensures AlignUp(start + x, 32) == start + AlignUp(x, 32) <==> start % 32 == 0
  {
    hide AlignUp;
    AlignUpValue(start + x, 32);
    AlignUpValue(x, 32);
    ModShift(start, x);
  }

  lemma ModShift(a: nat, x: nat)
    ensures (a + x) % 32 == x % 32 <==> a % 32 == 0
  {
    var q, r := a / 32, x / 32;
    assert a + x == 32 * (q + r) + (a % 32 + x % 32);
  }

  /** The first four bytes of a pak as they lie in the file. */
  lemma FirstBytes(b: Bytes, p: Entry)
    requires IsPak(b, p)
    ensures b[..4] == [0x79, 0x19, 0x09, 0x05]
  {
    FourBytes(b);
  }

  lemma FourBytes(b: Bytes)
    requires 4 <= |b| && Get32(b, 0) == ENTRY_MAGIC
    ensures b[..4] == [0x79, 0x19, 0x09, 0x05]
  {
    assert GetBytes(b, 3, 1) == b[3] + GetBytes(b, 4, 0) * 0x100;
    assert GetBytes(b, 2, 2) == b[2] + GetBytes(b, 3, 1) * 0x100;
    assert GetBytes(b, 1, 3) == b[1] + GetBytes(b, 2, 2) * 0x100;
    assert GetBytes(b, 0, 4) == b[0] + GetBytes(b, 1, 3) * 0x100;
  }
}
