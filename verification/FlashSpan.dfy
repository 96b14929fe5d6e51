/** Walking the paks of a flash resource span: flash_resource_span_init and flash_resource_lookup. */
module FlashSpan {
  import opened Word32
  import opened Memory
  import opened Sequences
  import opened FlashPak
  import opened FlashWalk

  // ----- C strings -----

  /** The bytes before the first NUL. */
  function CString(s: Bytes): Bytes {
    s[..IndexOf(s, 0)]
  }

  function Clip(s: Bytes, n: nat): Bytes {
    if |s| <= n then s else s[..n]
  }

  /** kern_strncmp: zero exactly when the strings agree in their first `len` characters. */
  method Strncmp(s1: array<u8>, s2: Bytes, len: nat) returns (r: int)
    requires 0 in s1[..] && 0 in s2
    ensures r == 0 <==> Clip(CString(s1[..]), len) == Clip(CString(s2), len)
  {
    hide CString, Clip;
    ghost var a := s1[..];
    var i := 0;
    while i < len
      invariant i <= len && Agree(a, s2, i)
    {
      NulBeyond(a, i);
      NulBeyond(s2, i);
      var u1, u2 := s1[i], s2[i];
      if u1 != u2 {
        DifferAt(a, s2, i, len);
        return u1 as int - u2;
      }
      if u1 == 0 {
        AgreeToNul(a, s2, i);
        return 0;
      }
      i := i + 1;
    }
    AgreeSoFar(a, s2, len);
    r := 0;
  }

  /** The first `i` characters are the same and none is NUL. */
  ghost predicate Agree(a: Bytes, b: Bytes, i: nat) {
    i <= |a| && i <= |b| && forall j :: 0 <= j < i ==> a[j] == b[j] && a[j] != 0
  }

  lemma NulBeyond(s: Bytes, i: nat)
    requires 0 in s && i <= |s| && forall j :: 0 <= j < i ==> s[j] != 0
    ensures i <= IndexOf(s, 0) < |s|
  {
  }

  lemma AgreeToNul(a: Bytes, b: Bytes, i: nat)
    requires 0 in a && 0 in b && Agree(a, b, i) && i < |a| && i < |b| && a[i] == b[i] == 0
    ensures CString(a) == CString(b)
  {
    NulBeyond(a, i);
    NulBeyond(b, i);
    IndexOfAtMost(a, 0, i);
    IndexOfAtMost(b, 0, i);
  }

  lemma AgreeSoFar(a: Bytes, b: Bytes, len: nat)
    requires 0 in a && 0 in b && Agree(a, b, len)
    ensures Clip(CString(a), len) == Clip(CString(b), len)
  {
    NulBeyond(a, len);
    NulBeyond(b, len);
    assert Clip(CString(a), len) == a[..len] && Clip(CString(b), len) == b[..len];
  }

  lemma DifferAt(a: Bytes, b: Bytes, i: nat, len: nat)
    requires 0 in a && 0 in b && i < len && i <= IndexOf(a, 0) < |a| && i <= IndexOf(b, 0) < |b| && a[i] != b[i]
    ensures Clip(CString(a), len) != Clip(CString(b), len)
  {
    var x, y := Clip(CString(a), len), Clip(CString(b), len);
    if a[i] != 0 && b[i] != 0 {
      assert IndexOf(a, 0) != i && IndexOf(b, 0) != i;
      assert x[i] == a[i] && y[i] == b[i];
    } else if a[i] == 0 {
      IndexOfAtMost(a, 0, i);
      assert |x| == i && IndexOf(b, 0) != i;
    } else {
      IndexOfAtMost(b, 0, i);
      assert |y| == i && IndexOf(a, 0) != i;
    }
  }

  // ----- What a lookup is meant to find -----

  /** The 15 characters of a label that the walk keeps. */
  function Truncated(p: Entry): Bytes {
    p.name[..Shorter(|p.name|, LABEL_SIZE - 1)]
  }

  predicate Matches(p: Entry, want: Bytes) {
    want <= Truncated(p)
  }

  /** The first entry whose truncated label begins with `want`; `|paks|` if there is none. */
  function FirstMatch(paks: seq<Entry>, want: Bytes): (k: nat)
    ensures k <= |paks| && (forall j :: 0 <= j < k ==> !Matches(paks[j], want))
    ensures k < |paks| ==> Matches(paks[k], want)
  {
    if paks == [] || Matches(paks[0], want) then 0 else 1 + FirstMatch(paks[1..], want)
  }

  /** Exactly the requests of up to 15 characters that the label begins with. */
  lemma MatchesExactly(p: Entry, want: Bytes)
    ensures Matches(p, want) <==> |want| <= 15 && want <= p.name
  {
    if want <= p.name && |want| <= 15 { assert want == p.name[..|want|] == Truncated(p)[..|want|]; }
  }

  /** A request of 16 or more characters is never found, whatever the labels. */
  lemma {:induction false} LongRequestFails(paks: seq<Entry>, want: Bytes)
    requires |want| >= 16
    ensures FirstMatch(paks, want) == |paks|
  {
    if paks != [] { LongRequestFails(paks[1..], want); }
  }

  // ----- Paks one after another in memory -----

  /** From `start` on memory holds the paks, and behind the last one a word that is not the magic. */
  ghost predicate Chain(m: Mem, start: int, paks: seq<Entry>)
    decreases |paks|
  {
    if paks == [] then
      0 <= start && start + 4 <= |m| && !MagicAt(m, start)
    else
      Buildable(paks[0]) && PakIn(m, start, paks[0]) && Chain(m, start + PakBytes(paks[0]), paks[1..])
  }

  /** The files one after another. */
  function Joined(files: seq<Bytes>): Bytes {
    if files == [] then [] else files[0] + Joined(files[1..])
  }

  /** The tool's files, put one after another with a word that is not the magic behind them, are a chain. */
  lemma {:induction false} FilesChain(m: Mem, start: int, paks: seq<Entry>, files: seq<Bytes>)
    requires |files| == |paks| && forall i :: 0 <= i < |paks| ==> Buildable(paks[i]) && IsPak(files[i], paks[i])
    requires var end := start + |Joined(files)|;
      0 <= start && end + 4 <= |m| && m[start..end] == Joined(files) && !MagicAt(m, end)
    ensures Chain(m, start, paks)
    decreases |paks|
  {
    hide IsPak, Get32, MagicAt, HeaderBytes, FlashPak.PayloadBytes, Buildable;
    if paks != [] {
      var all, n := Joined(files), |files[0]|;
      PakLength(files[0], paks[0]);
      SliceOfSlice(m, start, |all|, 0, n);
      SliceOfSlice(m, start, |all|, n, |all|);
      assert all[..n] == files[0] && all[n..] == Joined(files[1..]);
      assert m[start..start + n] == files[0];
      assert m[start + n..start + n + |Joined(files[1..])|] == Joined(files[1..]);
      FilesChain(m, start + n, paks[1..], files[1..]);
    }
  }

  lemma PakLength(b: Bytes, p: Entry)
    requires IsPak(b, p)
    ensures |b| == PakBytes(p)
  {
    hide Get32;
  }

  function StartOf(start: int, paks: seq<Entry>, k: nat): int
    requires k <= |paks|
    decreases k
  {
    if k == 0 then start else StartOf(start, paks, k - 1) + PakBytes(paks[k - 1])
  }

  /** The entries the walk gets to see: it stops after one that reaches beyond the end of the span. */
  function Seen(start: int, paks: seq<Entry>, end: int): (n: nat)
    ensures n <= |paks|
    decreases |paks|
  {
    if paks == [] then 0
    else if start + PakBytes(paks[0]) > end then 1
    else 1 + Seen(start + PakBytes(paks[0]), paks[1..], end)
  }

  /** When the paks end inside the span it sees them all. */
  lemma {:induction false} SeesAll(start: int, paks: seq<Entry>, end: int)
    requires StartOf(start, paks, |paks|) <= end
    ensures Seen(start, paks, end) == |paks|
    decreases |paks|
  {
    if paks != [] {
      StartOfTail(start, paks, |paks|);
      StartOfMono(start + PakBytes(paks[0]), paks[1..], |paks| - 1);
      SeesAll(start + PakBytes(paks[0]), paks[1..], end);
    }
  }

  /** Exactly: the first, and each that does not start beyond the end; one that starts at the end is still seen. */
  lemma {:induction false} SeenExactly(start: int, paks: seq<Entry>, end: int, k: nat)
    requires k < |paks|
    ensures k < Seen(start, paks, end) <==> k == 0 || StartOf(start, paks, k) <= end
    decreases k
  {
    hide PakBytes;
    if k > 0 {
      var next := start + PakBytes(paks[0]);
      StartOfTail(start, paks, k);
      StartOfMono(next, paks[1..], k - 1);
      SeenExactly(next, paks[1..], end, k - 1);
    }
  }

  lemma {:induction false} StartOfTail(start: int, paks: seq<Entry>, k: nat)
    requires 0 < k <= |paks|
    ensures StartOf(start, paks, k) == StartOf(start + PakBytes(paks[0]), paks[1..], k - 1)
  {
    if k > 1 { StartOfTail(start, paks, k - 1); }
  }

  lemma {:induction false} StartOfMono(start: int, paks: seq<Entry>, k: nat)
    requires k <= |paks|
    ensures start <= StartOf(start, paks, k)
  {
    if k > 0 { StartOfMono(start, paks, k - 1); }
  }

  /** Every pak of a chain that starts on a 32-byte boundary does too. */
  lemma {:induction false} StartsAligned(start: int, paks: seq<Entry>, k: nat)
    requires k <= |paks| && start % 32 == 0 && forall j :: 0 <= j < k ==> Buildable(paks[j])
    ensures StartOf(start, paks, k) % 32 == 0
  {
    hide PakBytes, HeaderBytes, FlashPak.PayloadBytes;
    if k > 0 {
      StartsAligned(start, paks, k - 1);
      PakAligned(paks[k - 1]);
    }
  }

  lemma PakAligned(p: Entry)
    requires Buildable(p)
    ensures PakBytes(p) % 32 == 0
  {
    hide HeaderBytes, FlashPak.PayloadBytes;
    SizesAgree(p);
  }

  // ----- One step of the walk -----

  /** The state of the walk at entry `k`: it stands at that entry's start and has the rest of the chain ahead. */
  ghost predicate At(m: Mem, start: int, paks: seq<Entry>, k: nat, here: int) {
    k <= |paks| && here == StartOf(start, paks, k) && Chain(m, here, paks[k..])
  }

  lemma StepReady(m: Mem, start: int, paks: seq<Entry>, k: nat, here: int)
    requires At(m, start, paks, k, here) && |m| <= TWO32
    ensures Readable(m, here, LABEL_SIZE) && 0 <= here < TWO32 && (MagicAt(m, here) <==> k < |paks|)
    ensures k < |paks| ==> (Buildable(paks[k]) && PakIn(m, here, paks[k]) && PakBytes(paks[k]) > 0
      && here + HEADER_SIZE + |paks[k].name| + PAK_ALIGNMENT < TWO32
      && ParsedAt(m, here).hdr.length == PakBytes(paks[k])
      && Get32(m, here + 20) == |paks[k].name|
      && here + PakBytes(paks[k]) < TWO32 && At(m, start, paks, k + 1, here + PakBytes(paks[k]))
      && here + HEADER_SIZE + |paks[k].name| <= |m|
      && m[here + HEADER_SIZE..here + HEADER_SIZE + |paks[k].name|] == paks[k].name)
  {
    hide Get32, IsPak, PakBytes, AlignUp;
    if k < |paks| {
      assert paks[k..][0] == paks[k] && paks[k..][1..] == paks[k + 1..];
      PakEnds(m, here, paks[k], paks[k + 1..]);
      RoundTrip(m, here, paks[k]);
      assert HeaderAt(m, here).namelength == Get32(m, here + 20);
    }
  }

  lemma PakEnds(m: Mem, here: int, p: Entry, rest: seq<Entry>)
    requires 0 <= here && Buildable(p) && Chain(m, here + PakBytes(p), rest) && |m| <= TWO32
    ensures PakBytes(p) > 0 && here + PakBytes(p) < TWO32
    ensures here + HEADER_SIZE + |p.name| + PAK_ALIGNMENT < TWO32
  {
    hide HeaderBytes, FlashPak.PayloadBytes, IsPak;
    SizesAgree(p);
    if rest != [] { SizesAgree(rest[0]); }
  }

  /** The step of `Seen` at entry `k`. */
  lemma {:induction false} SeenStep(start: int, paks: seq<Entry>, end: int, k: nat)
    requires k < |paks| && (forall j :: 0 < j <= k ==> StartOf(start, paks, j) <= end)
    ensures k < Seen(start, paks, end)
    ensures StartOf(start, paks, k + 1) > end ==> Seen(start, paks, end) == k + 1
    ensures k + 1 == |paks| ==> Seen(start, paks, end) == k + 1
    decreases k
  {
    hide PakBytes;
    if k > 0 {
      var next := start + PakBytes(paks[0]);
      forall j | 0 <= j <= k ensures StartOf(start, paks, j + 1) == StartOf(next, paks[1..], j) {
        StartOfTail(start, paks, j + 1);
      }
      assert StartOf(start, paks, 1) <= end;
      forall j | 0 < j <= k - 1 ensures StartOf(next, paks[1..], j) <= end {
        assert StartOf(start, paks, j + 1) <= end;
      }
      SeenStep(next, paks[1..], end, k - 1);
    } else {
      assert StartOf(start, paks, 1) == StartOf(start, paks, 0) + PakBytes(paks[0]);
    }
  }

  /** The comparison the lookup makes, on a zeroed buffer the label was copied to, is the match meant. */
  lemma ComparesLabel(was: Bytes, now: Bytes, m: Mem, src: int, p: Entry, want: Bytes)
    requires was == seq(LABEL_SIZE, _ => 0) && CopiedTo(was, now, m, src, |p.name|) && 0 !in p.name && 0 !in want
    requires src + |p.name| <= |m| && m[src..src + |p.name|] == p.name
    ensures 0 in now
    ensures Clip(CString(now), |want|) == Clip(CString(want + [0]), |want|) <==> Matches(p, want)
  {
    var k := Shorter(|p.name|, LABEL_SIZE - 1);
    assert now[..k] == m[src..src + k] == m[src..src + |p.name|][..k] == Truncated(p);
    assert now[k] == 0;
    IndexOfAtMost(now, 0, k);
    NulFree(now, k);
    assert CString(now) == Truncated(p);
    IndexOfAtMost(want + [0], 0, |want|);
    NulFree(want + [0], |want|);
    assert CString(want + [0]) == want;
  }

  lemma NulFree(s: Bytes, k: nat)
    requires k < |s| && s[k] == 0 && 0 !in s[..k]
    ensures IndexOf(s, 0) == k
  {
    IndexOfAtMost(s, 0, k);
    forall j | 0 <= j < k ensures s[j] != 0 {
      assert s[j] == s[..k][j];
    }
    NulBeyond(s, k);
  }

  // ----- The span -----

  /** `pak` is what the parser makes of entry `k`. */
  ghost predicate IsEntry(m: Mem, start: int, paks: seq<Entry>, k: nat, pak: Pak) {
    k < |paks| && var s := StartOf(start, paks, k);
    0 <= s && s + HEADER_SIZE <= |m| && Get32(m, s + 16) > 0 && pak == ParsedAt(m, s)
  }

  /** The answer of a lookup: the first seen entry whose truncated label begins with the request, or none. */
  ghost predicate Answers(m: Mem, start: int, paks: seq<Entry>, end: int, want: Bytes, ok: bool, pak: Pak) {
    var n := Seen(start, paks, end);
    var k := FirstMatch(paks[..n], want);
    (ok <==> k < n) && (ok ==> IsEntry(m, start, paks, k, pak))
  }

  lemma AnswerFound(m: Mem, start: int, paks: seq<Entry>, end: int, want: Bytes, k: nat, pak: Pak)
    requires k < Seen(start, paks, end) && Matches(paks[k], want)
    requires forall j :: 0 <= j < k ==> !Matches(paks[j], want)
    requires IsEntry(m, start, paks, k, pak)
    ensures Answers(m, start, paks, end, want, true, pak)
  {
    hide Matches, IsEntry;
    var seen := paks[..Seen(start, paks, end)];
    var i := FirstMatch(seen, want);
    assert seen[k] == paks[k] && (i < |seen| ==> seen[i] == paks[i]);
  }

  lemma AnswerNone(m: Mem, start: int, paks: seq<Entry>, end: int, want: Bytes, pak: Pak)
    requires forall j :: 0 <= j < Seen(start, paks, end) ==> !Matches(paks[j], want)
    ensures Answers(m, start, paks, end, want, false, pak)
  {
    hide Matches, IsEntry;
    var seen := paks[..Seen(start, paks, end)];
    forall i | 0 <= i < |seen| ensures !Matches(seen[i], want) {
      assert seen[i] == paks[i];
    }
  }

  /** The walk has come to entry `k` without leaving the span or meeting the request. */
  ghost predicate Walking(m: Mem, start: int, paks: seq<Entry>, end: int, want: Bytes, k: nat, here: int) {
    && At(m, start, paks, k, here) && 0 <= here < TWO32 && |m| <= TWO32
    && (forall j :: 0 < j <= k ==> StartOf(start, paks, j) <= end)
    && (forall j :: 0 <= j < k ==> !Matches(paks[j], want))
  }

  /** Entry `k` has been parsed, its label copied into a zeroed buffer. */
  ghost predicate Parsed(m: Mem, start: int, paks: seq<Entry>, k: nat, here: int, name: Bytes, pak: Pak) {
    IsEntry(m, start, paks, k, pak) && CopiedTo(seq(LABEL_SIZE, _ => 0), name, m, here + HEADER_SIZE, |paks[k].name|)
  }

  lemma WalkBegins(m: Mem, start: int, paks: seq<Entry>, end: int, want: Bytes)
    requires Chain(m, start, paks) && |m| <= TWO32 && 0 <= start < TWO32
    ensures Walking(m, start, paks, end, want, 0, start) && At(m, start, paks, 0, start)
  {
    hide Chain;
    assert paks[0..] == paks;
  }

  lemma WalkStands(m: Mem, start: int, paks: seq<Entry>, end: int, want: Bytes, k: nat, here: int)
    requires Walking(m, start, paks, end, want, k, here)
    ensures At(m, start, paks, k, here)
  {
  }

  lemma WalkGoesOn(m: Mem, start: int, paks: seq<Entry>, end: int, want: Bytes, k: nat, here: int)
    requires Walking(m, start, paks, end, want, k, here) && k < |paks| && !Matches(paks[k], want)
    requires here + PakBytes(paks[k]) <= end
    ensures Walking(m, start, paks, end, want, k + 1, here + PakBytes(paks[k]))
  {
    hide Matches, Chain, PakIn, PakBytes, IsPak, Get32;
    StepReady(m, start, paks, k, here);
    assert StartOf(start, paks, k + 1) == here + PakBytes(paks[k]);
  }

  lemma WalkLeaves(m: Mem, start: int, paks: seq<Entry>, end: int, want: Bytes, k: nat, here: int, pak: Pak)
    requires Walking(m, start, paks, end, want, k, here) && k < |paks| && !Matches(paks[k], want)
    requires here + PakBytes(paks[k]) > end
    ensures Answers(m, start, paks, end, want, false, pak)
  {
    hide Matches, Chain, PakBytes, Answers;
    SeenStep(start, paks, end, k);
    assert StartOf(start, paks, k + 1) == here + PakBytes(paks[k]);
    AnswerNone(m, start, paks, end, want, pak);
  }

  lemma WalkFinds(m: Mem, start: int, paks: seq<Entry>, end: int, want: Bytes, k: nat, here: int, pak: Pak)
    requires Walking(m, start, paks, end, want, k, here) && k < |paks| && Matches(paks[k], want)
    requires IsEntry(m, start, paks, k, pak)
    ensures Answers(m, start, paks, end, want, true, pak)
  {
    hide Matches, Chain, Answers, IsEntry;
    SeenStep(start, paks, end, k);
    AnswerFound(m, start, paks, end, want, k, pak);
  }

  lemma WalkEnds(m: Mem, start: int, paks: seq<Entry>, end: int, want: Bytes, here: int, pak: Pak)
    requires Walking(m, start, paks, end, want, |paks|, here)
    ensures Answers(m, start, paks, end, want, false, pak)
  {
    hide Matches, Chain, Answers;
    if paks != [] { SeenStep(start, paks, end, |paks| - 1); }
    AnswerNone(m, start, paks, end, want, pak);
  }

  lemma WalkCompares(m: Mem, start: int, paks: seq<Entry>, end: int, want: Bytes, k: nat, here: int, name: Bytes,
          pak: Pak)
    requires Walking(m, start, paks, end, want, k, here) && k < |paks|
    requires Parsed(m, start, paks, k, here, name, pak) && 0 !in want
    ensures 0 in name && (Clip(CString(name), |want|) == Clip(CString(want + [0]), |want|) <==> Matches(paks[k], want))
    ensures pak.hdr.length == PakBytes(paks[k])
  {
    hide Matches, Clip, CString, IsEntry, Chain, CopiedTo;
    CopiedLabel(m, start, paks, k, here);
    ComparesLabel(seq(LABEL_SIZE, _ => 0), name, m, here + HEADER_SIZE, paks[k], want);
    EntryLength(m, start, paks, k, here, pak);
  }

  lemma CopiedLabel(m: Mem, start: int, paks: seq<Entry>, k: nat, here: int)
    requires At(m, start, paks, k, here) && k < |paks| && |m| <= TWO32
    ensures 0 !in paks[k].name && 0 <= here && here + HEADER_SIZE + |paks[k].name| <= |m|
    ensures m[here + HEADER_SIZE..here + HEADER_SIZE + |paks[k].name|] == paks[k].name
  {
    hide Chain, PakIn, IsPak, Get32, PakBytes;
    StepReady(m, start, paks, k, here);
  }

  lemma EntryLength(m: Mem, start: int, paks: seq<Entry>, k: nat, here: int, pak: Pak)
    requires At(m, start, paks, k, here) && k < |paks| && |m| <= TWO32 && IsEntry(m, start, paks, k, pak)
    ensures pak.hdr.length == PakBytes(paks[k])
  {
    hide Chain, PakIn, IsPak, Get32, PakBytes, AlignUp;
    StepReady(m, start, paks, k, here);
  }

  class Span {
    var start: u32
    var end: u32
    var size: u32
    var setup: bool   // FLASH_RESOURCE_SPAN_FLAGS_SETUP

    constructor ()
      ensures !setup
    {
      start, end, size, setup := 0, 0, 0, false;
    }

    method Clear(name: array<u8>)
      requires name.Length == LABEL_SIZE
      modifies name
      ensures name[..] == seq(LABEL_SIZE, _ => 0)
    {
      Bzero(name, 0, LABEL_SIZE);
    }

    /** flash_resource_span_init, on a region where the walk can read what it comes to and ends. */
    method Init(mem: array<u8>, start: u32, size: u32) returns (ok: bool)
      requires mem.Length <= TWO32
      requires !setup ==>
        AllReadable(mem[..], start, Wrap(start as int + size)) && Ends(mem[..], start, Wrap(start as int + size))
      modifies this
      ensures ok == !old(setup) && setup
      ensures ok ==> this.start == start && this.size == size && end == Wrap(start as int + size)
      ensures !ok ==> this.start == old(this.start) && this.size == old(this.size) && end == old(end)
    {
      hide AllReadable, NextStart, MagicWord, Get32, AlignUp, ParsedAt, CopiedTo, Readable;
      if setup { return false; }
      this.start, this.size, end, setup := start, size, Wrap(start as int + size), true;
      var stop := end;
      var name := new u8[LABEL_SIZE];
      Clear(name);
      var here: u32 := start;
      ghost var n: nat :| EndsWithin(mem[..], start, stop, n);
      ReadableOn(mem[..], here, stop);
      var good, pak := CheckPak(mem, here, Pak(PakHeader(0, 0, 0, 0, 0, 0, 0, 0), 0, 0), name);
      if good { ParsedLength(mem[..], here); }
      while good
        invariant AllReadable(mem[..], here, stop) && EndsWithin(mem[..], here, stop, n)
        invariant Readable(mem[..], here, LABEL_SIZE) && good == MagicWord(mem[..], here)
        invariant good ==> pak.hdr.length == LengthAt(mem[..], here)
        modifies name
        decreases n
      {
        ReadableOn(mem[..], here, stop);
        ghost var was := here;
        here := Wrap(here as int + pak.hdr.length);
        if here > stop { break; }
        NextIs(mem[..], was, here);
        n := n - 1;
        Clear(name);
        ReadableOn(mem[..], here, stop);
        good, pak := CheckPak(mem, here, pak, name);
        if good { ParsedLength(mem[..], here); }
      }
      ok := true;
    }

    /** flash_resource_lookup, in a span that holds the chain `paks`. */
    method Lookup(mem: array<u8>, pak0: Pak, want: Bytes, ghost paks: seq<Entry>) returns (ok: bool, pak: Pak)
      requires mem.Length <= TWO32 && 0 !in want && (setup ==> Chain(mem[..], start, paks))
      ensures !setup ==> !ok && pak == pak0
      ensures setup ==> Answers(mem[..], start, paks, end, want, ok, pak)
    {
      hide Walking, Parsed, Matches, Answers, CString, Clip, Chain, At;
      pak := pak0;
      if !setup { return false, pak; }
      ghost var m := mem[..];
      var name := new u8[LABEL_SIZE];
      var here: u32 := start;
      ghost var k := 0;
      WalkBegins(m, start, paks, end, want);
      WalkStands(m, start, paks, end, want, 0, here);
      var good;
      good, pak := CheckNext(mem, here, pak, name, start, paks, k);
      while good
        invariant mem[..] == m && Walking(m, start, paks, end, want, k, here)
        invariant k <= |paks| && (good <==> k < |paks|)
        invariant good ==> Parsed(m, start, paks, k, here, name[..], pak)
        decreases |paks| - k
      {
        WalkCompares(m, start, paks, end, want, k, here, name[..], pak);
        var order := Strncmp(name, want + [0], |want|);
        if order == 0 {
          ParsedEntry(m, start, paks, k, here, name[..], pak);
          WalkFinds(m, start, paks, end, want, k, here, pak);
          return true, pak;
        }
        var next: int := here as int + pak.hdr.length;
        if next > end as int {
          WalkLeaves(m, start, paks, end, want, k, here, pak);
          return false, pak;
        }
        WalkGoesOn(m, start, paks, end, want, k, here);
        here, k := next, k + 1;
        WalkStands(m, start, paks, end, want, k, here);
        good, pak := CheckNext(mem, here, pak, name, start, paks, k);
      }
      WalkEnds(m, start, paks, end, want, here, pak);
      ok := false;
    }

    /** Clear the label buffer and check the pak the walk has come to. */
    method CheckNext(mem: array<u8>, here: u32, pak0: Pak, name: array<u8>,
                     ghost start: int, ghost paks: seq<Entry>, ghost k: nat)
      returns (good: bool, pak: Pak)
      requires name != mem && name.Length == LABEL_SIZE && mem.Length <= TWO32 && At(mem[..], start, paks, k, here)
      modifies name
      ensures k <= |paks| && (good <==> k < |paks|)
      ensures good ==> Parsed(mem[..], start, paks, k, here, name[..], pak)
    {
      hide Get32, Chain, PakIn, HeaderAt, CopiedTo, Matches, AlignUp;
      StepReady(mem[..], start, paks, k, here);
      Clear(name);
      good, pak := CheckPak(mem, here, pak0, name);
    }
  }

  lemma ParsedEntry(m: Mem, start: int, paks: seq<Entry>, k: nat, here: int, name: Bytes, pak: Pak)
    requires Parsed(m, start, paks, k, here, name, pak)
    ensures IsEntry(m, start, paks, k, pak)
  {
  }

  /**
   * In a span that starts on a 32-byte boundary, a successful lookup delimits exactly the payload of the
   * entry it found.
   */
  lemma FoundPayload(m: Mem, start: int, paks: seq<Entry>, end: int, want: Bytes, pak: Pak)
    requires Chain(m, start, paks) && |m| <= TWO32 && start % 32 == 0 && Answers(m, start, paks, end, want, true, pak)
    ensures var k := FirstMatch(paks[..Seen(start, paks, end)], want);
      && k < |paks| && pak.hdr.kind == paks[k].kind && pak.payloadSize == |paks[k].payload|
      && pak.payloadStart as int + pak.payloadSize <= |m|
      && m[pak.payloadStart..pak.payloadStart as int + pak.payloadSize] == paks[k].payload
  {
    hide Get32, IsPak, PakBytes, AlignUp, HeaderBytes, FlashPak.PayloadBytes, Matches;
    var k := FirstMatch(paks[..Seen(start, paks, end)], want);
    ChainAt(m, start, paks, k);
    var here := StartOf(start, paks, k);
    StepReady(m, start, paks, k, here);
    StartsAligned(start, paks, k);
    RoundTrip(m, here, paks[k]);
  }

  lemma {:induction false} ChainAt(m: Mem, start: int, paks: seq<Entry>, k: nat)
    requires Chain(m, start, paks) && k <= |paks|
    ensures At(m, start, paks, k, StartOf(start, paks, k)) && forall j :: 0 <= j < k ==> Buildable(paks[j])
    decreases k
  {
    hide PakBytes, PakIn, Buildable, MagicAt;
    if k == 0 {
      assert paks[0..] == paks;
    } else {
      ChainAt(m, start, paks, k - 1);
      assert paks[k - 1..][0] == paks[k - 1] && paks[k - 1..][1..] == paks[k..];
    }
  }

  /** Over a chain of the tool's paks the walk of the initialisation ends, with every pak readable. */
  lemma ChainWalkEnds(m: Mem, start: int, paks: seq<Entry>, end: int)
    requires Chain(m, start, paks) && |m| <= TWO32
    ensures Ends(m, start, end) && AllReadable(m, start, end)
  {
    hide Chain;
    assert paks[0..] == paks;
    ChainWalk(m, start, paks, end, 0, start);
  }

  lemma {:induction false} ChainWalk(m: Mem, start: int, paks: seq<Entry>, end: int, k: nat, here: int)
    requires At(m, start, paks, k, here) && |m| <= TWO32
    ensures EndsWithin(m, here, end, |paks| - k + 1) && AllReadable(m, here, end)
    decreases |paks| - k
  {
    hide Get32, Chain, PakIn, PakBytes, AlignUp, AllReadable, ParsedAt;
    StepReady(m, start, paks, k, here);
    if k < |paks| {
      ParsedLength(m, here);
      WrapSmall(here + PakBytes(paks[k]));
      ChainWalk(m, start, paks, end, k + 1, here + PakBytes(paks[k]));
    }
    ReadableFrom(m, here, end);
  }
}
