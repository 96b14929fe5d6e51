/**
 * The walk of flash_resource_span_init over arbitrary bytes: from one magic word to the place its recorded length
 * leads to, in 32-bit sums, until a word is not the magic or lies past the end. When does it end?
 */
module FlashWalk {
  import opened Word32
  import opened Memory
  import opened FlashPak

  /** A pak's first word at `s`, with its length field in memory behind it. */
  predicate MagicWord(m: Mem, s: int) {
    0 <= s && s + 16 <= |m| && Get32(m, s) == ENTRY_MAGIC
  }

  function LengthAt(m: Mem, s: int): u32
    requires MagicWord(m, s)
  {
    Get32(m, s + 12)
  }

  /** Where a turn that finds the magic at `s` takes the walk; the sum is a 32-bit one. */
  function NextStart(m: Mem, s: int): u32
    requires MagicWord(m, s)
  {
    Wrap(s + LengthAt(m, s))
  }

  predicate GoesOn(m: Mem, s: int, end: int) {
    MagicWord(m, s) && NextStart(m, s) <= end
  }

  /** The loop ends within `n` turns. */
  predicate EndsWithin(m: Mem, s: int, end: int, n: nat)
    decreases n
  {
    n > 0 && (GoesOn(m, s, end) ==> EndsWithin(m, NextStart(m, s), end, n - 1))
  }

  ghost predicate Ends(m: Mem, s: int, end: int) {
    exists n: nat :: EndsWithin(m, s, end, n)
  }

  /** After `k` turns the loop goes on and stands at `t`. */
  predicate Reaches(m: Mem, s: int, end: int, k: nat, t: int)
    decreases k
  {
    if k == 0 then t == s else GoesOn(m, s, end) && Reaches(m, NextStart(m, s), end, k - 1, t)
  }

  /** The walk comes to some place twice. */
  ghost predicate ComesBack(m: Mem, s: int, end: int) {
    exists i: nat, p: nat, t: int :: p > 0 && Reaches(m, s, end, i, t) && Reaches(m, t, end, p, t)
  }

  /** The walk comes to a magic word, within the span, whose recorded length is zero. */
  ghost predicate MeetsZero(m: Mem, s: int, end: int) {
    exists k: nat, t: int :: Reaches(m, s, end, k, t) && MagicWord(m, t) && LengthAt(m, t) == 0
  }

  /** No recorded length in the span leads past the top of the address space. */
  ghost predicate NoWrap(m: Mem, end: int) {
    forall t :: 0 <= t <= end && MagicWord(m, t) ==> t + LengthAt(m, t) < TWO32
  }

  // ----- A walk that comes back does not end -----

  lemma {:induction false} EndsLater(m: Mem, s: int, end: int, k: nat, t: int, n: nat)
    requires Reaches(m, s, end, k, t) && EndsWithin(m, s, end, n)
    ensures n > k && EndsWithin(m, t, end, n - k)
    decreases k
  {
    if k > 0 { EndsLater(m, NextStart(m, s), end, k - 1, t, n - 1); }
  }

  lemma {:induction false} LoopNeverEnds(m: Mem, t: int, end: int, p: nat, n: nat)
    requires p > 0 && Reaches(m, t, end, p, t)
    ensures !EndsWithin(m, t, end, n)
    decreases n
  {
    if EndsWithin(m, t, end, n) {
      EndsLater(m, t, end, p, t, n);
      LoopNeverEnds(m, t, end, p, n - p);
    }
  }

  // ----- A walk that never comes back ends: there are only so many places -----

  /** The places of the first `n` turns. */
  function Trace(m: Mem, s: int, end: int, n: nat): (q: seq<int>)
    requires !EndsWithin(m, s, end, n)
    ensures |q| == n && forall i :: 0 <= i < n ==> 0 <= q[i] <= end
    decreases n
  {
    if n == 0 then [] else [NextStart(m, s) as int] + Trace(m, NextStart(m, s), end, n - 1)
  }

  lemma {:induction false} TraceReached(m: Mem, s: int, end: int, n: nat, i: nat)
    requires !EndsWithin(m, s, end, n) && i < n
    ensures Reaches(m, s, end, i + 1, Trace(m, s, end, n)[i])
    decreases i
  {
    if i > 0 { TraceReached(m, NextStart(m, s), end, n - 1, i - 1); }
  }

  lemma {:induction false} TraceGoesOn(m: Mem, s: int, end: int, n: nat, i: nat, j: nat)
    requires !EndsWithin(m, s, end, n) && i < j < n
    ensures Reaches(m, Trace(m, s, end, n)[i], end, j - i, Trace(m, s, end, n)[j])
    decreases i
  {
    if i == 0 {
      TraceReached(m, NextStart(m, s), end, n - 1, j - 1);
    } else {
      TraceGoesOn(m, NextStart(m, s), end, n - 1, i - 1, j - 1);
    }
  }

  function Below(top: nat): (r: set<int>)
    ensures |r| == top && forall x :: x in r <==> 0 <= x < top
  {
    if top == 0 then {} else Below(top - 1) + {top - 1}
  }

  /** More places than addresses: two of them are the same. */
  lemma {:induction false} Crowded(q: seq<int>, places: set<int>) returns (i: nat, j: nat)
    requires |q| > |places| && forall k :: 0 <= k < |q| ==> q[k] in places
    ensures i < j < |q| && q[i] == q[j]
    decreases |q|
  {
    var last := |q| - 1;
    if k :| 0 <= k < last && q[k] == q[last] {
      i, j := k, last;
    } else {
      i, j := Crowded(q[..last], places - {q[last]});
    }
  }

  /** Over any bytes at all: the walk ends exactly when it comes to no place twice. */
  lemma EndsUnlessBack(m: Mem, s: int, end: nat)
    ensures Ends(m, s, end) <==> !ComesBack(m, s, end)
  {
    hide MagicWord, NextStart, LengthAt;
    if ComesBack(m, s, end) {
      var i: nat, p: nat, t: int :| p > 0 && Reaches(m, s, end, i, t) && Reaches(m, t, end, p, t);
      forall n: nat ensures !EndsWithin(m, s, end, n) {
        if EndsWithin(m, s, end, n) {
          EndsLater(m, s, end, i, t, n);
          LoopNeverEnds(m, t, end, p, n - i);
        }
      }
    } else if !EndsWithin(m, s, end, end + 2) {
      var i, j := Crowded(Trace(m, s, end, end + 2), Below(end + 1));
      TraceReached(m, s, end, end + 2, i);
      TraceGoesOn(m, s, end, end + 2, i, j);
    }
  }

  // ----- Where no length wraps -----

  lemma NextUp(m: Mem, t: int, end: int)
    requires NoWrap(m, end) && t <= end && MagicWord(m, t)
    ensures NextStart(m, t) == t + LengthAt(m, t)
  {
    hide Get32;
  }

  lemma {:induction false} OnlyUp(m: Mem, s: int, end: int, k: nat, t: int)
    requires NoWrap(m, end) && s <= end && Reaches(m, s, end, k, t)
    ensures s <= t <= end && (k > 0 ==> NextStart(m, s) <= t)
    decreases k
  {
    hide NoWrap, MagicWord, NextStart;
    if k > 0 {
      NextUp(m, s, end);
      OnlyUp(m, NextStart(m, s), end, k - 1, t);
    }
  }

  /**
   * If no length wraps, the walk ends exactly when it meets no length of zero: what somebody who scans the span
   * can see.
   */
  lemma EndsUnlessZero(m: Mem, s: int, end: nat)
    requires NoWrap(m, end) && s <= end
    ensures Ends(m, s, end) <==> !MeetsZero(m, s, end)
  {
    hide NoWrap, MagicWord, NextStart, LengthAt, EndsWithin;
    EndsUnlessBack(m, s, end);
    if ComesBack(m, s, end) {
      var i: nat, p: nat, t: int :| p > 0 && Reaches(m, s, end, i, t) && Reaches(m, t, end, p, t);
      OnlyUp(m, s, end, i, t);
      OnlyUp(m, t, end, p, t);
      NextUp(m, t, end);
    }
    if MeetsZero(m, s, end) {
      var k: nat, t: int :| Reaches(m, s, end, k, t) && MagicWord(m, t) && LengthAt(m, t) == 0;
      OnlyUp(m, s, end, k, t);
      NextUp(m, t, end);
      assert Reaches(m, t, end, 1, t) by { assert Reaches(m, NextStart(m, t), end, 0, t); }
    }
  }

  // ----- What the two conditions keep out -----

  /** `m` with a pak header's magic, length and alignment at `at`. */
  function WithHeader(m: Mem, at: u32, length: u32): (r: Mem)
    requires |m| == TWO32 && at as int + HEADER_SIZE + LABEL_SIZE <= TWO32
    ensures |r| == TWO32 && MagicWord(r, at) && LengthAt(r, at) == length && Readable(r, at, LABEL_SIZE)
    ensures forall y {:trigger Get32(r, y)} ::
      0 <= y && y + 4 <= |m| && (y + 4 <= at || at + 20 <= y) ==> Get32(r, y) == Get32(m, y)
  {
    hide Get32, Put32;
    var m1 := Put32(m, at, ENTRY_MAGIC);
    var m2 := Put32(m1, at as int + 12, length);
    var r := Put32(m2, at as int + 16, PAK_ALIGNMENT);
    assert Get32(r, at as int + 12) == Get32(m2, at as int + 12) && Get32(r, at) == Get32(m2, at) == Get32(m1, at);
    assert forall y {:trigger Get32(r, y)} ::
      0 <= y && y + 4 <= |m| && (y + 4 <= at || at + 20 <= y) ==> Get32(r, y) == Get32(m, y)
    by {
      forall y | 0 <= y && y + 4 <= |m| && (y + 4 <= at || at + 20 <= y) ensures Get32(r, y) == Get32(m, y) {
        assert Get32(r, y) == Get32(m2, y) && Get32(m2, y) == Get32(m1, y);
      }
    }
    r
  }

  const FIRST: u32 := 0x0810_0000
  const SECOND: u32 := 0x0810_0040

  /** One header with length zero. */
  lemma StuckAtZero(m: Mem, end: nat)
    requires |m| == TWO32 && FIRST <= end
    ensures var m' := WithHeader(m, FIRST, 0);
      Readable(m', FIRST, LABEL_SIZE) && MeetsZero(m', FIRST, end) && !Ends(m', FIRST, end)
  {
    hide Get32, WithHeader;
    var m' := WithHeader(m, FIRST, 0);
    assert Reaches(m', FIRST, end, 0, FIRST);
    assert Reaches(m', FIRST, end, 1, FIRST) by { assert Reaches(m', NextStart(m', FIRST), end, 0, FIRST); }
    EndsUnlessBack(m', FIRST, end);
  }

  /** Two headers, neither of length zero, the second leading back to the first over the top of the address space. */
  function Pair(m: Mem): (r: Mem)
    requires |m| == TWO32
    ensures |r| == TWO32 && MagicWord(r, FIRST) && MagicWord(r, SECOND)
    ensures LengthAt(r, FIRST) == 0x40 && LengthAt(r, SECOND) == TWO32 - 0x40
    ensures Readable(r, FIRST, LABEL_SIZE) && Readable(r, SECOND, LABEL_SIZE)
  {
    hide Get32;
    WithHeader(WithHeader(m, FIRST, 0x40), SECOND, TWO32 - 0x40)
  }

  lemma {:induction false} BackAndForth(m: Mem, end: nat, k: nat, t: int)
    requires |m| == TWO32 && (Reaches(Pair(m), FIRST, end, k, t) || Reaches(Pair(m), SECOND, end, k, t))
    ensures t == FIRST || t == SECOND
    decreases k
  {
    hide Get32, Pair;
    if k > 0 { BackAndForth(m, end, k - 1, t); }
  }

  lemma GoesRound(m: Mem, end: nat)
    requires |m| == TWO32 && SECOND <= end
    ensures !NoWrap(Pair(m), end) && !MeetsZero(Pair(m), FIRST, end) && !Ends(Pair(m), FIRST, end)
  {
    hide Get32, Pair;
    var m' := Pair(m);
    assert SECOND + LengthAt(m', SECOND) >= TWO32;
    assert Reaches(m', FIRST, end, 0, FIRST);
    assert Reaches(m', FIRST, end, 2, FIRST) by {
      assert Reaches(m', FIRST, end, 0, FIRST) && Reaches(m', SECOND, end, 1, FIRST);
    }
    EndsUnlessBack(m', FIRST, end);
    forall k: nat, t: int | Reaches(m', FIRST, end, k, t) && MagicWord(m', t) ensures LengthAt(m', t) != 0 {
      BackAndForth(m, end, k, t);
    }
  }

  // ----- What a walk over a readable span needs -----

  /** Whatever the walk comes to can be parsed. */
  ghost predicate AllReadable(m: Mem, s: int, end: int) {
    forall k: nat, t: int :: Reaches(m, s, end, k, t) ==> Readable(m, t, LABEL_SIZE)
  }

  lemma ReadableOn(m: Mem, s: int, end: int)
    requires AllReadable(m, s, end)
    ensures Readable(m, s, LABEL_SIZE) && MagicAt(m, s) == MagicWord(m, s)
    ensures GoesOn(m, s, end) ==> AllReadable(m, NextStart(m, s), end)
  {
    hide Get32, NextStart;
    assert Reaches(m, s, end, 0, s);
    if GoesOn(m, s, end) {
      forall k: nat, t: int | Reaches(m, NextStart(m, s), end, k, t) ensures Readable(m, t, LABEL_SIZE) {
        assert Reaches(m, s, end, k + 1, t);
      }
    }
  }

  lemma ReadableFrom(m: Mem, s: int, end: int)
    requires Readable(m, s, LABEL_SIZE) && (GoesOn(m, s, end) ==> AllReadable(m, NextStart(m, s), end))
    ensures AllReadable(m, s, end)
  {
    hide Get32, NextStart;
    forall k: nat, t: int | Reaches(m, s, end, k, t) ensures Readable(m, t, LABEL_SIZE) {
      if k > 0 { assert Reaches(m, NextStart(m, s), end, k - 1, t); }
    }
  }

  lemma ParsedLength(m: Mem, s: int)
    requires Readable(m, s, LABEL_SIZE) && MagicAt(m, s)
    ensures MagicWord(m, s) && s + HEADER_SIZE <= |m| && Get32(m, s + 16) > 0
    ensures ParsedAt(m, s).hdr.length == LengthAt(m, s)
  {
    hide Get32, AlignUp;
  }

  lemma NextIs(m: Mem, s: int, next: u32)
    requires MagicWord(m, s) && next == Wrap(s + LengthAt(m, s))
    ensures next == NextStart(m, s)
  {
  }
}
