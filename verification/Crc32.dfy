/** The checksum of crc32b.c, against the CRC-32 of section 8 of RFC 1952. */
module Crc32 {
  type Byte = bv8
  type Word = bv32

  const POLYNOMIAL: Word := 0xedb8_8320
  const ONES: Word := 0xffff_ffff

  function Plus(x: Word, y: Word): Word { x ^ y }
  function Half(w: Word): Word { w >> 1 }
  predicate Odd(w: Word) { w & 1 == 1 }
  function Wide(b: Byte): Word { b as Word }

  // ----- The reference: RFC 1952, section 8 -----

  /** One turn of the loop that makes an entry of the table. */
  function Shifted(c: Word): Word {
    if Odd(c) then Plus(POLYNOMIAL, Half(c)) else Half(c)
  }

  function Times(c: Word, n: nat): Word
    decreases n
  {
    if n == 0 then c else Times(Shifted(c), n - 1)
  }

  function Table(n: Word): Word {
    Times(n, 8)
  }

  /** The table-driven step for one byte: table[(c ^ byte) & 0xff] ^ (c >> 8). */
  function TableStep(c: Word, b: Byte): Word {
    Plus(Table(Plus(c, Wide(b)) & 0xff), c >> 8)
  }

  function Updated(c: Word, s: seq<Byte>): Word
    decreases |s|
  {
    if s == [] then c else Updated(TableStep(c, s[0]), s[1..])
  }

  function Reference(s: seq<Byte>): Word {
    Plus(Updated(ONES, s), ONES)
  }

  // ----- The kernel's loop -----

  /** The bit the kernel's inner loop tests. */
  predicate Taken(crc: Word, ch: Byte) {
    (Wide(ch) ^ crc) & 1 == 1
  }

  function BitStep(crc: Word, ch: Byte): Word {
    if Taken(crc, ch) then (crc >> 1) ^ POLYNOMIAL else crc >> 1
  }

  function Next(ch: Byte): Byte { ch >> 1 }

  /** What the inner loop makes of `crc` in its last `n` turns. */
  function BitLoop(crc: Word, ch: Byte, n: nat): Word
    decreases n
  {
    if n == 0 then crc else BitLoop(BitStep(crc, ch), Next(ch), n - 1)
  }

  /** kern_crc32b: a bit at a time, eight to a byte, it computes the table-driven value. */
  method Crc32b(s: seq<Byte>) returns (r: Word)
    ensures r == Reference(s)
  {
    hide TableStep, BitLoop, Plus;
    var crc: Word := 0xffff_ffff;
    var i := 0;
    assert s[0..] == s;
    while i < |s|
      invariant 0 <= i <= |s| && Updated(crc, s[i..]) == Updated(ONES, s)
    {
      crc := CrcByte(crc, s[i]);
      assert s[i..][1..] == s[i + 1..];
      i := i + 1;
    }
    Complement(crc);
    r := !crc;
  }

  /** The inner loop of kern_crc32b. */
  method CrcByte(crc0: Word, ch0: Byte) returns (crc: Word)
    ensures crc == TableStep(crc0, ch0)
  {
    hide TableStep, BitStep;
    crc := crc0;
    var ch := ch0;
    var j := 0;
    while j < 8
      invariant 0 <= j <= 8 && BitLoop(crc, ch, 8 - j) == BitLoop(crc0, ch0, 8)
    {
      StepOf(crc, ch);
      var b := ((ch as Word) ^ crc) & 1;
      crc := crc >> 1;
      if b == 1 { crc := crc ^ 0xedb8_8320; }
      ch := ch >> 1;
      j := j + 1;
    }
    ByteStep(crc0, ch0);
  }

  lemma StepOf(crc: Word, ch: Byte)
    ensures BitStep(crc, ch) == if ((ch as Word) ^ crc) & 1 == 1 then (crc >> 1) ^ 0xedb8_8320 else crc >> 1
    ensures Next(ch) == ch >> 1
  {
  }

  lemma Complement(x: Word)
    ensures !x == Plus(x, ONES)
  {
  }

  // ----- Laws of words -----

  lemma PlusLaws(x: Word, y: Word)
    ensures Plus(x, y) == Plus(y, x) && Plus(x, x) == 0 && Plus(x, 0) == x && Plus(Plus(x, y), y) == x
    ensures Plus(x, y) == 0 <==> x == y
  {
  }

  lemma PlusShuffle(a: Word, b: Word, c: Word, d: Word)
    ensures Plus(Plus(a, b), Plus(c, d)) == Plus(Plus(a, c), Plus(b, d))
    ensures Plus(Plus(a, b), c) == Plus(a, Plus(b, c))
  {
  }

  lemma HalfLinear(x: Word, y: Word)
    ensures Half(Plus(x, y)) == Plus(Half(x), Half(y)) && (Odd(Plus(x, y)) <==> Odd(x) != Odd(y))
  {
    assert (x ^ y) & 1 == (x & 1) ^ (y & 1);
    assert (x ^ y) >> 1 == (x >> 1) ^ (y >> 1);
    assert x & 1 == 0 || x & 1 == 1;
    assert y & 1 == 0 || y & 1 == 1;
  }

  // ----- The shift register is linear and invertible -----

  lemma ShiftedLinear(x: Word, y: Word)
    ensures Shifted(Plus(x, y)) == Plus(Shifted(x), Shifted(y))
  {
    hide Plus, Half, Odd;
    HalfLinear(x, y);
    PlusCases(POLYNOMIAL, Half(x), Half(y));
  }

  lemma PlusAssoc(x: Word, y: Word, z: Word)
    ensures Plus(x, Plus(y, z)) == Plus(Plus(x, y), z)
  {
  }

  lemma PlusCases(p: Word, u: Word, v: Word)
    ensures Plus(p, Plus(u, v)) == Plus(Plus(p, u), v) == Plus(u, Plus(p, v))
    ensures Plus(u, v) == Plus(Plus(p, u), Plus(p, v))
  {
    hide Plus;
    PlusAssoc(p, u, v);
    PlusLaws(p, u);
    PlusAssoc(u, p, v);
    PlusAssoc(p, u, Plus(p, v));
    PlusAssoc(Plus(p, u), p, v);
    PlusLaws(u, p);
  }

  lemma ShiftedInjective(x: Word, y: Word)
    requires Shifted(x) == Shifted(y)
    ensures x == y
  {
  }

  lemma ShiftedZero()
    ensures Shifted(0) == 0
  {
  }

  lemma {:induction false} TimesLinear(x: Word, y: Word, n: nat)
    ensures Times(Plus(x, y), n) == Plus(Times(x, n), Times(y, n))
    decreases n
  {
    hide Shifted, Plus;
    if n > 0 {
      ShiftedLinear(x, y);
      TimesLinear(Shifted(x), Shifted(y), n - 1);
    }
  }

  // ----- The bits of a message, in the order they enter the register -----

  function LowBits(w: Word, n: nat): (bits: seq<bool>)
    ensures |bits| == n
    decreases n
  {
    if n == 0 then [] else [Odd(w)] + LowBits(Half(w), n - 1)
  }

  function Bits(s: seq<Byte>): (bits: seq<bool>)
    ensures |bits| == 8 * |s|
  {
    if s == [] then [] else LowBits(Wide(s[0]), 8) + Bits(s[1..])
  }

  function Bit(b: bool): Word {
    if b then 1 else 0
  }

  function Entry(c: Word, b: bool): Word {
    Shifted(Plus(c, Bit(b)))
  }

  /** The register after the bits have entered it one by one. */
  function Entered(c: Word, bits: seq<bool>): Word
    decreases |bits|
  {
    if bits == [] then c else Entered(Entry(c, bits[0]), bits[1..])
  }

  function Dropped(w: Word, n: nat): Word
    decreases n
  {
    if n == 0 then w else Dropped(Half(w), n - 1)
  }

  lemma EvenPart(w: Word)
    ensures Shifted(Plus(w, Bit(Odd(w)))) == Half(w)
  {
  }

  lemma OneBit(c: Word, w: Word)
    ensures Shifted(Plus(c, w)) == Plus(Entry(c, Odd(w)), Half(w))
  {
    hide Shifted, Plus, Half, Odd, Bit;
    var b := Bit(Odd(w));
    PlusShuffle(c, b, w, b);
    PlusLaws(b, b);
    PlusLaws(Plus(c, w), 0);
    ShiftedLinear(Plus(c, b), Plus(w, b));
    EvenPart(w);
  }

  /** Letting the low bits of a word in one by one comes to adding the word at once and letting the register run. */
  lemma {:induction false} EnteredWord(c: Word, w: Word, n: nat)
    ensures Entered(c, LowBits(w, n)) == Plus(Times(Plus(c, w), n), Dropped(w, n))
    decreases n
  {
    hide Shifted, Plus, Half, Odd, Entry;
    if n == 0 {
      PlusLaws(c, w);
    } else {
      var b := LowBits(w, n);
      assert b[0] == Odd(w) && b[1..] == LowBits(Half(w), n - 1);
      OneBit(c, w);
      EnteredWord(Entry(c, Odd(w)), Half(w), n - 1);
    }
  }

  lemma {:induction false} EnteredAppend(c: Word, x: seq<bool>, y: seq<bool>)
    ensures Entered(c, x + y) == Entered(Entered(c, x), y)
    decreases |x|
  {
    hide Entry;
    if x == [] {
      assert x + y == y;
    } else {
      assert (x + y)[0] == x[0] && (x + y)[1..] == x[1..] + y;
      EnteredAppend(Entry(c, x[0]), x[1..], y);
    }
  }

  // ----- Eight bits are one table step -----

  /** A byte is gone after eight halvings. */
  lemma ByteDropped(ch: Byte)
    ensures Dropped(Wide(ch), 8) == 0
  {
    hide Half;
    var w := Wide(ch);
    DropFour(w, 8);
    DropFour(Half(Half(Half(Half(w)))), 4);
    HalvedAway(ch);
  }

  lemma DropFour(w: Word, n: nat)
    requires n >= 4
    ensures Dropped(w, n) == Dropped(Half(Half(Half(Half(w)))), n - 4)
  {
    hide Half;
    assert Dropped(w, n) == Dropped(Half(w), n - 1);
    assert Dropped(Half(w), n - 1) == Dropped(Half(Half(w)), n - 2);
    assert Dropped(Half(Half(w)), n - 2) == Dropped(Half(Half(Half(w))), n - 3);
  }

  lemma HalvedAway(ch: Byte)
    ensures Half(Half(Half(Half(Half(Half(Half(Half(Wide(ch))))))))) == 0
  {
  }

  /** While the low byte is clear the register only shifts. */
  lemma HighBytes(y: Word)
    requires y & 0xff == 0
    ensures Times(y, 8) == y >> 8
  {
    hide Shifted, Half;
    ShiftsOnly(y);
    TimesFour(y, 8);
    TimesFour(y >> 4, 4);
  }

  lemma TimesFour(y: Word, n: nat)
    requires n >= 4
    ensures Times(y, n) == Times(Shifted(Shifted(Shifted(Shifted(y)))), n - 4)
  {
    hide Shifted;
    assert Times(y, n) == Times(Shifted(y), n - 1);
    assert Times(Shifted(y), n - 1) == Times(Shifted(Shifted(y)), n - 2);
    assert Times(Shifted(Shifted(y)), n - 2) == Times(Shifted(Shifted(Shifted(y))), n - 3);
  }

  lemma ShiftsOnly(y: Word)
    requires y & 0xff == 0
    ensures Shifted(Shifted(Shifted(Shifted(y)))) == y >> 4
    ensures Shifted(Shifted(Shifted(Shifted(y >> 4)))) == y >> 8
  {
  }

  lemma SplitWord(x: Word)
    ensures Plus(x & 0xff, x & 0xffff_ff00) == x && (x & 0xffff_ff00) & 0xff == 0
  {
  }

  lemma SameHigh(c: Word, b: Byte)
    ensures (Plus(c, Wide(b)) & 0xffff_ff00) >> 8 == c >> 8
  {
  }

  lemma TableSteps(c: Word, b: Byte)
    ensures Times(Plus(c, Wide(b)), 8) == TableStep(c, b)
  {
    hide Shifted, Times, Plus, Wide;
    var x := Plus(c, Wide(b));
    SplitWord(x);
    SameHigh(c, b);
    TimesLinear(x & 0xff, x & 0xffff_ff00, 8);
    HighBytes(x & 0xffff_ff00);
  }

  lemma StepEnters(crc: Word, ch: Byte)
    ensures BitStep(crc, ch) == Entry(crc, Odd(Wide(ch))) && Wide(Next(ch)) == Half(Wide(ch))
  {
  }

  lemma {:induction false} BitLoopEnters(crc: Word, ch: Byte, n: nat)
    ensures BitLoop(crc, ch, n) == Entered(crc, LowBits(Wide(ch), n))
    decreases n
  {
    hide BitStep, Entry, Odd, Half, Wide, Next;
    if n > 0 {
      var b := LowBits(Wide(ch), n);
      assert b[0] == Odd(Wide(ch)) && b[1..] == LowBits(Half(Wide(ch)), n - 1);
      StepEnters(crc, ch);
      BitLoopEnters(BitStep(crc, ch), Next(ch), n - 1);
    }
  }

  /** The whole byte: eight turns of the kernel's loop are one step of the table-driven one. */
  lemma ByteStep(c: Word, ch: Byte)
    ensures BitLoop(c, ch, 8) == TableStep(c, ch)
    ensures Entered(c, LowBits(Wide(ch), 8)) == TableStep(c, ch)
  {
    hide BitLoop, TableStep, Times, LowBits, Entered, Dropped, Plus, Wide;
    BitLoopEnters(c, ch, 8);
    EnteredWord(c, Wide(ch), 8);
    ByteDropped(ch);
    TableSteps(c, ch);
    PlusLaws(TableStep(c, ch), 0);
  }

  // ----- Every burst of up to 32 bits is detected -----

  lemma {:induction false} ReferenceByBits(c: Word, s: seq<Byte>)
    ensures Updated(c, s) == Entered(c, Bits(s))
    decreases |s|
  {
    hide TableStep, LowBits, Wide;
    if s != [] {
      ByteStep(c, s[0]);
      EnteredAppend(c, LowBits(Wide(s[0]), 8), Bits(s[1..]));
      ReferenceByBits(TableStep(c, s[0]), s[1..]);
    }
  }

  function Difference(x: seq<bool>, y: seq<bool>): (d: seq<bool>)
    requires |x| == |y|
    ensures |d| == |x| && forall i :: 0 <= i < |d| ==> d[i] == (x[i] != y[i])
  {
    if x == [] then [] else [x[0] != y[0]] + Difference(x[1..], y[1..])
  }

  lemma EntryLinear(c: Word, e: Word, x: bool, y: bool)
    ensures Plus(Entry(c, x), Entry(e, y)) == Entry(Plus(c, e), x != y)
  {
    hide Shifted, Plus, Bit;
    PlusShuffle(c, Bit(x), e, Bit(y));
    ShiftedLinear(Plus(c, Bit(x)), Plus(e, Bit(y)));
    BitPlus(x, y);
  }

  lemma BitPlus(x: bool, y: bool)
    ensures Plus(Bit(x), Bit(y)) == Bit(x != y)
  {
  }

  /** Two registers fed different bits differ by what the differing bits alone would make of an empty one. */
  lemma {:induction false} EnteredLinear(c: Word, e: Word, x: seq<bool>, y: seq<bool>)
    requires |x| == |y|
    ensures Plus(Entered(c, x), Entered(e, y)) == Entered(Plus(c, e), Difference(x, y))
    decreases |x|
  {
    hide Entry, Plus;
    if x != [] {
      var d := Difference(x, y);
      assert d[0] == (x[0] != y[0]) && d[1..] == Difference(x[1..], y[1..]);
      EntryLinear(c, e, x[0], y[0]);
      EnteredLinear(Entry(c, x[0]), Entry(e, y[0]), x[1..], y[1..]);
    }
  }

  predicate Quiet(d: seq<bool>) {
    forall i :: 0 <= i < |d| ==> !d[i]
  }

  /** Bits that do not differ leave an empty difference empty and never empty one that is not. */
  lemma {:induction false} QuietKeeps(c: Word, d: seq<bool>)
    requires Quiet(d)
    ensures Entered(c, d) == 0 <==> c == 0
    decreases |d|
  {
    hide Shifted, Plus;
    if d != [] {
      PlusLaws(c, 0);
      assert Entry(c, d[0]) == Shifted(c);
      ShiftedZero();
      if Shifted(c) == 0 { ShiftedInjective(c, 0); }
      QuietKeeps(Shifted(c), d[1..]);
    }
  }

  // A window of bits as one word.

  function Doubled(w: Word, b: bool): Word {
    (w << 1) | (if b then 1 else 0)
  }

  function Window(bits: seq<bool>): Word
    decreases |bits|
  {
    if bits == [] then 0 else Doubled(Window(bits[1..]), bits[0])
  }

  predicate TopClear(w: Word) { w & 0x8000_0000 == 0 }

  /** The `k` top bits of `w` are clear, even as ones come in at the bottom. */
  predicate Room(w: Word, k: nat)
    decreases k
  {
    k == 0 || (TopClear(w) && Room(Doubled(w, true), k - 1))
  }

  predicate Within(x: Word, y: Word) { x & y == x }

  lemma WithinStep(x: Word, y: Word)
    requires Within(x, y)
    ensures (TopClear(y) ==> TopClear(x)) && Within(Doubled(x, true), Doubled(y, true))
  {
  }

  lemma DoubledWithin(w: Word, b: bool)
    ensures Within(Doubled(w, b), Doubled(w, true))
    ensures TopClear(w) ==> Half(Doubled(w, b)) == w && Odd(Doubled(w, b)) == b
  {
  }

  lemma {:induction false} RoomWithin(x: Word, y: Word, k: nat)
    requires Within(x, y) && Room(y, k)
    ensures Room(x, k)
    decreases k
  {
    hide Within, TopClear, Doubled;
    if k > 0 {
      WithinStep(x, y);
      RoomWithin(Doubled(x, true), Doubled(y, true), k - 1);
    }
  }

  lemma RoomFour(w: Word, k: nat)
    requires w & 0xf000_0000 == 0 && Room((w << 4) | 0xf, k)
    ensures Room(w, k + 4)
  {
    hide TopClear, Doubled;
    FourMore(w);
    var w1 := Doubled(w, true);
    var w2 := Doubled(w1, true);
    var w3 := Doubled(w2, true);
    assert Room(w3, k + 1);
    assert Room(w2, k + 2);
    assert Room(w1, k + 3);
  }

  lemma FourMore(w: Word)
    requires w & 0xf000_0000 == 0
    ensures TopClear(w) && TopClear(Doubled(w, true)) && TopClear(Doubled(Doubled(w, true), true))
    ensures TopClear(Doubled(Doubled(Doubled(w, true), true), true))
    ensures Doubled(Doubled(Doubled(Doubled(w, true), true), true), true) == (w << 4) | 0xf
  {
  }

  lemma RoomOfZero()
    ensures Room(0, 32)
  {
    hide Room;
    RoomNone();
    RoomFour(0x0fff_ffff, 0);
    RoomFour(0x00ff_ffff, 4);
    RoomFour(0x000f_ffff, 8);
    RoomFour(0x0000_ffff, 12);
    RoomFour(0x0000_0fff, 16);
    RoomFour(0x0000_00ff, 20);
    RoomFour(0x0000_000f, 24);
    RoomFour(0, 28);
  }

  lemma RoomNone()
    ensures Room(0xffff_ffff, 0)
  {
  }

  /** Up to 32 bits fit in a word: they are its low bits, and nothing is above them. */
  lemma {:induction false} WindowFits(bits: seq<bool>, k: nat)
    requires |bits| + k <= 32
    ensures Room(Window(bits), k)
    ensures LowBits(Window(bits), |bits|) == bits && Dropped(Window(bits), |bits|) == 0
    decreases |bits|
  {
    hide Doubled, TopClear, Half, Odd, Within, Room;
    if bits == [] {
      RoomOfZero();
      RoomLess(0, 32, k);
    } else {
      var w := Window(bits[1..]);
      WindowFits(bits[1..], k + 1);
      RoomTop(w, k);
      DoubledWithin(w, bits[0]);
      RoomWithin(Doubled(w, bits[0]), Doubled(w, true), k);
      assert bits == [bits[0]] + bits[1..];
    }
  }

  lemma RoomTop(w: Word, k: nat)
    requires Room(w, k + 1)
    ensures TopClear(w) && Room(Doubled(w, true), k)
  {
  }

  lemma {:induction false} RoomLess(w: Word, k: nat, j: nat)
    requires Room(w, k) && j <= k
    ensures Room(w, j)
    decreases j
  {
    hide Doubled, TopClear;
    if j > 0 { RoomLess(Doubled(w, true), k - 1, j - 1); }
  }

  lemma {:induction false} TimesZero(c: Word, n: nat)
    requires Times(c, n) == 0
    ensures c == 0
    decreases n
  {
    hide Shifted;
    if n > 0 {
      TimesZero(Shifted(c), n - 1);
      ShiftedZero();
      ShiftedInjective(c, 0);
    }
  }

  /** Bits that all fit in the register and leave it empty were no bits. */
  lemma EmptyWindow(bits: seq<bool>)
    requires |bits| <= 32 && Entered(0, bits) == 0
    ensures Quiet(bits)
  {
    hide Entered, Times, Dropped, Plus, LowBits, Room;
    var w := Window(bits);
    WindowFits(bits, 0);
    EnteredWord(0, w, |bits|);
    PlusLaws(Times(Plus(0, w), |bits|), 0);
    PlusLaws(0, w);
    PlusLaws(w, 0);
    TimesZero(w, |bits|);
    ZeroBits(|bits|);
  }

  lemma {:induction false} ZeroBits(n: nat)
    ensures Quiet(LowBits(0, n))
    decreases n
  {
    if n > 0 {
      assert Half(0) == 0 && !Odd(0);
      ZeroBits(n - 1);
    }
  }

  /** A difference inside some 32-bit window that leaves the register empty is no difference. */
  lemma BurstEmpty(d: seq<bool>, p: nat)
    requires p <= |d| && Entered(0, d) == 0
    requires forall i :: 0 <= i < |d| && !(p <= i < p + 32) ==> !d[i]
    ensures Quiet(d)
  {
    hide Entered;
    var q := if p + 32 <= |d| then p + 32 else |d|;
    var before, window, after := d[..p], d[p..q], d[q..];
    assert d == before + (window + after);
    EnteredAppend(0, before, window + after);
    QuietKeeps(0, before);
    EnteredAppend(0, window, after);
    QuietKeeps(Entered(0, window), after);
    EmptyWindow(window);
    forall i | 0 <= i < |d| ensures !d[i] {
      if p <= i < q { assert d[i] == window[i - p]; }
    }
  }

  lemma ByteBits(a: Byte, b: Byte)
    requires LowBits(Wide(a), 8) == LowBits(Wide(b), 8)
    ensures a == b
  {
    hide LowBits, Wide, Entered, Times, Plus, Dropped;
    EnteredWord(0, Wide(a), 8);
    EnteredWord(0, Wide(b), 8);
    ByteDropped(a);
    ByteDropped(b);
    PlusLaws(Times(Plus(0, Wide(a)), 8), 0);
    PlusLaws(Times(Plus(0, Wide(b)), 8), 0);
    PlusLaws(0, Wide(a));
    PlusLaws(0, Wide(b));
    PlusLaws(Wide(a), 0);
    PlusLaws(Wide(b), 0);
    TimesInjective(Wide(a), Wide(b), 8);
    WideInjective(a, b);
  }

  lemma WideInjective(a: Byte, b: Byte)
    requires Wide(a) == Wide(b)
    ensures a == b
  {
  }

  lemma {:induction false} TimesInjective(x: Word, y: Word, n: nat)
    requires Times(x, n) == Times(y, n)
    ensures x == y
    decreases n
  {
    hide Shifted;
    if n > 0 {
      TimesInjective(Shifted(x), Shifted(y), n - 1);
      ShiftedInjective(x, y);
    }
  }

  lemma {:induction false} BitsInjective(a: seq<Byte>, b: seq<Byte>)
    requires |a| == |b| && Bits(a) == Bits(b)
    ensures a == b
    decreases |a|
  {
    hide LowBits, Wide;
    if a != [] {
      var x, y := LowBits(Wide(a[0]), 8), LowBits(Wide(b[0]), 8);
      assert x == Bits(a)[..8] && y == Bits(b)[..8];
      assert Bits(a[1..]) == Bits(a)[8..] && Bits(b[1..]) == Bits(b)[8..];
      ByteBits(a[0], b[0]);
      BitsInjective(a[1..], b[1..]);
      assert a == [a[0]] + a[1..] && b == [b[0]] + b[1..];
    }
  }

  /**
   * Two messages of one length that differ, and only inside some window of 32 consecutive bits in the
   * order the checksum takes them, have different checksums.
   */
  lemma BurstDetected(a: seq<Byte>, b: seq<Byte>, p: nat)
    requires |a| == |b| && a != b
    requires forall i :: 0 <= i < 8 * |a| && !(p <= i < p + 32) ==> Bits(a)[i] == Bits(b)[i]
    ensures Reference(a) != Reference(b)
  {
    hide Bits, Entered, Updated, Plus;
    if Reference(a) == Reference(b) {
      PlusLaws(Updated(ONES, a), ONES);
      PlusLaws(Updated(ONES, b), ONES);
      ReferenceByBits(ONES, a);
      ReferenceByBits(ONES, b);
      var x, y := Bits(a), Bits(b);
      var d := Difference(x, y);
      EnteredLinear(ONES, ONES, x, y);
      PlusLaws(Updated(ONES, a), Updated(ONES, a));
      PlusLaws(ONES, ONES);
      BurstEmpty(d, if p <= |d| then p else |d|);
      assert forall i :: 0 <= i < |x| ==> !d[i] && x[i] == y[i];
      BitsInjective(a, b);
    }
  }

  // ----- A message followed by its own checksum -----

  function Low(w: Word): Byte { (w & 0xff) as Byte }
  function Upper(w: Word): Word { w >> 8 }

  /** The bytes of a word, least significant first. */
  function WordBytes(w: Word): seq<Byte> {
    [Low(w), Low(Upper(w)), Low(Upper(Upper(w))), Low(Upper(Upper(Upper(w))))]
  }

  lemma {:induction false} LowAppend(w: Word, n: nat, k: nat)
    ensures LowBits(w, n + k) == LowBits(w, n) + LowBits(Dropped(w, n), k)
    ensures Dropped(w, n + k) == Dropped(Dropped(w, n), k)
    decreases n
  {
    hide Half, Odd;
    if n > 0 { LowAppend(Half(w), n - 1, k); }
  }

  /** The `n` lowest bits of the mask are set. */
  predicate Ones(m: Word, n: nat)
    decreases n
  {
    n == 0 || (Odd(m) && Ones(Half(m), n - 1))
  }

  lemma MaskHalf(w: Word, m: Word)
    ensures Half(w & m) == Half(w) & Half(m)
  {
  }

  lemma MaskOdd(w: Word, m: Word)
    requires Odd(m)
    ensures Odd(w & m) == Odd(w)
  {
    assert (w & m) & 1 == w & (m & 1);
  }

  lemma {:induction false} LowMasked(w: Word, m: Word, n: nat)
    requires Ones(m, n)
    ensures LowBits(w & m, n) == LowBits(w, n)
    decreases n
  {
    hide Half, Odd;
    if n > 0 {
      MaskHalf(w, m);
      MaskOdd(w, m);
      LowMasked(Half(w), Half(m), n - 1);
    }
  }

  lemma ByteOnes()
    ensures Ones(0xff, 8)
  {
    hide Odd, Half;
    OddHalf();
    assert Ones(0x1, 1);
    assert Ones(0x3, 2);
    assert Ones(0x7, 3);
    assert Ones(0xf, 4);
    assert Ones(0x1f, 5);
    assert Ones(0x3f, 6);
    assert Ones(0x7f, 7);
  }

  lemma OddHalf()
    ensures Odd(0xff) && Odd(0x7f) && Odd(0x3f) && Odd(0x1f) && Odd(0xf) && Odd(0x7) && Odd(0x3) && Odd(0x1)
    ensures Half(0xff) == 0x7f && Half(0x7f) == 0x3f && Half(0x3f) == 0x1f && Half(0x1f) == 0xf && Half(0xf) == 0x7
    ensures Half(0x7) == 0x3 && Half(0x3) == 0x1
  {
  }

  lemma ByteOf(w: Word)
    ensures LowBits(Wide(Low(w)), 8) == LowBits(w, 8)
  {
    hide LowBits, Ones;
    ByteOnes();
    LowWide(w);
    LowMasked(w, 0xff, 8);
  }

  lemma LowWide(w: Word)
    ensures Wide(Low(w)) == w & 0xff
  {
  }

  lemma DroppedByte(w: Word)
    ensures Dropped(w, 8) == Upper(w)
  {
    hide Half, Upper;
    DropFour(w, 8);
    DropFour(Half(Half(Half(Half(w)))), 4);
    EightHalves(w);
  }

  lemma EightHalves(w: Word)
    ensures Half(Half(Half(Half(Half(Half(Half(Half(w)))))))) == Upper(w)
  {
  }

  lemma AllGone(w: Word)
    ensures Upper(Upper(Upper(Upper(w)))) == 0
  {
  }

  /** The bits of a word's bytes are its own, and 32 of them are all. */
  lemma BytesAreBits(w: Word)
    ensures Bits(WordBytes(w)) == LowBits(w, 32) && Dropped(w, 32) == 0
  {
    hide LowBits, Dropped, Wide, Low, Upper, Bits;
    var w1, w2, w3 := Upper(w), Upper(Upper(w)), Upper(Upper(Upper(w)));
    ByteOf(w);
    ByteOf(w1);
    ByteOf(w2);
    ByteOf(w3);
    DroppedByte(w);
    DroppedByte(w1);
    DroppedByte(w2);
    DroppedByte(w3);
    LowAppend(w, 8, 24);
    LowAppend(w1, 8, 16);
    LowAppend(w2, 8, 8);
    AllGone(w);
    FourBytes(WordBytes(w));
  }

  lemma FourBytes(b: seq<Byte>)
    requires |b| == 4
    ensures Bits(b) ==
      LowBits(Wide(b[0]), 8) + (LowBits(Wide(b[1]), 8) + (LowBits(Wide(b[2]), 8) + LowBits(Wide(b[3]), 8)))
  {
    hide LowBits, Wide;
    assert Bits(b[1..][1..][1..][1..]) == [];
    assert Bits(b[1..][1..][1..]) == LowBits(Wide(b[3]), 8);
    assert Bits(b[1..][1..]) == LowBits(Wide(b[2]), 8) + Bits(b[1..][1..][1..]);
  }

  lemma {:induction false} UpdatedAppend(c: Word, s: seq<Byte>, t: seq<Byte>)
    ensures Updated(c, s + t) == Updated(Updated(c, s), t)
    decreases |s|
  {
    hide TableStep;
    if s == [] {
      assert s + t == t;
    } else {
      assert (s + t)[0] == s[0] && (s + t)[1..] == s[1..] + t;
      UpdatedAppend(TableStep(c, s[0]), s[1..], t);
    }
  }

  lemma Turns0()
    ensures Shifted(Shifted(Shifted(Shifted(0xffffffff)))) == 0xb2420de3
  {
  }

  lemma Turns1()
    ensures Shifted(Shifted(Shifted(Shifted(0xb2420de3)))) == 0x2dfd1072
  {
  }

  lemma Turns2()
    ensures Shifted(Shifted(Shifted(Shifted(0x2dfd1072)))) == 0x39b1f1cf
  {
  }

  lemma Turns3()
    ensures Shifted(Shifted(Shifted(Shifted(0x39b1f1cf)))) == 0xbe26ed00
  {
  }

  lemma Turns4()
    ensures Shifted(Shifted(Shifted(Shifted(0xbe26ed00)))) == 0x0be26ed0
  {
  }

  lemma Turns5()
    ensures Shifted(Shifted(Shifted(Shifted(0x0be26ed0)))) == 0x00be26ed
  {
  }

  lemma Turns6()
    ensures Shifted(Shifted(Shifted(Shifted(0x00be26ed)))) == 0x86d830ba
  {
  }

  lemma Turns7()
    ensures Shifted(Shifted(Shifted(Shifted(0x86d830ba)))) == 0xdebb20e3
  {
  }

  lemma AllOnesRun()
    ensures Times(ONES, 32) == 0xdebb20e3
  {
    hide Shifted, Times;
    TimesFour(0xffffffff, 32); Turns0();
    TimesFour(0xb2420de3, 28); Turns1();
    TimesFour(0x2dfd1072, 24); Turns2();
    TimesFour(0x39b1f1cf, 20); Turns3();
    TimesFour(0xbe26ed00, 16); Turns4();
    TimesFour(0x0be26ed0, 12); Turns5();
    TimesFour(0x00be26ed, 8); Turns6();
    TimesFour(0x86d830ba, 4); Turns7();
    NoTurns(0xdebb20e3);
  }

  lemma NoTurns(c: Word)
    ensures Times(c, 0) == c
  {
  }

  /** The checksum of nothing is zero. */
  lemma EmptyChecksum()
    ensures Reference([]) == 0
  {
    PlusLaws(ONES, ONES);
  }

  /**
   * The residue: a message with its checksum appended, least significant byte first, has the same checksum
   * whatever the message.
   */
  lemma Residue(s: seq<Byte>)
    ensures Reference(s + WordBytes(Reference(s))) == 0x2144df1c
  {
    hide Updated, TableStep, Times, LowBits, Entered, Dropped, Plus, WordBytes, Bits;
    var c, f := Updated(ONES, s), Reference(s);
    UpdatedAppend(ONES, s, WordBytes(f));
    ReferenceByBits(c, WordBytes(f));
    BytesAreBits(f);
    EnteredWord(c, f, 32);
    Cancels(c);
    PlusLaws(Times(ONES, 32), 0);
    AllOnesRun();
    Complemented();
  }

  lemma Cancels(c: Word)
    ensures Plus(c, Plus(c, ONES)) == ONES
  {
  }

  lemma Complemented()
    ensures Plus(0xdebb20e3, ONES) == 0x2144df1c
  {
  }
}
