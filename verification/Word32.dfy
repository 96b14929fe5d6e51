/** Fixed-width unsigned arithmetic: the widths the kernel's types have on the Cortex-M4. */
module Word32 {
  const TWO16 := 0x1_0000
  const TWO31 := 0x8000_0000
  const TWO32 := 0x1_0000_0000

  type u8 = x: int | 0 <= x < 0x100
  type u16 = x: int | 0 <= x < TWO16
  type u32 = x: int | 0 <= x < TWO32

  /** The value a `uint32_t` holds after an addition or subtraction. */
  function Wrap(x: int): u32 {
    x % TWO32
  }

  /** A `uint32_t` read as an `int32_t`. */
  function Signed(x: u32): int {
    if x < TWO31 then x else x - TWO32
  }

  function Bits(x: u32): bv32 {
    x as bv32
  }

  function FromBits(b: bv32): u32 {
    b as int
  }

  /** The `^` of two words. */
  function Xor(x: u32, y: u32): u32 {
    FromBits(Bits(x) ^ Bits(y))
  }

  lemma {:induction false} SignedOfSmall(d: int)
    requires -TWO31 <= d < TWO31
    ensures Signed(Wrap(d)) == d
  {
    if d < 0 {
      assert Wrap(d) == Wrap(d + TWO32) == d + TWO32;
    }
  }

  lemma {:induction false} WrapPlus(x: int, y: int)
    ensures Wrap(Wrap(x) + y) == Wrap(x + y)
  {
    var q := x / TWO32;
    assert Wrap(x) + y == x + y - TWO32 * q;
    WrapShift(x + y, -q);
  }

  lemma {:induction false} WrapShift(x: int, q: int)
    ensures Wrap(x + TWO32 * q) == Wrap(x)
  {
  }

  lemma {:induction false} MultipleMod(q: nat, a: int)
    requires a > 0
    ensures q * a % a == 0
  {
    if q > 0 {
      MultipleMod(q - 1, a);
      AddUnitMod((q - 1) * a, a);
      assert q * a == (q - 1) * a + a;
    }
  }

  lemma {:induction false} AddUnitMod(x: int, a: int)
    requires a > 0
    ensures (x + a) % a == x % a
  {
    var q, r := x / a, x % a;
    assert x + a == (q + 1) * a + r;
    DivModUnique(x + a, a, q + 1, r);
  }

  lemma {:induction false} DivModUnique(x: int, a: int, q: int, r: int)
    requires a > 0 && x == q * a + r && 0 <= r < a
    ensures x / a == q && x % a == r
  {
    var d := x / a - q;
    assert d * a == r - x % a by { assert x == x / a * a + x % a; }
    assert d >= 1 ==> d * a >= a;
    assert d <= -1 ==> d * a <= -a;
  }

  /** The next multiple of `a` strictly above `x`: what every align helper of the kernel computes. */
  lemma {:induction false} AlignedUp(x: int, a: int)
    requires 0 <= x && a > 0
    ensures (x + (a - x % a)) % a == 0
    ensures x < x + (a - x % a) <= x + a
  {
    assert x + (a - x % a) == (x / a + 1) * a by { assert x == x / a * a + x % a; }
    MultipleMod(x / a + 1, a);
  }
}
