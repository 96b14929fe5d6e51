/** The byte-addressed, little-endian memory that headers, lists and images live in. */
module Memory {
  import opened Word32

  type Mem = seq<u8>

  const WORD: nat := 4

  /** The little-endian number in the `n` bytes from `a`. */
  function GetBytes(m: Mem, a: int, n: nat): nat
    requires 0 <= a && a + n <= |m|
    decreases n
  {
    if n == 0 then 0 else m[a] + GetBytes(m, a + 1, n - 1) * 0x100
  }

  /** `m` with the `n` low-order bytes of `v` stored from `a`, least significant first. */
  function PutBytes(m: Mem, a: int, v: nat, n: nat): Mem
    requires 0 <= a && a + n <= |m|
    decreases n
  {
    if n == 0 then m else PutBytes(m[a := v % 0x100], a + 1, v / 0x100, n - 1)
  }

  function Pow256(n: nat): nat {
    if n == 0 then 1 else 0x100 * Pow256(n - 1)
  }

  lemma {:induction false} GetBytesBound(m: Mem, a: int, n: nat)
    requires 0 <= a && a + n <= |m|
    ensures GetBytes(m, a, n) < Pow256(n)
    decreases n
  {
    if n > 0 { GetBytesBound(m, a + 1, n - 1); }
  }

  /** Equal bytes, at whatever addresses, hold equal numbers. */
  lemma {:induction false} GetBytesAgree(m: Mem, a: int, m': Mem, a': int, n: nat)
    requires 0 <= a && a + n <= |m| && 0 <= a' && a' + n <= |m'|
    requires m'[a'..a' + n] == m[a..a + n]
    ensures GetBytes(m', a', n) == GetBytes(m, a, n)
    decreases n
  {
    if n > 0 {
      assert m'[a'] == m'[a'..a' + n][0] == m[a..a + n][0] == m[a];
      assert m'[a' + 1..a' + n] == m'[a'..a' + n][1..] == m[a..a + n][1..] == m[a + 1..a + n];
      GetBytesAgree(m, a + 1, m', a' + 1, n - 1);
    }
  }

  lemma {:induction false} PutBytesFrame(m: Mem, a: int, v: nat, n: nat)
    requires 0 <= a && a + n <= |m|
    ensures var r := PutBytes(m, a, v, n);
      |r| == |m| && forall i :: 0 <= i < |m| && !(a <= i < a + n) ==> r[i] == m[i]
    decreases n
  {
    if n > 0 { PutBytesFrame(m[a := v % 0x100], a + 1, v / 0x100, n - 1); }
  }

  lemma {:induction false} GetPutBytes(m: Mem, a: int, v: nat, n: nat)
    requires 0 <= a && a + n <= |m| && v < Pow256(n)
    ensures |PutBytes(m, a, v, n)| == |m| && GetBytes(PutBytes(m, a, v, n), a, n) == v
    decreases n
  {
    PutBytesFrame(m, a, v, n);
    if n > 0 {
      PutBytesFrame(m[a := v % 0x100], a + 1, v / 0x100, n - 1);
      GetPutBytes(m[a := v % 0x100], a + 1, v / 0x100, n - 1);
    }
  }

  function Get32(m: Mem, a: int): u32
    requires 0 <= a && a + 4 <= |m|
  {
    GetBytesBound(m, a, WORD);
    assert Pow256(4) == TWO32;
    GetBytes(m, a, WORD)
  }

  function Put32(m: Mem, a: int, v: u32): (r: Mem)
    requires 0 <= a && a + 4 <= |m|
    ensures |r| == |m| && Get32(r, a) == v
    ensures forall i :: 0 <= i < |m| && !(a <= i < a + 4) ==> r[i] == m[i]
    ensures forall y {:trigger Get32(r, y)} ::
      0 <= y && y + 4 <= |m| && (y + 4 <= a || a + 4 <= y) ==> Get32(r, y) == Get32(m, y)
  {
    assert Pow256(4) == TWO32;
    GetPutBytes(m, a, v, WORD);
    PutBytesFrame(m, a, v, WORD);
    var r := PutBytes(m, a, v, WORD);
    assert forall y {:trigger Get32(r, y)} ::
      0 <= y && y + 4 <= |m| && (y + 4 <= a || a + 4 <= y) ==> Get32(r, y) == Get32(m, y)
    by {
      forall y | 0 <= y && y + 4 <= |m| && (y + 4 <= a || a + 4 <= y) ensures Get32(r, y) == Get32(m, y) {
        assert r[y..y + 4] == m[y..y + 4];
        GetBytesAgree(m, y, r, y, WORD);
      }
    }
    r
  }

  function Put8(m: Mem, a: int, v: u8): (r: Mem)
    requires 0 <= a < |m|
    ensures |r| == |m| && r[a] == v
    ensures forall i :: 0 <= i < |m| && i != a ==> r[i] == m[i]
    ensures forall y {:trigger Get32(r, y)} ::
      0 <= y && y + 4 <= |m| && (y + 4 <= a || a < y) ==> Get32(r, y) == Get32(m, y)
  {
    var r := m[a := v];
    assert forall y {:trigger Get32(r, y)} ::
      0 <= y && y + 4 <= |m| && (y + 4 <= a || a < y) ==> Get32(r, y) == Get32(m, y)
    by {
      forall y | 0 <= y && y + 4 <= |m| && (y + 4 <= a || a < y) ensures Get32(r, y) == Get32(m, y) {
        assert r[y..y + 4] == m[y..y + 4];
        GetBytesAgree(m, y, r, y, WORD);
      }
    }
    r
  }

  /** `m` with the bytes `b` written at address `a`. */
  function Put(m: Mem, a: int, b: seq<u8>): (r: Mem)
    requires 0 <= a && a + |b| <= |m|
    ensures |r| == |m|
    ensures forall i :: 0 <= i < |m| ==> r[i] == if a <= i < a + |b| then b[i - a] else m[i]
  {
    m[..a] + b + m[a + |b|..]
  }

  /** `m` with `len` zero bytes from `a`: what kern_bzero leaves. */
  function Zeroed(m: Mem, a: int, len: int): (r: Mem)
    requires 0 <= a && 0 <= len && a + len <= |m|
    ensures |r| == |m|
    ensures forall i :: 0 <= i < |m| ==> r[i] == if a <= i < a + len then 0 else m[i]
  {
    seq(|m|, i requires 0 <= i < |m| => if a <= i < a + len then 0 else m[i])
  }

  lemma SliceOfSlice(m: Mem, a: int, n: int, i: int, j: int)
    requires 0 <= a && 0 <= i <= j <= n && a + n <= |m|
    ensures m[a..a + n][i..j] == m[a + i..a + j]
  {
    var b, c := m[a..a + n], m[a + i..a + j];
    assert forall k :: 0 <= k < j - i ==> b[i..j][k] == b[i + k] == m[a + (i + k)] == c[k];
  }

  /** A word read depends only on its own four bytes, wherever they have been copied to. */
  lemma GetAgrees(m: Mem, a: int, m': Mem, a': int)
    requires 0 <= a && a + 4 <= |m| && 0 <= a' && a' + 4 <= |m'|
    requires m'[a'..a' + 4] == m[a..a + 4]
    ensures Get32(m', a') == Get32(m, a)
  {
    GetBytesAgree(m, a, m', a', WORD);
  }

  // ----- The loads and stores the kernel makes, in place -----

  method Store8(mem: array<u8>, a: int, v: u8)
    requires 0 <= a < mem.Length
    modifies mem
    ensures mem[..] == Put8(old(mem[..]), a, v)
  {
    mem[a] := v;
  }

  method Store32(mem: array<u8>, a: int, v: u32)
    requires 0 <= a && a + 4 <= mem.Length
    modifies mem
    ensures mem[..] == Put32(old(mem[..]), a, v)
  {
    ghost var m := mem[..];
    var w, n := v as nat, 0;
    while n < 4
      invariant 0 <= n <= 4
      invariant PutBytes(mem[..], a + n, w, WORD - n) == PutBytes(m, a, v, WORD)
    {
      mem[a + n] := w % 0x100;
      w, n := w / 0x100, n + 1;
    }
  }

  method Load32(mem: array<u8>, a: int) returns (v: u32)
    requires 0 <= a && a + 4 <= mem.Length
    ensures v == Get32(mem[..], a)
  {
    ghost var m := mem[..];
    assert GetBytes(m, a + 3, 1) == m[a + 3] + GetBytes(m, a + 4, 0) * 0x100;
    assert GetBytes(m, a + 2, 2) == m[a + 2] + GetBytes(m, a + 3, 1) * 0x100;
    assert GetBytes(m, a + 1, 3) == m[a + 1] + GetBytes(m, a + 2, 2) * 0x100;
    assert GetBytes(m, a, WORD) == m[a] + GetBytes(m, a + 1, 3) * 0x100;
    v := Word(mem[a], mem[a + 1], mem[a + 2], mem[a + 3]);
  }

  function Word(b0: int, b1: int, b2: int, b3: int): int {
    b0 + 0x100 * b1 + 0x1_0000 * b2 + 0x100_0000 * b3
  }

  /** kern_bzero. */
  method Bzero(mem: array<u8>, b: int, len: int)
    requires 0 <= b && 0 <= len && b + len <= mem.Length
    modifies mem
    ensures mem[..] == Zeroed(old(mem[..]), b, len)
  {
    var c, n := b, len;
    while n > 0
      invariant 0 <= n <= len && c == b + len - n
      invariant forall i :: 0 <= i < mem.Length ==> mem[i] == if b <= i < c then 0 else old(mem[i])
    {
      mem[c] := 0;
      c, n := c + 1, n - 1;
    }
  }

  /** kern_memcpy, for ranges that do not overlap. */
  method Memcpy(mem: array<u8>, dst: int, src: int, len: int)
    requires 0 <= dst && 0 <= src && 0 <= len && dst + len <= mem.Length && src + len <= mem.Length
    requires dst + len <= src || src + len <= dst
    modifies mem
    ensures mem[..] == Put(old(mem[..]), dst, old(mem[src..src + len]))
  {
    var k := 0;
    while k < len
      invariant 0 <= k <= len
      invariant forall i :: 0 <= i < mem.Length ==>
        mem[i] == if dst <= i < dst + k then old(mem[src + (i - dst)]) else old(mem[i])
    {
      mem[dst + k] := mem[src + k];
      k := k + 1;
    }
  }
}
