/** Machine words and their little-endian byte strings.
    A word is an integer in range; wrap-around is written out with `%`. */
module Words {
  datatype Option<+T> = None | Some(value: T)

  const TWO31: nat := 0x8000_0000
  const TWO32: nat := 0x1_0000_0000
  const TWO63: nat := 0x8000_0000_0000_0000
  const TWO64: nat := 0x1_0000_0000_0000_0000

  type byte = x: int | 0 <= x < 256
  type u32 = x: int | 0 <= x < 0x1_0000_0000
  type u64 = x: int | 0 <= x < 0x1_0000_0000_0000_0000

  /** Symbol and label names are C strings, kept as their bytes. */
  type Name = seq<byte>

  // ----- little-endian strings -------------------------------------------------

  function Pow256(n: nat): (p: nat)
    ensures p >= 1
  {
    if n == 0 then 1 else 256 * Pow256(n - 1)
  }

  /** The low n bytes of v, least significant first. */
  function Le(n: nat, v: nat): (s: seq<byte>)
    ensures |s| == n
  {
    if n == 0 then [] else [v % 256] + Le(n - 1, v / 256)
  }

  function FromLe(s: seq<byte>): (v: nat)
    ensures v < Pow256(|s|)
  {
    if s == [] then 0 else s[0] + 256 * FromLe(s[1..])
  }

  lemma PowValues()
    ensures Pow256(1) == 0x100 && Pow256(2) == 0x1_0000 && Pow256(4) == TWO32 && Pow256(8) == TWO64
  {
    assert Pow256(3) == 256 * Pow256(2);
    assert Pow256(5) == 256 * Pow256(4);
    assert Pow256(6) == 256 * Pow256(5);
    assert Pow256(7) == 256 * Pow256(6);
  }

  lemma {:induction false} FromLeLe(n: nat, v: nat)
    requires v < Pow256(n)
    ensures FromLe(Le(n, v)) == v
  {
    if n > 0 {
      FromLeLe(n - 1, v / 256);
      assert Le(n, v)[1..] == Le(n - 1, v / 256);
    }
  }

  lemma {:induction false} LeFromLe(s: seq<byte>)
    ensures Le(|s|, FromLe(s)) == s
  {
    if s != [] {
      LeFromLe(s[1..]);
      assert (s[0] + 256 * FromLe(s[1..])) / 256 == FromLe(s[1..]);
      assert s == [s[0]] + s[1..];
    }
  }

  /** Only the residue modulo 256^n of the value reaches the bytes. */
  lemma {:induction false} LeTruncates(n: nat, v: nat)
    ensures FromLe(Le(n, v)) == v % Pow256(n)
  {
    if n > 0 {
      LeTruncates(n - 1, v / 256);
      assert Le(n, v)[1..] == Le(n - 1, v / 256);
      ModNested(v, Pow256(n - 1));
    }
  }

  lemma ModNested(v: nat, p: nat)
    requires p >= 1
    ensures v % (256 * p) == v % 256 + 256 * ((v / 256) % p)
  {
    var q := (v / 256) / p;
    var r := (v / 256) % p;
    assert v / 256 == q * p + r;
    assert v == 256 * (q * p + r) + v % 256;
    assert 256 * (q * p) == q * (256 * p);
    ModUnique(v, 256 * p, q, v % 256 + 256 * r);
  }

  lemma ModUnique(v: int, m: int, q: int, r: int)
    requires m > 0 && v == q * m + r && 0 <= r < m
    ensures v % m == r && v / m == q
  {
    SmallMultiple(q - v / m, m);
  }

  lemma SmallMultiple(k: int, m: int)
    requires -m < k * m < m
    ensures k == 0
  {
    if k >= 1 {
      MulGe(k, m);
    } else if k <= -1 {
      MulGe(-k, m);
    }
  }

  lemma MulAssoc(a: int, b: int, c: int)
    ensures (a * b) * c == a * (b * c)
  {
  }

  lemma MulGe(k: int, m: int)
    requires k >= 1 && m >= 0
    ensures k * m >= m
  {
    assert (k - 1) * m >= 0;
  }

  lemma Assoc(a: seq<byte>, b: seq<byte>, c: seq<byte>)
    ensures (a + b) + c == a + (b + c)
  {
  }

  /** memcpy of `w` into `t` at `at`; nothing if it would not fit. */
  function Overwrite(t: seq<byte>, at: nat, w: seq<byte>): (r: seq<byte>)
    ensures |r| == |t|
  {
    if at + |w| <= |t| then t[..at] + w + t[at + |w|..] else t
  }

  /** memcpy into an array. */
  method CopyAt(a: array<byte>, at: nat, w: seq<byte>)
    requires at + |w| <= a.Length
    modifies a
    ensures a[..] == Overwrite(old(a[..]), at, w)
  {
    forall k | 0 <= k < |w| { a[at + k] := w[k]; }
    assert a[..] == old(a[..])[..at] + w + old(a[..])[at + |w|..];
  }

  /** `code` holds the bytes `w` at offset `at`. */
  predicate HasAt(code: seq<byte>, at: nat, w: seq<byte>) {
    at + |w| <= |code| && code[at..at + |w|] == w
  }

  // ----- 64-bit arithmetic -----------------------------------------------------

  function Add64(a: u64, b: u64): u64 { (a + b) % TWO64 }
  function Sub64(a: u64, b: u64): u64 { (a - b) % TWO64 }
  function Mul64(a: u64, b: u64): u64 { (a * b) % TWO64 }
  function Neg64(a: u64): u64 { (0 - a) % TWO64 }
  function Not64(a: u64): u64 { TWO64 - 1 - a }

  /** Two's complement reading of a 64-bit word. */
  function Signed64(a: u64): int { if a < TWO63 then a else a - TWO64 }

  /** Sign extension of the low `n` bytes already read as v < 256^n. */
  function SignExtend(n: nat, v: nat): u64
    requires n in {1, 2, 4} && v < Pow256(n)
  {
    PowValues();
    if v < Pow256(n) / 2 then v else TWO64 - Pow256(n) + v
  }

  /** int32 -> uint32, the bit pattern stored for a signed displacement. */
  function U32(off: int): u32 { off % TWO32 }

  // Bitwise operators, bit by bit from the low end.
  datatype BitOp = BAnd | BOr | BXor

  function Bit(op: BitOp, a: nat, b: nat): (r: nat)
    requires a < 2 && b < 2
    ensures r < 2
  {
    match op
    case BAnd => if a == 1 && b == 1 then 1 else 0
    case BOr => if a == 1 || b == 1 then 1 else 0
    case BXor => if a != b then 1 else 0
  }

  function Pow2(n: nat): (p: nat)
    ensures p >= 1
  {
    if n == 0 then 1 else 2 * Pow2(n - 1)
  }

  function Bitwise(op: BitOp, n: nat, a: nat, b: nat): (r: nat)
    ensures r < Pow2(n)
  {
    if n == 0 then 0 else Bit(op, a % 2, b % 2) + 2 * Bitwise(op, n - 1, a / 2, b / 2)
  }

  lemma Pow2Values()
    ensures Pow2(8) == 0x100 && Pow2(16) == 0x1_0000 && Pow2(32) == TWO32 && Pow2(64) == TWO64
  {
    Pow2Bytes(1); Pow2Bytes(2); Pow2Bytes(4); Pow2Bytes(8);
    PowValues();
  }

  lemma {:induction false} Pow2Bytes(n: nat)
    ensures Pow2(8 * n) == Pow256(n)
  {
    if n > 0 {
      Pow2Bytes(n - 1);
      var m := 8 * (n - 1);
      assert Pow2(m + 2) == 4 * Pow2(m);
      assert Pow2(m + 4) == 4 * Pow2(m + 2);
      assert Pow2(m + 6) == 4 * Pow2(m + 4);
    }
  }

  lemma {:induction false} Pow2Add(m: nat, n: nat)
    ensures Pow2(m + n) == Pow2(m) * Pow2(n)
  {
    if m > 0 {
      Pow2Add(m - 1, n);
      assert Pow2(m + n) == 2 * Pow2(m - 1 + n);
      MulAssoc(2, Pow2(m - 1), Pow2(n));
    }
  }

  function Bits64(op: BitOp, a: u64, b: u64): u64 {
    Pow2Values();
    Bitwise(op, 64, a, b)
  }

  function And64(a: u64, b: u64): u64 { Bits64(BAnd, a, b) }
  function Or64(a: u64, b: u64): u64 { Bits64(BOr, a, b) }
  function Xor64(a: u64, b: u64): u64 { Bits64(BXor, a, b) }

  // C shifts with the count already masked to 0..63.
  function Shl64(a: u64, k: nat): u64 requires k < 64 { (a * Pow2(k)) % TWO64 }
  function Shr64(a: u64, k: nat): u64 requires k < 64 { ShrFits(a, Pow2(k)); a / Pow2(k) }
  /** Arithmetic shift: floor division of the signed value. */
  function Sar64(a: u64, k: nat): u64 requires k < 64 { (Signed64(a) / Pow2(k)) % TWO64 }

  lemma ShrFits(a: u64, p: nat)
    requires p >= 1
    ensures 0 <= a / p <= a
  {
    var q := a / p;
    assert a == q * p + a % p;
    MulLe(q, p);
  }

  lemma MulLe(q: int, p: int)
    requires p >= 1 && -p < q * p
    ensures 0 <= q <= q * p
  {
    if q <= -1 { MulGe(-q, p); }
    assert (p - 1) * q >= 0;
  }
}
