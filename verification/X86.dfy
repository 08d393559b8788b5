/** The part of x86-64 the block compiler emits: a decoder of REX.W register instructions and their effect on
    the sixteen general registers. Flags are not modelled: no emitted instruction reads them. */
module X86 {
  import opened Words

  type XReg = r: int | 0 <= r < 16
  type XRegs = s: seq<u64> | |s| == 16 witness [0, 0, 0, 0, 0, 0, 0, 0, 0, 0, 0, 0, 0, 0, 0, 0]

  const RCX: XReg := 1

  datatype XAlu = XMov | XAdd | XSub | XAnd | XOr | XXor | XImul
  datatype XShift = XShl | XShr | XSar

  datatype XInstr =
    | Rr(op: XAlu, dst: XReg, src: XReg)
    | MovImm(dst: XReg, imm: u64)
    | Neg(dst: XReg)
    | ShiftCl(kind: XShift, dst: XReg)

  // ----- decoder ----------------------------------------------------------------------------------

  /** REX prefix with W set: 0100 1RXB. */
  predicate RexW(b: byte) { 0x48 <= b <= 0x4F }
  function RexR(b: byte): nat { b / 4 % 2 }
  function RexB(b: byte): nat { b % 2 }

  /** ModRM byte in register-direct form, extended by the prefix. */
  predicate Direct(m: byte) { m / 64 == 3 }
  function RegField(rex: byte, m: byte): XReg { 8 * RexR(rex) + m / 8 % 8 }
  function RmField(rex: byte, m: byte): XReg { 8 * RexB(rex) + m % 8 }

  /** Opcodes whose destination is the reg field and whose source is the r/m field. */
  function LoadForm(op: byte): Option<XAlu> {
    if op == 0x8B then Some(XMov)
    else if op == 0x03 then Some(XAdd)
    else if op == 0x2B then Some(XSub)
    else if op == 0x23 then Some(XAnd)
    else if op == 0x0B then Some(XOr)
    else if op == 0x33 then Some(XXor)
    else None
  }

  datatype XDecoded = XDecoded(i: XInstr, len: nat) | XUnknown

  function XDecode(c: seq<byte>, at: nat): (r: XDecoded)
    ensures r.XDecoded? ==> 3 <= r.len <= |c| - at
  {
    if at + 3 > |c| || !RexW(c[at]) then XUnknown
    else if 0xB8 <= c[at + 1] <= 0xBF then MovImmAt(c, at)
    else if c[at + 1] == 0x0F then ImulAt(c, at)
    else OneByte(c[at], c[at + 1], c[at + 2])
  }

  function MovImmAt(c: seq<byte>, at: nat): (r: XDecoded)
    requires at + 2 <= |c| && 0xB8 <= c[at + 1] <= 0xBF
    ensures r.XDecoded? ==> r.len == 10 <= |c| - at
  {
    PowValues();
    if at + 10 > |c| then XUnknown
    else XDecoded(MovImm(8 * RexB(c[at]) + c[at + 1] % 8, FromLe(c[at + 2..at + 10])), 10)
  }

  function ImulAt(c: seq<byte>, at: nat): (r: XDecoded)
    requires at + 3 <= |c|
    ensures r.XDecoded? ==> r.len == 4 <= |c| - at
  {
    if at + 4 <= |c| && c[at + 2] == 0xAF && Direct(c[at + 3])
    then XDecoded(Rr(XImul, RegField(c[at], c[at + 3]), RmField(c[at], c[at + 3])), 4)
    else XUnknown
  }

  function OneByte(rex: byte, op: byte, m: byte): (r: XDecoded)
    ensures r.XDecoded? ==> r.len == 3
  {
    var reg, rm, digit := RegField(rex, m), RmField(rex, m), m / 8 % 8;
    if !Direct(m) then XUnknown
    else if LoadForm(op).Some? then XDecoded(Rr(LoadForm(op).value, reg, rm), 3)
    else if op == 0x89 then XDecoded(Rr(XMov, rm, reg), 3)
    else if op == 0xF7 && digit == 3 then XDecoded(Neg(rm), 3)
    else if op == 0xD3 && digit == 4 then XDecoded(ShiftCl(XShl, rm), 3)
    else if op == 0xD3 && digit == 5 then XDecoded(ShiftCl(XShr, rm), 3)
    else if op == 0xD3 && digit == 7 then XDecoded(ShiftCl(XSar, rm), 3)
    else XUnknown
  }

  // ----- effect -------------------------------------------------------------------------------------

  /** The low 64 bits of the signed product. */
  function Imul(a: u64, b: u64): u64 { (Signed64(a) * Signed64(b)) % TWO64 }

  function XAluOf(op: XAlu, a: u64, b: u64): u64 {
    match op
    case XMov => b
    case XAdd => Add64(a, b)
    case XSub => Sub64(a, b)
    case XAnd => And64(a, b)
    case XOr => Or64(a, b)
    case XXor => Xor64(a, b)
    case XImul => Imul(a, b)
  }

  /** One position. */
  function ShiftOne(kind: XShift, a: u64): u64 {
    match kind
    case XShl => 2 * a % TWO64
    case XShr => a / 2
    case XSar => Signed64(a) / 2 % TWO64
  }

  /** A shift repeats its one-position step, as the processor manual defines it. */
  function ShiftBy(kind: XShift, a: u64, k: nat): u64 {
    if k == 0 then a else ShiftOne(kind, ShiftBy(kind, a, k - 1))
  }

  function XExec(i: XInstr, x: XRegs): XRegs {
    match i
    case Rr(op, d, s) => x[d := XAluOf(op, x[d], x[s])]
    case MovImm(d, v) => x[d := v]
    case Neg(d) => x[d := Sub64(0, x[d])]
    case ShiftCl(k, d) => x[d := ShiftBy(k, x[d], x[RCX] % 64)]
  }

  /** Execute n instructions from offset `at`. */
  datatype XState = XState(at: nat, regs: XRegs)

  function XRun(c: seq<byte>, s: XState, n: nat): Option<XState>
    decreases n
  {
    if n == 0 then Some(s)
    else match XDecode(c, s.at)
      case XUnknown => None
      case XDecoded(i, len) => XRun(c, XState(s.at + len, XExec(i, s.regs)), n - 1)
  }

  lemma {:induction false} XRunAdd(c: seq<byte>, s: XState, m: nat, n: nat)
    requires XRun(c, s, m).Some?
    ensures XRun(c, s, m + n) == XRun(c, XRun(c, s, m).value, n)
    decreases m
  {
    hide XDecode, XExec;
    if m > 0 {
      var d := XDecode(c, s.at);
      XRunAdd(c, XState(s.at + d.len, XExec(d.i, s.regs)), m - 1, n);
    }
  }

  // ----- the processor's arithmetic against C's ---------------------------------------------------------

  lemma ImulIsMul(a: u64, b: u64)
    ensures Imul(a, b) == Mul64(a, b)
  {
    var x, y := if a < TWO63 then 0 else 1, if b < TWO63 then 0 else 1;
    var p := Signed64(a) * Signed64(b);
    assert Signed64(a) == a - x * TWO64 && Signed64(b) == b - y * TWO64;
    var q := x * b + y * a - x * y * TWO64;
    Expand(a, b, x, y);
    assert a * b == p + q * TWO64;
    ModUnique(a * b, TWO64, p / TWO64 + q, p % TWO64);
  }

  lemma Expand(a: int, b: int, x: int, y: int)
    requires x in {0, 1} && y in {0, 1}
    ensures (a - x * TWO64) * (b - y * TWO64) + (x * b + y * a - x * y * TWO64) * TWO64 == a * b
  {
  }

  lemma {:induction false} ShlIsIterated(a: u64, k: nat)
    requires k < 64
    ensures ShiftBy(XShl, a, k) == Shl64(a, k)
  {
    if k > 0 {
      ShlIsIterated(a, k - 1);
      var v := a * Pow2(k - 1);
      assert a * Pow2(k) == 2 * v by { MulAssoc(2, a, Pow2(k - 1)); Swap(a, Pow2(k - 1)); }
      ModDouble(v);
    }
  }

  lemma Swap(a: nat, p: nat)
    ensures a * (2 * p) == 2 * (a * p)
  {
  }

  lemma ModDouble(v: nat)
    ensures 2 * (v % TWO64) % TWO64 == 2 * v % TWO64
  {
    var w := v % TWO64;
    ModUnique(2 * v, TWO64, 2 * (v / TWO64) + 2 * w / TWO64, 2 * w % TWO64);
  }

  lemma {:induction false} ShrIsIterated(a: u64, k: nat)
    requires k < 64
    ensures ShiftBy(XShr, a, k) == Shr64(a, k)
  {
    if k > 0 {
      ShrIsIterated(a, k - 1);
      DivTwice(a, Pow2(k - 1));
    }
  }

  lemma DivTwice(a: int, p: nat)
    requires p >= 1
    ensures a / (2 * p) == a / p / 2
  {
    var q, r := a / p, a % p;
    assert a == q * p + r;
    assert q == 2 * (q / 2) + q % 2;
    var rest := (q % 2) * p + r;
    assert 0 <= rest < 2 * p;
    assert a == (q / 2) * (2 * p) + rest by { Swap2(q / 2, q % 2, p); }
    ModUnique(a, 2 * p, q / 2, rest);
  }

  lemma DivTwice2(a: nat, p: nat)
    requires p >= 1
    ensures a / (2 * p) == a / 2 / p
  {
    var h, b := a / 2, a % 2;
    var q, r := h / p, h % p;
    assert h == q * p + r && a == 2 * h + b;
    assert a == q * (2 * p) + (2 * r + b) by { Swap(q, p); }
    ModUnique(a, 2 * p, q, 2 * r + b);
  }

  lemma Swap2(h: int, b: int, p: nat)
    ensures (2 * h + b) * p == h * (2 * p) + b * p
  {
  }

  /** A signed word survives the trip through its bit pattern. */
  lemma SignedMod(v: int)
    requires 0 - TWO63 <= v < TWO63
    ensures Signed64(v % TWO64) == v
  {
  }

  lemma SignedRange(a: int, p: nat)
    requires 0 - TWO63 <= a < TWO63 && p >= 1
    ensures 0 - TWO63 <= a / p < TWO63
  {
    var q := a / p;
    assert a == q * p + a % p;
    if q >= TWO63 { MulGe(p, q); }
    if q < 0 - TWO63 { MulGe(p, 0 - q); }
  }

  lemma {:induction false} SarIsIterated(a: u64, k: nat)
    requires k < 64
    ensures ShiftBy(XSar, a, k) == Sar64(a, k)
  {
    if k > 0 {
      SarIsIterated(a, k - 1);
      var v := Signed64(a) / Pow2(k - 1);
      SignedRange(Signed64(a), Pow2(k - 1));
      SignedMod(v);
      DivTwice(Signed64(a), Pow2(k - 1));
    }
  }
}
