/** x86-64 code executed from memory, byte by byte: register arithmetic as in `X86`, and the loads, stores, calls and
    jumps that trampolines, calls and returns are made of. */
module Native {
  import opened Words
  import opened Memory
  import opened X86

  const RSP: XReg := 4
  const RBP: XReg := 5
  const RSI: XReg := 6
  const R14: XReg := 14

  datatype NInstr =
    | Straight(i: XInstr)
    | AddImm(r: XReg, k: int)
    | SubImm(r: XReg, k: int)
    | LoadAt(dst: XReg, base: XReg, disp: int)
    | StoreAt(base: XReg, disp: int, src: XReg)
    | StoreImm(base: XReg, disp: int, v: u64)   // a sign-extended 32-bit immediate
    | MovLow(dst: XReg, v: u64)                 // 32 bits, the upper half becomes 0
    | JumpReg(r: XReg)
    | JumpMem(disp: int)                        // through a word at that distance behind the instruction
    | CallReg(r: XReg)
    | PushReg(r: XReg)
    | PopReg(r: XReg)
    | RetNear

  datatype NDecoded = NDecoded(i: NInstr, len: nat) | NUnknown

  // ----- decoder --------------------------------------------------------------------------------------

  function Signed8(b: byte): int { if b < 128 then b else b - 256 }

  /** Opcode 83 in register-direct form: add and sub of a sign-extended byte. */
  function DecodeImm8(rex: byte, m: byte, k: byte): NDecoded {
    if !Direct(m) then NUnknown
    else if m / 8 % 8 == 0 then NDecoded(AddImm(RmField(rex, m), Signed8(k)), 4)
    else if m / 8 % 8 == 5 then NDecoded(SubImm(RmField(rex, m), Signed8(k)), 4)
    else NUnknown
  }

  /** Memory operand `[base]` or `[base + disp8]` without index; mod 00 with base 5 and base 4 mean other things. */
  function DecodeMove(rex: byte, op: byte, m: byte, disp: byte): NDecoded {
    var reg, base := RegField(rex, m), RmField(rex, m);
    if m % 8 == 4 || (m / 64 == 0 && m % 8 == 5) || m / 64 >= 2 then NUnknown
    else
      var d := if m / 64 == 0 then 0 else Signed8(disp);
      var len := if m / 64 == 0 then 3 else 4;
      if op == 0x8B then NDecoded(LoadAt(reg, base, d), len) else NDecoded(StoreAt(base, d, reg), len)
  }

  /** Instructions of one or two bytes, and jumps. */
  function DecodeShort(c: seq<byte>, at: nat): NDecoded
    requires at + 2 <= |c|
  {
    var a, b := c[at], c[at + 1];
    if 0x50 <= a <= 0x57 then NDecoded(PushReg(a - 0x50), 1)
    else if 0x58 <= a <= 0x5F then NDecoded(PopReg(a - 0x58), 1)
    else if a == 0xC3 then NDecoded(RetNear, 1)
    else if a == 0x41 && 0x50 <= b <= 0x57 then NDecoded(PushReg(8 + b - 0x50), 2)
    else if a == 0x41 && 0x58 <= b <= 0x5F then NDecoded(PopReg(8 + b - 0x58), 2)
    else if a == 0xFF && 0xE0 <= b <= 0xE7 then NDecoded(JumpReg(b - 0xE0), 2)
    else if a == 0xFF && 0xD0 <= b <= 0xD7 then NDecoded(CallReg(b - 0xD0), 2)
    else if a == 0xFF && b == 0x25 && at + 6 <= |c| && FromLe(c[at + 2..at + 6]) < TWO31 then
      PowValues(); NDecoded(JumpMem(FromLe(c[at + 2..at + 6])), 6)
    else if 0xB8 <= a <= 0xBF && at + 5 <= |c| then
      PowValues(); NDecoded(MovLow(a - 0xB8, FromLe(c[at + 1..at + 5])), 5)
    else NUnknown
  }

  /** `mov qword [rsp + disp8], imm32` */
  function DecodeStoreImm(c: seq<byte>, at: nat): NDecoded
    requires at + 9 <= |c|
  {
    PowValues();
    if c[at + 2] == 0x44 && c[at + 3] == 0x24
    then NDecoded(StoreImm(RSP, Signed8(c[at + 4]), SignExtend(4, FromLe(c[at + 5..at + 9]))), 9)
    else NUnknown
  }

  function NDecode(c: seq<byte>, at: nat): NDecoded {
    match XDecode(c, at)
    case XDecoded(i, len) => NDecoded(Straight(i), len)
    case XUnknown =>
      if at + 2 > |c| then NUnknown
      else if !RexW(c[at]) then DecodeShort(c, at)
      else if c[at + 1] == 0x83 && at + 4 <= |c| then DecodeImm8(c[at], c[at + 2], c[at + 3])
      else if (c[at + 1] == 0x8B || c[at + 1] == 0x89) && at + 4 <= |c| then
        DecodeMove(c[at], c[at + 1], c[at + 2], c[at + 3])
      else if c[at] == 0x48 && c[at + 1] == 0xC7 && at + 9 <= |c| then DecodeStoreImm(c, at)
      else NUnknown
  }

  // ----- execution -------------------------------------------------------------------------------------

  datatype Machine = Machine(rip: nat, x: XRegs, mem: Mem)

  function Add(a: u64, k: int): u64 { (a + k) % TWO64 }

  function NLoad(m: Mem, a: u64): Option<u64> { PowValues(); Load(m, a, 8) }

  /** One instruction, with rip already behind it. */
  function NExec(i: NInstr, s: Machine, next: u64): Option<Machine> {
    match i
    case Straight(j) => Some(Machine(next, XExec(j, s.x), s.mem))
    case AddImm(r, k) => Some(Machine(next, s.x[r := Add(s.x[r], k)], s.mem))
    case SubImm(r, k) => Some(Machine(next, s.x[r := Add(s.x[r], 0 - k)], s.mem))
    case LoadAt(dst, base, disp) =>
      (match NLoad(s.mem, Add(s.x[base], disp))
       case None => None
       case Some(v) => Some(Machine(next, s.x[dst := v], s.mem)))
    case StoreAt(base, disp, src) =>
      (match Store(s.mem, Add(s.x[base], disp), 8, s.x[src])
       case None => None
       case Some(m) => Some(Machine(next, s.x, m)))
    case StoreImm(base, disp, v) =>
      (match Store(s.mem, Add(s.x[base], disp), 8, v)
       case None => None
       case Some(m) => Some(Machine(next, s.x, m)))
    case MovLow(dst, v) => Some(Machine(next, s.x[dst := v], s.mem))
    case JumpReg(r) => Some(Machine(s.x[r], s.x, s.mem))
    case JumpMem(disp) =>
      (match NLoad(s.mem, Add(next, disp))
       case None => None
       case Some(v) => Some(Machine(v, s.x, s.mem)))
    case CallReg(r) =>
      (match Store(s.mem, Add(s.x[RSP], 0 - 8), 8, next)
       case None => None
       case Some(m) => Some(Machine(s.x[r], s.x[RSP := Add(s.x[RSP], 0 - 8)], m)))
    case PushReg(r) =>
      (match Store(s.mem, Add(s.x[RSP], 0 - 8), 8, s.x[r])
       case None => None
       case Some(m) => Some(Machine(next, s.x[RSP := Add(s.x[RSP], 0 - 8)], m)))
    case PopReg(r) =>
      (match NLoad(s.mem, s.x[RSP])
       case None => None
       case Some(v) => Some(Machine(next, s.x[RSP := Add(s.x[RSP], 8)][r := v], s.mem)))
    case RetNear =>
      (match NLoad(s.mem, s.x[RSP])
       case None => None
       case Some(v) => Some(Machine(v, s.x[RSP := Add(s.x[RSP], 8)], s.mem)))
  }

  /** Fetch, decode, execute; None for bytes that are not mapped or not known. */
  function NStep(s: Machine): Option<Machine> {
    match NDecode(Bytes(s.mem, s.rip, 10), 0)
    case NUnknown => None
    case NDecoded(i, len) =>
      if Load(s.mem, s.rip, len) == None || s.rip + len >= TWO64 then None else NExec(i, s, s.rip + len)
  }

  function NRun(s: Machine, n: nat): Option<Machine>
    decreases n
  {
    if n == 0 then Some(s)
    else match NStep(s)
      case None => None
      case Some(s') => NRun(s', n - 1)
  }

  lemma {:induction false} NRunAdd(s: Machine, k: nat, n: nat)
    requires NRun(s, k).Some?
    ensures NRun(s, k + n) == NRun(NRun(s, k).value, n)
    decreases k
  {
    hide NStep;
    if k > 0 {
      NRunAdd(NStep(s).value, k - 1, n);
    }
  }

  // ----- from bytes in a sequence to bytes in memory -------------------------------------------------------

  /** The decoder looks at no byte behind the instruction. */
  lemma XDecodeWindow(c: seq<byte>, at: nat, w: seq<byte>)
    requires XDecode(c, at).XDecoded? && |w| >= 10
    requires forall k {:trigger w[k]} :: 0 <= k < XDecode(c, at).len ==> w[k] == c[at + k]
    ensures XDecode(w, 0) == XDecode(c, at)
  {
    hide RexR, RexB, Direct, RegField, RmField, LoadForm, FromLe;
    assert w[0] == c[at] && w[1] == c[at + 1] && w[2] == c[at + 2];
    if XDecode(c, at).len == 10 {
      assert w[2..10] == c[at + 2..at + 10];
    } else if XDecode(c, at).len == 4 {
      assert w[3] == c[at + 3];
    }
  }

  lemma NDecodeStraight(c: seq<byte>, at: nat)
    requires XDecode(c, at).XDecoded?
    ensures NDecode(c, at) == NDecoded(Straight(XDecode(c, at).i), XDecode(c, at).len)
  {
    hide XDecode;
  }

  /** An instruction whose bytes lie at rip. */
  lemma StepAt(s: Machine, c: seq<byte>, at: nat, base: nat, i: NInstr, len: nat)
    requires LiesAt(s.mem, base, c) && s.rip == base + at && at + len <= |c| && base + |c| < TWO64
    requires NDecode(Bytes(s.mem, s.rip, 10), 0) == NDecoded(i, len)
    ensures NStep(s) == NExec(i, s, s.rip + len)
  {
    hide NDecode, NExec, Load;
    LiesBytes(s.mem, base, c, at, c[at..at + len]);
    LoadDefined(s.mem, s.rip, len);
  }

  /** The window at rip shows the bytes that lie there. */
  lemma WindowShows(m: Mem, base: nat, c: seq<byte>, at: nat, n: nat)
    requires LiesAt(m, base, c) && at + n <= |c| && n <= 10
    ensures forall k {:trigger Bytes(m, base + at, 10)[k]} :: 0 <= k < n ==> Bytes(m, base + at, 10)[k] == c[at + k]
  {
    forall k {:trigger Bytes(m, base + at, 10)[k]} | 0 <= k < n ensures Bytes(m, base + at, 10)[k] == c[at + k] {
      var q := at + k;
      assert ByteThere(m, base + q, c[q]) && base + at + k == base + q;
    }
  }

  /** Straight-line code runs from memory as it runs in its sequence. */
  lemma {:induction false} StraightRuns(base: nat, c: seq<byte>, at: nat, x: XRegs, m: Mem, n: nat)
    requires LiesAt(m, base, c) && base + |c| < TWO64 && XRun(c, XState(at, x), n).Some?
    ensures var e := XRun(c, XState(at, x), n).value;
            NRun(Machine(base + at, x, m), n) == Some(Machine(base + e.at, e.regs, m))
    decreases n
  {
    hide XDecode, XExec, NDecode, NStep;
    if n > 0 {
      var d := XDecode(c, at);
      var s := Machine(base + at, x, m);
      StraightStep(base, c, at, x, m);
      StraightRuns(base, c, at + d.len, XExec(d.i, x), m, n - 1);
    }
  }

  lemma StraightStep(base: nat, c: seq<byte>, at: nat, x: XRegs, m: Mem)
    requires LiesAt(m, base, c) && base + |c| < TWO64 && XDecode(c, at).XDecoded?
    ensures var d := XDecode(c, at);
            NStep(Machine(base + at, x, m)) == Some(Machine(base + at + d.len, XExec(d.i, x), m))
  {
    hide XDecode, XExec, NDecode, NStep, LiesAt, Bytes;
    var d := XDecode(c, at);
    var w := Bytes(m, base + at, 10);
    XLength(c, at);
    WindowShows(m, base, c, at, d.len);
    XDecodeWindow(c, at, w);
    NDecodeStraight(w, 0);
    StepAt(Machine(base + at, x, m), c, at, base, Straight(d.i), d.len);
  }

  lemma XLength(c: seq<byte>, at: nat)
    requires XDecode(c, at).XDecoded?
    ensures 3 <= XDecode(c, at).len <= 10 && at + XDecode(c, at).len <= |c|
  {
  }
}
