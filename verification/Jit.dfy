/** Block compiler, integer straight-line part: bytes emitted for each instruction, and their simulation of the
    interpreter. */
module Jit {
  import opened Words
  import opened Isa
  import opened Memory
  import opened Vm
  import opened X86

  /** VM register -> x86 register. */
  function Vm2X86(r: Reg): XReg {
    if r == 0 then 0
    else if r == 1 then 3
    else if r == 2 then 1
    else if r == 3 then 2
    else if r == 4 then 7
    else if r == 5 then 6
    else if r == 6 then 8
    else 9
  }

  // ----- emitted bytes --------------------------------------------------------------------------

  function Rex(w: nat, r: nat, b: nat): byte
    requires w < 2 && r < 2 && b < 2
  {
    0x40 + 8 * w + 4 * r + b
  }

  function ModRm(reg: nat, rm: nat): byte
    requires reg < 8 && rm < 8
  {
    0xC0 + 8 * reg + rm
  }

  /** jit_rr: REX.W, opcode, register-direct ModRM with reg = d and r/m = s. */
  function EmitRr(op: byte, d: XReg, s: XReg): seq<byte> {
    [Rex(1, d / 8, s / 8), op, ModRm(d % 8, s % 8)]
  }

  /** One-operand form: the reg field holds an opcode extension. */
  function EmitDigit(op: byte, digit: nat, r: XReg): seq<byte>
    requires digit < 8
  {
    [Rex(1, 0, r / 8), op, ModRm(digit, r % 8)]
  }

  function EmitMovRi(r: XReg, imm: nat): seq<byte> {
    [Rex(1, 0, r / 8), 0xB8 + r % 8] + Le(8, imm)
  }

  function EmitImul(d: XReg, s: XReg): seq<byte> {
    [Rex(1, d / 8, s / 8), 0x0F, 0xAF, ModRm(d % 8, s % 8)]
  }

  /** Copy (as the code does it, see ShiftRightIff) and shift by cl. */
  function EmitShift(digit: nat, d: Reg, s: Reg): seq<byte>
    requires digit < 8
  {
    EmitRr(0x89, RCX, Vm2X86(s)) + EmitDigit(0xD3, digit, Vm2X86(d))
  }

  function AluOpcode(op: Op): byte {
    if op == OP_MOV_RR then 0x8B
    else if op == OP_ADD then 0x03
    else if op == OP_SUB then 0x2B
    else if op == OP_AND then 0x23
    else if op == OP_OR then 0x0B
    else 0x33
  }

  predicate TwoOperand(op: Op) { op in {OP_MOV_RR, OP_ADD, OP_SUB, OP_AND, OP_OR, OP_XOR} }
  predicate IsMul(op: Op) { op == OP_MUL || op == OP_IMUL }
  predicate IsShift(op: Op) { op in {OP_SHL, OP_SHR, OP_SAR} }

  /** Integer instructions the block compiler translates. */
  predicate Integer(op: Op) {
    TwoOperand(op) || IsMul(op) || IsShift(op) || op == OP_MOV_RI || op == OP_NEG
  }

  function ShiftDigit(op: Op): (d: nat)
    ensures d < 8
  {
    if op == OP_SHL then 4 else if op == OP_SHR then 5 else 7
  }

  function EmitInteger(i: Instr): (w: seq<byte>)
    requires Integer(i.op)
  {
    var d, s := Vm2X86(i.d), Vm2X86(i.s);
    if i.op == OP_MOV_RI then EmitMovRi(d, i.x)
    else if i.op == OP_NEG then EmitDigit(0xF7, 3, d)
    else if IsMul(i.op) then EmitImul(d, s)
    else if IsShift(i.op) then EmitShift(ShiftDigit(i.op), i.d, i.s)
    else EmitRr(AluOpcode(i.op), d, s)
  }

  predicate AllInteger(ins: seq<Instr>) {
    forall k :: 0 <= k < |ins| ==> Integer(ins[k].op)
  }

  function EmitIntegers(ins: seq<Instr>): seq<byte>
    requires AllInteger(ins)
  {
    if ins == [] then [] else EmitInteger(ins[0]) + EmitIntegers(ins[1..])
  }

  // ----- decoding what was emitted ------------------------------------------------------------------

  lemma BytesAt(c: seq<byte>, at: nat, w: seq<byte>)
    requires HasAt(c, at, w)
    ensures at + |w| <= |c| && forall k :: 0 <= k < |w| ==> c[at + k] == w[k]
  {
    forall k | 0 <= k < |w| ensures c[at + k] == w[k] {
      assert c[at..at + |w|][k] == c[at + k];
    }
  }

  lemma RexFields(r: nat, b: nat)
    requires r < 2 && b < 2
    ensures RexW(Rex(1, r, b)) && RexR(Rex(1, r, b)) == r && RexB(Rex(1, r, b)) == b
  {
    if r == 0 { assert b == 0 || b == 1; } else { assert r == 1 && (b == 0 || b == 1); }
  }

  lemma ModRmFields(reg: nat, rm: nat)
    requires reg < 8 && rm < 8
    ensures ModRm(reg, rm) % 8 == rm && ModRm(reg, rm) / 8 % 8 == reg && Direct(ModRm(reg, rm))
  {
    assert ModRm(reg, rm) / 8 == 24 + reg;
    assert ModRm(reg, rm) / 64 == 3;
  }

  lemma RegFields(reg: XReg, rm: XReg)
    ensures var rex, m := Rex(1, reg / 8, rm / 8), ModRm(reg % 8, rm % 8);
            Direct(m) && RegField(rex, m) == reg && RmField(rex, m) == rm
  {
    RexFields(reg / 8, rm / 8);
    ModRmFields(reg % 8, rm % 8);
    hide Rex, ModRm, RexR, RexB, Direct;
  }

  lemma DigitFields(digit: nat, rm: XReg)
    requires digit < 8
    ensures var rex, m := Rex(1, 0, rm / 8), ModRm(digit, rm % 8);
            Direct(m) && m / 8 % 8 == digit && RmField(rex, m) == rm
  {
    RexFields(0, rm / 8);
    ModRmFields(digit, rm % 8);
    hide Rex, ModRm, RexR, RexB, Direct;
  }

  lemma DecodeRr(c: seq<byte>, at: nat, op: byte, d: XReg, s: XReg)
    requires HasAt(c, at, EmitRr(op, d, s)) && (LoadForm(op).Some? || op == 0x89)
    ensures XDecode(c, at)
         == XDecoded(if op == 0x89 then Rr(XMov, s, d) else Rr(LoadForm(op).value, d, s), 3)
  {
    hide Rex, ModRm, RexW, RexR, RexB, Direct, RegField, RmField, HasAt;
    var w := EmitRr(op, d, s);
    BytesAt(c, at, w);
    assert c[at + 0] == w[0] && c[at + 1] == w[1] && c[at + 2] == w[2];
    RexFields(d / 8, s / 8);
    RegFields(d, s);
  }

  lemma OneByteDigit(rex: byte, op: byte, m: byte, digit: nat)
    requires Direct(m) && m / 8 % 8 == digit
    requires (op == 0xF7 && digit == 3) || (op == 0xD3 && digit in {4, 5, 7})
    ensures OneByte(rex, op, m)
         == XDecoded(if op == 0xF7 then Neg(RmField(rex, m)) else ShiftCl(Kind(digit), RmField(rex, m)), 3)
  {
    hide RegField, RmField, Direct;
  }

  lemma DecodeDigit(c: seq<byte>, at: nat, op: byte, digit: nat, r: XReg)
    requires digit < 8 && HasAt(c, at, EmitDigit(op, digit, r))
    requires (op == 0xF7 && digit == 3) || (op == 0xD3 && digit in {4, 5, 7})
    ensures XDecode(c, at) == XDecoded(if op == 0xF7 then Neg(r) else ShiftCl(Kind(digit), r), 3)
  {
    hide Rex, ModRm, RexW, RexR, RexB, Direct, RegField, RmField, HasAt, OneByte;
    var w := EmitDigit(op, digit, r);
    BytesAt(c, at, w);
    assert c[at + 0] == w[0] && c[at + 1] == w[1] && c[at + 2] == w[2];
    RexFields(0, r / 8);
    DigitFields(digit, r);
    OneByteDigit(c[at], op, c[at + 2], digit);
  }

  function Kind(digit: nat): XShift {
    if digit == 4 then XShl else if digit == 5 then XShr else XSar
  }

  lemma DecodeMovRi(c: seq<byte>, at: nat, r: XReg, imm: u64)
    requires HasAt(c, at, EmitMovRi(r, imm))
    ensures XDecode(c, at) == XDecoded(MovImm(r, imm), 10)
  {
    var head := [Rex(1, 0, r / 8), 0xB8 + r % 8];
    HasAtSplit(c, at, head, Le(8, imm));
    BytesAt(c, at, head);
    assert c[at + 0] == head[0] && c[at + 1] == head[1];
    RexFields(0, r / 8);
    PowValues();
    FromLeLe(8, imm);
    assert (0xB8 + r % 8) % 8 == r % 8;
    assert c[at + 2..at + 10] == Le(8, imm);
    hide Rex, RexW, RexR, RexB, Le;
  }

  lemma DecodeImul(c: seq<byte>, at: nat, d: XReg, s: XReg)
    requires HasAt(c, at, EmitImul(d, s))
    ensures XDecode(c, at) == XDecoded(Rr(XImul, d, s), 4)
  {
    hide Rex, ModRm, RexW, RexR, RexB, Direct, RegField, RmField, HasAt, LoadForm, OneByte;
    var w := EmitImul(d, s);
    BytesAt(c, at, w);
    assert c[at + 0] == w[0] && c[at + 1] == w[1] && c[at + 2] == w[2] && c[at + 3] == w[3];
    RexFields(d / 8, s / 8);
    RegFields(d, s);
  }

  // ----- simulation of one instruction ------------------------------------------------------------------

  /** The x86 registers hold the VM's. */
  ghost predicate Related(g: Regs, x: XRegs) {
    forall r: Reg :: x[Vm2X86(r)] == g[r]
  }

  predicate Mapped16(q: XReg) { q in {0, 1, 2, 3, 6, 7, 8, 9} }

  /** Every x86 register that holds no VM register is the same. */
  ghost predicate OthersKept(x: XRegs, x': XRegs) {
    forall q: XReg :: !Mapped16(q) ==> x'[q] == x[q]
  }

  lemma MapInjective(a: Reg, b: Reg)
    ensures Mapped16(Vm2X86(a)) && (Vm2X86(a) == Vm2X86(b) ==> a == b)
  {
  }

  lemma WriteRelated(g: Regs, x: XRegs, d: Reg, v: u64)
    requires Related(g, x)
    ensures Related(g[d := v], x[Vm2X86(d) := v]) && OthersKept(x, x[Vm2X86(d) := v])
  {
    forall r: Reg ensures x[Vm2X86(d) := v][Vm2X86(r)] == g[d := v][r] {
      MapInjective(r, d);
    }
    MapInjective(d, d);
  }

  /** What the interpreter computes for an integer instruction. */
  function Result(i: Instr, g: Regs): Regs
    requires Integer(i.op) && WellFormed(i)
  {
    if i.op == OP_MOV_RI then g[i.d := i.x]
    else assert Alu(i.op, g[i.d], g[i.s]).Value?; g[i.d := Alu(i.op, g[i.d], g[i.s]).v]
  }

  lemma ResultIsExec(i: Instr, d: Data, m: Mem, e: Env)
    requires Integer(i.op) && WellFormed(i)
    ensures !IsControl(i.op) && ExecData(i, d, m, e) == DataOk(d.(gpr := Result(i, d.gpr)), m)
  {
  }

  lemma AluAgrees(op: Op, a: u64, b: u64)
    requires TwoOperand(op)
    ensures LoadForm(AluOpcode(op)).Some? && Alu(op, a, b) == Value(XAluOf(LoadForm(AluOpcode(op)).value, a, b))
  {
    hide Bits64, And64, Or64, Xor64, Add64, Sub64;
  }

  lemma ShiftAgrees(op: Op, a: u64, k: nat)
    requires IsShift(op) && k < 64
    ensures Alu(op, a, k) == Value(ShiftBy(Kind(ShiftDigit(op)), a, k))
  {
    hide Shl64, Shr64, Sar64, ShiftBy;
    if op == OP_SHL { ShlIsIterated(a, k); }
    else if op == OP_SHR { ShrIsIterated(a, k); }
    else { SarIsIterated(a, k); }
  }

  lemma ShiftMasks(op: Op, a: u64, b: u64)
    requires IsShift(op)
    ensures Alu(op, a, b) == Alu(op, a, b % 64)
  {
    hide Shl64, Shr64, Sar64;
  }

  function Steps(i: Instr): nat
    requires Integer(i.op)
  {
    if IsShift(i.op) then 2 else 1
  }

  /** x86 registers after the bytes of one instruction. */
  function Native(i: Instr, x: XRegs): XRegs
    requires Integer(i.op) && WellFormed(i)
  {
    var d, s := Vm2X86(i.d), Vm2X86(i.s);
    if i.op == OP_MOV_RI then XExec(MovImm(d, i.x), x)
    else if i.op == OP_NEG then XExec(Neg(d), x)
    else if IsMul(i.op) then XExec(Rr(XImul, d, s), x)
    else if IsShift(i.op) then XExec(ShiftCl(Kind(ShiftDigit(i.op)), d), XExec(Rr(XMov, s, RCX), x))
    else AluAgrees(i.op, 0, 0); XExec(Rr(LoadForm(AluOpcode(i.op)).value, d, s), x)
  }

  lemma OneStep(c: seq<byte>, at: nat, x: XRegs, i: XInstr, len: nat)
    requires XDecode(c, at) == XDecoded(i, len)
    ensures XRun(c, XState(at, x), 1) == Some(XState(at + len, XExec(i, x)))
  {
    hide XDecode, XExec;
    var s := XState(at + len, XExec(i, x));
    assert XRun(c, s, 0) == Some(s);
  }

  /** The emitted bytes decode to, and have the effect of, `Native`. */
  lemma EmittedRuns(c: seq<byte>, at: nat, i: Instr, x: XRegs)
    requires Integer(i.op) && WellFormed(i) && HasAt(c, at, EmitInteger(i))
    ensures XRun(c, XState(at, x), Steps(i)) == Some(XState(at + |EmitInteger(i)|, Native(i, x)))
  {
    hide XDecode, XExec, XRun, HasAt, EmitRr, EmitDigit, EmitImul, EmitMovRi, LoadForm;
    var d, s := Vm2X86(i.d), Vm2X86(i.s);
    EmitLengths(d, s, i.x);
    if i.op == OP_MOV_RI {
      DecodeMovRi(c, at, d, i.x);
      OneStep(c, at, x, MovImm(d, i.x), 10);
    } else if i.op == OP_NEG {
      DecodeDigit(c, at, 0xF7, 3, d);
      OneStep(c, at, x, Neg(d), 3);
    } else if IsMul(i.op) {
      DecodeImul(c, at, d, s);
      OneStep(c, at, x, Rr(XImul, d, s), 4);
    } else if IsShift(i.op) {
      ShiftRuns(c, at, i, x);
    } else {
      AluAgrees(i.op, 0, 0);
      DecodeRr(c, at, AluOpcode(i.op), d, s);
      OneStep(c, at, x, Rr(LoadForm(AluOpcode(i.op)).value, d, s), 3);
    }
  }

  lemma EmitLengths(d: XReg, s: XReg, imm: nat)
    ensures |EmitMovRi(d, imm)| == 10 && |EmitImul(d, s)| == 4
    ensures forall op: byte :: |EmitRr(op, d, s)| == 3
    ensures forall op: byte, digit: nat :: digit < 8 ==> |EmitDigit(op, digit, d)| == 3
    ensures forall op: byte :: |EmitRr(op, RCX, s)| == 3
  {
  }

  lemma ShiftRuns(c: seq<byte>, at: nat, i: Instr, x: XRegs)
    requires IsShift(i.op) && WellFormed(i) && HasAt(c, at, EmitInteger(i))
    ensures XRun(c, XState(at, x), 2) == Some(XState(at + |EmitInteger(i)|, Native(i, x)))
  {
    var d, s, digit := Vm2X86(i.d), Vm2X86(i.s), ShiftDigit(i.op);
    HasAtSplit(c, at, EmitRr(0x89, RCX, s), EmitDigit(0xD3, digit, d));
    DecodeRr(c, at, 0x89, RCX, s);
    DecodeDigit(c, at + 3, 0xD3, digit, d);
    hide XDecode, XExec, HasAt;
    var x1 := XExec(Rr(XMov, s, RCX), x);
    OneStep(c, at, x, Rr(XMov, s, RCX), 3);
    OneStep(c, at + 3, x1, ShiftCl(Kind(digit), d), 3);
    XRunAdd(c, XState(at, x), 1, 1);
  }

  // ----- shifts -------------------------------------------------------------------------------------------

  /** The sources for which an instruction is translated soundly. */
  predicate Sound(i: Instr) {
    Integer(i.op) && (IsShift(i.op) ==> i.s == REG_CX)
  }

  lemma NegIsSub(a: u64)
    ensures Sub64(0, a) == Neg64(a)
  {
  }

  lemma NativeIsResult(i: Instr, g: Regs, x: XRegs)
    requires Sound(i) && WellFormed(i) && Related(g, x)
    ensures Related(Result(i, g), Native(i, x)) && OthersKept(x, Native(i, x))
  {
    var d, s := Vm2X86(i.d), Vm2X86(i.s);
    hide Bits64, And64, Or64, Xor64, Add64, Sub64, Related, OthersKept, ShiftBy, LoadForm, Shl64, Shr64, Sar64;
    RelatedAt(g, x, i.d);
    RelatedAt(g, x, i.s);
    if i.op == OP_MOV_RI {
      WriteRelated(g, x, i.d, i.x);
    } else if i.op == OP_NEG {
      NegIsSub(g[i.d]);
      WriteRelated(g, x, i.d, Neg64(g[i.d]));
    } else if IsMul(i.op) {
      ImulIsMul(g[i.d], g[i.s]);
      WriteRelated(g, x, i.d, Mul64(g[i.d], g[i.s]));
    } else if IsShift(i.op) {
      ShiftMasks(i.op, g[i.d], g[i.s]);
      ShiftAgrees(i.op, g[i.d], g[i.s] % 64);
      assert x[s := x[RCX]] == x;
      WriteRelated(g, x, i.d, Result(i, g)[i.d]);
    } else {
      AluAgrees(i.op, g[i.d], g[i.s]);
      WriteRelated(g, x, i.d, Result(i, g)[i.d]);
    }
  }

  lemma RelatedAt(g: Regs, x: XRegs, r: Reg)
    requires Related(g, x)
    ensures x[Vm2X86(r)] == g[r]
  {
  }

  const ZEROS: Regs := [0, 0, 0, 0, 0, 0, 0, 0]

  /** The emitted copy overwrites the shift's source with cx, so the translation is right for every register
      file exactly when the source is cx. */
  lemma ShiftRightIff(i: Instr)
    requires IsShift(i.op) && WellFormed(i)
    ensures (forall g: Regs, x: XRegs :: Related(g, x) ==> Related(Result(i, g), Native(i, x))) <==> i.s == REG_CX
  {
    if i.s == REG_CX {
      forall g: Regs, x: XRegs | Related(g, x) ensures Related(Result(i, g), Native(i, x)) {
        NativeIsResult(i, g, x);
      }
    } else {
      var g, x := WrongShift(i);
      assert Related(g, x) && !Related(Result(i, g), Native(i, x));
    }
  }

  /** With 64 in the source and 0 in cx: the source becomes 0, where the interpreter keeps 64. */
  lemma WrongShift(i: Instr) returns (g: Regs, x: XRegs)
    requires IsShift(i.op) && WellFormed(i) && i.s != REG_CX
    ensures Related(g, x) && !Related(Result(i, g), Native(i, x))
  {
    var zeros: XRegs := [0, 0, 0, 0, 0, 0, 0, 0, 0, 0, 0, 0, 0, 0, 0, 0];
    g, x := ZEROS[i.s := 64], zeros[Vm2X86(i.s) := 64];
    WriteRelated(ZEROS, zeros, i.s, 64);
    MapInjective(i.s, REG_CX);
    assert x[RCX] == 0;
    var x1 := XExec(Rr(XMov, Vm2X86(i.s), RCX), x);
    assert Native(i, x) == x1[Vm2X86(i.d) := x1[Vm2X86(i.d)]];
    assert Native(i, x)[Vm2X86(i.s)] == 0;
    if i.d == i.s { ShiftByZero(i, g); } else { assert Result(i, g)[i.s] == 64; }
  }

  lemma ShiftByZero(i: Instr, g: Regs)
    requires IsShift(i.op) && WellFormed(i) && i.d == i.s && g[i.s] == 64
    ensures Result(i, g)[i.s] == 64
  {
    assert Pow2(0) == 1;
  }

  // ----- simulation of a straight-line block ----------------------------------------------------------------

  /** The interpreter's fetch reads exactly these instructions from offset `at` on. */
  ghost predicate DecodesTo(code: seq<byte>, at: nat, ins: seq<Instr>)
    decreases |ins|
  {
    ins == [] ||
    (Decode(code, at).Decoded? && Decode(code, at).i == ins[0] && DecodesTo(code, Decode(code, at).next, ins[1..]))
  }

  ghost function EndOf(at: nat, ins: seq<Instr>): nat {
    at + Boundary(ins, |ins|)
  }

  /** k dispatches of the interpreter, if none of them stops it. */
  ghost function VmRun(c: Image, t: Thread, m: Mem, e: Env, k: nat): Option<Thread>
    decreases k
  {
    if k == 0 then Some(t)
    else match Step(c, t, m, e)
      case Running(t', m') => VmRun(c, t', m', e, k - 1)
      case _ => None
  }

  ghost predicate AllSound(ins: seq<Instr>) {
    forall k :: 0 <= k < |ins| ==> Sound(ins[k]) && WellFormed(ins[k])
  }

  ghost function StepsOf(ins: seq<Instr>): nat
    requires AllSound(ins)
  {
    if ins == [] then 0 else Steps(ins[0]) + StepsOf(ins[1..])
  }

  /** The interpreter's registers after the block. */
  ghost function ResultAll(ins: seq<Instr>, g: Regs): Regs
    requires AllSound(ins)
  {
    if ins == [] then g else ResultAll(ins[1..], Result(ins[0], g))
  }

  lemma StepInteger(c: Image, t: Thread, m: Mem, e: Env, i: Instr, next: nat)
    requires c.base <= t.ip && Decode(c.code, t.ip - c.base) == Decoded(i, next) && Integer(i.op) && WellFormed(i)
    ensures next <= |c.code|
    ensures Step(c, t, m, e) == Running(Thread(c.base + next, t.shadow, t.data.(gpr := Result(i, t.data.gpr))), m)
  {
    hide Decode, ExecData, Result, Integer;
    ResultIsExec(i, t.data, m, e);
  }

  /** The interpreter over a straight-line block changes ip and the general registers only. */
  lemma {:induction false} VmRunsBlock(c: Image, t: Thread, m: Mem, e: Env, ins: seq<Instr>)
    requires c.base <= t.ip && AllSound(ins) && DecodesTo(c.code, t.ip - c.base, ins)
    ensures c.base + EndOf(t.ip - c.base, ins) < TWO64
    ensures VmRun(c, t, m, e, |ins|)
         == Some(Thread(c.base + EndOf(t.ip - c.base, ins), t.shadow, t.data.(gpr := ResultAll(ins, t.data.gpr))))
    decreases |ins|
  {
    hide Decode, Step, Result, Width, Integer, Sound;
    if ins != [] {
      var next := Decode(c.code, t.ip - c.base).next;
      assert Integer(ins[0].op) by { SoundIsInteger(ins[0]); }
      StepInteger(c, t, m, e, ins[0], next);
      var t' := Thread(c.base + next, t.shadow, t.data.(gpr := Result(ins[0], t.data.gpr)));
      VmRunsBlock(c, t', m, e, ins[1..]);
    }
  }

  lemma SoundIsInteger(i: Instr)
    requires Sound(i)
    ensures Integer(i.op)
  {
  }

  lemma OthersKeptTwice(x: XRegs, y: XRegs, z: XRegs)
    requires OthersKept(x, y) && OthersKept(y, z)
    ensures OthersKept(x, z)
  {
  }

  /** One instruction on both sides. */
  lemma NativeStep(native: seq<byte>, p: nat, g: Regs, x: XRegs, i: Instr, rest: seq<byte>)
    requires Sound(i) && WellFormed(i) && Related(g, x) && HasAt(native, p, EmitInteger(i) + rest)
    ensures XRun(native, XState(p, x), Steps(i)) == Some(XState(p + |EmitInteger(i)|, Native(i, x)))
    ensures Related(Result(i, g), Native(i, x)) && OthersKept(x, Native(i, x))
    ensures HasAt(native, p + |EmitInteger(i)|, rest)
  {
    hide XRun, Result, Native, EmitInteger, HasAt, Related, Steps, OthersKept;
    HasAtSplit(native, p, EmitInteger(i), rest);
    EmittedRuns(native, p, i, x);
    NativeIsResult(i, g, x);
  }

  lemma AllSoundTail(ins: seq<Instr>)
    requires AllSound(ins)
    ensures AllInteger(ins)
    ensures ins != [] ==> Sound(ins[0]) && WellFormed(ins[0]) && AllSound(ins[1..])
  {
  }

  /** Running the block's bytes from p and x ends just past them, in x', which holds the interpreter's result. */
  ghost predicate RunsTo(native: seq<byte>, p: nat, g: Regs, x: XRegs, ins: seq<Instr>, x': XRegs)
    requires AllSound(ins)
  {
    AllSoundTail(ins);
    && XRun(native, XState(p, x), StepsOf(ins)) == Some(XState(p + |EmitIntegers(ins)|, x'))
    && Related(ResultAll(ins, g), x') && OthersKept(x, x')
  }

  lemma RunsToNone(native: seq<byte>, p: nat, g: Regs, x: XRegs)
    requires Related(g, x)
    ensures AllSound([]) && RunsTo(native, p, g, x, [], x)
  {
  }

  lemma Unfold(ins: seq<Instr>, g: Regs)
    requires ins != [] && AllSound(ins) && AllSound(ins[1..]) && Sound(ins[0]) && WellFormed(ins[0])
    requires AllInteger(ins)
    ensures AllInteger(ins[1..])
    ensures StepsOf(ins) == Steps(ins[0]) + StepsOf(ins[1..])
    ensures ResultAll(ins, g) == ResultAll(ins[1..], Result(ins[0], g))
    ensures EmitIntegers(ins) == EmitInteger(ins[0]) + EmitIntegers(ins[1..])
  {
    hide Result, EmitInteger, Steps, Fits, Sound;
  }

  lemma RunsToCons(native: seq<byte>, p: nat, g: Regs, x: XRegs, ins: seq<Instr>, x': XRegs)
    requires ins != [] && AllSound(ins) && AllSound(ins[1..]) && Sound(ins[0]) && WellFormed(ins[0])
    requires XRun(native, XState(p, x), Steps(ins[0]))
          == Some(XState(p + |EmitInteger(ins[0])|, Native(ins[0], x)))
    requires OthersKept(x, Native(ins[0], x))
    requires RunsTo(native, p + |EmitInteger(ins[0])|, Result(ins[0], g), Native(ins[0], x), ins[1..], x')
    ensures RunsTo(native, p, g, x, ins, x')
  {
    hide XRun, Result, Native, Sound, EmitInteger, EmitIntegers, StepsOf, ResultAll, Related, Steps, OthersKept,
         AllSound, Fits, Integer, AllInteger;
    AllSoundTail(ins);
    AllSoundTail(ins[1..]);
    Unfold(ins, g);
    OthersKeptTwice(x, Native(ins[0], x), x');
    XRunAdd(native, XState(p, x), Steps(ins[0]), StepsOf(ins[1..]));
  }

  lemma {:induction false} NativeRunsBlock(native: seq<byte>, p: nat, g: Regs, x: XRegs, ins: seq<Instr>)
      returns (x': XRegs)
    requires AllSound(ins) && Related(g, x)
    requires HasAt(native, p, (AllSoundTail(ins); EmitIntegers(ins)))
    ensures RunsTo(native, p, g, x, ins, x')
    decreases |ins|
  {
    hide Result, Native, Sound, EmitInteger, HasAt, Related, AllSound, AllInteger, Fits, OthersKept, XRun, RunsTo,
         EmitIntegers;
    AllSoundTail(ins);
    if ins == [] {
      x' := x;
      RunsToNone(native, p, g, x);
    } else {
      Unfold(ins, g);
      AllSoundTail(ins[1..]);
      NativeStep(native, p, g, x, ins[0], EmitIntegers(ins[1..]));
      x' := NativeRunsBlock(native, p + |EmitInteger(ins[0])|, Result(ins[0], g), Native(ins[0], x), ins[1..]);
      RunsToCons(native, p, g, x, ins, x');
    }
  }

  /** Forward simulation: executing the emitted bytes and interpreting the bytecode end in related registers,
      at the end of the emitted bytes and of the bytecode; nothing else changes on either side. */
  lemma BlockSimulation(
      c: Image, t: Thread, m: Mem, e: Env, ins: seq<Instr>, native: seq<byte>, p: nat, x: XRegs)
      returns (t': Thread, x': XRegs)
    requires c.base <= t.ip && DecodesTo(c.code, t.ip - c.base, ins) && AllSound(ins)
    requires HasAt(native, p, (AllSoundTail(ins); EmitIntegers(ins))) && Related(t.data.gpr, x)
    ensures VmRun(c, t, m, e, |ins|) == Some(t')
    ensures t' == Thread(t'.ip, t.shadow, t.data.(gpr := t'.data.gpr)) && t'.ip == t.ip + Boundary(ins, |ins|)
    ensures XRun(native, XState(p, x), StepsOf(ins)) == Some(XState(p + |EmitIntegers(ins)|, x'))
    ensures Related(t'.data.gpr, x') && OthersKept(x, x')
  {
    AllSoundTail(ins);
    hide Related, Sound, VmRun, XRun, HasAt;
    VmRunsBlock(c, t, m, e, ins);
    t' := VmRun(c, t, m, e, |ins|).value;
    x' := NativeRunsBlock(native, p, t.data.gpr, x, ins);
  }
}
