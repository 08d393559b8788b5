/** The bytecode instruction set: opcode numbers, operand layouts, encoder and the interpreter's fetch. */
module Isa {
  import opened Words

  /** Opcodes are numbered in the order of the C enumeration; OP_COUNT entries fill the dispatch table. */
  const OP_COUNT: nat := 74
  type Op = b: byte | b < 74

  const OP_MOV_RR: Op := 0
  const OP_MOV_RI: Op := 1
  const OP_MOV_RM: Op := 2
  const OP_MOV_MR: Op := 3
  const OP_ADD: Op := 4
  const OP_SUB: Op := 5
  const OP_MUL: Op := 6
  const OP_IMUL: Op := 7
  const OP_DIV: Op := 8
  const OP_IDIV: Op := 9
  const OP_MOD: Op := 10
  const OP_NEG: Op := 11
  const OP_AND: Op := 12
  const OP_OR: Op := 13
  const OP_XOR: Op := 14
  const OP_NOT: Op := 15
  const OP_SHL: Op := 16
  const OP_SHR: Op := 17
  const OP_SAR: Op := 18
  const OP_CMP: Op := 19
  const OP_TEST: Op := 20
  const OP_JMP: Op := 21
  const OP_JE: Op := 22
  const OP_JNE: Op := 23
  const OP_JL: Op := 24
  const OP_JLE: Op := 25
  const OP_JG: Op := 26
  const OP_JGE: Op := 27
  const OP_PUSH: Op := 28
  const OP_POP: Op := 29
  const OP_ENTER: Op := 30
  const OP_LEAVE: Op := 31
  const OP_CALL: Op := 32
  const OP_RET: Op := 33
  const OP_THROW: Op := 34
  const OP_FADD: Op := 35
  const OP_FSUB: Op := 36
  const OP_FMUL: Op := 37
  const OP_FDIV: Op := 38
  const OP_FCMP: Op := 39
  const OP_FMOV_RR: Op := 40
  const OP_FMOV_RI: Op := 41
  const OP_FMOV_RM: Op := 42
  const OP_FMOV_MR: Op := 43
  const OP_ITOF: Op := 44
  const OP_FTOI: Op := 45
  const OP_SYSCALL: Op := 46
  const OP_HALT: Op := 47
  const OP_MOVZX_RM8: Op := 48
  const OP_MOVZX_RM16: Op := 49
  const OP_MOVZX_RM32: Op := 50
  const OP_MOVSX_RM8: Op := 51
  const OP_MOVSX_RM16: Op := 52
  const OP_MOVSX_RM32: Op := 53
  const OP_MOV_MR8: Op := 54
  const OP_MOV_MR16: Op := 55
  const OP_MOV_MR32: Op := 56
  const OP_MOV_RM_OFF: Op := 57
  const OP_MOV_MR_OFF: Op := 58
  const OP_MOVZX_RM8_OFF: Op := 59
  const OP_MOVZX_RM16_OFF: Op := 60
  const OP_MOVZX_RM32_OFF: Op := 61
  const OP_MOVSX_RM8_OFF: Op := 62
  const OP_MOVSX_RM16_OFF: Op := 63
  const OP_MOVSX_RM32_OFF: Op := 64
  const OP_MOV_MR8_OFF: Op := 65
  const OP_MOV_MR16_OFF: Op := 66
  const OP_MOV_MR32_OFF: Op := 67
  const OP_CALLR: Op := 68
  const OP_ALLOCA: Op := 69
  const OP_LEA: Op := 70
  const OP_TRUNC8: Op := 71
  const OP_TRUNC16: Op := 72
  const OP_TRUNC32: Op := 73

  // ----- operand layouts ---------------------------------------------------------

  /** What follows the opcode byte. */
  datatype Shape =
    | Bare            // nothing
    | RegReg          // one byte: dst in bits 4-6, src in bits 0-2
    | RegImm64        // register byte, 8-byte immediate
    | RegReg32        // register byte, 4-byte displacement or code offset
    | Imm16           // 2-byte immediate
    | Code32          // one 4-byte code offset
    | Code32x2        // two 4-byte code offsets

  function ShapeOf(op: Op): Shape {
    if op in {OP_LEAVE, OP_RET, OP_THROW, OP_SYSCALL, OP_HALT, OP_ALLOCA} then Bare
    else if op == OP_MOV_RI || op == OP_FMOV_RI then RegImm64
    else if OP_JMP <= op <= OP_JGE then Code32
    else if op == OP_CALL then Code32x2
    else if op == OP_ENTER then Imm16
    else if OP_MOV_RM_OFF <= op <= OP_CALLR || op == OP_LEA then RegReg32
    else RegReg
  }

  type Reg = r: int | 0 <= r < 8

  /** A decoded instruction; operands its shape does not have are 0. */
  datatype Instr = Instr(op: Op, d: Reg, s: Reg, x: nat, y: nat)

  ghost predicate WellFormed(i: Instr) {
    Fits(ShapeOf(i.op), i)
  }

  ghost predicate Fits(sh: Shape, i: Instr) {
    match sh
       case Bare => i.d == 0 && i.s == 0 && i.x == 0 && i.y == 0
       case RegReg => i.x == 0 && i.y == 0
       case RegImm64 => i.x < TWO64 && i.y == 0
       case RegReg32 => i.x < TWO32 && i.y == 0
       case Imm16 => i.d == 0 && i.s == 0 && i.x < 0x1_0000 && i.y == 0
       case Code32 => i.d == 0 && i.s == 0 && i.x < TWO32 && i.y == 0
       case Code32x2 => i.d == 0 && i.s == 0 && i.x < TWO32 && i.y < TWO32
  }

  function Width(sh: Shape): (w: nat)
    ensures w >= 1
  {
    match sh
    case Bare => 1
    case RegReg => 2
    case RegImm64 => 10
    case RegReg32 => 6
    case Imm16 => 3
    case Code32 => 5
    case Code32x2 => 9
  }

  /** RB(d, s) of the assembler. */
  function RegByte(d: Reg, s: Reg): byte
  {
    16 * d + s
  }

  /** The operand bytes alone. */
  function OperandBytes(sh: Shape, i: Instr): (w: seq<byte>)
    ensures |w| + 1 == Width(sh)
  {
    match sh
    case Bare => []
    case RegReg => [RegByte(i.d, i.s)]
    case RegImm64 => [RegByte(i.d, i.s)] + Le(8, i.x)
    case RegReg32 => [RegByte(i.d, i.s)] + Le(4, i.x)
    case Imm16 => Le(2, i.x)
    case Code32 => Le(4, i.x)
    case Code32x2 => Le(4, i.x) + Le(4, i.y)
  }

  function Encode(i: Instr): (bytes: seq<byte>)
    ensures |bytes| == Width(ShapeOf(i.op))
  {
    [i.op] + OperandBytes(ShapeOf(i.op), i)
  }

  // ----- fetch -------------------------------------------------------------------

  datatype Fetched =
    | Decoded(i: Instr, next: nat)
    | BadOpcode(b: byte)
    | PastEnd

  /** FETCH8/16/32/64 at offset `at`. */
  function Field(code: seq<byte>, at: nat, n: nat): (v: nat)
    requires at + n <= |code|
    ensures v < Pow256(n)
  {
    FromLe(code[at..at + n])
  }

  /** One dispatch: the opcode byte selects the handler, which fetches its operands. */
  function Decode(code: seq<byte>, ip: nat): (r: Fetched)
    ensures r.Decoded? ==> WellFormed(r.i) && r.next == ip + Width(ShapeOf(r.i.op)) <= |code|
  {
    PowValues();
    if ip >= |code| then PastEnd
    else if code[ip] >= OP_COUNT then BadOpcode(code[ip])
    else
      var next := ip + Width(ShapeOf(code[ip]));
      if next > |code| then PastEnd
      else Decoded(Operands(ShapeOf(code[ip]), code[ip], code, ip), next)
  }

  function Operands(sh: Shape, op: Op, code: seq<byte>, ip: nat): (i: Instr)
    requires ip + Width(sh) <= |code|
    ensures Fits(sh, i) && i.op == op
  {
    PowValues();
    match sh
    case Bare => Instr(op, 0, 0, 0, 0)
    case RegReg => Instr(op, code[ip + 1] / 16 % 8, code[ip + 1] % 8, 0, 0)
    case RegImm64 => Instr(op, code[ip + 1] / 16 % 8, code[ip + 1] % 8, Field(code, ip + 2, 8), 0)
    case RegReg32 => Instr(op, code[ip + 1] / 16 % 8, code[ip + 1] % 8, Field(code, ip + 2, 4), 0)
    case Imm16 => Instr(op, 0, 0, Field(code, ip + 1, 2), 0)
    case Code32 => Instr(op, 0, 0, Field(code, ip + 1, 4), 0)
    case Code32x2 => Instr(op, 0, 0, Field(code, ip + 1, 4), Field(code, ip + 5, 4))
  }

  lemma HasAtSplit(code: seq<byte>, at: nat, v: seq<byte>, w: seq<byte>)
    ensures HasAt(code, at, v + w) <==> HasAt(code, at, v) && HasAt(code, at + |v|, w)
  {
    if at + |v| + |w| <= |code| {
      var c := code[at..at + |v| + |w|];
      assert c == code[at..at + |v|] + code[at + |v|..at + |v| + |w|];
      assert c[..|v|] == code[at..at + |v|] && c[|v|..] == code[at + |v|..at + |v| + |w|];
      assert (v + w)[..|v|] == v && (v + w)[|v|..] == w;
    }
  }

  lemma HasAtSelf(code: seq<byte>)
    ensures HasAt(code, 0, code)
  {
    assert code[0..0 + |code|] == code;
  }

  lemma HasAtShift(pre: seq<byte>, code: seq<byte>, at: nat, w: seq<byte>)
    requires HasAt(code, at, w)
    ensures HasAt(pre + code, |pre| + at, w)
  {
    assert (pre + code)[|pre| + at..|pre| + at + |w|] == code[at..at + |w|];
  }

  lemma FieldOfLe(code: seq<byte>, at: nat, n: nat, v: nat)
    requires HasAt(code, at, Le(n, v)) && v < Pow256(n)
    ensures Field(code, at, n) == v
  {
    FromLeLe(n, v);
  }

  lemma ByteAt(code: seq<byte>, at: nat, b: byte)
    requires HasAt(code, at, [b])
    ensures code[at] == b
  {
    assert code[at] == code[at..at + 1][0];
  }

  lemma OperandsOfBytes(sh: Shape, code: seq<byte>, at: nat, i: Instr)
    requires Fits(sh, i) && HasAt(code, at + 1, OperandBytes(sh, i))
    ensures Operands(sh, i.op, code, at) == i
  {
    PowValues();
    match sh
    case Bare =>
    case RegReg =>
      ByteAt(code, at + 1, RegByte(i.d, i.s));
    case RegImm64 =>
      HasAtSplit(code, at + 1, [RegByte(i.d, i.s)], Le(8, i.x));
      ByteAt(code, at + 1, RegByte(i.d, i.s));
      FieldOfLe(code, at + 2, 8, i.x);
    case RegReg32 =>
      HasAtSplit(code, at + 1, [RegByte(i.d, i.s)], Le(4, i.x));
      ByteAt(code, at + 1, RegByte(i.d, i.s));
      FieldOfLe(code, at + 2, 4, i.x);
    case Imm16 =>
      FieldOfLe(code, at + 1, 2, i.x);
    case Code32 =>
      FieldOfLe(code, at + 1, 4, i.x);
    case Code32x2 =>
      HasAtSplit(code, at + 1, Le(4, i.x), Le(4, i.y));
      FieldOfLe(code, at + 1, 4, i.x);
      FieldOfLe(code, at + 5, 4, i.y);
  }

  /** The interpreter reads back exactly what the encoder wrote, wherever it sits. */
  lemma DecodeEncode(code: seq<byte>, at: nat, i: Instr)
    requires WellFormed(i) && HasAt(code, at, Encode(i))
    ensures Decode(code, at) == Decoded(i, at + Width(ShapeOf(i.op)))
  {
    HasAtSplit(code, at, [i.op], OperandBytes(ShapeOf(i.op), i));
    ByteAt(code, at, i.op);
    OperandsOfBytes(ShapeOf(i.op), code, at, i);
  }

  // ----- programs ------------------------------------------------------------------

  ghost predicate AllWellFormed(ins: seq<Instr>) {
    forall k :: 0 <= k < |ins| ==> WellFormed(ins[k])
  }

  function EncodeAll(ins: seq<Instr>): (code: seq<byte>)
  {
    if ins == [] then [] else Encode(ins[0]) + EncodeAll(ins[1..])
  }

  /** Byte offset of instruction k; offset |ins| is the end of the text. */
  function Boundary(ins: seq<Instr>, k: nat): (b: nat)
    requires k <= |ins|
  {
    if k == 0 then 0 else Width(ShapeOf(ins[0].op)) + Boundary(ins[1..], k - 1)
  }

  lemma {:induction false} EncodedAt(ins: seq<Instr>, k: nat)
    requires k < |ins|
    ensures HasAt(EncodeAll(ins), Boundary(ins, k), Encode(ins[k]))
    ensures Boundary(ins, k + 1) == Boundary(ins, k) + Width(ShapeOf(ins[k].op)) <= |EncodeAll(ins)|
  {
    hide OperandBytes, Width, HasAt;
    var rest := EncodeAll(ins[1..]);
    if k == 0 {
      HasAtSelf(EncodeAll(ins));
      HasAtSplit(EncodeAll(ins), 0, Encode(ins[0]), rest);
      assert Boundary(ins[1..], 0) == 0;
    } else {
      EncodedAt(ins[1..], k - 1);
      assert ins[1..][k - 1] == ins[k];
      HasAtShift(Encode(ins[0]), rest, Boundary(ins[1..], k - 1), Encode(ins[k]));
    }
  }

  lemma {:induction false} BoundaryEnd(ins: seq<Instr>)
    ensures Boundary(ins, |ins|) == |EncodeAll(ins)|
  {
    if ins != [] {
      BoundaryEnd(ins[1..]);
    }
  }

  lemma {:induction false} BoundaryPrefix(ins: seq<Instr>, k: nat)
    requires k <= |ins|
    ensures Boundary(ins, k) == |EncodeAll(ins[..k])|
  {
    if k > 0 {
      BoundaryPrefix(ins[1..], k - 1);
      assert ins[..k][1..] == ins[1..][..k - 1];
      assert ins[..k][0] == ins[0];
    }
  }

  lemma {:induction false} EncodeAllAppend(a: seq<Instr>, b: seq<Instr>)
    ensures EncodeAll(a + b) == EncodeAll(a) + EncodeAll(b)
  {
    hide Encode;
    if a == [] {
      assert a + b == b;
    } else {
      EncodeAllAppend(a[1..], b);
      assert (a + b)[1..] == a[1..] + b && (a + b)[0] == a[0];
      Assoc(Encode(a[0]), EncodeAll(a[1..]), EncodeAll(b));
    }
  }

  /** Linear sweep from offset `at` with the interpreter's fetch widths. */
  function DecodeAll(code: seq<byte>, at: nat): (r: Option<seq<Instr>>)
    requires at <= |code|
    decreases |code| - at
  {
    if at == |code| then Some([])
    else match Decode(code, at)
      case Decoded(i, next) =>
        (match DecodeAll(code, next)
         case Some(rest) => Some([i] + rest)
         case None => None)
      case _ => None
  }

  lemma DecodeAllStep(code: seq<byte>, at: nat, i: Instr, next: nat, rest: seq<Instr>)
    requires at < |code| && next <= |code|
    requires Decode(code, at) == Decoded(i, next) && DecodeAll(code, next) == Some(rest)
    ensures DecodeAll(code, at) == Some([i] + rest)
  {
  }

  /** Decoding an encoded program gives the program back. */
  lemma {:induction false} DecodeAllEncodeAll(ins: seq<Instr>, k: nat)
    requires AllWellFormed(ins) && k <= |ins|
    ensures Boundary(ins, k) <= |EncodeAll(ins)|
    ensures DecodeAll(EncodeAll(ins), Boundary(ins, k)) == Some(ins[k..])
    decreases |ins| - k
  {
    hide Decode, Encode, Width, Fits, HasAt;
    BoundaryEnd(ins);
    if k < |ins| {
      EncodedAt(ins, k);
      DecodeEncode(EncodeAll(ins), Boundary(ins, k), ins[k]);
      DecodeAllEncodeAll(ins, k + 1);
      DecodeAllStep(EncodeAll(ins), Boundary(ins, k), ins[k], Boundary(ins, k + 1), ins[k + 1..]);
      assert ins[k..] == [ins[k]] + ins[k + 1..];
    } else {
      assert ins[k..] == [];
    }
  }
}
