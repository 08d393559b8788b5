/** The interpreter: one dispatch step, over a register file, the shadow stack and shared memory. */
module Vm {
  import opened Words
  import opened Isa
  import opened Memory

  const SHADOW_DEPTH: nat := 2048

  const FL_ZF: u64 := 1
  const FL_SF: u64 := 2
  const FL_CF: u64 := 4
  const FL_OF: u64 := 8

  const REG_AX: Reg := 0
  const REG_BX: Reg := 1
  const REG_CX: Reg := 2
  const REG_DI: Reg := 4

  type Regs = s: seq<u64> | |s| == 8 witness [0, 0, 0, 0, 0, 0, 0, 0]

  /** The part of the register file that is not control state. Floating-point registers hold raw bits. */
  datatype Data = Data(gpr: Regs, sp: u64, bp: u64, fl: u64, fp: Regs)

  /** One thread: instruction pointer, shadow stack (top last) and data registers. */
  datatype Thread = Thread(ip: u64, shadow: seq<u64>, data: Data)

  /** Loaded bytecode: every 32-bit code offset from `base` is representable as an address. */
  datatype RawImage = RawImage(code: seq<byte>, base: nat)
  type Image = c: RawImage | c.base + TWO32 <= TWO64 && |c.code| < TWO32 witness RawImage([], 0)

  /** What the step takes from outside: the result word of a system call or of a floating-point operation,
      and the memory a system call leaves behind. */
  datatype Env = Env(word: u64, mem: Mem)

  datatype Fault =
    | UndefinedOpcode | PastCode | BadAccess
    | DivideByZero | DivideUndefined | ShadowOverflow | ShadowUnderflow

  datatype DataOut = DataOk(d: Data, m: Mem) | DataFault(why: Fault)
  datatype Outcome = Running(t: Thread, m: Mem) | Halted(t: Thread, m: Mem) | Faulted(why: Fault)

  // ----- data instructions ----------------------------------------------------------

  /** Division of signed integers, truncating toward zero. */
  function TruncDiv(a: int, b: int): int
    requires b != 0
  {
    if a >= 0 then a / b else -((-a) / b)
  }

  datatype AluOut = Value(v: u64) | AluFault(why: Fault)

  /** dst := dst op src. */
  function Alu(op: Op, a: u64, b: u64): AluOut
  {
    if op == OP_MOV_RR then Value(b)
    else if op == OP_ADD then Value(Add64(a, b))
    else if op == OP_SUB then Value(Sub64(a, b))
    else if op == OP_MUL || op == OP_IMUL then Value(Mul64(a, b))
    else if op == OP_DIV then if b == 0 then AluFault(DivideByZero) else Value(UDiv(a, b))
    else if op == OP_IDIV then
      if b == 0 then AluFault(DivideByZero)
      else if a == TWO63 && b == TWO64 - 1 then AluFault(DivideUndefined)
      else Value(TruncDiv(Signed64(a), Signed64(b)) % TWO64)
    else if op == OP_MOD then if b == 0 then AluFault(DivideUndefined) else Value(UMod(a, b))
    else if op == OP_NEG then Value(Neg64(a))
    else if op == OP_AND then Value(And64(a, b))
    else if op == OP_OR then Value(Or64(a, b))
    else if op == OP_XOR then Value(Xor64(a, b))
    else if op == OP_NOT then Value(Not64(a))
    else if op == OP_SHL then Value(Shl64(a, b % 64))
    else if op == OP_SHR then Value(Shr64(a, b % 64))
    else if op == OP_SAR then Value(Sar64(a, b % 64))
    else if op == OP_TRUNC8 then Value(a % 0x100)
    else if op == OP_TRUNC16 then Value(a % 0x1_0000)
    else Value(a % TWO32)
  }

  predicate IsAlu(op: Op) {
    op == OP_MOV_RR || OP_ADD <= op <= OP_SAR || OP_TRUNC8 <= op
  }

  function UDiv(a: u64, b: u64): u64 requires b > 0 { ShrFits(a, b); a / b }
  function UMod(a: u64, b: u64): u64 requires b > 0 { a % b }

  function CmpFlags(a: u64, b: u64): u64 {
    (if a == b then FL_ZF else 0)
    + (if Signed64(a) < Signed64(b) then FL_SF else 0)
    + (if a < b then FL_CF else 0)
    + (if And64(Xor64(a, b), Xor64(a, Sub64(a, b))) >= TWO63 then FL_OF else 0)
  }

  /** Width in bytes and sign extension of the memory operand, for loads and stores. */
  datatype Access = Access(store: bool, n: nat, signed: bool)

  predicate IsMemory(op: Op) {
    op == OP_MOV_RM || op == OP_MOV_MR || OP_MOVZX_RM8 <= op <= OP_MOV_MR32_OFF
  }

  function AccessOf(op: Op): (a: Access)
    requires IsMemory(op)
    ensures a.n in {1, 2, 4, 8} && (a.signed ==> a.n in {1, 2, 4})
  {
    if op == OP_MOV_RM || op == OP_MOV_RM_OFF then Access(false, 8, false)
    else if op == OP_MOV_MR || op == OP_MOV_MR_OFF then Access(true, 8, false)
    else if op == OP_MOVZX_RM8 || op == OP_MOVZX_RM8_OFF then Access(false, 1, false)
    else if op == OP_MOVZX_RM16 || op == OP_MOVZX_RM16_OFF then Access(false, 2, false)
    else if op == OP_MOVZX_RM32 || op == OP_MOVZX_RM32_OFF then Access(false, 4, false)
    else if op == OP_MOVSX_RM8 || op == OP_MOVSX_RM8_OFF then Access(false, 1, true)
    else if op == OP_MOVSX_RM16 || op == OP_MOVSX_RM16_OFF then Access(false, 2, true)
    else if op == OP_MOVSX_RM32 || op == OP_MOVSX_RM32_OFF then Access(false, 4, true)
    else if op == OP_MOV_MR8 || op == OP_MOV_MR8_OFF then Access(true, 1, false)
    else if op == OP_MOV_MR16 || op == OP_MOV_MR16_OFF then Access(true, 2, false)
    else Access(true, 4, false)
  }

  /** Register plus sign-extended displacement; the short forms have displacement 0. */
  function Address(base: u64, x: nat): u64
    requires x < TWO32
  {
    PowValues();
    Add64(base, SignExtend(4, x))
  }

  lemma PlainAddress(a: u64)
    ensures Address(a, 0) == a
  {
    PowValues();
  }

  function LoadReg(m: Mem, a: u64, k: Access): (r: Option<u64>)
    requires k.n in {1, 2, 4, 8} && (k.signed ==> k.n in {1, 2, 4})
  {
    PowValues();
    match Load(m, a, k.n)
    case None => None
    case Some(v) => Some(if k.signed then SignExtend(k.n, v) else v)
  }

  function ExecMemory(i: Instr, d: Data, m: Mem): DataOut
    requires WellFormed(i) && IsMemory(i.op)
  {
    var k := AccessOf(i.op);
    if k.store then
      match Store(m, Address(d.gpr[i.d], i.x), k.n, d.gpr[i.s])
      case None => DataFault(BadAccess)
      case Some(m') => DataOk(d, m')
    else
      match LoadReg(m, Address(d.gpr[i.s], i.x), k)
      case None => DataFault(BadAccess)
      case Some(v) => DataOk(d.(gpr := d.gpr[i.d := v]), m)
  }

  predicate IsStack(op: Op) {
    op in {OP_PUSH, OP_POP, OP_ENTER, OP_LEAVE, OP_ALLOCA}
  }

  /** Decrement sp by 8 and store a word there. */
  function PushWord(d: Data, m: Mem, v: u64): DataOut {
    var sp := Sub64(d.sp, 8);
    match Store(m, sp, 8, v)
    case None => DataFault(BadAccess)
    case Some(m') => DataOk(d.(sp := sp), m')
  }

  function ExecStack(i: Instr, d: Data, m: Mem): DataOut
    requires WellFormed(i) && IsStack(i.op)
  {
    PowValues();
    if i.op == OP_PUSH then PushWord(d, m, d.gpr[i.d])
    else if i.op == OP_POP then
      match Load(m, d.sp, 8)
      case None => DataFault(BadAccess)
      case Some(v) => DataOk(d.(gpr := d.gpr[i.d := v], sp := Add64(d.sp, 8)), m)
    else if i.op == OP_ENTER then
      match PushWord(d, m, d.bp)
      case DataFault(w) => DataFault(w)
      case DataOk(d', m') => DataOk(d'.(bp := d'.sp, sp := Sub64(d'.sp, i.x)), m')
    else if i.op == OP_LEAVE then
      match Load(m, d.bp, 8)
      case None => DataFault(BadAccess)
      case Some(v) => DataOk(d.(sp := Add64(d.bp, 8), bp := v), m)
    else
      var sp := Sub64(d.sp, RoundUp8(d.gpr[REG_AX]));
      DataOk(d.(sp := sp, gpr := d.gpr[REG_AX := sp]), m)
  }

  /** (ax + 7) & ~7 on 64-bit words. */
  function RoundUp8(v: u64): u64 { Add64(v, 7) / 8 * 8 }

  function ExecFloat(i: Instr, d: Data, m: Mem, e: Env): DataOut
    requires WellFormed(i)
  {
    PowValues();
    if i.op == OP_FCMP then DataOk(d.(fl := e.word % 3), m)
    else if i.op == OP_FMOV_RR then DataOk(d.(fp := d.fp[i.d := d.fp[i.s]]), m)
    else if i.op == OP_FMOV_RI && i.x < TWO64 then DataOk(d.(fp := d.fp[i.d := i.x]), m)
    else if i.op == OP_FMOV_RM then
      match Load(m, d.gpr[i.s], 8)
      case None => DataFault(BadAccess)
      case Some(v) => DataOk(d.(fp := d.fp[i.d := v]), m)
    else if i.op == OP_FMOV_MR then
      match Store(m, d.gpr[i.d], 8, d.fp[i.s])
      case None => DataFault(BadAccess)
      case Some(m') => DataOk(d, m')
    else if i.op == OP_FTOI then DataOk(d.(gpr := d.gpr[i.d := e.word]), m)
    else DataOk(d.(fp := d.fp[i.d := e.word]), m)
  }

  predicate IsControl(op: Op) {
    OP_JMP <= op <= OP_JGE || op in {OP_CALL, OP_RET, OP_THROW, OP_CALLR, OP_HALT}
  }

  /** Every instruction that falls through to the next one. */
  function ExecData(i: Instr, d: Data, m: Mem, e: Env): DataOut
    requires WellFormed(i) && !IsControl(i.op)
  {
    if IsAlu(i.op) then
      match Alu(i.op, d.gpr[i.d], d.gpr[i.s])
      case AluFault(w) => DataFault(w)
      case Value(v) => DataOk(d.(gpr := d.gpr[i.d := v]), m)
    else if i.op == OP_MOV_RI then DataOk(d.(gpr := d.gpr[i.d := i.x]), m)
    else if i.op == OP_CMP then DataOk(d.(fl := CmpFlags(d.gpr[i.d], d.gpr[i.s])), m)
    else if i.op == OP_TEST then
      DataOk(d.(fl := if And64(d.gpr[i.d], d.gpr[i.s]) != 0 then 0 else FL_ZF), m)
    else if IsMemory(i.op) then ExecMemory(i, d, m)
    else if IsStack(i.op) then ExecStack(i, d, m)
    else if i.op == OP_LEA then DataOk(d.(gpr := d.gpr[i.d := Address(d.gpr[i.s], i.x)]), m)
    else if i.op == OP_SYSCALL then DataOk(d.(gpr := d.gpr[REG_AX := e.word]), e.mem)
    else ExecFloat(i, d, m, e)
  }

  // ----- control ----------------------------------------------------------------------

  predicate Taken(op: Op, fl: u64) {
    var zf := fl % 2 == 1;
    var sf := fl / 2 % 2 == 1;
    if op == OP_JMP then true
    else if op == OP_JE then zf
    else if op == OP_JNE then !zf
    else if op == OP_JL then sf
    else if op == OP_JLE then sf || zf
    else if op == OP_JG then !(sf || zf)
    else !sf
  }

  datatype Pushed = PushOk(shadow: seq<u64>) | PushFull

  function SPush(shadow: seq<u64>, v: u64): Pushed {
    if |shadow| >= SHADOW_DEPTH then PushFull else PushOk(shadow + [v])
  }

  datatype Popped = PopOk(v: u64, shadow: seq<u64>) | PopEmpty

  function SPop(shadow: seq<u64>): Popped {
    if |shadow| == 0 then PopEmpty else PopOk(shadow[|shadow| - 1], shadow[..|shadow| - 1])
  }

  /** Push err then ok, and go to `target`. */
  function DoCall(t: Thread, m: Mem, err: u64, ok: u64, target: u64): Outcome {
    match SPush(t.shadow, err)
    case PushFull => Faulted(ShadowOverflow)
    case PushOk(s1) =>
      match SPush(s1, ok)
      case PushFull => Faulted(ShadowOverflow)
      case PushOk(s2) => Running(t.(shadow := s2, ip := target), m)
  }

  /** Pop both return addresses; RET continues at ok, THROW at err. */
  function DoReturn(t: Thread, m: Mem, throwing: bool): Outcome {
    match SPop(t.shadow)
    case PopEmpty => Faulted(ShadowUnderflow)
    case PopOk(ok, s1) =>
      match SPop(s1)
      case PopEmpty => Faulted(ShadowUnderflow)
      case PopOk(err, s2) => Running(t.(shadow := s2, ip := if throwing then err else ok), m)
  }

  function ExecControl(c: Image, i: Instr, next: nat, t: Thread, m: Mem): Outcome
    requires WellFormed(i) && IsControl(i.op) && next <= |c.code|
  {
    if i.op == OP_CALL then DoCall(t, m, c.base + i.y, c.base + next, c.base + i.x)
    else if i.op == OP_CALLR then DoCall(t, m, c.base + i.x, c.base + next, t.data.gpr[i.d])
    else if i.op == OP_RET then DoReturn(t, m, false)
    else if i.op == OP_THROW then DoReturn(t, m, true)
    else if i.op == OP_HALT then Halted(t.(ip := c.base + next), m)
    else Running(t.(ip := if Taken(i.op, t.data.fl) then c.base + i.x else c.base + next), m)
  }

  function Fetch(c: Image, ip: u64): (r: Fetched)
    ensures r.Decoded? ==> WellFormed(r.i) && r.next == ip - c.base + Width(ShapeOf(r.i.op)) <= |c.code|
  {
    if ip < c.base then PastEnd else Decode(c.code, ip - c.base)
  }

  function Exec(c: Image, i: Instr, next: nat, t: Thread, m: Mem, e: Env): Outcome
    requires WellFormed(i) && next <= |c.code|
  {
    if IsControl(i.op) then ExecControl(c, i, next, t, m)
    else match ExecData(i, t.data, m, e)
      case DataFault(w) => Faulted(w)
      case DataOk(d', m') => Running(t.(ip := c.base + next, data := d'), m')
  }

  /** One dispatch. */
  function Step(c: Image, t: Thread, m: Mem, e: Env): Outcome {
    match Fetch(c, t.ip)
    case BadOpcode(_) => Faulted(UndefinedOpcode)
    case PastEnd => Faulted(PastCode)
    case Decoded(i, next) => Exec(c, i, next, t, m, e)
  }

  /** thread_init_rf: registers zero, ip at the bytecode, sp and bp at the top of the stack. */
  function InitThread(c: Image, stackTop: u64): Thread {
    var zero: Regs := [0, 0, 0, 0, 0, 0, 0, 0];
    Thread(c.base, [], Data(zero, stackTop, stackTop, 0, zero))
  }
}
