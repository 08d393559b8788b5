/** Block table of the block compiler: trampolines, compile stubs, the growing code arena, and the compile loop. */
module Blocks {
  import opened Words
  import opened Isa
  import opened Jit

  const MAX_BLOCKS: nat := 4096
  const TRAMP_SIZE: nat := 16
  const STUB_SIZE: nat := 64

  // ----- code arena --------------------------------------------------------------------------------

  /** `gen` counts how often the arena has been moved to a larger mapping. */
  datatype CodeBuf = CodeBuf(gen: nat, bytes: seq<byte>, cap: nat)

  predicate RoomFor(b: CodeBuf, n: nat) { |b.bytes| <= b.cap && n <= b.cap }

  /** Reserve and write |w| bytes; a full arena moves to one twice as large. */
  function Put(b: CodeBuf, w: seq<byte>): CodeBuf {
    if |b.bytes| + |w| > b.cap then CodeBuf(b.gen + 1, b.bytes + w, 2 * b.cap)
    else CodeBuf(b.gen, b.bytes + w, b.cap)
  }

  /** Writing in pieces moves the arena exactly when writing at once does. */
  lemma PutTwice(b: CodeBuf, u: seq<byte>, v: seq<byte>)
    requires RoomFor(b, |u| + |v|)
    ensures Put(Put(b, u), v) == Put(b, u + v) && RoomFor(Put(b, u), |v|)
  {
    assert (b.bytes + u) + v == b.bytes + (u + v);
  }

  /** A code pointer: mapping and offset in it. */
  datatype Ptr = Ptr(gen: nat, off: nat)

  // ----- table -----------------------------------------------------------------------------------------

  /** `tramp` is the trampoline's offset in its arena. */
  datatype Entry = Entry(off: u32, tramp: nat, native: Option<Ptr>)

  /** Addresses outside the model: arenas, the context, the C handler, and each successive code mapping. */
  datatype Places = Places(tramps: u64, stubs: u64, ctx: u64, handler: u64, maps: seq<u64>)

  datatype State = State(blocks: seq<Entry>, tramps: seq<byte>, stubs: seq<byte>, code: CodeBuf)

  function NativeAddress(pl: Places, p: Ptr): nat {
    (if p.gen < |pl.maps| then pl.maps[p.gen] else 0) + p.off
  }

  function TrampAddress(pl: Places, e: Entry): nat { pl.tramps + e.tramp }

  /** jmp [rip+0]; target; xchg ax,ax */
  function TrampBytes(target: nat): (w: seq<byte>)
    ensures |w| == TRAMP_SIZE
  {
    [0xFF, 0x25, 0, 0, 0, 0] + Le(8, target) + [0x66, 0x90]
  }

  function StubHead(pl: Places, off: u32): (w: seq<byte>)
    ensures |w| == 57 && w[0] == 0x48
  {
    [0x48, 0xC7, 0x44, 0x24, 0xF8] + Le(4, off)
    + [0x50, 0x51, 0x52, 0x57, 0x56, 0x41, 0x50, 0x41, 0x51, 0x41, 0x52, 0x41, 0x53]
    + [0x48, 0x83, 0xEC, 0x08]
    + [0x48, 0xBF] + Le(8, pl.ctx)
    + [0xBE] + Le(4, off)
    + [0x48, 0xB8] + Le(8, pl.handler)
    + [0xFF, 0xD0]
    + [0x48, 0x83, 0xC4, 0x08]
  }

  const STUB_TAIL: seq<byte> := [0x41, 0x5B, 0x41, 0x5A, 0x41, 0x59, 0x41, 0x58, 0x5E, 0x5F, 0x5A, 0x59, 0x58, 0xC3]

  /** The compile stub: 71 bytes. */
  function StubBytes(pl: Places, off: u32): (w: seq<byte>)
    ensures |w| == 71
  {
    StubHead(pl, off) + STUB_TAIL
  }

  function FindBlock(blocks: seq<Entry>, off: u32): (i: nat)
    ensures i <= |blocks| && (i < |blocks| ==> blocks[i].off == off)
    ensures forall k :: 0 <= k < i ==> blocks[k].off != off
  {
    if blocks == [] || blocks[0].off == off then 0 else 1 + FindBlock(blocks[1..], off)
  }

  /** StubOverrun: the last stub would run past its arena. */
  datatype Got = Got(s: State, i: nat) | TableFull | StubOverrun

  function BlockGet(pl: Places, s: State, off: u32): (r: Got)
    ensures r.Got? ==> r.i < |r.s.blocks| && |s.blocks| <= |r.s.blocks|
  {
    var i := FindBlock(s.blocks, off);
    var n := |s.blocks|;
    if i < n then Got(s, i)
    else if n >= MAX_BLOCKS then TableFull
    else if STUB_SIZE * n + 71 > |s.stubs| then StubOverrun
    else
      Got(State(s.blocks + [Entry(off, TRAMP_SIZE * n, None)],
                Overwrite(s.tramps, TRAMP_SIZE * n, TrampBytes(pl.stubs + STUB_SIZE * n)),
                Overwrite(s.stubs, STUB_SIZE * n, StubBytes(pl, off)),
                s.code), n)
  }

  // ----- compile loop -------------------------------------------------------------------------------------

  function EmitFloat(op: Op, d: Reg, s: Reg): seq<byte> {
    [0xF2, 0x0F, if op == OP_FADD then 0x58 else 0x59, ModRm(d, s)]
  }

  predicate IsFloat(op: Op) { op == OP_FADD || op == OP_FMUL }

  function EmitStraight(i: Instr): (w: seq<byte>)
    requires Integer(i.op) || IsFloat(i.op)
    ensures 3 <= |w| <= 10
  {
    if IsFloat(i.op) then EmitFloat(i.op, i.d, i.s) else EmitInteger(i)
  }

  /** Push both trampolines, jump through the first. */
  function EmitCall(ok: nat, err: nat): (w: seq<byte>)
    ensures |w| == 33
  {
    [0x49, 0x83, 0xEE, 0x10, 0x48, 0xB8] + Le(8, err) + [0x49, 0x89, 0x06, 0x48, 0xB8] + Le(8, ok)
    + [0x49, 0x89, 0x46, 0x08, 0xFF, 0xE0]
  }

  const EMIT_RET: seq<byte> := [0x49, 0x8B, 0x46, 0x08, 0x49, 0x83, 0xC6, 0x10, 0xFF, 0xE0]
  const EMIT_THROW: seq<byte> := [0x49, 0x8B, 0x06, 0x49, 0x83, 0xC6, 0x10, 0xFF, 0xE0]
  const EPILOGUE: seq<byte> := [0x5D, 0xC3]

  predicate EndsBlock(op: Op) { op in {OP_RET, OP_THROW, OP_HALT} }

  function EmitEnd(op: Op): seq<byte>
    requires EndsBlock(op)
  {
    if op == OP_RET then EMIT_RET else if op == OP_THROW then EMIT_THROW else EPILOGUE
  }

  predicate Handled(b: byte) {
    b < OP_COUNT && (Integer(b) || IsFloat(b) || EndsBlock(b) || b == OP_CALL)
  }

  /** Unhandled: an opcode the compiler aborts on. Overrun: operands past the end of the bytecode. */
  datatype Compiled = Compiled(s: State) | Unhandled | Overrun | NoBlock

  /** The loop from bytecode offset ip. */
  function CompileFrom(pl: Places, bc: seq<byte>, s: State, ip: nat): (r: Compiled)
    ensures r.Compiled? ==> |s.blocks| <= |r.s.blocks|
    decreases |bc| - ip
  {
    if ip >= |bc| then Compiled(s)
    else if !Handled(bc[ip]) then Unhandled
    else match Decode(bc, ip)
      case Decoded(i, next) =>
        if i.op == OP_CALL then
          (match BlockGet(pl, s, i.x)
           case Got(s1, ok) =>
             (match BlockGet(pl, s1, i.y)
              case Got(s2, err) =>
                Compiled(s2.(code :=
                  Put(s2.code, EmitCall(TrampAddress(pl, s2.blocks[ok]), TrampAddress(pl, s2.blocks[err])))))
              case _ => NoBlock)
           case _ => NoBlock)
        else if EndsBlock(i.op) then Compiled(s.(code := Put(s.code, EmitEnd(i.op))))
        else CompileFrom(pl, bc, s.(code := Put(s.code, EmitStraight(i))), next)
      case _ => Overrun
  }

  /** Record the native code of block i and redirect its trampoline. */
  function SetNative(pl: Places, s: State, i: nat, p: Ptr): State
    requires i < |s.blocks|
  {
    var e := s.blocks[i];
    s.(blocks := s.blocks[i := e.(native := Some(p))],
       tramps := Overwrite(s.tramps, e.tramp + 6, Le(8, NativeAddress(pl, p))))
  }

  datatype BlockOut = Native(s: State, p: Ptr) | Failed(why: Compiled)

  function CompileBlock(pl: Places, bc: seq<byte>, s: State, off: u32): BlockOut {
    match BlockGet(pl, s, off)
    case Got(s1, i) =>
      (match s1.blocks[i].native
       case Some(p) => Native(s1, p)
       case None =>
         var start := Ptr(s1.code.gen, |s1.code.bytes|);
         match CompileFrom(pl, bc, s1, off)
         case Compiled(s2) =>
           Native(SetNative(pl, s2, i, start), start)
         case bad => Failed(bad))
    case _ => Failed(NoBlock)
  }
}
