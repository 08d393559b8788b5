/** The block compiler as it runs: a growing code buffer, trampoline and stub arenas, and the block table,
    all updated in place. Every method is specified by the functions of `Blocks`. */
module JitCompiler {
  import opened Words
  import opened Isa
  import opened Jit
  import opened X86
  import opened Blocks
  import opened BlockLaws

  // ----- code buffer ------------------------------------------------------------------------------

  class JitBuf {
    var buf: array<byte>
    var len: nat
    var gen: nat

    ghost predicate Valid()
      reads this
    {
      len <= buf.Length
    }

    ghost function Contents(): CodeBuf
      requires Valid()
      reads this, buf
    {
      CodeBuf(gen, buf[..len], buf.Length)
    }

    constructor (cap: nat)
      ensures Valid() && fresh(buf) && Contents() == CodeBuf(0, [], cap)
    {
      buf := new byte[cap];
      len := 0;
      gen := 0;
    }

    /** Reserve `need` bytes, moving to a mapping of twice the size when they do not fit. */
    method Alloc(need: nat) returns (p: nat)
      requires Valid() && len + need <= 2 * buf.Length
      modifies this
      ensures Valid() && p == old(len) && len == p + need && buf[..p] == old(buf[..len])
      ensures if p + need <= old(buf).Length then buf == old(buf) && gen == old(gen)
              else fresh(buf) && buf.Length == 2 * old(buf).Length && gen == old(gen) + 1
    {
      if len + need > buf.Length {
        var nb := new byte[2 * buf.Length];
        forall k | 0 <= k < len { nb[k] := buf[k]; }
        buf := nb;
        gen := gen + 1;
      }
      p := len;
      len := len + need;
    }

    /** memcpy into freshly reserved bytes. */
    method Write(w: seq<byte>)
      requires Valid() && |w| <= buf.Length
      modifies this, buf
      ensures Valid() && old(buf).Length <= buf.Length && (buf == old(buf) || fresh(buf))
      ensures Contents() == Put(old(Contents()), w)
    {
      var p := Alloc(|w|);
      forall k | 0 <= k < |w| { buf[p + k] := w[k]; }
      assert buf[..p] == old(buf[..len]);
      assert buf[..len] == buf[..p] + w;
    }

    method U8(v: byte)
      requires Valid() && 1 <= buf.Length
      modifies this, buf
      ensures Valid() && old(buf).Length <= buf.Length && (buf == old(buf) || fresh(buf))
      ensures Contents() == Put(old(Contents()), [v])
    {
      var p := Alloc(1);
      buf[p] := v;
      assert buf[..p] == old(buf[..len]);
      assert buf[..len] == buf[..p] + [v];
    }

    method U64(v: nat)
      requires Valid() && 8 <= buf.Length
      modifies this, buf
      ensures Valid() && old(buf).Length <= buf.Length && (buf == old(buf) || fresh(buf))
      ensures Contents() == Put(old(Contents()), Le(8, v))
    {
      Write(Le(8, v));
    }

    method Rr(op: byte, d: XReg, s: XReg)
      requires Valid() && 3 <= buf.Length
      modifies this, buf
      ensures Valid() && old(buf).Length <= buf.Length && (buf == old(buf) || fresh(buf))
      ensures Contents() == Put(old(Contents()), EmitRr(op, d, s))
    {
      ghost var c := Contents();
      U8(Rex(1, d / 8, s / 8));
      U8(op);
      U8(ModRm(d % 8, s % 8));
      PutThree(c, Rex(1, d / 8, s / 8), op, ModRm(d % 8, s % 8));
    }

    /** One register operand, opcode extension in the reg field. */
    method Digit(op: byte, digit: nat, r: XReg)
      requires Valid() && 3 <= buf.Length && digit < 8
      modifies this, buf
      ensures Valid() && old(buf).Length <= buf.Length && (buf == old(buf) || fresh(buf))
      ensures Contents() == Put(old(Contents()), EmitDigit(op, digit, r))
    {
      ghost var c := Contents();
      U8(Rex(1, 0, r / 8));
      U8(op);
      U8(ModRm(digit, r % 8));
      PutThree(c, Rex(1, 0, r / 8), op, ModRm(digit, r % 8));
    }

    method MovRi(r: XReg, imm: nat)
      requires Valid() && 10 <= buf.Length
      modifies this, buf
      ensures Valid() && old(buf).Length <= buf.Length && (buf == old(buf) || fresh(buf))
      ensures Contents() == Put(old(Contents()), EmitMovRi(r, imm))
    {
      ghost var c := Contents();
      U8(Rex(1, 0, r / 8));
      U8(0xB8 + r % 8);
      U64(imm);
      PutTwice(c, [Rex(1, 0, r / 8)], [0xB8 + r % 8]);
      PutTwice(c, [Rex(1, 0, r / 8)] + [0xB8 + r % 8], Le(8, imm));
      assert [Rex(1, 0, r / 8)] + [0xB8 + r % 8] == [Rex(1, 0, r / 8), 0xB8 + r % 8];
    }

    method Imul(d: XReg, s: XReg)
      requires Valid() && 4 <= buf.Length
      modifies this, buf
      ensures Valid() && old(buf).Length <= buf.Length && (buf == old(buf) || fresh(buf))
      ensures Contents() == Put(old(Contents()), EmitImul(d, s))
    {
      ghost var c := Contents();
      U8(Rex(1, d / 8, s / 8));
      U8(0x0F);
      U8(0xAF);
      U8(ModRm(d % 8, s % 8));
      PutFour(c, Rex(1, d / 8, s / 8), 0x0F, 0xAF, ModRm(d % 8, s % 8));
    }

    method Shift(digit: nat, d: Reg, s: Reg)
      requires Valid() && 6 <= buf.Length && digit < 8
      modifies this, buf
      ensures Valid() && old(buf).Length <= buf.Length && (buf == old(buf) || fresh(buf))
      ensures Contents() == Put(old(Contents()), EmitShift(digit, d, s))
    {
      ghost var c := Contents();
      Rr(0x89, RCX, Vm2X86(s));
      Digit(0xD3, digit, Vm2X86(d));
      PutTwice(c, EmitRr(0x89, RCX, Vm2X86(s)), EmitDigit(0xD3, digit, Vm2X86(d)));
    }

    /** One straight-line instruction. */
    method Straight(i: Instr)
      requires Valid() && 64 <= buf.Length && (Integer(i.op) || IsFloat(i.op))
      modifies this, buf
      ensures Valid() && old(buf).Length <= buf.Length && (buf == old(buf) || fresh(buf))
      ensures Contents() == Put(old(Contents()), EmitStraight(i))
    {
      if i.op == OP_MOV_RI { MovRi(Vm2X86(i.d), i.x); }
      else if i.op == OP_NEG { Digit(0xF7, 3, Vm2X86(i.d)); }
      else if IsMul(i.op) { Imul(Vm2X86(i.d), Vm2X86(i.s)); }
      else if i.op == OP_SHL { Shift(4, i.d, i.s); }
      else if i.op == OP_SHR { Shift(5, i.d, i.s); }
      else if i.op == OP_SAR { Shift(7, i.d, i.s); }
      else if IsFloat(i.op) {
        ghost var c := Contents();
        var b := if i.op == OP_FADD then 0x58 else 0x59;
        U8(0xF2);
        U8(0x0F);
        U8(b);
        U8(ModRm(i.d, i.s));
        PutFour(c, 0xF2, 0x0F, b, ModRm(i.d, i.s));
      }
      else { Rr(AluOpcode(i.op), Vm2X86(i.d), Vm2X86(i.s)); }
    }

    /** mov rax, imm64 */
    method MovRax(v: nat)
      requires Valid() && 10 <= buf.Length
      modifies this, buf
      ensures Valid() && old(buf).Length <= buf.Length && (buf == old(buf) || fresh(buf))
      ensures Contents() == Put(old(Contents()), [0x48, 0xB8] + Le(8, v))
    {
      ghost var c := Contents();
      U8(0x48);
      U8(0xB8);
      U64(v);
      PutTwice(c, [0x48], [0xB8]);
      PutTwice(c, [0x48] + [0xB8], Le(8, v));
      assert [0x48] + [0xB8] == [0x48, 0xB8];
    }

    /** sub r14, 16; mov rax, err; mov [r14], rax; mov rax, ok; mov [r14+8], rax; jmp rax */
    method Call(ok: nat, err: nat)
      requires Valid() && 64 <= buf.Length
      modifies this, buf
      ensures Valid() && old(buf).Length <= buf.Length && (buf == old(buf) || fresh(buf))
      ensures Contents() == Put(old(Contents()), EmitCall(ok, err))
    {
      assert RoomFor(Contents(), 64);
      hide Put, EmitCall, Contents;
      ghost var c := Contents();
      Four(0x49, 0x83, 0xEE, 0x10);
      MovRax(err);
      Store(0x06);
      MovRax(ok);
      Four(0x49, 0x89, 0x46, 0x08);
      U8(0xFF);
      U8(0xE0);
      CallBytes(c, err, ok);
    }

    /** mov [r14], rax */
    method Store(modrm: byte)
      requires Valid() && 3 <= buf.Length
      modifies this, buf
      ensures Valid() && old(buf).Length <= buf.Length && (buf == old(buf) || fresh(buf))
      ensures Contents() == Put(old(Contents()), [0x49, 0x89, modrm])
    {
      ghost var c := Contents();
      U8(0x49);
      U8(0x89);
      U8(modrm);
      PutThree(c, 0x49, 0x89, modrm);
    }

    method End(op: Op)
      requires Valid() && 64 <= buf.Length && EndsBlock(op)
      modifies this, buf
      ensures Valid() && old(buf).Length <= buf.Length && (buf == old(buf) || fresh(buf))
      ensures Contents() == Put(old(Contents()), EmitEnd(op))
    {
      ghost var c := Contents();
      if op == OP_RET {
        Four(0x49, 0x8B, 0x46, 0x08);
        JumpBack(c, [0x49, 0x8B, 0x46, 0x08], EMIT_RET);
      } else if op == OP_THROW {
        U8(0x49);
        U8(0x8B);
        U8(0x06);
        PutThree(c, 0x49, 0x8B, 0x06);
        JumpBack(c, [0x49, 0x8B, 0x06], EMIT_THROW);
      } else {
        U8(0x5D);
        U8(0xC3);
        PutTwice(c, [0x5D], [0xC3]);
        assert [0x5D] + [0xC3] == EPILOGUE;
      }
    }

    /** add r14, 16; jmp rax */
    method JumpBack(ghost c: CodeBuf, ghost w: seq<byte>, ghost all: seq<byte>)
      requires Valid() && 64 <= buf.Length && RoomFor(c, 64) && Contents() == Put(c, w) && |w| <= 4
      requires all == w + [0x49, 0x83, 0xC6, 0x10, 0xFF, 0xE0]
      modifies this, buf
      ensures Valid() && old(buf).Length <= buf.Length && (buf == old(buf) || fresh(buf))
      ensures Contents() == Put(c, all)
    {
      Four(0x49, 0x83, 0xC6, 0x10);
      U8(0xFF);
      U8(0xE0);
      PutTwice(c, w, [0x49, 0x83, 0xC6, 0x10]);
      PutTwice(c, w + [0x49, 0x83, 0xC6, 0x10], [0xFF]);
      PutTwice(c, w + [0x49, 0x83, 0xC6, 0x10] + [0xFF], [0xE0]);
      assert w + [0x49, 0x83, 0xC6, 0x10] + [0xFF] + [0xE0] == all;
    }

    method Four(a: byte, b: byte, c: byte, d: byte)
      requires Valid() && 4 <= buf.Length
      modifies this, buf
      ensures Valid() && old(buf).Length <= buf.Length && (buf == old(buf) || fresh(buf))
      ensures Contents() == Put(old(Contents()), [a, b, c, d])
    {
      ghost var start := Contents();
      U8(a);
      U8(b);
      U8(c);
      U8(d);
      PutFour(start, a, b, c, d);
    }
  }

  lemma PutThree(s: CodeBuf, a: byte, b: byte, c: byte)
    requires RoomFor(s, 3)
    ensures Put(Put(Put(s, [a]), [b]), [c]) == Put(s, [a, b, c])
  {
    PutTwice(s, [a], [b]);
    PutTwice(s, [a] + [b], [c]);
    assert [a] + [b] + [c] == [a, b, c];
  }

  lemma PutFour(s: CodeBuf, a: byte, b: byte, c: byte, d: byte)
    requires RoomFor(s, 4)
    ensures Put(Put(Put(Put(s, [a]), [b]), [c]), [d]) == Put(s, [a, b, c, d])
  {
    PutThree(s, a, b, c);
    PutTwice(s, [a, b, c], [d]);
    assert [a, b, c] + [d] == [a, b, c, d];
  }

  lemma CallBytes(s: CodeBuf, err: nat, ok: nat)
    requires RoomFor(s, 64)
    ensures var s1 := Put(Put(Put(s, [0x49, 0x83, 0xEE, 0x10]), [0x48, 0xB8] + Le(8, err)), [0x49, 0x89, 0x06]);
            var s2 := Put(Put(s1, [0x48, 0xB8] + Le(8, ok)), [0x49, 0x89, 0x46, 0x08]);
            Put(Put(s2, [0xFF]), [0xE0]) == Put(s, EmitCall(ok, err))
  {
    hide Put;
    var a: seq<byte> := [0x49, 0x83, 0xEE, 0x10];
    var b := a + ([0x48, 0xB8] + Le(8, err));
    PutTwice(s, a, [0x48, 0xB8] + Le(8, err));
    PutTwice(s, b, [0x49, 0x89, 0x06]);
    var d := b + [0x49, 0x89, 0x06];
    PutTwice(s, d, [0x48, 0xB8] + Le(8, ok));
    var e := d + ([0x48, 0xB8] + Le(8, ok));
    PutTwice(s, e, [0x49, 0x89, 0x46, 0x08]);
    var f := e + [0x49, 0x89, 0x46, 0x08];
    PutTwice(s, f, [0xFF]);
    PutTwice(s, f + [0xFF], [0xE0]);
    assert f + [0xFF] + [0xE0] == EmitCall(ok, err);
  }

  // ----- context -----------------------------------------------------------------------------------

  /** After one instruction: go on, the block is complete, or the process aborts. */
  datatype Next = Continue(ip: nat) | Stop | Bad(why: Compiled)

  class JitCtx {
    const bc: seq<byte>
    const places: Places
    const tramps: array<byte>
    const stubs: array<byte>
    const code: JitBuf
    var blocks: seq<Entry>

    ghost predicate Valid()
      reads this, code
    {
      && code.Valid() && 64 <= code.buf.Length
      && tramps != stubs && code.buf != tramps && code.buf != stubs
      && tramps.Length == MAX_BLOCKS * TRAMP_SIZE && stubs.Length == MAX_BLOCKS * STUB_SIZE
      && |blocks| <= MAX_BLOCKS
      && forall i :: 0 <= i < |blocks| ==> blocks[i].tramp == TRAMP_SIZE * i
    }

    ghost function Abs(): State
      requires Valid()
      reads this, code, code.buf, tramps, stubs
    {
      State(blocks, tramps[..], stubs[..], code.Contents())
    }

    constructor (bytecode: seq<byte>, pl: Places)
      ensures Valid() && fresh(tramps) && fresh(stubs) && fresh(code) && fresh(code.buf)
      ensures bc == bytecode && places == pl && Abs() == Fresh()
    {
      bc, places, blocks := bytecode, pl, [];
      tramps := new byte[MAX_BLOCKS * TRAMP_SIZE](_ => 0);
      stubs := new byte[MAX_BLOCKS * STUB_SIZE](_ => 0);
      code := new JitBuf(0x10_0000);
      new;
      assert tramps[..] == Fresh().tramps && stubs[..] == Fresh().stubs;
    }

    /** Write a fresh trampoline. */
    method TrampInit(at: nat, target: nat)
      requires at + TRAMP_SIZE <= tramps.Length
      modifies tramps
      ensures tramps[..] == Overwrite(old(tramps[..]), at, TrampBytes(target))
    {
      CopyAt(tramps, at, TrampBytes(target));
    }

    /** Redirect a trampoline: one 8-byte store. */
    method TrampPatch(at: nat, target: nat)
      requires at + TRAMP_SIZE <= tramps.Length
      modifies tramps
      ensures tramps[..] == Overwrite(old(tramps[..]), at + 6, Le(8, target))
    {
      CopyAt(tramps, at + 6, Le(8, target));
    }

    /** Find or create the entry for a bytecode offset; None where C aborts or overruns the stub arena. */
    method BlockGet(off: u32) returns (r: Option<nat>)
      requires Valid()
      modifies this`blocks, tramps, stubs
      ensures Valid() && (r.Some? ==> r.value < |blocks|)
      ensures match Blocks.BlockGet(places, old(Abs()), off)
              case Got(s, i) => r == Some(i) && Abs() == s
              case _ => r == None
    {
      hide StubBytes, TrampBytes, Overwrite, JitBuf.Contents;
      var i := 0;
      while i < |blocks|
        invariant i <= |blocks| && forall k :: 0 <= k < i ==> blocks[k].off != off
      {
        if blocks[i].off == off {
          FirstBlock(blocks, off, i);
          return Some(i);
        }
        i := i + 1;
      }
      FirstBlock(blocks, off, i);
      if i >= MAX_BLOCKS || STUB_SIZE * i + 71 > stubs.Length {
        return None;
      }
      blocks := blocks + [Entry(off, TRAMP_SIZE * i, None)];
      CopyAt(stubs, STUB_SIZE * i, StubBytes(places, off));
      TrampInit(TRAMP_SIZE * i, places.stubs + STUB_SIZE * i);
      return Some(i);
    }

    /** The trampoline address for a bytecode offset. */
    method TrampFor(off: u32) returns (r: Option<nat>)
      requires Valid()
      modifies this`blocks, tramps, stubs
      ensures Valid()
      ensures match Blocks.BlockGet(places, old(Abs()), off)
              case Got(s, i) => r == Some(TrampAddress(places, s.blocks[i])) && Abs() == s
              case _ => r == None
    {
      var i := BlockGet(off);
      match i
      case None => return None;
      case Some(k) => return Some(TrampAddress(places, blocks[k]));
    }

    /** Translate the instruction at ip. */
    method CompileOne(ip: nat) returns (r: Next)
      requires Valid() && ip < |bc|
      modifies this`blocks, tramps, stubs, code, code.buf
      ensures !r.Bad? ==> Valid() && (code.buf == old(code.buf) || fresh(code.buf))
      ensures match r
              case Continue(n) =>
                n > ip && CompileFrom(places, bc, old(Abs()), ip) == CompileFrom(places, bc, Abs(), n)
              case Stop => CompileFrom(places, bc, old(Abs()), ip) == Compiled(Abs())
              case Bad(why) => !CompileFrom(places, bc, old(Abs()), ip).Compiled?
    {
      hide Put, EmitCall, EmitEnd, EmitStraight, Handled, EndsBlock, Decode, Blocks.BlockGet, JitBuf.Contents;
      if !Handled(bc[ip]) { return Bad(Unhandled); }
      var f := Decode(bc, ip);
      if !f.Decoded? { return Bad(Overrun); }
      var i := f.i;
      if i.op == OP_CALL {
        var ok := TrampFor(i.x);
        if ok == None { return Bad(NoBlock); }
        var err := TrampFor(i.y);
        if err == None { return Bad(NoBlock); }
        code.Call(ok.value, err.value);
        return Stop;
      } else if EndsBlock(i.op) {
        code.End(i.op);
        return Stop;
      }
      HandledStraight(bc, ip);
      code.Straight(i);
      return Continue(f.next);
    }

    /** Translate until the block ends. */
    method CompileLoop(off: nat) returns (ok: bool)
      requires Valid()
      modifies this`blocks, tramps, stubs, code, code.buf
      ensures ok ==> Valid() && CompileFrom(places, bc, old(Abs()), off) == Compiled(Abs())
      ensures !ok ==> !CompileFrom(places, bc, old(Abs()), off).Compiled?
    {
      hide Blocks.BlockGet, JitBuf.Contents, Abs, Handled, Decode;
      var ip := off;
      while ip < |bc|
        invariant Valid() && (code.buf == old(code.buf) || fresh(code.buf))
        invariant CompileFrom(places, bc, Abs(), ip) == CompileFrom(places, bc, old(Abs()), off)
        decreases |bc| - ip
      {
        var r := CompileOne(ip);
        match r
        case Continue(n) => ip := n;
        case Stop => return true;
        case Bad(_) => return false;
      }
      return true;
    }

    /** Compile the block at a bytecode offset unless it has native code, and redirect its trampoline. */
    method CompileBlock(off: u32) returns (r: Option<Ptr>)
      requires Valid()
      modifies this`blocks, tramps, stubs, code, code.buf
      ensures match Blocks.CompileBlock(places, bc, old(Abs()), off)
              case Native(s, p) => r == Some(p) && Valid() && Abs() == s
              case Failed(_) => r == None
    {
      hide Blocks.BlockGet, CompileFrom;
      var g := BlockGet(off);
      if g == None { return None; }
      var b := g.value;
      if blocks[b].native.Some? { return blocks[b].native; }
      var blockStart := Ptr(code.gen, code.len);
      var ok := CompileLoop(off);
      if !ok { return None; }
      blocks := blocks[b := blocks[b].(native := Some(blockStart))];
      TrampPatch(blocks[b].tramp, NativeAddress(places, blockStart));
      return Some(blockStart);
    }
  }

  lemma FirstBlock(blocks: seq<Entry>, off: u32, i: nat)
    requires i <= |blocks| && (i < |blocks| ==> blocks[i].off == off)
    requires forall k :: 0 <= k < i ==> blocks[k].off != off
    ensures FindBlock(blocks, off) == i
  {
    var j := FindBlock(blocks, off);
  }
}
