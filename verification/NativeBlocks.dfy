/** Compiled blocks executed from memory: entered through their trampolines, and left through calls, returns and
    throws. */
module NativeBlocks {
  import opened Words
  import opened Isa
  import opened Memory
  import opened Stores
  import opened Vm
  import opened X86
  import opened Jit
  import opened Blocks
  import opened BlockLaws
  import opened Native

  // ----- decoding what trampolines, calls and returns are made of --------------------------------------------

  lemma DecodeShadowOps(w: seq<byte>)
    requires |w| == 10 && w[0] == 0x49
    ensures w[1] == 0x83 && w[2] == 0xEE && w[3] == 0x10 ==> NDecode(w, 0) == NDecoded(SubImm(R14, 16), 4)
    ensures w[1] == 0x83 && w[2] == 0xC6 && w[3] == 0x10 ==> NDecode(w, 0) == NDecoded(AddImm(R14, 16), 4)
    ensures w[1] == 0x89 && w[2] == 0x06 ==> NDecode(w, 0) == NDecoded(StoreAt(R14, 0, 0), 3)
    ensures w[1] == 0x89 && w[2] == 0x46 && w[3] == 0x08 ==> NDecode(w, 0) == NDecoded(StoreAt(R14, 8, 0), 4)
    ensures w[1] == 0x8B && w[2] == 0x06 ==> NDecode(w, 0) == NDecoded(LoadAt(0, R14, 0), 3)
    ensures w[1] == 0x8B && w[2] == 0x46 && w[3] == 0x08 ==> NDecode(w, 0) == NDecoded(LoadAt(0, R14, 8), 4)
  {
  }

  lemma DecodeJumps(w: seq<byte>)
    requires |w| == 10
    ensures w[0] == 0xFF && w[1] == 0xE0 ==> NDecode(w, 0) == NDecoded(JumpReg(0), 2)
    ensures w[0] == 0xFF && w[1] == 0x25 && w[2] == 0 && w[3] == 0 && w[4] == 0 && w[5] == 0 ==>
              NDecode(w, 0) == NDecoded(JumpMem(0), 6)
    ensures w[0] == 0x5D ==> NDecode(w, 0) == NDecoded(PopReg(RBP), 1)
    ensures w[0] == 0xC3 ==> NDecode(w, 0) == NDecoded(RetNear, 1)
  {
    if w[2] == 0 && w[3] == 0 && w[4] == 0 && w[5] == 0 {
      assert w[2..6] == [0, 0, 0, 0];
      ZeroValue();
    }
  }

  lemma ZeroValue()
    ensures FromLe([0, 0, 0, 0]) == 0
  {
    assert FromLe([]) == 0;
    assert [0 as byte][1..] == [] && [0 as byte, 0][1..] == [0] && [0 as byte, 0, 0][1..] == [0, 0];
    assert FromLe([0]) == 0;
    assert FromLe([0, 0]) == 0;
    assert FromLe([0, 0, 0]) == 0;
    assert [0 as byte, 0, 0, 0][1..] == [0, 0, 0];
  }

  lemma DecodeMovRax(w: seq<byte>, v: u64)
    requires |w| == 10 && w[0] == 0x48 && w[1] == 0xB8 && w[2..10] == Le(8, v)
    ensures NDecode(w, 0) == NDecoded(Straight(MovImm(0, v)), 10)
  {
    PowValues();
    FromLeLe(8, v);
    hide Le, FromLe;
    assert XDecode(w, 0) == XDecoded(MovImm(0, v), 10);
  }

  // ----- steps ------------------------------------------------------------------------------------------------

  /** The code c lies in memory at base, and holds w at offset `at`: one step executes the instruction w begins with. */
  lemma StepOf(s: Machine, base: nat, c: seq<byte>, at: nat, w: seq<byte>, i: NInstr)
    requires LiesAt(s.mem, base, c) && base + |c| < TWO64 && HasAt(c, at, w) && s.rip == base + at && |w| <= 10
    requires forall v: seq<byte> :: |v| == 10 && (forall k :: 0 <= k < |w| ==> v[k] == w[k]) ==>
               NDecode(v, 0) == NDecoded(i, |w|)
    ensures NStep(s) == NExec(i, s, base + at + |w|)
  {
    hide NDecode, NStep, NExec, LiesAt, Bytes;
    var v := Bytes(s.mem, base + at, 10);
    WindowShows(s.mem, base, c, at, |w|);
    forall k | 0 <= k < |w| ensures v[k] == w[k] {
      assert Bytes(s.mem, base + at, 10)[k] == c[at + k];
      assert c[at..at + |w|][k] == c[at + k];
    }
    StepAt(s, c, at, base, i, |w|);
  }

  /** Code that lies in memory stays there when something else is stored. */
  lemma CodeStays(m: Mem, m': Mem, base: nat, c: seq<byte>, r: Range)
    requires LiesAt(m, base, c) && SameOutside(m, m', Some(r)) && Apart(r, Range(base, |c|))
    ensures LiesAt(m', base, c)
  {
    forall k | 0 <= k < |c| ensures ByteThere(m', base + k, c[k]) {
      assert ByteThere(m, base + k, c[k]) && !In(r, base + k);
    }
  }

  lemma OneRun(s: Machine, t: Machine)
    requires NStep(s) == Some(t)
    ensures NRun(s, 1) == Some(t)
  {
    hide NStep;
    assert NRun(t, 0) == Some(t);
  }

  lemma ThenStep(s: Machine, n: nat, t: Machine, u: Machine)
    requires NRun(s, n) == Some(t) && NStep(t) == Some(u)
    ensures NRun(s, n + 1) == Some(u)
  {
    hide NStep;
    OneRun(t, u);
    NRunAdd(s, n, 1);
  }

  // ----- trampolines ----------------------------------------------------------------------------------------------

  /** A trampoline jumps to the address its bytes 6 to 13 hold. */
  lemma TrampolineStep(tramps: nat, t: seq<byte>, at: nat, target: u64, x: XRegs, m: Mem)
    requires LiesAt(m, tramps, t) && tramps + |t| < TWO64 && HasAt(t, at, TrampBytes(target))
    ensures at + 14 <= |t| && FromLe(t[at + 6..at + 14]) == target
    ensures NStep(Machine(tramps + at, x, m)) == Some(Machine(target, x, m))
  {
    hide NDecode, NStep, LiesAt, Bytes, Le, FromLe, Load;
    var head, rest := [0xFF, 0x25, 0, 0, 0, 0], Le(8, target) + [0x66, 0x90];
    assert TrampBytes(target) == head + rest;
    HasAtSplit(t, at, head, rest);
    HasAtSplit(t, at + 6, Le(8, target), [0x66, 0x90]);
    PowValues();
    FromLeLe(8, target);
    var s := Machine(tramps + at, x, m);
    forall v: seq<byte> | |v| == 10 && (forall k :: 0 <= k < |head| ==> v[k] == head[k])
      ensures NDecode(v, 0) == NDecoded(JumpMem(0), |head|)
    {
      assert v[0] == head[0] && v[1] == head[1] && v[2] == head[2] && v[3] == head[3] && v[4] == head[4]
          && v[5] == head[5];
      DecodeJumps(v);
    }
    StepOf(s, tramps, t, at, head, JumpMem(0));
    LiesBytes(m, tramps, t, at + 6, Le(8, target));
    assert tramps + (at + 6) == tramps + at + 6;
    LoadIsLe(m, tramps + at + 6, 8);
  }

  /** Everything the compiler has written lies in memory: trampolines, and code in the current mapping. */
  ghost predicate JitInMemory(m: Mem, pl: Places, s: State) {
    && LiesAt(m, pl.tramps, s.tramps) && pl.tramps + |s.tramps| < TWO64
    && s.code.gen < |pl.maps| && LiesAt(m, pl.maps[s.code.gen], s.code.bytes)
    && pl.maps[s.code.gen] + |s.code.bytes| < TWO64
  }

  /** Block i of the table is compiled, and its code is in the current mapping. */
  ghost predicate Current(s: State, i: nat) {
    i < |s.blocks| && s.blocks[i].native.Some? && s.blocks[i].native.value.gen == s.code.gen
  }

  // ----- the target of a trampoline ------------------------------------------------------------------------------

  /** The 8 bytes at offset 6 of a compiled block's trampoline, less the base of the current mapping, are the offset
      in the code at which the block's bytes begin. */
  lemma TrampolineTarget(pl: Places, bc: seq<byte>, qs: seq<Request>, i: nat) returns (at: nat)
    requires ServeAll(pl, bc, Fresh(), qs).Some? && Current(ServeAll(pl, bc, Fresh(), qs).value, i)
    requires var s := ServeAll(pl, bc, Fresh(), qs).value;
             s.code.gen < |pl.maps| && pl.maps[s.code.gen] + |s.code.bytes| < TWO64
    ensures var s := ServeAll(pl, bc, Fresh(), qs).value;
            var tramp := s.blocks[i].tramp;
            && tramp + TRAMP_SIZE <= |s.tramps| && at <= |s.code.bytes|
            && FromLe(s.tramps[tramp + 6..tramp + 14]) == pl.maps[s.code.gen] + at
            && HasAt(s.tramps, tramp, TrampBytes(pl.maps[s.code.gen] + at))
            && BlockBytes(pl, bc, s.blocks, s.blocks[i].off).Some?
            && HasAt(s.code.bytes, at, BlockBytes(pl, bc, s.blocks, s.blocks[i].off).value)
  {
    hide ServeAll, Fresh, TrampBytes, HasAt, BlockBytes, DistinctOffsets, StubsOk;
    var s := Reached(pl, bc, qs);
    assert HasNative(pl, bc, s, i);
    at := s.blocks[i].native.value.off;
    HasFits(s.code.bytes, at, BlockBytes(pl, bc, s.blocks, s.blocks[i].off).value);
    TargetBytes(s.tramps, s.blocks[i].tramp, pl.maps[s.code.gen] + at);
  }

  lemma HasFits(c: seq<byte>, at: nat, w: seq<byte>)
    requires HasAt(c, at, w)
    ensures at + |w| <= |c|
  {
  }

  lemma TargetBytes(t: seq<byte>, at: nat, target: u64)
    requires HasAt(t, at, TrampBytes(target))
    ensures at + TRAMP_SIZE <= |t| && FromLe(t[at + 6..at + 14]) == target
  {
    hide Le, FromLe;
    var head, rest := [0xFF, 0x25, 0, 0, 0, 0], Le(8, target) + [0x66, 0x90];
    assert TrampBytes(target) == head + rest;
    HasAtSplit(t, at, head, rest);
    HasAtSplit(t, at + 6, Le(8, target), [0x66, 0x90]);
    PowValues();
    FromLeLe(8, target);
  }

  /** A block is its straight-line part and then what its next instruction is compiled to. */
  lemma {:induction false} BlockSplits(pl: Places, bc: seq<byte>, blocks: seq<Entry>, ip: nat, ins: seq<Instr>)
    requires BlockBytes(pl, bc, blocks, ip).Some? && DecodesTo(bc, ip, ins) && AllInteger(ins)
    ensures BlockBytes(pl, bc, blocks, EndOf(ip, ins)).Some?
    ensures BlockBytes(pl, bc, blocks, ip).value
         == EmitIntegers(ins) + BlockBytes(pl, bc, blocks, EndOf(ip, ins)).value
    decreases |ins|
  {
    hide EmitInteger, Decode;
    if ins != [] {
      var next := Decode(bc, ip).next;
      assert AllInteger(ins[1..]);
      BlockSplits(pl, bc, blocks, next, ins[1..]);
    }
  }

  /** The general registers of the machine in the x86 registers that hold them: rax, rbx, rcx, rdx, rdi, rsi, r8, r9. */
  ghost predicate Pinned(g: Regs, x: XRegs) {
    && x[0] == g[0] && x[3] == g[1] && x[1] == g[2] && x[2] == g[3]
    && x[7] == g[4] && x[6] == g[5] && x[8] == g[6] && x[9] == g[7]
  }

  lemma PinnedIsRelated(g: Regs, x: XRegs)
    ensures Pinned(g, x) <==> Related(g, x)
  {
    if Pinned(g, x) {
      forall r: Reg ensures x[Vm2X86(r)] == g[r] { }
    }
    if Related(g, x) {
      assert x[Vm2X86(0)] == g[0] && x[Vm2X86(1)] == g[1] && x[Vm2X86(2)] == g[2] && x[Vm2X86(3)] == g[3];
      assert x[Vm2X86(4)] == g[4] && x[Vm2X86(5)] == g[5] && x[Vm2X86(6)] == g[6] && x[Vm2X86(7)] == g[7];
    }
  }

  /** In any reachable context, with the compiler's arenas in memory: the processor, started at the trampoline of a
      compiled block, jumps to the block and runs its straight-line part as the interpreter does. It ends in front
      of the bytes of the instruction that follows. */
  lemma TrampolineRuns(
      pl: Places, c: Image, qs: seq<Request>, i: nat, t: Thread, m: Mem, e: Env, ins: seq<Instr>, x: XRegs, mem: Mem)
      returns (t': Thread, x': XRegs, n: nat, at: nat)
    requires ServeAll(pl, c.code, Fresh(), qs).Some? && Current(ServeAll(pl, c.code, Fresh(), qs).value, i)
    requires JitInMemory(mem, pl, ServeAll(pl, c.code, Fresh(), qs).value)
    requires t.ip == c.base + ServeAll(pl, c.code, Fresh(), qs).value.blocks[i].off
    requires AllSound(ins) && DecodesTo(c.code, t.ip - c.base, ins) && Pinned(t.data.gpr, x)
    ensures VmRun(c, t, m, e, |ins|) == Some(t') && t'.ip == t.ip + Boundary(ins, |ins|)
    ensures t' == Thread(t'.ip, t.shadow, t.data.(gpr := t'.data.gpr)) && Pinned(t'.data.gpr, x') && OthersKept(x, x')
    ensures var s := ServeAll(pl, c.code, Fresh(), qs).value;
            var bytes := BlockBytes(pl, c.code, s.blocks, t'.ip - c.base);
            && NRun(Machine(pl.tramps + s.blocks[i].tramp, x, mem), n)
               == Some(Machine(pl.maps[s.code.gen] + at, x', mem))
            && bytes.Some? && HasAt(s.code.bytes, at, bytes.value)
  {
    hide ServeAll, Fresh, HasAt, BlockBytes, Related, DecodesTo, AllSound, XRun, VmRun, NRun, NStep, TrampBytes,
         LiesAt, Pinned, OthersKept, FromLe;
    var s := ServeAll(pl, c.code, Fresh(), qs).value;
    var off, base := s.blocks[i].off, pl.maps[s.code.gen];
    var start := TrampolineTarget(pl, c.code, qs, i);
    AllSoundTail(ins);
    BlockSplits(pl, c.code, s.blocks, off, ins);
    var rest := BlockBytes(pl, c.code, s.blocks, EndOf(off, ins)).value;
    HasAtSplit(s.code.bytes, start, EmitIntegers(ins), rest);
    PinnedIsRelated(t.data.gpr, x);
    t', x' := BlockSimulation(c, t, m, e, ins, s.code.bytes, start, x);
    PinnedIsRelated(t'.data.gpr, x');
    TrampolineStep(pl.tramps, s.tramps, s.blocks[i].tramp, base + start, x, mem);
    OneRun(Machine(pl.tramps + s.blocks[i].tramp, x, mem), Machine(base + start, x, mem));
    StraightRuns(base, s.code.bytes, start, x, mem, StepsOf(ins));
    NRunAdd(Machine(pl.tramps + s.blocks[i].tramp, x, mem), 1, StepsOf(ins));
    n, at := 1 + StepsOf(ins), start + |EmitIntegers(ins)|;
  }

  // ----- calls, returns and throws ------------------------------------------------------------------------------

  /** 16 bytes of the native shadow stack from a, mapped and apart from the code that is running. */
  ghost predicate Frame(m: Mem, a: nat, base: nat, c: seq<byte>) {
    Mapped(m, a, 16) && a + 16 <= TWO64 && Apart(Range(a, 16), Range(base, |c|))
  }

  lemma SubStep(s: Machine, base: nat, c: seq<byte>, at: nat)
    requires LiesAt(s.mem, base, c) && base + |c| < TWO64 && s.rip == base + at
    requires HasAt(c, at, [0x49, 0x83, 0xEE, 0x10])
    ensures base + at + 4 < TWO64
    ensures NStep(s) == Some(Machine(base + at + 4, s.x[R14 := (s.x[R14] - 16) % TWO64], s.mem))
  {
    hide NDecode, NStep, LiesAt;
    var w := [0x49, 0x83, 0xEE, 0x10];
    forall v: seq<byte> | |v| == 10 && (forall k :: 0 <= k < |w| ==> v[k] == w[k])
      ensures NDecode(v, 0) == NDecoded(SubImm(R14, 16), |w|)
    {
      assert v[0] == w[0] && v[1] == w[1] && v[2] == w[2] && v[3] == w[3];
      DecodeShadowOps(v);
    }
    StepOf(s, base, c, at, w, SubImm(R14, 16));
  }

  lemma AddStep(s: Machine, base: nat, c: seq<byte>, at: nat)
    requires LiesAt(s.mem, base, c) && base + |c| < TWO64 && s.rip == base + at
    requires HasAt(c, at, [0x49, 0x83, 0xC6, 0x10])
    ensures base + at + 4 < TWO64
    ensures NStep(s) == Some(Machine(base + at + 4, s.x[R14 := (s.x[R14] + 16) % TWO64], s.mem))
  {
    hide NDecode, NStep, LiesAt;
    var w := [0x49, 0x83, 0xC6, 0x10];
    forall v: seq<byte> | |v| == 10 && (forall k :: 0 <= k < |w| ==> v[k] == w[k])
      ensures NDecode(v, 0) == NDecoded(AddImm(R14, 16), |w|)
    {
      assert v[0] == w[0] && v[1] == w[1] && v[2] == w[2] && v[3] == w[3];
      DecodeShadowOps(v);
    }
    StepOf(s, base, c, at, w, AddImm(R14, 16));
  }

  lemma MovStep(s: Machine, base: nat, c: seq<byte>, at: nat, v: u64)
    requires LiesAt(s.mem, base, c) && base + |c| < TWO64 && HasAt(c, at, [0x48, 0xB8] + Le(8, v)) && s.rip == base + at
    ensures base + at + 10 < TWO64
    ensures NStep(s) == Some(Machine(base + at + 10, s.x[0 := v], s.mem))
  {
    hide NDecode, NStep, LiesAt, Le;
    var w := [0x48, 0xB8] + Le(8, v);
    forall u: seq<byte> | |u| == 10 && (forall k :: 0 <= k < |w| ==> u[k] == w[k])
      ensures NDecode(u, 0) == NDecoded(Straight(MovImm(0, v)), |w|)
    {
      assert u[0] == w[0] && u[1] == w[1];
      assert u[2..10] == w[2..10] && w[2..10] == Le(8, v);
      DecodeMovRax(u, v);
    }
    StepOf(s, base, c, at, w, Straight(MovImm(0, v)));
  }

  /** `mov [r14], rax` and `mov [r14 + 8], rax` */
  lemma StoreWordStep(s: Machine, base: nat, c: seq<byte>, at: nat, disp: nat, w: seq<byte>) returns (m': Mem)
    requires LiesAt(s.mem, base, c) && base + |c| < TWO64 && HasAt(c, at, w) && s.rip == base + at
    requires (disp == 0 && w == [0x49, 0x89, 0x06]) || (disp == 8 && w == [0x49, 0x89, 0x46, 0x08])
    requires s.x[R14] + 16 <= TWO64 && Mapped(s.mem, s.x[R14], 16)
    ensures base + at + |w| < TWO64 && NStep(s) == Some(Machine(base + at + |w|, s.x, m'))
    ensures SameOutside(s.mem, m', Some(Range(s.x[R14] + disp, 8))) && FromLe(Bytes(m', s.x[R14] + disp, 8)) == s.x[0]
  {
    hide NDecode, NStep, LiesAt, Load, Store, FromLe, Bytes;
    forall v: seq<byte> | |v| == 10 && (forall k :: 0 <= k < |w| ==> v[k] == w[k])
      ensures NDecode(v, 0) == NDecoded(StoreAt(R14, disp, 0), |w|)
    {
      assert v[0] == w[0] && v[1] == w[1] && v[2] == w[2] && (disp == 8 ==> v[3] == w[3]);
      DecodeShadowOps(v);
    }
    StepOf(s, base, c, at, w, StoreAt(R14, disp, 0));
    var a := s.x[R14] + disp;
    StoreDefined(s.mem, a, 8, s.x[0]);
    m' := Store(s.mem, a, 8, s.x[0]).value;
    StoreMisses(s.mem, a, 8, s.x[0]);
    StoreWord(s.mem, a, s.x[0]);
    LoadDefined(m', a, 8);
    LoadIsLe(m', a, 8);
  }

  /** `mov rax, [r14]` and `mov rax, [r14 + 8]` */
  lemma LoadWordStep(s: Machine, base: nat, c: seq<byte>, at: nat, disp: nat, w: seq<byte>) returns (v: u64)
    requires LiesAt(s.mem, base, c) && base + |c| < TWO64 && HasAt(c, at, w) && s.rip == base + at
    requires (disp == 0 && w == [0x49, 0x8B, 0x06]) || (disp == 8 && w == [0x49, 0x8B, 0x46, 0x08])
    requires s.x[R14] + 16 <= TWO64 && Mapped(s.mem, s.x[R14], 16)
    ensures base + at + |w| < TWO64 && NStep(s) == Some(Machine(base + at + |w|, s.x[0 := v], s.mem))
    ensures v == FromLe(Bytes(s.mem, s.x[R14] + disp, 8))
  {
    hide NDecode, NStep, LiesAt, Load, FromLe, Bytes;
    forall v: seq<byte> | |v| == 10 && (forall k :: 0 <= k < |w| ==> v[k] == w[k])
      ensures NDecode(v, 0) == NDecoded(LoadAt(0, R14, disp), |w|)
    {
      assert v[0] == w[0] && v[1] == w[1] && v[2] == w[2] && (disp == 8 ==> v[3] == w[3]);
      DecodeShadowOps(v);
    }
    StepOf(s, base, c, at, w, LoadAt(0, R14, disp));
    PowValues();
    LoadIsLe(s.mem, s.x[R14] + disp, 8);
    v := FromLe(Bytes(s.mem, s.x[R14] + disp, 8));
  }

  lemma JumpRaxStep(s: Machine, base: nat, c: seq<byte>, at: nat)
    requires LiesAt(s.mem, base, c) && base + |c| < TWO64 && HasAt(c, at, [0xFF, 0xE0]) && s.rip == base + at
    ensures NStep(s) == Some(Machine(s.x[0], s.x, s.mem))
  {
    hide NDecode, NStep, LiesAt;
    var w := [0xFF, 0xE0];
    forall v: seq<byte> | |v| == 10 && (forall k :: 0 <= k < |w| ==> v[k] == w[k])
      ensures NDecode(v, 0) == NDecoded(JumpReg(0), |w|)
    {
      assert v[0] == w[0] && v[1] == w[1];
      DecodeJumps(v);
    }
    StepOf(s, base, c, at, w, JumpReg(0));
  }

  /** The parts of a compiled call. */
  lemma CallParts(c: seq<byte>, at: nat, ok: nat, err: nat)
    requires HasAt(c, at, EmitCall(ok, err))
    ensures HasAt(c, at, [0x49, 0x83, 0xEE, 0x10]) && HasAt(c, at + 4, [0x48, 0xB8] + Le(8, err))
    ensures HasAt(c, at + 14, [0x49, 0x89, 0x06]) && HasAt(c, at + 17, [0x48, 0xB8] + Le(8, ok))
    ensures HasAt(c, at + 27, [0x49, 0x89, 0x46, 0x08]) && HasAt(c, at + 31, [0xFF, 0xE0])
  {
    hide Le;
    var p1, p2 := [0x49, 0x83, 0xEE, 0x10], [0x48, 0xB8] + Le(8, err);
    var p3, p4 := [0x49, 0x89, 0x06], [0x48, 0xB8] + Le(8, ok);
    var p5, p6 := [0x49, 0x89, 0x46, 0x08], [0xFF, 0xE0];
    assert EmitCall(ok, err) == p1 + (p2 + (p3 + (p4 + (p5 + p6))));
    HasAtSplit(c, at, p1, p2 + (p3 + (p4 + (p5 + p6))));
    HasAtSplit(c, at + 4, p2, p3 + (p4 + (p5 + p6)));
    HasAtSplit(c, at + 14, p3, p4 + (p5 + p6));
    HasAtSplit(c, at + 17, p4, p5 + p6);
    HasAtSplit(c, at + 27, p5, p6);
  }

  lemma FrameParts(m: Mem, a: nat, base: nat, c: seq<byte>, m1: Mem, disp: nat)
    requires LiesAt(m, base, c) && Frame(m, a, base, c)
    requires disp in {0, 8} && SameOutside(m, m1, Some(Range(a + disp, 8)))
    ensures LiesAt(m1, base, c) && Frame(m1, a, base, c)
    ensures disp == 8 ==> Bytes(m1, a, 8) == Bytes(m, a, 8)
  {
    CodeStays(m, m1, base, c, Range(a + disp, 8));
    if disp == 8 {
      forall k | 0 <= k < 8 ensures Bytes(m1, a, 8)[k] == Bytes(m, a, 8)[k] {
        assert !In(Range(a + disp, 8), a + k);
      }
    }
  }

  /** A compiled call: the error target's trampoline below, the callee's on top, and on to the callee. */
  lemma NativeCall(s: Machine, base: nat, c: seq<byte>, at: nat, ok: u64, err: u64) returns (m': Mem)
    requires LiesAt(s.mem, base, c) && base + |c| < TWO64 && HasAt(c, at, EmitCall(ok, err)) && s.rip == base + at
    requires s.x[R14] >= 16 && Frame(s.mem, s.x[R14] - 16, base, c)
    ensures var a := s.x[R14] - 16;
            && NRun(s, 6) == Some(Machine(ok, s.x[R14 := a][0 := ok], m'))
            && FromLe(Bytes(m', a, 8)) == err && FromLe(Bytes(m', a + 8, 8)) == ok
            && SameOutside(s.mem, m', Some(Range(a, 16)))
  {
    hide NStep, NRun, LiesAt, HasAt, EmitCall, Le, FromLe, Bytes, Frame, Mapped;
    var a := s.x[R14] - 16;
    CallParts(c, at, ok, err);
    FrameMapped(s.mem, a, base, c);
    SubStep(s, base, c, at);
    var s1 := Machine(base + at + 4, s.x[R14 := a], s.mem);
    OneRun(s, s1);
    MovStep(s1, base, c, at + 4, err);
    var s2 := Machine(base + at + 14, s1.x[0 := err], s.mem);
    ThenStep(s, 1, s1, s2);
    var m1 := StoreWordStep(s2, base, c, at + 14, 0, [0x49, 0x89, 0x06]);
    var s3 := Machine(base + at + 17, s2.x, m1);
    ThenStep(s, 2, s2, s3);
    FrameParts(s.mem, a, base, c, m1, 0);
    MovStep(s3, base, c, at + 17, ok);
    var s4 := Machine(base + at + 27, s3.x[0 := ok], m1);
    ThenStep(s, 3, s3, s4);
    FrameMapped(m1, a, base, c);
    m' := StoreWordStep(s4, base, c, at + 27, 8, [0x49, 0x89, 0x46, 0x08]);
    var s5 := Machine(base + at + 31, s4.x, m');
    ThenStep(s, 4, s4, s5);
    FrameParts(m1, a, base, c, m', 8);
    JumpRaxStep(s5, base, c, at + 31);
    ThenStep(s, 5, s5, Machine(ok, s4.x, m'));
    assert s4.x == s.x[R14 := a][0 := ok];
    BothOutside(s.mem, m1, m', a);
  }

  lemma FrameMapped(m: Mem, a: nat, base: nat, c: seq<byte>)
    requires Frame(m, a, base, c)
    ensures Mapped(m, a, 16) && a + 16 <= TWO64
  {
  }

  lemma BothOutside(m: Mem, m1: Mem, m2: Mem, a: nat)
    requires SameOutside(m, m1, Some(Range(a, 8))) && SameOutside(m1, m2, Some(Range(a + 8, 8)))
    ensures SameOutside(m, m2, Some(Range(a, 16)))
  {
  }

  /** A compiled return or throw: both words dropped, and on to the upper or the lower one. */
  lemma NativeReturn(s: Machine, base: nat, c: seq<byte>, at: nat, op: Op) returns (v: u64)
    requires LiesAt(s.mem, base, c) && base + |c| < TWO64 && s.rip == base + at
    requires op in {OP_RET, OP_THROW} && HasAt(c, at, EmitEnd(op))
    requires s.x[R14] + 16 < TWO64 && Mapped(s.mem, s.x[R14], 16)
    ensures v == FromLe(Bytes(s.mem, s.x[R14] + (if op == OP_RET then 8 else 0), 8))
    ensures NRun(s, 3) == Some(Machine(v, s.x[R14 := s.x[R14] + 16][0 := v], s.mem))
  {
    hide NStep, NRun, LiesAt, HasAt, FromLe, Bytes, Mapped;
    var w := if op == OP_RET then [0x49, 0x8B, 0x46, 0x08] else [0x49, 0x8B, 0x06];
    ReturnParts(c, at, op, w);
    v := LoadWordStep(s, base, c, at, if op == OP_RET then 8 else 0, w);
    var s1 := Machine(base + at + |w|, s.x[0 := v], s.mem);
    OneRun(s, s1);
    AddStep(s1, base, c, at + |w|);
    var s2 := Machine(base + at + |w| + 4, s1.x[R14 := s.x[R14] + 16], s.mem);
    ThenStep(s, 1, s1, s2);
    JumpRaxStep(s2, base, c, at + |w| + 4);
    ThenStep(s, 2, s2, Machine(v, s2.x, s.mem));
    assert s2.x == s.x[R14 := s.x[R14] + 16][0 := v];
  }

  lemma ReturnParts(c: seq<byte>, at: nat, op: Op, w: seq<byte>)
    requires op in {OP_RET, OP_THROW} && HasAt(c, at, EmitEnd(op))
    requires w == if op == OP_RET then [0x49, 0x8B, 0x46, 0x08] else [0x49, 0x8B, 0x06]
    ensures HasAt(c, at, w) && HasAt(c, at + |w|, [0x49, 0x83, 0xC6, 0x10]) && HasAt(c, at + |w| + 4, [0xFF, 0xE0])
  {
    var p2, p3 := [0x49, 0x83, 0xC6, 0x10], [0xFF, 0xE0];
    assert EmitEnd(op) == w + (p2 + p3);
    HasAtSplit(c, at, w, p2 + p3);
    HasAtSplit(c, at + |w|, p2, p3);
  }

  /** A compiled HALT: back to whoever called the compiled program, with rbp restored. */
  lemma NativeHalt(s: Machine, base: nat, c: seq<byte>, at: nat)
    requires LiesAt(s.mem, base, c) && base + |c| < TWO64 && s.rip == base + at && HasAt(c, at, EmitEnd(OP_HALT))
    requires s.x[RSP] + 16 < TWO64 && Mapped(s.mem, s.x[RSP], 16)
    ensures var saved, back := FromLe(Bytes(s.mem, s.x[RSP], 8)), FromLe(Bytes(s.mem, s.x[RSP] + 8, 8));
            && saved < TWO64
            && NRun(s, 2) == Some(Machine(back, s.x[RSP := s.x[RSP] + 16][RBP := saved], s.mem))
  {
    hide NStep, NRun, LiesAt, FromLe, Bytes, NDecode, Load;
    var sp := s.x[RSP];
    PowValues();
    LoadIsLe(s.mem, sp, 8);
    LoadIsLe(s.mem, sp + 8, 8);
    assert EmitEnd(OP_HALT) == [0x5D] + [0xC3];
    HasAtSplit(c, at, [0x5D], [0xC3]);
    forall v: seq<byte> | |v| == 10 && (forall k :: 0 <= k < 1 ==> v[k] == [0x5D][k])
      ensures NDecode(v, 0) == NDecoded(PopReg(RBP), 1)
    {
      assert v[0] == [0x5D][0];
      DecodeJumps(v);
    }
    StepOf(s, base, c, at, [0x5D], PopReg(RBP));
    var s1 := Machine(base + at + 1, s.x[RSP := sp + 8][RBP := FromLe(Bytes(s.mem, sp, 8))], s.mem);
    OneRun(s, s1);
    forall v: seq<byte> | |v| == 10 && (forall k :: 0 <= k < 1 ==> v[k] == [0xC3][k])
      ensures NDecode(v, 0) == NDecoded(RetNear, 1)
    {
      assert v[0] == [0xC3][0];
      DecodeJumps(v);
    }
    StepOf(s1, base, c, at + 1, [0xC3], RetNear);
    var s2 := Machine(FromLe(Bytes(s.mem, sp + 8, 8)), s1.x[RSP := sp + 16], s.mem);
    ThenStep(s, 1, s1, s2);
    assert s2.x == s.x[RSP := sp + 16][RBP := FromLe(Bytes(s.mem, sp, 8))];
  }

  /** ADDSD and MULSD between registers 0 to 7: F2 0F 58 or 59, and a register-direct ModRM byte. */
  function DecodeSse(w: seq<byte>): Option<(bool, nat, nat)> {
    if |w| == 4 && w[0] == 0xF2 && w[1] == 0x0F && w[2] in {0x58, 0x59} && Direct(w[3])
    then Some((w[2] == 0x59, w[3] / 8 % 8, w[3] % 8)) else None
  }

  /** The bytes of FADD and FMUL are those instructions on the registers of the same numbers. */
  lemma FloatDecodes(i: Instr)
    requires i.op in {OP_FADD, OP_FMUL}
    ensures DecodeSse(EmitStraight(i)) == Some((i.op == OP_FMUL, i.d, i.s))
  {
    ModRmFields(i.d, i.s);
  }

  // ----- a compiled call against the interpreter's --------------------------------------------------------------

  /** Room for a frame on the native shadow stack, apart from all the compiler has written. */
  ghost predicate Room(m: Mem, pl: Places, s: State, x: XRegs) {
    && s.code.gen < |pl.maps| && x[R14] >= 16 && Frame(m, x[R14] - 16, pl.maps[s.code.gen], s.code.bytes)
    && Apart(Range(x[R14] - 16, 16), Range(pl.tramps, |s.tramps|))
  }

  /** Both blocks a compiled call names are in the table. */
  lemma CallBlocks(pl: Places, bc: seq<byte>, s: State, ip: nat, i: Instr, next: nat) returns (j: nat, k: nat)
    requires BlockBytes(pl, bc, s.blocks, ip).Some? && Decode(bc, ip) == Decoded(i, next) && i.op == OP_CALL
    ensures j < |s.blocks| && s.blocks[j].off == i.x && k < |s.blocks| && s.blocks[k].off == i.y
    ensures BlockBytes(pl, bc, s.blocks, ip).value
         == EmitCall(pl.tramps + s.blocks[j].tramp, pl.tramps + s.blocks[k].tramp)
  {
    hide Operands, EmitCall;
    j, k := FindBlock(s.blocks, i.x), FindBlock(s.blocks, i.y);
  }

  /** In any reachable context: a compiled CALL goes on at the trampoline of the block at the callee's bytecode offset,
      as the interpreter goes on at the callee, with the error block's trampoline below on the shadow stack. The word
      on top is the callee's trampoline again. It is the trampoline of the block behind the call, where the
      interpreter returns, exactly when the callee is that block. The call also overwrites rax, which holds ax. */
  lemma CompiledCallIff(
      pl: Places, bc: seq<byte>, qs: seq<Request>, at: nat, ip: nat, i: Instr, next: nat, x: XRegs, mem: Mem, g: Regs)
      returns (j: nat, k: nat, x': XRegs, mem': Mem)
    requires ServeAll(pl, bc, Fresh(), qs).Some? && JitInMemory(mem, pl, ServeAll(pl, bc, Fresh(), qs).value)
    requires var s := ServeAll(pl, bc, Fresh(), qs).value;
             && Room(mem, pl, s, x) && BlockBytes(pl, bc, s.blocks, ip).Some?
             && HasAt(s.code.bytes, at, BlockBytes(pl, bc, s.blocks, ip).value)
    requires Decode(bc, ip) == Decoded(i, next) && i.op == OP_CALL && Pinned(g, x)
    ensures var s := ServeAll(pl, bc, Fresh(), qs).value;
            && j < |s.blocks| && s.blocks[j].off == i.x && k < |s.blocks| && s.blocks[k].off == i.y
            && NRun(Machine(pl.maps[s.code.gen] + at, x, mem), 6)
               == Some(Machine(pl.tramps + s.blocks[j].tramp, x', mem'))
            && JitInMemory(mem', pl, s) && x'[R14] == x[R14] - 16
            && FromLe(Bytes(mem', x'[R14], 8)) == pl.tramps + s.blocks[k].tramp
            && (forall b :: 0 <= b < |s.blocks| && s.blocks[b].off == next ==>
                  (FromLe(Bytes(mem', x'[R14] + 8, 8)) == pl.tramps + s.blocks[b].tramp <==> i.x == next))
            && (Pinned(g, x') <==> g[0] == pl.tramps + s.blocks[j].tramp)
  {
    hide ServeAll, Fresh, HasAt, BlockBytes, NRun, LiesAt, Le, FromLe, Bytes, Frame, EmitCall, TrampBytes, StubsOk,
         DistinctOffsets, Decode;
    var s := Reached(pl, bc, qs);
    var base, a := pl.maps[s.code.gen], x[R14] - 16;
    j, k := CallBlocks(pl, bc, s, ip, i, next);
    SlotsFit(pl, s, j);
    SlotsFit(pl, s, k);
    mem' := NativeCall(Machine(base + at, x, mem), base, s.code.bytes, at, pl.tramps + s.blocks[j].tramp,
                       pl.tramps + s.blocks[k].tramp);
    x' := x[R14 := a][0 := pl.tramps + s.blocks[j].tramp];
    CodeStays(mem, mem', base, s.code.bytes, Range(a, 16)) by { FrameApart(mem, a, base, s.code.bytes); }
    CodeStays(mem, mem', pl.tramps, s.tramps, Range(a, 16));
    forall b | 0 <= b < |s.blocks| && s.blocks[b].off == next
      ensures s.blocks[j].tramp == s.blocks[b].tramp <==> i.x == next
    {
      OneBlockEach(s.blocks, j, b);
    }
  }

  lemma FrameApart(m: Mem, a: nat, base: nat, c: seq<byte>)
    requires Frame(m, a, base, c)
    ensures Apart(Range(a, 16), Range(base, |c|))
  {
  }

  lemma SlotsFit(pl: Places, s: State, j: nat)
    requires TableOk(pl, s) && j < |s.blocks|
    ensures s.blocks[j].tramp + TRAMP_SIZE <= |s.tramps| && s.blocks[j].tramp == TRAMP_SIZE * j
  {
    hide TrampBytes, StubsOk, DistinctOffsets;
  }

  lemma OneBlockEach(blocks: seq<Entry>, j: nat, b: nat)
    requires DistinctOffsets(blocks) && j < |blocks| && b < |blocks|
    requires blocks[j].tramp == TRAMP_SIZE * j && blocks[b].tramp == TRAMP_SIZE * b
    ensures blocks[j].tramp == blocks[b].tramp <==> blocks[j].off == blocks[b].off
  {
    if j < b { assert blocks[j].off != blocks[b].off; }
    if b < j { assert blocks[b].off != blocks[j].off; }
  }
}
