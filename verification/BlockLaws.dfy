/** Invariants of the block table over any sequence of calls. */
module BlockLaws {
  import opened Words
  import opened Isa
  import opened Memory
  import opened Vm
  import opened X86
  import opened Jit
  import opened Blocks

  // ----- lookups ------------------------------------------------------------------------------------

  ghost predicate DistinctOffsets(blocks: seq<Entry>) {
    forall i, j :: 0 <= i < j < |blocks| ==> blocks[i].off != blocks[j].off
  }

  /** Entries keep their index, offset and trampoline; native code is never taken back. */
  ghost predicate Extends(a: seq<Entry>, b: seq<Entry>) {
    && |a| <= |b|
    && forall i :: 0 <= i < |a| ==>
         a[i].off == b[i].off && a[i].tramp == b[i].tramp && (a[i].native.Some? ==> b[i].native == a[i].native)
  }

  lemma ExtendsTwice(a: seq<Entry>, b: seq<Entry>, c: seq<Entry>)
    requires Extends(a, b) && Extends(b, c)
    ensures Extends(a, c)
  {
  }

  lemma FindKept(a: seq<Entry>, b: seq<Entry>, off: u32)
    requires Extends(a, b) && FindBlock(a, off) < |a|
    ensures FindBlock(b, off) == FindBlock(a, off)
  {
    var i, j := FindBlock(a, off), FindBlock(b, off);
    assert a[i].off == b[i].off;
    assert forall k :: 0 <= k < |a| ==> a[k].off == b[k].off;
  }

  /** The bytes a block compiles to, given the trampolines of its callees. */
  function BlockBytes(pl: Places, bc: seq<byte>, blocks: seq<Entry>, ip: nat): Option<seq<byte>>
    decreases |bc| - ip
  {
    if ip >= |bc| then Some([])
    else if !Handled(bc[ip]) then None
    else match Decode(bc, ip)
      case Decoded(i, next) =>
        if i.op == OP_CALL then
          var ok, err := FindBlock(blocks, i.x), FindBlock(blocks, i.y);
          if ok < |blocks| && err < |blocks|
          then Some(EmitCall(TrampAddress(pl, blocks[ok]), TrampAddress(pl, blocks[err]))) else None
        else if EndsBlock(i.op) then Some(EmitEnd(i.op))
        else
          (match BlockBytes(pl, bc, blocks, next)
           case Some(w) => Some(EmitStraight(i) + w)
           case None => None)
      case _ => None
  }

  lemma {:induction false} BlockBytesKept(pl: Places, bc: seq<byte>, a: seq<Entry>, b: seq<Entry>, ip: nat)
    requires Extends(a, b) && BlockBytes(pl, bc, a, ip).Some?
    ensures BlockBytes(pl, bc, b, ip) == BlockBytes(pl, bc, a, ip)
    decreases |bc| - ip
  {
    hide Decode, EmitStraight, EmitCall, Handled, EndsBlock;
    if ip < |bc| {
      var i, next := Decode(bc, ip).i, Decode(bc, ip).next;
      if i.op == OP_CALL {
        FindKept(a, b, i.x);
        FindKept(a, b, i.y);
      } else if !EndsBlock(i.op) {
        BlockBytesKept(pl, bc, a, b, next);
      }
    }
  }

  /** Native bytes an instruction takes. */
  function NativeSize(op: Op): nat {
    if op == OP_CALL then 33
    else if op == OP_RET || op == OP_MOV_RI then 10
    else if op == OP_THROW then 9
    else if op == OP_HALT then 2
    else if IsShift(op) then 6
    else if IsMul(op) || IsFloat(op) then 4
    else 3
  }

  /** Native bytes of the block at bytecode offset ip, read off the bytecode alone. */
  function BlockSize(bc: seq<byte>, ip: nat): nat
    decreases |bc| - ip
  {
    match Decode(bc, ip)
    case Decoded(i, next) =>
      NativeSize(i.op) + if i.op == OP_CALL || EndsBlock(i.op) then 0 else BlockSize(bc, next)
    case _ => 0
  }

  lemma StraightSize(i: Instr)
    requires Integer(i.op) || IsFloat(i.op)
    ensures |EmitStraight(i)| == NativeSize(i.op)
  {
  }

  lemma EndSize(op: Op)
    requires EndsBlock(op)
    ensures |EmitEnd(op)| == NativeSize(op)
  {
  }

  lemma {:induction false} BlockBytesSize(pl: Places, bc: seq<byte>, blocks: seq<Entry>, ip: nat)
    requires BlockBytes(pl, bc, blocks, ip).Some?
    ensures |BlockBytes(pl, bc, blocks, ip).value| == BlockSize(bc, ip)
    decreases |bc| - ip
  {
    hide EmitStraight, EmitCall, EmitEnd, Handled, EndsBlock, NativeSize, Operands;
    if ip < |bc| {
      var i, next := Decode(bc, ip).i, Decode(bc, ip).next;
      if i.op == OP_CALL {
        CallSize();
      } else if EndsBlock(i.op) {
        EndSize(i.op);
      } else {
        HandledStraight(bc, ip);
        StraightSize(i);
        BlockBytesSize(pl, bc, blocks, next);
      }
    }
  }

  lemma CallSize()
    ensures NativeSize(OP_CALL) == 33
  {
  }

  // ----- invariant -----------------------------------------------------------------------------------

  /** Where a trampoline jumps: its stub, or its native code once compiled. */
  function TargetOf(pl: Places, e: Entry, i: nat): nat {
    match e.native case None => pl.stubs + STUB_SIZE * i case Some(p) => NativeAddress(pl, p)
  }

  ghost predicate TrampsOk(pl: Places, s: State) {
    && |s.tramps| == MAX_BLOCKS * TRAMP_SIZE && |s.blocks| <= MAX_BLOCKS
    && forall i :: 0 <= i < |s.blocks| ==>
         s.blocks[i].tramp == TRAMP_SIZE * i
         && HasAt(s.tramps, s.blocks[i].tramp, TrampBytes(TargetOf(pl, s.blocks[i], i)))
  }

  /** Slots are 7 bytes too small: of each stub but the last only the first 64 bytes survive. */
  ghost predicate StubsOk(pl: Places, s: State) {
    && |s.stubs| == MAX_BLOCKS * STUB_SIZE
    && forall i :: 0 <= i < |s.blocks| ==>
         HasAt(s.stubs, STUB_SIZE * i,
               if i + 1 == |s.blocks| then StubBytes(pl, s.blocks[i].off)
               else StubBytes(pl, s.blocks[i].off)[..STUB_SIZE])
  }

  ghost predicate TableOk(pl: Places, s: State) {
    DistinctOffsets(s.blocks) && TrampsOk(pl, s) && StubsOk(pl, s)
  }

  /** Compiled blocks: their bytes are in the arena, at the recorded offset. */
  ghost predicate NativeOk(pl: Places, bc: seq<byte>, s: State) {
    && RoomFor(s.code, 64)
    && forall i :: 0 <= i < |s.blocks| && s.blocks[i].native.Some? ==> HasNative(pl, bc, s, i)
  }

  ghost predicate HasNative(pl: Places, bc: seq<byte>, s: State, i: nat)
    requires i < |s.blocks| && s.blocks[i].native.Some?
  {
    && s.blocks[i].native.value.gen <= s.code.gen
    && BlockBytes(pl, bc, s.blocks, s.blocks[i].off).Some?
    && HasAt(s.code.bytes, s.blocks[i].native.value.off, BlockBytes(pl, bc, s.blocks, s.blocks[i].off).value)
  }

  // ----- get / trampoline -------------------------------------------------------------------------------

  lemma HasAfterOverwrite(t: seq<byte>, at: nat, w: seq<byte>, x: nat, v: seq<byte>)
    requires at + |w| <= |t| && HasAt(t, x, v) && (x + |v| <= at || at + |w| <= x)
    ensures HasAt(Overwrite(t, at, w), x, v)
  {
    var t' := Overwrite(t, at, w);
    assert t'[x..x + |v|] == t[x..x + |v|];
  }

  lemma HasOverwritten(t: seq<byte>, at: nat, w: seq<byte>)
    requires at + |w| <= |t|
    ensures HasAt(Overwrite(t, at, w), at, w)
  {
    assert Overwrite(t, at, w)[at..at + |w|] == w;
  }

  lemma HasPrefix(t: seq<byte>, at: nat, w: seq<byte>, n: nat)
    requires HasAt(t, at, w) && n <= |w|
    ensures HasAt(t, at, w[..n])
  {
    assert t[at..at + n] == t[at..at + |w|][..n];
  }

  lemma BlockGetTable(pl: Places, s: State, off: u32)
    requires TableOk(pl, s) && BlockGet(pl, s, off).Got?
    ensures var r := BlockGet(pl, s, off);
            && TableOk(pl, r.s) && r.s.blocks[r.i].off == off && r.i == FindBlock(r.s.blocks, off)
            && Extends(s.blocks, r.s.blocks) && r.s.code == s.code
            && (forall k :: 0 <= k < |s.blocks| ==> r.s.blocks[k] == s.blocks[k])
            && (forall k :: |s.blocks| <= k < |r.s.blocks| ==> r.s.blocks[k].native.None?)
  {
    var r, n := BlockGet(pl, s, off), |s.blocks|;
    if FindBlock(s.blocks, off) == n {
      assert r.i == n && r.s.blocks == s.blocks + [Entry(off, TRAMP_SIZE * n, None)];
      forall k | 0 <= k < n ensures r.s.blocks[k].off != off { }
      NewTramp(pl, s, off);
      NewStub(pl, s, off);
    }
  }

  lemma NewTramp(pl: Places, s: State, off: u32)
    requires TrampsOk(pl, s) && FindBlock(s.blocks, off) == |s.blocks| && BlockGet(pl, s, off).Got?
    ensures TrampsOk(pl, BlockGet(pl, s, off).s)
  {
    hide HasAt, TrampBytes, Overwrite, StubBytes;
    var r, n := BlockGet(pl, s, off).s, |s.blocks|;
    var w := TrampBytes(pl.stubs + STUB_SIZE * n);
    HasOverwritten(s.tramps, TRAMP_SIZE * n, w);
    forall i | 0 <= i < |r.blocks|
      ensures r.blocks[i].tramp == TRAMP_SIZE * i
          && HasAt(r.tramps, TRAMP_SIZE * i, TrampBytes(TargetOf(pl, r.blocks[i], i)))
    {
      if i < n {
        HasAfterOverwrite(s.tramps, TRAMP_SIZE * n, w, TRAMP_SIZE * i, TrampBytes(TargetOf(pl, s.blocks[i], i)));
      }
    }
  }

  lemma NewStub(pl: Places, s: State, off: u32)
    requires StubsOk(pl, s) && FindBlock(s.blocks, off) == |s.blocks| && BlockGet(pl, s, off).Got?
    ensures StubsOk(pl, BlockGet(pl, s, off).s)
  {
    hide HasAt, TrampBytes, Overwrite, StubBytes;
    var r, n := BlockGet(pl, s, off).s, |s.blocks|;
    HasOverwritten(s.stubs, STUB_SIZE * n, StubBytes(pl, off));
    forall i | 0 <= i < n ensures HasAt(r.stubs, STUB_SIZE * i, StubBytes(pl, s.blocks[i].off)[..STUB_SIZE]) {
      var w := StubBytes(pl, s.blocks[i].off);
      if i + 1 == n { HasPrefix(s.stubs, STUB_SIZE * i, w, STUB_SIZE); }
      HasAfterOverwrite(s.stubs, STUB_SIZE * n, StubBytes(pl, off), STUB_SIZE * i, w[..STUB_SIZE]);
    }
  }

  lemma NativeKept(pl: Places, bc: seq<byte>, s: State, s': State)
    requires NativeOk(pl, bc, s) && Extends(s.blocks, s'.blocks) && RoomFor(s'.code, 64)
    requires s.code.bytes <= s'.code.bytes && s.code.gen <= s'.code.gen
    requires forall k :: 0 <= k < |s'.blocks| && s'.blocks[k].native.Some? ==>
               k < |s.blocks| && s.blocks[k].native == s'.blocks[k].native
    ensures NativeOk(pl, bc, s')
  {
    hide BlockBytes;
    forall i | 0 <= i < |s'.blocks| && s'.blocks[i].native.Some? ensures HasNative(pl, bc, s', i) {
      assert HasNative(pl, bc, s, i);
      BlockBytesKept(pl, bc, s.blocks, s'.blocks, s.blocks[i].off);
      HasInPrefix(s.code.bytes, s'.code.bytes, s.blocks[i].native.value.off,
                  BlockBytes(pl, bc, s.blocks, s.blocks[i].off).value);
    }
  }

  lemma HasInPrefix(t: seq<byte>, t': seq<byte>, at: nat, w: seq<byte>)
    requires t <= t' && HasAt(t, at, w)
    ensures HasAt(t', at, w)
  {
    assert t'[at..at + |w|] == t[at..at + |w|];
  }

  // ----- compiling ----------------------------------------------------------------------------------------

  /** What the compile loop does to the state. */
  ghost predicate Wrote(pl: Places, bc: seq<byte>, s: State, ip: nat, s': State) {
    && TableOk(pl, s') && Extends(s.blocks, s'.blocks) && RoomFor(s'.code, 64)
    && BlockBytes(pl, bc, s'.blocks, ip).Some?
    && s'.code.bytes == s.code.bytes + BlockBytes(pl, bc, s'.blocks, ip).value
    && s.code.gen <= s'.code.gen && s.code.cap <= s'.code.cap
    && (s'.code.gen == s.code.gen <==> |s'.code.bytes| <= s.code.cap)
    && (forall k :: 0 <= k < |s.blocks| ==> s'.blocks[k] == s.blocks[k])
    && (forall k :: |s.blocks| <= k < |s'.blocks| ==> s'.blocks[k].native.None?)
  }

  lemma {:induction false} CompileFromWrites(pl: Places, bc: seq<byte>, s: State, ip: nat)
    requires TableOk(pl, s) && RoomFor(s.code, 64) && CompileFrom(pl, bc, s, ip).Compiled?
    ensures Wrote(pl, bc, s, ip, CompileFrom(pl, bc, s, ip).s)
    decreases |bc| - ip
  {
    hide TableOk, Handled, EndsBlock, EmitEnd, EmitStraight, EmitCall, Decode, BlockGet;
    var s' := CompileFrom(pl, bc, s, ip).s;
    if ip < |bc| {
      var i, next := Decode(bc, ip).i, Decode(bc, ip).next;
      if i.op == OP_CALL {
        CallWrites(pl, s, i.x, i.y);
      } else if EndsBlock(i.op) {
        EndLength(i.op);
        TableIgnoresCode(pl, s, s');
      } else {
        HandledStraight(bc, ip);
        var w := EmitStraight(i);
        var s1 := s.(code := Put(s.code, w));
        TableIgnoresCode(pl, s, s1);
        CompileFromWrites(pl, bc, s1, next);
        assert (s.code.bytes + w) + BlockBytes(pl, bc, s'.blocks, next).value
            == s.code.bytes + (w + BlockBytes(pl, bc, s'.blocks, next).value);
      }
    }
  }

  lemma HandledStraight(bc: seq<byte>, ip: nat)
    requires Decode(bc, ip).Decoded? && Handled(bc[ip])
    requires Decode(bc, ip).i.op != OP_CALL && !EndsBlock(Decode(bc, ip).i.op)
    ensures Integer(Decode(bc, ip).i.op) || IsFloat(Decode(bc, ip).i.op)
  {
  }

  lemma EndLength(op: Op)
    requires EndsBlock(op)
    ensures |EmitEnd(op)| <= 10
  {
  }

  lemma TableIgnoresCode(pl: Places, s: State, s': State)
    requires TableOk(pl, s) && s'.blocks == s.blocks && s'.tramps == s.tramps && s'.stubs == s.stubs
    ensures TableOk(pl, s')
  {
  }

  /** Both trampolines of a call. */
  lemma CallWrites(pl: Places, s: State, x: u32, y: u32)
    requires TableOk(pl, s) && BlockGet(pl, s, x).Got? && BlockGet(pl, BlockGet(pl, s, x).s, y).Got?
    ensures var g1 := BlockGet(pl, s, x);
            var g2 := BlockGet(pl, g1.s, y);
            && TableOk(pl, g2.s) && Extends(s.blocks, g2.s.blocks) && g2.s.code == s.code
            && g1.i == FindBlock(g2.s.blocks, x) && g2.i == FindBlock(g2.s.blocks, y)
            && (forall k :: 0 <= k < |s.blocks| ==> g2.s.blocks[k] == s.blocks[k])
            && (forall k :: |s.blocks| <= k < |g2.s.blocks| ==> g2.s.blocks[k].native.None?)
            && (forall code :: TableOk(pl, g2.s.(code := code)))
  {
    var g1 := BlockGet(pl, s, x);
    var g2 := BlockGet(pl, g1.s, y);
    BlockGetTable(pl, s, x);
    BlockGetTable(pl, g1.s, y);
    hide TableOk, BlockGet;
    FindKept(g1.s.blocks, g2.s.blocks, x);
    ExtendsTwice(s.blocks, g1.s.blocks, g2.s.blocks);
    forall code ensures TableOk(pl, g2.s.(code := code)) { TableIgnoresCode(pl, g2.s, g2.s.(code := code)); }
  }

  lemma PatchBytes(t: seq<byte>, at: nat, old_: nat, new_: nat)
    requires HasAt(t, at, TrampBytes(old_))
    ensures HasAt(Overwrite(t, at + 6, Le(8, new_)), at, TrampBytes(new_))
  {
    var t' := Overwrite(t, at + 6, Le(8, new_));
    var head, tail := [0xFF, 0x25, 0, 0, 0, 0], [0x66, 0x90];
    assert TrampBytes(old_) == head + (Le(8, old_) + tail) && TrampBytes(new_) == head + (Le(8, new_) + tail);
    HasAtSplit(t, at, head, Le(8, old_) + tail);
    HasAtSplit(t, at + 6, Le(8, old_), tail);
    HasAfterOverwrite(t, at + 6, Le(8, new_), at, head);
    HasAfterOverwrite(t, at + 6, Le(8, new_), at + 14, tail);
    HasOverwritten(t, at + 6, Le(8, new_));
    HasAtSplit(t', at + 6, Le(8, new_), tail);
    HasAtSplit(t', at, head, Le(8, new_) + tail);
  }

  lemma SetNativeTable(pl: Places, s: State, i: nat, p: Ptr)
    requires TableOk(pl, s) && i < |s.blocks| && s.blocks[i].native.None?
    ensures TableOk(pl, SetNative(pl, s, i, p)) && Extends(s.blocks, SetNative(pl, s, i, p).blocks)
  {
    hide HasAt, TrampBytes, Overwrite, StubBytes;
    var r := SetNative(pl, s, i, p);
    forall k | 0 <= k < |r.blocks|
      ensures HasAt(r.tramps, TRAMP_SIZE * k, TrampBytes(TargetOf(pl, r.blocks[k], k)))
    {
      if k == i {
        PatchBytes(s.tramps, TRAMP_SIZE * i, TargetOf(pl, s.blocks[i], i), NativeAddress(pl, p));
      } else {
        HasAfterOverwrite(s.tramps, TRAMP_SIZE * i + 6, Le(8, NativeAddress(pl, p)), TRAMP_SIZE * k,
                          TrampBytes(TargetOf(pl, s.blocks[k], k)));
      }
    }
  }

  ghost predicate Inv(pl: Places, bc: seq<byte>, s: State) {
    TableOk(pl, s) && NativeOk(pl, bc, s)
  }

  lemma BlockGetInv(pl: Places, bc: seq<byte>, s: State, off: u32)
    requires Inv(pl, bc, s) && BlockGet(pl, s, off).Got?
    ensures Inv(pl, bc, BlockGet(pl, s, off).s)
  {
    BlockGetTable(pl, s, off);
    hide TableOk, BlockGet;
    NativeKept(pl, bc, s, BlockGet(pl, s, off).s);
  }

  /** Compiling keeps the invariant; a newly compiled block is live exactly if the native
      bytes its bytecode needs fit in what is left of the arena. */
  lemma CompileBlockInv(pl: Places, bc: seq<byte>, s: State, off: u32)
    requires Inv(pl, bc, s) && CompileBlock(pl, bc, s, off).Native?
    ensures var r := CompileBlock(pl, bc, s, off);
            var i := FindBlock(r.s.blocks, off);
            && Inv(pl, bc, r.s) && Extends(s.blocks, r.s.blocks) && s.code.gen <= r.s.code.gen
            && i < |r.s.blocks| && r.s.blocks[i].native == Some(r.p)
            && (FindBlock(s.blocks, off) == |s.blocks| || s.blocks[FindBlock(s.blocks, off)].native.None? ==>
                  (r.p.gen == r.s.code.gen <==> |s.code.bytes| + BlockSize(bc, off) <= s.code.cap))
  {
    var r, g := CompileBlock(pl, bc, s, off), BlockGet(pl, s, off);
    BlockGetTable(pl, s, off);
    BlockGetInv(pl, bc, s, off);
    hide TableOk, BlockGet, CompileFrom, NativeOk, SetNative;
    if g.s.blocks[g.i].native.None? {
      CompileFromWrites(pl, bc, g.s, off);
      BlockBytesSize(pl, bc, CompileFrom(pl, bc, g.s, off).s.blocks, off);
      NewlyCompiled(pl, bc, g.s, off, g.i, CompileFrom(pl, bc, g.s, off).s);
      ExtendsTwice(s.blocks, g.s.blocks, r.s.blocks);
    }
  }

  lemma NewlyCompiled(pl: Places, bc: seq<byte>, s: State, off: u32, i: nat, s2: State)
    requires Inv(pl, bc, s) && i < |s.blocks| && s.blocks[i].off == off && s.blocks[i].native.None?
    requires i == FindBlock(s.blocks, off) && Wrote(pl, bc, s, off, s2)
    ensures var p := Ptr(s.code.gen, |s.code.bytes|);
            var r := SetNative(pl, s2, i, p);
            && Inv(pl, bc, r) && Extends(s.blocks, r.blocks) && r.blocks[i].native == Some(p)
            && i == FindBlock(r.blocks, off) && r.code == s2.code
  {
    hide TableOk, BlockBytes, HasAt;
    var p := Ptr(s.code.gen, |s.code.bytes|);
    var r := SetNative(pl, s2, i, p);
    SetNativeTable(pl, s2, i, p);
    ExtendsTwice(s.blocks, s2.blocks, r.blocks);
    FindKept(s.blocks, r.blocks, off);
    NativeKept(pl, bc, s, s2);
    forall k | 0 <= k < |r.blocks| && r.blocks[k].native.Some? ensures HasNative(pl, bc, r, k) {
      BlockBytesKept(pl, bc, s2.blocks, r.blocks, if k == i then off else s2.blocks[k].off) by {
        if k != i { assert HasNative(pl, bc, s2, k); }
      }
      if k == i {
        HasAppended(s.code.bytes, BlockBytes(pl, bc, s2.blocks, off).value);
      }
    }
  }

  lemma HasAppended(t: seq<byte>, w: seq<byte>)
    ensures HasAt(t + w, |t|, w)
  {
  }

  // ----- any sequence of calls ------------------------------------------------------------------------------

  datatype Request = TrampFor(off: u32) | Compile(off: u32)

  /** None when the process aborts. */
  function Serve(pl: Places, bc: seq<byte>, s: State, q: Request): Option<State> {
    match q
    case TrampFor(off) => (match BlockGet(pl, s, off) case Got(s1, _) => Some(s1) case _ => None)
    case Compile(off) => (match CompileBlock(pl, bc, s, off) case Native(s1, _) => Some(s1) case _ => None)
  }

  function ServeAll(pl: Places, bc: seq<byte>, s: State, qs: seq<Request>): Option<State>
    decreases |qs|
  {
    if qs == [] then Some(s)
    else match Serve(pl, bc, s, qs[0])
      case None => None
      case Some(s1) => ServeAll(pl, bc, s1, qs[1..])
  }

  lemma ServeKeeps(pl: Places, bc: seq<byte>, s: State, q: Request)
    requires Inv(pl, bc, s) && Serve(pl, bc, s, q).Some?
    ensures var s' := Serve(pl, bc, s, q).value;
            Inv(pl, bc, s') && Extends(s.blocks, s'.blocks) && s.code.gen <= s'.code.gen
  {
    hide Inv, BlockGet, CompileBlock;
    match q
    case TrampFor(off) => BlockGetInv(pl, bc, s, off); InvTable(pl, bc, s); BlockGetTable(pl, s, off);
    case Compile(off) => CompileBlockInv(pl, bc, s, off);
  }

  lemma InvTable(pl: Places, bc: seq<byte>, s: State)
    requires Inv(pl, bc, s)
    ensures TableOk(pl, s)
  {
  }

  /** Over any sequence of calls: the invariant holds and no handed-out trampoline or native pointer changes. */
  lemma {:induction false} ServeAllKeeps(pl: Places, bc: seq<byte>, s: State, qs: seq<Request>)
    requires Inv(pl, bc, s) && ServeAll(pl, bc, s, qs).Some?
    ensures var s' := ServeAll(pl, bc, s, qs).value;
            Inv(pl, bc, s') && Extends(s.blocks, s'.blocks) && s.code.gen <= s'.code.gen
    decreases |qs|
  {
    hide Inv, Serve, Extends;
    if qs == [] {
      SelfExtends(s.blocks);
    } else {
      var s1 := Serve(pl, bc, s, qs[0]).value;
      ServeKeeps(pl, bc, s, qs[0]);
      ServeAllKeeps(pl, bc, s1, qs[1..]);
      ExtendsTwice(s.blocks, s1.blocks, ServeAll(pl, bc, s, qs).value.blocks);
    }
  }

  lemma SelfExtends(a: seq<Entry>)
    ensures Extends(a, a)
  {
  }

  /** A fresh context. */
  function Fresh(): State {
    State([], seq(MAX_BLOCKS * TRAMP_SIZE, _ => 0), seq(MAX_BLOCKS * STUB_SIZE, _ => 0), CodeBuf(0, [], 0x10_0000))
  }

  lemma FreshInv(pl: Places, bc: seq<byte>)
    ensures Inv(pl, bc, Fresh())
  {
  }

  lemma Reached(pl: Places, bc: seq<byte>, qs: seq<Request>) returns (s: State)
    requires ServeAll(pl, bc, Fresh(), qs).Some?
    ensures ServeAll(pl, bc, Fresh(), qs) == Some(s) && TableOk(pl, s) && Inv(pl, bc, s)
  {
    hide ServeAll, Fresh, Inv, TableOk;
    FreshInv(pl, bc);
    ServeAllKeeps(pl, bc, Fresh(), qs);
    s := ServeAll(pl, bc, Fresh(), qs).value;
    InvTable(pl, bc, s);
  }

  /** Whatever was requested so far, the trampoline of a known block jumps to its native code once compiled and
      to its stub before, and trampolines of different blocks do not overlap. */
  lemma Trampolines(pl: Places, bc: seq<byte>, qs: seq<Request>, i: nat, j: nat)
    requires ServeAll(pl, bc, Fresh(), qs).Some?
    requires var n := |ServeAll(pl, bc, Fresh(), qs).value.blocks|; i < n && j < n && i != j
    ensures var s := ServeAll(pl, bc, Fresh(), qs).value;
            && s.blocks[i].off != s.blocks[j].off
            && (s.blocks[i].tramp + TRAMP_SIZE <= s.blocks[j].tramp
                || s.blocks[j].tramp + TRAMP_SIZE <= s.blocks[i].tramp)
            && s.blocks[i].tramp + TRAMP_SIZE <= |s.tramps|
            && HasAt(s.tramps, s.blocks[i].tramp, TrampBytes(TargetOf(pl, s.blocks[i], i)))
  {
    hide ServeAll, Fresh, TrampBytes, HasAt, Inv;
    var s := Reached(pl, bc, qs);
  }

  /** The stub slots overlap: only the newest stub is whole. */
  lemma StubWholeIff(pl: Places, bc: seq<byte>, qs: seq<Request>, i: nat)
    requires ServeAll(pl, bc, Fresh(), qs).Some? && i < |ServeAll(pl, bc, Fresh(), qs).value.blocks|
    ensures var s := ServeAll(pl, bc, Fresh(), qs).value;
            HasAt(s.stubs, STUB_SIZE * i, StubBytes(pl, s.blocks[i].off)) <==> i == |s.blocks| - 1
  {
    hide ServeAll, Fresh, StubBytes, HasAt, Inv;
    var s := Reached(pl, bc, qs);
    if i + 1 < |s.blocks| {
      if HasAt(s.stubs, STUB_SIZE * i, StubBytes(pl, s.blocks[i].off)) {
        StubTailByte(pl, s.stubs, STUB_SIZE * i, s.blocks[i].off);
        NextStubStarts(pl, s, i + 1);
        assert false;
      }
    }
  }

  lemma StubTailByte(pl: Places, stubs: seq<byte>, at: nat, off: u32)
    requires HasAt(stubs, at, StubBytes(pl, off))
    ensures at + STUB_SIZE < |stubs| && stubs[at + STUB_SIZE] == 0x58
  {
    hide StubHead;
    BytesAt(stubs, at, StubBytes(pl, off));
    assert StubBytes(pl, off)[STUB_SIZE] == STUB_TAIL[7];
  }

  lemma NextStubStarts(pl: Places, s: State, j: nat)
    requires StubsOk(pl, s) && j < |s.blocks|
    ensures |s.stubs| > STUB_SIZE * j && s.stubs[STUB_SIZE * j] == 0x48
  {
    var w := StubBytes(pl, s.blocks[j].off);
    var v := if j + 1 == |s.blocks| then w else w[..STUB_SIZE];
    BytesAt(s.stubs, STUB_SIZE * j, v);
    assert s.stubs[STUB_SIZE * j + 0] == v[0];
  }

  // ----- live native code simulates the interpreter ------------------------------------------------------------

  /** The block's leading straight-line instructions are at the front of its bytes. */
  lemma {:induction false} BlockStarts(pl: Places, bc: seq<byte>, blocks: seq<Entry>, ip: nat, ins: seq<Instr>)
    requires BlockBytes(pl, bc, blocks, ip).Some? && DecodesTo(bc, ip, ins) && AllInteger(ins)
    ensures EmitIntegers(ins) <= BlockBytes(pl, bc, blocks, ip).value
    decreases |ins|
  {
    hide EmitInteger, Decode;
    if ins != [] {
      var next := Decode(bc, ip).next;
      assert AllInteger(ins[1..]);
      BlockStarts(pl, bc, blocks, next, ins[1..]);
    }
  }

  /** In any reachable context, the code at the native pointer of a compiled block, for as long as that pointer
      is into the current arena, runs the block's straight-line part as the interpreter does. */
  lemma NativeSimulates(
      pl: Places, c: Image, qs: seq<Request>, i: nat, t: Thread, m: Mem, e: Env, ins: seq<Instr>, x: XRegs)
      returns (t': Thread, x': XRegs)
    requires ServeAll(pl, c.code, Fresh(), qs).Some? && i < |ServeAll(pl, c.code, Fresh(), qs).value.blocks|
    requires ServeAll(pl, c.code, Fresh(), qs).value.blocks[i].native.Some?
    requires t.ip == c.base + ServeAll(pl, c.code, Fresh(), qs).value.blocks[i].off
    requires AllSound(ins) && DecodesTo(c.code, t.ip - c.base, ins) && Related(t.data.gpr, x)
    ensures VmRun(c, t, m, e, |ins|) == Some(t')
    ensures t' == Thread(t'.ip, t.shadow, t.data.(gpr := t'.data.gpr)) && t'.ip == t.ip + Boundary(ins, |ins|)
    ensures var s := ServeAll(pl, c.code, Fresh(), qs).value;
            var p := s.blocks[i].native.value.off;
            XRun(s.code.bytes, XState(p, x), StepsOf(ins)) == Some(XState(p + EmittedLength(ins), x'))
    ensures Related(t'.data.gpr, x') && OthersKept(x, x')
  {
    hide ServeAll, Fresh, HasAt, TableOk, BlockBytes, Related, DecodesTo, AllSound, XRun, VmRun;
    var s := Reached(pl, c.code, qs);
    AllSoundTail(ins);
    assert HasNative(pl, c.code, s, i);
    BlockStarts(pl, c.code, s.blocks, s.blocks[i].off, ins);
    var w := BlockBytes(pl, c.code, s.blocks, s.blocks[i].off).value;
    HasPrefix(s.code.bytes, s.blocks[i].native.value.off, w, |EmitIntegers(ins)|);
    assert w[..|EmitIntegers(ins)|] == EmitIntegers(ins);
    t', x' := BlockSimulation(c, t, m, e, ins, s.code.bytes, s.blocks[i].native.value.off, x);
  }

  ghost function EmittedLength(ins: seq<Instr>): nat
    requires AllSound(ins)
  {
    AllSoundTail(ins);
    |EmitIntegers(ins)|
  }

  // ----- when the compiler gives up --------------------------------------------------------------------------------

  /** In any reachable context a block is found or made exactly unless it is new and 4095 blocks exist already: the
      stub of the last of the 4096 slots would run past its arena. */
  lemma BlockGetIff(pl: Places, bc: seq<byte>, qs: seq<Request>, off: u32)
    requires ServeAll(pl, bc, Fresh(), qs).Some?
    ensures var s := ServeAll(pl, bc, Fresh(), qs).value;
            var known := exists k :: 0 <= k < |s.blocks| && s.blocks[k].off == off;
            BlockGet(pl, s, off).Got? <==> known || |s.blocks| < 4095
  {
    hide ServeAll, Fresh, TrampBytes, StubBytes, Overwrite, DistinctOffsets, Inv;
    var s := Reached(pl, bc, qs);
    var i := FindBlock(s.blocks, off);
  }

  /** Compiling from ip meets an opcode the compiler does not translate before the block ends. */
  ghost predicate MeetsUnknown(bc: seq<byte>, ip: nat)
    decreases |bc| - ip
  {
    ip < |bc| &&
    (bc[ip] !in {OP_MOV_RR, OP_MOV_RI, OP_ADD, OP_SUB, OP_MUL, OP_IMUL, OP_NEG, OP_AND, OP_OR, OP_XOR, OP_SHL, OP_SHR,
                 OP_SAR, OP_FADD, OP_FMUL, OP_CALL, OP_RET, OP_THROW, OP_HALT}
     || (bc[ip] !in {OP_CALL, OP_RET, OP_THROW, OP_HALT}
         && Decode(bc, ip).Decoded? && MeetsUnknown(bc, Decode(bc, ip).next)))
  }

  /** The compiler aborts on exactly those blocks. */
  lemma {:induction false} UnhandledIff(pl: Places, bc: seq<byte>, s: State, ip: nat)
    ensures CompileFrom(pl, bc, s, ip) == Unhandled <==> MeetsUnknown(bc, ip)
    decreases |bc| - ip
  {
    hide EmitCall, EmitEnd, EmitStraight, BlockGet, Operands;
    if ip < |bc| && Handled(bc[ip]) && Decode(bc, ip).Decoded? {
      var i := Decode(bc, ip).i;
      if i.op != OP_CALL && !EndsBlock(i.op) {
        HandledStraight(bc, ip);
        UnhandledIff(pl, bc, s.(code := Put(s.code, EmitStraight(i))), Decode(bc, ip).next);
      }
    }
  }

  // ----- the size of the code arena ---------------------------------------------------------------------------------

  /** One megabyte, doubled at every move. */
  ghost predicate Doubled(b: CodeBuf) { b.cap == 0x10_0000 * Pow2(b.gen) }

  lemma PutDoubles(b: CodeBuf, w: seq<byte>)
    requires Doubled(b)
    ensures Doubled(Put(b, w))
  {
  }

  lemma {:induction false} CompileDoubles(pl: Places, bc: seq<byte>, s: State, ip: nat)
    requires Doubled(s.code) && CompileFrom(pl, bc, s, ip).Compiled?
    ensures Doubled(CompileFrom(pl, bc, s, ip).s.code)
    decreases |bc| - ip
  {
    hide Doubled, Put, Handled, EmitCall, EmitEnd, EmitStraight, Decode;
    if ip < |bc| {
      var i := Decode(bc, ip).i;
      if i.op == OP_CALL {
        forall w { PutDoubles(s.code, w); }
      } else if EndsBlock(i.op) {
        PutDoubles(s.code, EmitEnd(i.op));
      } else {
        HandledStraight(bc, ip);
        PutDoubles(s.code, EmitStraight(i));
        CompileDoubles(pl, bc, s.(code := Put(s.code, EmitStraight(i))), Decode(bc, ip).next);
      }
    }
  }

  lemma {:induction false} ServeDoubles(pl: Places, bc: seq<byte>, s: State, qs: seq<Request>)
    requires Doubled(s.code) && ServeAll(pl, bc, s, qs).Some?
    ensures Doubled(ServeAll(pl, bc, s, qs).value.code)
    decreases |qs|
  {
    hide Doubled, CompileFrom, TrampBytes, StubBytes, Overwrite;
    if qs != [] {
      if qs[0].Compile? {
        var g := BlockGet(pl, s, qs[0].off);
        if g.s.blocks[g.i].native.None? { CompileDoubles(pl, bc, g.s, qs[0].off); }
      }
      ServeDoubles(pl, bc, Serve(pl, bc, s, qs[0]).value, qs[1..]);
    }
  }

  /** In any reachable context the arena holds one megabyte times 2 to the number of moves, and all the code fits. */
  lemma ArenaSize(pl: Places, bc: seq<byte>, qs: seq<Request>)
    requires ServeAll(pl, bc, Fresh(), qs).Some?
    ensures var b := ServeAll(pl, bc, Fresh(), qs).value.code;
            |b.bytes| <= b.cap == 0x10_0000 * Pow2(b.gen)
  {
    hide ServeAll, TableOk;
    FreshDoubled();
    ServeDoubles(pl, bc, Fresh(), qs);
    var s := Reached(pl, bc, qs);
  }

  lemma FreshDoubled()
    ensures Doubled(Fresh().code)
  {
    assert Pow2(0) == 1;
  }
}
