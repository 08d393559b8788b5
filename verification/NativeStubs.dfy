/** The compile stubs executed from memory: a block that is not compiled yet leads to the compile handler. */
module NativeStubs {
  import opened Words
  import opened Isa
  import opened Memory
  import opened Stores
  import opened X86
  import opened Blocks
  import opened BlockLaws
  import opened Native
  import opened NativeBlocks

  // ----- saving registers -----------------------------------------------------------------------------

  function PushOne(r: XReg): seq<byte> { if r < 8 then [0x50 + r] else [0x41, 0x50 + (r - 8)] }

  function PushAll(rs: seq<XReg>): seq<byte> { if rs == [] then [] else PushOne(rs[0]) + PushAll(rs[1..]) }

  /** n bytes of stack from a, mapped and apart from the code that is running. */
  ghost predicate StackRoom(m: Mem, a: nat, n: nat, base: nat, c: seq<byte>) {
    Mapped(m, a, n) && a + n < TWO64 && Apart(Range(a, n), Range(base, |c|))
  }

  lemma DecodePush(w: seq<byte>, r: XReg)
    requires |w| == 10
    requires if r < 8 then w[0] == 0x50 + r else w[0] == 0x41 && w[1] == 0x50 + (r - 8)
    ensures NDecode(w, 0) == NDecoded(PushReg(r), |PushOne(r)|)
  {
  }

  lemma PushStep(s: Machine, base: nat, c: seq<byte>, at: nat, r: XReg) returns (m': Mem)
    requires LiesAt(s.mem, base, c) && base + |c| < TWO64 && HasAt(c, at, PushOne(r)) && s.rip == base + at
    requires s.x[RSP] >= 8 && StackRoom(s.mem, s.x[RSP] - 8, 8, base, c)
    ensures base + at + |PushOne(r)| < TWO64
    ensures NStep(s) == Some(Machine(base + at + |PushOne(r)|, s.x[RSP := s.x[RSP] - 8], m'))
    ensures SameOutside(s.mem, m', Some(Range(s.x[RSP] - 8, 8))) && LiesAt(m', base, c)
    ensures FromLe(Bytes(m', s.x[RSP] - 8, 8)) == s.x[r]
  {
    hide NDecode, NStep, LiesAt, Load, Store, FromLe, Bytes;
    var w := PushOne(r);
    forall v: seq<byte> | |v| == 10 && (forall k :: 0 <= k < |w| ==> v[k] == w[k])
      ensures NDecode(v, 0) == NDecoded(PushReg(r), |w|)
    {
      assert v[0] == w[0] && (r >= 8 ==> v[1] == w[1]);
      DecodePush(v, r);
    }
    StepOf(s, base, c, at, w, PushReg(r));
    var a := s.x[RSP] - 8;
    StoreDefined(s.mem, a, 8, s.x[r]);
    m' := Store(s.mem, a, 8, s.x[r]).value;
    StoreMisses(s.mem, a, 8, s.x[r]);
    StoreWord(s.mem, a, s.x[r]);
    LoadDefined(m', a, 8);
    LoadIsLe(m', a, 8);
    CodeStays(s.mem, m', base, c, Range(a, 8));
  }

  /** The words pushed, the first one on the highest address. */
  ghost predicate Pushed(m: Mem, top: nat, rs: seq<XReg>, x: XRegs)
    requires top >= 8 * |rs|
  {
    forall k :: 0 <= k < |rs| ==> FromLe(Bytes(m, top - 8 * (k + 1), 8)) == x[rs[k]]
  }

  lemma {:induction false} PushRun(s: Machine, base: nat, c: seq<byte>, at: nat, rs: seq<XReg>) returns (m': Mem)
    requires LiesAt(s.mem, base, c) && base + |c| < TWO64 && HasAt(c, at, PushAll(rs)) && s.rip == base + at
    requires RSP !in rs && s.x[RSP] >= 8 * |rs| && StackRoom(s.mem, s.x[RSP] - 8 * |rs|, 8 * |rs|, base, c)
    ensures var a := s.x[RSP] - 8 * |rs|;
            && NRun(s, |rs|) == Some(Machine(base + at + |PushAll(rs)|, s.x[RSP := a], m'))
            && SameOutside(s.mem, m', Some(Range(a, 8 * |rs|))) && LiesAt(m', base, c)
            && Pushed(m', s.x[RSP], rs, s.x)
    decreases |rs|
  {
    hide NStep, NRun, LiesAt, HasAt, FromLe, Bytes, PushOne;
    if rs == [] {
      m' := s.mem;
      NoRun(s);
      assert s.x[RSP := s.x[RSP]] == s.x;
    } else {
      var r, rest := rs[0], rs[1..];
      HasAtSplit(c, at, PushOne(r), PushAll(rest));
      var m1 := PushStep(s, base, c, at, r);
      var s1 := Machine(base + at + |PushOne(r)|, s.x[RSP := s.x[RSP] - 8], m1);
      OneRun(s, s1);
      m' := PushRun(s1, base, c, at + |PushOne(r)|, rest);
      NRunAdd(s, 1, |rest|);
      WordStays(m1, m', s.x[RSP] - 8 - 8 * |rest|, 8 * |rest|, s.x[RSP] - 8);
      forall k | 0 <= k < |rs| ensures FromLe(Bytes(m', s.x[RSP] - 8 * (k + 1), 8)) == s.x[rs[k]] {
        if k > 0 {
          assert FromLe(Bytes(m', s1.x[RSP] - 8 * (k - 1 + 1), 8)) == s1.x[rest[k - 1]];
          assert s1.x[RSP] - 8 * (k - 1 + 1) == s.x[RSP] - 8 * (k + 1);
        }
      }
      assert s1.x[RSP := s1.x[RSP] - 8 * |rest|] == s.x[RSP := s.x[RSP] - 8 * |rs|];
    }
  }

  lemma NoRun(s: Machine)
    ensures NRun(s, 0) == Some(s)
  {
  }

  lemma WordStays(m: Mem, m': Mem, a: nat, n: nat, b: nat)
    requires SameOutside(m, m', Some(Range(a, n))) && a + n <= b
    ensures Bytes(m', b, 8) == Bytes(m, b, 8)
  {
    forall k | 0 <= k < 8 ensures Bytes(m', b, 8)[k] == Bytes(m, b, 8)[k] {
      assert !In(Range(a, n), b + k);
    }
  }

  // ----- one stub -----------------------------------------------------------------------------------------

  const SAVED: seq<XReg> := [0, 1, 2, 7, 6, 8, 9, 10, 11]

  lemma DecodeStub(w: seq<byte>, v: u32)
    requires |w| == 10
    ensures w[0] == 0x48 && w[1] == 0x83 && w[2] == 0xEC && w[3] == 0x08 ==>
              NDecode(w, 0) == NDecoded(SubImm(RSP, 8), 4)
    ensures w[0] == 0xFF && w[1] == 0xD0 ==> NDecode(w, 0) == NDecoded(CallReg(0), 2)
    ensures w[0] == 0xBE && w[1..5] == Le(4, v) ==> NDecode(w, 0) == NDecoded(MovLow(RSI, v), 5)
  {
    PowValues();
    FromLeLe(4, v);
    hide Le, FromLe;
  }

  lemma DecodeStubStore(w: seq<byte>, v: u32)
    requires |w| == 10 && w[0] == 0x48 && w[1] == 0xC7 && w[2] == 0x44 && w[3] == 0x24 && w[4] == 0xF8
    requires w[5..9] == Le(4, v) && v < Pow256(4)
    ensures NDecode(w, 0) == NDecoded(StoreImm(RSP, -8, SignExtend(4, v)), 9)
  {
    PowValues();
    FromLeLe(4, v);
    hide Le, FromLe, SignExtend;
  }

  lemma DecodeMovImm(w: seq<byte>, r: XReg, v: u64)
    requires |w| == 10 && r < 8 && w[0] == 0x48 && w[1] == 0xB8 + r && w[2..10] == Le(8, v)
    ensures NDecode(w, 0) == NDecoded(Straight(MovImm(r, v)), 10)
  {
    PowValues();
    FromLeLe(8, v);
    hide Le, FromLe;
    assert XDecode(w, 0) == XDecoded(MovImm(r, v), 10);
  }

  lemma MovImmStep(s: Machine, base: nat, c: seq<byte>, at: nat, r: XReg, v: u64)
    requires LiesAt(s.mem, base, c) && base + |c| < TWO64 && s.rip == base + at
    requires r < 8 && HasAt(c, at, [0x48, 0xB8 + r] + Le(8, v))
    ensures base + at + 10 < TWO64
    ensures NStep(s) == Some(Machine(base + at + 10, s.x[r := v], s.mem))
  {
    hide NDecode, NStep, LiesAt, Le;
    var w := [0x48, 0xB8 + r] + Le(8, v);
    forall u: seq<byte> | |u| == 10 && (forall k :: 0 <= k < |w| ==> u[k] == w[k])
      ensures NDecode(u, 0) == NDecoded(Straight(MovImm(r, v)), |w|)
    {
      assert u[0] == w[0] && u[1] == w[1];
      assert u[2..10] == w[2..10] && w[2..10] == Le(8, v);
      DecodeMovImm(u, r, v);
    }
    StepOf(s, base, c, at, w, Straight(MovImm(r, v)));
  }

  lemma MovLowStep(s: Machine, base: nat, c: seq<byte>, at: nat, v: u32)
    requires LiesAt(s.mem, base, c) && base + |c| < TWO64 && s.rip == base + at && HasAt(c, at, [0xBE] + Le(4, v))
    ensures base + at + 5 < TWO64
    ensures NStep(s) == Some(Machine(base + at + 5, s.x[RSI := v], s.mem))
  {
    hide NDecode, NStep, LiesAt, Le;
    var w := [0xBE] + Le(4, v);
    forall u: seq<byte> | |u| == 10 && (forall k :: 0 <= k < |w| ==> u[k] == w[k])
      ensures NDecode(u, 0) == NDecoded(MovLow(RSI, v), |w|)
    {
      assert u[0] == w[0];
      assert u[1..5] == w[1..5] && w[1..5] == Le(4, v);
      DecodeStub(u, v);
    }
    StepOf(s, base, c, at, w, MovLow(RSI, v));
  }

  lemma SubRspStep(s: Machine, base: nat, c: seq<byte>, at: nat)
    requires LiesAt(s.mem, base, c) && base + |c| < TWO64 && s.rip == base + at
    requires HasAt(c, at, [0x48, 0x83, 0xEC, 0x08]) && s.x[RSP] >= 8
    ensures base + at + 4 < TWO64
    ensures NStep(s) == Some(Machine(base + at + 4, s.x[RSP := s.x[RSP] - 8], s.mem))
  {
    hide NDecode, NStep, LiesAt;
    var w := [0x48, 0x83, 0xEC, 0x08];
    forall u: seq<byte> | |u| == 10 && (forall k :: 0 <= k < |w| ==> u[k] == w[k])
      ensures NDecode(u, 0) == NDecoded(SubImm(RSP, 8), |w|)
    {
      assert u[0] == w[0] && u[1] == w[1] && u[2] == w[2] && u[3] == w[3];
      DecodeStub(u, 0);
    }
    StepOf(s, base, c, at, w, SubImm(RSP, 8));
  }

  /** The first instruction stores the bytecode offset below the stack pointer. */
  lemma StoreOffsetStep(s: Machine, base: nat, c: seq<byte>, at: nat, v: u32) returns (m': Mem)
    requires LiesAt(s.mem, base, c) && base + |c| < TWO64 && s.rip == base + at
    requires HasAt(c, at, [0x48, 0xC7, 0x44, 0x24, 0xF8] + Le(4, v))
    requires s.x[RSP] >= 8 && StackRoom(s.mem, s.x[RSP] - 8, 8, base, c)
    ensures base + at + 9 < TWO64 && NStep(s) == Some(Machine(base + at + 9, s.x, m'))
    ensures SameOutside(s.mem, m', Some(Range(s.x[RSP] - 8, 8))) && LiesAt(m', base, c)
  {
    hide NDecode, NStep, LiesAt, Le, Store, SignExtend;
    PowValues();
    var w := [0x48, 0xC7, 0x44, 0x24, 0xF8] + Le(4, v);
    forall u: seq<byte> | |u| == 10 && (forall k :: 0 <= k < |w| ==> u[k] == w[k])
      ensures NDecode(u, 0) == NDecoded(StoreImm(RSP, -8, SignExtend(4, v)), |w|)
    {
      assert u[0] == w[0] && u[1] == w[1] && u[2] == w[2] && u[3] == w[3] && u[4] == w[4];
      assert u[5..9] == w[5..9] && w[5..9] == Le(4, v);
      DecodeStubStore(u, v);
    }
    StepOf(s, base, c, at, w, StoreImm(RSP, -8, SignExtend(4, v)));
    var a := s.x[RSP] - 8;
    StoreDefined(s.mem, a, 8, SignExtend(4, v));
    m' := Store(s.mem, a, 8, SignExtend(4, v)).value;
    StoreMisses(s.mem, a, 8, SignExtend(4, v));
    CodeStays(s.mem, m', base, c, Range(a, 8));
  }

  lemma CallStep(s: Machine, base: nat, c: seq<byte>, at: nat) returns (m': Mem)
    requires LiesAt(s.mem, base, c) && base + |c| < TWO64 && s.rip == base + at && HasAt(c, at, [0xFF, 0xD0])
    requires s.x[RSP] >= 8 && StackRoom(s.mem, s.x[RSP] - 8, 8, base, c)
    ensures NStep(s) == Some(Machine(s.x[0], s.x[RSP := s.x[RSP] - 8], m'))
    ensures SameOutside(s.mem, m', Some(Range(s.x[RSP] - 8, 8)))
    ensures FromLe(Bytes(m', s.x[RSP] - 8, 8)) == base + at + 2
  {
    hide NDecode, NStep, LiesAt, Load, Store, FromLe, Bytes;
    var w := [0xFF, 0xD0];
    forall u: seq<byte> | |u| == 10 && (forall k :: 0 <= k < |w| ==> u[k] == w[k])
      ensures NDecode(u, 0) == NDecoded(CallReg(0), |w|)
    {
      assert u[0] == w[0] && u[1] == w[1];
      DecodeStub(u, 0);
    }
    StepOf(s, base, c, at, w, CallReg(0));
    var a, next := s.x[RSP] - 8, base + at + 2;
    StoreDefined(s.mem, a, 8, next);
    m' := Store(s.mem, a, 8, next).value;
    StoreMisses(s.mem, a, 8, next);
    StoreWord(s.mem, a, next);
    LoadDefined(m', a, 8);
    LoadIsLe(m', a, 8);
  }

  lemma StubShape(pl: Places, off: u32)
    ensures StubBytes(pl, off)[..STUB_SIZE] ==
              [0x48, 0xC7, 0x44, 0x24, 0xF8] + Le(4, off) + (PushAll(SAVED)
              + ([0x48, 0x83, 0xEC, 0x08] + ([0x48, 0xBF] + Le(8, pl.ctx) + ([0xBE] + Le(4, off)
              + ([0x48, 0xB8] + Le(8, pl.handler) + ([0xFF, 0xD0] + ([0x48, 0x83, 0xC4, 0x08] + STUB_TAIL[..7])))))))
  {
    hide Le, PushAll;
    SavedBytes();
    assert StubBytes(pl, off)[..STUB_SIZE] == StubHead(pl, off) + STUB_TAIL[..7];
  }

  /** The parts of a stub up to its call. */
  lemma StubParts(c: seq<byte>, at: nat, pl: Places, off: u32)
    requires HasAt(c, at, StubBytes(pl, off)[..STUB_SIZE])
    ensures HasAt(c, at, [0x48, 0xC7, 0x44, 0x24, 0xF8] + Le(4, off)) && HasAt(c, at + 9, PushAll(SAVED))
    ensures |PushAll(SAVED)| == 13
    ensures HasAt(c, at + 22, [0x48, 0x83, 0xEC, 0x08]) && HasAt(c, at + 26, [0x48, 0xBF] + Le(8, pl.ctx))
    ensures HasAt(c, at + 36, [0xBE] + Le(4, off)) && HasAt(c, at + 41, [0x48, 0xB8] + Le(8, pl.handler))
    ensures HasAt(c, at + 51, [0xFF, 0xD0])
  {
    hide Le;
    SavedBytes();
    var p0, p1 := [0x48, 0xC7, 0x44, 0x24, 0xF8] + Le(4, off), PushAll(SAVED);
    var p2, p3 := [0x48, 0x83, 0xEC, 0x08], [0x48, 0xBF] + Le(8, pl.ctx);
    var p4, p5, p6 := [0xBE] + Le(4, off), [0x48, 0xB8] + Le(8, pl.handler), [0xFF, 0xD0];
    hide PushAll;
    var p7 := [0x48, 0x83, 0xC4, 0x08] + STUB_TAIL[..7];
    hide StubBytes, StubHead;
    StubShape(pl, off);
    HasAtSplit(c, at, p0, p1 + (p2 + (p3 + (p4 + (p5 + (p6 + p7))))));
    HasAtSplit(c, at + 9, p1, p2 + (p3 + (p4 + (p5 + (p6 + p7)))));
    HasAtSplit(c, at + 22, p2, p3 + (p4 + (p5 + (p6 + p7))));
    HasAtSplit(c, at + 26, p3, p4 + (p5 + (p6 + p7)));
    HasAtSplit(c, at + 36, p4, p5 + (p6 + p7));
    HasAtSplit(c, at + 41, p5, p6 + p7);
    HasAtSplit(c, at + 51, p6, p7);
  }

  lemma PushCons(r: XReg, rest: seq<XReg>)
    ensures PushAll([r] + rest) == PushOne(r) + PushAll(rest)
  {
    hide PushOne;
    assert ([r] + rest)[1..] == rest;
  }

  lemma LastSaved(t: seq<XReg>)
    requires t == [8, 9, 10, 11]
    ensures PushAll(t) == [0x41, 0x50, 0x41, 0x51, 0x41, 0x52, 0x41, 0x53]
  {
    PushCons(8, [9, 10, 11]);
    PushCons(9, [10, 11]);
    PushCons(10, [11]);
    PushCons(11, []);
    assert t == [8] + [9, 10, 11] && [9, 10, 11] == [9] + [10, 11] && [10, 11] == [10] + [11] && [11] == [11] + [];
    assert PushAll([]) == [];
    hide PushAll;
  }

  lemma SavedBytes()
    ensures PushAll(SAVED) == [0x50, 0x51, 0x52, 0x57, 0x56, 0x41, 0x50, 0x41, 0x51, 0x41, 0x52, 0x41, 0x53]
  {
    hide PushAll;
    var t: seq<XReg> := [8, 9, 10, 11];
    LastSaved(t);
    PushCons(6, t);
    PushCons(7, [6] + t);
    PushCons(2, [7] + ([6] + t));
    PushCons(1, [2] + ([7] + ([6] + t)));
    PushCons(0, [1] + ([2] + ([7] + ([6] + t))));
    assert SAVED == [0] + ([1] + ([2] + ([7] + ([6] + t))));
  }

  lemma RoomWithin(m: Mem, m': Mem, a: nat, n: nat, b: nat, k: nat, base: nat, c: seq<byte>)
    requires StackRoom(m, a, n, base, c) && m'.Keys == m.Keys && a <= b && b + k <= a + n
    ensures StackRoom(m', b, k, base, c)
  {
  }

  lemma Wider(m: Mem, m': Mem, a: nat, n: nat, b: nat, k: nat)
    requires SameOutside(m, m', Some(Range(b, k))) && a <= b && b + k <= a + n
    ensures SameOutside(m, m', Some(Range(a, n)))
  {
  }

  lemma OutsideTwice(m: Mem, m1: Mem, m2: Mem, r: Range)
    requires SameOutside(m, m1, Some(r)) && SameOutside(m1, m2, Some(r))
    ensures SameOutside(m, m2, Some(r))
  {
  }

  /** A stub, even one whose tail the next stub has overwritten, calls the compile handler with the context and the
      block's bytecode offset, having saved nine registers on the stack. */
  lemma StubCalls(s: Machine, base: nat, c: seq<byte>, at: nat, pl: Places, off: u32) returns (m': Mem)
    requires LiesAt(s.mem, base, c) && base + |c| < TWO64 && s.rip == base + at
    requires HasAt(c, at, StubBytes(pl, off)[..STUB_SIZE])
    requires s.x[RSP] >= 88 && StackRoom(s.mem, s.x[RSP] - 88, 88, base, c)
    ensures var sp := s.x[RSP];
            && NRun(s, 15)
               == Some(Machine(pl.handler, s.x[RSP := sp - 88][7 := pl.ctx][RSI := off][0 := pl.handler], m'))
            && SameOutside(s.mem, m', Some(Range(sp - 88, 88)))
            && Pushed(m', sp, SAVED, s.x) && FromLe(Bytes(m', sp - 88, 8)) == base + at + 53
  {
    hide NStep, NRun, LiesAt, HasAt, FromLe, Bytes, StubBytes, PushAll, Le, StackRoom, Pushed, SameOutside;
    var sp := s.x[RSP];
    var all := Range(sp - 88, 88);
    StubParts(c, at, pl, off);
    RoomWithin(s.mem, s.mem, sp - 88, 88, sp - 8, 8, base, c);
    var m0 := StoreOffsetStep(s, base, c, at, off);
    var s0 := Machine(base + at + 9, s.x, m0);
    OneRun(s, s0);
    SameKeys(s.mem, m0, Range(sp - 8, 8));
    Wider(s.mem, m0, sp - 88, 88, sp - 8, 8);
    RoomWithin(s.mem, m0, sp - 88, 88, sp - 72, 72, base, c);
    var m1 := PushRun(s0, base, c, at + 9, SAVED);
    var s1 := Machine(base + at + 22, s.x[RSP := sp - 72], m1);
    NRunAdd(s, 1, 9);
    SameKeys(m0, m1, Range(sp - 72, 72));
    Wider(m0, m1, sp - 88, 88, sp - 72, 72);
    OutsideTwice(s.mem, m0, m1, all);
    var s5 := StubArguments(s1, base, c, at, pl, off);
    NRunAdd(s, 10, 4);
    RoomWithin(s.mem, m1, sp - 88, 88, sp - 88, 8, base, c);
    m' := CallStep(s5, base, c, at + 51);
    ThenStep(s, 14, s5, Machine(pl.handler, s5.x[RSP := sp - 88], m'));
    PushedStays(m1, m', sp, SAVED, s.x, sp - 88);
    Wider(m1, m', sp - 88, 88, sp - 88, 8);
    OutsideTwice(s.mem, m1, m', all);
    assert s5.x[RSP := sp - 88] == s.x[RSP := sp - 88][7 := pl.ctx][RSI := off][0 := pl.handler];
  }

  /** From the saved registers to the call: room for alignment, both arguments, the handler's address. */
  lemma StubArguments(s: Machine, base: nat, c: seq<byte>, at: nat, pl: Places, off: u32) returns (t: Machine)
    requires LiesAt(s.mem, base, c) && base + |c| < TWO64 && s.rip == base + at + 22 && s.x[RSP] >= 8
    requires HasAt(c, at + 22, [0x48, 0x83, 0xEC, 0x08]) && HasAt(c, at + 26, [0x48, 0xBF] + Le(8, pl.ctx))
    requires HasAt(c, at + 36, [0xBE] + Le(4, off)) && HasAt(c, at + 41, [0x48, 0xB8] + Le(8, pl.handler))
    ensures NRun(s, 4) == Some(t)
    ensures t == Machine(base + at + 51, s.x[RSP := s.x[RSP] - 8][7 := pl.ctx][RSI := off][0 := pl.handler], s.mem)
  {
    hide NStep, NRun, LiesAt, HasAt, Le;
    SubRspStep(s, base, c, at + 22);
    var s1 := Machine(base + at + 26, s.x[RSP := s.x[RSP] - 8], s.mem);
    OneRun(s, s1);
    MovImmStep(s1, base, c, at + 26, 7, pl.ctx);
    var s2 := Machine(base + at + 36, s1.x[7 := pl.ctx], s.mem);
    ThenStep(s, 1, s1, s2);
    MovLowStep(s2, base, c, at + 36, off);
    var s3 := Machine(base + at + 41, s2.x[RSI := off], s.mem);
    ThenStep(s, 2, s2, s3);
    MovImmStep(s3, base, c, at + 41, 0, pl.handler);
    t := Machine(base + at + 51, s3.x[0 := pl.handler], s.mem);
    ThenStep(s, 3, s3, t);
  }

  lemma SameKeys(m: Mem, m': Mem, r: Range)
    requires SameOutside(m, m', Some(r))
    ensures m'.Keys == m.Keys
  {
  }

  lemma PushedStays(m: Mem, m': Mem, top: nat, rs: seq<XReg>, x: XRegs, a: nat)
    requires top >= 8 * |rs| && Pushed(m, top, rs, x)
    requires SameOutside(m, m', Some(Range(a, 8))) && a + 8 <= top - 8 * |rs|
    ensures Pushed(m', top, rs, x)
  {
    hide FromLe, Bytes;
    forall k | 0 <= k < |rs| ensures FromLe(Bytes(m', top - 8 * (k + 1), 8)) == x[rs[k]] {
      WordStays(m, m', a, 8, top - 8 * (k + 1));
    }
  }

  // ----- a block that is not compiled yet --------------------------------------------------------------------

  /** In any reachable context, with trampolines and stubs in memory: the processor, started at the trampoline of a
      block that is not compiled, reaches the compile handler with the context and the block's bytecode offset as its
      arguments; nothing outside 88 bytes of stack is written. */
  lemma UncompiledCallsHandler(
      pl: Places, bc: seq<byte>, qs: seq<Request>, i: nat, x: XRegs, mem: Mem) returns (mem': Mem, x': XRegs)
    requires ServeAll(pl, bc, Fresh(), qs).Some? && i < |ServeAll(pl, bc, Fresh(), qs).value.blocks|
    requires var s := ServeAll(pl, bc, Fresh(), qs).value;
             && s.blocks[i].native == None
             && LiesAt(mem, pl.tramps, s.tramps) && pl.tramps + |s.tramps| < TWO64
             && LiesAt(mem, pl.stubs, s.stubs) && pl.stubs + |s.stubs| < TWO64
             && x[RSP] >= 88 && StackRoom(mem, x[RSP] - 88, 88, pl.stubs, s.stubs)
    ensures var s := ServeAll(pl, bc, Fresh(), qs).value;
            && NRun(Machine(pl.tramps + s.blocks[i].tramp, x, mem), 16) == Some(Machine(pl.handler, x', mem'))
            && x'[7] == pl.ctx && x'[6] == s.blocks[i].off && x'[RSP] == x[RSP] - 88
            && SameOutside(mem, mem', Some(Range(x[RSP] - 88, 88))) && Pushed(mem', x[RSP], SAVED, x)
  {
    hide ServeAll, Fresh, HasAt, NRun, NStep, TrampBytes, LiesAt, StubBytes, Inv, DistinctOffsets, StackRoom, Pushed,
         SameOutside, FromLe;
    var s := Reached(pl, bc, qs);
    var e := s.blocks[i];
    StubThere(pl, s, i);
    var at := STUB_SIZE * i;
    TrampolineStep(pl.tramps, s.tramps, e.tramp, pl.stubs + at, x, mem);
    var s0, s1 := Machine(pl.tramps + e.tramp, x, mem), Machine(pl.stubs + at, x, mem);
    OneRun(s0, s1);
    mem' := StubCalls(s1, pl.stubs, s.stubs, at, pl, e.off);
    NRunAdd(s0, 1, 15);
    x' := x[RSP := x[RSP] - 88][7 := pl.ctx][RSI := e.off][0 := pl.handler];
  }

  lemma StubThere(pl: Places, s: State, i: nat)
    requires TableOk(pl, s) && i < |s.blocks| && s.blocks[i].native == None
    ensures HasAt(s.stubs, STUB_SIZE * i, StubBytes(pl, s.blocks[i].off)[..STUB_SIZE])
    ensures STUB_SIZE * i <= |s.stubs|
    ensures HasAt(s.tramps, s.blocks[i].tramp, TrampBytes(pl.stubs + STUB_SIZE * i))
  {
    hide TrampBytes, StubBytes, DistinctOffsets;
    if i + 1 == |s.blocks| {
      HasPrefix(s.stubs, STUB_SIZE * i, StubBytes(pl, s.blocks[i].off), STUB_SIZE);
    }
  }
}
