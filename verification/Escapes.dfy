/** Two programs that are structured as the assembler's output is and leave their instruction boundaries by a store
    over the record of their own thread. */
module Escapes {
  import opened Words
  import opened Isa
  import opened Memory
  import opened Vm
  import opened ControlFlow
  import opened Separation

  // ----- a program in memory --------------------------------------------------------------------------

  /** The program's bytes are in place and the record is mapped. */
  ghost predicate Loaded(y: Layout, p: seq<Instr>, m: Mem) {
    ValidLayout(y) && AllWellFormed(p) && CodeIn(y, m) == EncodeAll(p) && Mapped(m, y.rf, 8 * WORDS)
  }

  /** About to dispatch instruction k, with n words on the shadow stack. */
  ghost predicate StateAt(y: Layout, p: seq<Instr>, m: Mem, k: nat, n: nat) {
    && Loaded(y, p, m) && k <= |p| && n <= SHADOW_DEPTH
    && Word(y, m, IP) == y.base + Boundary(p, k) && Word(y, m, STOP) == At(y, SHADOW + n)
  }

  lemma Put(y: Layout, p: seq<Instr>, m: Mem, w: nat, v: u64) returns (m': Mem)
    requires Loaded(y, p, m) && w < WORDS
    ensures SetWord(y, m, w, v) == Some(m') && Loaded(y, p, m')
    ensures forall j {:trigger Word(y, m', j)} :: 0 <= j < WORDS ==>
              Word(y, m', j) == if j == w then v else Word(y, m, j)
  {
    hide Store, Load, CodeIn, EncodeAll, Word;
    StoreDefined(m, At(y, w), 8, v);
    m' := SetWord(y, m, w, v).value;
    PutWord(y, m, w, v);
  }

  lemma FetchAt(y: Layout, p: seq<Instr>, m: Mem, k: nat, n: nat) returns (m': Mem)
    requires StateAt(y, p, m, k, n) && k < |p|
    ensures WellFormed(p[k]) && Boundary(p, k + 1) <= y.len
    ensures FetchRaw(y, m) == Some(Fetching(p[k], Boundary(p, k + 1), m')) && StateAt(y, p, m', k + 1, n)
    ensures forall j {:trigger Word(y, m', j)} :: 0 <= j < WORDS && j != IP ==> Word(y, m', j) == Word(y, m, j)
  {
    hide CodeIn, EncodeAll, Encode, Decode, Boundary, Width, Word, SetWord, Fits;
    EncodedAt(p, k);
    DecodeEncode(CodeIn(y, m), Boundary(p, k), p[k]);
    m' := Put(y, p, m, IP, y.base + Boundary(p, k + 1));
  }

  /** An instruction that is not a control instruction, run to its end. */
  lemma DataStep(y: Layout, m: Mem, d: Data, e: Env, f: Fetching, d': Data, m': Mem)
    requires ValidLayout(y) && FetchRaw(y, m) == Some(f) && WellFormed(f.i) && !IsControl(f.i.op)
    requires ExecData(f.i, d, f.m, e) == DataOk(d', m')
    ensures RawStep(y, m, d, e) == Some((d', m'))
  {
    hide FetchRaw, ExecData;
  }

  lemma MoveStep(y: Layout, p: seq<Instr>, m: Mem, d: Data, e: Env, k: nat, n: nat, r: Reg, v: u64) returns (m': Mem)
    requires StateAt(y, p, m, k, n) && k < |p| && p[k] == Instr(OP_MOV_RI, r, 0, v, 0)
    ensures RawStep(y, m, d, e) == Some((d.(gpr := d.gpr[r := v]), m')) && StateAt(y, p, m', k + 1, n)
  {
    hide StateAt, RawStep, FetchRaw, ExecData, Boundary;
    Placed(y, p, m, k, n);
    m' := FetchAt(y, p, m, k, n);
    MoveEffect(d, m', e, r, v);
    DataStep(y, m, d, e, Fetching(p[k], Boundary(p, k + 1), m'), d.(gpr := d.gpr[r := v]), m');
  }

  lemma Placed(y: Layout, p: seq<Instr>, m: Mem, k: nat, n: nat)
    requires StateAt(y, p, m, k, n)
    ensures Loaded(y, p, m) && ValidLayout(y) && Word(y, m, STOP) == At(y, SHADOW + n) && n <= SHADOW_DEPTH
  {
  }

  lemma MoveEffect(d: Data, m: Mem, e: Env, r: Reg, v: u64)
    ensures ExecData(Instr(OP_MOV_RI, r, 0, v, 0), d, m, e) == DataOk(d.(gpr := d.gpr[r := v]), m)
  {
  }

  /** ax stored over word w of the record. */
  lemma StoreStep(y: Layout, p: seq<Instr>, m: Mem, d: Data, e: Env, k: nat, n: nat, w: nat) returns (m': Mem)
    requires StateAt(y, p, m, k, n) && k < |p| && p[k] == Instr(OP_MOV_MR, REG_DI, REG_AX, 0, 0)
    requires w < WORDS && d.gpr[REG_DI] == At(y, w)
    ensures RawStep(y, m, d, e) == Some((d, m')) && Loaded(y, p, m') && Word(y, m', w) == d.gpr[REG_AX]
    ensures w != STOP && w != IP ==> StateAt(y, p, m', k + 1, n)
  {
    hide RawStep, FetchRaw, ExecData, Boundary, CodeIn, EncodeAll, Word, SetWord;
    var m1 := FetchAt(y, p, m, k, n);
    m' := Put(y, p, m1, w, d.gpr[REG_AX]);
    StoresAx(y, d, m1, e, w, m');
    DataStep(y, m, d, e, Fetching(p[k], Boundary(p, k + 1), m1), d, m');
  }

  lemma StoresAx(y: Layout, d: Data, m: Mem, e: Env, w: nat, m': Mem)
    requires d.gpr[REG_DI] == At(y, w) && SetWord(y, m, w, d.gpr[REG_AX]) == Some(m')
    ensures ExecData(Instr(OP_MOV_MR, REG_DI, REG_AX, 0, 0), d, m, e) == DataOk(d, m')
  {
    PlainAddress(d.gpr[REG_DI]);
    hide Store, Load, Address;
  }

  /** A call to the instruction after it. */
  lemma CallStep(y: Layout, p: seq<Instr>, m: Mem, d: Data, e: Env) returns (m': Mem)
    requires StateAt(y, p, m, 0, 0) && |p| > 0 && p[0] == Instr(OP_CALL, 0, 0, Boundary(p, 1), Boundary(p, 1))
    ensures RawStep(y, m, d, e) == Some((d, m')) && StateAt(y, p, m', 1, 2)
  {
    hide FetchRaw, CodeIn, EncodeAll, Word, Boundary, Store;
    var m1 := FetchAt(y, p, m, 0, 0);
    var a := y.base + Boundary(p, 1);
    var m2 := Pushed(y, p, m1, a, 0);
    var m3 := Pushed(y, p, m2, a, 1);
    m' := Put(y, p, m3, IP, a);
  }

  lemma Pushed(y: Layout, p: seq<Instr>, m: Mem, v: u64, n: nat) returns (m': Mem)
    requires Loaded(y, p, m) && n < SHADOW_DEPTH && Word(y, m, STOP) == At(y, SHADOW + n)
    ensures Spush(y, m, v) == Some(m') && Loaded(y, p, m')
    ensures Word(y, m', STOP) == At(y, SHADOW + n + 1) && Word(y, m', IP) == Word(y, m, IP)
  {
    hide CodeIn, EncodeAll, Word, Store;
    var m1 := Put(y, p, m, SHADOW + n, v);
    m' := Put(y, p, m1, STOP, At(y, SHADOW + n + 1));
  }

  lemma Popped(y: Layout, p: seq<Instr>, m: Mem, n: nat) returns (m': Mem)
    requires Loaded(y, p, m) && 0 < n <= SHADOW_DEPTH && Word(y, m, STOP) == At(y, SHADOW + n)
    ensures Spop(y, m) == Some((Saved(y, m, n - 1), m')) && Loaded(y, p, m')
    ensures Word(y, m', STOP) == At(y, SHADOW + n - 1)
  {
    hide CodeIn, EncodeAll, Store, Load;
    m' := Put(y, p, m, STOP, At(y, SHADOW + n - 1));
    LoadDefined(m', At(y, SHADOW + n - 1), 8);
    assert Word(y, m', SHADOW + n - 1) == Saved(y, m, n - 1);
  }

  /** A return continues at the upper of two words. */
  lemma ReturnStep(y: Layout, p: seq<Instr>, m: Mem, d: Data, e: Env, k: nat) returns (m': Mem)
    requires StateAt(y, p, m, k, 2) && k < |p| && p[k] == Instr(OP_RET, 0, 0, 0, 0)
    ensures RawStep(y, m, d, e) == Some((d, m')) && Loaded(y, p, m') && Word(y, m', IP) == Saved(y, m, 1)
  {
    hide FetchRaw, CodeIn, EncodeAll, Word, Boundary, SetWord, Spop;
    var m1 := FetchAt(y, p, m, k, 2);
    var m2 := Popped(y, p, m1, 2);
    var m3 := Popped(y, p, m2, 1);
    m' := Put(y, p, m3, IP, Saved(y, m1, 1));
  }

  /** A run of the program alone: memory and registers before each step are what the step before it left. */
  ghost predicate RunsAlone(y: Layout, p: seq<Instr>, ms: seq<Mem>, ds: seq<Data>, es: seq<Env>) {
    && IsRawTrace(y, ms, ds, es) && Structured(p) && Starts(y, p, ms)
    && forall k {:trigger es[k]} :: 0 <= k < |es| ==> RawStep(y, ms[k], ds[k], es[k]) == Some((ds[k + 1], ms[k + 1]))
  }

  // ----- over the return address ------------------------------------------------------------------------

  /** Call f; f stores an address inside the call instruction over its own return address, and returns. */
  function OverReturn(y: Layout): (p: seq<Instr>)
    requires ValidLayout(y)
    ensures |p| == 5
  {
    [Instr(OP_CALL, 0, 0, 9, 9),
     Instr(OP_MOV_RI, REG_DI, 0, At(y, SHADOW + 1), 0),
     Instr(OP_MOV_RI, REG_AX, 0, y.base + 1, 0),
     Instr(OP_MOV_MR, REG_DI, REG_AX, 0, 0),
     Instr(OP_RET, 0, 0, 0, 0)]
  }

  lemma OverReturnBoundaries(y: Layout)
    requires ValidLayout(y)
    ensures var p := OverReturn(y);
            && Boundary(p, 0) == 0 && Boundary(p, 1) == 9 && Boundary(p, 2) == 19 && Boundary(p, 3) == 29
            && Boundary(p, 4) == 31 && Boundary(p, 5) == 32
    ensures !IsBoundary(OverReturn(y), 1) && Structured(OverReturn(y))
  {
    hide EncodeAll, Encode, HasAt, IsBoundary, Structured;
    var p := OverReturn(y);
    forall k | 0 <= k < 5 ensures Boundary(p, k + 1) == Boundary(p, k) + Width(ShapeOf(p[k].op)) { EncodedAt(p, k); }
    assert Boundary(p, 0) == 0;
    hide Boundary;
    OverReturnStructured(y);
  }

  lemma OverReturnStructured(y: Layout)
    requires ValidLayout(y)
    requires var p := OverReturn(y);
             && Boundary(p, 0) == 0 && Boundary(p, 1) == 9 && Boundary(p, 2) == 19 && Boundary(p, 3) == 29
             && Boundary(p, 4) == 31 && Boundary(p, 5) == 32
    ensures !IsBoundary(OverReturn(y), 1) && Structured(OverReturn(y))
  {
    var p := OverReturn(y);
    hide Boundary;
    assert IsBoundary(p, 9);
  }

  /** Such a run: alone and from its first byte, the program returns into the middle of an instruction. */
  lemma StoreIntoShadowEscapes(y: Layout, d: Data, m: Mem, e: Env)
      returns (ms: seq<Mem>, ds: seq<Data>, es: seq<Env>)
    requires ValidLayout(y) && StateAt(y, OverReturn(y), m, 0, 0)
    ensures RunsAlone(y, OverReturn(y), ms, ds, es) && |es| == 5 && ms[0] == m && ds[0] == d
    ensures !IsBoundary(OverReturn(y), Word(y, ms[5], IP) - y.base)
  {
    hide Boundary, RawStep, CodeIn, EncodeAll, Word, Structured;
    OverReturnBoundaries(y);
    var p := OverReturn(y);
    var m1 := CallStep(y, p, m, d, e);
    var m2 := MoveStep(y, p, m1, d, e, 1, 2, REG_DI, At(y, SHADOW + 1));
    var d2 := d.(gpr := d.gpr[REG_DI := At(y, SHADOW + 1)]);
    var m3 := MoveStep(y, p, m2, d2, e, 2, 2, REG_AX, y.base + 1);
    var d3 := d2.(gpr := d2.gpr[REG_AX := y.base + 1]);
    var m4 := StoreStep(y, p, m3, d3, e, 3, 2, SHADOW + 1);
    var m5 := ReturnStep(y, p, m4, d3, e, 4);
    ms, ds, es := [m, m1, m2, m3, m4, m5], [d, d, d2, d3, d3, d3], [e, e, e, e, e];
  }

  // ----- over the instruction pointer -----------------------------------------------------------------------

  /** An address inside the first instruction stored over the register file's ip. */
  function OverIp(y: Layout): (p: seq<Instr>)
    requires ValidLayout(y)
    ensures |p| == 3
  {
    [Instr(OP_MOV_RI, REG_DI, 0, At(y, IP), 0),
     Instr(OP_MOV_RI, REG_AX, 0, y.base + 1, 0),
     Instr(OP_MOV_MR, REG_DI, REG_AX, 0, 0)]
  }

  lemma OverIpBoundaries(y: Layout)
    requires ValidLayout(y)
    ensures var p := OverIp(y);
            Boundary(p, 0) == 0 && Boundary(p, 1) == 10 && Boundary(p, 2) == 20 && Boundary(p, 3) == 22
    ensures !IsBoundary(OverIp(y), 1) && Structured(OverIp(y))
  {
    hide EncodeAll, Encode, HasAt;
    var p := OverIp(y);
    forall k | 0 <= k < 3 ensures Boundary(p, k + 1) == Boundary(p, k) + Width(ShapeOf(p[k].op)) { EncodedAt(p, k); }
    assert Boundary(p, 0) == 0;
    hide Boundary;
  }

  /** Such a run: the shadow stack is not touched at all, and the next dispatch is inside an instruction. */
  lemma StoreIntoIpEscapes(y: Layout, d: Data, m: Mem, e: Env)
      returns (ms: seq<Mem>, ds: seq<Data>, es: seq<Env>)
    requires ValidLayout(y) && StateAt(y, OverIp(y), m, 0, 0)
    ensures RunsAlone(y, OverIp(y), ms, ds, es) && |es| == 3 && ms[0] == m && ds[0] == d
    ensures !IsBoundary(OverIp(y), Word(y, ms[3], IP) - y.base)
  {
    hide Boundary, RawStep, CodeIn, EncodeAll, Word, Structured;
    OverIpBoundaries(y);
    var p := OverIp(y);
    var m1 := MoveStep(y, p, m, d, e, 0, 0, REG_DI, At(y, IP));
    var d1 := d.(gpr := d.gpr[REG_DI := At(y, IP)]);
    var m2 := MoveStep(y, p, m1, d1, e, 1, 0, REG_AX, y.base + 1);
    var d2 := d1.(gpr := d1.gpr[REG_AX := y.base + 1]);
    var m3 := StoreStep(y, p, m2, d2, e, 2, 0, IP);
    ms, ds, es := [m, m1, m2, m3], [d, d1, d2, d2], [e, e, e];
  }
}
