/** Code operands of an assembled program: they resolve, land on instruction boundaries, and so make every
    run of an extern-free, CALLR-free program keep to its instructions. */
module CodeLabels {
  import opened Words
  import opened Isa
  import opened Objects
  import opened Asm
  import opened Labels
  import opened TwoPass
  import Vm
  import ControlFlow

  function CodeNames(src: Src): set<Name> {
    match src
    case JumpSrc(_, n) => {n}
    case CallSrc(ok, err) => {ok, err}
    case CallrSrc(_, err) => {err}
    case _ => {}
  }

  /** What a code reference may end up as. */
  predicate CodeTarget(s: Status) {
    s == External || (s.Placed? && s.sec == SEC_CODE)
  }

  lemma RefCodeResolved(st: State, n: Name, final: seq<Label>)
    requires RefCode(st, n).Ok? && TableOk(final) && Extends(st.labels, final)
    requires AllResolvable(RefCode(st, n).v.patches, final)
    ensures CodeTarget(StatusOf(Get(final, n)))
  {
    hide Le;
    if Ready(st.labels, Find(st.labels, n)) {
      GetExtended(st.labels, final, n);
    } else {
      var p := Patch(n, |st.text|, false);
      assert p in RefCode(st, n).v.patches;
      assert Resolvable(p, final) && final[Find(final, n)] in final;
    }
  }

  lemma EmitResolved(st: State, src: Src, final: seq<Label>, n: Name)
    requires Good(st) && Emit(st, src).Ok? && n in CodeNames(src)
    requires TableOk(final) && Extends(Emit(st, src).v.labels, final)
    requires AllResolvable(Emit(st, src).v.patches, final)
    ensures CodeTarget(StatusOf(Get(final, n)))
  {
    hide RefCode, Head, StatusOf;
    var s1 := Put(st, Head(src)).v;
    match src
    case JumpSrc(_, m) => RefCodeKeeps(s1, m); RefCodeResolved(s1, m, final);
    case CallSrc(ok, err) =>
      RefCodeKeeps(s1, ok);
      var s2 := RefCode(s1, ok).v;
      RefCodeKeeps(s2, err);
      RefCodeGrows(s2, err, final);
      RefCodeResolved(s1, ok, final);
      RefCodeResolved(s2, err, final);
    case CallrSrc(_, m) => RefCodeKeeps(s1, m); RefCodeResolved(s1, m, final);
    case _ =>
  }

  /** On success every code label is extern or defined in the code section. */
  lemma {:induction false} RunResolved(st: State, lines: seq<Line>, k: nat, n: Name)
    requires Good(st) && DoLines(st, lines).Ok? && k < |lines| && lines[k].Ins? && n in CodeNames(lines[k].src)
    requires AllResolvable(DoLines(st, lines).v.patches, DoLines(st, lines).v.labels)
    ensures CodeTarget(StatusOf(Get(DoLines(st, lines).v.labels, n)))
    decreases |lines|
  {
    hide StatusOf, Good, TableOk, CodeTarget, Emit, DoLine, Get, Extends, Resolvable, CodeNames;
    var s1, final := DoLine(st, lines[0]).v, DoLines(st, lines).v.labels;
    LineKeeps(st, lines[0], n);
    RunKeeps(s1, lines[1..], n);
    GoodTable(DoLines(st, lines).v);
    if k == 0 {
      forall p | p in s1.patches ensures Resolvable(p, final) { PatchesGrow(s1, lines[1..], p); }
      InsEmits(st, lines[0]);
      EmitResolved(st, lines[0].src, final, n);
    } else {
      RunResolved(s1, lines[1..], k - 1, n);
    }
  }

  lemma GoodTable(st: State)
    requires Good(st)
    ensures TableOk(st.labels)
  {
  }

  lemma InsEmits(st: State, line: Line)
    requires line.Ins? && DoLine(st, line).Ok?
    ensures DoLine(st, line) == Emit(st, line.src)
  {
  }

  // ----- sections -----------------------------------------------------------------------------

  /** Instructions only in .text, data only outside it. */
  predicate Placement(p: Pos, lines: seq<Line>)
    decreases |lines|
  {
    lines == [] ||
    (&& (lines[0].Ins? ==> p.sec == SEC_CODE)
     && (lines[0].Number? || lines[0].Text? ==> p.sec == SEC_DATA || p.sec == SEC_CNST)
     && Placement(Advance(p, lines[0]), lines[1..]))
  }

  lemma {:induction false} RunPlacement(st: State, lines: seq<Line>)
    requires Good(st) && DoLines(st, lines).Ok?
    ensures Placement(PosOf(st), lines)
    decreases |lines|
  {
    if lines != [] {
      hide Emit, Define, Good;
      LineKeeps(st, lines[0], []);
      RunPlacement(DoLine(st, lines[0]).v, lines[1..]);
    }
  }

  lemma LowerWidth(src: Src, env: Env)
    ensures Width(ShapeOf(Lower(src, env).op)) == Size(src)
  {
  }

  /** A label defined in the code section sits on an instruction boundary. */
  lemma {:induction false} DefinitionOnBoundary(p: Pos, lines: seq<Line>, name: Name, env: Env) returns (k: nat)
    requires Placement(p, lines) && DefAt(p, lines, name).Some?
    requires DefAt(p, lines, name).value.sec == SEC_CODE
    ensures k <= |Program(lines, env)|
    ensures DefAt(p, lines, name).value.off == p.text + Boundary(Program(lines, env), k)
    decreases |lines|
  {
    if lines[0] == LabelDef(name) {
      k := 0;
    } else {
      k := DefinitionOnBoundary(Advance(p, lines[0]), lines[1..], name, env);
      assert lines[0].Ins? || Program(lines, env) == Program(lines[1..], env);
      if lines[0].Ins? {
        LowerWidth(lines[0].src, env);
        var rest := Program(lines[1..], env);
        assert Program(lines, env)[1..] == rest;
        k := k + 1;
      }
    }
  }

  // ----- control-flow integrity of assembled programs --------------------------------------------

  /** Every code label is defined by a label line, and there is no indirect call. */
  ghost predicate SelfContained(lines: seq<Line>) {
    forall k :: 0 <= k < |lines| && lines[k].Ins? ==>
      && !lines[k].src.CallrSrc?
      && forall n :: n in CodeNames(lines[k].src) ==> DefAt(START, lines, n).Some?
  }

  lemma OperandIsBoundary(lines: seq<Line>, k: nat, n: Name)
    requires Assemble(lines).Ok? && k < |lines| && lines[k].Ins? && n in CodeNames(lines[k].src)
    requires DefAt(START, lines, n).Some?
    ensures ControlFlow.IsBoundary(Program(lines, LayoutEnv(lines)), LayoutEnv(lines)(n))
  {
    var env := LayoutEnv(lines);
    RunResolved(Init(), lines, k, n);
    RunKeeps(Init(), lines, n);
    StatusIsFirstDefinition(Absent, START, lines, n);
    RunPlacement(Init(), lines);
    var b := DefinitionOnBoundary(START, lines, n, env);
    assert Boundary(Program(lines, env), b) == env(n);
  }

  /** Index of the source line behind an instruction. */
  lemma {:induction false} SourceOf(lines: seq<Line>, env: Env, j: nat) returns (k: nat)
    requires j < |Program(lines, env)|
    ensures k < |lines| && lines[k].Ins? && Program(lines, env)[j] == Lower(lines[k].src, env)
  {
    if lines[0].Ins? && j == 0 {
      k := 0;
    } else {
      k := SourceOf(lines[1..], env, if lines[0].Ins? then j - 1 else j);
      k := k + 1;
    }
  }

  lemma LowerOperands(src: Src, env: Env)
    ensures var i := Lower(src, env);
            && (i.op == OP_CALLR ==> src.CallrSrc?)
            && (ShapeOf(i.op) in {Code32, Code32x2} ==> exists n :: n in CodeNames(src) && i.x == env(n))
            && (i.op == OP_CALL ==> exists n :: n in CodeNames(src) && i.y == env(n))
  {
    match src
    case JumpSrc(_, n) => assert n in CodeNames(src);
    case CallSrc(ok, err) => assert ok in CodeNames(src) && err in CodeNames(src);
    case _ =>
  }

  lemma AssembledIsStructured(lines: seq<Line>)
    requires Assemble(lines).Ok? && SelfContained(lines)
    ensures ControlFlow.Structured(Program(lines, LayoutEnv(lines)))
  {
    hide Assemble, Lower, LayoutEnv, ControlFlow.IsBoundary, WellFormed;
    var env := LayoutEnv(lines);
    var prog := Program(lines, env);
    AssembleRefines(lines);
    forall j | 0 <= j < |prog|
      ensures prog[j].op != OP_CALLR
      ensures ShapeOf(prog[j].op) in {Code32, Code32x2} ==> ControlFlow.IsBoundary(prog, prog[j].x)
      ensures prog[j].op == OP_CALL ==> ControlFlow.IsBoundary(prog, prog[j].y)
    {
      var k := SourceOf(lines, env, j);
      LowerOperands(lines[k].src, env);
      forall n | n in CodeNames(lines[k].src) ensures ControlFlow.IsBoundary(prog, env(n)) {
        OperandIsBoundary(lines, k, n);
      }
    }
  }

  /** Control-flow integrity of the assembler's output: run from its first byte, in every reachable state
      ip and all return addresses are instruction boundaries or the end of the text; dispatch never meets
      an undefined opcode and leaves the text only at its end. */
  lemma AssembledControlFlow(
      lines: seq<Line>, c: Vm.Image, ts: seq<Vm.Thread>, evs: seq<ControlFlow.Event>, k: nat, ev: ControlFlow.Event)
    requires Assemble(lines).Ok? && SelfContained(lines) && c.code == Assemble(lines).v.text
    requires ControlFlow.IsTrace(c, ts, evs) && k < |ts|
    requires ts[0].ip == c.base && ts[0].shadow == []
    ensures ControlFlow.OnBoundaries(c, Program(lines, LayoutEnv(lines)), ts[k])
    ensures Vm.Step(c, ts[k], ev.mem, ev.env) != Vm.Faulted(Vm.UndefinedOpcode)
    ensures Vm.Step(c, ts[k], ev.mem, ev.env) == Vm.Faulted(Vm.PastCode) <==> ts[k].ip == c.base + |c.code|
  {
    hide Assemble, LayoutEnv, ControlFlow.StepThread, ControlFlow.Structured;
    AssembleRefines(lines);
    AssembledIsStructured(lines);
    ControlFlow.RunStaysOnBoundaries(c, Program(lines, LayoutEnv(lines)), ts, evs, k);
    assert ControlFlow.IsTrace(c, ts[..k + 1], evs[..k]);
    ControlFlow.NoUndefinedDispatch(c, Program(lines, LayoutEnv(lines)), ts[..k + 1], evs[..k], ev);
  }
}
