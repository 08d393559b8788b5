/** Starting a program elsewhere than at its first byte. */
module EntryPoint {
  import opened Words
  import opened Isa
  import opened Objects
  import opened Asm
  import opened Labels
  import opened TwoPass
  import opened Linker
  import opened Sources
  import Loader
  import LinkLaws
  import Toolchain
  import Memory
  import Vm
  import ControlFlow

  /** The thread is started with its bytecode at code + entry, and code offsets are taken from there: a taken
      jump lands on its operand's place in the code section exactly when the entry offset is 0. */
  lemma JumpFromEntryIff(
      c: Vm.Image, codeAt: nat, entry: u32, t: Vm.Thread, m: Memory.Mem, e: Vm.Env, i: Instr, next: nat)
    requires c.base == codeAt + entry && Vm.Fetch(c, t.ip) == Decoded(i, next)
    requires OP_JMP <= i.op <= OP_JGE && Vm.Taken(i.op, t.data.fl)
    ensures Vm.Step(c, t, m, e).Running?
    ensures Vm.Step(c, t, m, e).t.ip == codeAt + i.x <==> entry == 0
  {
    hide Vm.Fetch, Vm.Taken;
  }

  // ----- a program with its entry point behind its first byte --------------------------------------------

  const F: Name := [102]
  const LABEL_F: Label := Label(F, SYM_LOCAL, SEC_CODE, 2)
  const LABEL_MAIN: Label := Label(MAIN_NAME, SYM_LOCAL, SEC_CODE, 4)

  /** add; f: add; main: jmp f */
  function Source(): (lines: seq<Line>)
    ensures |lines| == 5
  {
    [Ins(RegRegSrc(OP_ADD, 0, 1)),
     LabelDef(F), Ins(RegRegSrc(OP_ADD, 0, 1)),
     LabelDef(MAIN_NAME), Ins(JumpSrc(OP_JMP, F))]
  }

  const ENTERED: seq<Instr> := [Instr(OP_ADD, 0, 1, 0, 0), Instr(OP_ADD, 0, 1, 0, 0), Instr(OP_JMP, 0, 0, 2, 0)]

  lemma FindLabels()
    ensures Find([], F) == 0 && Find([LABEL_F], MAIN_NAME) == 1 && Find([LABEL_F, LABEL_MAIN], F) == 0
  {
    assert F[0] != MAIN_NAME[0] && [LABEL_F][1..] == [];
  }

  /** It assembles, to two symbols and no relocation. */
  lemma SourceAssembles() returns (st: State)
    ensures Assemble(Source()) == Ok(st) && st.labels == [LABEL_F, LABEL_MAIN] && st.rels == []
    ensures |st.text| == 9 && st.cnst == [] && st.data == []
  {
    FindLabels();
    var lines, w := Source(), [OP_ADD, RegByte(0, 1)];
    hide RegByte, DoLine, Find, Le;
    var s1 := Init().(text := w);
    var s2 := s1.(labels := [LABEL_F]);
    var s3 := s2.(text := w + w);
    var s4 := s3.(labels := [LABEL_F, LABEL_MAIN]);
    st := s4.(text := w + w + [OP_JMP] + Le(4, 2));
    Adds(Init(), 0, 1);
    Defines(s1, F);
    Adds(s2, 0, 1);
    Defines(s3, MAIN_NAME);
    JumpsBack(s4, F, 0);
    var none: seq<Label> := [];
    assert none + [LABEL_F] == [LABEL_F] && [LABEL_F] + [LABEL_MAIN] == [LABEL_F, LABEL_MAIN];
    assert [] + w == w;
    var t1, t2, t3, t4 := lines[1..], lines[2..], lines[3..], lines[4..];
    assert t1[1..] == t2 && t2[1..] == t3 && t3[1..] == t4 && t4[1..] == [];
    assert t1[0] == lines[1] && t2[0] == lines[2] && t3[0] == lines[3] && t4[0] == lines[4];
    assert DoLines(st, []) == Ok(st);
    assert DoLines(s4, t4) == Ok(st);
    assert DoLines(s3, t3) == Ok(st);
    assert DoLines(s2, t2) == Ok(st);
    assert DoLines(s1, t1) == Ok(st);
    NoPatches(lines, st);
  }

  /** Its instructions. */
  lemma SourceProgram()
    ensures Program(Source(), LayoutEnv(Source())) == ENTERED
  {
    var lines := Source();
    var env := LayoutEnv(lines);
    OffsetOfF();
    hide DefAt;
    assert env(F) == 2;
    var t1, t2, t3, t4 := lines[1..], lines[2..], lines[3..], lines[4..];
    assert t1[1..] == t2 && t2[1..] == t3 && t3[1..] == t4 && t4[1..] == [];
    assert Program([], env) == [];
    assert Program(t4, env) == [ENTERED[2]];
    assert Program(t3, env) == [ENTERED[2]];
    assert Program(t2, env) == [ENTERED[1]] + [ENTERED[2]];
    assert Program(t1, env) == [ENTERED[1], ENTERED[2]];
  }

  lemma OffsetOfF()
    ensures DefAt(START, Source(), F) == Some(Placed(SEC_CODE, 2))
  {
    var lines := Source();
    assert lines[1..][0] == LabelDef(F);
    assert DefAt(Advance(START, lines[0]), lines[1..], F) == Some(Placed(SEC_CODE, 2));
  }

  /** Its symbol table goes through the linker as it is. */
  lemma SymbolsMerge(f: Sym, main: Sym)
    requires f == SymOf(LABEL_F) && main == SymOf(LABEL_MAIN)
    ensures MergeSyms([], ZERO, [f, main]) == Some(Merged([f, main], [0, 1]))
    ensures ResolveSyms([f, main], [f, main], [0, 1]).Some?
  {
    var none: seq<Sym>, noAt: seq<int> := [], [];
    var syms := [f, main];
    assert syms[1..] == [main] && [main][1..] == [] && none + [f] == [f] && [f] + [main] == syms;
    assert [1] + noAt == [1] && [0] + [1] == [0, 1];
    assert MergeSyms(syms, ZERO, []) == Some(Merged(syms, []));
    assert MergeSyms([f], ZERO, [main]) == Some(Merged(syms, [1]));
    assert MergeSyms([], ZERO, syms) == Some(Merged(syms, [0, 1]));
    assert [0, 1][1..] == [1] && [1][1..] == [];
    assert ResolveSyms(syms, syms[1..], [1]).Some?;
  }

  /** Linked alone it keeps its symbols, and main is its entry point. */
  lemma SourceLinks(st: State) returns (l: Prog)
    requires st.labels == [LABEL_F, LABEL_MAIN] && st.rels == []
    ensures Link([ToProg(st)], None) == Some(l) && l.code == st.text && l.entry == 4 && l.rels == []
  {
    hide MergeSyms, ResolveSyms, EntryOf, SymsOf;
    var p, f, main := ToProg(st), SymOf(LABEL_F), SymOf(LABEL_MAIN);
    TwoSymbols(st);
    SymbolsMerge(f, main);
    Entry(f, main);
    var noRel: seq<Rel>, syms := [], [f, main];
    assert noRel + noRel == noRel;
    assert [p][1..] == [] && [[0, 1]][1..] == [] && p.code + [] == p.code;
    assert MergeFrom(syms, After(ZERO, p), []) == Some(MergedAll(syms, []));
    assert MergeFrom([], ZERO, [p]) == Some(MergedAll(syms, [[0, 1]])) by { assert [[0, 1]] + [] == [[0, 1]]; }
    assert RelsFrom(syms, After(ZERO, p), [], []) == Some([]);
    assert MapsFit([p], [[0, 1]]);
    assert RelsFrom(syms, ZERO, [p], [[0, 1]]) == Some([]);
    assert Code([p]) == p.code + Code([]);
    l := Link([p], None).value;
  }

  lemma TwoSymbols(st: State)
    requires st.labels == [LABEL_F, LABEL_MAIN]
    ensures SymsOf(st.labels) == [SymOf(LABEL_F), SymOf(LABEL_MAIN)]
  {
    var none: seq<Sym> := [];
    assert [LABEL_F, LABEL_MAIN][..1] == [LABEL_F] && [LABEL_F][..0] == [];
    assert SymsOf([LABEL_F]) == none + [SymOf(LABEL_F)];
  }

  lemma Entry(f: Sym, main: Sym)
    requires f.name == F && main == SymOf(LABEL_MAIN)
    ensures EntryOf([f, main], Candidates(None)) == Some(4)
  {
    assert F[0] != MAIN_NAME[0] && F[0] != START_NAME[0] && MAIN_NAME[0] != START_NAME[0];
    assert [f, main][1..] == [main] && [main][1..] == [];
    assert FindSym([f, main], MAIN_NAME) == 1 && FindSym([f, main], START_NAME) == 2;
    hide FindSym;
    assert [START_NAME, MAIN_NAME][1..] == [MAIN_NAME];
  }

  // ----- running it -----------------------------------------------------------------------------------------

  lemma EnteredBoundaries()
    ensures Boundary(ENTERED, 0) == 0 && Boundary(ENTERED, 1) == 2
    ensures Boundary(ENTERED, 2) == 4 && Boundary(ENTERED, 3) == 9
    ensures |EncodeAll(ENTERED)| == 9 && ControlFlow.Structured(ENTERED)
    ensures ControlFlow.IsBoundary(ENTERED, 4) && !ControlFlow.IsBoundary(ENTERED, 6)
  {
    hide EncodeAll, Encode, HasAt;
    forall k | 0 <= k < 3
      ensures Boundary(ENTERED, k + 1) == Boundary(ENTERED, k) + Width(ShapeOf(ENTERED[k].op))
    {
      EncodedAt(ENTERED, k);
    }
    assert Boundary(ENTERED, 0) == 0;
    BoundaryEnd(ENTERED);
    EnteredStructured();
  }

  lemma EnteredStructured()
    requires Boundary(ENTERED, 1) == 2
    ensures ControlFlow.Structured(ENTERED)
  {
    hide Boundary;
    assert ControlFlow.IsBoundary(ENTERED, 2);
  }

  /** Where that goes wrong: this source assembles, links with main at offset 4 as entry point and loads anywhere; its
      program is structured, and started there its first step goes inside an instruction. */
  lemma EntryLeavesBoundaries(a: Loader.Addresses, c: Vm.Image, t: Vm.Thread, m: Memory.Mem, e: Vm.Env)
      returns (out: Loader.Loaded)
    ensures Toolchain.Loads(Source(), None, a, out) && out.entry == 4 && out.code == EncodeAll(ENTERED)
    ensures Program(Source(), LayoutEnv(Source())) == ENTERED
    ensures ControlFlow.Structured(ENTERED) && ControlFlow.IsBoundary(ENTERED, 4)
    ensures Toolchain.StartsAt(c, a, out) && t.ip == c.base ==>
              && Vm.Step(c, t, m, e).Running?
              && !ControlFlow.IsBoundary(ENTERED, Vm.Step(c, t, m, e).t.ip - a.code)
  {
    EnteredBoundaries();
    hide EncodeAll, Boundary, Decode, Encode, ControlFlow.IsBoundary, ControlFlow.Structured, Width, Assemble, Link,
         LayoutEnv, Program, Source, ToProg;
    var st := SourceAssembles();
    SourceProgram();
    AssembleRefines(Source());
    var l := SourceLinks(st);
    NothingToRelocate(l, a);
    out := Loader.Load(l, a).value;
    if Toolchain.StartsAt(c, a, out) && t.ip == c.base {
      EnteredTail();
      DecodeEncode(c.code, 0, ENTERED[2]);
      JumpTaken(c, t, m, e);
    }
  }

  lemma NothingToRelocate(l: Prog, a: Loader.Addresses)
    requires l.rels == [] && |l.code| > 0
    ensures Loader.Load(l, a) == Some(Loader.Loaded(l.cnst, l.data, l.code, l.entry))
  {
  }

  lemma EnteredTail()
    ensures |EncodeAll(ENTERED)| == 9 && HasAt(EncodeAll(ENTERED)[4..], 0, Encode(ENTERED[2]))
  {
    EnteredBoundaries();
    EncodedAt(ENTERED, 2);
    hide EncodeAll, Boundary, Encode;
    assert EncodeAll(ENTERED)[4..][0..5] == EncodeAll(ENTERED)[4..9];
  }

  lemma JumpTaken(c: Vm.Image, t: Vm.Thread, m: Memory.Mem, e: Vm.Env)
    requires t.ip == c.base && Decode(c.code, 0) == Decoded(Instr(OP_JMP, 0, 0, 2, 0), Width(ShapeOf(OP_JMP)))
    ensures Vm.Step(c, t, m, e) == Vm.Running(t.(ip := c.base + 2), m)
  {
    hide Decode;
  }
}
