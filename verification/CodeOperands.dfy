/** Code operands that the assembler leaves without a relocation: when they are right in the linked output. */
module CodeOperands {
  import opened Words
  import opened Isa
  import opened Objects
  import opened Asm
  import opened Labels
  import opened TwoPass
  import opened CodeLabels
  import opened Linker
  import opened Loader
  import opened Sources
  import Relocs
  import LinkLaws
  import LinkNames
  import LinkLoad
  import SymIndices
  import Toolchain

  /** Operand s of line k, without relocation, in an object linked as number i of objs and loaded as `code`. */
  ghost predicate Unrelocated(
      lines: seq<Line>, k: nat, s: Relocs.Site, objs: seq<Prog>, i: nat, entry: Option<Name>,
      a: Addresses, code: seq<byte>)
  {
    && Assemble(lines).Ok? && k < |lines| && lines[k].Ins?
    && s in Relocs.SitesOf(lines[k].src, Relocs.TextAt(lines, k)) && !Relocs.Relocated(lines, k, s)
    && i < |objs| && objs[i] == ToProg(Assemble(lines).v) && LinkLoad.Compact(objs)
    && Link(objs, entry).Some?
    && Loader.Load(Link(objs, entry).value, a).Some? && code == Loader.Load(Link(objs, entry).value, a).value.code
  }

  /** The field as loaded: the label's offset in its own object, 0 if no line defines the label. */
  lemma OperandValue(
      lines: seq<Line>, k: nat, s: Relocs.Site, objs: seq<Prog>, i: nat, entry: Option<Name>,
      a: Addresses, code: seq<byte>)
    requires Unrelocated(lines, k, s, objs, i, entry, a, code)
    ensures LinkLoad.BasesOf(ZERO, objs, i).code + s.at + 4 <= |code|
    ensures Field(code, LinkLoad.BasesOf(ZERO, objs, i).code + s.at, 4) == LabelOffset(lines, s.name)
  {
    hide LinkLoad.BasesOf, Assemble, Link, Loader.Load, LinkLoad.Compact, LinkLoad.Clear, LabelOffset,
         Relocs.Relocated, Relocs.TextAt, Relocs.SitesOf, ToProg, Le, HasAt;
    var base, text := LinkLoad.BasesOf(ZERO, objs, i).code, Assemble(lines).v.text;
    CodeSite(lines, k, s);
    Toolchain.CodeOperandText(lines, k, s);
    TextField(text, s.at, LabelOffset(lines, s.name));
    CodeIsText(Assemble(lines).v);
    var at, to := s.at, base + s.at;
    OperandClear(lines, k, s, at + 3);
    LinkLoad.LinkLoadElsewhere(objs, entry, a, i, at + 3);
    forall x {:trigger text[x]} | at <= x < at + 4 ensures text[x] == code[x - at + to] {
      OperandClear(lines, k, s, x);
      LinkLoad.LinkLoadElsewhere(objs, entry, a, i, x);
    }
    Toolchain.SameSlice(text, at, code, to, 4);
  }

  lemma TextField(text: seq<byte>, at: nat, v: nat)
    requires v < TWO32 && HasAt(text, at, Le(4, v))
    ensures at + 4 <= |text| && Field(text, at, 4) == v
  {
    PowValues();
    FieldOfLe(text, at, 4, v);
  }

  lemma CodeIsText(st: Asm.State)
    ensures ToProg(st).code == st.text && ToProg(st).rels == st.rels
  {
  }

  lemma OperandClear(lines: seq<Line>, k: nat, s: Relocs.Site, x: nat)
    requires Assemble(lines).Ok? && k < |lines| && lines[k].Ins?
    requires s in Relocs.SitesOf(lines[k].src, Relocs.TextAt(lines, k)) && !Relocs.Relocated(lines, k, s)
    requires s.at <= x < s.at + 4
    ensures LinkLoad.Clear(Assemble(lines).v.rels, x)
  {
    var at := Relocs.TextAt(lines, k);
    Relocs.SitesInInstruction(lines[k].src, at);
    forall t | t in Relocs.SitesOf(lines[k].src, at) && Relocs.Relocated(lines, k, t)
      ensures !(t.at <= x < t.at + RelWidth(t.kind))
    {
      assert t != s;
    }
    hide Assemble, Relocs.Relocated, Relocs.TextAt, Relocs.SitesOf, LinkLoad.Clear;
    Toolchain.ClearByte(lines, k, x);
  }

  lemma CodeSite(lines: seq<Line>, k: nat, s: Relocs.Site)
    requires k < |lines| && lines[k].Ins?
    requires s in Relocs.SitesOf(lines[k].src, Relocs.TextAt(lines, k)) && !Relocs.Relocated(lines, k, s)
    ensures s.kind == REL_CODE
  {
    hide Relocs.TextAt;
  }

  /** A code operand that got no relocation and whose label the source defines is that label's offset in the
      output exactly when the object's code comes first. */
  lemma CodeOperandIff(
      lines: seq<Line>, k: nat, s: Relocs.Site, objs: seq<Prog>, i: nat, entry: Option<Name>,
      a: Addresses, code: seq<byte>)
    requires Unrelocated(lines, k, s, objs, i, entry, a, code) && DefAt(START, lines, s.name).Some?
    ensures var base, off := LinkLoad.BasesOf(ZERO, objs, i).code, DefAt(START, lines, s.name).value.off;
            && base + s.at + 4 <= |code|
            && (Field(code, base + s.at, 4) == base + off <==> base == 0)
  {
    hide Unrelocated, LinkLoad.BasesOf, DefAt;
    OperandValue(lines, k, s, objs, i, entry, a, code);
  }

  // ----- labels declared extern after the reference -------------------------------------------------------------

  /** A label that some code operand names and no line defines is an import of the object. */
  lemma ImportOf(lines: seq<Line>, k: nat, s: Relocs.Site) returns (x: nat)
    requires Assemble(lines).Ok? && k < |lines| && lines[k].Ins? && s.kind == REL_CODE
    requires s in Relocs.SitesOf(lines[k].src, Relocs.TextAt(lines, k)) && DefAt(START, lines, s.name) == None
    ensures var syms := ToProg(Assemble(lines).v).syms;
            x < |syms| && syms[x].flags == SYM_EXTERN && syms[x].name == s.name
  {
    hide SymsOf, Relocs.TextAt, Relocs.SitesOf, Find, DefAt, StatusAfter, DoLines, Assemble, AllResolvable, Good;
    SymIndices.AssembledParts(lines);
    SymIndices.SiteName(lines[k].src, Relocs.TextAt(lines, k), s);
    RunResolved(Init(), lines, k, s.name);
    RunKeeps(Init(), lines, s.name);
    StatusIsFirstDefinition(Absent, START, lines, s.name);
    var ls := Assemble(lines).v.labels;
    var i := ExternEntry(ls, s.name);
    x := SymIndices.SymbolOf(ls, i);
  }

  lemma ExternEntry(ls: seq<Label>, n: Name) returns (i: nat)
    requires StatusOf(Get(ls, n)) == External
    ensures i < |ls| && ls[i].flags == SYM_EXTERN && ls[i].name == n && !Skipped(ls[i])
  {
    i := Find(ls, n);
  }

  /** A code operand whose label is declared extern only after the reference holds 0, whatever the import is
      bound to; so it is its target's code offset exactly when the definition bound ends up at offset 0 of the code. */
  lemma LateExternIff(
      lines: seq<Line>, k: nat, s: Relocs.Site, objs: seq<Prog>, i: nat, entry: Option<Name>,
      a: Addresses, code: seq<byte>)
    requires Unrelocated(lines, k, s, objs, i, entry, a, code) && DefAt(START, lines, s.name) == None
    ensures var base := LinkLoad.BasesOf(ZERO, objs, i).code;
            var target := LinkNames.Bound(LinkNames.Defs(ZERO, objs), s.name);
            && target.Some? && base + s.at + 4 <= |code| && Field(code, base + s.at, 4) == 0
            && (target.value.section == SEC_CODE && Field(code, base + s.at, 4) == target.value.offset
                <==> target.value.section == SEC_CODE && target.value.offset == 0)
  {
    OperandValue(lines, k, s, objs, i, entry, a, code);
    hide LinkLoad.BasesOf, Assemble, Link, Loader.Load, LinkLoad.Compact, DefAt, Relocs.Relocated, Relocs.TextAt,
         Relocs.SitesOf, ToProg, LinkNames.Bound, LinkNames.Defs, LinkNames.Resolved, LinkNames.Exports;
    CodeSite(lines, k, s);
    var x := ImportOf(lines, k, s);
    assert LinkNames.ImportsAt(objs, i, x, s.name);
    LinkNames.ExternBinding(objs, entry, i, x, s.name);
  }

  // ----- such an operand going wrong ------------------------------------------------------------------------------

  const F: Name := [102]
  const IMPORT_F: Sym := Sym(F, SYM_EXTERN, SEC_NONE, 0)
  const EXPORT_F: Sym := Sym(F, SYM_GLOBAL, SEC_CODE, 1)

  /** `jmp f`, then `extern f`. */
  function Caller(): seq<Line> { [Ins(JumpSrc(OP_JMP, F)), Extern(F)] }

  /** Two bytes of code that export f at the second. */
  function Callee(): Prog { Prog([], [], [OP_HALT, OP_HALT], [EXPORT_F], [], 0, false) }

  lemma CallerObject()
    ensures Assemble(Caller()).Ok?
    ensures ToProg(Assemble(Caller()).v) == Prog([], [], [OP_JMP, 0, 0, 0, 0], [IMPORT_F], [], 0, false)
  {
    Relocs.LateExternIsNotRelocated();
    hide DoLines;
    var st := Assemble(Caller()).v;
    var l := Label(F, SYM_EXTERN, SEC_NONE, -1);
    assert st.labels == [l] && [l][..0] == [];
    var none: seq<Sym> := [];
    assert SymsOf([l]) == none + [IMPORT_F];
  }

  lemma CallerMerges(b: Bases)
    ensures MergeSyms([], b, [IMPORT_F]) == Some(Merged([], [-1]))
    ensures Adjust(EXPORT_F, Bases(0, 0, 5)) == EXPORT_F.(offset := 6)
    ensures MergeSyms([], Bases(0, 0, 5), [EXPORT_F]) == Some(Merged([EXPORT_F.(offset := 6)], [0]))
  {
    var none: seq<int>, noSym: seq<Sym> := [], [];
    assert [IMPORT_F][1..] == [] && [EXPORT_F][1..] == [] && [-1] + none == [-1] && [0] + none == [0];
    assert noSym + [EXPORT_F.(offset := 6)] == [EXPORT_F.(offset := 6)];
  }

  /** The two symbol tables merged: the import is bound to f, now at offset 6. */
  lemma CallerLinks(caller: Prog)
    requires caller == Prog([], [], [OP_JMP, 0, 0, 0, 0], [IMPORT_F], [], 0, false)
    ensures var f := EXPORT_F.(offset := 6);
            && MergeFrom([], ZERO, [caller] + [Callee()]) == Some(MergedAll([f], [[-1], [0]]))
            && MapsFit([caller] + [Callee()], [[-1], [0]])
            && RelsFrom([f], ZERO, [caller] + [Callee()], [[-1], [0]]) == Some([])
  {
    var f, callee := EXPORT_F.(offset := 6), Callee();
    CallerMerges(ZERO);
    CallerResolves(f);
    hide MergeSyms, ResolveSyms;
    var both, b := [caller] + [callee], After(ZERO, caller);
    assert both[0] == caller && both[1..] == [callee] && [callee][1..] == [] && b == Bases(0, 0, 5);
    assert MergeFrom([f], After(b, callee), []) == Some(MergedAll([f], []));
    assert MergeFrom([], b, [callee]) == Some(MergedAll([f], [[0]])) by { assert [[0]] + [] == [[0]]; }
    assert [[-1]] + [[0]] == [[-1], [0]];
    assert [[-1], [0]][1..] == [[0]] && [[0]][1..] == [];
    var none: seq<Rel> := [];
    assert none + none == none;
    assert RelsFrom([f], After(b, callee), [], []) == Some([]);
    assert RelsFrom([f], b, [callee], [[0]]) == Some([]);
  }

  lemma CallerResolves(f: Sym)
    requires f == EXPORT_F.(offset := 6)
    ensures ResolveSyms([f], [IMPORT_F], [-1]).Some? && ResolveSyms([f], [EXPORT_F], [0]).Some?
  {
    LinkLaws.FindUnique([f], F, 0);
    hide FindSym;
    assert [IMPORT_F][1..] == [] && [EXPORT_F][1..] == [] && [-1][1..] == [] && [0][1..] == [];
    assert ResolveSyms([f], [], []) == Some([]);
  }

  /** Such an operand going wrong: the caller linked first, f ends up at offset 6, and the loaded jump goes to 0. */
  lemma LateExternGoesWrong(a: Addresses)
    ensures Assemble(Caller()).Ok?
    ensures var objs, s := [ToProg(Assemble(Caller()).v)] + [Callee()], Relocs.Site(1, REL_CODE, F);
            var code: seq<byte> := [OP_JMP, 0, 0, 0, 0, OP_HALT, OP_HALT];
            && Link(objs, None).Some? && Link(objs, None).value.syms == [EXPORT_F.(offset := 6)]
            && Loader.Load(Link(objs, None).value, a).Some? && Loader.Load(Link(objs, None).value, a).value.code == code
            && Unrelocated(Caller(), 0, s, objs, 0, None, a, code) && Field(code, 1, 4) == 0
  {
    CallerObject();
    Relocs.LateExternIsNotRelocated();
    var caller := ToProg(Assemble(Caller()).v);
    CallerLinks(caller);
    CallerCode(caller);
    ZeroField();
    hide MergeFrom, RelsFrom, Assemble, MapsFit, Code, Cnst, Data, EntryOf, Relocs.TextAt, Relocs.SitesOf,
         Relocs.Relocated, LinkLoad.Compact, Field;
  }

  lemma ZeroField()
    ensures Field([OP_JMP, 0, 0, 0, 0, OP_HALT, OP_HALT], 1, 4) == 0
  {
    var z: seq<byte> := [0, 0, 0, 0];
    assert [OP_JMP, 0, 0, 0, 0, OP_HALT, OP_HALT][1..5] == z;
    assert z[1..] == [0, 0, 0] && [0 as byte, 0, 0][1..] == [0, 0] && [0 as byte, 0][1..] == [0];
    assert [0 as byte][1..] == [];
    assert FromLe([]) == 0;
    assert FromLe([0]) == 0;
    assert FromLe([0, 0]) == 0;
    assert FromLe([0, 0, 0]) == 0;
  }

  lemma CallerCode(caller: Prog)
    requires caller == Prog([], [], [OP_JMP, 0, 0, 0, 0], [IMPORT_F], [], 0, false)
    ensures Code([caller] + [Callee()]) == [OP_JMP, 0, 0, 0, 0, OP_HALT, OP_HALT]
    ensures LinkLoad.Compact([caller] + [Callee()])
  {
    var both := [caller] + [Callee()];
    assert both[1..] == [Callee()] && [Callee()][1..] == [];
    assert Code([]) == [] && Code([Callee()]) == Callee().code + [];
  }

  // ----- a label of the source itself going wrong ------------------------------------------------------------------

  const LABEL_F: Label := Label(F, SYM_LOCAL, SEC_CODE, 0)
  const LOCAL_F: Sym := Sym(F, SYM_LOCAL, SEC_CODE, 0)

  /** One byte of code. */
  function First(): Prog { Prog([], [], [OP_HALT], [], [], 0, false) }

  /** `f: jmp f` */
  function Loop(): seq<Line> { [LabelDef(F), Ins(JumpSrc(OP_JMP, F))] }

  lemma LoopObject()
    ensures Assemble(Loop()).Ok?
    ensures ToProg(Assemble(Loop()).v) == Prog([], [], [OP_JMP, 0, 0, 0, 0], [LOCAL_F], [], 0, false)
  {
    var lines := Loop();
    var s1 := Init().(labels := [LABEL_F]);
    var st := s1.(text := [OP_JMP, 0, 0, 0, 0]);
    var none: seq<Label>, noSym: seq<Sym> := [], [];
    assert none + [LABEL_F] == [LABEL_F] && [LABEL_F][..0] == [] && Find([], F) == 0 && Find([LABEL_F], F) == 0;
    assert SymsOf([LABEL_F]) == noSym + [LOCAL_F];
    hide Find, DoLine, Le;
    Defines(Init(), F);
    JumpsBack(s1, F, 0);
    Relocs.ZeroWord();
    assert [] + [OP_JMP as byte] == [OP_JMP] && [OP_JMP as byte] + [0, 0, 0, 0] == [OP_JMP, 0, 0, 0, 0];
    assert lines[1..] == [lines[1]] && lines[1..][1..] == [];
    assert DoLines(st, []) == Ok(st);
    assert DoLines(s1, lines[1..]) == Ok(st);
    NoPatches(lines, st);
  }

  /** Its jump names its own label, at offset 0, and gets no relocation. */
  lemma LoopOperand()
    ensures var lines, s := Loop(), Relocs.Site(1, REL_CODE, F);
            && s in Relocs.SitesOf(lines[1].src, Relocs.TextAt(lines, 1)) && !Relocs.Relocated(lines, 1, s)
            && DefAt(START, lines, F) == Some(Placed(SEC_CODE, 0))
  {
    var lines := Loop();
    assert lines[..1] == [LabelDef(F)] && lines[..1][1..] == [];
    assert PosAfter(START, lines[..1]) == PosAfter(Advance(START, LabelDef(F)), []);
    assert StatusAfter(Absent, START, lines[..1], F)
        == StatusAfter(Placed(SEC_CODE, 0), Advance(START, LabelDef(F)), [], F);
  }

  /** Linked behind one byte of code: the label moves to offset 1, and nothing is relocated. */
  lemma LoopLinks(loop: Prog)
    requires loop == Prog([], [], [OP_JMP, 0, 0, 0, 0], [LOCAL_F], [], 0, false)
    ensures var f := LOCAL_F.(offset := 1);
            && MergeFrom([], ZERO, [First()] + [loop]) == Some(MergedAll([f], [[], [0]]))
            && MapsFit([First()] + [loop], [[], [0]])
            && RelsFrom([f], ZERO, [First()] + [loop], [[], [0]]) == Some([])
  {
    var f, both, b := LOCAL_F.(offset := 1), [First()] + [loop], After(ZERO, First());
    var none: seq<int>, noSym: seq<Sym>, noRel: seq<Rel> := [], [], [];
    assert [LOCAL_F][1..] == [] && [0][1..] == [] && [0] + none == [0] && noSym + [f] == [f];
    assert MergeSyms([], ZERO, []) == Some(Merged([], []));
    assert MergeSyms([f], b, []) == Some(Merged([f], []));
    assert MergeSyms([], b, [LOCAL_F]) == Some(Merged([f], [0]));
    assert ResolveSyms([f], [], []) == Some([]);
    assert ResolveSyms([f], [LOCAL_F], [0]).Some?;
    hide MergeSyms, ResolveSyms;
    assert both[0] == First() && both[1..] == [loop] && [loop][1..] == [] && b == Bases(0, 0, 1);
    assert MergeFrom([f], After(b, loop), []) == Some(MergedAll([f], []));
    assert MergeFrom([], b, [loop]) == Some(MergedAll([f], [[0]])) by { assert [[0]] + [] == [[0]]; }
    assert [none] + [[0]] == [[], [0]];
    assert [[], [0]][1..] == [[0]] && [[0]][1..] == [] && noRel + noRel == noRel;
    assert RelsFrom([f], After(b, loop), [], []) == Some([]);
    assert RelsFrom([f], b, [loop], [[0]]) == Some([]);
  }

  lemma LoopCode(loop: Prog)
    requires loop == Prog([], [], [OP_JMP, 0, 0, 0, 0], [LOCAL_F], [], 0, false)
    ensures Code([First()] + [loop]) == [OP_HALT, OP_JMP, 0, 0, 0, 0]
    ensures LinkLoad.Compact([First()] + [loop]) && LinkLoad.BasesOf(ZERO, [First()] + [loop], 1).code == 1
  {
    var both := [First()] + [loop];
    assert both[1..] == [loop] && [loop][1..] == [] && both[..1] == [First()] && both[..1][1..] == [];
    assert Code([]) == [] && Code([loop]) == loop.code + [];
    assert BasesAfter(ZERO, both[..1]) == BasesAfter(After(ZERO, First()), []);
  }

  lemma LoopField(objs: seq<Prog>, s: Relocs.Site, a: Addresses, code: seq<byte>)
    requires s == Relocs.Site(1, REL_CODE, F) && Unrelocated(Loop(), 1, s, objs, 1, None, a, code)
    requires DefAt(START, Loop(), F) == Some(Placed(SEC_CODE, 0)) && LinkLoad.BasesOf(ZERO, objs, 1).code == 1
    ensures |code| >= 6 && Field(code, 2, 4) == 0
  {
    OperandValue(Loop(), 1, s, objs, 1, None, a, code);
    hide Unrelocated, LinkLoad.BasesOf, Field, DefAt, Loop;
    assert LabelOffset(Loop(), F) == 0;
  }

  /** Such an operand going wrong: behind one byte of other code f lies at offset 1, and its own jump to it, loaded,
      goes to 0. */
  lemma LocalJumpGoesWrong(a: Addresses)
    ensures Assemble(Loop()).Ok?
    ensures var objs, s := [First()] + [ToProg(Assemble(Loop()).v)], Relocs.Site(1, REL_CODE, F);
            var code: seq<byte> := [OP_HALT, OP_JMP, 0, 0, 0, 0];
            && Link(objs, None).Some? && Link(objs, None).value.syms == [LOCAL_F.(offset := 1)]
            && Loader.Load(Link(objs, None).value, a).Some? && Loader.Load(Link(objs, None).value, a).value.code == code
            && Unrelocated(Loop(), 1, s, objs, 1, None, a, code)
            && DefAt(START, Loop(), F) == Some(Placed(SEC_CODE, 0)) && LinkLoad.BasesOf(ZERO, objs, 1).code == 1
            && Field(code, 2, 4) == 0
  {
    hide MergeFrom, RelsFrom, Assemble, MapsFit, Code, Cnst, Data, EntryOf, Relocs.TextAt, Relocs.SitesOf,
         Relocs.Relocated, LinkLoad.Compact, LinkLoad.BasesOf, Field, DefAt, ToProg, First, HasAt;
    LoopObject();
    LoopOperand();
    var loop := ToProg(Assemble(Loop()).v);
    LoopLinks(loop);
    LoopCode(loop);
    var objs, s := [First()] + [loop], Relocs.Site(1, REL_CODE, F);
    var code: seq<byte> := [OP_HALT, OP_JMP, 0, 0, 0, 0];
    LoopField(objs, s, a, code);
  }
}
