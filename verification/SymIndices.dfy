/** Symbol indices through asm_to_prog: which relocations of an object name the label they were made for. */
module SymIndices {
  import opened Words
  import opened Isa
  import opened Objects
  import opened Asm
  import opened Labels
  import opened TwoPass
  import opened CodeLabels
  import opened Relocs

  // ----- symbol indices -----------------------------------------------------------------------------------

  /** Every label that gets a symbol gets it at its own index. */
  ghost predicate Aligned(ls: seq<Label>) {
    forall i :: 0 <= i < |ls| && !Skipped(ls[i]) ==> i < |SymsOf(ls)| && SymsOf(ls)[i] == SymOf(ls[i])
  }

  /** No skipped label comes before one that is written. */
  ghost predicate SkippedLast(ls: seq<Label>) {
    forall i, j :: 0 <= i < j < |ls| && Skipped(ls[i]) ==> Skipped(ls[j])
  }

  lemma {:induction false} AlignedForward(ls: seq<Label>)
    requires SkippedLast(ls)
    ensures Aligned(ls)
    ensures |SymsOf(ls)| == |ls| || Skipped(ls[|ls| - 1])
  {
    if ls != [] {
      AlignedForward(ls[..|ls| - 1]);
    }
  }

  lemma {:induction false} FewerSymbols(ls: seq<Label>, i: nat)
    requires i < |ls| && Skipped(ls[i])
    ensures |SymsOf(ls)| < |ls|
    decreases |ls|
  {
    if i < |ls| - 1 {
      FewerSymbols(ls[..|ls| - 1], i);
    }
  }

  lemma {:induction false} SymbolsUpTo(ls: seq<Label>, j: nat)
    requires j < |ls| && forall k :: j < k < |ls| ==> Skipped(ls[k])
    ensures |SymsOf(ls)| == |SymsOf(ls[..j + 1])|
    decreases |ls|
  {
    if j == |ls| - 1 {
      assert ls[..j + 1] == ls;
    } else {
      SymbolsUpTo(ls[..|ls| - 1], j);
      assert ls[..|ls| - 1][..j + 1] == ls[..j + 1];
    }
  }

  /** Every written label keeps its own index through asm_to_prog exactly when no declared-but-undefined global
      precedes a written label. */
  lemma AlignedIff(ls: seq<Label>)
    ensures Aligned(ls) <==> SkippedLast(ls)
  {
    if SkippedLast(ls) {
      AlignedForward(ls);
    } else {
      var i, j :| 0 <= i < j < |ls| && Skipped(ls[i]) && !Skipped(ls[j]);
      var m := j;
      while m < |ls| - 1 && !(forall k :: m < k < |ls| ==> Skipped(ls[k]))
        invariant j <= m < |ls| && !Skipped(ls[m])
        decreases |ls| - m
      {
        var k :| m < k < |ls| && !Skipped(ls[k]);
        m := k;
      }
      SymbolsUpTo(ls, m);
      FewerSymbols(ls[..m + 1], i);
    }
  }

  /** With every declared global defined, each relocation of the object names the referenced symbol. */
  lemma ObjectRelocsNameTheirLabels(lines: seq<Line>)
    requires Assemble(lines).Ok?
    requires forall n :: StatusAfter(Absent, START, lines, n) != Declared
    ensures var p := ToProg(Assemble(lines).v);
            var sites := RelocSites(lines, |lines|);
            && |p.rels| == |sites| && |p.syms| == |Assemble(lines).v.labels|
            && forall j :: 0 <= j < |p.rels| ==>
                 p.rels[j].sym < |p.syms| && p.syms[p.rels[j].sym].name == sites[j].name
  {
    var st := Assemble(lines).v;
    AssembleRelocs(lines);
    RunKeeps(Init(), lines, []);
    forall i | 0 <= i < |st.labels| ensures !Skipped(st.labels[i]) {
      RunKeeps(Init(), lines, st.labels[i].name);
      GetAt(st.labels, i);
    }
    hide Assemble, StatusAfter, RelocSites;
    AlignedForward(st.labels);
    NoneSkipped(st.labels);
  }

  lemma {:induction false} NoneSkipped(ls: seq<Label>)
    requires forall i :: 0 <= i < |ls| ==> !Skipped(ls[i])
    ensures |SymsOf(ls)| == |ls|
  {
    if ls != [] {
      NoneSkipped(ls[..|ls| - 1]);
    }
  }

  // ----- index by index ------------------------------------------------------------------------------------------

  /** The label behind symbol x. */
  lemma {:induction false} Origin(ls: seq<Label>, x: nat) returns (m: nat)
    requires x < |SymsOf(ls)|
    ensures m < |ls| && !Skipped(ls[m]) && SymsOf(ls)[x] == SymOf(ls[m]) && |SymsOf(ls[..m])| == x
    decreases |ls|
  {
    var front := ls[..|ls| - 1];
    if x < |SymsOf(front)| {
      m := Origin(front, x);
      assert front[..m] == ls[..m];
    } else {
      m := |ls| - 1;
    }
  }

  lemma {:induction false} SymbolsPrefix(ls: seq<Label>, k: nat)
    requires k <= |ls|
    ensures SymsOf(ls[..k]) <= SymsOf(ls)
    decreases |ls|
  {
    if k == |ls| {
      assert ls[..k] == ls;
    } else {
      SymbolsPrefix(ls[..|ls| - 1], k);
      assert ls[..|ls| - 1][..k] == ls[..k];
    }
  }

  /** A written label's index names it in the symbol table exactly if no skipped label comes before it. */
  lemma IndexIff(ls: seq<Label>, k: nat)
    requires Distinct(ls) && k < |ls| && !Skipped(ls[k])
    ensures (k < |SymsOf(ls)| && SymsOf(ls)[k].name == ls[k].name) <==> forall i :: 0 <= i < k ==> !Skipped(ls[i])
    ensures (forall i :: 0 <= i < k ==> !Skipped(ls[i])) ==> k < |SymsOf(ls)| && SymsOf(ls)[k] == SymOf(ls[k])
  {
    hide Skipped, SymsOf;
    if i :| 0 <= i < k && Skipped(ls[i]) {
      FewerSymbols(ls[..k], i);
      if k < |SymsOf(ls)| {
        var m := Origin(ls, k);
        assert m != k;
      }
    } else {
      NoneSkipped(ls[..k]);
      WrittenNext(ls[..k + 1]);
      assert ls[..k + 1][..k] == ls[..k];
      SymbolsPrefix(ls, k + 1);
    }
  }

  lemma WrittenNext(ls: seq<Label>)
    requires ls != [] && !Skipped(ls[|ls| - 1])
    ensures SymsOf(ls) == SymsOf(ls[..|ls| - 1]) + [SymOf(ls[|ls| - 1])]
  {
  }

  /** Symbol names are distinct, as label names are. */
  lemma SymsDistinct(ls: seq<Label>, x: nat, y: nat)
    requires Distinct(ls) && x < y < |SymsOf(ls)|
    ensures SymsOf(ls)[x].name != SymsOf(ls)[y].name
  {
    hide SymsOf, Skipped;
    var m := Origin(ls, x);
    var n := Origin(ls, y);
    assert m != n;
  }

  /** A written label has a symbol. */
  lemma SymbolOf(ls: seq<Label>, k: nat) returns (x: nat)
    requires k < |ls| && !Skipped(ls[k])
    ensures x < |SymsOf(ls)| && SymsOf(ls)[x] == SymOf(ls[k])
  {
    WrittenNext(ls[..k + 1]);
    assert ls[..k + 1][..k] == ls[..k];
    SymbolsPrefix(ls, k + 1);
    x := |SymsOf(ls[..k])|;
  }

  // ----- relocated labels are written --------------------------------------------------------------------------------

  /** Extern or defined: a symbol is written. */
  predicate Written(s: Status) { s == External || s.Placed? }

  lemma DataRefWritten(st: State, n: Name, final: seq<Label>)
    requires Good(st) && RefData(st, n).Ok? && TableOk(final) && Extends(RefData(st, n).v.labels, final)
    requires AllResolvable(RefData(st, n).v.patches, final)
    ensures Written(StatusOf(Get(final, n)))
  {
    RefDataKeeps(st, n, n);
    hide Le, Define, Good;
    var i := Find(st.labels, n);
    var s' := RefData(st, n).v;
    if i < |st.labels| && st.labels[i].offset >= 0 {
      GetExtended(s'.labels, final, n);
    } else {
      var p := Patch(n, |st.text|, true);
      assert p in s'.patches;
      assert Resolvable(p, final);
    }
  }

  lemma {:induction false} RunDataWritten(st: State, lines: seq<Line>, k: nat, d: Reg, n: Name)
    requires Good(st) && DoLines(st, lines).Ok? && k < |lines| && lines[k] == Ins(MovLabel(d, n))
    requires AllResolvable(DoLines(st, lines).v.patches, DoLines(st, lines).v.labels)
    ensures Written(StatusOf(Get(DoLines(st, lines).v.labels, n)))
    decreases |lines|
  {
    hide StatusOf, Good, TableOk, Written, Emit, DoLine, Get, Extends, Resolvable;
    var s1, final := DoLine(st, lines[0]).v, DoLines(st, lines).v.labels;
    LineKeeps(st, lines[0], n);
    RunKeeps(s1, lines[1..], n);
    GoodTable(DoLines(st, lines).v);
    if k == 0 {
      forall p | p in s1.patches ensures Resolvable(p, final) { PatchesGrow(s1, lines[1..], p); }
      InsEmits(st, lines[0]);
      MovEmits(st, d, n, final);
    } else {
      RunDataWritten(s1, lines[1..], k - 1, d, n);
    }
  }

  lemma MovEmits(st: State, d: Reg, n: Name, final: seq<Label>)
    requires Good(st) && Emit(st, MovLabel(d, n)).Ok?
    requires TableOk(final) && Extends(Emit(st, MovLabel(d, n)).v.labels, final)
    requires AllResolvable(Emit(st, MovLabel(d, n)).v.patches, final)
    ensures Written(StatusOf(Get(final, n)))
  {
    hide RefData, StatusOf, TableOk, Written;
    DataRefWritten(Put(st, Head(MovLabel(d, n))).v, n, final);
  }

  lemma SiteName(src: Src, at: nat, s: Site)
    requires s in SitesOf(src, at)
    ensures s.kind == REL_DATA ==> src.MovLabel? && src.name == s.name
    ensures s.kind != REL_DATA ==> s.name in CodeNames(src)
  {
  }

  /** The label of a relocation gets a symbol. */
  lemma RelocatedIsWritten(lines: seq<Line>, s: Site)
    requires Assemble(lines).Ok? && s in RelocSites(lines, |lines|)
    ensures Written(StatusOf(Get(Assemble(lines).v.labels, s.name)))
  {
    hide RelocSites, TextAt, SitesOf, StatusOf, Get, DoLines, Assemble, Good, AllResolvable, Written, CodeTarget,
         CodeNames, Relocated;
    AssembledParts(lines);
    SiteMember(lines, |lines|, s);
    var k :| 0 <= k < |lines| && SiteOf(lines, k, s);
    SiteName(lines[k].src, TextAt(lines, k), s);
    if s.kind == REL_DATA {
      RunDataWritten(Init(), lines, k, lines[k].src.d, s.name);
    } else {
      RunResolved(Init(), lines, k, s.name);
      CodeWritten(StatusOf(Get(Assemble(lines).v.labels, s.name)));
    }
  }

  lemma CodeWritten(s: Status)
    requires CodeTarget(s)
    ensures Written(s)
  {
  }

  lemma AssembledParts(lines: seq<Line>)
    requires Assemble(lines).Ok?
    ensures Good(Init()) && DoLines(Init(), lines).Ok?
    ensures AllResolvable(DoLines(Init(), lines).v.patches, DoLines(Init(), lines).v.labels)
    ensures Assemble(lines).v.labels == DoLines(Init(), lines).v.labels
  {
    InitGood();
    hide DoLines, Good;
  }

  lemma WrittenNotSkipped(ls: seq<Label>, k: nat)
    requires Distinct(ls) && k < |ls| && Written(StatusOf(Get(ls, ls[k].name)))
    ensures !Skipped(ls[k])
  {
    GetAt(ls, k);
  }

  /** Relocation j of an assembled object names the label it was made for exactly if no global that is declared
      and never defined comes before that label in the table. */
  lemma RelocIndexIff(lines: seq<Line>, j: nat)
    requires Assemble(lines).Ok? && j < |Assemble(lines).v.rels|
    ensures var st, k := Assemble(lines).v, Assemble(lines).v.rels[j].sym;
            var syms := ToProg(st).syms;
            && j < |RelocSites(lines, |lines|)| && k < |st.labels|
            && st.labels[k].name == RelocSites(lines, |lines|)[j].name
            && ((k < |syms| && syms[k].name == st.labels[k].name)
                <==> forall i :: 0 <= i < k ==> !Skipped(st.labels[i]))
  {
    AssembleRelocs(lines);
    TableDistinct(lines);
    hide Assemble, RelocSites, Skipped, SymsOf, Distinct;
    var st, site := Assemble(lines).v, RelocSites(lines, |lines|)[j];
    var k := st.rels[j].sym;
    RelocatedIsWritten(lines, site);
    WrittenNotSkipped(st.labels, k);
    IndexIff(st.labels, k);
  }

  lemma TableDistinct(lines: seq<Line>)
    requires Assemble(lines).Ok?
    ensures Distinct(Assemble(lines).v.labels)
  {
    RunKeeps(Init(), lines, []);
    hide DoLines;
  }

  // ----- a relocation that goes wrong --------------------------------------------------------------------------------

  const G: Name := [103]
  const D: Name := [100]
  const E: Name := [101]

  /** global g; mov ax, d; .data; d: db 7; e: */
  function WrongSource(): (lines: seq<Line>)
    ensures |lines| == 6
  {
    [Global(G), Ins(MovLabel(0, D)), Section(SEC_DATA), LabelDef(D), Number(1, 7), LabelDef(E)]
  }

  const LABEL_G: Label := Label(G, SYM_GLOBAL, SEC_CODE, -1)
  const LABEL_D: Label := Label(D, SYM_LOCAL, SEC_DATA, 0)
  const LABEL_E: Label := Label(E, SYM_LOCAL, SEC_DATA, 1)
  const PLACEHOLDER_D: Label := Label(D, SYM_EXTERN, SEC_NONE, -1)

  /** The state after `global g; mov ax, d`. */
  function Referred(): State {
    State([OP_MOV_RI, 0] + Le(8, 0), [], [], [LABEL_G, PLACEHOLDER_D],
          [Patch(D, 2, true)], [Rel(2, 1, REL_DATA)], SEC_CODE)
  }

  lemma FirstTwoLines()
    ensures var s1 := Init().(labels := [LABEL_G]);
            DoLine(Init(), Global(G)) == Ok(s1) && DoLine(s1, Ins(MovLabel(0, D))) == Ok(Referred())
  {
    hide RefData, DeclareGlobal, DoLine, Referred;
    var s1 := Init().(labels := [LABEL_G]);
    GlobalLine(Init(), G);
    DeclaresG();
    MovLine(s1, 0, D);
    assert [] + [OP_MOV_RI, RegByte(0, 0)] == [OP_MOV_RI, 0];
    RefersToD();
  }

  lemma GlobalLine(st: State, n: Name)
    ensures DoLine(st, Global(n)) == DeclareGlobal(st, n)
  {
    hide DeclareGlobal;
  }

  lemma MovLine(st: State, d: Reg, n: Name)
    requires st.sec == SEC_CODE && |st.text| + 2 <= BUF_MAX
    ensures DoLine(st, Ins(MovLabel(d, n))) == RefData(st.(text := st.text + [OP_MOV_RI, RegByte(d, 0)]), n)
  {
    hide RefData;
  }

  lemma DeclaresG()
    ensures DeclareGlobal(Init(), G) == Ok(Init().(labels := [LABEL_G]))
  {
    var none: seq<Label> := [];
    assert none + [LABEL_G] == [LABEL_G];
  }

  lemma RefersToD()
    ensures RefData(Init().(labels := [LABEL_G], text := [OP_MOV_RI, 0]), D) == Ok(Referred())
  {
    FindUnique([LABEL_G], D, 1);
    assert [LABEL_G] + [PLACEHOLDER_D] == [LABEL_G, PLACEHOLDER_D];
    hide Le, Find;
    var noPatch: seq<Patch>, noRel: seq<Rel> := [], [];
    assert noPatch + [Patch(D, 2, true)] == [Patch(D, 2, true)];
    assert noRel + [Rel(2, 1, REL_DATA)] == [Rel(2, 1, REL_DATA)];
    assert SymIndex([LABEL_G], D) == Ok((1, [LABEL_G, PLACEHOLDER_D]));
  }

  lemma LastLines()
    ensures var s3 := Referred().(sec := SEC_DATA);
            var s4 := s3.(labels := [LABEL_G, LABEL_D]);
            var s5 := s4.(data := [7]);
            && DoLine(Referred(), Section(SEC_DATA)) == Ok(s3) && DoLine(s3, LabelDef(D)) == Ok(s4)
            && DoLine(s4, Number(1, 7)) == Ok(s5)
            && DoLine(s5, LabelDef(E)) == Ok(s5.(labels := [LABEL_G, LABEL_D, LABEL_E]))
  {
    FindsD(PLACEHOLDER_D);
    FindsD(LABEL_D);
    assert [LABEL_G, PLACEHOLDER_D][1 := LABEL_D] == [LABEL_G, LABEL_D];
    assert [LABEL_G, LABEL_D] + [LABEL_E] == [LABEL_G, LABEL_D, LABEL_E];
    assert Le(1, 7) == [7] by { assert Le(0, 0) == []; }
    var none: seq<byte> := [];
    assert none + [7] == [7];
    hide Find, Le;
  }

  lemma FindsD(l: Label)
    requires l.name == D
    ensures Find([LABEL_G, l], D) == 1 && Find([LABEL_G, l], E) == 2
  {
    FindUnique([LABEL_G, l], D, 1);
    FindUnique([LABEL_G, l], E, 2);
  }

  lemma WrongSourceRuns()
    ensures DoLines(Init(), WrongSource())
         == Ok(Referred().(sec := SEC_DATA, labels := [LABEL_G, LABEL_D, LABEL_E], data := [7]))
  {
    FirstTwoLines();
    LastLines();
    hide DoLine, Referred, Init;
    var lines := WrongSource();
    var s1 := DoLine(Init(), lines[0]).v;
    var s2 := DoLine(s1, lines[1]).v;
    var s3 := DoLine(s2, lines[2]).v;
    var s4 := DoLine(s3, lines[3]).v;
    var s5 := DoLine(s4, lines[4]).v;
    var s6 := DoLine(s5, lines[5]).v;
    var t1, t2, t3, t4, t5 := lines[1..], lines[2..], lines[3..], lines[4..], lines[5..];
    assert t1[1..] == t2 && t2[1..] == t3 && t3[1..] == t4 && t4[1..] == t5 && t5[1..] == [];
    assert t1[0] == lines[1] && t2[0] == lines[2] && t3[0] == lines[3] && t4[0] == lines[4] && t5[0] == lines[5];
    assert DoLines(s5, t5) == Ok(s6) by { assert DoLines(s6, []) == Ok(s6); }
    assert DoLines(s4, t4) == Ok(s6);
    assert DoLines(s3, t3) == Ok(s6);
    assert DoLines(s2, t2) == Ok(s6);
    assert DoLines(s1, t1) == Ok(s6);
  }

  /** Such a source assembles, and its object loads the address of e where the source says d. */
  lemma RelocationNamesWrongSymbol()
    ensures Assemble(WrongSource()).Ok?
    ensures var p := ToProg(Assemble(WrongSource()).v);
            && p.rels == [Rel(2, 1, REL_DATA)]
            && |RelocSites(WrongSource(), 6)| > 0 && RelocSites(WrongSource(), 6)[0].name == D
            && p.syms == [SymOf(LABEL_D), SymOf(LABEL_E)]
  {
    WrongSourceRuns();
    WrongPatchResolves();
    WrongSymbols();
    hide DoLines, SymsOf, WrongSource, RelocSites, Find, Resolvable, Le, PatchAll;
    RelocIndexIff(WrongSource(), 0);
  }

  lemma WrongPatchResolves()
    ensures Resolvable(Patch(D, 2, true), [LABEL_G, LABEL_D, LABEL_E])
  {
    FindUnique([LABEL_G, LABEL_D, LABEL_E], D, 1);
  }

  lemma WrongSymbols()
    ensures SymsOf([LABEL_G, LABEL_D, LABEL_E]) == [SymOf(LABEL_D), SymOf(LABEL_E)]
  {
    var none: seq<Sym> := [];
    assert [LABEL_G, LABEL_D, LABEL_E][..2] == [LABEL_G, LABEL_D] && [LABEL_G, LABEL_D][..1] == [LABEL_G];
    assert [LABEL_G][..0] == [] && SymsOf([]) == [];
    assert SymsOf([LABEL_G]) == [];
    assert SymsOf([LABEL_G, LABEL_D]) == none + [SymOf(LABEL_D)];
  }
}
