/** Which symbols an assembled object writes and exports, told over the source lines. */
module Exports {
  import opened Words
  import opened Isa
  import opened Objects
  import opened Asm
  import opened Labels
  import opened TwoPass
  import opened SymIndices

  // ----- the global flag ------------------------------------------------------------------------------

  predicate IsGlobal(ls: seq<Label>, n: Name) { Get(ls, n).Some? && Get(ls, n).value.flags == SYM_GLOBAL }

  /** `global` sets the flag; `extern` takes it away until the name is defined. */
  function NextFlag(flag: bool, placed: bool, line: Line, n: Name): bool {
    if line == Global(n) then true else if line == Extern(n) && !placed then false else flag
  }

  function FlagAfter(flag: bool, placed: bool, lines: seq<Line>, n: Name): bool
    decreases |lines|, n
  {
    if lines == [] then flag
    else FlagAfter(NextFlag(flag, placed, lines[0], n), placed || lines[0] == LabelDef(n), lines[1..], n)
  }

  lemma FlagUpdate(ls: seq<Label>, i: nat, l: Label, n: Name)
    requires i < |ls| && Find(ls, l.name) == i && ls[i].name == l.name
    ensures IsGlobal(ls[i := l], n) == if n == l.name then l.flags == SYM_GLOBAL else IsGlobal(ls, n)
  {
    GetUpdate(ls, i, l, n);
  }

  lemma FlagDefine(ls: seq<Label>, m: Name, flags: byte, sec: byte, off: int, n: Name)
    requires TableOk(ls) && Define(ls, m, flags, sec, off).Ok?
    ensures var kept := Get(ls, m).Some? && Get(ls, m).value.offset >= 0;
            IsGlobal(Define(ls, m, flags, sec, off).v, n)
            == if n == m && !kept then flags == SYM_GLOBAL else IsGlobal(ls, n)
  {
    var i := Find(ls, m);
    if i < |ls| {
      assert ls[i] in ls;
      FlagUpdate(ls, i, Label(m, flags, sec, off), n);
    } else {
      GetAppend(ls, Label(m, flags, sec, off), n);
    }
  }

  /** What one line does to the flag. */
  lemma LineFlag(st: State, line: Line, n: Name)
    requires Good(st) && DoLine(st, line).Ok?
    ensures IsGlobal(DoLine(st, line).v.labels, n)
         == NextFlag(IsGlobal(st.labels, n), StatusOf(Get(st.labels, n)).Placed?, line, n)
  {
    hide Define, Get, Find, TableOk, PutData, Emit;
    match line
    case Global(m) => GlobalFlag(st, m, n);
    case Extern(m) => ExternFlag(st, m, n);
    case LabelDef(m) => DefineFlag(st, m, n);
    case Ins(src) => EmitFlag(st, src, n);
    case Number(w, v) => DataFlag(st, Le(w, v));
    case Text(b, z) => DataFlag(st, b + if z then [0] else []);
    case Section(_) =>
  }

  lemma DataFlag(st: State, w: seq<byte>)
    requires PutData(st, w).Ok?
    ensures PutData(st, w).v.labels == st.labels
  {
  }

  lemma GlobalFlag(st: State, m: Name, n: Name)
    requires Good(st) && DeclareGlobal(st, m).Ok?
    ensures IsGlobal(DeclareGlobal(st, m).v.labels, n) == (n == m || IsGlobal(st.labels, n))
  {
    var i := Find(st.labels, m);
    if i < |st.labels| {
      FlagUpdate(st.labels, i, st.labels[i].(flags := SYM_GLOBAL), n);
    } else {
      FlagDefine(st.labels, m, SYM_GLOBAL, st.sec, -1, n);
    }
  }

  lemma ExternFlag(st: State, m: Name, n: Name)
    requires Good(st) && Define(st.labels, m, SYM_EXTERN, SEC_NONE, -1).Ok?
    ensures IsGlobal(Define(st.labels, m, SYM_EXTERN, SEC_NONE, -1).v, n)
         == NextFlag(IsGlobal(st.labels, n), StatusOf(Get(st.labels, n)).Placed?, Extern(m), n)
  {
    FlagDefine(st.labels, m, SYM_EXTERN, SEC_NONE, -1, n);
  }

  lemma DefineFlag(st: State, m: Name, n: Name)
    requires Good(st) && DefineHere(st, m).Ok?
    ensures IsGlobal(DefineHere(st, m).v.labels, n) == IsGlobal(st.labels, n)
  {
    var i := Find(st.labels, m);
    var flags := if i < |st.labels| && st.labels[i].flags == SYM_GLOBAL then SYM_GLOBAL else SYM_LOCAL;
    FlagDefine(st.labels, m, flags, st.sec, CurLen(st), n);
    assert flags == SYM_GLOBAL <==> IsGlobal(st.labels, m);
  }

  lemma EmitFlag(st: State, src: Src, n: Name)
    requires Good(st) && Emit(st, src).Ok?
    ensures IsGlobal(Emit(st, src).v.labels, n) == IsGlobal(st.labels, n)
  {
    hide Head, Le, Define, Get, RefCode;
    var r := Put(st, Head(src));
    match src
    case MovLabel(_, m) =>
      RefDataFlag(r.v, m, n);
    case JumpSrc(_, m) => CodeFlag(r.v, m);
    case CallSrc(ok, err) => CodeFlag(r.v, ok); CodeFlag(RefCode(r.v, ok).v, err);
    case CallrSrc(_, m) => CodeFlag(r.v, m);
    case _ =>
  }

  lemma CodeFlag(st: State, m: Name)
    requires RefCode(st, m).Ok?
    ensures RefCode(st, m).v.labels == st.labels
  {
    hide Le;
  }

  lemma RefDataFlag(st: State, m: Name, n: Name)
    requires TableOk(st.labels) && RefData(st, m).Ok?
    ensures IsGlobal(RefData(st, m).v.labels, n) == IsGlobal(st.labels, n)
  {
    hide Le, TableOk, Define;
    if Find(st.labels, m) == |st.labels| {
      FlagDefine(st.labels, m, SYM_EXTERN, SEC_NONE, -1, n);
      assert Get(st.labels, m) == None;
    }
  }

  lemma {:induction false} RunFlag(st: State, lines: seq<Line>, n: Name)
    requires Good(st) && DoLines(st, lines).Ok?
    ensures IsGlobal(DoLines(st, lines).v.labels, n)
         == FlagAfter(IsGlobal(st.labels, n), StatusOf(Get(st.labels, n)).Placed?, lines, n)
    decreases |lines|
  {
    hide DoLine, Good, Get, IsGlobal, NextFlag;
    if lines != [] {
      LineFlag(st, lines[0], n);
      LineKeeps(st, lines[0], n);
      RunFlag(DoLine(st, lines[0]).v, lines[1..], n);
    }
  }

  // ----- by position -----------------------------------------------------------------------------------

  /** Line g declares n global, and no later line takes that back: an `extern` does so only before the definition. */
  ghost predicate ExportedBy(lines: seq<Line>, placed: bool, n: Name, g: int) {
    && 0 <= g < |lines| && lines[g] == Global(n)
    && forall x {:trigger lines[x]} :: g < x < |lines| && lines[x] == Extern(n) ==> DefinedBy(lines, placed, n, x)
  }

  ghost predicate Exporting(lines: seq<Line>, placed: bool, n: Name) {
    exists g :: ExportedBy(lines, placed, n, g)
  }

  ghost predicate DefinedBy(lines: seq<Line>, placed: bool, n: Name, x: int) {
    placed || exists y :: 0 <= y < x && y < |lines| && lines[y] == LabelDef(n)
  }

  /** No line takes the flag away. */
  ghost predicate Untouched(lines: seq<Line>, placed: bool, n: Name) {
    forall x {:trigger lines[x]} :: 0 <= x < |lines| && lines[x] == Extern(n) ==> DefinedBy(lines, placed, n, x)
  }

  lemma DefinedTail(lines: seq<Line>, placed: bool, n: Name, x: int)
    requires lines != [] && 0 < x < |lines|
    ensures DefinedBy(lines, placed, n, x) <==> DefinedBy(lines[1..], placed || lines[0] == LabelDef(n), n, x - 1)
  {
    var rest := lines[1..];
    assert forall y :: 0 <= y < |rest| ==> rest[y] == lines[y + 1];
    if y :| 0 <= y < x && y < |lines| && lines[y] == LabelDef(n) {
      if y > 0 { assert rest[y - 1] == LabelDef(n); }
    }
  }

  lemma ExportedTail(lines: seq<Line>, placed: bool, n: Name, g: int)
    requires lines != [] && 0 < g
    ensures ExportedBy(lines, placed, n, g) <==> ExportedBy(lines[1..], placed || lines[0] == LabelDef(n), n, g - 1)
  {
    hide DefinedBy;
    var rest, now := lines[1..], placed || lines[0] == LabelDef(n);
    forall x {:trigger lines[x]} | g < x < |lines|
      ensures rest[x - 1] == lines[x] && (DefinedBy(lines, placed, n, x) <==> DefinedBy(rest, now, n, x - 1))
    {
      DefinedTail(lines, placed, n, x);
    }
    if ExportedBy(lines, placed, n, g) {
      forall x {:trigger rest[x]} | g - 1 < x < |rest| && rest[x] == Extern(n) ensures DefinedBy(rest, now, n, x) {
        assert lines[x + 1] == Extern(n);
      }
    }
  }

  /** From the first line on: nothing later takes its flag away. */
  lemma UntouchedTail(lines: seq<Line>, placed: bool, n: Name)
    requires lines != []
    ensures Untouched(lines[1..], placed || lines[0] == LabelDef(n), n)
       <==> forall x {:trigger lines[x]} :: 0 < x < |lines| && lines[x] == Extern(n) ==> DefinedBy(lines, placed, n, x)
  {
    hide DefinedBy;
    var rest, now := lines[1..], placed || lines[0] == LabelDef(n);
    forall x {:trigger lines[x]} | 0 < x < |lines|
      ensures rest[x - 1] == lines[x] && (DefinedBy(lines, placed, n, x) <==> DefinedBy(rest, now, n, x - 1))
    {
      DefinedTail(lines, placed, n, x);
    }
    if forall x {:trigger lines[x]} :: 0 < x < |lines| && lines[x] == Extern(n) ==> DefinedBy(lines, placed, n, x) {
      forall x {:trigger rest[x]} | 0 <= x < |rest| && rest[x] == Extern(n) ensures DefinedBy(rest, now, n, x) {
        assert lines[x + 1] == Extern(n);
      }
    }
  }

  lemma {:induction false} FlagIff(flag: bool, placed: bool, lines: seq<Line>, n: Name)
    ensures FlagAfter(flag, placed, lines, n)
       <==> (flag && Untouched(lines, placed, n)) || Exporting(lines, placed, n)
    decreases |lines|
  {
    hide DefinedBy;
    if lines == [] {
    } else {
      var rest, now := lines[1..], placed || lines[0] == LabelDef(n);
      FlagIff(NextFlag(flag, placed, lines[0], n), now, rest, n);
      UntouchedTail(lines, placed, n);
      FirstLine(lines, placed, n);
      Exchange(lines, placed, n);
    }
  }

  lemma FirstLine(lines: seq<Line>, placed: bool, n: Name)
    requires lines != []
    ensures DefinedBy(lines, placed, n, 0) <==> placed
  {
  }

  lemma Exchange(lines: seq<Line>, placed: bool, n: Name)
    requires lines != []
    ensures Exporting(lines, placed, n)
       <==> ExportedBy(lines, placed, n, 0) || Exporting(lines[1..], placed || lines[0] == LabelDef(n), n)
  {
    hide ExportedBy;
    var rest, now := lines[1..], placed || lines[0] == LabelDef(n);
    if g :| ExportedBy(lines, placed, n, g) {
      Within(lines, placed, n, g);
      if g > 0 { ExportedTail(lines, placed, n, g); }
    }
    if g :| ExportedBy(rest, now, n, g) {
      Within(rest, now, n, g);
      ExportedTail(lines, placed, n, g + 1);
    }
  }

  lemma Within(lines: seq<Line>, placed: bool, n: Name, g: int)
    requires ExportedBy(lines, placed, n, g)
    ensures 0 <= g < |lines|
  {
  }

  // ----- the symbol table ----------------------------------------------------------------------------------

  /** The source exports n. */
  ghost predicate Exported(lines: seq<Line>, n: Name) { Exporting(lines, false, n) }

  /** A name the source defines has one symbol, at its first definition, global if and only if the source exports
      it. A name it only imports has one extern symbol; any other name has none. */
  lemma SymbolIff(lines: seq<Line>, n: Name) returns (x: nat)
    requires Assemble(lines).Ok?
    ensures var syms := ToProg(Assemble(lines).v).syms;
            var end := StatusAfter(Absent, START, lines, n);
            && (DefAt(START, lines, n).Some? <==> end.Placed?) && (end.Placed? ==> DefAt(START, lines, n) == Some(end))
            && (end.Placed? ==>
                  && end.off < TWO32 && x < |syms|
                  && syms[x] == Sym(n, if Exported(lines, n) then SYM_GLOBAL else SYM_LOCAL, end.sec, end.off))
            && (end == External ==> x < |syms| && syms[x] == Sym(n, SYM_EXTERN, SEC_NONE, 0))
            && (forall y :: 0 <= y < |syms| && syms[y].name == n ==> y == x && (end.Placed? || end == External))
  {
    hide DoLines, SymsOf, StatusAfter, DefAt, Exported, AllResolvable;
    AssembledParts(lines);
    var ls := Assemble(lines).v.labels;
    RunKeeps(Init(), lines, n);
    StatusIsFirstDefinition(Absent, START, lines, n);
    RunFlag(Init(), lines, n);
    FlagFromStart(lines, n);
    TableDistinct(lines);
    x := 0;
    var i := Find(ls, n);
    if i < |ls| && !Skipped(ls[i]) {
      assert ls[i] in ls;
      x := SymbolOf(ls, i);
    }
    forall y | 0 <= y < |SymsOf(ls)| && SymsOf(ls)[y].name == n
      ensures y == x && i < |ls| && !Skipped(ls[i])
    {
      var m := Origin(ls, y);
      LabelUnique(ls, m, n);
      if y < x { SymsDistinct(ls, y, x); }
      if x < y { SymsDistinct(ls, x, y); }
    }
  }

  lemma LabelUnique(ls: seq<Label>, m: nat, n: Name)
    requires Distinct(ls) && m < |ls| && ls[m].name == n
    ensures Find(ls, n) == m
  {
    FindUnique(ls, n, m);
  }

  lemma FlagFromStart(lines: seq<Line>, n: Name)
    ensures FlagAfter(IsGlobal(Init().labels, n), StatusOf(Get(Init().labels, n)).Placed?, lines, n)
       <==> Exported(lines, n)
  {
    FlagIff(false, false, lines, n);
    hide FlagAfter;
    assert Get([], n) == None;
  }
}
