/** Which sources the assembler accepts, line by line, and that accepted ones stay within its tables. */
module Acceptance {
  import opened Words
  import opened Isa
  import opened Objects
  import opened Asm
  import opened Labels
  import opened TwoPass

  /** The name has an entry, or there is room for one. */
  predicate NameFits(st: State, n: Name) { Get(st.labels, n).Some? || |st.labels| < 512 }

  /** A code reference to n is left to be patched: n is not a defined code label yet. */
  predicate Pending(st: State, n: Name) {
    match Get(st.labels, n)
    case None => true
    case Some(l) => l.offset < 0 || l.section != SEC_CODE
  }

  /** A code reference to n is relocated. */
  predicate Imported(st: State, n: Name) { Get(st.labels, n).Some? && Get(st.labels, n).value.flags == SYM_EXTERN }

  function One(b: bool): nat { if b then 1 else 0 }

  /** Room for what the label operands of an instruction add to the tables. */
  predicate OperandsFit(st: State, src: Src) {
    match src
    case MovLabel(_, n) =>
      && |st.rels| < 2048 && NameFits(st, n)
      && (StatusOf(Get(st.labels, n)).Placed? || |st.patches| < 1024)
    case JumpSrc(_, n) => |st.patches| + One(Pending(st, n)) <= 1024 && |st.rels| + One(Imported(st, n)) <= 2048
    case CallrSrc(_, n) => |st.patches| + One(Pending(st, n)) <= 1024 && |st.rels| + One(Imported(st, n)) <= 2048
    case CallSrc(a, b) =>
      && |st.patches| + One(Pending(st, a)) + One(Pending(st, b)) <= 1024
      && |st.rels| + One(Imported(st, a)) + One(Imported(st, b)) <= 2048
    case _ => true
  }

  predicate LineFits(st: State, line: Line) {
    match line
    case Section(sec) => sec in {SEC_CNST, SEC_DATA, SEC_CODE}
    case Global(n) => NameFits(st, n)
    case Extern(n) => NameFits(st, n)
    case LabelDef(n) => NameFits(st, n)
    case Ins(src) => st.sec == SEC_CODE && |st.text| + Size(src) <= 262144 && OperandsFit(st, src)
    case Number(width, _) => st.sec in {SEC_CNST, SEC_DATA} && Here(PosOf(st)) + width <= 262144
    case Text(bytes, z) => st.sec in {SEC_CNST, SEC_DATA} && Here(PosOf(st)) + |bytes| + One(z) <= 262144
  }

  /** Within the limits of its tables. */
  ghost predicate InLimits(st: State) { Good(st) && |st.patches| <= 1024 && |st.rels| <= 2048 }

  lemma CodeRefFits(st: State, n: Name)
    requires InLimits(st)
    ensures RefCode(st, n).Ok? <==>
              && |st.text| + 4 <= 262144 && |st.patches| + One(Pending(st, n)) <= 1024
              && |st.rels| + One(Imported(st, n)) <= 2048
    ensures RefCode(st, n).Ok? ==>
              var s := RefCode(st, n).v;
              && InLimits(s) && s.labels == st.labels && s.sec == st.sec && |s.text| == |st.text| + 4
              && |s.patches| == |st.patches| + One(Pending(st, n)) && |s.rels| == |st.rels| + One(Imported(st, n))
  {
    hide Le;
    var i := Find(st.labels, n);
    if i < |st.labels| { assert st.labels[i] in st.labels; }
  }

  lemma DataRefFits(st: State, n: Name)
    requires InLimits(st)
    ensures RefData(st, n).Ok? <==>
              && |st.text| + 8 <= 262144 && |st.rels| < 2048 && NameFits(st, n)
              && (StatusOf(Get(st.labels, n)).Placed? || |st.patches| < 1024)
    ensures RefData(st, n).Ok? ==> |RefData(st, n).v.patches| <= 1024 && |RefData(st, n).v.rels| <= 2048
  {
    hide Le;
    var i := Find(st.labels, n);
    if i < |st.labels| {
      assert st.labels[i] in st.labels;
    } else if |st.labels| < MAX_LABELS {
      assert (st.labels + [Label(n, SYM_EXTERN, SEC_NONE, -1)])[i].offset == -1;
    }
  }

  lemma InsFits(st: State, src: Src)
    requires InLimits(st)
    ensures Emit(st, src).Ok? <==> |st.text| + Size(src) <= 262144 && OperandsFit(st, src)
    ensures Emit(st, src).Ok? ==> |Emit(st, src).v.patches| <= 1024 && |Emit(st, src).v.rels| <= 2048
  {
    HeadSize(src);
    hide RefCode, RefData, Head, Get, StatusOf, Pending, Imported, TableOk, NameFits;
    var r := Put(st, Head(src));
    if r.Ok? {
      HeadPut(st, src);
      SameTables(st, r.v);
      match src
      case MovLabel(_, n) => DataRefFits(r.v, n);
      case JumpSrc(_, n) => CodeRefFits(r.v, n);
      case CallrSrc(_, n) => CodeRefFits(r.v, n);
      case CallSrc(a, b) =>
        CodeRefFits(r.v, a);
        if RefCode(r.v, a).Ok? {
          CodeRefFits(RefCode(r.v, a).v, b);
          SameTables(st, RefCode(r.v, a).v);
        }
      case _ =>
    }
  }

  lemma HeadPut(st: State, src: Src)
    requires InLimits(st) && Put(st, Head(src)).Ok?
    ensures var s := Put(st, Head(src)).v;
            && InLimits(s) && s.labels == st.labels && s.patches == st.patches && s.rels == st.rels
            && |s.text| == |st.text| + |Head(src)|
  {
  }

  lemma SameTables(st: State, s: State)
    requires s.labels == st.labels
    ensures forall n :: Pending(s, n) == Pending(st, n) && Imported(s, n) == Imported(st, n)
    ensures forall n :: NameFits(s, n) == NameFits(st, n) && Get(s.labels, n) == Get(st.labels, n)
  {
  }

  /** A line is accepted exactly if it stands in the right kind of section and the tables have room for what it
      adds. */
  lemma LineAcceptedIff(st: State, line: Line)
    requires InLimits(st)
    ensures DoLine(st, line).Ok? <==> LineFits(st, line)
    ensures DoLine(st, line).Ok? ==> InLimits(DoLine(st, line).v)
  {
    hide Emit, OperandsFit, Size, TableOk, Le;
    if DoLine(st, line).Ok? { LineKeeps(st, line, []); }
    match line
    case Ins(src) => InsFits(st, src);
    case Global(n) => NameAdded(st.labels, n);
    case Extern(n) => NameAdded(st.labels, n);
    case LabelDef(n) => NameAdded(st.labels, n);
    case _ =>
  }

  lemma NameAdded(ls: seq<Label>, n: Name)
    ensures Find(ls, n) < |ls| <==> Get(ls, n).Some?
  {
  }

  /** Every line fits in the state the lines before it leave. */
  predicate AllFit(st: State, lines: seq<Line>)
    decreases |lines|
  {
    lines == [] || (LineFits(st, lines[0]) && DoLine(st, lines[0]).Ok? && AllFit(DoLine(st, lines[0]).v, lines[1..]))
  }

  lemma {:induction false} AllAcceptedIff(st: State, lines: seq<Line>)
    requires InLimits(st)
    ensures DoLines(st, lines).Ok? <==> AllFit(st, lines)
    ensures DoLines(st, lines).Ok? ==> InLimits(DoLines(st, lines).v)
    decreases |lines|
  {
    if lines != [] {
      LineAcceptedIff(st, lines[0]);
      hide DoLine, LineFits, InLimits;
      if DoLine(st, lines[0]).Ok? { AllAcceptedIff(DoLine(st, lines[0]).v, lines[1..]); }
    }
  }

  /** The assembler accepts exactly the sources all of whose lines fit and whose unresolved references are to extern
      labels or labels defined after all; and what it accepts is within the limits of the object format. */
  lemma AcceptedIff(lines: seq<Line>)
    ensures DoLines(Init(), lines).Ok? <==> AllFit(Init(), lines)
    ensures Assemble(lines).Ok? <==>
              && AllFit(Init(), lines)
              && forall p :: p in DoLines(Init(), lines).v.patches ==>
                   match Get(DoLines(Init(), lines).v.labels, p.name)
                   case None => false
                   case Some(l) => l.flags == SYM_EXTERN || (l.offset >= 0 && (p.is64 || l.section == SEC_CODE))
    ensures Assemble(lines).Ok? ==>
              var p := ToProg(Assemble(lines).v);
              && |p.code| <= 262144 && |p.data| <= 262144 && |p.cnst| <= 262144
              && |p.syms| <= 512 && |p.rels| <= 2048
  {
    AllAcceptedIff(Init(), lines);
    hide DoLines, AllFit;
  }
}
