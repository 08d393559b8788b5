/** The label table over a run of the assembler: what each line does to each name. */
module Labels {
  import opened Words
  import opened Isa
  import opened Objects
  import opened Asm

  /** The entry a name denotes: the first one. */
  function Get(ls: seq<Label>, name: Name): (r: Option<Label>)
    ensures r.Some? ==> r.value.name == name && r.value in ls
  {
    var i := Find(ls, name);
    if i < |ls| then Some(ls[i]) else None
  }

  predicate Defined(l: Label) { l.offset >= 0 }

  ghost predicate Distinct(ls: seq<Label>) {
    forall i, j :: 0 <= i < j < |ls| ==> ls[i].name != ls[j].name
  }

  /** The kind is known, the offset is -1 or real, an extern label is undefined, and a defined one is in a
      section. */
  ghost predicate EntryOk(l: Label) {
    && l.flags in {SYM_LOCAL, SYM_GLOBAL, SYM_EXTERN}
    && -1 <= l.offset <= BUF_MAX
    && (l.flags == SYM_EXTERN ==> l.offset == -1 && l.section == SEC_NONE)
    && (Defined(l) ==> l.section in {SEC_CNST, SEC_DATA, SEC_CODE})
  }

  ghost predicate TableOk(ls: seq<Label>) {
    |ls| <= MAX_LABELS && Distinct(ls) && forall l :: l in ls ==> EntryOk(l)
  }

  /** Indices are stable, and a defined label keeps its section and offset for good. */
  ghost predicate Extends(ls: seq<Label>, later: seq<Label>) {
    && |ls| <= |later|
    && forall i :: 0 <= i < |ls| ==>
         && later[i].name == ls[i].name
         && (Defined(ls[i]) ==> later[i].offset == ls[i].offset && later[i].section == ls[i].section)
  }

  lemma ExtendsTransitive(a: seq<Label>, b: seq<Label>, c: seq<Label>)
    requires Extends(a, b) && Extends(b, c)
    ensures Extends(a, c)
  {
    forall i | 0 <= i < |a|
      ensures c[i].name == a[i].name
      ensures Defined(a[i]) ==> c[i].offset == a[i].offset && c[i].section == a[i].section
    {
      assert b[i].name == a[i].name;
    }
  }

  lemma FindUnique(ls: seq<Label>, name: Name, i: nat)
    requires i <= |ls| && (i < |ls| ==> ls[i].name == name)
    requires forall k :: 0 <= k < i ==> ls[k].name != name
    ensures Find(ls, name) == i
  {
    var j := Find(ls, name);
  }

  lemma DistinctUpdate(ls: seq<Label>, i: nat, l: Label)
    requires Distinct(ls) && i < |ls| && ls[i].name == l.name
    ensures Distinct(ls[i := l])
  {
  }

  lemma DistinctAppend(ls: seq<Label>, l: Label)
    requires Distinct(ls) && Find(ls, l.name) == |ls|
    ensures Distinct(ls + [l])
  {
  }

  /** With distinct names every entry is the one its name denotes. */
  lemma GetAt(ls: seq<Label>, i: nat)
    requires Distinct(ls) && i < |ls|
    ensures Get(ls, ls[i].name) == Some(ls[i])
  {
    FindUnique(ls, ls[i].name, i);
  }

  lemma GetUpdate(ls: seq<Label>, i: nat, l: Label, name: Name)
    requires i < |ls| && Find(ls, l.name) == i
    ensures Get(ls[i := l], name) == if name == l.name then Some(l) else Get(ls, name)
  {
    FindUnique(ls[i := l], name, Find(ls, name));
  }

  lemma GetAppend(ls: seq<Label>, l: Label, name: Name)
    requires Find(ls, l.name) == |ls|
    ensures Get(ls + [l], name) == if name == l.name then Some(l) else Get(ls, name)
  {
    if name == l.name {
      FindUnique(ls + [l], name, |ls|);
    } else if Find(ls, name) < |ls| {
      FindUnique(ls + [l], name, Find(ls, name));
    } else {
      FindUnique(ls + [l], name, |ls| + 1);
    }
  }

  lemma GetExtended(ls: seq<Label>, later: seq<Label>, name: Name)
    requires Extends(ls, later) && Get(ls, name).Some?
    ensures Find(later, name) == Find(ls, name) && Get(later, name).Some?
    ensures Defined(Get(ls, name).value) ==>
              && Get(later, name).value.offset == Get(ls, name).value.offset
              && Get(later, name).value.section == Get(ls, name).value.section
  {
    FindUnique(later, name, Find(ls, name));
  }

  /** label_define fills an undefined entry, keeps a defined one, or appends. */
  lemma DefineEffect(ls: seq<Label>, name: Name, flags: byte, sec: byte, off: int, name': Name)
    requires TableOk(ls) && -1 <= off <= BUF_MAX && flags in {SYM_LOCAL, SYM_GLOBAL, SYM_EXTERN}
    requires flags == SYM_EXTERN ==> off == -1 && sec == SEC_NONE
    requires off >= 0 ==> sec in {SEC_CNST, SEC_DATA, SEC_CODE}
    requires Define(ls, name, flags, sec, off).Ok?
    ensures var ls' := Define(ls, name, flags, sec, off).v;
            && TableOk(ls') && Extends(ls, ls')
            && Get(ls', name') ==
                 if name' == name && !(Get(ls, name).Some? && Defined(Get(ls, name).value))
                 then Some(Label(name, flags, sec, off)) else Get(ls, name')
  {
    hide Distinct, Extends, TableOk;
    var i, l := Find(ls, name), Label(name, flags, sec, off);
    ExtendsSelf(ls);
    if i < |ls| {
      TableEntry(ls, i);
      GetUpdate(ls, i, l, name');
      if !Defined(ls[i]) { TableUpdate(ls, i, l); }
    } else {
      GetAppend(ls, l, name');
      if |ls| < MAX_LABELS { TableAppend(ls, l); }
    }
  }

  lemma TableEntry(ls: seq<Label>, i: nat)
    requires TableOk(ls) && i < |ls|
    ensures ls[i].flags == SYM_EXTERN ==> !Defined(ls[i])
    ensures -1 <= ls[i].offset
  {
    assert ls[i] in ls;
  }

  lemma TableUpdate(ls: seq<Label>, i: nat, l: Label)
    requires TableOk(ls) && i < |ls| && ls[i].name == l.name && !Defined(ls[i]) && EntryOk(l)
    ensures TableOk(ls[i := l]) && Extends(ls, ls[i := l])
  {
    DistinctUpdate(ls, i, l);
    hide Distinct;
    forall k | k in ls[i := l] ensures k == l || k in ls { }
  }

  lemma TableAppend(ls: seq<Label>, l: Label)
    requires TableOk(ls) && |ls| < MAX_LABELS && Find(ls, l.name) == |ls| && EntryOk(l)
    ensures TableOk(ls + [l]) && Extends(ls, ls + [l])
  {
    DistinctAppend(ls, l);
    hide Distinct;
  }

  // ----- per-name life cycle -----------------------------------------------------------------

  /** Absent: never mentioned. External: extern, or first met in a data reference.
      Declared: `global` without a definition. */
  datatype Status = Absent | External | Declared | Placed(sec: byte, off: nat)

  function StatusOf(r: Option<Label>): Status {
    match r
    case None => Absent
    case Some(l) =>
      if l.offset >= 0 then Placed(l.section, l.offset)
      else if l.flags == SYM_EXTERN then External
      else Declared
  }

  /** Position of the next byte. */
  datatype Pos = Pos(sec: byte, text: nat, data: nat, cnst: nat)

  function Here(p: Pos): nat {
    if p.sec == SEC_CNST then p.cnst else if p.sec == SEC_DATA then p.data else p.text
  }

  /** Encoded size of an instruction: it does not depend on any label. */
  function Size(src: Src): nat {
    match src
    case RegRegSrc(_, _, _) => 2
    case ImmSrc(_, _, _) => 10
    case MemSrc(_, _, _, off) => if U32(off) != 0 then 6 else 2
    case EnterSrc(_) => 3
    case BareSrc(_) => 1
    case LeaSrc(_, _, _) => 6
    case MovLabel(_, _) => 10
    case JumpSrc(_, _) => 5
    case CallSrc(_, _) => 9
    case CallrSrc(_, _) => 6
  }

  /** Bytes a line adds to the current section. */
  function Bytes(line: Line): nat {
    match line
    case Ins(src) => Size(src)
    case Number(width, _) => width
    case Text(bytes, z) => |bytes| + if z then 1 else 0
    case _ => 0
  }

  /** Location counters after a line. */
  function Advance(p: Pos, line: Line): Pos {
    var n := Bytes(line);
    Pos(if line.Section? then line.sec else p.sec,
        if p.sec != SEC_CNST && p.sec != SEC_DATA then p.text + n else p.text,
        if p.sec == SEC_DATA then p.data + n else p.data,
        if p.sec == SEC_CNST then p.cnst + n else p.cnst)
  }

  function NextStatus(s: Status, p: Pos, line: Line, name: Name): Status {
    match line
    case LabelDef(n) => if n == name && !s.Placed? then Placed(p.sec, Here(p)) else s
    case Global(n) => if n == name && !s.Placed? then Declared else s
    case Extern(n) => if n == name && !s.Placed? then External else s
    case Ins(MovLabel(_, n)) => if n == name && s == Absent then External else s
    case _ => s
  }

  function PosOf(st: State): Pos { Pos(st.sec, |st.text|, |st.data|, |st.cnst|) }

  /** What holds between lines. */
  ghost predicate Good(st: State) {
    && TableOk(st.labels)
    && |st.text| <= BUF_MAX && |st.data| <= BUF_MAX && |st.cnst| <= BUF_MAX
    && st.sec in {SEC_CNST, SEC_DATA, SEC_CODE}
    && (forall p :: p in st.patches ==> p.at + (if p.is64 then 8 else 4) <= |st.text|)
  }

  // ----- effect of the emitters ------------------------------------------------------------------

  lemma RefCodeKeeps(st: State, name: Name)
    requires Good(st) && RefCode(st, name).Ok?
    ensures var s' := RefCode(st, name).v;
            && Good(s') && s'.labels == st.labels && s'.sec == st.sec
            && s'.data == st.data && s'.cnst == st.cnst && |s'.text| == |st.text| + 4
  {
  }

  lemma RefDataKeeps(st: State, name: Name, name': Name)
    requires Good(st) && RefData(st, name).Ok?
    ensures var s' := RefData(st, name).v;
            && Good(s') && Extends(st.labels, s'.labels) && s'.sec == st.sec
            && s'.data == st.data && s'.cnst == st.cnst && |s'.text| == |st.text| + 8
            && Get(s'.labels, name') ==
                 if name' == name && Get(st.labels, name) == None
                 then Some(Label(name, SYM_EXTERN, SEC_NONE, -1)) else Get(st.labels, name')
  {
    hide Define, TableOk, Extends;
    ExtendsSelf(st.labels);
    if Find(st.labels, name) == |st.labels| && Define(st.labels, name, SYM_EXTERN, SEC_NONE, -1).Ok? {
      DefineEffect(st.labels, name, SYM_EXTERN, SEC_NONE, -1, name');
    }
  }

  lemma HeadSize(src: Src)
    ensures |Head(src)| + (match src case MovLabel(_, _) => 8 case JumpSrc(_, _) => 4 case CallSrc(_, _) => 8
                           case CallrSrc(_, _) => 4 case _ => 0) == Size(src)
  {
  }

  lemma EmitKeeps(st: State, src: Src, name: Name)
    requires Good(st) && Emit(st, src).Ok?
    ensures var s' := Emit(st, src).v;
            && Good(s') && Extends(st.labels, s'.labels) && s'.sec == st.sec
            && s'.data == st.data && s'.cnst == st.cnst && |s'.text| == |st.text| + Size(src)
            && StatusOf(Get(s'.labels, name)) == NextStatus(StatusOf(Get(st.labels, name)), PosOf(st), Ins(src), name)
  {
    hide RefCode, RefData, Head;
    HeadSize(src);
    var s1 := Put(st, Head(src)).v;
    assert Good(s1) && s1.labels == st.labels;
    match src
    case MovLabel(_, n) => RefDataKeeps(s1, n, name);
    case JumpSrc(_, n) => RefCodeKeeps(s1, n);
    case CallSrc(ok, err) =>
      RefCodeKeeps(s1, ok);
      RefCodeKeeps(RefCode(s1, ok).v, err);
    case CallrSrc(_, n) => RefCodeKeeps(s1, n);
    case _ =>
  }

  /** One line: labels extend, location counters advance, and each name follows its life cycle. */
  lemma LineKeeps(st: State, line: Line, name: Name)
    requires Good(st) && DoLine(st, line).Ok?
    ensures var s' := DoLine(st, line).v;
            && Good(s') && Extends(st.labels, s'.labels)
            && PosOf(s') == Advance(PosOf(st), line)
            && StatusOf(Get(s'.labels, name)) == NextStatus(StatusOf(Get(st.labels, name)), PosOf(st), line, name)
  {
    hide Emit, DeclareGlobal, DefineHere, Define, PutData, Head, Size, Get, StatusOf, Extends, TableOk;
    match line
    case Ins(src) => EmitKeeps(st, src, name);
    case Global(n) => DeclareGlobalKeeps(st, n, name);
    case Extern(n) => ExternKeeps(st, n, name);
    case LabelDef(n) => DefineHereKeeps(st, n, name);
    case Number(width, v) => PutDataKeeps(st, line, Le(width, v)); ExtendsSelf(st.labels);
    case Text(bytes, z) => PutDataKeeps(st, line, bytes + if z then [0] else []); ExtendsSelf(st.labels);
    case Section(_) => ExtendsSelf(st.labels);
  }

  lemma ExternKeeps(st: State, n: Name, name: Name)
    requires Good(st) && DoLine(st, Extern(n)).Ok?
    ensures var s' := DoLine(st, Extern(n)).v;
            && Good(s') && Extends(st.labels, s'.labels) && PosOf(s') == PosOf(st)
            && StatusOf(Get(s'.labels, name))
               == NextStatus(StatusOf(Get(st.labels, name)), PosOf(st), Extern(n), name)
  {
    hide Define, Get;
    DefineEffect(st.labels, n, SYM_EXTERN, SEC_NONE, -1, name);
  }

  lemma PutDataKeeps(st: State, line: Line, w: seq<byte>)
    requires Good(st) && PutData(st, w).Ok? && !line.Section? && Bytes(line) == |w|
    ensures var s' := PutData(st, w).v;
            Good(s') && s'.labels == st.labels && PosOf(s') == Advance(PosOf(st), line)
  {
  }

  lemma DefineHereKeeps(st: State, n: Name, name: Name)
    requires Good(st) && DefineHere(st, n).Ok?
    ensures var s' := DefineHere(st, n).v;
            && Good(s') && Extends(st.labels, s'.labels) && PosOf(s') == PosOf(st)
            && StatusOf(Get(s'.labels, name))
               == NextStatus(StatusOf(Get(st.labels, name)), PosOf(st), LabelDef(n), name)
  {
    hide Define;
    var i := Find(st.labels, n);
    var flags := if i < |st.labels| && st.labels[i].flags == SYM_GLOBAL then SYM_GLOBAL else SYM_LOCAL;
    DefineEffect(st.labels, n, flags, st.sec, CurLen(st), name);
  }

  lemma DeclareGlobalKeeps(st: State, n: Name, name: Name)
    requires Good(st) && DeclareGlobal(st, n).Ok?
    ensures var s' := DeclareGlobal(st, n).v;
            && Good(s') && Extends(st.labels, s'.labels) && PosOf(s') == PosOf(st)
            && StatusOf(Get(s'.labels, name)) == NextStatus(StatusOf(Get(st.labels, name)), PosOf(st), Global(n), name)
  {
    var ls, i := st.labels, Find(st.labels, n);
    if i < |ls| {
      assert ls[i] in ls;
      var l := ls[i].(flags := SYM_GLOBAL);
      GetUpdate(ls, i, l, name);
      DistinctUpdate(ls, i, l);
      hide Distinct;
      forall k | k in ls[i := l] ensures k == l || k in ls { }
    } else {
      DefineEffect(ls, n, SYM_GLOBAL, st.sec, -1, name);
    }
  }

  // ----- over a whole source -----------------------------------------------------------------------

  function StatusAfter(s: Status, p: Pos, lines: seq<Line>, name: Name): Status
    decreases |lines|, name
  {
    if lines == [] then s
    else StatusAfter(NextStatus(s, p, lines[0], name), Advance(p, lines[0]), lines[1..], name)
  }

  function PosAfter(p: Pos, lines: seq<Line>): Pos
    decreases |lines|
  {
    if lines == [] then p else PosAfter(Advance(p, lines[0]), lines[1..])
  }

  /** Label-table monotonicity over any source, and the final status of every name. */
  lemma {:induction false} RunKeeps(st: State, lines: seq<Line>, name: Name)
    requires Good(st) && DoLines(st, lines).Ok?
    ensures var s' := DoLines(st, lines).v;
            && Good(s') && Extends(st.labels, s'.labels)
            && PosOf(s') == PosAfter(PosOf(st), lines)
            && StatusOf(Get(s'.labels, name)) == StatusAfter(StatusOf(Get(st.labels, name)), PosOf(st), lines, name)
    decreases |lines|
  {
    hide DoLine, Good;
    if lines != [] {
      LineKeeps(st, lines[0], name);
      var s1 := DoLine(st, lines[0]).v;
      RunKeeps(s1, lines[1..], name);
      ExtendsTransitive(st.labels, s1.labels, DoLines(st, lines).v.labels);
    } else {
      ExtendsSelf(st.labels);
    }
  }

  lemma ExtendsSelf(ls: seq<Label>)
    ensures Extends(ls, ls)
  {
  }

  /** The first definition of a name, if any: where the location counters stood at its line. */
  function DefAt(p: Pos, lines: seq<Line>, name: Name): (r: Option<Status>)
    ensures r.Some? ==> r.value.Placed?
    decreases |lines|, name
  {
    if lines == [] then None
    else if lines[0] == LabelDef(name) then Some(Placed(p.sec, Here(p)))
    else DefAt(Advance(p, lines[0]), lines[1..], name)
  }

  /** The first definition wins: later labels of the same name, and any declarations, change nothing. */
  lemma {:induction false} StatusIsFirstDefinition(s: Status, p: Pos, lines: seq<Line>, name: Name)
    ensures StatusAfter(s, p, lines, name).Placed? <==> s.Placed? || DefAt(p, lines, name).Some?
    ensures s.Placed? ==> StatusAfter(s, p, lines, name) == s
    ensures !s.Placed? && DefAt(p, lines, name).Some? ==>
              Some(StatusAfter(s, p, lines, name)) == DefAt(p, lines, name)
    decreases |lines|
  {
    if lines != [] {
      StatusIsFirstDefinition(NextStatus(s, p, lines[0], name), Advance(p, lines[0]), lines[1..], name);
    }
  }
}
