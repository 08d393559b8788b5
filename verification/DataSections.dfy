/** What an assembled object holds in its data sections, told over the source lines. */
module DataSections {
  import opened Words
  import opened Isa
  import opened Objects
  import opened Asm
  import opened Labels
  import opened TwoPass
  import Relocs

  /** w is what the directive stands for: as many bytes as its width, with the number's residue as little-endian
      value; the characters of a string in order, then one 0 if it is terminated. */
  ghost predicate StandsIn(line: Line, w: seq<byte>) {
    match line
    case Number(width, v) => |w| == width && FromLe(w) == v % Pow256(width)
    case Text(bytes, true) => |w| == |bytes| + 1 && w[..|bytes|] == bytes && w[|bytes|] == 0
    case Text(bytes, false) => w == bytes
    case _ => w == []
  }

  /** The bytes of one line. */
  function Piece(line: Line): (w: seq<byte>)
    ensures StandsIn(line, w)
  {
    match line
    case Number(width, v) => LeTruncates(width, v); Le(width, v)
    case Text(bytes, z) => bytes + if z then [0] else []
    case _ => []
  }

  /** Two little-endian strings of a width with the same value are the same. */
  lemma StandsInUnique(line: Line, w: seq<byte>)
    requires StandsIn(line, w)
    ensures w == Piece(line)
  {
    var v := Piece(line);
    match line
    case Number(width, n) =>
      LeFromLe(w);
      LeFromLe(v);
    case Text(bytes, z) =>
      assert w == w[..|bytes|] + w[|bytes|..];
    case _ =>
  }

  /** The section a line after these lies in. */
  function SectionAfter(sec: byte, lines: seq<Line>): byte
    decreases |lines|
  {
    if lines == [] then sec else SectionAfter(if lines[0].Section? then lines[0].sec else sec, lines[1..])
  }

  /** The directives of section `sec` put one behind the other, the first lines lying in section `cur`. */
  function Contents(cur: byte, lines: seq<Line>, sec: byte): seq<byte>
    decreases |lines|
  {
    if lines == [] then []
    else (if cur == sec then Piece(lines[0]) else [])
         + Contents(if lines[0].Section? then lines[0].sec else cur, lines[1..], sec)
  }

  function DataOf(st: State, sec: byte): seq<byte> { if sec == SEC_DATA then st.data else st.cnst }

  lemma EmitLeavesData(st: State, src: Src)
    requires Emit(st, src).Ok?
    ensures Emit(st, src).v.data == st.data && Emit(st, src).v.cnst == st.cnst && Emit(st, src).v.sec == st.sec
  {
    hide Head, RefCode, RefData;
    var r := Put(st, Head(src));
    if r.Ok? {
      match src
      case MovLabel(_, n) => RefLeavesData(r.v, n);
      case JumpSrc(_, n) => RefLeavesData(r.v, n);
      case CallSrc(a, b) =>
        RefLeavesData(r.v, a);
        RefLeavesData(RefCode(r.v, a).v, b);
      case CallrSrc(_, n) => RefLeavesData(r.v, n);
      case _ =>
    }
  }

  lemma RefLeavesData(st: State, n: Name)
    ensures RefCode(st, n).Ok? ==>
              var s := RefCode(st, n).v; s.data == st.data && s.cnst == st.cnst && s.sec == st.sec
    ensures RefData(st, n).Ok? ==>
              var s := RefData(st, n).v; s.data == st.data && s.cnst == st.cnst && s.sec == st.sec
  {
    hide Le, Define;
  }

  /** One line adds its bytes to the section it lies in, and nothing to the other. */
  lemma LineAdds(st: State, line: Line, sec: byte)
    requires DoLine(st, line).Ok? && sec in {SEC_DATA, SEC_CNST} && st.sec in {SEC_DATA, SEC_CNST, SEC_CODE}
    ensures var s' := DoLine(st, line).v;
            && DataOf(s', sec) == DataOf(st, sec) + (if st.sec == sec then Piece(line) else [])
            && s'.sec == (if line.Section? then line.sec else st.sec) && s'.sec in {SEC_DATA, SEC_CNST, SEC_CODE}
  {
    hide Emit, Le, Define;
    if line.Ins? { EmitLeavesData(st, line.src); }
  }

  lemma {:induction false} RunAdds(st: State, lines: seq<Line>, sec: byte)
    requires DoLines(st, lines).Ok? && sec in {SEC_DATA, SEC_CNST} && st.sec in {SEC_DATA, SEC_CNST, SEC_CODE}
    ensures DataOf(DoLines(st, lines).v, sec) == DataOf(st, sec) + Contents(st.sec, lines, sec)
    ensures DoLines(st, lines).v.sec == SectionAfter(st.sec, lines)
    decreases |lines|
  {
    hide DoLine, DataOf, Piece;
    if lines != [] {
      var s1 := DoLine(st, lines[0]).v;
      LineAdds(st, lines[0], sec);
      RunAdds(s1, lines[1..], sec);
      Assoc(DataOf(st, sec), if st.sec == sec then Piece(lines[0]) else [], Contents(s1.sec, lines[1..], sec));
    } else {
      assert DataOf(st, sec) + [] == DataOf(st, sec);
    }
  }

  /** Both data sections of an assembled object: the directives of the section, in source order. */
  lemma SectionContents(lines: seq<Line>)
    requires Assemble(lines).Ok?
    ensures ToProg(Assemble(lines).v).data == Contents(SEC_CODE, lines, SEC_DATA)
    ensures ToProg(Assemble(lines).v).cnst == Contents(SEC_CODE, lines, SEC_CNST)
  {
    hide DoLines, Contents;
    RunAdds(Init(), lines, SEC_DATA);
    RunAdds(Init(), lines, SEC_CNST);
    Empty(DoLines(Init(), lines).v, Contents(SEC_CODE, lines, SEC_DATA), Contents(SEC_CODE, lines, SEC_CNST));
  }

  lemma Empty(st: State, d: seq<byte>, c: seq<byte>)
    ensures DataOf(Init(), SEC_DATA) + d == d && DataOf(Init(), SEC_CNST) + c == c
    ensures DataOf(st, SEC_DATA) == st.data && DataOf(st, SEC_CNST) == st.cnst
    ensures ToProg(st).data == st.data && ToProg(st).cnst == st.cnst
  {
  }

  // ----- a directive behind its label ----------------------------------------------------------------------

  lemma {:induction false} ContentsSplit(cur: byte, x: seq<Line>, y: seq<Line>, sec: byte)
    ensures Contents(cur, x + y, sec) == Contents(cur, x, sec) + Contents(SectionAfter(cur, x), y, sec)
    decreases |x|
  {
    hide Piece;
    if x == [] {
      assert x + y == y;
    } else {
      var next := if x[0].Section? then x[0].sec else cur;
      assert (x + y)[0] == x[0] && (x + y)[1..] == x[1..] + y;
      ContentsSplit(next, x[1..], y, sec);
      Assoc(if cur == sec then Piece(x[0]) else [], Contents(next, x[1..], sec),
            Contents(SectionAfter(next, x[1..]), y, sec));
    }
  }

  /** Before line k the location counters are the lengths of what the lines so far stand for. */
  lemma CountersMatch(lines: seq<Line>, k: nat)
    requires Assemble(lines).Ok? && k <= |lines|
    ensures var q := PosAfter(START, lines[..k]);
            && q.sec == SectionAfter(SEC_CODE, lines[..k])
            && q.data == |Contents(SEC_CODE, lines[..k], SEC_DATA)|
            && q.cnst == |Contents(SEC_CODE, lines[..k], SEC_CNST)|
  {
    hide DoLines, Contents, SectionAfter, PosAfter, StatusAfter;
    Relocs.PrefixOk(lines, k);
    RunAdds(Init(), lines[..k], SEC_DATA);
    RunAdds(Init(), lines[..k], SEC_CNST);
    RunKeeps(Init(), lines[..k], []);
  }

  lemma {:induction false} FirstDefinition(p: Pos, lines: seq<Line>, k: nat, n: Name)
    requires k < |lines| && lines[k] == LabelDef(n) && forall j :: 0 <= j < k ==> lines[j] != LabelDef(n)
    ensures var q := PosAfter(p, lines[..k]); DefAt(p, lines, n) == Some(Placed(q.sec, Here(q)))
    decreases k
  {
    if k > 0 {
      var rest := lines[1..];
      assert lines[..k][0] == lines[0] && lines[..k][1..] == rest[..k - 1];
      assert forall j :: 0 <= j < k - 1 ==> rest[j] == lines[j + 1];
      FirstDefinition(Advance(p, lines[0]), rest, k - 1, n);
    }
  }

  /** The bytes of line k lie in its section, behind those of the lines before it. */
  lemma DirectiveAt(lines: seq<Line>, k: nat, sec: byte)
    requires k < |lines| && SectionAfter(SEC_CODE, lines[..k]) == sec
    ensures HasAt(Contents(SEC_CODE, lines, sec), |Contents(SEC_CODE, lines[..k], sec)|, Piece(lines[k]))
  {
    hide Piece;
    var rest := lines[k..];
    assert lines == lines[..k] + rest && rest[0] == lines[k];
    ContentsSplit(SEC_CODE, lines[..k], rest, sec);
    var x, y := Contents(SEC_CODE, lines[..k], sec), Contents(sec, rest, sec);
    assert (x + y)[|x|..|x| + |Piece(lines[k])|] == y[..|Piece(lines[k])|];
  }

  /** A directive right behind the first definition of a label: the label ends up in the directive's section, at the
      offset where its bytes lie. */
  lemma LabelledDirective(lines: seq<Line>, k: nat, n: Name, w: seq<byte>) returns (sec: byte, off: nat)
    requires Assemble(lines).Ok? && k + 1 < |lines| && lines[k] == LabelDef(n)
    requires forall j :: 0 <= j < k ==> lines[j] != LabelDef(n)
    requires (lines[k + 1].Number? || lines[k + 1].Text?) && StandsIn(lines[k + 1], w)
    ensures sec in {SEC_DATA, SEC_CNST} && DefAt(START, lines, n) == Some(Placed(sec, off))
    ensures var p := ToProg(Assemble(lines).v);
            HasAt(if sec == SEC_DATA then p.data else p.cnst, off, w)
  {
    hide Assemble, DoLines, Contents, SectionAfter, PosAfter, DefAt, Piece, HasAt, StandsIn;
    sec := SectionAfter(SEC_CODE, lines[..k]);
    off := |Contents(SEC_CODE, lines[..k], sec)|;
    assert lines[..k + 1] == lines[..k] + [lines[k]];
    FirstDefinition(START, lines, k, n);
    CountersMatch(lines, k);
    LabelAddsNothing(lines, k, sec);
    DirectiveInData(lines, k + 1);
    DirectiveAt(lines, k + 1, sec);
    SectionContents(lines);
    StandsInUnique(lines[k + 1], w);
  }

  lemma LabelAddsNothing(lines: seq<Line>, k: nat, sec: byte)
    requires k < |lines| && lines[k].LabelDef?
    ensures Contents(SEC_CODE, lines[..k + 1], sec) == Contents(SEC_CODE, lines[..k], sec)
    ensures SectionAfter(SEC_CODE, lines[..k + 1]) == SectionAfter(SEC_CODE, lines[..k])
  {
    var one := [lines[k]];
    assert lines[..k + 1] == lines[..k] + one && one[1..] == [];
    ContentsSplit(SEC_CODE, lines[..k], one, sec);
    SectionSplit(SEC_CODE, lines[..k], one);
    var cur := SectionAfter(SEC_CODE, lines[..k]);
    assert Contents(cur, one, sec) == (if cur == sec then Piece(lines[k]) else []) + Contents(cur, [], sec);
  }

  lemma {:induction false} SectionSplit(cur: byte, x: seq<Line>, y: seq<Line>)
    ensures SectionAfter(cur, x + y) == SectionAfter(SectionAfter(cur, x), y)
    decreases |x|
  {
    if x == [] {
      assert x + y == y;
    } else {
      assert (x + y)[0] == x[0] && (x + y)[1..] == x[1..] + y;
      SectionSplit(if x[0].Section? then x[0].sec else cur, x[1..], y);
    }
  }

  /** A data directive is accepted in a data section only. */
  lemma DirectiveInData(lines: seq<Line>, k: nat)
    requires Assemble(lines).Ok? && k < |lines| && (lines[k].Number? || lines[k].Text?)
    ensures SectionAfter(SEC_CODE, lines[..k]) in {SEC_DATA, SEC_CNST}
  {
    Relocs.PrefixOk(lines, k);
    Relocs.PrefixOk(lines, k + 1);
    hide DoLines, SectionAfter;
    assert lines[..k + 1] == lines[..k] + [lines[k]];
    Relocs.DoLinesSnoc(Init(), lines[..k], lines[k]);
    RunAdds(Init(), lines[..k], SEC_DATA);
  }
}
