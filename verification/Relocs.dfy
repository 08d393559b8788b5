/** The relocations an assembly leaves: which references get one, in what order, naming which symbol. */
module Relocs {
  import opened Words
  import opened Isa
  import opened Objects
  import opened Asm
  import opened Labels
  import opened TwoPass

  /** A label operand: offset of its field in the text, kind of reference, label. */
  datatype Site = Site(at: nat, kind: byte, name: Name)

  function SitesOf(src: Src, at: nat): seq<Site> {
    match src
    case MovLabel(_, n) => [Site(at + 2, REL_DATA, n)]
    case JumpSrc(_, n) => [Site(at + 1, REL_CODE, n)]
    case CallSrc(ok, err) => [Site(at + 1, REL_CODE, ok), Site(at + 5, REL_CODE, err)]
    case CallrSrc(_, err) => [Site(at + 2, REL_CODE, err)]
    case _ => []
  }

  /** Status of a name just before line k of the source. */
  function Before(lines: seq<Line>, k: nat, name: Name): Status
    requires k <= |lines|
  {
    StatusAfter(Absent, START, lines[..k], name)
  }

  /** A data reference is always relocated; a code reference only if its label is extern at that line. */
  predicate Relocated(lines: seq<Line>, k: nat, s: Site)
    requires k <= |lines|
  {
    s.kind == REL_DATA || Before(lines, k, s.name) == External
  }

  function Chosen(lines: seq<Line>, k: nat, sites: seq<Site>): seq<Site>
    requires k <= |lines|
  {
    if sites == [] then []
    else (if Relocated(lines, k, sites[0]) then [sites[0]] else []) + Chosen(lines, k, sites[1..])
  }

  /** Text offset just before line k. */
  function TextAt(lines: seq<Line>, k: nat): nat
    requires k <= |lines|
  {
    PosAfter(START, lines[..k]).text
  }

  /** The relocated operands of the first k lines, in order. */
  function RelocSites(lines: seq<Line>, k: nat): seq<Site>
    requires k <= |lines|
  {
    if k == 0 then []
    else RelocSites(lines, k - 1) +
         if lines[k - 1].Ins? then Chosen(lines, k - 1, SitesOf(lines[k - 1].src, TextAt(lines, k - 1))) else []
  }

  /** Relocation by relocation: same site, same kind, and its index names the referenced label. */
  ghost predicate Match(rels: seq<Rel>, sites: seq<Site>, ls: seq<Label>) {
    && |rels| == |sites|
    && forall j :: 0 <= j < |rels| ==>
         && rels[j].at == sites[j].at && rels[j].kind == sites[j].kind
         && rels[j].sym < |ls| && ls[rels[j].sym].name == sites[j].name
  }

  lemma MatchExtends(rels: seq<Rel>, sites: seq<Site>, ls: seq<Label>, later: seq<Label>)
    requires Match(rels, sites, ls) && Extends(ls, later)
    ensures Match(rels, sites, later)
  {
  }

  lemma MatchAppend(r1: seq<Rel>, s1: seq<Site>, r2: seq<Rel>, s2: seq<Site>, ls: seq<Label>)
    requires Match(r1, s1, ls) && Match(r2, s2, ls)
    ensures Match(r1 + r2, s1 + s2, ls)
  {
  }

  /** Running a source is running its prefix and then the next line. */
  lemma {:induction false} DoLinesSnoc(st: State, lines: seq<Line>, line: Line)
    ensures DoLines(st, lines + [line]) ==
              match DoLines(st, lines) case Err(e) => Err(e) case Ok(s) => DoLine(s, line)
    decreases |lines|
  {
    hide DoLine;
    if lines == [] {
      assert [line][1..] == [] && [] + [line] == [line];
    } else {
      assert (lines + [line])[1..] == lines[1..] + [line];
      match DoLine(st, lines[0])
      case Err(_) =>
      case Ok(s) => DoLinesSnoc(s, lines[1..], line);
    }
  }

  lemma {:induction false} PrefixOk(lines: seq<Line>, k: nat)
    requires k <= |lines| && DoLines(Init(), lines).Ok?
    ensures DoLines(Init(), lines[..k]).Ok?
    decreases |lines| - k
  {
    if k == |lines| {
      assert lines[..k] == lines;
    } else {
      PrefixOk(lines, k + 1);
      assert lines[..k + 1] == lines[..k] + [lines[k]];
      DoLinesSnoc(Init(), lines[..k], lines[k]);
    }
  }

  // ----- one instruction ---------------------------------------------------------------------

  lemma RefCodeReloc(st: State, n: Name) returns (added: seq<Rel>)
    requires Good(st) && RefCode(st, n).Ok?
    ensures RefCode(st, n).v.rels == st.rels + added
    ensures Match(added, if StatusOf(Get(st.labels, n)) == External then [Site(|st.text|, REL_CODE, n)] else [],
                  st.labels)
  {
    hide Le;
    var i := Find(st.labels, n);
    if i < |st.labels| && st.labels[i].flags == SYM_EXTERN {
      assert st.labels[i] in st.labels;
      added := [Rel(|st.text| % TWO32, i % TWO32, REL_CODE)];
      MatchOne(|st.text|, i, REL_CODE, st.labels, n);
    } else {
      added := [];
    }
  }

  lemma MatchOne(at: nat, i: nat, kind: byte, ls: seq<Label>, n: Name)
    requires at <= BUF_MAX && i < |ls| <= MAX_LABELS && ls[i].name == n
    ensures Match([Rel(at % TWO32, i % TWO32, kind)], [Site(at, kind, n)], ls)
  {
  }

  lemma RefDataReloc(st: State, n: Name) returns (added: seq<Rel>)
    requires Good(st) && RefData(st, n).Ok?
    ensures RefData(st, n).v.rels == st.rels + added
    ensures Match(added, [Site(|st.text|, REL_DATA, n)], RefData(st, n).v.labels)
  {
    hide Le;
    var i, ls := Find(st.labels, n), RefData(st, n).v.labels;
    added := [Rel(|st.text| % TWO32, i % TWO32, REL_DATA)];
    RefDataKeeps(st, n, n);
    hide Put;
    MatchOne(|st.text|, i, REL_DATA, ls, n);
  }

  /** Statuses as the table of a state has them. */
  function ChosenNow(ls: seq<Label>, sites: seq<Site>): seq<Site> {
    if sites == [] then []
    else (if sites[0].kind == REL_DATA || StatusOf(Get(ls, sites[0].name)) == External then [sites[0]] else [])
         + ChosenNow(ls, sites[1..])
  }

  lemma ChosenOne(ls: seq<Label>, s: Site)
    ensures ChosenNow(ls, [s]) ==
              if s.kind == REL_DATA || StatusOf(Get(ls, s.name)) == External then [s] else []
  {
    assert [s][1..] == [];
  }

  lemma ChosenTwo(ls: seq<Label>, s: Site, t: Site)
    ensures ChosenNow(ls, [s, t]) == ChosenNow(ls, [s]) + ChosenNow(ls, [t])
  {
    assert [s, t][1..] == [t] && [s][1..] == [];
  }

  lemma EmitReloc(st: State, src: Src) returns (added: seq<Rel>)
    requires Good(st) && Emit(st, src).Ok?
    ensures Emit(st, src).v.rels == st.rels + added
    ensures Match(added, ChosenNow(st.labels, SitesOf(src, |st.text|)), Emit(st, src).v.labels)
  {
    hide RefCode, RefData, StatusOf, ChosenNow, Match;
    var s1 := Put(st, Head(src)).v;
    assert Good(s1) && s1.labels == st.labels && s1.rels == st.rels;
    match src
    case MovLabel(_, n) =>
      added := RefDataReloc(s1, n);
      ChosenOne(st.labels, Site(|s1.text|, REL_DATA, n));
    case JumpSrc(_, n) =>
      RefCodeKeeps(s1, n);
      added := RefCodeReloc(s1, n);
      ChosenOne(st.labels, Site(|s1.text|, REL_CODE, n));
    case CallrSrc(_, n) =>
      RefCodeKeeps(s1, n);
      added := RefCodeReloc(s1, n);
      ChosenOne(st.labels, Site(|s1.text|, REL_CODE, n));
    case CallSrc(ok, err) =>
      added := CallReloc(st, s1, ok, err);
    case _ =>
      added := [];
      ChosenNone(st.labels);
  }

  lemma ChosenNone(ls: seq<Label>)
    ensures ChosenNow(ls, []) == [] && Match([], [], ls)
  {
  }

  lemma CallReloc(st: State, s1: State, ok: Name, err: Name) returns (added: seq<Rel>)
    requires Good(st) && Put(st, [OP_CALL]) == Ok(s1) && RefCode(s1, ok).Ok? && RefCode(RefCode(s1, ok).v, err).Ok?
    ensures RefCode(RefCode(s1, ok).v, err).v.rels == st.rels + added
    ensures Match(added, ChosenNow(st.labels, SitesOf(CallSrc(ok, err), |st.text|)),
                  RefCode(RefCode(s1, ok).v, err).v.labels)
  {
    hide RefCode, StatusOf, ChosenNow, Match;
    assert Good(s1) && s1.labels == st.labels && s1.rels == st.rels;
    hide Good, Put;
    RefCodeKeeps(s1, ok);
    var s2 := RefCode(s1, ok).v;
    RefCodeKeeps(s2, err);
    var x := RefCodeReloc(s1, ok);
    var y := RefCodeReloc(s2, err);
    added := x + y;
    TwoSites(st.labels, Site(|s1.text|, REL_CODE, ok), Site(|s2.text|, REL_CODE, err), x, y);
    assert (st.rels + x) + y == st.rels + added;
  }

  lemma TwoSites(ls: seq<Label>, a: Site, b: Site, x: seq<Rel>, y: seq<Rel>)
    requires a.kind == REL_CODE && b.kind == REL_CODE
    requires Match(x, if StatusOf(Get(ls, a.name)) == External then [a] else [], ls)
    requires Match(y, if StatusOf(Get(ls, b.name)) == External then [b] else [], ls)
    ensures Match(x + y, ChosenNow(ls, [a, b]), ls)
  {
    hide Match, ChosenNow, StatusOf;
    ChosenOne(ls, a);
    ChosenOne(ls, b);
    ChosenTwo(ls, a, b);
    MatchAppend(x, ChosenNow(ls, [a]), y, ChosenNow(ls, [b]), ls);
  }

  // ----- the whole source ------------------------------------------------------------------------

  lemma {:induction false} ChosenAgrees(lines: seq<Line>, k: nat, ls: seq<Label>, sites: seq<Site>)
    requires k <= |lines| && forall n :: StatusOf(Get(ls, n)) == Before(lines, k, n)
    ensures ChosenNow(ls, sites) == Chosen(lines, k, sites)
  {
    hide StatusOf, Before;
    if sites != [] {
      assert StatusOf(Get(ls, sites[0].name)) == Before(lines, k, sites[0].name);
      ChosenAgrees(lines, k, ls, sites[1..]);
    }
  }

  /** The relocation table is exactly the list of relocated operands, each naming its label. */
  lemma {:induction false} RelocsAreSites(lines: seq<Line>, k: nat)
    requires k <= |lines| && DoLines(Init(), lines[..k]).Ok?
    ensures var st := DoLines(Init(), lines[..k]).v;
            Match(st.rels, RelocSites(lines, k), st.labels)
    decreases k
  {
    if k > 0 {
      hide Match;
      assert lines[..k] == lines[..k - 1] + [lines[k - 1]];
      DoLinesSnoc(Init(), lines[..k - 1], lines[k - 1]);
      RelocsAreSites(lines, k - 1);
      LineReloc(lines, k - 1, DoLines(Init(), lines[..k - 1]).v);
    }
  }

  lemma LineReloc(lines: seq<Line>, k: nat, st: State)
    requires k < |lines| && DoLines(Init(), lines[..k]) == Ok(st) && DoLine(st, lines[k]).Ok?
    requires Match(st.rels, RelocSites(lines, k), st.labels)
    ensures Match(DoLine(st, lines[k]).v.rels, RelocSites(lines, k + 1), DoLine(st, lines[k]).v.labels)
  {
    hide RelocSites, Match, DoLine, StatusOf, Good;
    var s', line := DoLine(st, lines[k]).v, lines[k];
    InitGood();
    RunKeeps(Init(), lines[..k], []);
    LineKeeps(st, line, []);
    MatchExtends(st.rels, RelocSites(lines, k), st.labels, s'.labels);
    LineRels(st, line);
    if line.Ins? {
      InsReloc(lines, k, st, line.src);
    } else {
      NoSites(lines, k);
    }
  }

  lemma LineRels(st: State, line: Line)
    requires DoLine(st, line).Ok?
    ensures line.Ins? ==> DoLine(st, line) == Emit(st, line.src)
    ensures !line.Ins? ==> DoLine(st, line).v.rels == st.rels
  {
    hide Emit, Define;
  }

  lemma NoSites(lines: seq<Line>, k: nat)
    requires k < |lines| && !lines[k].Ins?
    ensures RelocSites(lines, k + 1) == RelocSites(lines, k)
  {
  }

  lemma InsReloc(lines: seq<Line>, k: nat, st: State, src: Src)
    requires k < |lines| && DoLines(Init(), lines[..k]) == Ok(st) && lines[k] == Ins(src)
    requires Good(st) && |st.text| == TextAt(lines, k) && Emit(st, src).Ok?
    requires Match(st.rels, RelocSites(lines, k), Emit(st, src).v.labels)
    ensures Match(Emit(st, src).v.rels, RelocSites(lines, k + 1), Emit(st, src).v.labels)
  {
    hide Match, Emit, StatusOf, SitesOf, Good, TextAt, Before;
    forall n ensures StatusOf(Get(st.labels, n)) == Before(lines, k, n) { TableIsBefore(lines, k, st, n); }
    var sites := SitesOf(src, |st.text|);
    var added := EmitReloc(st, src);
    ChosenAgrees(lines, k, st.labels, sites);
    MatchAppend(st.rels, RelocSites(lines, k), added, Chosen(lines, k, sites), Emit(st, src).v.labels);
  }

  lemma TableIsBefore(lines: seq<Line>, k: nat, st: State, n: Name)
    requires k <= |lines| && DoLines(Init(), lines[..k]) == Ok(st)
    ensures StatusOf(Get(st.labels, n)) == Before(lines, k, n)
  {
    RunKeeps(Init(), lines[..k], n);
  }

  lemma AssembleRelocs(lines: seq<Line>)
    requires Assemble(lines).Ok?
    ensures Match(Assemble(lines).v.rels, RelocSites(lines, |lines|), Assemble(lines).v.labels)
  {
    assert lines[..|lines|] == lines;
    RelocsAreSites(lines, |lines|);
  }

  // ----- sites are ordered, disjoint, and in bounds ---------------------------------------------------

  ghost predicate Ordered(sites: seq<Site>, lo: nat, hi: nat) {
    && (forall j :: 0 <= j < |sites| ==> lo <= sites[j].at && sites[j].at + RelWidth(sites[j].kind) <= hi)
    && (forall i, j :: 0 <= i < j < |sites| ==> sites[i].at + RelWidth(sites[i].kind) <= sites[j].at)
  }

  lemma OrderedAppend(a: seq<Site>, b: seq<Site>, lo: nat, mid: nat, hi: nat)
    requires lo <= mid <= hi && Ordered(a, lo, mid) && Ordered(b, mid, hi)
    ensures Ordered(a + b, lo, hi)
  {
  }

  lemma {:induction false} ChosenOrdered(lines: seq<Line>, k: nat, sites: seq<Site>, lo: nat, hi: nat)
    requires k <= |lines| && Ordered(sites, lo, hi)
    ensures Ordered(Chosen(lines, k, sites), lo, hi)
  {
    hide Relocated;
    if sites != [] {
      var mid := sites[0].at + RelWidth(sites[0].kind);
      assert sites[1..] == [] || sites[1..][0] == sites[1];
      ChosenOrdered(lines, k, sites[1..], mid, hi);
      assert Ordered([sites[0]], lo, mid);
      OrderedAppend([sites[0]], Chosen(lines, k, sites[1..]), lo, mid, hi);
      OrderedWiden(Chosen(lines, k, sites[1..]), lo, mid, hi);
    }
  }

  lemma OrderedWiden(sites: seq<Site>, lo: nat, mid: nat, hi: nat)
    requires lo <= mid && Ordered(sites, mid, hi)
    ensures Ordered([] + sites, lo, hi)
  {
    assert [] + sites == sites;
  }

  lemma SitesInInstruction(src: Src, at: nat)
    ensures Ordered(SitesOf(src, at), at + 1, at + Size(src))
  {
  }

  lemma {:induction false} PosAfterSnoc(p: Pos, lines: seq<Line>, line: Line)
    ensures PosAfter(p, lines + [line]) == Advance(PosAfter(p, lines), line)
    decreases |lines|
  {
    hide Advance;
    if lines == [] {
      assert [line][1..] == [] && [] + [line] == [line];
    } else {
      assert (lines + [line])[1..] == lines[1..] + [line];
      PosAfterSnoc(Advance(p, lines[0]), lines[1..], line);
    }
  }

  /** The counter before and after line k. */
  lemma TextStep(lines: seq<Line>, k: nat)
    requires k < |lines| && DoLines(Init(), lines).Ok?
    ensures TextAt(lines, k + 1) == TextAt(lines, k) + if lines[k].Ins? then Size(lines[k].src) else 0
  {
    assert lines[..k + 1] == lines[..k] + [lines[k]];
    PrefixOk(lines, k + 1);
    PrefixOk(lines, k);
    DoLinesSnoc(Init(), lines[..k], lines[k]);
    RunKeeps(Init(), lines[..k], []);
    PosAfterSnoc(START, lines[..k], lines[k]);
    hide Emit, Define, PosAfter;
  }

  lemma {:induction false} SitesAreOrdered(lines: seq<Line>, k: nat)
    requires k <= |lines| && DoLines(Init(), lines).Ok?
    ensures Ordered(RelocSites(lines, k), 0, TextAt(lines, k))
    decreases k
  {
    hide TextAt, SitesOf, Chosen;
    if k > 0 {
      SitesAreOrdered(lines, k - 1);
      TextStep(lines, k - 1);
      if lines[k - 1].Ins? {
        var sites := SitesOf(lines[k - 1].src, TextAt(lines, k - 1));
        SitesInInstruction(lines[k - 1].src, TextAt(lines, k - 1));
        ChosenOrdered(lines, k - 1, sites, TextAt(lines, k - 1) + 1, TextAt(lines, k));
        OrderedAppend(RelocSites(lines, k - 1), Chosen(lines, k - 1, sites), 0, TextAt(lines, k - 1), TextAt(lines, k));
      }
    }
  }

  /** Relocation sites of an assembled object are in bounds and pairwise disjoint, in increasing order. */
  lemma AssembleSitesOrdered(lines: seq<Line>)
    requires Assemble(lines).Ok?
    ensures SitesOrdered(Assemble(lines).v.rels, |Assemble(lines).v.text|)
  {
    assert lines[..|lines|] == lines;
    AssembleRelocs(lines);
    SitesAreOrdered(lines, |lines|);
    RunKeeps(Init(), lines, []);
  }

  // ----- extern code references --------------------------------------------------------------------------

  lemma {:induction false} ChosenMember(lines: seq<Line>, k: nat, sites: seq<Site>, s: Site)
    requires k <= |lines|
    ensures s in Chosen(lines, k, sites) <==> s in sites && Relocated(lines, k, s)
  {
    if sites != [] {
      ChosenMember(lines, k, sites[1..], s);
    }
  }

  /** s is a relocated operand of line k. */
  predicate SiteOf(lines: seq<Line>, k: nat, s: Site) {
    k < |lines| && lines[k].Ins? && s in SitesOf(lines[k].src, TextAt(lines, k)) && Relocated(lines, k, s)
  }

  lemma {:induction false} SiteMember(lines: seq<Line>, m: nat, s: Site)
    requires m <= |lines|
    ensures s in RelocSites(lines, m) <==> exists k :: 0 <= k < m && SiteOf(lines, k, s)
    decreases m
  {
    hide SiteOf, SitesOf, TextAt, Chosen;
    if m > 0 {
      SiteMember(lines, m - 1, s);
      SiteMemberLast(lines, m - 1, s);
      hide RelocSites;
    }
  }

  lemma SiteMemberLast(lines: seq<Line>, k: nat, s: Site)
    requires k < |lines|
    ensures s in RelocSites(lines, k + 1) <==> s in RelocSites(lines, k) || SiteOf(lines, k, s)
  {
    hide SitesOf, TextAt, Relocated;
    if lines[k].Ins? {
      ChosenMember(lines, k, SitesOf(lines[k].src, TextAt(lines, k)), s);
    }
  }

  lemma {:induction false} TextGrows(lines: seq<Line>, j: nat, k: nat)
    requires j <= k <= |lines| && DoLines(Init(), lines).Ok?
    ensures TextAt(lines, j) <= TextAt(lines, k)
    decreases k - j
  {
    if j < k {
      TextStep(lines, j);
      TextGrows(lines, j + 1, k);
    }
  }

  /** Exactly when an operand of line k is relocated: data references always, code references only if the
      label is already extern there. A code reference that comes before `extern` keeps its zero operand. */
  lemma OperandRelocatedIff(lines: seq<Line>, k: nat, s: Site)
    requires Assemble(lines).Ok? && k < |lines| && lines[k].Ins?
    requires s in SitesOf(lines[k].src, TextAt(lines, k))
    ensures (exists j :: 0 <= j < |Assemble(lines).v.rels| && Assemble(lines).v.rels[j].at == s.at)
              <==> Relocated(lines, k, s)
  {
    var rels, sites := Assemble(lines).v.rels, RelocSites(lines, |lines|);
    AssembleRelocs(lines);
    hide Assemble, Relocated;
    if Relocated(lines, k, s) {
      assert SiteOf(lines, k, s);
      SiteMember(lines, |lines|, s);
      var j :| 0 <= j < |sites| && sites[j] == s;
      assert rels[j].at == s.at;
    }
    if j :| 0 <= j < |rels| && rels[j].at == s.at {
      SiteMember(lines, |lines|, sites[j]);
      var k' :| 0 <= k' < |lines| && SiteOf(lines, k', sites[j]);
      SameOperand(lines, k, s, k', sites[j]);
    }
  }

  lemma SameOperand(lines: seq<Line>, k: nat, s: Site, k': nat, s': Site)
    requires DoLines(Init(), lines).Ok? && k < |lines| && k' < |lines| && lines[k].Ins? && lines[k'].Ins?
    requires s in SitesOf(lines[k].src, TextAt(lines, k)) && s' in SitesOf(lines[k'].src, TextAt(lines, k'))
    requires s.at == s'.at
    ensures k == k' && s == s'
  {
    SitesInInstruction(lines[k].src, TextAt(lines, k));
    SitesInInstruction(lines[k'].src, TextAt(lines, k'));
    TextStep(lines, k);
    TextStep(lines, k');
    hide TextAt, Size, SitesOf;
    if k < k' {
      TextGrows(lines, k + 1, k');
    } else if k' < k {
      TextGrows(lines, k' + 1, k);
    }
  }

  /** Such a source assembles, and its object has no relocation for the call: `jmp f` then `extern f`. */
  lemma LateExternIsNotRelocated()
    ensures var lines := [Ins(JumpSrc(OP_JMP, [102])), Extern([102])];
            && Assemble(lines) == Ok(State([OP_JMP, 0, 0, 0, 0], [], [], [Label([102], SYM_EXTERN, SEC_NONE, -1)],
                                           [Patch([102], 1, false)], [], SEC_CODE))
            && Site(1, REL_CODE, [102]) in SitesOf(lines[0].src, TextAt(lines, 0))
            && !Relocated(lines, 0, Site(1, REL_CODE, [102])) && DefAt(START, lines, [102]) == None
  {
    LateExternAssembles();
    var lines := [Ins(JumpSrc(OP_JMP, [102])), Extern([102])];
    hide Assemble;
    assert lines[..0] == [] && lines[1..] == [Extern([102])] && lines[1..][1..] == [];
    assert DefAt(Advance(START, lines[0]), lines[1..], [102]) == None;
  }

  lemma LateExternAssembles()
    ensures Assemble([Ins(JumpSrc(OP_JMP, [102])), Extern([102])])
         == Ok(State([OP_JMP, 0, 0, 0, 0], [], [], [Label([102], SYM_EXTERN, SEC_NONE, -1)],
                     [Patch([102], 1, false)], [], SEC_CODE))
  {
    var lines := [Ins(JumpSrc(OP_JMP, [102])), Extern([102])];
    var l := Label([102], SYM_EXTERN, SEC_NONE, -1);
    var s1 := State([OP_JMP, 0, 0, 0, 0], [], [], [], [Patch([102], 1, false)], [], SEC_CODE);
    var s2 := s1.(labels := [l]);
    JumpLine();
    ExternLine(s1, l);
    assert lines[1..] == [lines[1]] && lines[1..][1..] == [];
    hide DoLine, Le, Resolvable;
    assert DoLines(s2, []) == Ok(s2);
    assert DoLines(s1, lines[1..]) == Ok(s2);
    assert DoLines(Init(), lines) == Ok(s2);
    ExternPatch(l, s2.text);
  }

  lemma JumpLine()
    ensures DoLine(Init(), Ins(JumpSrc(OP_JMP, [102])))
         == Ok(State([OP_JMP, 0, 0, 0, 0], [], [], [], [Patch([102], 1, false)], [], SEC_CODE))
  {
    ZeroWord();
    hide Le;
    var h := Init().(text := [OP_JMP]);
    var noPatch: seq<Patch> := [];
    assert noPatch + [Patch([102], 1, false)] == [Patch([102], 1, false)];
    assert [] + [OP_JMP as byte] == [OP_JMP] && [OP_JMP as byte] + [0, 0, 0, 0] == [OP_JMP, 0, 0, 0, 0];
    assert Put(Init(), [OP_JMP]) == Ok(h);
    assert RefCode(h, [102])
        == Ok(State([OP_JMP, 0, 0, 0, 0], [], [], [], [Patch([102], 1, false)], [], SEC_CODE));
  }

  lemma ZeroWord()
    ensures Le(4, 0) == [0, 0, 0, 0]
  {
    assert Le(3, 0) == [0] + Le(2, 0) && Le(2, 0) == [0, 0];
  }

  lemma ExternLine(st: State, l: Label)
    requires st.labels == [] && l == Label([102], SYM_EXTERN, SEC_NONE, -1)
    ensures DoLine(st, Extern([102])) == Ok(st.(labels := [l]))
  {
    var none: seq<Label> := [];
    assert none + [l] == [l];
  }

  /** The patch of an extern label is accepted and left alone. */
  lemma ExternPatch(l: Label, text: seq<byte>)
    requires l == Label([102], SYM_EXTERN, SEC_NONE, -1)
    ensures Resolvable(Patch([102], 1, false), [l]) && PatchAll(text, [Patch([102], 1, false)], [l]) == text
  {
    FindUnique([l], [102], 0);
    var ps := [Patch([102], 1, false)];
    assert ps[..0] == [] && PatchAll(text, [], [l]) == text;
    hide Find;
  }
}
