/** Laws of linking: the merged-table invariant and incremental linking. */
module LinkLaws {
  import opened Words
  import opened Objects
  import opened Linker

  // ----- merged-table invariant --------------------------------------------------------------

  /** A global is the first symbol of its name: so at most one global per name, and it is the one a lookup
      finds. */
  ghost predicate GlobalsFirst(ms: seq<Sym>) {
    forall i :: 0 <= i < |ms| && ms[i].flags == SYM_GLOBAL ==> FindSym(ms, ms[i].name) == i
  }

  ghost predicate TableOk(ms: seq<Sym>) {
    && |ms| <= MAX_SYMS && GlobalsFirst(ms)
    && forall i :: 0 <= i < |ms| ==> ms[i].flags != SYM_EXTERN
  }

  lemma FindUnique(ms: seq<Sym>, name: Name, i: nat)
    requires i <= |ms| && (i < |ms| ==> ms[i].name == name)
    requires forall k :: 0 <= k < i ==> ms[k].name != name
    ensures FindSym(ms, name) == i
  {
    var j := FindSym(ms, name);
  }

  /** Names at existing indices never change, and the table only grows. */
  ghost predicate SameNames(ms: seq<Sym>, later: seq<Sym>) {
    |ms| <= |later| && forall i :: 0 <= i < |ms| ==> later[i].name == ms[i].name
  }

  lemma FindKept(ms: seq<Sym>, later: seq<Sym>, name: Name)
    requires SameNames(ms, later) && FindSym(ms, name) < |ms|
    ensures FindSym(later, name) == FindSym(ms, name)
  {
    FindUnique(later, name, FindSym(ms, name));
  }

  lemma AddSymKeeps(ms: seq<Sym>, s: Sym)
    requires TableOk(ms) && s.flags != SYM_EXTERN && AddSym(ms, s).Added?
    ensures TableOk(AddSym(ms, s).syms) && SameNames(ms, AddSym(ms, s).syms)
    ensures -1 <= AddSym(ms, s).at < |AddSym(ms, s).syms|
    ensures AddSym(ms, s).at >= 0 ==> AddSym(ms, s).syms[AddSym(ms, s).at] == s
  {
    var ms' := AddSym(ms, s).syms;
    forall i | 0 <= i < |ms'| && ms'[i].flags == SYM_GLOBAL ensures FindSym(ms', ms'[i].name) == i {
      if i < |ms| {
        if ms[i].flags == SYM_GLOBAL { FindUnique(ms', ms'[i].name, i); }
        else { FindUnique(ms', ms'[i].name, i); }
      } else {
        FindUnique(ms', ms'[i].name, i);
      }
    }
  }

  lemma {:induction false} MergeSymsKeeps(ms: seq<Sym>, b: Bases, syms: seq<Sym>)
    requires TableOk(ms) && MergeSyms(ms, b, syms).Some?
    ensures TableOk(MergeSyms(ms, b, syms).value.syms) && SameNames(ms, MergeSyms(ms, b, syms).value.syms)
    decreases |syms|
  {
    hide AddSym, TableOk;
    if syms != [] {
      if syms[0].flags == SYM_EXTERN {
        MergeSymsKeeps(ms, b, syms[1..]);
      } else {
        AddSymKeeps(ms, Adjust(syms[0], b));
        MergeSymsKeeps(AddSym(ms, Adjust(syms[0], b)).syms, b, syms[1..]);
      }
    }
  }

  /** The invariant holds throughout pass 3, over any objects. */
  lemma {:induction false} MergeKeeps(ms: seq<Sym>, b: Bases, objs: seq<Prog>)
    requires TableOk(ms) && MergeFrom(ms, b, objs).Some?
    ensures TableOk(MergeFrom(ms, b, objs).value.syms) && SameNames(ms, MergeFrom(ms, b, objs).value.syms)
    decreases |objs|
  {
    hide MergeSyms, TableOk;
    if objs != [] {
      MergeSymsKeeps(ms, b, objs[0].syms);
      MergeKeeps(MergeSyms(ms, b, objs[0].syms).value.syms, After(b, objs[0]), objs[1..]);
    }
  }

  // ----- relinking -----------------------------------------------------------------------------

  function Identity(k: nat, n: nat): (m: seq<int>)
    requires k <= n
    ensures |m| == n - k && forall i :: 0 <= i < |m| ==> m[i] == k + i
    decreases n - k
  {
    if k == n then [] else [k] + Identity(k + 1, n)
  }

  /** A linked table merged again, from base 0, is itself with the identity map. */
  lemma {:induction false} RemergeIdentity(ms: seq<Sym>, k: nat)
    requires TableOk(ms) && k <= |ms|
    ensures MergeSyms(ms[..k], ZERO, ms[k..]) == Some(Merged(ms, Identity(k, |ms|)))
    decreases |ms| - k
  {
    if k < |ms| {
      var s := ms[k];
      assert Adjust(s, ZERO) == s;
      assert ms[k..][0] == s && ms[k..][1..] == ms[k + 1..];
      assert ms[..k] + [s] == ms[..k + 1];
      if s.flags == SYM_GLOBAL {
        assert FindSym(ms, s.name) == k;
        FindUnique(ms[..k], s.name, k);
      }
      assert AddSym(ms[..k], s) == Added(ms[..k + 1], k);
      RemergeIdentity(ms, k + 1);
    } else {
      assert ms[..k] == ms && ms[k..] == [];
    }
  }

  /** No global symbol without a section (the assembler never writes one). */
  ghost predicate GlobalsPlaced(objs: seq<Prog>) {
    forall o, s :: o in objs && s in o.syms && s.flags == SYM_GLOBAL ==> s.section != SEC_NONE
  }

  /** Pass 3 over P then S. */
  lemma {:induction false} MergeSplit(ms: seq<Sym>, b: Bases, p: seq<Prog>, s: seq<Prog>)
    ensures MergeFrom(ms, b, p + s) ==
              match MergeFrom(ms, b, p)
              case None => None
              case Some(m) =>
                match MergeFrom(m.syms, BasesAfter(b, p), s)
                case None => None
                case Some(r) => Some(MergedAll(r.syms, m.maps + r.maps))
    decreases |p|
  {
    hide MergeSyms;
    if p == [] {
      assert p + s == s;
      match MergeFrom(ms, b, s)
      case None =>
      case Some(r) => assert [] + r.maps == r.maps;
    } else {
      assert (p + s)[0] == p[0] && (p + s)[1..] == p[1..] + s;
      match MergeSyms(ms, b, p[0].syms)
      case None =>
      case Some(r) =>
        MergeSplit(r.syms, After(b, p[0]), p[1..], s);
        match MergeFrom(r.syms, After(b, p[0]), p[1..])
        case None =>
        case Some(m) =>
          match MergeFrom(m.syms, BasesAfter(b, p), s)
          case None =>
          case Some(q) => assert ([r.map_] + m.maps) + q.maps == [r.map_] + (m.maps + q.maps);
    }
  }

  /** Passes 4 and 5 over P then S. */
  lemma {:induction false} RelsSplit(
      ms: seq<Sym>, b: Bases, p: seq<Prog>, s: seq<Prog>, mp: seq<seq<int>>, ms': seq<seq<int>>)
    requires MapsFit(p, mp) && MapsFit(s, ms') && MapsFit(p + s, mp + ms')
    ensures RelsFrom(ms, b, p + s, mp + ms') ==
              match RelsFrom(ms, b, p, mp)
              case None => None
              case Some(r1) =>
                match RelsFrom(ms, BasesAfter(b, p), s, ms')
                case None => None
                case Some(r2) => Some(r1 + r2)
    decreases |p|
  {
    hide ResolveSyms, MapRels;
    if p == [] {
      assert p + s == s && mp + ms' == ms';
      match RelsFrom(ms, b, s, ms')
      case None =>
      case Some(r2) => assert [] + r2 == r2;
    } else {
      assert (p + s)[0] == p[0] && (p + s)[1..] == p[1..] + s;
      assert (mp + ms')[0] == mp[0] && (mp + ms')[1..] == mp[1..] + ms';
      assert MapsFit(p[1..], mp[1..]) && MapsFit(p[1..] + s, mp[1..] + ms');
      RelsSplit(ms, After(b, p[0]), p[1..], s, mp[1..], ms');
      match ResolveSyms(ms, p[0].syms, mp[0])
      case None =>
      case Some(m) =>
        match MapRels(p[0].rels, m, b.code)
        case None =>
        case Some(rs) =>
          match RelsFrom(ms, After(b, p[0]), p[1..], mp[1..])
          case None =>
          case Some(r1) =>
            match RelsFrom(ms, BasesAfter(b, p), s, ms')
            case None =>
            case Some(r2) => assert (rs + r1) + r2 == rs + (r1 + r2);
    }
  }

  // ----- externs of P in the larger table ---------------------------------------------------------

  /** Every extern of these symbols finds an entry that has a section. */
  ghost predicate Met(ms: seq<Sym>, syms: seq<Sym>) {
    forall i :: 0 <= i < |syms| && syms[i].flags == SYM_EXTERN ==>
      FindSym(ms, syms[i].name) < |ms| && ms[FindSym(ms, syms[i].name)].section != SEC_NONE
  }

  ghost predicate AllMet(ms: seq<Sym>, objs: seq<Prog>) {
    forall i :: 0 <= i < |objs| ==> Met(ms, objs[i].syms)
  }

  lemma MetCons(ms: seq<Sym>, syms: seq<Sym>)
    requires syms != []
    ensures Met(ms, syms) <==> Met(ms, [syms[0]]) && Met(ms, syms[1..])
  {
    assert syms == [syms[0]] + syms[1..];
    if Met(ms, [syms[0]]) { assert [syms[0]][0] == syms[0]; }
  }

  lemma AllMetCons(ms: seq<Sym>, objs: seq<Prog>)
    requires objs != []
    ensures AllMet(ms, objs) <==> Met(ms, objs[0].syms) && AllMet(ms, objs[1..])
  {
    hide Met;
    if Met(ms, objs[0].syms) && AllMet(ms, objs[1..]) {
      forall i | 0 <= i < |objs| ensures Met(ms, objs[i].syms) { assert i > 0 ==> objs[i] == objs[1..][i - 1]; }
    }
  }

  /** Entry k of a resolved map. */
  lemma {:induction false} ResolveAt(ms: seq<Sym>, syms: seq<Sym>, map_: seq<int>, k: nat)
    requires |map_| == |syms| && ResolveSyms(ms, syms, map_).Some? && k < |syms|
    ensures ResolveSym(ms, syms[k], map_[k]) == Some(ResolveSyms(ms, syms, map_).value[k])
  {
    hide ResolveSym;
    if k > 0 {
      ResolveAt(ms, syms[1..], map_[1..], k - 1);
    }
  }

  lemma {:induction false} ResolveSymsLater(ms: seq<Sym>, later: seq<Sym>, syms: seq<Sym>, map_: seq<int>)
    requires |map_| == |syms| && ResolveSyms(ms, syms, map_).Some? && SameNames(ms, later)
    ensures ResolveSyms(later, syms, map_) == if Met(later, syms) then ResolveSyms(ms, syms, map_) else None
  {
    hide Met, SameNames;
    if syms == [] {
      NothingToMeet(later);
    } else {
      MetCons(later, syms);
      MetOne(later, syms[0]);
      if syms[0].flags == SYM_EXTERN {
        FindKept(ms, later, syms[0].name);
      }
      ResolveSymsLater(ms, later, syms[1..], map_[1..]);
    }
  }

  lemma NothingToMeet(ms: seq<Sym>)
    ensures Met(ms, []) && AllMet(ms, [])
  {
  }

  lemma MetOne(ms: seq<Sym>, s: Sym)
    ensures Met(ms, [s]) <==>
              (s.flags == SYM_EXTERN ==> FindSym(ms, s.name) < |ms| && ms[FindSym(ms, s.name)].section != SEC_NONE)
  {
    assert [s][0] == s;
  }

  lemma {:induction false} RelsLater(ms: seq<Sym>, later: seq<Sym>, b: Bases, objs: seq<Prog>, maps: seq<seq<int>>)
    requires MapsFit(objs, maps) && RelsFrom(ms, b, objs, maps).Some? && SameNames(ms, later)
    ensures RelsFrom(later, b, objs, maps) == if AllMet(later, objs) then RelsFrom(ms, b, objs, maps) else None
    decreases |objs|
  {
    hide ResolveSyms, MapRels, SameNames, Met, AllMet;
    if objs == [] {
      NothingToMeet(later);
    } else {
      assert MapsFit(objs[1..], maps[1..]);
      AllMetCons(later, objs);
      ResolveSymsLater(ms, later, objs[0].syms, maps[0]);
      RelsLater(ms, later, After(b, objs[0]), objs[1..], maps[1..]);
    }
  }

  // ----- the linked object's own relocations --------------------------------------------------------

  lemma {:induction false} ResolveNoExterns(ms: seq<Sym>, syms: seq<Sym>, map_: seq<int>)
    requires |map_| == |syms| && forall i :: 0 <= i < |syms| ==> syms[i].flags != SYM_EXTERN
    ensures ResolveSyms(ms, syms, map_) == Some(map_)
  {
    if syms != [] {
      ResolveNoExterns(ms, syms[1..], map_[1..]);
      assert [map_[0]] + map_[1..] == map_;
    } else {
      assert map_ == [];
    }
  }

  lemma {:induction false} MapRelsIdentity(rels: seq<Rel>, n: nat)
    requires n <= MAX_SYMS && forall j :: 0 <= j < |rels| ==> rels[j].sym < n
    ensures MapRels(rels, Identity(0, n), 0) == Some(rels)
  {
    if rels != [] {
      MapRelsIdentity(rels[1..], n);
      assert MapRel(rels[0], Identity(0, n), 0) == Some(rels[0]);
      assert [rels[0]] + rels[1..] == rels;
    }
  }

  ghost predicate MapBelow(map_: seq<int>, n: nat) {
    forall j :: 0 <= j < |map_| ==> map_[j] < n
  }

  lemma {:induction false} MergeSymsBelow(ms: seq<Sym>, b: Bases, syms: seq<Sym>)
    requires TableOk(ms) && MergeSyms(ms, b, syms).Some?
    ensures MapBelow(MergeSyms(ms, b, syms).value.map_, |MergeSyms(ms, b, syms).value.syms|)
    decreases |syms|
  {
    hide AddSym, TableOk;
    if syms != [] {
      if syms[0].flags == SYM_EXTERN {
        MergeSymsBelow(ms, b, syms[1..]);
      } else {
        var s := Adjust(syms[0], b);
        AddSymKeeps(ms, s);
        MergeSymsKeeps(AddSym(ms, s).syms, b, syms[1..]);
        MergeSymsBelow(AddSym(ms, s).syms, b, syms[1..]);
      }
    }
  }

  lemma {:induction false} ResolveBelow(ms: seq<Sym>, syms: seq<Sym>, map_: seq<int>)
    requires |map_| == |syms| && MapBelow(map_, |ms|) && ResolveSyms(ms, syms, map_).Some?
    ensures MapBelow(ResolveSyms(ms, syms, map_).value, |ms|)
  {
    if syms != [] {
      ResolveBelow(ms, syms[1..], map_[1..]);
    }
  }

  lemma {:induction false} MapRelsBelow(rels: seq<Rel>, map_: seq<int>, codeBase: nat, n: nat)
    requires MapBelow(map_, n) && MapRels(rels, map_, codeBase).Some?
    ensures forall j :: 0 <= j < |MapRels(rels, map_, codeBase).value| ==>
              MapRels(rels, map_, codeBase).value[j].sym < n
  {
    if rels != [] {
      MapRelsBelow(rels[1..], map_, codeBase, n);
    }
  }

  ghost predicate AllBelow(maps: seq<seq<int>>, n: nat) {
    forall i :: 0 <= i < |maps| ==> MapBelow(maps[i], n)
  }

  lemma {:induction false} MergeBelow(ms: seq<Sym>, b: Bases, objs: seq<Prog>)
    requires TableOk(ms) && MergeFrom(ms, b, objs).Some?
    ensures AllBelow(MergeFrom(ms, b, objs).value.maps, |MergeFrom(ms, b, objs).value.syms|)
    decreases |objs|
  {
    hide MergeSyms, TableOk;
    if objs != [] {
      var r := MergeSyms(ms, b, objs[0].syms).value;
      MergeSymsKeeps(ms, b, objs[0].syms);
      MergeSymsBelow(ms, b, objs[0].syms);
      MergeKeeps(r.syms, After(b, objs[0]), objs[1..]);
      MergeBelow(r.syms, After(b, objs[0]), objs[1..]);
    }
  }

  lemma {:induction false} RelsBelow(ms: seq<Sym>, b: Bases, objs: seq<Prog>, maps: seq<seq<int>>)
    requires MapsFit(objs, maps) && AllBelow(maps, |ms|) && RelsFrom(ms, b, objs, maps).Some?
    ensures forall j :: 0 <= j < |RelsFrom(ms, b, objs, maps).value| ==>
              RelsFrom(ms, b, objs, maps).value[j].sym < |ms|
    decreases |objs|
  {
    hide ResolveSyms, MapRels, MapBelow;
    if objs != [] {
      assert MapsFit(objs[1..], maps[1..]) && AllBelow(maps[1..], |ms|);
      ResolveBelow(ms, objs[0].syms, maps[0]);
      MapRelsBelow(objs[0].rels, ResolveSyms(ms, objs[0].syms, maps[0]).value, b.code, |ms|);
      RelsBelow(ms, After(b, objs[0]), objs[1..], maps[1..]);
    }
  }

  /** What every successful link produces: no extern symbol left, globals unique and found first, every
      relocation index in the table, table limits kept. */
  lemma LinkedObject(objs: seq<Prog>, entry: Option<Name>)
    requires Link(objs, entry).Some?
    ensures var l := Link(objs, entry).value;
            && TableOk(l.syms) && |l.rels| <= MAX_RELS
            && forall j :: 0 <= j < |l.rels| ==> l.rels[j].sym < |l.syms|
  {
    hide MergeFrom, RelsFrom, EntryOf;
    var m := MergeFrom([], ZERO, objs).value;
    MergeFits([], ZERO, objs);
    MergeKeeps([], ZERO, objs);
    MergeBelow([], ZERO, objs);
    RelsBelow(m.syms, ZERO, objs, m.maps);
  }

  // ----- sections of a split list ----------------------------------------------------------------

  lemma {:induction false} CnstSplit(p: seq<Prog>, s: seq<Prog>)
    ensures Cnst(p + s) == Cnst(p) + Cnst(s)
    decreases |p|
  {
    if p == [] {
      assert p + s == s;
    } else {
      assert (p + s)[0] == p[0] && (p + s)[1..] == p[1..] + s;
      CnstSplit(p[1..], s);
    }
  }

  lemma {:induction false} DataSplit(p: seq<Prog>, s: seq<Prog>)
    ensures Data(p + s) == Data(p) + Data(s)
    decreases |p|
  {
    if p == [] {
      assert p + s == s;
    } else {
      assert (p + s)[0] == p[0] && (p + s)[1..] == p[1..] + s;
      DataSplit(p[1..], s);
    }
  }

  lemma {:induction false} CodeSplit(p: seq<Prog>, s: seq<Prog>)
    ensures Code(p + s) == Code(p) + Code(s)
    decreases |p|
  {
    if p == [] {
      assert p + s == s;
    } else {
      assert (p + s)[0] == p[0] && (p + s)[1..] == p[1..] + s;
      CodeSplit(p[1..], s);
    }
  }

  lemma {:induction false} BasesAreLengths(b: Bases, objs: seq<Prog>)
    ensures BasesAfter(b, objs) == Bases(b.cnst + |Cnst(objs)|, b.data + |Data(objs)|, b.code + |Code(objs)|)
    decreases |objs|
  {
    if objs != [] {
      BasesAreLengths(After(b, objs[0]), objs[1..]);
    }
  }

  // ----- the incremental law ------------------------------------------------------------------------

  /** Pass 3 from the linked object is pass 3 from the objects it was made of. */
  lemma MergeFromLinked(p: seq<Prog>, s: seq<Prog>, entry: Option<Name>)
    requires Link(p, entry).Some?
    ensures var l := Link(p, entry).value;
            var m := MergeFrom([], ZERO, p).value;
            && MergeFrom([], ZERO, [l]) == Some(MergedAll(l.syms, [Identity(0, |l.syms|)]))
            && m.syms == l.syms && BasesAfter(ZERO, [l]) == BasesAfter(ZERO, p)
  {
    var l := Link(p, entry).value;
    LinkedObject(p, entry);
    RemergeIdentity(l.syms, 0);
    assert l.syms[..0] == [] && l.syms[0..] == l.syms;
    BasesAreLengths(ZERO, p);
    hide MergeSyms, RelsFrom, EntryOf;
    assert [l][1..] == [];
    assert MergeFrom(l.syms, After(ZERO, l), []) == Some(MergedAll(l.syms, []));
    assert [Identity(0, |l.syms|)] + [] == [Identity(0, |l.syms|)];
  }

  lemma RelsOfLinked(p: seq<Prog>, entry: Option<Name>, later: seq<Sym>)
    requires Link(p, entry).Some?
    ensures var l := Link(p, entry).value;
            MapsFit([l], [Identity(0, |l.syms|)])
            && RelsFrom(later, ZERO, [l], [Identity(0, |l.syms|)]) == Some(l.rels)
  {
    var l := Link(p, entry).value;
    LinkedObject(p, entry);
    var id := Identity(0, |l.syms|);
    ResolveNoExterns(later, l.syms, id);
    MapRelsIdentity(l.rels, |l.syms|);
    hide Link, ResolveSyms, MapRels;
    assert [l][1..] == [] && [id][1..] == [];
    assert l.rels + [] == l.rels;
  }

  /** Linking in two steps against linking all at once: if S merges onto the linked object, the links agree as
      long as the imports of P are still met in the merged table, and otherwise the link of P and S fails; if S
      does not merge, both fail. The entry name of the first step does not matter. */
  lemma TwoSteps(p: seq<Prog>, s: seq<Prog>, e1: Option<Name>, e2: Option<Name>)
    requires Link(p, e1).Some?
    ensures var l := Link(p, e1).value;
            match MergeFrom(l.syms, BasesAfter(ZERO, p), s)
            case None => Link([l] + s, e2) == None && Link(p + s, e2) == None
            case Some(r) => Link(p + s, e2) == if AllMet(r.syms, p) then Link([l] + s, e2) else None
  {
    var l := Link(p, e1).value;
    var m := MergeFrom([], ZERO, p).value;
    var b := BasesAfter(ZERO, p);
    MergeFromLinked(p, s, e1);
    MergeSplit([], ZERO, p, s);
    MergeSplit([], ZERO, [l], s);
    LinkedSections(p, s, e1);
    hide RelsFrom, EntryOf, Cnst, Data, Code, Output, MergeFrom, AllMet;
    match MergeFrom(l.syms, b, s)
    case None =>
    case Some(r) =>
      SameRels(p, s, e1, r);
      if AllMet(r.syms, p) {
        LinkSame([l] + s, p + s, e2, MergedAll(r.syms, [Identity(0, |l.syms|)] + r.maps),
                 MergedAll(r.syms, m.maps + r.maps));
      } else {
        NoLink(p + s, e2, MergedAll(r.syms, m.maps + r.maps));
      }
  }

  lemma NoLink(x: seq<Prog>, entry: Option<Name>, m: MergedAll)
    requires MergeFrom([], ZERO, x) == Some(m) && MapsFit(x, m.maps) && RelsFrom(m.syms, ZERO, x, m.maps) == None
    ensures Link(x, entry) == None
  {
    hide MergeFrom, RelsFrom, EntryOf;
  }

  lemma LinkedSections(p: seq<Prog>, s: seq<Prog>, entry: Option<Name>)
    requires Link(p, entry).Some?
    ensures var l := Link(p, entry).value;
            Cnst([l] + s) == Cnst(p + s) && Data([l] + s) == Data(p + s) && Code([l] + s) == Code(p + s)
  {
    var l := Link(p, entry).value;
    hide MergeFrom, RelsFrom, EntryOf;
    CnstSplit(p, s); DataSplit(p, s); CodeSplit(p, s);
    CnstSplit([l], s); DataSplit([l], s); CodeSplit([l], s);
    SectionsOne(l);
  }

  lemma LinkSame(x: seq<Prog>, y: seq<Prog>, entry: Option<Name>, mx: MergedAll, my: MergedAll)
    requires MergeFrom([], ZERO, x) == Some(mx) && MergeFrom([], ZERO, y) == Some(my) && mx.syms == my.syms
    requires MapsFit(x, mx.maps) && MapsFit(y, my.maps)
    requires RelsFrom(mx.syms, ZERO, x, mx.maps) == RelsFrom(my.syms, ZERO, y, my.maps)
    requires Cnst(x) == Cnst(y) && Data(x) == Data(y) && Code(x) == Code(y)
    ensures Link(x, entry) == Link(y, entry)
  {
    hide MergeFrom, RelsFrom, EntryOf, Cnst, Data, Code;
  }

  lemma SectionsOne(l: Prog)
    ensures Cnst([l]) == l.cnst && Data([l]) == l.data && Code([l]) == l.code
  {
    assert [l][1..] == [];
  }

  /** The relocations of p read against the larger table are those of the linked object, if its imports are
      met there. */
  lemma RelsOfParts(p: seq<Prog>, s: seq<Prog>, entry: Option<Name>, r: MergedAll)
    requires Link(p, entry).Some?
    requires MergeFrom(Link(p, entry).value.syms, BasesAfter(ZERO, p), s) == Some(r)
    ensures MapsFit(p, MergeFrom([], ZERO, p).value.maps)
    ensures RelsFrom(r.syms, ZERO, p, MergeFrom([], ZERO, p).value.maps)
         == if AllMet(r.syms, p) then Some(Link(p, entry).value.rels) else None
  {
    var l := Link(p, entry).value;
    var m := MergeFrom([], ZERO, p).value;
    LinkedObject(p, entry);
    hide MergeFrom, EntryOf, AllMet;
    MergeFits([], ZERO, p);
    MergeKeeps(l.syms, BasesAfter(ZERO, p), s);
    RelsLater(l.syms, r.syms, ZERO, p, m.maps);
  }

  lemma SameRels(p: seq<Prog>, s: seq<Prog>, entry: Option<Name>, r: MergedAll)
    requires Link(p, entry).Some?
    requires MergeFrom(Link(p, entry).value.syms, BasesAfter(ZERO, p), s) == Some(r)
    ensures var l := Link(p, entry).value;
            var mp := MergeFrom([], ZERO, p).value.maps;
            var ml := [Identity(0, |l.syms|)];
            && MapsFit(p + s, mp + r.maps) && MapsFit([l] + s, ml + r.maps)
            && RelsFrom(r.syms, ZERO, p + s, mp + r.maps)
               == if AllMet(r.syms, p) then RelsFrom(r.syms, ZERO, [l] + s, ml + r.maps) else None
  {
    var l := Link(p, entry).value;
    var mp := MergeFrom([], ZERO, p).value.maps;
    var ml := [Identity(0, |l.syms|)];
    MergeFromLinked(p, s, entry);
    RelsOfParts(p, s, entry, r);
    RelsOfLinked(p, entry, r.syms);
    MergeFits(l.syms, BasesAfter(ZERO, p), s);
    hide Link, RelsFrom, MergeFrom, MapsFit, AllMet;
    FitsAppend(p, s, mp, r.maps);
    FitsAppend([l], s, ml, r.maps);
    RelsSplit(r.syms, ZERO, p, s, mp, r.maps);
    RelsSplit(r.syms, ZERO, [l], s, ml, r.maps);
  }

  lemma FitsAppend(p: seq<Prog>, s: seq<Prog>, mp: seq<seq<int>>, ms': seq<seq<int>>)
    requires MapsFit(p, mp) && MapsFit(s, ms')
    ensures MapsFit(p + s, mp + ms')
  {
  }

  /** The imports of linked objects are met in the linked table. */
  lemma {:induction false} LinkedMet(ms: seq<Sym>, b: Bases, objs: seq<Prog>, maps: seq<seq<int>>)
    requires MapsFit(objs, maps) && RelsFrom(ms, b, objs, maps).Some?
    ensures AllMet(ms, objs)
    decreases |objs|
  {
    SelfNames(ms);
    RelsLater(ms, ms, b, objs, maps);
  }

  lemma SelfNames(ms: seq<Sym>)
    ensures SameNames(ms, ms)
  {
  }

  lemma PartsMet(p: seq<Prog>, entry: Option<Name>)
    requires Link(p, entry).Some?
    ensures AllMet(Link(p, entry).value.syms, p)
  {
    hide MergeFrom, RelsFrom, EntryOf, AllMet;
    var m := MergeFrom([], ZERO, p).value;
    MergeFits([], ZERO, p);
    LinkedMet(m.syms, ZERO, p, m.maps);
  }

  /** Relinking an executable alone changes nothing. */
  lemma RelinkIdentity(p: seq<Prog>, entry: Option<Name>)
    requires Link(p, entry).Some?
    ensures Link([Link(p, entry).value], entry) == Link(p, entry)
  {
    hide Link, AllMet;
    var l := Link(p, entry).value;
    TwoSteps(p, [], entry, entry);
    PartsMet(p, entry);
    assert MergeFrom(l.syms, BasesAfter(ZERO, p), []) == Some(MergedAll(l.syms, []));
    assert [l] + [] == [l] && p + [] == p;
  }

  // ----- where the law needs its hypothesis ---------------------------------------------------------

  const LOCAL_N: Sym := Sym([110], SYM_LOCAL, SEC_CODE, 0)
  const EXTERN_N: Sym := Sym([110], SYM_EXTERN, SEC_NONE, 0)
  const GLOBAL_N: Sym := Sym([110], SYM_GLOBAL, SEC_NONE, 0)

  function Bare(syms: seq<Sym>): Prog { Prog([], [], [], syms, [], 0, false) }

  /** One step of each pass on an object without sections or relocations. */
  lemma MergeBare(ms: seq<Sym>, o: Prog, rest: seq<Prog>, r: Merged, all: MergedAll)
    requires After(ZERO, o) == ZERO && MergeSyms(ms, ZERO, o.syms) == Some(r)
    requires MergeFrom(r.syms, ZERO, rest) == Some(all)
    ensures MergeFrom(ms, ZERO, [o] + rest) == Some(MergedAll(all.syms, [r.map_] + all.maps))
  {
    hide MergeSyms;
    assert ([o] + rest)[0] == o && ([o] + rest)[1..] == rest;
  }

  lemma RelsBare(ms: seq<Sym>, o: Prog, rest: seq<Prog>, m: seq<int>, maps: seq<seq<int>>)
    requires After(ZERO, o) == ZERO && o.rels == [] && |m| == |o.syms| && MapsFit(rest, maps)
    ensures MapsFit([o] + rest, [m] + maps)
    ensures RelsFrom(ms, ZERO, [o] + rest, [m] + maps) ==
              if ResolveSyms(ms, o.syms, m) == None then None else RelsFrom(ms, ZERO, rest, maps)
  {
    hide ResolveSyms;
    assert ([o] + rest)[0] == o && ([o] + rest)[1..] == rest;
    assert ([m] + maps)[0] == m && ([m] + maps)[1..] == maps;
    if RelsFrom(ms, ZERO, rest, maps).Some? {
      assert [] + RelsFrom(ms, ZERO, rest, maps).value == RelsFrom(ms, ZERO, rest, maps).value;
    }
  }

  lemma MergeExamples()
    ensures MergeSyms([], ZERO, [LOCAL_N]) == Some(Merged([LOCAL_N], [0]))
    ensures MergeSyms([], ZERO, [LOCAL_N, EXTERN_N]) == Some(Merged([LOCAL_N], [0, -1]))
    ensures MergeSyms([LOCAL_N], ZERO, [GLOBAL_N]) == Some(Merged([GLOBAL_N], [0]))
  {
    var none: seq<int> := [];
    assert Adjust(LOCAL_N, ZERO) == LOCAL_N && Adjust(GLOBAL_N, ZERO) == GLOBAL_N;
    assert [LOCAL_N, EXTERN_N][1..] == [EXTERN_N] && [EXTERN_N][1..] == [] && [LOCAL_N][1..] == [];
    assert [GLOBAL_N][1..] == [];
    assert [-1] + none == [-1] && [0] + none == [0] && [0] + [-1] == [0, -1];
    assert FindSym([LOCAL_N], [110]) == 0 && [LOCAL_N][0 := GLOBAL_N] == [GLOBAL_N];
    assert MergeSyms([LOCAL_N], ZERO, [EXTERN_N]) == Some(Merged([LOCAL_N], [-1]));
    assert AddSym([], LOCAL_N) == Added([LOCAL_N], 0) by { assert [] + [LOCAL_N] == [LOCAL_N]; }
  }

  lemma ResolveExamples()
    ensures ResolveSyms([GLOBAL_N], [LOCAL_N, EXTERN_N], [0, -1]) == None
    ensures ResolveSyms([LOCAL_N], [LOCAL_N, EXTERN_N], [0, -1]).Some?
    ensures ResolveSyms([GLOBAL_N], [LOCAL_N], [0]).Some? && ResolveSyms([GLOBAL_N], [GLOBAL_N], [0]).Some?
  {
    assert [LOCAL_N, EXTERN_N][1..] == [EXTERN_N] && [0, -1][1..] == [-1];
    assert ResolveSyms([GLOBAL_N], [EXTERN_N], [-1]) == None;
    assert ResolveSyms([LOCAL_N], [EXTERN_N], [-1]).Some?;
  }

  /** A sectionless GLOBAL in a later object takes over a name an earlier object imported: linking in two
      steps then succeeds where linking all at once fails. */
  lemma SectionlessGlobalBreaksLaw()
    ensures var a, g := Bare([LOCAL_N, EXTERN_N]), Bare([GLOBAL_N]);
            && Link([a], None).Some?
            && Link([Link([a], None).value] + [g], None).Some?
            && Link([a] + [g], None) == None
  {
    var a, g := Bare([LOCAL_N, EXTERN_N]), Bare([GLOBAL_N]);
    MergeExamples();
    ResolveExamples();
    hide MergeSyms, ResolveSyms, EntryOf;
    assert [a] + [] == [a] && [g] + [] == [g] && [[0, -1]] + [] == [[0, -1]] && [[0]] + [] == [[0]];
    MergeBare([LOCAL_N], g, [], Merged([GLOBAL_N], [0]), MergedAll([GLOBAL_N], []));
    MergeBare([], a, [], Merged([LOCAL_N], [0, -1]), MergedAll([LOCAL_N], []));
    MergeBare([], a, [g], Merged([LOCAL_N], [0, -1]), MergedAll([GLOBAL_N], [[0]]));
    RelsBare([LOCAL_N], a, [], [0, -1], []);
    RelsBare([GLOBAL_N], g, [], [0], []);
    RelsBare([GLOBAL_N], a, [g], [0, -1], [[0]]);
    var l := Link([a], None).value;
    assert Cnst([]) == [] && Data([]) == [] && Code([]) == [] && [a][1..] == [];
    assert l.syms == [LOCAL_N] && l.rels == [] && After(ZERO, l) == ZERO;
    MergeBare([], l, [g], Merged([LOCAL_N], [0]), MergedAll([GLOBAL_N], [[0]]));
    RelsBare([GLOBAL_N], l, [g], [0], [[0]]);
  }

  // ----- the entry point -------------------------------------------------------------------------------

  /** Symbol k is the first of the name, and a code symbol. */
  ghost predicate Enters(ms: seq<Sym>, name: Name, k: int) {
    && 0 <= k < |ms| && ms[k].name == name && ms[k].section == SEC_CODE
    && forall j :: 0 <= j < k ==> ms[j].name != name
  }

  lemma EntryTail(ms: seq<Sym>, name: Name, rest: seq<Name>)
    ensures Enters(ms, name, FindSym(ms, name)) ==> EntryOf(ms, [name] + rest) == Some(ms[FindSym(ms, name)].offset)
    ensures !Enters(ms, name, FindSym(ms, name)) ==> EntryOf(ms, [name] + rest) == EntryOf(ms, rest)
    ensures forall k :: Enters(ms, name, k) ==> k == FindSym(ms, name)
  {
    assert ([name] + rest)[1..] == rest;
    forall k | Enters(ms, name, k) ensures k == FindSym(ms, name) {
      FindUnique(ms, name, k);
    }
  }

  /** Where the output starts. A given name is the only candidate; without one `_start` comes before `main`. A
      candidate counts if the first symbol of its name lies in the code; if none does the entry offset is 0. */
  lemma EntryChosen(objs: seq<Prog>, entry: Option<Name>, k: int)
    requires Link(objs, entry).Some?
    ensures var l := Link(objs, entry).value;
            var start: Name, main: Name := [95, 115, 116, 97, 114, 116], [109, 97, 105, 110];
            && (entry.Some? && Enters(l.syms, entry.value, k) ==> l.entry == l.syms[k].offset && l.hasEntry)
            && (entry.None? && Enters(l.syms, start, k) ==> l.entry == l.syms[k].offset && l.hasEntry)
            && (entry.None? && Enters(l.syms, main, k) && (forall j :: !Enters(l.syms, start, j)) ==>
                  l.entry == l.syms[k].offset && l.hasEntry)
    ensures var l := Link(objs, entry).value;
            var start: Name, main: Name := [95, 115, 116, 97, 114, 116], [109, 97, 105, 110];
            (match entry
             case Some(n) => forall j :: !Enters(l.syms, n, j)
             case None => forall j :: !Enters(l.syms, start, j) && !Enters(l.syms, main, j))
            ==> l.entry == 0 && (l.hasEntry <==> |l.code| > 0)
  {
    hide MergeFrom, RelsFrom, EntryOf, Enters, Code;
    var ms := Link(objs, entry).value.syms;
    var names := Candidates(entry);
    EntryTail(ms, names[0], names[1..]);
    assert [names[0]] + names[1..] == names;
    if entry.None? {
      EntryTail(ms, names[1], []);
      assert names[1..] == [names[1]] && [names[1]] + [] == [names[1]];
    }
    NoEntry(ms);
  }

  lemma NoEntry(ms: seq<Sym>)
    ensures EntryOf(ms, []) == None
  {
  }
}
