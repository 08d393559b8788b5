/** Linking then loading gives every relocated reference its meaning. */
module LinkLoad {
  import opened Words
  import opened Objects
  import opened Linker
  import LinkLaws
  import opened Loader

  // ----- well-formed, name-hygienic objects --------------------------------------------------

  /** A name some object exports or imports. */
  ghost predicate Shared(all: seq<Prog>, n: Name) {
    exists o, s :: o in all && s in o.syms && s.name == n && (s.flags == SYM_GLOBAL || s.flags == SYM_EXTERN)
  }

  /** Symbols have a known kind, definitions have a section, local names are private. */
  ghost predicate Hygienic(all: seq<Prog>, syms: seq<Sym>) {
    forall s :: s in syms ==>
      && s.flags in {SYM_LOCAL, SYM_GLOBAL, SYM_EXTERN}
      && (s.flags != SYM_EXTERN ==> s.section in {SEC_CNST, SEC_DATA, SEC_CODE})
      && (s.flags == SYM_LOCAL ==> !Shared(all, s.name))
      && (s.flags != SYM_LOCAL ==> Shared(all, s.name))
  }

  ghost predicate AllHygienic(all: seq<Prog>, objs: seq<Prog>) {
    forall o :: o in objs ==> Hygienic(all, o.syms)
  }

  /** What the merged table contains under hygiene. */
  ghost predicate Clean(all: seq<Prog>, ms: seq<Sym>) {
    Hygienic(all, ms) && forall s :: s in ms ==> s.flags != SYM_EXTERN
  }

  /** Nothing is ever replaced: a symbol is appended or the link fails. */
  lemma AddSymAppends(all: seq<Prog>, ms: seq<Sym>, s: Sym)
    requires Clean(all, ms) && Hygienic(all, [s]) && s.flags != SYM_EXTERN && AddSym(ms, s).Added?
    ensures var a := AddSym(ms, s);
            && Clean(all, a.syms)
            && ((a.syms == ms && a.at == -1) || (a.syms == ms + [s] && a.at == |ms|))
  {
    assert s in [s];
    if s.flags == SYM_GLOBAL {
      assert forall i :: 0 <= i < |ms| ==> ms[i] in ms;
    }
  }

  lemma AdjustHygienic(all: seq<Prog>, s: Sym, b: Bases, syms: seq<Sym>)
    requires Hygienic(all, syms) && s in syms
    ensures Hygienic(all, [Adjust(s, b)])
  {
  }

  /** Map entry k of an object holds the adjusted symbol k; every new entry comes from some symbol. */
  ghost predicate MapsTo(ms: seq<Sym>, b: Bases, syms: seq<Sym>, map_: seq<int>) {
    && |map_| == |syms|
    && forall k :: 0 <= k < |syms| && syms[k].flags != SYM_EXTERN && map_[k] >= 0 ==>
         map_[k] < |ms| && ms[map_[k]] == Adjust(syms[k], b)
  }

  ghost predicate ComesFrom(s: Sym, b: Bases, syms: seq<Sym>) {
    exists k :: 0 <= k < |syms| && syms[k].flags != SYM_EXTERN && Adjust(syms[k], b) == s
  }

  ghost predicate NewFrom(ms: seq<Sym>, lo: nat, b: Bases, syms: seq<Sym>) {
    forall x :: lo <= x < |ms| ==> ComesFrom(ms[x], b, syms)
  }

  lemma {:induction false} MergeSymsAppends(all: seq<Prog>, ms: seq<Sym>, b: Bases, syms: seq<Sym>)
    requires Clean(all, ms) && Hygienic(all, syms) && MergeSyms(ms, b, syms).Some?
    ensures var r := MergeSyms(ms, b, syms).value;
            Clean(all, r.syms) && ms <= r.syms && MapsTo(r.syms, b, syms, r.map_) && NewFrom(r.syms, |ms|, b, syms)
    decreases |syms|
  {
    hide Clean, Hygienic, AddSym, MapsTo, NewFrom;
    if syms == [] {
      NothingMerged(ms, b);
    } else {
      var rest := syms[1..];
      HygienicTail(all, syms);
      if syms[0].flags == SYM_EXTERN {
        MergeSymsAppends(all, ms, b, rest);
        var r := MergeSyms(ms, b, rest).value;
        MapsToCons(r.syms, b, syms, -1, r.map_);
        FromTail(r.syms, |ms|, |ms|, b, syms);
      } else {
        AdjustHygienic(all, syms[0], b, syms);
        var a := AddSym(ms, Adjust(syms[0], b));
        AddSymAppends(all, ms, Adjust(syms[0], b));
        MergeSymsAppends(all, a.syms, b, rest);
        var r := MergeSyms(a.syms, b, rest).value;
        MapsToCons(r.syms, b, syms, a.at, r.map_);
        FromTail(r.syms, |ms|, |a.syms|, b, syms);
      }
    }
  }

  lemma NothingMerged(ms: seq<Sym>, b: Bases)
    ensures MapsTo(ms, b, [], []) && NewFrom(ms, |ms|, b, [])
  {
  }

  lemma HygienicTail(all: seq<Prog>, syms: seq<Sym>)
    requires syms != [] && Hygienic(all, syms)
    ensures Hygienic(all, syms[1..])
  {
  }

  lemma MapsToCons(ms: seq<Sym>, b: Bases, syms: seq<Sym>, at: int, tail: seq<int>)
    requires syms != [] && MapsTo(ms, b, syms[1..], tail)
    requires syms[0].flags != SYM_EXTERN && at >= 0 ==> at < |ms| && ms[at] == Adjust(syms[0], b)
    ensures MapsTo(ms, b, syms, [at] + tail)
  {
    forall k | 0 <= k < |syms| && syms[k].flags != SYM_EXTERN && ([at] + tail)[k] >= 0
      ensures ([at] + tail)[k] < |ms| && ms[([at] + tail)[k]] == Adjust(syms[k], b)
    {
      if k > 0 { assert syms[k] == syms[1..][k - 1]; }
    }
  }

  lemma FromTail(ms: seq<Sym>, lo: nat, mid: nat, b: Bases, syms: seq<Sym>)
    requires syms != [] && lo <= mid <= lo + 1 && mid <= |ms| && NewFrom(ms, mid, b, syms[1..])
    requires mid > lo ==> syms[0].flags != SYM_EXTERN && ms[lo] == Adjust(syms[0], b)
    ensures NewFrom(ms, lo, b, syms)
  {
    forall x | lo <= x < |ms| ensures ComesFrom(ms[x], b, syms) {
      if x >= mid {
        assert ComesFrom(ms[x], b, syms[1..]);
        var k :| 0 <= k < |syms[1..]| && syms[1..][k].flags != SYM_EXTERN && Adjust(syms[1..][k], b) == ms[x];
        assert syms[k + 1] == syms[1..][k];
      }
    }
  }

  // ----- all objects ---------------------------------------------------------------------------

  /** Where object i starts. */
  function BasesOf(b: Bases, objs: seq<Prog>, i: nat): Bases
    requires i <= |objs|
  {
    BasesAfter(b, objs[..i])
  }

  lemma BasesOfTail(b: Bases, objs: seq<Prog>, i: nat)
    requires 0 < i <= |objs|
    ensures BasesOf(b, objs, i) == BasesOf(After(b, objs[0]), objs[1..], i - 1)
  {
    assert objs[..i][1..] == objs[1..][..i - 1];
  }

  ghost predicate AllMapped(ms: seq<Sym>, b: Bases, objs: seq<Prog>, maps: seq<seq<int>>) {
    |maps| == |objs| && forall i :: 0 <= i < |objs| ==> MapsTo(ms, BasesOf(b, objs, i), objs[i].syms, maps[i])
  }

  ghost predicate FromSome(s: Sym, b: Bases, objs: seq<Prog>) {
    exists i :: 0 <= i < |objs| && ComesFrom(s, BasesOf(b, objs, i), objs[i].syms)
  }

  ghost predicate AllFrom(ms: seq<Sym>, lo: nat, b: Bases, objs: seq<Prog>) {
    forall x :: lo <= x < |ms| ==> FromSome(ms[x], b, objs)
  }

  lemma MappedCons(ms: seq<Sym>, b: Bases, objs: seq<Prog>, m: seq<int>, maps: seq<seq<int>>)
    requires objs != [] && MapsTo(ms, b, objs[0].syms, m) && AllMapped(ms, After(b, objs[0]), objs[1..], maps)
    ensures AllMapped(ms, b, objs, [m] + maps)
  {
    hide MapsTo, BasesOf;
    forall i | 0 <= i < |objs| ensures MapsTo(ms, BasesOf(b, objs, i), objs[i].syms, ([m] + maps)[i]) {
      if i == 0 {
        FirstBases(b, objs);
      } else {
        BasesOfTail(b, objs, i);
        assert MapsTo(ms, BasesOf(After(b, objs[0]), objs[1..], i - 1), objs[1..][i - 1].syms, maps[i - 1]);
      }
    }
  }

  lemma FromCons(ms: seq<Sym>, lo: nat, mid: nat, b: Bases, objs: seq<Prog>)
    requires objs != [] && lo <= mid <= |ms| && NewFrom(ms[..mid], lo, b, objs[0].syms)
    requires AllFrom(ms, mid, After(b, objs[0]), objs[1..])
    ensures AllFrom(ms, lo, b, objs)
  {
    hide ComesFrom, BasesOf;
    forall x | lo <= x < |ms| ensures FromSome(ms[x], b, objs) {
      if x < mid {
        FirstBases(b, objs);
        assert ComesFrom(ms[..mid][x], BasesOf(b, objs, 0), objs[0].syms);
      } else {
        assert FromSome(ms[x], After(b, objs[0]), objs[1..]);
        var i :| 0 <= i < |objs[1..]| && ComesFrom(ms[x], BasesOf(After(b, objs[0]), objs[1..], i), objs[1..][i].syms);
        BasesOfTail(b, objs, i + 1);
        assert ComesFrom(ms[x], BasesOf(b, objs, i + 1), objs[i + 1].syms);
      }
    }
  }

  lemma MapsToLater(ms: seq<Sym>, later: seq<Sym>, b: Bases, syms: seq<Sym>, m: seq<int>)
    requires MapsTo(ms, b, syms, m) && ms <= later
    ensures MapsTo(later, b, syms, m)
  {
  }

  lemma HygienicCons(all: seq<Prog>, objs: seq<Prog>)
    requires AllHygienic(all, objs) && objs != []
    ensures Hygienic(all, objs[0].syms) && AllHygienic(all, objs[1..])
  {
    assert objs[0] in objs && forall o :: o in objs[1..] ==> o in objs;
  }

  lemma NoObjects(ms: seq<Sym>, b: Bases)
    ensures AllMapped(ms, b, [], []) && AllFrom(ms, |ms|, b, [])
  {
  }

  /** The merged table of all objects: each map entry is the adjusted symbol, each entry has an origin. */
  lemma {:induction false} MergeAppends(all: seq<Prog>, ms: seq<Sym>, b: Bases, objs: seq<Prog>)
    requires Clean(all, ms) && AllHygienic(all, objs) && MergeFrom(ms, b, objs).Some?
    ensures var r := MergeFrom(ms, b, objs).value;
            && Clean(all, r.syms) && ms <= r.syms && AllMapped(r.syms, b, objs, r.maps)
            && AllFrom(r.syms, |ms|, b, objs)
    decreases |objs|
  {
    hide MergeSyms, Clean, Hygienic, AllHygienic, NewFrom, MapsTo, AllMapped, AllFrom;
    if objs == [] {
      NoObjects(ms, b);
    } else {
      var r := MergeFrom(ms, b, objs).value;
      var r1 := MergeSyms(ms, b, objs[0].syms).value;
      HygienicCons(all, objs);
      MergeSymsAppends(all, ms, b, objs[0].syms);
      MergeAppends(all, r1.syms, After(b, objs[0]), objs[1..]);
      MapsToLater(r1.syms, r.syms, b, objs[0].syms, r1.map_);
      assert r.syms[..|r1.syms|] == r1.syms;
      FromCons(r.syms, |ms|, |r1.syms|, b, objs);
      MappedCons(r.syms, b, objs, r1.map_, MergeFrom(r1.syms, After(b, objs[0]), objs[1..]).value.maps);
    }
  }

  // ----- relocations of the output ---------------------------------------------------------------

  lemma {:induction false} MapRelAt(rels: seq<Rel>, m: seq<int>, base: nat, j: nat)
    requires MapRels(rels, m, base).Some? && j < |rels|
    ensures j < |MapRels(rels, m, base).value|
    ensures MapRel(rels[j], m, base) == Some(MapRels(rels, m, base).value[j])
  {
    hide MapRel;
    if j > 0 {
      MapRelAt(rels[1..], m, base, j - 1);
    }
  }

  /** The output relocation that object i's relocation j became. */
  lemma {:induction false} RelAt(ms: seq<Sym>, b: Bases, objs: seq<Prog>, maps: seq<seq<int>>, i: nat, j: nat)
      returns (q: nat, m: seq<int>)
    requires MapsFit(objs, maps) && RelsFrom(ms, b, objs, maps).Some? && i < |objs| && j < |objs[i].rels|
    ensures q < |RelsFrom(ms, b, objs, maps).value|
    ensures ResolveSyms(ms, objs[i].syms, maps[i]) == Some(m)
    ensures MapRel(objs[i].rels[j], m, BasesOf(b, objs, i).code) == Some(RelsFrom(ms, b, objs, maps).value[q])
    decreases |objs|
  {
    hide ResolveSyms, MapRel, MapRels;
    assert MapsFit(objs[1..], maps[1..]);
    var m0 := ResolveSyms(ms, objs[0].syms, maps[0]).value;
    var rs := MapRels(objs[0].rels, m0, b.code).value;
    if i == 0 {
      MapRelAt(objs[0].rels, m0, b.code, j);
      q, m := j, m0;
      assert objs[..0] == [];
    } else {
      q, m := RelAt(ms, After(b, objs[0]), objs[1..], maps[1..], i - 1, j);
      BasesOfTail(b, objs, i);
      q := q + |rs|;
    }
  }

  /** Sites ordered within [lo, hi). */
  ghost predicate OrderedIn(rels: seq<Rel>, lo: nat, hi: nat) {
    SitesOrdered(rels, hi) && forall k :: 0 <= k < |rels| ==> lo <= rels[k].at
  }

  lemma {:induction false} MapRelsOrdered(rels: seq<Rel>, m: seq<int>, base: nat, n: nat)
    requires MapRels(rels, m, base).Some? && SitesOrdered(rels, n) && base + n < TWO32
    ensures OrderedIn(MapRels(rels, m, base).value, base, base + n)
  {
    var out := MapRels(rels, m, base).value;
    MapRelsLength(rels, m, base);
    forall k | 0 <= k < |out| ensures out[k].at == rels[k].at + base && out[k].kind == rels[k].kind {
      MapRelAt(rels, m, base, k);
    }
  }

  lemma {:induction false} MapRelsLength(rels: seq<Rel>, m: seq<int>, base: nat)
    requires MapRels(rels, m, base).Some?
    ensures |MapRels(rels, m, base).value| == |rels|
  {
    hide MapRel;
    if rels != [] {
      MapRelsLength(rels[1..], m, base);
    }
  }

  lemma OrderedAppend(x: seq<Rel>, y: seq<Rel>, lo: nat, mid: nat, hi: nat)
    requires lo <= mid <= hi && OrderedIn(x, lo, mid) && OrderedIn(y, mid, hi)
    ensures OrderedIn(x + y, lo, hi)
  {
  }

  ghost predicate AllSitesOrdered(objs: seq<Prog>) {
    forall o :: o in objs ==> SitesOrdered(o.rels, |o.code|)
  }

  ghost predicate AllSitesDisjoint(objs: seq<Prog>) {
    forall o :: o in objs ==> Disjoint(o.rels, |o.code|)
  }

  lemma OrderedTail(objs: seq<Prog>)
    requires objs != [] && AllSitesOrdered(objs)
    ensures AllSitesOrdered(objs[1..]) && SitesOrdered(objs[0].rels, |objs[0].code|)
  {
    hide SitesOrdered;
    assert objs[0] in objs && forall o :: o in objs[1..] ==> o in objs;
  }

  lemma DisjointTail(objs: seq<Prog>)
    requires objs != [] && AllSitesDisjoint(objs)
    ensures AllSitesDisjoint(objs[1..]) && Disjoint(objs[0].rels, |objs[0].code|)
  {
    hide Disjoint;
    assert objs[0] in objs && forall o :: o in objs[1..] ==> o in objs;
  }

  /** One object and the rest. */
  lemma RelsCons(ms: seq<Sym>, b: Bases, objs: seq<Prog>, maps: seq<seq<int>>) returns (m: seq<int>)
    requires objs != [] && MapsFit(objs, maps) && RelsFrom(ms, b, objs, maps).Some?
    ensures MapsFit(objs[1..], maps[1..])
    ensures RelsFrom(ms, After(b, objs[0]), objs[1..], maps[1..]).Some? && MapRels(objs[0].rels, m, b.code).Some?
    ensures RelsFrom(ms, b, objs, maps).value
         == MapRels(objs[0].rels, m, b.code).value + RelsFrom(ms, After(b, objs[0]), objs[1..], maps[1..]).value
    ensures |Code(objs)| == |objs[0].code| + |Code(objs[1..])|
  {
    hide ResolveSyms, MapRels;
    assert MapsFit(objs[1..], maps[1..]);
    m := ResolveSyms(ms, objs[0].syms, maps[0]).value;
  }

  lemma NoRels(ms: seq<Sym>, b: Bases, maps: seq<seq<int>>)
    requires MapsFit([], maps)
    ensures RelsFrom(ms, b, [], maps) == Some([]) && OrderedIn([], b.code, b.code + |Code([])|)
    ensures DisjointIn([], b.code, b.code + |Code([])|)
  {
  }

  /** Rebasing keeps relocation sites in bounds, disjoint and ordered. */
  lemma {:induction false} RelsOrdered(ms: seq<Sym>, b: Bases, objs: seq<Prog>, maps: seq<seq<int>>)
    requires MapsFit(objs, maps) && RelsFrom(ms, b, objs, maps).Some? && AllSitesOrdered(objs)
    requires b.code + |Code(objs)| < TWO32
    ensures OrderedIn(RelsFrom(ms, b, objs, maps).value, b.code, b.code + |Code(objs)|)
    decreases |objs|
  {
    hide MapRels, OrderedIn, SitesOrdered, RelsFrom, AllSitesOrdered, Code;
    if objs == [] {
      NoRels(ms, b, maps);
    } else {
      var m := RelsCons(ms, b, objs, maps);
      OrderedTail(objs);
      var mid := b.code + |objs[0].code|;
      MapRelsOrdered(objs[0].rels, m, b.code, |objs[0].code|);
      RelsOrdered(ms, After(b, objs[0]), objs[1..], maps[1..]);
      OrderedAppend(MapRels(objs[0].rels, m, b.code).value, RelsFrom(ms, After(b, objs[0]), objs[1..], maps[1..]).value,
                    b.code, mid, b.code + |Code(objs)|);
    }
  }

  /** Sites disjoint and within [lo, hi). */
  ghost predicate DisjointIn(rels: seq<Rel>, lo: nat, hi: nat) {
    Disjoint(rels, hi) && forall r :: r in rels ==> lo <= r.at
  }

  lemma MapRelsDisjoint(rels: seq<Rel>, m: seq<int>, base: nat, n: nat)
    requires MapRels(rels, m, base).Some? && Disjoint(rels, n) && base + n < TWO32
    ensures DisjointIn(MapRels(rels, m, base).value, base, base + n)
  {
    hide MapRels;
    var out := MapRels(rels, m, base).value;
    MapRelsLength(rels, m, base);
    forall k | 0 <= k < |out|
      ensures MapRel(rels[k], m, base) == Some(out[k])
      ensures out[k].at == rels[k].at + base && out[k].kind == rels[k].kind
    {
      MapRelAt(rels, m, base, k);
      assert rels[k] in rels;
    }
    forall r, s, x: int | r in out && s in out && Covers(r, x) && Covers(s, x) ensures r == s {
      var i :| 0 <= i < |out| && out[i] == r;
      var j :| 0 <= j < |out| && out[j] == s;
      assert rels[i] in rels && rels[j] in rels && Covers(rels[i], x - base) && Covers(rels[j], x - base);
    }
  }

  lemma DisjointAppend(x: seq<Rel>, y: seq<Rel>, lo: nat, mid: nat, hi: nat)
    requires lo <= mid <= hi && DisjointIn(x, lo, mid) && DisjointIn(y, mid, hi)
    ensures DisjointIn(x + y, lo, hi)
  {
  }

  /** Rebasing keeps relocation sites in bounds and disjoint, in any order of the tables. */
  lemma {:induction false} RelsDisjoint(ms: seq<Sym>, b: Bases, objs: seq<Prog>, maps: seq<seq<int>>)
    requires MapsFit(objs, maps) && RelsFrom(ms, b, objs, maps).Some? && AllSitesDisjoint(objs)
    requires b.code + |Code(objs)| < TWO32
    ensures DisjointIn(RelsFrom(ms, b, objs, maps).value, b.code, b.code + |Code(objs)|)
    decreases |objs|
  {
    hide MapRels, DisjointIn, Disjoint, RelsFrom, AllSitesDisjoint, Code;
    if objs == [] {
      NoRels(ms, b, maps);
    } else {
      var m := RelsCons(ms, b, objs, maps);
      DisjointTail(objs);
      var mid := b.code + |objs[0].code|;
      MapRelsDisjoint(objs[0].rels, m, b.code, |objs[0].code|);
      RelsDisjoint(ms, After(b, objs[0]), objs[1..], maps[1..]);
      DisjointAppend(MapRels(objs[0].rels, m, b.code).value,
                     RelsFrom(ms, After(b, objs[0]), objs[1..], maps[1..]).value,
                     b.code, mid, b.code + |Code(objs)|);
    }
  }

  lemma {:induction false} CodeAt(b: Bases, objs: seq<Prog>, i: nat, x: nat)
    requires i < |objs| && x < |objs[i].code|
    ensures b.code <= BasesOf(b, objs, i).code
    ensures BasesOf(b, objs, i).code - b.code + x < |Code(objs)|
    ensures Code(objs)[BasesOf(b, objs, i).code - b.code + x] == objs[i].code[x]
    decreases |objs|
  {
    if i == 0 {
      assert objs[..0] == [];
    } else {
      BasesOfTail(b, objs, i);
      CodeAt(After(b, objs[0]), objs[1..], i - 1, x);
    }
  }

  // ----- meaning of a reference --------------------------------------------------------------------

  /** Symbol k of object i means symbol m of object d: itself, or for an extern a global of its name. */
  ghost predicate Means(objs: seq<Prog>, i: nat, k: nat, d: nat, m: nat)
    requires i < |objs| && k < |objs[i].syms|
  {
    && d < |objs| && m < |objs[d].syms|
    && if objs[i].syms[k].flags == SYM_EXTERN
       then objs[d].syms[m].flags == SYM_GLOBAL && objs[d].syms[m].name == objs[i].syms[k].name
       else d == i && m == k
  }

  lemma Reference(objs: seq<Prog>, ms: seq<Sym>, maps: seq<seq<int>>, i: nat, k: nat, x: int) returns (d: nat, m: nat)
    requires AllHygienic(objs, objs) && MergeFrom([], ZERO, objs) == Some(MergedAll(ms, maps))
    requires i < |objs| && k < |objs[i].syms| && |maps| == |objs| && |maps[i]| == |objs[i].syms|
    requires x >= 0 && ResolveSym(ms, objs[i].syms[k], maps[i][k]) == Some(x)
    ensures d < |objs| && m < |objs[d].syms| && Means(objs, i, k, d, m)
    ensures x < |ms| && ms[x] == Adjust(objs[d].syms[m], BasesOf(ZERO, objs, d))
    ensures ms[x].flags != SYM_EXTERN && ms[x].section in {SEC_CNST, SEC_DATA, SEC_CODE}
  {
    MergeAppends(objs, [], ZERO, objs);
    hide MergeFrom, Shared, BasesOf;
    var s := objs[i].syms[k];
    assert objs[i] in objs && s in objs[i].syms;
    if s.flags == SYM_EXTERN {
      assert ms[x] in ms && Shared(objs, s.name) && ms[x].flags == SYM_GLOBAL;
      assert FromSome(ms[x], ZERO, objs);
      d :| 0 <= d < |objs| && ComesFrom(ms[x], BasesOf(ZERO, objs, d), objs[d].syms);
      m :| 0 <= m < |objs[d].syms| && objs[d].syms[m].flags != SYM_EXTERN
           && Adjust(objs[d].syms[m], BasesOf(ZERO, objs, d)) == ms[x];
    } else {
      d, m := i, k;
      assert MapsTo(ms, BasesOf(ZERO, objs, i), objs[i].syms, maps[i]);
      assert ms[x] in ms;
    }
  }

  /** What a relocation of this kind stores for symbol s of object d. */
  function Target(objs: seq<Prog>, a: Addresses, kind: byte, d: nat, s: Sym): (w: seq<byte>)
    requires d <= |objs|
  {
    var off := (s.offset + SectionBase(BasesOf(ZERO, objs, d), s.section)) % TWO32;
    if kind == REL_CODE then Le(4, off) else Le(8, (AddressOf(a, s.section) + off) % TWO64)
  }

  /** Relocation sites in bounds and disjoint, total code size below 2^32. */
  ghost predicate Compact(objs: seq<Prog>) {
    AllSitesDisjoint(objs) && |Code(objs)| < TWO32
  }

  /** Compact objects that are also name-hygienic. */
  ghost predicate Linkable(objs: seq<Prog>) {
    AllHygienic(objs, objs) && Compact(objs)
  }

  /** The merged table, maps and relocations behind a successful link. */
  lemma LinkParts(objs: seq<Prog>, entry: Option<Name>) returns (all: MergedAll)
    requires Link(objs, entry).Some?
    ensures MergeFrom([], ZERO, objs) == Some(all) && MapsFit(objs, all.maps)
    ensures RelsFrom(all.syms, ZERO, objs, all.maps) == Some(Link(objs, entry).value.rels)
    ensures Link(objs, entry).value.syms == all.syms && Link(objs, entry).value.code == Code(objs)
  {
    hide MergeFrom, RelsFrom, EntryOf, Code;
    all := MergeFrom([], ZERO, objs).value;
    MergeFits([], ZERO, objs);
  }

  /** Sites of the output are disjoint, so after loading each holds its value and the rest is untouched. */
  lemma LoadedSites(objs: seq<Prog>, entry: Option<Name>, a: Addresses)
    requires Compact(objs) && Link(objs, entry).Some? && Load(Link(objs, entry).value, a).Some?
    ensures var l := Link(objs, entry).value;
            var out := Load(l, a).value.code;
            && (forall r :: r in l.rels ==> Loadable(l, r) && HasAt(out, r.at, RelBytes(l, a, r)))
            && |out| == |Code(objs)|
            && (forall x :: 0 <= x < |out| && (forall r :: r in l.rels ==> !Covers(r, x)) ==> out[x] == Code(objs)[x])
  {
    var all := LinkParts(objs, entry);
    var l := Link(objs, entry).value;
    hide MergeFrom, RelsFrom, AllHygienic, Relocate, Link, Code, Disjoint, Loadable, RelBytes;
    RelsDisjoint(all.syms, ZERO, objs, all.maps);
    RelocateSpec(l, a, l.code, l.rels);
  }

  /** The value at a site is the target of the symbol its relocation was mapped to. */
  lemma RelBytesIsTarget(objs: seq<Prog>, l: Prog, a: Addresses, out: Rel, d: nat, s: Sym)
    requires d <= |objs| && Loadable(l, out) && l.syms[out.sym] == Adjust(s, BasesOf(ZERO, objs, d))
    ensures RelBytes(l, a, out) == Target(objs, a, out.kind, d, s)
  {
    hide BasesOf;
  }

  /** Link then load: relocation j of object i stores, at its rebased site, the address (or code offset) of
      the symbol it means. */
  lemma LinkLoadReference(objs: seq<Prog>, entry: Option<Name>, a: Addresses, i: nat, j: nat) returns (d: nat, m: nat)
    requires Linkable(objs) && Link(objs, entry).Some? && Load(Link(objs, entry).value, a).Some?
    requires i < |objs| && j < |objs[i].rels|
    ensures objs[i].rels[j].sym < |objs[i].syms| && Means(objs, i, objs[i].rels[j].sym, d, m)
    ensures HasAt(Load(Link(objs, entry).value, a).value.code, BasesOf(ZERO, objs, i).code + objs[i].rels[j].at,
                  Target(objs, a, objs[i].rels[j].kind, d, objs[d].syms[m]))
  {
    hide AllHygienic, AllSitesDisjoint, MergeFrom, RelsFrom, Link, Code, Load, Loadable, RelBytes, Target, Means,
         HasAt, BasesOf, ResolveSyms, ResolveSym, MapRel;
    var all := LinkParts(objs, entry);
    var l := Link(objs, entry).value;
    var q, map_ := RelAt(all.syms, ZERO, objs, all.maps, i, j);
    var r, out := objs[i].rels[j], l.rels[q];
    SiteRebased(objs, all.syms, all.maps, i, j, map_, out);
    LinkLaws.ResolveAt(all.syms, objs[i].syms, all.maps[i], r.sym);
    d, m := Reference(objs, all.syms, all.maps, i, r.sym, map_[r.sym]);
    LoadedSites(objs, entry, a);
    assert out in l.rels;
    RelBytesIsTarget(objs, l, a, out, d, objs[d].syms[m]);
  }

  lemma SiteRebased(objs: seq<Prog>, ms: seq<Sym>, maps: seq<seq<int>>, i: nat, j: nat, map_: seq<int>, out: Rel)
    requires AllSitesDisjoint(objs) && |Code(objs)| < TWO32 && i < |objs| && j < |objs[i].rels|
    requires MapsFit(objs, maps) && ResolveSyms(ms, objs[i].syms, maps[i]) == Some(map_)
    requires MapRel(objs[i].rels[j], map_, BasesOf(ZERO, objs, i).code) == Some(out)
    ensures objs[i].rels[j].sym < |map_| == |objs[i].syms| && map_[objs[i].rels[j].sym] >= 0
    ensures out.at == BasesOf(ZERO, objs, i).code + objs[i].rels[j].at
    ensures out.sym == map_[objs[i].rels[j].sym] && out.kind == objs[i].rels[j].kind
  {
    hide ResolveSyms, BasesOf;
    var r := objs[i].rels[j];
    assert objs[i] in objs;
    CodeAt(ZERO, objs, i, r.at);
  }

  /** The converse: outside the sites the loaded code is the objects' code. */
  lemma LinkLoadElsewhere(objs: seq<Prog>, entry: Option<Name>, a: Addresses, i: nat, x: nat)
    requires Compact(objs) && Link(objs, entry).Some? && Load(Link(objs, entry).value, a).Some?
    requires i < |objs| && x < |objs[i].code| && Clear(objs[i].rels, x)
    ensures BasesOf(ZERO, objs, i).code + x < |Load(Link(objs, entry).value, a).value.code|
    ensures Load(Link(objs, entry).value, a).value.code[BasesOf(ZERO, objs, i).code + x] == objs[i].code[x]
  {
    hide AllHygienic, AllSitesDisjoint, MergeFrom, RelsFrom, Link, Code, Load, Loadable, RelBytes, HasAt, BasesOf,
         Covers, Clear;
    var all := LinkParts(objs, entry);
    var l := Link(objs, entry).value;
    CodeAt(ZERO, objs, i, x);
    var y := BasesOf(ZERO, objs, i).code + x;
    NotCovered(all.syms, ZERO, objs, all.maps, i, x);
    ClearMeans(l.rels, y);
    LoadedSites(objs, entry, a);
  }

  /** No relocation overwrites byte x. */
  ghost predicate Clear(rels: seq<Rel>, x: int) {
    forall j :: 0 <= j < |rels| ==> !Covers(rels[j], x)
  }

  lemma ClearMeans(rels: seq<Rel>, x: int)
    requires Clear(rels, x)
    ensures forall r :: r in rels ==> !Covers(r, x)
  {
  }

  lemma ClearAppend(p: seq<Rel>, s: seq<Rel>, x: int)
    requires Clear(p, x) && Clear(s, x)
    ensures Clear(p + s, x)
  {
  }

  lemma ClearOutside(rels: seq<Rel>, lo: nat, hi: nat, x: int)
    requires DisjointIn(rels, lo, hi) && !(lo <= x < hi)
    ensures Clear(rels, x)
  {
  }

  lemma ClearShift(rels: seq<Rel>, m: seq<int>, base: nat, n: nat, x: nat)
    requires Clear(rels, x) && MapRels(rels, m, base).Some? && Disjoint(rels, n) && base + n < TWO32
    ensures Clear(MapRels(rels, m, base).value, base + x)
  {
    var out := MapRels(rels, m, base).value;
    MapRelsLength(rels, m, base);
    forall k | 0 <= k < |out| ensures !Covers(out[k], base + x) {
      MapRelAt(rels, m, base, k);
    }
  }

  /** A site of one object never covers a byte of another. */
  lemma {:induction false} NotCovered(
      ms: seq<Sym>, b: Bases, objs: seq<Prog>, maps: seq<seq<int>>, i: nat, x: nat)
    requires MapsFit(objs, maps) && RelsFrom(ms, b, objs, maps).Some? && AllSitesDisjoint(objs)
    requires b.code + |Code(objs)| < TWO32 && i < |objs| && x < |objs[i].code| && Clear(objs[i].rels, x)
    ensures Clear(RelsFrom(ms, b, objs, maps).value, BasesOf(b, objs, i).code + x)
    decreases |objs|
  {
    var m := RelsCons(ms, b, objs, maps);
    DisjointTail(objs);
    hide MapRels, Disjoint, DisjointIn, Clear, BasesOf, RelsFrom, MapsFit, AllSitesDisjoint, Code;
    var rs := MapRels(objs[0].rels, m, b.code).value;
    var rest := RelsFrom(ms, After(b, objs[0]), objs[1..], maps[1..]).value;
    var mid, y := b.code + |objs[0].code|, BasesOf(b, objs, i).code + x;
    RelsDisjoint(ms, After(b, objs[0]), objs[1..], maps[1..]);
    if i == 0 {
      FirstBases(b, objs);
      ClearShift(objs[0].rels, m, b.code, |objs[0].code|, x);
      ClearOutside(rest, mid, b.code + |Code(objs)|, y);
    } else {
      MapRelsDisjoint(objs[0].rels, m, b.code, |objs[0].code|);
      BasesOfTail(b, objs, i);
      CodeAt(After(b, objs[0]), objs[1..], i - 1, x);
      ClearOutside(rs, b.code, mid, y);
      NotCovered(ms, After(b, objs[0]), objs[1..], maps[1..], i - 1, x);
    }
    ClearAppend(rs, rest, y);
  }

  lemma FirstBases(b: Bases, objs: seq<Prog>)
    ensures BasesOf(b, objs, 0) == b
  {
    assert objs[..0] == [];
  }

  /** When the output of a link can be loaded: it has code, and every relocation refers to a section that exists
      and is not empty. */
  lemma LinkedLoadsIff(objs: seq<Prog>, entry: Option<Name>, a: Addresses)
    requires Link(objs, entry).Some?
    ensures var l := Link(objs, entry).value;
            && (forall r :: r in l.rels ==> r.sym < |l.syms|)
            && (Load(l, a).Some? <==>
                  |l.code| > 0 && forall r :: r in l.rels ==>
                    var sec := l.syms[r.sym].section;
                    sec in {SEC_CNST, SEC_DATA, SEC_CODE} && |SectionOf(l, sec)| > 0)
  {
    hide Link, Relocate, Load, Loadable, SectionOf;
    LinkLaws.LinkedObject(objs, entry);
    var l := Link(objs, entry).value;
    LoadIff(l, a);
    forall r | r in l.rels
      ensures r.sym < |l.syms|
      ensures Loadable(l, r) <==> l.syms[r.sym].section in {SEC_CNST, SEC_DATA, SEC_CODE}
                                  && |SectionOf(l, l.syms[r.sym].section)| > 0
    {
      var j :| 0 <= j < |l.rels| && l.rels[j] == r;
      LoadableIff(l, r);
    }
  }

  lemma LoadableIff(p: Prog, r: Rel)
    requires r.sym < |p.syms| && p.syms[r.sym].flags != SYM_EXTERN
    ensures Loadable(p, r) <==> p.syms[r.sym].section in {SEC_CNST, SEC_DATA, SEC_CODE}
                                && |SectionOf(p, p.syms[r.sym].section)| > 0
  {
  }

  lemma LoadIff(p: Prog, a: Addresses)
    ensures Load(p, a).Some? <==> |p.code| > 0 && forall r :: r in p.rels ==> Loadable(p, r)
  {
    hide Loadable, Relocate;
    RelocateDefined(p, a, p.code, p.rels);
  }

  // ----- what lies behind an address --------------------------------------------------------------------

  lemma {:induction false} CnstAt(b: Bases, objs: seq<Prog>, i: nat, x: nat)
    requires i < |objs| && x < |objs[i].cnst|
    ensures b.cnst <= BasesOf(b, objs, i).cnst && BasesOf(b, objs, i).cnst - b.cnst + x < |Cnst(objs)|
    ensures Cnst(objs)[BasesOf(b, objs, i).cnst - b.cnst + x] == objs[i].cnst[x]
    decreases |objs|
  {
    if i == 0 {
      FirstBases(b, objs);
    } else {
      BasesOfTail(b, objs, i);
      CnstAt(After(b, objs[0]), objs[1..], i - 1, x);
    }
  }

  lemma {:induction false} DataAt(b: Bases, objs: seq<Prog>, i: nat, x: nat)
    requires i < |objs| && x < |objs[i].data|
    ensures b.data <= BasesOf(b, objs, i).data && BasesOf(b, objs, i).data - b.data + x < |Data(objs)|
    ensures Data(objs)[BasesOf(b, objs, i).data - b.data + x] == objs[i].data[x]
    decreases |objs|
  {
    if i == 0 {
      FirstBases(b, objs);
    } else {
      BasesOfTail(b, objs, i);
      DataAt(After(b, objs[0]), objs[1..], i - 1, x);
    }
  }

  /** Byte y of a section of object d, found in the output. */
  lemma SectionByte(objs: seq<Prog>, l: Prog, d: nat, sec: byte, y: nat)
    requires d < |objs| && sec in {SEC_CNST, SEC_DATA, SEC_CODE} && y < |SectionOf(objs[d], sec)|
    requires l.cnst == Cnst(objs) && l.data == Data(objs) && l.code == Code(objs)
    ensures SectionBase(BasesOf(ZERO, objs, d), sec) + y < |SectionOf(l, sec)|
    ensures SectionOf(l, sec)[SectionBase(BasesOf(ZERO, objs, d), sec) + y] == SectionOf(objs[d], sec)[y]
  {
    hide BasesOf, Cnst, Data, Code;
    if sec == SEC_CNST { CnstAt(ZERO, objs, d, y); }
    else if sec == SEC_DATA { DataAt(ZERO, objs, d, y); }
    else { CodeAt(ZERO, objs, d, y); }
  }

  /** The offset of a relocated symbol, without wrap-around, is where its object's bytes lie in the output
      section: the address stored at a site points at the definition. */
  lemma DefinitionByte(objs: seq<Prog>, entry: Option<Name>, d: nat, s: Sym, x: nat)
    requires Link(objs, entry).Some? && d < |objs| && s.section in {SEC_CNST, SEC_DATA, SEC_CODE}
    requires |SectionOf(Link(objs, entry).value, s.section)| < TWO32
    requires s.offset + x < |SectionOf(objs[d], s.section)|
    ensures var off := Adjust(s, BasesOf(ZERO, objs, d)).offset;
            && off == s.offset + SectionBase(BasesOf(ZERO, objs, d), s.section)
            && off + x < |SectionOf(Link(objs, entry).value, s.section)|
            && SectionOf(Link(objs, entry).value, s.section)[off + x] == SectionOf(objs[d], s.section)[s.offset + x]
  {
    hide Link, BasesOf, SectionOf, SectionBase;
    var l := Link(objs, entry).value;
    LinkedSections(objs, entry);
    SectionByte(objs, l, d, s.section, s.offset + x);
  }

  lemma LinkedSections(objs: seq<Prog>, entry: Option<Name>)
    requires Link(objs, entry).Some?
    ensures var l := Link(objs, entry).value; l.cnst == Cnst(objs) && l.data == Data(objs) && l.code == Code(objs)
  {
    hide MergeFrom, RelsFrom, EntryOf;
  }
}
