/** When a link succeeds, exactly. */
module LinkSuccess {
  import opened Words
  import opened Objects
  import opened Linker
  import opened LinkLaws
  import opened LinkNames

  /** The first entry of the name has a section. */
  ghost predicate Provides(ms: seq<Sym>, n: Name) {
    exists x :: 0 <= x < |ms| && ms[x].name == n && ms[x].section != SEC_NONE
                && forall y :: 0 <= y < x ==> ms[y].name != n
  }

  /** Every imported name of an object is provided. */
  ghost predicate Provided(ms: seq<Sym>, syms: seq<Sym>) {
    forall k :: 0 <= k < |syms| && syms[k].flags == SYM_EXTERN ==> Provides(ms, syms[k].name)
  }

  /** Every relocation names a symbol of its object that is in the merged table. */
  ghost predicate Mapped(o: Prog, map_: seq<int>) {
    forall j :: 0 <= j < |o.rels| ==>
      && o.rels[j].sym < |o.syms| && o.rels[j].sym < |map_|
      && (o.syms[o.rels[j].sym].flags == SYM_EXTERN || map_[o.rels[j].sym] >= 0)
  }

  function TotalRels(objs: seq<Prog>): nat { if objs == [] then 0 else |objs[0].rels| + TotalRels(objs[1..]) }

  lemma ProvidesIff(ms: seq<Sym>, n: Name)
    ensures Provides(ms, n) <==> FindSym(ms, n) < |ms| && ms[FindSym(ms, n)].section != SEC_NONE
  {
    if x :| 0 <= x < |ms| && ms[x].name == n && ms[x].section != SEC_NONE
            && forall y :: 0 <= y < x ==> ms[y].name != n
    {
      FindUnique(ms, n, x);
    }
  }

  lemma {:induction false} ResolvesIff(ms: seq<Sym>, syms: seq<Sym>, map_: seq<int>)
    requires |map_| == |syms|
    ensures ResolveSyms(ms, syms, map_).Some? <==> Provided(ms, syms)
  {
    hide Provides;
    if syms != [] {
      ResolvesIff(ms, syms[1..], map_[1..]);
      ProvidesIff(ms, syms[0].name);
      assert syms == [syms[0]] + syms[1..];
      if Provided(ms, syms) {
        forall k | 0 <= k < |syms[1..]| && syms[1..][k].flags == SYM_EXTERN ensures Provides(ms, syms[1..][k].name) {
          assert syms[k + 1] == syms[1..][k];
        }
      }
    }
  }

  /** Indices of a table fit in 32 bits. */
  ghost predicate SmallMap(m: seq<int>) { forall k :: 0 <= k < |m| ==> m[k] < TWO32 }

  lemma {:induction false} MapRelsIff(rels: seq<Rel>, m: seq<int>, base: nat)
    requires SmallMap(m)
    ensures MapRels(rels, m, base).Some? <==> forall j :: 0 <= j < |rels| ==> rels[j].sym < |m| && m[rels[j].sym] >= 0
    ensures MapRels(rels, m, base).Some? ==> |MapRels(rels, m, base).value| == |rels|
  {
    if rels != [] {
      MapRelsIff(rels[1..], m, base);
      assert rels == [rels[0]] + rels[1..];
      assert forall j :: 0 <= j < |rels[1..]| ==> rels[1..][j] == rels[j + 1];
    }
  }

  /** One object passes exactly if what it imports is provided and its relocations are mapped. */
  lemma ObjectIff(ms: seq<Sym>, o: Prog, map_: seq<int>, base: nat)
    requires |map_| == |o.syms| && |ms| <= MAX_SYMS && MapBelow(map_, |ms|)
    requires ResolveSyms(ms, o.syms, map_).Some?
    ensures MapRels(o.rels, ResolveSyms(ms, o.syms, map_).value, base).Some? <==> Mapped(o, map_)
    ensures MapRels(o.rels, ResolveSyms(ms, o.syms, map_).value, base).Some? ==>
              |MapRels(o.rels, ResolveSyms(ms, o.syms, map_).value, base).value| == |o.rels|
  {
    hide ResolveSyms, MapRels, FindSym;
    var m := ResolveSyms(ms, o.syms, map_).value;
    forall k | 0 <= k < |m|
      ensures m[k] < TWO32 && (m[k] >= 0 <==> o.syms[k].flags == SYM_EXTERN || map_[k] >= 0)
    {
      ResolveAt(ms, o.syms, map_, k);
    }
    MapRelsIff(o.rels, m, base);
  }

  ghost predicate AllPass(ms: seq<Sym>, objs: seq<Prog>, maps: seq<seq<int>>)
    requires |maps| == |objs|
  {
    forall i :: 0 <= i < |objs| ==> Provided(ms, objs[i].syms) && Mapped(objs[i], maps[i])
  }

  lemma {:induction false} AllPassIff(ms: seq<Sym>, b: Bases, objs: seq<Prog>, maps: seq<seq<int>>)
    requires MapsFit(objs, maps) && |ms| <= MAX_SYMS && AllBelow(maps, |ms|)
    ensures RelsFrom(ms, b, objs, maps).Some? <==> AllPass(ms, objs, maps)
    ensures RelsFrom(ms, b, objs, maps).Some? ==> |RelsFrom(ms, b, objs, maps).value| == TotalRels(objs)
    decreases |objs|
  {
    hide ResolveSyms, MapRels, Provided, Mapped, MapBelow;
    if objs != [] {
      var rest, tail := objs[1..], maps[1..];
      assert MapsFit(rest, tail) && AllBelow(tail, |ms|);
      AllPassIff(ms, After(b, objs[0]), rest, tail);
      ResolvesIff(ms, objs[0].syms, maps[0]);
      if Provided(ms, objs[0].syms) { ObjectIff(ms, objs[0], maps[0], b.code); }
      PassCons(ms, objs, maps);
    }
  }

  lemma PassCons(ms: seq<Sym>, objs: seq<Prog>, maps: seq<seq<int>>)
    requires objs != [] && |maps| == |objs|
    ensures AllPass(ms, objs, maps) <==>
              Provided(ms, objs[0].syms) && Mapped(objs[0], maps[0]) && AllPass(ms, objs[1..], maps[1..])
  {
    hide Provided, Mapped;
    var rest, tail := objs[1..], maps[1..];
    assert forall i :: 0 <= i < |rest| ==> rest[i] == objs[i + 1] && tail[i] == maps[i + 1];
    if AllPass(ms, rest, tail) && Provided(ms, objs[0].syms) && Mapped(objs[0], maps[0]) {
      forall i | 0 <= i < |objs| ensures Provided(ms, objs[i].syms) && Mapped(objs[i], maps[i]) {
        if i > 0 { assert Provided(ms, rest[i - 1].syms) && Mapped(rest[i - 1], tail[i - 1]); }
      }
    }
  }

  /** A link succeeds exactly if the definitions merge, every imported name is provided with a section, every
      relocation names a symbol that the merged table holds, and there are at most 2048 relocations in all. */
  lemma LinksIff(objs: seq<Prog>, entry: Option<Name>)
    ensures Link(objs, entry).Some? <==>
              match MergeFrom([], ZERO, objs)
              case None => false
              case Some(all) => |all.maps| == |objs| && AllPass(all.syms, objs, all.maps) && TotalRels(objs) <= 2048
  {
    hide MergeFrom, RelsFrom, EntryOf, AllPass, TotalRels;
    if MergeFrom([], ZERO, objs).Some? {
      var all := MergeFrom([], ZERO, objs).value;
      MergeFits([], ZERO, objs);
      MergeKeeps([], ZERO, objs);
      MergeBelow([], ZERO, objs);
      AllPassIff(all.syms, ZERO, objs, all.maps);
    }
  }
}
