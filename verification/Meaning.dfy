/** What every relocated reference means after link and load, for any objects, well-behaved or not. */
module Meaning {
  import opened Words
  import opened Objects
  import opened Linker
  import opened LinkLaws
  import opened LinkNames
  import opened Loader
  import opened LinkLoad

  // ----- a symbol's place among the definitions -----------------------------------------------------------

  /** Definitions before symbol k of object i, in link order. */
  function DefsBefore(objs: seq<Prog>, i: nat, k: nat): seq<Sym>
    requires i < |objs| && k < |objs[i].syms|
  {
    Defs(ZERO, objs[..i]) + DefsOf(BasesOf(ZERO, objs, i), objs[i].syms[..k])
  }

  /** Definitions after it. */
  function DefsBehind(objs: seq<Prog>, i: nat, k: nat): seq<Sym>
    requires i < |objs| && k < |objs[i].syms|
  {
    var b := BasesOf(ZERO, objs, i);
    DefsOf(b, objs[i].syms[k + 1..]) + Defs(After(b, objs[i]), objs[i + 1..])
  }

  /** What symbol k of object i is in the output. An extern: the first definition of its name, or the last global
      of the name. A definition: itself, except that the first of its name, and any global, gives way to the last
      global of the name that follows. */
  function Final(objs: seq<Prog>, i: nat, k: nat): Option<Sym>
    requires i < |objs| && k < |objs[i].syms|
  {
    var s := objs[i].syms[k];
    var t := Adjust(s, BasesOf(ZERO, objs, i));
    if s.flags == SYM_EXTERN then Bound(Defs(ZERO, objs), s.name)
    else if s.flags == SYM_GLOBAL || Bound(DefsBefore(objs, i, k), s.name) == None
    then Some(Latest(t, DefsBehind(objs, i, k), s.name))
    else Some(t)
  }

  // ----- the definitions, split at a symbol -----------------------------------------------------------------

  lemma CatAssoc(a: seq<Sym>, b: seq<Sym>, c: seq<Sym>)
    ensures (a + b) + c == a + (b + c)
  {
  }

  lemma {:induction false} DefsOfSplit(b: Bases, x: seq<Sym>, y: seq<Sym>)
    ensures DefsOf(b, x + y) == DefsOf(b, x) + DefsOf(b, y)
    decreases |x|
  {
    hide Adjust;
    if x == [] {
      assert x + y == y;
    } else {
      assert (x + y)[0] == x[0] && (x + y)[1..] == x[1..] + y;
      DefsOfSplit(b, x[1..], y);
      CatAssoc([Adjust(x[0], b)], DefsOf(b, x[1..]), DefsOf(b, y));
    }
  }

  lemma {:induction false} DefsSplit(b: Bases, p: seq<Prog>, s: seq<Prog>)
    ensures Defs(b, p + s) == Defs(b, p) + Defs(BasesAfter(b, p), s)
    decreases |p|
  {
    hide DefsOf, After;
    if p == [] {
      assert p + s == s;
    } else {
      assert (p + s)[0] == p[0] && (p + s)[1..] == p[1..] + s;
      DefsSplit(After(b, p[0]), p[1..], s);
      CatAssoc(DefsOf(b, p[0].syms), Defs(After(b, p[0]), p[1..]), Defs(BasesAfter(b, p), s));
    }
  }

  lemma DefsAround(objs: seq<Prog>, i: nat, k: nat)
    requires i < |objs| && k < |objs[i].syms| && objs[i].syms[k].flags != SYM_EXTERN
    ensures Defs(ZERO, objs)
         == DefsBefore(objs, i, k) + ([Adjust(objs[i].syms[k], BasesOf(ZERO, objs, i))] + DefsBehind(objs, i, k))
  {
    hide Adjust, After;
    var b, o := BasesOf(ZERO, objs, i), objs[i];
    assert objs == objs[..i] + ([o] + objs[i + 1..]);
    DefsSplit(ZERO, objs[..i], [o] + objs[i + 1..]);
    assert ([o] + objs[i + 1..])[1..] == objs[i + 1..];
    assert o.syms == o.syms[..k] + ([o.syms[k]] + o.syms[k + 1..]);
    DefsOfSplit(b, o.syms[..k], [o.syms[k]] + o.syms[k + 1..]);
    assert ([o.syms[k]] + o.syms[k + 1..])[1..] == o.syms[k + 1..];
    Regroup(Defs(ZERO, objs[..i]), DefsOf(b, o.syms[..k]), [Adjust(o.syms[k], b)], DefsOf(b, o.syms[k + 1..]),
            Defs(After(b, o), objs[i + 1..]));
  }

  lemma Regroup(u: seq<Sym>, v: seq<Sym>, w: seq<Sym>, x: seq<Sym>, y: seq<Sym>)
    ensures u + ((v + (w + x)) + y) == (u + v) + (w + (x + y))
  {
  }

  // ----- map entries ----------------------------------------------------------------------------------------------

  /** The index a definition gets in pass 3, after those before it. */
  ghost predicate AddedAt(ms: seq<Sym>, before: seq<Sym>, s: Sym, at: int) {
    && AddAll(ms, before).Some? && AddSym(AddAll(ms, before).value, s).Added?
    && AddSym(AddAll(ms, before).value, s).at == at
  }

  lemma {:induction false} MapEntry(ms: seq<Sym>, b: Bases, syms: seq<Sym>, k: nat)
    requires MergeSyms(ms, b, syms).Some? && k < |syms| && syms[k].flags != SYM_EXTERN
    ensures k < |MergeSyms(ms, b, syms).value.map_|
    ensures AddedAt(ms, DefsOf(b, syms[..k]), Adjust(syms[k], b), MergeSyms(ms, b, syms).value.map_[k])
    decreases |syms|
  {
    hide AddSym, Adjust;
    MergeSymsFits(ms, b, syms);
    if k == 0 {
      assert syms[..0] == [];
    } else {
      assert syms[..k][0] == syms[0] && syms[..k][1..] == syms[1..][..k - 1];
      if syms[0].flags == SYM_EXTERN {
        MapEntry(ms, b, syms[1..], k - 1);
      } else {
        var m := AddSym(ms, Adjust(syms[0], b)).syms;
        MapEntry(m, b, syms[1..], k - 1);
        AddFirst(ms, Adjust(syms[0], b), DefsOf(b, syms[1..][..k - 1]));
      }
    }
  }

  lemma AddFirst(ms: seq<Sym>, s: Sym, defs: seq<Sym>)
    requires AddSym(ms, s).Added?
    ensures AddAll(ms, [s] + defs) == AddAll(AddSym(ms, s).syms, defs)
  {
    hide AddSym;
    assert ([s] + defs)[1..] == defs;
  }

  lemma {:induction false} MapOf(ms: seq<Sym>, b: Bases, objs: seq<Prog>, i: nat)
    requires MergeFrom(ms, b, objs).Some? && i < |objs|
    ensures i < |MergeFrom(ms, b, objs).value.maps|
    ensures AddAll(ms, Defs(b, objs[..i])).Some?
    ensures var at := AddAll(ms, Defs(b, objs[..i])).value;
            MergeSyms(at, BasesOf(b, objs, i), objs[i].syms).Some?
            && MergeFrom(ms, b, objs).value.maps[i] == MergeSyms(at, BasesOf(b, objs, i), objs[i].syms).value.map_
    decreases |objs|
  {
    hide MergeSyms, DefsOf, After, AddAll;
    MergeFits(ms, b, objs);
    if i == 0 {
      assert objs[..0] == [];
      NoDefs(ms);
    } else {
      var o, rest := objs[0], objs[1..];
      var m := MergeSyms(ms, b, o.syms).value.syms;
      MergeSymsIsAddAll(ms, b, o.syms);
      MapOf(m, After(b, o), rest, i - 1);
      BasesOfTail(b, objs, i);
      assert objs[..i][0] == o && objs[..i][1..] == rest[..i - 1];
      AddAllSplit(ms, DefsOf(b, o.syms), Defs(After(b, o), rest[..i - 1]));
    }
  }

  lemma MapAt(objs: seq<Prog>, all: MergedAll, i: nat, k: nat)
    requires MergeFrom([], ZERO, objs) == Some(all) && i < |objs| && k < |objs[i].syms|
    requires objs[i].syms[k].flags != SYM_EXTERN
    ensures i < |all.maps| && k < |all.maps[i]|
    ensures AddedAt([], DefsBefore(objs, i, k), Adjust(objs[i].syms[k], BasesOf(ZERO, objs, i)), all.maps[i][k])
  {
    hide MergeFrom, MergeSyms, AddAll, AddSym, Adjust, DefsOf, Defs, BasesOf;
    var b, before := BasesOf(ZERO, objs, i), Defs(ZERO, objs[..i]);
    MapOf([], ZERO, objs, i);
    MapEntry(AddAll([], before).value, b, objs[i].syms, k);
    AddAllSplit([], before, DefsOf(b, objs[i].syms[..k]));
  }

  // ----- from the entry to its final value ------------------------------------------------------------------------

  /** While the table has room every defined name is in it. */
  lemma {:induction false} RoomKnows(ms: seq<Sym>, defs: seq<Sym>, n: Name)
    requires AddAll(ms, defs).Some? && |AddAll(ms, defs).value| < MAX_SYMS
    ensures var out := AddAll(ms, defs).value;
            FindSym(out, n) < |out| <==> FindSym(ms, n) < |ms| || Bound(defs, n).Some?
    decreases |defs|
  {
    if defs != [] {
      var s := defs[0];
      var m := AddSym(ms, s).syms;
      TableGrows(m, defs[1..]);
      if FindSym(ms, n) < |ms| {
        FindStays(ms, defs, n);
      } else if s.name == n {
        FindInAppended(ms, s);
        FindStays(m, defs[1..], n);
      } else {
        FindElsewhere(ms, s, n);
        RoomKnows(m, defs[1..], n);
      }
    }
  }

  lemma {:induction false} TableGrows(ms: seq<Sym>, defs: seq<Sym>)
    requires AddAll(ms, defs).Some?
    ensures |ms| <= |AddAll(ms, defs).value|
    decreases |defs|
  {
    if defs != [] {
      var m := AddSym(ms, defs[0]).syms;
      assert |ms| <= |m|;
      hide AddSym;
      TableGrows(m, defs[1..]);
    }
  }

  /** An added symbol is the first of its name exactly if it is a global or no definition of the name precedes. */
  lemma FirstOfName(before: seq<Sym>, s: Sym)
    requires AddAll([], before).Some?
    requires AddSym(AddAll([], before).value, s).Added? && AddSym(AddAll([], before).value, s).at >= 0
    ensures var a := AddSym(AddAll([], before).value, s);
            && a.at < |a.syms| && a.syms[a.at] == s
            && (FindSym(a.syms, s.name) == a.at <==> s.flags == SYM_GLOBAL || Bound(before, s.name) == None)
  {
    var ms := AddAll([], before).value;
    var a := AddSym(ms, s);
    hide AddAll;
    FindInAppended(ms, s);
    if s.flags == SYM_GLOBAL {
      FindUnique(a.syms, s.name, a.at);
    } else {
      RoomKnows([], before, s.name);
    }
  }

  /** The entry of a definition in the output. */
  lemma DefinitionFate(before: seq<Sym>, s: Sym, behind: seq<Sym>, at: int)
    requires AddedAt([], before, s, at) && at >= 0 && AddAll([], before + ([s] + behind)).Some?
    ensures at < |AddAll([], before + ([s] + behind)).value|
    ensures AddAll([], before + ([s] + behind)).value[at]
         == if s.flags == SYM_GLOBAL || Bound(before, s.name) == None then Latest(s, behind, s.name) else s
  {
    hide AddSym, FindSym;
    AddAllSplit([], before, [s] + behind);
    var ms := AddAll([], before).value;
    AddFirst(ms, s, behind);
    FirstOfName(before, s);
    hide AddAll;
    SlotFate(AddSym(ms, s).syms, at, behind);
  }

  // ----- the theorem -------------------------------------------------------------------------------------

  /** The merged entry a symbol is resolved to is its final value. */
  lemma ResolvedIsFinal(objs: seq<Prog>, entry: Option<Name>, i: nat, k: nat)
    requires Link(objs, entry).Some? && i < |objs| && k < |objs[i].syms|
    ensures Resolved(objs, i, k).Some?
    ensures var x, ms := Resolved(objs, i, k).value, Link(objs, entry).value.syms;
            x >= 0 ==> x < |ms| && Final(objs, i, k) == Some(ms[x])
  {
    hide Link, AddAll, AddSym, Defs, DefsBefore, DefsBehind, Bound, Latest, MergeFrom, Adjust, BasesOf, Exports,
         FindSym;
    var s := objs[i].syms[k];
    var ms, map_ := LinkResolves(objs, entry, i, k);
    if s.flags == SYM_EXTERN {
      assert ImportsAt(objs, i, k, s.name);
      ExternBinding(objs, entry, i, k, s.name);
    } else {
      var at := DefinedAt(objs, entry, i, k);
      if at >= 0 {
        DefsAround(objs, i, k);
        AdjustName(s, BasesOf(ZERO, objs, i));
        DefinitionFate(DefsBefore(objs, i, k), Adjust(s, BasesOf(ZERO, objs, i)), DefsBehind(objs, i, k), at);
      }
    }
  }

  lemma AdjustName(s: Sym, b: Bases)
    ensures Adjust(s, b).name == s.name && Adjust(s, b).flags == s.flags && Adjust(s, b).section == s.section
  {
  }

  lemma DefinedAt(objs: seq<Prog>, entry: Option<Name>, i: nat, k: nat) returns (at: int)
    requires Link(objs, entry).Some? && i < |objs| && k < |objs[i].syms| && objs[i].syms[k].flags != SYM_EXTERN
    ensures Resolved(objs, i, k) == Some(at)
    ensures AddedAt([], DefsBefore(objs, i, k), Adjust(objs[i].syms[k], BasesOf(ZERO, objs, i)), at)
  {
    hide Link, MergeFrom, RelsFrom, AddAll, AddSym, Adjust, BasesOf, DefsBefore, ResolveSyms;
    var all := LinkParts(objs, entry);
    MergeFits([], ZERO, objs);
    EachResolves(all.syms, ZERO, objs, all.maps, i);
    ResolveAt(all.syms, objs[i].syms, all.maps[i], k);
    MapAt(objs, all, i, k);
    at := all.maps[i][k];
  }

  /** Bytes a relocation of this kind stores for a symbol of the output. */
  function Stored(a: Addresses, kind: byte, s: Sym): seq<byte> {
    if kind == REL_CODE then Le(4, s.offset) else Le(8, (AddressOf(a, s.section) + s.offset) % TWO64)
  }

  /** Link then load, for any objects whose sites are in bounds and disjoint: relocation j of object i stores, at
      its rebased site, the address or code offset of what its symbol finally is. */
  lemma LinkLoadMeaning(objs: seq<Prog>, entry: Option<Name>, a: Addresses, i: nat, j: nat)
    requires Compact(objs) && Link(objs, entry).Some? && Load(Link(objs, entry).value, a).Some?
    requires i < |objs| && j < |objs[i].rels|
    ensures objs[i].rels[j].sym < |objs[i].syms| && Final(objs, i, objs[i].rels[j].sym).Some?
    ensures HasAt(Load(Link(objs, entry).value, a).value.code, BasesOf(ZERO, objs, i).code + objs[i].rels[j].at,
                  Stored(a, objs[i].rels[j].kind, Final(objs, i, objs[i].rels[j].sym).value))
  {
    hide AllSitesDisjoint, MergeFrom, RelsFrom, Link, Code, Load, Loadable, RelBytes, Stored, HasAt, Final, BasesOf,
         ResolveSyms, ResolveSym, MapRel;
    var all := LinkParts(objs, entry);
    var l := Link(objs, entry).value;
    MergeFits([], ZERO, objs);
    var q, map_ := RelAt(all.syms, ZERO, objs, all.maps, i, j);
    var r, out := objs[i].rels[j], l.rels[q];
    SiteRebased(objs, all.syms, all.maps, i, j, map_, out);
    ResolvedIsFinal(objs, entry, i, r.sym);
    LoadedSites(objs, entry, a);
    assert out in l.rels;
    StoredIsRelBytes(l, a, out);
  }

  lemma StoredIsRelBytes(l: Prog, a: Addresses, r: Rel)
    requires Loadable(l, r)
    ensures r.sym < |l.syms| && RelBytes(l, a, r) == Stored(a, r.kind, l.syms[r.sym])
  {
  }
}
