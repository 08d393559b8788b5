/** The incremental linking law, with the exact inputs on which the code departs from it. */
module Incremental {
  import opened Words
  import opened Objects
  import opened Linker
  import opened LinkLaws
  import opened LinkNames

  lemma HasSolidCons(defs: seq<Sym>, n: Name)
    requires defs != []
    ensures HasSolid(defs, n) <==> Solid(defs[0], n) || HasSolid(defs[1..], n)
  {
    assert defs == [defs[0]] + defs[1..];
    HasGlobalAppend([defs[0]], defs[1..], n);
    assert [defs[0]][0] == defs[0];
  }

  /** A last global without a section. */
  lemma {:induction false} LatestBare(s: Sym, defs: seq<Sym>, n: Name)
    requires !HasSolid(defs, n) && (HasGlobal(defs, n) || s.section == SEC_NONE)
    ensures Latest(s, defs, n).section == SEC_NONE
    decreases |defs|
  {
    if defs == [] {
      assert !HasGlobal(defs, n);
    } else {
      HasSolidCons(defs, n);
      HasGlobalCons(defs, n);
      hide HasSolid, HasGlobal;
      LatestBare(if IsGlobal(defs[0], n) then defs[0] else s, defs[1..], n);
    }
  }

  /** After a global with a section none of its name may follow, so it is the last. */
  lemma {:induction false} LatestSolid(ms: seq<Sym>, defs: seq<Sym>, n: Name)
    requires TableOk(ms) && NoExterns(defs) && AddAll(ms, defs).Some?
    requires FindSym(ms, n) < |ms| && HasSolid(defs, n)
    ensures Latest(ms[FindSym(ms, n)], defs, n).section != SEC_NONE
    decreases |defs|
  {
    if defs == [] {
      NoGlobals(n);
    } else {
      hide AddSym, FindSym, HasSolid, HasGlobal, TableOk;
      var s, rest, e := defs[0], defs[1..], FindSym(ms, n);
      var m := AddSym(ms, s).syms;
      HasSolidCons(defs, n);
      AddSymKeeps(ms, s);
      FindAfter(ms, s, n);
      EntryStep(ms, e, s);
      if Solid(s, n) {
        SolidIn(m, e, n);
        NothingFollows(m, rest, n);
        LatestGlobal(s, rest, n);
      } else {
        LatestSolid(m, rest, n);
      }
    }
  }

  lemma SolidIn(ms: seq<Sym>, e: nat, n: Name)
    requires e < |ms| && Solid(ms[e], n)
    ensures HasSolid(ms, n)
  {
  }

  /** Once a global with a section is in the table, additions that succeed hold no other of its name. */
  lemma NothingFollows(ms: seq<Sym>, defs: seq<Sym>, n: Name)
    requires TableOk(ms) && NoExterns(defs) && AddAll(ms, defs).Some? && HasSolid(ms, n)
    ensures !HasGlobal(defs, n)
  {
    hide AddAll, TableOk, NoExterns, HasSolid, Clash;
    AddAllIff(ms, defs);
    forall j | 0 <= j < |defs| ensures !IsGlobal(defs[j], n) { }
  }

  /** The entry of a placed name after more definitions: without a section exactly if it was no global and all
      globals of the name among the definitions are without one. */
  lemma PlacedAfter(ms: seq<Sym>, defs: seq<Sym>, n: Name)
    requires TableOk(ms) && NoExterns(defs) && AddAll(ms, defs).Some?
    requires FindSym(ms, n) < |ms| && ms[FindSym(ms, n)].section != SEC_NONE
    ensures var out := AddAll(ms, defs).value;
            && FindSym(out, n) < |out|
            && (out[FindSym(out, n)].section == SEC_NONE <==>
                  ms[FindSym(ms, n)].flags != SYM_GLOBAL && HasGlobal(defs, n) && !HasSolid(defs, n))
  {
    hide AddAll, HasSolid, HasGlobal, TableOk, NoExterns;
    var e := FindSym(ms, n);
    SlotFate(ms, e, defs);
    FindStays(ms, defs, n);
    LatestGlobal(ms[e], defs, n);
    if HasGlobal(defs, n) {
      if ms[e].flags == SYM_GLOBAL {
        SolidIn(ms, e, n);
        NothingFollows(ms, defs, n);
      } else if HasSolid(defs, n) {
        LatestSolid(ms, defs, n);
      } else {
        LatestBare(ms[e], defs, n);
      }
    }
  }

  /** P imports n without exporting it, and S exports n, but only without a section. */
  ghost predicate Overtaken(p: seq<Prog>, s: seq<Prog>, n: Name) {
    && (exists i, k :: ImportsAt(p, i, k, n))
    && !Exports(p, n) && Exports(s, n) && !ExportsPlaced(s, n)
  }

  /** One import of P in the table S was merged onto. */
  lemma ImportMet(p: seq<Prog>, s: seq<Prog>, entry: Option<Name>, r: MergedAll, i: nat, k: nat, n: Name)
    requires Link(p, entry).Some? && ImportsAt(p, i, k, n)
    requires MergeFrom(Link(p, entry).value.syms, BasesAfter(ZERO, p), s) == Some(r)
    ensures FindSym(r.syms, n) < |r.syms|
    ensures r.syms[FindSym(r.syms, n)].section == SEC_NONE <==> Exports(s, n) && !Exports(p, n) && !ExportsPlaced(s, n)
  {
    hide Link, MergeFrom, AddAll, Exports, ExportsPlaced, HasGlobal, HasSolid, NoExterns, Defs, TableOk, Resolved;
    var ms, b := Link(p, entry).value.syms, BasesAfter(ZERO, p);
    LinkedObject(p, entry);
    PartsMet(p, entry);
    FoundPlaced(ms, p, i, k, n);
    ExternBinding(p, entry, i, k, n);
    ResolvedIsFind(p, entry, i, k, n);
    MergeIsAddAll(ms, b, s);
    DefsNoExterns(b, s);
    DefsExport(b, s, n);
    PlacedAfter(ms, Defs(b, s), n);
  }

  lemma FoundPlaced(ms: seq<Sym>, p: seq<Prog>, i: nat, k: nat, n: Name)
    requires AllMet(ms, p) && ImportsAt(p, i, k, n)
    ensures FindSym(ms, n) < |ms| && ms[FindSym(ms, n)].section != SEC_NONE
  {
    assert Met(ms, p[i].syms);
  }

  lemma ResolvedIsFind(p: seq<Prog>, entry: Option<Name>, i: nat, k: nat, n: Name)
    requires Link(p, entry).Some? && ImportsAt(p, i, k, n)
    ensures Resolved(p, i, k) == Some(FindSym(Link(p, entry).value.syms, n))
  {
    hide Link, Resolved;
    var ms, map_ := LinkResolves(p, entry, i, k);
  }

  /** The imports of P stay met exactly if none of their names is overtaken. */
  lemma MetIff(p: seq<Prog>, s: seq<Prog>, entry: Option<Name>, r: MergedAll)
    requires Link(p, entry).Some?
    requires MergeFrom(Link(p, entry).value.syms, BasesAfter(ZERO, p), s) == Some(r)
    ensures AllMet(r.syms, p) <==> !exists n :: Overtaken(p, s, n)
  {
    hide Link, MergeFrom, Exports, ExportsPlaced;
    if n :| Overtaken(p, s, n) {
      var i, k :| ImportsAt(p, i, k, n);
      ImportMet(p, s, entry, r, i, k, n);
      if AllMet(r.syms, p) { FoundPlaced(r.syms, p, i, k, n); }
    }
    if !exists n :: Overtaken(p, s, n) {
      forall i | 0 <= i < |p| ensures Met(r.syms, p[i].syms) {
        forall k | 0 <= k < |p[i].syms| && p[i].syms[k].flags == SYM_EXTERN
          ensures FindSym(r.syms, p[i].syms[k].name) < |r.syms|
          ensures r.syms[FindSym(r.syms, p[i].syms[k].name)].section != SEC_NONE
        {
          var n := p[i].syms[k].name;
          assert ImportsAt(p, i, k, n);
          ImportMet(p, s, entry, r, i, k, n);
          assert !Overtaken(p, s, n);
        }
      }
    }
  }

  /** Incremental linking: linking a linked object with more objects is linking all the objects at once, in
      success and in every field of the result, except exactly when the two-step link succeeds while S exports,
      only without a section, a name that P imports and does not export; then linking all at once fails. */
  lemma IncrementalLink(p: seq<Prog>, s: seq<Prog>, e1: Option<Name>, e2: Option<Name>)
    requires Link(p, e1).Some?
    ensures var l := Link(p, e1).value;
            (Link([l] + s, e2) == Link(p + s, e2)) <==>
            !(Link([l] + s, e2).Some? && exists n :: Overtaken(p, s, n))
    ensures var l := Link(p, e1).value;
            Link([l] + s, e2) != Link(p + s, e2) ==> Link(p + s, e2) == None
  {
    hide Link, MergeFrom, AllMet, Overtaken;
    TwoSteps(p, s, e1, e2);
    match MergeFrom(Link(p, e1).value.syms, BasesAfter(ZERO, p), s)
    case None =>
    case Some(r) => MetIff(p, s, e1, r);
  }

  /** In particular the law holds whenever the globals of S have sections, as the assembler writes them. */
  lemma PlacedGlobalsLink(p: seq<Prog>, s: seq<Prog>, e1: Option<Name>, e2: Option<Name>)
    requires Link(p, e1).Some? && GlobalsPlaced(s)
    ensures Link([Link(p, e1).value] + s, e2) == Link(p + s, e2)
  {
    hide Link, ImportsAt;
    IncrementalLink(p, s, e1, e2);
    forall n ensures !Overtaken(p, s, n) {
      if Exports(s, n) {
        var i, k :| 0 <= i < |s| && 0 <= k < |s[i].syms| && IsGlobal(s[i].syms[k], n);
        assert s[i] in s && s[i].syms[k] in s[i].syms;
        assert Solid(s[i].syms[k], n);
      }
    }
  }
}
