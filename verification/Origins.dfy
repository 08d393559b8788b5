/** Which definition a symbol finally stands for, told by positions in the input objects alone. */
module Origins {
  import opened Words
  import opened Objects
  import opened Linker
  import opened LinkNames
  import opened LinkLoad
  import opened Meaning

  /** Symbol (i, k) comes before symbol (d, m): in an earlier object, or earlier in the same one. */
  predicate Precedes(i: nat, k: nat, d: nat, m: nat) { i < d || (i == d && k < m) }

  predicate Is(objs: seq<Prog>, d: nat, m: nat) { d < |objs| && m < |objs[d].syms| }

  predicate GlobalAt(objs: seq<Prog>, d: nat, m: nat, n: Name) {
    Is(objs, d, m) && objs[d].syms[m].flags == SYM_GLOBAL && objs[d].syms[m].name == n
  }

  predicate DefinedIn(objs: seq<Prog>, d: nat, m: nat, n: Name) {
    Is(objs, d, m) && objs[d].syms[m].flags != SYM_EXTERN && objs[d].syms[m].name == n
  }

  ghost predicate LastGlobal(objs: seq<Prog>, d: nat, m: nat, n: Name) {
    GlobalAt(objs, d, m, n) && forall e: nat, k: nat :: GlobalAt(objs, e, k, n) ==> !Precedes(d, m, e, k)
  }

  ghost predicate FirstDefinition(objs: seq<Prog>, d: nat, m: nat, n: Name) {
    DefinedIn(objs, d, m, n) && forall e: nat, k: nat :: DefinedIn(objs, e, k, n) ==> !Precedes(e, k, d, m)
  }

  /** Symbol (i, k) finally stands for definition (d, m). An extern: for the last global of its name, without one
      for the first definition. A definition that is global or the first of its name: for the last global of the
      name behind it, if there is one. Any other definition, and one with none behind it: for itself. */
  ghost predicate StandsFor(objs: seq<Prog>, i: nat, k: nat, d: nat, m: nat)
    requires Is(objs, i, k)
  {
    var s := objs[i].syms[k];
    if s.flags == SYM_EXTERN then
      || LastGlobal(objs, d, m, s.name)
      || (FirstDefinition(objs, d, m, s.name) && forall e: nat, j: nat :: !GlobalAt(objs, e, j, s.name))
    else if (s.flags == SYM_GLOBAL || FirstDefinition(objs, i, k, s.name)) && Followed(objs, i, k, s.name)
    then LastGlobal(objs, d, m, s.name)
    else d == i && m == k
  }

  ghost predicate Followed(objs: seq<Prog>, i: nat, k: nat, n: Name) {
    exists d: nat, m: nat :: GlobalAt(objs, d, m, n) && Precedes(i, k, d, m)
  }

  ghost predicate Led(objs: seq<Prog>, i: nat, k: nat, n: Name) {
    exists d: nat, m: nat :: DefinedIn(objs, d, m, n) && Precedes(d, m, i, k)
  }

  // ----- lists of definitions ------------------------------------------------------------------------------

  /** The last global of a list, whatever stands before it. */
  lemma {:induction false} LatestIs(s: Sym, x: seq<Sym>, g: Sym, y: seq<Sym>, n: Name)
    requires IsGlobal(g, n) && !HasGlobal(y, n)
    ensures Latest(s, x + ([g] + y), n) == g
    decreases |x|
  {
    var all := x + ([g] + y);
    if x == [] {
      assert all == [g] + y && all[1..] == y;
      LatestGlobal(g, y, n);
    } else {
      assert all[0] == x[0] && all[1..] == x[1..] + ([g] + y);
      LatestIs(if IsGlobal(x[0], n) then x[0] else s, x[1..], g, y, n);
    }
  }

  lemma {:induction false} BoundIs(x: seq<Sym>, g: Sym, y: seq<Sym>, n: Name)
    requires IsGlobal(g, n) && !HasGlobal(y, n)
    ensures Bound(x + ([g] + y), n) == Some(g)
    decreases |x|
  {
    var all := x + ([g] + y);
    if x == [] {
      assert all == [g] + y && all[1..] == y;
      LatestGlobal(g, y, n);
    } else {
      assert all[0] == x[0] && all[1..] == x[1..] + ([g] + y);
      LatestIs(x[0], x[1..], g, y, n);
      BoundIs(x[1..], g, y, n);
    }
  }

  /** The first definition of the name, with no global behind it. */
  lemma {:induction false} BoundFirst(x: seq<Sym>, t: Sym, y: seq<Sym>, n: Name)
    requires Bound(x, n) == None && t.name == n
    ensures Bound(x + ([t] + y), n) == Some(Latest(t, y, n))
    decreases |x|
  {
    var all := x + ([t] + y);
    if x == [] {
      assert all == [t] + y && all[1..] == y;
    } else {
      assert all[0] == x[0] && all[1..] == x[1..] + ([t] + y);
      BoundFirst(x[1..], t, y, n);
    }
  }

  /** Once a global follows, what stood before it does not matter. */
  lemma {:induction false} LatestForgets(s: Sym, t: Sym, y: seq<Sym>, n: Name)
    requires HasGlobal(y, n)
    ensures Latest(s, y, n) == Latest(t, y, n)
    decreases |y|
  {
    var rest := y[1..];
    if !IsGlobal(y[0], n) {
      var i :| 0 <= i < |y| && IsGlobal(y[i], n);
      assert rest[i - 1] == y[i];
      LatestForgets(s, t, rest, n);
    }
  }

  lemma {:induction false} LatestOverall(s: Sym, x: seq<Sym>, t: Sym, y: seq<Sym>, n: Name)
    requires HasGlobal(y, n)
    ensures Latest(s, x + ([t] + y), n) == Latest(t, y, n)
    decreases |x|
  {
    var all := x + ([t] + y);
    if x == [] {
      assert all == [t] + y && all[1..] == y;
      LatestForgets(if IsGlobal(t, n) then t else s, t, y, n);
    } else {
      assert all[0] == x[0] && all[1..] == x[1..] + ([t] + y);
      LatestOverall(if IsGlobal(x[0], n) then x[0] else s, x[1..], t, y, n);
    }
  }

  lemma {:induction false} BoundOverall(x: seq<Sym>, t: Sym, y: seq<Sym>, n: Name)
    requires HasGlobal(y, n) && t.name == n
    ensures Bound(x + ([t] + y), n) == Some(Latest(t, y, n))
    decreases |x|
  {
    var all := x + ([t] + y);
    if x == [] {
      assert all == [t] + y && all[1..] == y;
    } else {
      assert all[0] == x[0] && all[1..] == x[1..] + ([t] + y);
      if x[0].name == n {
        LatestOverall(x[0], x[1..], t, y, n);
      } else {
        BoundOverall(x[1..], t, y, n);
      }
    }
  }

  // ----- positions and lists -----------------------------------------------------------------------------------

  /** A global behind symbol (i, k), by position and in the list of what follows. */
  lemma BehindIff(objs: seq<Prog>, i: nat, k: nat, n: Name)
    requires Is(objs, i, k)
    ensures HasGlobal(DefsBehind(objs, i, k), n) <==> Followed(objs, i, k, n)
  {
    hide Defs, DefsOf, After, HasGlobal;
    var b := BasesOf(ZERO, objs, i);
    var own, later := objs[i].syms[k + 1..], objs[i + 1..];
    HasGlobalAppend(DefsOf(b, own), Defs(After(b, objs[i]), later), n);
    DefsOfGlobals(b, own, n);
    DefsExport(After(b, objs[i]), later, n);
    FollowedIff(objs, i, k, n);
  }

  lemma FollowedIff(objs: seq<Prog>, i: nat, k: nat, n: Name)
    requires Is(objs, i, k)
    ensures Followed(objs, i, k, n) <==> HasGlobal(objs[i].syms[k + 1..], n) || Exports(objs[i + 1..], n)
  {
    var own, later := objs[i].syms[k + 1..], objs[i + 1..];
    if d: nat, m: nat :| GlobalAt(objs, d, m, n) && Precedes(i, k, d, m) {
      if d == i {
        assert own[m - k - 1] == objs[i].syms[m] && IsGlobal(own[m - k - 1], n);
      } else {
        assert later[d - i - 1] == objs[d] && IsGlobal(later[d - i - 1].syms[m], n);
      }
    }
    if m :| 0 <= m < |own| && IsGlobal(own[m], n) {
      assert GlobalAt(objs, i, k + 1 + m, n) && Precedes(i, k, i, k + 1 + m);
    }
    if d, m :| 0 <= d < |later| && 0 <= m < |later[d].syms| && IsGlobal(later[d].syms[m], n) {
      assert GlobalAt(objs, i + 1 + d, m, n) && Precedes(i, k, i + 1 + d, m);
    }
  }

  /** Some definition in the list has the name. */
  ghost predicate Knows(defs: seq<Sym>, n: Name) { exists q :: 0 <= q < |defs| && defs[q].name == n }

  lemma {:induction false} BoundIff(defs: seq<Sym>, n: Name)
    ensures Bound(defs, n).Some? <==> Knows(defs, n)
    decreases |defs|
  {
    hide Latest;
    if defs != [] {
      BoundIff(defs[1..], n);
      assert forall q :: 0 <= q < |defs[1..]| ==> defs[1..][q] == defs[q + 1];
      if q :| 0 <= q < |defs| && defs[q].name == n {
        if q > 0 { assert defs[1..][q - 1].name == n; }
      }
    }
  }

  lemma KnowsAppend(a: seq<Sym>, b: seq<Sym>, n: Name)
    ensures Knows(a + b, n) <==> Knows(a, n) || Knows(b, n)
  {
    if q :| 0 <= q < |a| && a[q].name == n { assert (a + b)[q].name == n; }
    if q :| 0 <= q < |b| && b[q].name == n { assert (a + b)[|a| + q].name == n; }
    if q :| 0 <= q < |a + b| && (a + b)[q].name == n { if q >= |a| { assert b[q - |a|].name == n; } }
  }

  ghost predicate DefinesOne(syms: seq<Sym>, n: Name) {
    exists m :: 0 <= m < |syms| && syms[m].flags != SYM_EXTERN && syms[m].name == n
  }

  lemma {:induction false} DefsOfKnows(b: Bases, syms: seq<Sym>, n: Name)
    ensures Knows(DefsOf(b, syms), n) <==> DefinesOne(syms, n)
    decreases |syms|
  {
    if syms != [] {
      var rest := syms[1..];
      DefsOfKnows(b, rest, n);
      KnowsAppend([Adjust(syms[0], b)], DefsOf(b, rest), n);
      assert forall m :: 0 <= m < |rest| ==> rest[m] == syms[m + 1];
      assert Knows([Adjust(syms[0], b)], n) <==> syms[0].name == n by {
        assert [Adjust(syms[0], b)][0].name == syms[0].name;
      }
      if m :| 0 <= m < |syms| && syms[m].flags != SYM_EXTERN && syms[m].name == n {
        if m > 0 { assert rest[m - 1].name == n; }
      }
    }
  }

  ghost predicate SomeDefines(objs: seq<Prog>, n: Name) { exists d :: 0 <= d < |objs| && DefinesOne(objs[d].syms, n) }

  lemma {:induction false} DefsKnows(b: Bases, objs: seq<Prog>, n: Name)
    ensures Knows(Defs(b, objs), n) <==> SomeDefines(objs, n)
    decreases |objs|
  {
    hide DefsOf, DefinesOne;
    if objs != [] {
      var rest := objs[1..];
      DefsOfKnows(b, objs[0].syms, n);
      DefsKnows(After(b, objs[0]), rest, n);
      KnowsAppend(DefsOf(b, objs[0].syms), Defs(After(b, objs[0]), rest), n);
      assert forall d :: 0 <= d < |rest| ==> rest[d] == objs[d + 1];
      if d :| 0 <= d < |objs| && DefinesOne(objs[d].syms, n) {
        if d > 0 { assert DefinesOne(rest[d - 1].syms, n); }
      }
    }
  }

  /** A definition before symbol (i, k), by position and in the list of what precedes. */
  lemma BeforeIff(objs: seq<Prog>, i: nat, k: nat, n: Name)
    requires Is(objs, i, k)
    ensures Bound(DefsBefore(objs, i, k), n).Some? <==> Led(objs, i, k, n)
  {
    hide Defs, DefsOf, Knows, SomeDefines, DefinesOne, Bound;
    var b := BasesOf(ZERO, objs, i);
    BoundIff(DefsBefore(objs, i, k), n);
    KnowsAppend(Defs(ZERO, objs[..i]), DefsOf(b, objs[i].syms[..k]), n);
    DefsKnows(ZERO, objs[..i], n);
    DefsOfKnows(b, objs[i].syms[..k], n);
    LedIff(objs, i, k, n);
  }

  lemma LedIff(objs: seq<Prog>, i: nat, k: nat, n: Name)
    requires Is(objs, i, k)
    ensures Led(objs, i, k, n) <==> SomeDefines(objs[..i], n) || DefinesOne(objs[i].syms[..k], n)
  {
    var own, former := objs[i].syms[..k], objs[..i];
    if d: nat, m: nat :| DefinedIn(objs, d, m, n) && Precedes(d, m, i, k) {
      if d == i {
        assert own[m].name == n;
      } else {
        assert former[d] == objs[d] && former[d].syms[m].name == n && DefinesOne(former[d].syms, n);
      }
    }
    if m :| 0 <= m < |own| && own[m].flags != SYM_EXTERN && own[m].name == n {
      assert DefinedIn(objs, i, m, n) && Precedes(i, m, i, k);
    }
    if d :| 0 <= d < |former| && DefinesOne(former[d].syms, n) {
      var m :| 0 <= m < |former[d].syms| && former[d].syms[m].flags != SYM_EXTERN && former[d].syms[m].name == n;
      assert DefinedIn(objs, d, m, n) && Precedes(d, m, i, k);
    }
  }

  // ----- the final value of a symbol -------------------------------------------------------------------------------

  /** The last global of a name is what the whole list binds it to. */
  lemma LastBound(objs: seq<Prog>, d: nat, m: nat, n: Name)
    requires LastGlobal(objs, d, m, n)
    ensures Bound(Defs(ZERO, objs), n) == Some(Adjust(objs[d].syms[m], BasesOf(ZERO, objs, d)))
  {
    hide Bound, Defs, DefsBefore, DefsBehind, BasesOf, Latest;
    var t := Adjust(objs[d].syms[m], BasesOf(ZERO, objs, d));
    DefsAround(objs, d, m);
    BehindIff(objs, d, m, n);
    assert IsGlobal(t, n);
    BoundIs(DefsBefore(objs, d, m), t, DefsBehind(objs, d, m), n);
  }

  /** The first definition, if there is no global of the name. */
  lemma FirstBound(objs: seq<Prog>, d: nat, m: nat, n: Name)
    requires FirstDefinition(objs, d, m, n) && forall e: nat, j: nat :: !GlobalAt(objs, e, j, n)
    ensures Bound(Defs(ZERO, objs), n) == Some(Adjust(objs[d].syms[m], BasesOf(ZERO, objs, d)))
  {
    hide Bound, Defs, DefsBefore, DefsBehind, BasesOf, Latest;
    var t := Adjust(objs[d].syms[m], BasesOf(ZERO, objs, d));
    DefsAround(objs, d, m);
    BehindIff(objs, d, m, n);
    BeforeIff(objs, d, m, n);
    BoundFirst(DefsBefore(objs, d, m), t, DefsBehind(objs, d, m), n);
    LatestGlobal(t, DefsBehind(objs, d, m), n);
  }

  /** The entry a symbol finally has is that of the definition it stands for, moved to its object's place. */
  lemma FinalStandsFor(objs: seq<Prog>, i: nat, k: nat, d: nat, m: nat)
    requires Is(objs, i, k) && StandsFor(objs, i, k, d, m)
    ensures Is(objs, d, m) && Final(objs, i, k) == Some(Adjust(objs[d].syms[m], BasesOf(ZERO, objs, d)))
  {
    hide Bound, Defs, DefsBefore, DefsBehind, BasesOf, Latest, FirstDefinition, LastGlobal, Led, Followed;
    var s := objs[i].syms[k];
    var t := Adjust(s, BasesOf(ZERO, objs, i));
    if s.flags == SYM_EXTERN {
      if LastGlobal(objs, d, m, s.name) { LastBound(objs, d, m, s.name); } else { FirstBound(objs, d, m, s.name); }
      IsThere(objs, d, m, s.name);
    } else {
      BehindIff(objs, i, k, s.name);
      BeforeIff(objs, i, k, s.name);
      FirstIff(objs, i, k);
      if Followed(objs, i, k, s.name) {
        DefsAround(objs, i, k);
        BoundOverall(DefsBefore(objs, i, k), t, DefsBehind(objs, i, k), s.name);
        if s.flags == SYM_GLOBAL || FirstDefinition(objs, i, k, s.name) {
          LastBound(objs, d, m, s.name);
          IsThere(objs, d, m, s.name);
        }
      } else {
        LatestGlobal(t, DefsBehind(objs, i, k), s.name);
      }
    }
  }

  lemma IsThere(objs: seq<Prog>, d: nat, m: nat, n: Name)
    requires LastGlobal(objs, d, m, n) || FirstDefinition(objs, d, m, n)
    ensures Is(objs, d, m)
  {
  }

  lemma FirstIff(objs: seq<Prog>, i: nat, k: nat)
    requires Is(objs, i, k) && objs[i].syms[k].flags != SYM_EXTERN
    ensures FirstDefinition(objs, i, k, objs[i].syms[k].name) <==> !Led(objs, i, k, objs[i].syms[k].name)
  {
  }

  // ----- there is one ------------------------------------------------------------------------------------------

  lemma {:induction false} LastExists(objs: seq<Prog>, d: nat, m: nat, n: Name) returns (e: nat, k: nat)
    requires GlobalAt(objs, d, m, n)
    ensures LastGlobal(objs, e, k, n)
    decreases |objs| - d, |objs[d].syms| - m
  {
    e, k := d, m;
    if e1: nat, k1: nat :| GlobalAt(objs, e1, k1, n) && Precedes(d, m, e1, k1) {
      e, k := LastExists(objs, e1, k1, n);
    }
  }

  lemma {:induction false} FirstExists(objs: seq<Prog>, d: nat, m: nat, n: Name) returns (e: nat, k: nat)
    requires DefinedIn(objs, d, m, n)
    ensures FirstDefinition(objs, e, k, n)
    decreases d, m
  {
    e, k := d, m;
    if e1: nat, k1: nat :| DefinedIn(objs, e1, k1, n) && Precedes(e1, k1, d, m) {
      e, k := FirstExists(objs, e1, k1, n);
    }
  }

  lemma SomeDefinition(objs: seq<Prog>, n: Name) returns (d: nat, m: nat)
    requires Bound(Defs(ZERO, objs), n).Some?
    ensures DefinedIn(objs, d, m, n)
  {
    hide Bound, Defs;
    BoundIff(Defs(ZERO, objs), n);
    DefsKnows(ZERO, objs, n);
    d :| 0 <= d < |objs| && DefinesOne(objs[d].syms, n);
    m :| 0 <= m < |objs[d].syms| && objs[d].syms[m].flags != SYM_EXTERN && objs[d].syms[m].name == n;
  }

  /** In a link that succeeds every symbol stands for some definition. */
  lemma StandsForOne(objs: seq<Prog>, entry: Option<Name>, i: nat, k: nat) returns (d: nat, m: nat)
    requires Link(objs, entry).Some? && Is(objs, i, k)
    ensures StandsFor(objs, i, k, d, m)
  {
    hide Link, Bound, Defs, Resolved, Exports, FirstDefinition, LastGlobal;
    var s := objs[i].syms[k];
    d, m := i, k;
    if s.flags == SYM_EXTERN {
      assert ImportsAt(objs, i, k, s.name);
      ExternBinding(objs, entry, i, k, s.name);
      d, m := SomeDefinition(objs, s.name);
      if e: nat, j: nat :| GlobalAt(objs, e, j, s.name) {
        d, m := LastExists(objs, e, j, s.name);
      } else {
        d, m := FirstExists(objs, d, m, s.name);
      }
    } else if Followed(objs, i, k, s.name) {
      if s.flags == SYM_GLOBAL || FirstDefinition(objs, i, k, s.name) {
        var e: nat, j: nat :| GlobalAt(objs, e, j, s.name) && Precedes(i, k, e, j);
        d, m := LastExists(objs, e, j, s.name);
      }
    }
  }
}
