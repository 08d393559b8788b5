/** How the linker binds names: when definitions clash, what an extern is bound to, and when a local symbol is
    taken over by a global of the same name. */
module LinkNames {
  import opened Words
  import opened Objects
  import opened Linker
  import opened LinkLaws

  // ----- pass 3 as one list of definitions -------------------------------------------------------------

  /** The definitions of an object, moved to the output sections. */
  function DefsOf(b: Bases, syms: seq<Sym>): seq<Sym>
    decreases |syms|
  {
    if syms == [] then []
    else if syms[0].flags == SYM_EXTERN then DefsOf(b, syms[1..])
    else [Adjust(syms[0], b)] + DefsOf(b, syms[1..])
  }

  function Defs(b: Bases, objs: seq<Prog>): seq<Sym>
    decreases |objs|
  {
    if objs == [] then [] else DefsOf(b, objs[0].syms) + Defs(After(b, objs[0]), objs[1..])
  }

  function AddAll(ms: seq<Sym>, defs: seq<Sym>): Option<seq<Sym>>
    decreases |defs|
  {
    if defs == [] then Some(ms)
    else match AddSym(ms, defs[0])
      case Duplicate => None
      case Added(ms1, _) => AddAll(ms1, defs[1..])
  }

  function Table(r: Option<Merged>): Option<seq<Sym>> {
    match r case None => None case Some(m) => Some(m.syms)
  }

  lemma {:induction false} AddAllSplit(ms: seq<Sym>, a: seq<Sym>, b: seq<Sym>)
    ensures AddAll(ms, a + b) == match AddAll(ms, a) case None => None case Some(m) => AddAll(m, b)
    decreases |a|
  {
    hide AddSym;
    if a == [] {
      assert a + b == b;
    } else {
      assert (a + b)[0] == a[0] && (a + b)[1..] == a[1..] + b;
      match AddSym(ms, a[0])
      case Duplicate =>
      case Added(m, _) => AddAllSplit(m, a[1..], b);
    }
  }

  lemma {:induction false} MergeSymsIsAddAll(ms: seq<Sym>, b: Bases, syms: seq<Sym>)
    ensures Table(MergeSyms(ms, b, syms)) == AddAll(ms, DefsOf(b, syms))
    decreases |syms|
  {
    hide AddSym, Adjust;
    if syms != [] {
      if syms[0].flags == SYM_EXTERN {
        MergeSymsIsAddAll(ms, b, syms[1..]);
      } else {
        match AddSym(ms, Adjust(syms[0], b))
        case Duplicate =>
        case Added(m, _) => MergeSymsIsAddAll(m, b, syms[1..]);
      }
    }
  }

  /** Pass 3 over objects is adding their definitions one after the other. */
  lemma {:induction false} MergeIsAddAll(ms: seq<Sym>, b: Bases, objs: seq<Prog>)
    ensures MergeFrom(ms, b, objs).Some? <==> AddAll(ms, Defs(b, objs)).Some?
    ensures MergeFrom(ms, b, objs).Some? ==> MergeFrom(ms, b, objs).value.syms == AddAll(ms, Defs(b, objs)).value
    decreases |objs|
  {
    hide MergeSyms, DefsOf, AddAll;
    if objs == [] {
      NoDefs(ms);
    } else {
      MergeSymsIsAddAll(ms, b, objs[0].syms);
      AddAllSplit(ms, DefsOf(b, objs[0].syms), Defs(After(b, objs[0]), objs[1..]));
      match MergeSyms(ms, b, objs[0].syms)
      case None =>
      case Some(m) => MergeIsAddAll(m.syms, After(b, objs[0]), objs[1..]);
    }
  }

  lemma NoDefs(ms: seq<Sym>)
    ensures AddAll(ms, []) == Some(ms)
  {
  }

  // ----- clashing definitions --------------------------------------------------------------------------------

  predicate IsGlobal(s: Sym, n: Name) { s.flags == SYM_GLOBAL && s.name == n }

  /** A global with a section: the kind a second global of the name clashes with. */
  predicate Solid(s: Sym, n: Name) { IsGlobal(s, n) && s.section != SEC_NONE }

  ghost predicate HasGlobal(ss: seq<Sym>, n: Name) {
    exists i :: 0 <= i < |ss| && IsGlobal(ss[i], n)
  }

  ghost predicate HasSolid(ss: seq<Sym>, n: Name) {
    exists i :: 0 <= i < |ss| && Solid(ss[i], n)
  }

  ghost predicate NoExterns(ss: seq<Sym>) {
    forall i :: 0 <= i < |ss| ==> ss[i].flags != SYM_EXTERN
  }

  /** Names in the table after a definition: a known global takes its entry over, anything else needs room. */
  function NameStep(ns: seq<Name>, s: Sym): seq<Name> {
    if s.flags == SYM_GLOBAL && s.name in ns then ns
    else if |ns| >= MAX_SYMS then ns
    else ns + [s.name]
  }

  function NamesAfter(ns: seq<Name>, defs: seq<Sym>): seq<Name>
    decreases |defs|
  {
    if defs == [] then ns else NamesAfter(NameStep(ns, defs[0]), defs[1..])
  }

  function NamesOf(ms: seq<Sym>): (ns: seq<Name>)
    ensures |ns| == |ms| && forall i :: 0 <= i < |ms| ==> ns[i] == ms[i].name
  {
    seq(|ms|, i requires 0 <= i < |ms| => ms[i].name)
  }

  /** Definition i was not dropped by a full table. */
  predicate Kept(ns: seq<Name>, defs: seq<Sym>, i: nat)
    requires i < |defs|
  {
    defs[i].name in NamesAfter(ns, defs[..i + 1])
  }

  /** Some global follows a global of its name that has a section and was kept. */
  ghost predicate Clash(ns: seq<Name>, defs: seq<Sym>) {
    exists i, j :: 0 <= i < j < |defs| && ClashAt(ns, defs, i, j)
  }

  predicate ClashAt(ns: seq<Name>, defs: seq<Sym>, i: nat, j: nat)
    requires i < j < |defs|
  {
    defs[j].flags == SYM_GLOBAL && Solid(defs[i], defs[j].name) && Kept(ns, defs, i)
  }

  /** A definition fails exactly on a global with a section of its name. */
  lemma DuplicateIff(ms: seq<Sym>, s: Sym)
    requires GlobalsFirst(ms)
    ensures AddSym(ms, s).Duplicate? <==> s.flags == SYM_GLOBAL && HasSolid(ms, s.name)
  {
    var e := FindSym(ms, s.name);
    if HasSolid(ms, s.name) {
      var i :| 0 <= i < |ms| && Solid(ms[i], s.name);
      assert FindSym(ms, ms[i].name) == i;
    }
    if e < |ms| && ms[e].flags == SYM_GLOBAL && ms[e].section != SEC_NONE { assert Solid(ms[e], s.name); }
  }

  lemma NameKnown(ms: seq<Sym>, n: Name)
    ensures n in NamesOf(ms) <==> FindSym(ms, n) < |ms|
  {
    var ns := NamesOf(ms);
    if n in ns {
      var i :| 0 <= i < |ns| && ns[i] == n;
      assert ms[i].name == n;
    }
    if FindSym(ms, n) < |ms| { assert ns[FindSym(ms, n)] == n; }
  }

  lemma NamesFollow(ms: seq<Sym>, s: Sym)
    requires AddSym(ms, s).Added?
    ensures NamesOf(AddSym(ms, s).syms) == NameStep(NamesOf(ms), s)
  {
    NameKnown(ms, s.name);
  }

  /** Which names have a global with a section afterwards. */
  lemma SolidAfter(ms: seq<Sym>, s: Sym, n: Name)
    requires GlobalsFirst(ms) && AddSym(ms, s).Added?
    ensures HasSolid(AddSym(ms, s).syms, n) <==>
              HasSolid(ms, n) || (Solid(s, n) && s.name in NamesOf(AddSym(ms, s).syms))
  {
    var a := AddSym(ms, s);
    DuplicateIff(ms, s);
    NameKnown(a.syms, s.name);
    if HasSolid(ms, n) {
      var i :| 0 <= i < |ms| && Solid(ms[i], n);
      assert FindSym(ms, ms[i].name) == i;
      assert a.syms[i] == ms[i];
      assert Solid(a.syms[i], n);
    }
    if Solid(s, n) && FindSym(a.syms, s.name) < |a.syms| {
      assert a.at >= 0;
      assert Solid(a.syms[a.at], n);
    }
    if HasSolid(a.syms, n) {
      var i :| 0 <= i < |a.syms| && Solid(a.syms[i], n);
      if i < |ms| && a.syms[i] == ms[i] { assert Solid(ms[i], n); }
    }
  }

  /** Some global of defs already has one with a section in the table. */
  ghost predicate Repeats(ms: seq<Sym>, defs: seq<Sym>) {
    exists j :: 0 <= j < |defs| && defs[j].flags == SYM_GLOBAL && HasSolid(ms, defs[j].name)
  }

  lemma {:induction false} AddAllIff(ms: seq<Sym>, defs: seq<Sym>)
    requires TableOk(ms) && NoExterns(defs)
    ensures AddAll(ms, defs).None? <==> Clash(NamesOf(ms), defs) || Repeats(ms, defs)
    decreases |defs|
  {
    hide AddSym, HasSolid, NamesOf, TableOk, Clash, Repeats;
    if defs == [] {
      NothingClashes(ms);
    } else {
      var s, rest := defs[0], defs[1..];
      GlobalsAreFirst(ms);
      DuplicateIff(ms, s);
      if AddSym(ms, s).Added? {
        AddSymKeeps(ms, s);
        var m := AddSym(ms, s).syms;
        AddAllIff(m, rest);
        NamesFollow(ms, s);
        forall n ensures HasSolid(m, n) <==> HasSolid(ms, n) || (Solid(s, n) && s.name in NamesOf(m)) {
          SolidAfter(ms, s, n);
        }
        ClashCons(ms, m, defs);
      } else {
        RepeatsHead(ms, defs);
      }
    }
  }

  lemma GlobalsAreFirst(ms: seq<Sym>)
    requires TableOk(ms)
    ensures GlobalsFirst(ms)
  {
  }

  lemma NothingClashes(ms: seq<Sym>)
    ensures !Clash(NamesOf(ms), []) && !Repeats(ms, [])
  {
  }

  lemma RepeatsHead(ms: seq<Sym>, defs: seq<Sym>)
    requires defs != [] && defs[0].flags == SYM_GLOBAL && HasSolid(ms, defs[0].name)
    ensures Repeats(ms, defs)
  {
    hide HasSolid;
  }

  /** The first definition apart: what follows clashes with it, or among itself. */
  lemma ClashCons(ms: seq<Sym>, m: seq<Sym>, defs: seq<Sym>)
    requires defs != [] && NamesOf(m) == NameStep(NamesOf(ms), defs[0])
    requires forall n :: HasSolid(m, n) <==> HasSolid(ms, n) || (Solid(defs[0], n) && defs[0].name in NamesOf(m))
    requires !(defs[0].flags == SYM_GLOBAL && HasSolid(ms, defs[0].name))
    ensures Clash(NamesOf(ms), defs) || Repeats(ms, defs) <==> Clash(NamesOf(m), defs[1..]) || Repeats(m, defs[1..])
  {
    hide HasSolid, NamesOf, Clash, Repeats, NamesAfter, NameStep;
    if Clash(NamesOf(ms), defs) { ClashDown(ms, m, defs); }
    if Repeats(ms, defs) { RepeatsDown(ms, m, defs); }
    if Clash(NamesOf(m), defs[1..]) { ClashUp(ms, m, defs); }
    if Repeats(m, defs[1..]) { RepeatsUp(ms, m, defs); }
  }

  /** Kept or not, seen from the next definition on. */
  lemma KeptShift(ns: seq<Name>, defs: seq<Sym>, i: nat)
    requires i < |defs|
    ensures i == 0 ==> (Kept(ns, defs, 0) <==> defs[0].name in NameStep(ns, defs[0]))
    ensures i > 0 ==> (Kept(ns, defs, i) <==> Kept(NameStep(ns, defs[0]), defs[1..], i - 1))
  {
    hide NameStep;
    var d := defs[..i + 1];
    assert d[0] == defs[0];
    if i == 0 {
      assert d[1..] == [];
      assert NamesAfter(ns, d) == NamesAfter(NameStep(ns, defs[0]), []);
    } else {
      assert d[1..] == defs[1..][..i];
    }
  }

  lemma ClashDown(ms: seq<Sym>, m: seq<Sym>, defs: seq<Sym>)
    requires defs != [] && NamesOf(m) == NameStep(NamesOf(ms), defs[0]) && Clash(NamesOf(ms), defs)
    requires forall n :: HasSolid(m, n) <==> HasSolid(ms, n) || (Solid(defs[0], n) && defs[0].name in NamesOf(m))
    ensures Clash(NamesOf(m), defs[1..]) || Repeats(m, defs[1..])
  {
    hide HasSolid, NamesOf, NamesAfter, NameStep, Kept;
    var ns, rest := NamesOf(ms), defs[1..];
    var i, j :| 0 <= i < j < |defs| && ClashAt(ns, defs, i, j);
    KeptShift(ns, defs, i);
    assert rest[j - 1] == defs[j];
    if i == 0 {
      assert rest[j - 1].flags == SYM_GLOBAL && HasSolid(m, rest[j - 1].name);
    } else {
      assert rest[i - 1] == defs[i];
      assert ClashAt(NamesOf(m), rest, i - 1, j - 1);
    }
  }

  lemma ClashUp(ms: seq<Sym>, m: seq<Sym>, defs: seq<Sym>)
    requires defs != [] && NamesOf(m) == NameStep(NamesOf(ms), defs[0]) && Clash(NamesOf(m), defs[1..])
    ensures Clash(NamesOf(ms), defs)
  {
    hide NamesOf, NamesAfter, NameStep, Kept;
    var ns, rest := NamesOf(m), defs[1..];
    var i, j :| 0 <= i < j < |rest| && ClashAt(ns, rest, i, j);
    KeptShift(NamesOf(ms), defs, i + 1);
    assert rest[i] == defs[i + 1] && rest[j] == defs[j + 1];
    assert ClashAt(NamesOf(ms), defs, i + 1, j + 1);
  }

  lemma RepeatsDown(ms: seq<Sym>, m: seq<Sym>, defs: seq<Sym>)
    requires defs != [] && Repeats(ms, defs) && !(defs[0].flags == SYM_GLOBAL && HasSolid(ms, defs[0].name))
    requires forall n :: HasSolid(ms, n) ==> HasSolid(m, n)
    ensures Repeats(m, defs[1..])
  {
    hide HasSolid;
    var j :| 0 <= j < |defs| && defs[j].flags == SYM_GLOBAL && HasSolid(ms, defs[j].name);
    assert defs[1..][j - 1] == defs[j];
  }

  lemma RepeatsUp(ms: seq<Sym>, m: seq<Sym>, defs: seq<Sym>)
    requires defs != [] && NamesOf(m) == NameStep(NamesOf(ms), defs[0]) && Repeats(m, defs[1..])
    requires forall n :: HasSolid(m, n) <==> HasSolid(ms, n) || (Solid(defs[0], n) && defs[0].name in NamesOf(m))
    ensures Clash(NamesOf(ms), defs) || Repeats(ms, defs)
  {
    hide HasSolid, NamesOf, NamesAfter, NameStep, Kept;
    var rest := defs[1..];
    var j :| 0 <= j < |rest| && rest[j].flags == SYM_GLOBAL && HasSolid(m, rest[j].name);
    assert rest[j] == defs[j + 1];
    if HasSolid(ms, rest[j].name) {
      assert defs[j + 1].flags == SYM_GLOBAL && HasSolid(ms, defs[j + 1].name);
    } else {
      KeptShift(NamesOf(ms), defs, 0);
      assert ClashAt(NamesOf(ms), defs, 0, j + 1);
    }
  }

  /** Pass 3 fails exactly when some global follows a global of its name that has a section and was kept. */
  lemma MergeFailsIff(objs: seq<Prog>)
    ensures MergeFrom([], ZERO, objs).None? <==> Clash([], Defs(ZERO, objs))
    ensures Clash([], Defs(ZERO, objs)) ==> forall entry :: Link(objs, entry) == None
  {
    hide MergeFrom, Defs, RelsFrom, Clash;
    MergeIsAddAll([], ZERO, objs);
    DefsNoExterns(ZERO, objs);
    AddAllIff([], Defs(ZERO, objs));
    assert NamesOf([]) == [];
  }

  lemma {:induction false} DefsOfNoExterns(b: Bases, syms: seq<Sym>)
    ensures NoExterns(DefsOf(b, syms))
    decreases |syms|
  {
    if syms != [] {
      DefsOfNoExterns(b, syms[1..]);
    }
  }

  lemma {:induction false} DefsNoExterns(b: Bases, objs: seq<Prog>)
    ensures NoExterns(Defs(b, objs))
    decreases |objs|
  {
    hide DefsOf;
    if objs != [] {
      DefsOfNoExterns(b, objs[0].syms);
      DefsNoExterns(After(b, objs[0]), objs[1..]);
    }
  }

  lemma {:induction false} RoomKeepsAll(ns: seq<Name>, defs: seq<Sym>, i: nat)
    requires i < |defs| && |ns| + |defs| <= MAX_SYMS
    ensures Kept(ns, defs, i)
    decreases |defs|
  {
    KeptShift(ns, defs, i);
    if i > 0 {
      RoomKeepsAll(NameStep(ns, defs[0]), defs[1..], i - 1);
    }
  }

  /** While the table has room, a second global after one with a section always makes the link fail. */
  lemma DuplicateGlobalFails(objs: seq<Prog>, entry: Option<Name>, i: nat, j: nat)
    requires |Defs(ZERO, objs)| <= MAX_SYMS && i < j < |Defs(ZERO, objs)|
    requires Defs(ZERO, objs)[j].flags == SYM_GLOBAL && Solid(Defs(ZERO, objs)[i], Defs(ZERO, objs)[j].name)
    ensures Link(objs, entry) == None
  {
    hide Defs, Link;
    MergeFailsIff(objs);
    RoomKeepsAll([], Defs(ZERO, objs), i);
    assert ClashAt([], Defs(ZERO, objs), i, j);
  }

  // ----- a full table drops both ----------------------------------------------------------------------------------

  const LOCAL_A: Sym := Sym([97], SYM_LOCAL, SEC_CODE, 0)
  const GLOBAL_B: Sym := Sym([98], SYM_GLOBAL, SEC_CODE, 0)

  lemma {:induction false} LocalsFill(ms: seq<Sym>, k: nat)
    requires |ms| + k <= MAX_SYMS
    ensures MergeSyms(ms, ZERO, seq(k, _ => LOCAL_A))
        == Some(Merged(ms + seq(k, _ => LOCAL_A), Identity(|ms|, |ms| + k)))
    decreases k
  {
    var a := seq(k, _ => LOCAL_A);
    if k == 0 {
      assert ms + a == ms;
    } else {
      assert Adjust(LOCAL_A, ZERO) == LOCAL_A;
      assert a[0] == LOCAL_A && a[1..] == seq(k - 1, _ => LOCAL_A);
      LocalsFill(ms + [LOCAL_A], k - 1);
      assert ms + [LOCAL_A] + seq(k - 1, _ => LOCAL_A) == ms + a;
    }
  }

  lemma GlobalDropped(ms: seq<Sym>)
    requires |ms| == MAX_SYMS && FindSym(ms, GLOBAL_B.name) == |ms|
    ensures MergeSyms(ms, ZERO, [GLOBAL_B]) == Some(Merged(ms, [-1]))
  {
    assert Adjust(GLOBAL_B, ZERO) == GLOBAL_B;
    assert [GLOBAL_B][1..] == [];
    assert MergeSyms(ms, ZERO, []) == Some(Merged(ms, []));
    var none: seq<int> := [];
    assert [-1] + none == [-1];
  }

  /** Two objects define the same global with a section, and the link succeeds: 1024 local symbols before them
      fill the table, so both definitions are dropped. */
  lemma FullTableHidesDuplicate()
    ensures var full, g := Bare(seq(MAX_SYMS, _ => LOCAL_A)), Bare([GLOBAL_B]);
            Solid(GLOBAL_B, GLOBAL_B.name) && Link([full] + ([g] + [g]), None).Some?
  {
    var locals := seq(MAX_SYMS, _ => LOCAL_A);
    var full, g := Bare(locals), Bare([GLOBAL_B]);
    LocalsFill([], MAX_SYMS);
    assert [] + locals == locals;
    var m0 := Identity(0, MAX_SYMS);
    FindUnique(locals, GLOBAL_B.name, |locals|);
    GlobalDropped(locals);
    hide MergeSyms, FindSym;
    assert [g] + [] == [g] && [[-1]] + [] == [[-1]];
    var last := MergedAll(locals, []);
    MergeBare(locals, g, [], Merged(locals, [-1]), last);
    MergeBare(locals, g, [g], Merged(locals, [-1]), MergedAll(locals, [[-1]]));
    MergeBare([], full, [g] + [g], Merged(locals, m0), MergedAll(locals, [[-1]] + [[-1]]));
    NothingToResolve(locals, [GLOBAL_B], [-1]);
    NothingToResolve(locals, locals, m0);
    hide ResolveSyms;
    RelsBare(locals, g, [], [-1], []);
    RelsBare(locals, g, [g], [-1], [[-1]]);
    RelsBare(locals, full, [g] + [g], m0, [[-1]] + [[-1]]);
  }

  lemma NothingToResolve(ms: seq<Sym>, syms: seq<Sym>, map_: seq<int>)
    requires |map_| == |syms| && forall i :: 0 <= i < |syms| ==> syms[i].flags != SYM_EXTERN
    ensures ResolveSyms(ms, syms, map_).Some?
  {
    ResolveNoExterns(ms, syms, map_);
  }

  // ----- a local symbol and a global of its name -----------------------------------------------------------------

  lemma {:induction false} GlobalStays(ms: seq<Sym>, x: nat, defs: seq<Sym>)
    requires x < |ms| && ms[x].flags == SYM_GLOBAL && AddAll(ms, defs).Some?
    ensures x < |AddAll(ms, defs).value| && AddAll(ms, defs).value[x].flags == SYM_GLOBAL
    decreases |defs|
  {
    if defs != [] {
      var m := AddSym(ms, defs[0]).syms;
      assert m[x].flags == SYM_GLOBAL;
      hide AddSym;
      GlobalStays(m, x, defs[1..]);
    }
  }

  lemma FindAfter(ms: seq<Sym>, s: Sym, n: Name)
    requires AddSym(ms, s).Added? && FindSym(ms, n) < |ms|
    ensures FindSym(AddSym(ms, s).syms, n) == FindSym(ms, n)
  {
    FindKept(ms, AddSym(ms, s).syms, n);
  }

  /** Entry x is taken over exactly when it is the first of its name and a global of that name follows. */
  lemma {:induction false} OvertakenIff(ms: seq<Sym>, x: nat, defs: seq<Sym>)
    requires x < |ms| && ms[x].flags == SYM_LOCAL && AddAll(ms, defs).Some?
    ensures x < |AddAll(ms, defs).value|
    ensures AddAll(ms, defs).value[x] != ms[x] <==> FindSym(ms, ms[x].name) == x && HasGlobal(defs, ms[x].name)
    decreases |defs|
  {
    if defs != [] {
      var s, n := defs[0], ms[x].name;
      var m := AddSym(ms, s).syms;
      HasGlobalCons(defs, n);
      FindAfter(ms, s, n);
      if m[x] != ms[x] {
        assert IsGlobal(s, n) && FindSym(ms, n) == x;
        GlobalStays(m, x, defs[1..]);
      } else {
        hide AddSym;
        OvertakenIff(m, x, defs[1..]);
        NotTakenNow(ms, s, x);
      }
    }
  }

  lemma NotTakenNow(ms: seq<Sym>, s: Sym, x: nat)
    requires x < |ms| && ms[x].flags == SYM_LOCAL && AddSym(ms, s).Added? && AddSym(ms, s).syms[x] == ms[x]
    ensures !(FindSym(ms, ms[x].name) == x && IsGlobal(s, ms[x].name))
  {
  }

  lemma HasGlobalCons(defs: seq<Sym>, n: Name)
    requires defs != []
    ensures HasGlobal(defs, n) <==> IsGlobal(defs[0], n) || HasGlobal(defs[1..], n)
  {
    if HasGlobal(defs, n) {
      var i :| 0 <= i < |defs| && IsGlobal(defs[i], n);
      if i > 0 { assert IsGlobal(defs[1..][i - 1], n); }
    }
    if HasGlobal(defs[1..], n) {
      var i :| 0 <= i < |defs[1..]| && IsGlobal(defs[1..][i], n);
      assert IsGlobal(defs[i + 1], n);
    }
  }

  /** A local definition s, added after `before` and followed by `after`, keeps its own entry in the output
      exactly unless it is the first definition of its name and a global of that name follows. */
  lemma LocalKeptIff(before: seq<Sym>, s: Sym, after: seq<Sym>)
    requires s.flags == SYM_LOCAL && AddAll([], before).Some? && |AddAll([], before).value| < MAX_SYMS
    requires AddAll([], before + [s] + after).Some?
    ensures var x := |AddAll([], before).value|;
            var out := AddAll([], before + [s] + after).value;
            && x < |out|
            && (out[x] == s <==>
                  !(FindSym(AddAll([], before).value, s.name) == x && HasGlobal(after, s.name)))
  {
    var ms := AddAll([], before).value;
    AddAllSplit([], before, [s] + after);
    assert before + [s] + after == before + ([s] + after);
    assert ([s] + after)[0] == s && ([s] + after)[1..] == after;
    assert AddSym(ms, s) == Added(ms + [s], |ms|);
    FindInAppended(ms, s);
    OvertakenIff(ms + [s], |ms|, after);
  }

  lemma FindInAppended(ms: seq<Sym>, s: Sym)
    ensures FindSym(ms + [s], s.name) == FindSym(ms, s.name)
  {
    var i := FindSym(ms, s.name);
    FindUnique(ms + [s], s.name, i);
  }

  // ----- what an entry ends up as ----------------------------------------------------------------------------------

  /** The last global named n in defs, or s if there is none. */
  function Latest(s: Sym, defs: seq<Sym>, n: Name): Sym
    decreases |defs|, n
  {
    if defs == [] then s else Latest(if IsGlobal(defs[0], n) then defs[0] else s, defs[1..], n)
  }

  /** What a name is bound to: its first definition, or the last global of the name if there is one. */
  function Bound(defs: seq<Sym>, n: Name): Option<Sym>
    decreases |defs|, n
  {
    if defs == [] then None
    else if defs[0].name == n then Some(Latest(defs[0], defs[1..], n))
    else Bound(defs[1..], n)
  }

  /** Entry x of a table after more definitions. */
  lemma {:induction false} SlotFate(ms: seq<Sym>, x: nat, defs: seq<Sym>)
    requires x < |ms| && AddAll(ms, defs).Some?
    ensures x < |AddAll(ms, defs).value|
    ensures AddAll(ms, defs).value[x] == if FindSym(ms, ms[x].name) == x then Latest(ms[x], defs, ms[x].name) else ms[x]
    decreases |defs|
  {
    if defs != [] {
      var s, n := defs[0], ms[x].name;
      var m := AddSym(ms, s).syms;
      FindAfter(ms, s, n);
      EntryStep(ms, x, s);
      hide AddSym, FindSym;
      SlotFate(m, x, defs[1..]);
    }
  }

  lemma EntryStep(ms: seq<Sym>, x: nat, s: Sym)
    requires x < |ms| && AddSym(ms, s).Added?
    ensures x < |AddSym(ms, s).syms| && AddSym(ms, s).syms[x].name == ms[x].name
    ensures AddSym(ms, s).syms[x]
         == if IsGlobal(s, ms[x].name) && FindSym(ms, ms[x].name) == x then s else ms[x]
  {
  }

  /** The entry a lookup finds in the end. */
  lemma {:induction false} BindingFate(ms: seq<Sym>, defs: seq<Sym>, n: Name)
    requires AddAll(ms, defs).Some? && FindSym(ms, n) == |ms|
    ensures var out := AddAll(ms, defs).value;
            FindSym(out, n) < |out| ==> Bound(defs, n) == Some(out[FindSym(out, n)])
    decreases |defs|
  {
    if defs != [] {
      var s := defs[0];
      var m := AddSym(ms, s).syms;
      var out := AddAll(ms, defs).value;
      if s.name != n {
        FindElsewhere(ms, s, n);
        BindingFate(m, defs[1..], n);
      } else if |ms| < MAX_SYMS {
        FindInAppended(ms, s);
        assert m == ms + [s] && FindSym(m, n) == |ms|;
        SlotFate(m, |ms|, defs[1..]);
        FindStays(m, defs[1..], n);
      } else {
        FullStays(ms, defs, n);
      }
    }
  }

  lemma FindElsewhere(ms: seq<Sym>, s: Sym, n: Name)
    requires s.name != n && FindSym(ms, n) == |ms| && AddSym(ms, s).Added?
    ensures FindSym(AddSym(ms, s).syms, n) == |AddSym(ms, s).syms|
  {
    var m := AddSym(ms, s).syms;
    FindUnique(m, n, |m|);
  }

  lemma {:induction false} FindStays(ms: seq<Sym>, defs: seq<Sym>, n: Name)
    requires AddAll(ms, defs).Some? && FindSym(ms, n) < |ms|
    ensures FindSym(AddAll(ms, defs).value, n) == FindSym(ms, n) < |AddAll(ms, defs).value|
    decreases |defs|
  {
    if defs != [] {
      FindAfter(ms, defs[0], n);
      var m := AddSym(ms, defs[0]).syms;
      assert |m| >= |ms|;
      hide AddSym, FindSym;
      FindStays(m, defs[1..], n);
    }
  }

  /** A name unknown to a full table stays unknown. */
  lemma {:induction false} FullStays(ms: seq<Sym>, defs: seq<Sym>, n: Name)
    requires AddAll(ms, defs).Some? && |ms| >= MAX_SYMS && FindSym(ms, n) == |ms|
    ensures FindSym(AddAll(ms, defs).value, n) == |AddAll(ms, defs).value|
    decreases |defs|
  {
    if defs != [] {
      var m := AddSym(ms, defs[0]).syms;
      FullStep(ms, defs[0], n);
      hide AddSym, FindSym;
      FullStays(m, defs[1..], n);
    }
  }

  lemma FullStep(ms: seq<Sym>, s: Sym, n: Name)
    requires |ms| >= MAX_SYMS && FindSym(ms, n) == |ms| && AddSym(ms, s).Added?
    ensures |AddSym(ms, s).syms| == |ms| && FindSym(AddSym(ms, s).syms, n) == |ms|
  {
    FindUnique(AddSym(ms, s).syms, n, |ms|);
  }

  lemma {:induction false} LatestGlobal(s: Sym, defs: seq<Sym>, n: Name)
    ensures Latest(s, defs, n).flags == SYM_GLOBAL <==> s.flags == SYM_GLOBAL || HasGlobal(defs, n)
    ensures !HasGlobal(defs, n) ==> Latest(s, defs, n) == s
    ensures s.name == n ==> Latest(s, defs, n).name == n
    decreases |defs|
  {
    if defs != [] {
      HasGlobalCons(defs, n);
      hide HasGlobal;
      LatestGlobal(if IsGlobal(defs[0], n) then defs[0] else s, defs[1..], n);
    } else {
      assert !HasGlobal(defs, n);
    }
  }

  lemma {:induction false} BoundGlobal(defs: seq<Sym>, n: Name)
    requires Bound(defs, n).Some?
    ensures Bound(defs, n).value.flags == SYM_GLOBAL <==> HasGlobal(defs, n)
    ensures Bound(defs, n).value.name == n
    decreases |defs|
  {
    HasGlobalCons(defs, n);
    if defs[0].name == n {
      LatestGlobal(defs[0], defs[1..], n);
    } else {
      BoundGlobal(defs[1..], n);
    }
  }

  // ----- exports --------------------------------------------------------------------------------------------------

  /** Some object defines a global named n. */
  ghost predicate Exports(objs: seq<Prog>, n: Name) {
    exists i, k :: 0 <= i < |objs| && 0 <= k < |objs[i].syms| && IsGlobal(objs[i].syms[k], n)
  }

  /** Some object defines a global named n that has a section. */
  ghost predicate ExportsPlaced(objs: seq<Prog>, n: Name) {
    exists i, k :: 0 <= i < |objs| && 0 <= k < |objs[i].syms| && Solid(objs[i].syms[k], n)
  }

  lemma HasGlobalAppend(a: seq<Sym>, b: seq<Sym>, n: Name)
    ensures HasGlobal(a + b, n) <==> HasGlobal(a, n) || HasGlobal(b, n)
    ensures HasSolid(a + b, n) <==> HasSolid(a, n) || HasSolid(b, n)
  {
    if i :| 0 <= i < |a| && IsGlobal(a[i], n) { assert IsGlobal((a + b)[i], n); }
    if i :| 0 <= i < |b| && IsGlobal(b[i], n) { assert IsGlobal((a + b)[|a| + i], n); }
    if i :| 0 <= i < |a| && Solid(a[i], n) { assert Solid((a + b)[i], n); }
    if i :| 0 <= i < |b| && Solid(b[i], n) { assert Solid((a + b)[|a| + i], n); }
    if i :| 0 <= i < |a + b| && IsGlobal((a + b)[i], n) { if i >= |a| { assert IsGlobal(b[i - |a|], n); } }
    if i :| 0 <= i < |a + b| && Solid((a + b)[i], n) { if i >= |a| { assert Solid(b[i - |a|], n); } }
  }

  lemma {:induction false} DefsOfGlobals(b: Bases, syms: seq<Sym>, n: Name)
    ensures HasGlobal(DefsOf(b, syms), n) <==> HasGlobal(syms, n)
    ensures HasSolid(DefsOf(b, syms), n) <==> HasSolid(syms, n)
    decreases |syms|
  {
    if syms != [] {
      DefsOfGlobals(b, syms[1..], n);
      assert syms == [syms[0]] + syms[1..];
      HasGlobalAppend([syms[0]], syms[1..], n);
      HasGlobalAppend([Adjust(syms[0], b)], DefsOf(b, syms[1..]), n);
      SameGlobal(syms[0], b, n);
    }
  }

  lemma SameGlobal(s: Sym, b: Bases, n: Name)
    ensures HasGlobal([Adjust(s, b)], n) <==> HasGlobal([s], n)
    ensures HasSolid([Adjust(s, b)], n) <==> HasSolid([s], n)
    ensures s.flags == SYM_EXTERN ==> !HasGlobal([s], n) && !HasSolid([s], n)
  {
    var a := [Adjust(s, b)];
    assert a[0].flags == s.flags && a[0].name == s.name && a[0].section == s.section;
    if IsGlobal(s, n) { assert IsGlobal(a[0], n) && IsGlobal([s][0], n); }
    if Solid(s, n) { assert Solid(a[0], n) && Solid([s][0], n); }
  }

  /** The definitions hold a global of the name exactly if some object does. */
  lemma {:induction false} DefsExport(b: Bases, objs: seq<Prog>, n: Name)
    ensures HasGlobal(Defs(b, objs), n) <==> Exports(objs, n)
    ensures HasSolid(Defs(b, objs), n) <==> ExportsPlaced(objs, n)
    decreases |objs|
  {
    hide DefsOf, HasGlobal, HasSolid;
    if objs == [] {
      NoGlobals(n);
    } else {
      DefsOfGlobals(b, objs[0].syms, n);
      DefsExport(After(b, objs[0]), objs[1..], n);
      HasGlobalAppend(DefsOf(b, objs[0].syms), Defs(After(b, objs[0]), objs[1..]), n);
      ExportsCons(objs, n);
    }
  }

  lemma NoGlobals(n: Name)
    ensures !HasGlobal([], n) && !HasSolid([], n) && !Exports([], n) && !ExportsPlaced([], n)
  {
  }

  lemma ExportsCons(objs: seq<Prog>, n: Name)
    requires objs != []
    ensures Exports(objs, n) <==> HasGlobal(objs[0].syms, n) || Exports(objs[1..], n)
    ensures ExportsPlaced(objs, n) <==> HasSolid(objs[0].syms, n) || ExportsPlaced(objs[1..], n)
  {
    var t := objs[1..];
    if i, k :| 0 <= i < |t| && 0 <= k < |t[i].syms| && IsGlobal(t[i].syms[k], n) {
      assert IsGlobal(objs[i + 1].syms[k], n);
    }
    if i, k :| 0 <= i < |t| && 0 <= k < |t[i].syms| && Solid(t[i].syms[k], n) { assert Solid(objs[i + 1].syms[k], n); }
    if i, k :| 0 <= i < |objs| && 0 <= k < |objs[i].syms| && IsGlobal(objs[i].syms[k], n) {
      if i > 0 { assert IsGlobal(t[i - 1].syms[k], n); }
    }
    if i, k :| 0 <= i < |objs| && 0 <= k < |objs[i].syms| && Solid(objs[i].syms[k], n) {
      if i > 0 { assert Solid(t[i - 1].syms[k], n); }
    }
  }

  // ----- externs --------------------------------------------------------------------------------------------------

  /** Symbol k of object i is an extern named n. */
  predicate ImportsAt(objs: seq<Prog>, i: nat, k: nat, n: Name) {
    i < |objs| && k < |objs[i].syms| && objs[i].syms[k].flags == SYM_EXTERN && objs[i].syms[k].name == n
  }

  lemma {:induction false} EachResolves(ms: seq<Sym>, b: Bases, objs: seq<Prog>, maps: seq<seq<int>>, i: nat)
    requires MapsFit(objs, maps) && RelsFrom(ms, b, objs, maps).Some? && i < |objs|
    ensures ResolveSyms(ms, objs[i].syms, maps[i]).Some?
    decreases |objs|
  {
    hide ResolveSyms, MapRels;
    if i > 0 {
      assert MapsFit(objs[1..], maps[1..]);
      EachResolves(ms, After(b, objs[0]), objs[1..], maps[1..], i - 1);
    }
  }

  /** Pass 4's index for symbol k of object i. */
  function Resolved(objs: seq<Prog>, i: nat, k: nat): Option<int>
    requires i < |objs| && k < |objs[i].syms|
  {
    match MergeFrom([], ZERO, objs)
    case None => None
    case Some(all) =>
      MergeFits([], ZERO, objs);
      match ResolveSyms(all.syms, objs[i].syms, all.maps[i])
      case None => None
      case Some(m) => Some(m[k])
  }

  lemma LinkResolves(objs: seq<Prog>, entry: Option<Name>, i: nat, k: nat) returns (ms: seq<Sym>, map_: seq<int>)
    requires Link(objs, entry).Some? && i < |objs| && k < |objs[i].syms|
    ensures ms == Link(objs, entry).value.syms && AddAll([], Defs(ZERO, objs)) == Some(ms)
    ensures |map_| == |objs[i].syms| && Resolved(objs, i, k).Some?
    ensures ResolveSym(ms, objs[i].syms[k], map_[k]) == Resolved(objs, i, k)
  {
    hide MergeFrom, RelsFrom, EntryOf, ResolveSym, ResolveSyms, AddAll, Defs;
    var all := MergeFrom([], ZERO, objs).value;
    MergeFits([], ZERO, objs);
    MergeIsAddAll([], ZERO, objs);
    EachResolves(all.syms, ZERO, objs, all.maps, i);
    ResolveAt(all.syms, objs[i].syms, all.maps[i], k);
    ms, map_ := all.syms, all.maps[i];
  }

  /** An extern named n is bound to the first definition of n in link order, or to the last global named n if
      there is one; so to a global exactly if some object exports n, and otherwise to a local symbol, private
      to its object though it is. */
  lemma ExternBinding(objs: seq<Prog>, entry: Option<Name>, i: nat, k: nat, n: Name)
    requires Link(objs, entry).Some? && ImportsAt(objs, i, k, n)
    ensures var ms := Link(objs, entry).value.syms;
            && Resolved(objs, i, k).Some? && 0 <= Resolved(objs, i, k).value < |ms|
            && Bound(Defs(ZERO, objs), n) == Some(ms[Resolved(objs, i, k).value])
            && (ms[Resolved(objs, i, k).value].flags == SYM_GLOBAL <==> Exports(objs, n))
  {
    hide Link, AddAll, Defs, Resolved, Exports, Bound;
    var ms, map_ := LinkResolves(objs, entry, i, k);
    BindingFate([], Defs(ZERO, objs), n);
    BoundGlobal(Defs(ZERO, objs), n);
    DefsExport(ZERO, objs, n);
  }

  /** Two objects: a private n in the first, an import of n in the second. They link, and the import is the
      private symbol. */
  lemma ExternBindsToLocal()
    ensures var a, b := Bare([LOCAL_N]), Bare([EXTERN_N]);
            && Link([a] + [b], None).Some? && ImportsAt([a] + [b], 1, 0, LOCAL_N.name)
            && Resolved([a] + [b], 1, 0) == Some(0) && Link([a] + [b], None).value.syms[0] == LOCAL_N
  {
    var a, b := Bare([LOCAL_N]), Bare([EXTERN_N]);
    LocalThenExtern();
    hide MergeSyms, ResolveSyms, EntryOf;
    assert [b] + [] == [b] && [[-1]] + [] == [[-1]];
    MergeBare([LOCAL_N], b, [], Merged([LOCAL_N], [-1]), MergedAll([LOCAL_N], []));
    MergeBare([], a, [b], Merged([LOCAL_N], [0]), MergedAll([LOCAL_N], [[-1]]));
    RelsBare([LOCAL_N], b, [], [-1], []);
    RelsBare([LOCAL_N], a, [b], [0], [[-1]]);
    assert ([a] + [b])[1] == b;
  }

  lemma LocalThenExtern()
    ensures MergeSyms([], ZERO, [LOCAL_N]) == Some(Merged([LOCAL_N], [0]))
    ensures MergeSyms([LOCAL_N], ZERO, [EXTERN_N]) == Some(Merged([LOCAL_N], [-1]))
    ensures ResolveSyms([LOCAL_N], [LOCAL_N], [0]).Some?
    ensures ResolveSyms([LOCAL_N], [EXTERN_N], [-1]) == Some([0])
  {
    MergeExamples();
    var none: seq<int> := [];
    assert [EXTERN_N][1..] == [] && [-1] + none == [-1] && [-1][1..] == [] && [0] + none == [0];
    assert FindSym([LOCAL_N], [110]) == 0;
    ResolveNoExterns([LOCAL_N], [LOCAL_N], [0]);
  }
}
