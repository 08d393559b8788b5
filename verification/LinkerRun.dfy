/** The linker as it runs: sections copied, symbol maps filled, tables extended, pass after pass. */
module LinkerRun {
  import opened Words
  import opened Objects
  import opened Linker

  // ----- passes 4 and 5 one after the other ---------------------------------------------------------

  /** Pass 4 over all objects. */
  function ResolveAll(ms: seq<Sym>, objs: seq<Prog>, maps: seq<seq<int>>): (r: Option<seq<seq<int>>>)
    requires MapsFit(objs, maps)
    ensures r.Some? ==> |r.value| == |objs|
  {
    if objs == [] then Some([])
    else
      assert MapsFit(objs[1..], maps[1..]);
      match ResolveSyms(ms, objs[0].syms, maps[0])
      case None => None
      case Some(m) =>
        match ResolveAll(ms, objs[1..], maps[1..])
        case None => None
        case Some(rest) => Some([m] + rest)
  }

  /** Pass 5 over all objects. */
  function MapAll(b: Bases, objs: seq<Prog>, maps: seq<seq<int>>): Option<seq<Rel>>
    requires |maps| == |objs|
    decreases |objs|
  {
    if objs == [] then Some([])
    else match MapRels(objs[0].rels, maps[0], b.code)
      case None => None
      case Some(rs) =>
        match MapAll(After(b, objs[0]), objs[1..], maps[1..])
        case None => None
        case Some(rest) => Some(rs + rest)
  }

  function Both(b: Bases, objs: seq<Prog>, r: Option<seq<seq<int>>>): Option<seq<Rel>>
    requires r.Some? ==> |r.value| == |objs|
  {
    match r case None => None case Some(m) => MapAll(b, objs, m)
  }

  /** Object by object or pass by pass, the relocations are the same. */
  lemma {:induction false} PassByPass(ms: seq<Sym>, b: Bases, objs: seq<Prog>, maps: seq<seq<int>>)
    requires MapsFit(objs, maps)
    ensures RelsFrom(ms, b, objs, maps) == Both(b, objs, ResolveAll(ms, objs, maps))
    decreases |objs|
  {
    hide ResolveSyms, MapRels;
    if objs != [] {
      assert MapsFit(objs[1..], maps[1..]);
      PassByPass(ms, After(b, objs[0]), objs[1..], maps[1..]);
      match ResolveSyms(ms, objs[0].syms, maps[0])
      case None =>
      case Some(m) =>
        match ResolveAll(ms, objs[1..], maps[1..])
        case None =>
        case Some(rest) => assert ([m] + rest)[1..] == rest;
    }
  }

  // ----- what is still to come after some elements are done ------------------------------------------------

  function ThenMerged(done: seq<int>, r: Option<Merged>): Option<Merged> {
    match r case None => None case Some(m) => Some(Merged(m.syms, done + m.map_))
  }

  function ThenAll(done: seq<seq<int>>, r: Option<MergedAll>): Option<MergedAll> {
    match r case None => None case Some(m) => Some(MergedAll(m.syms, done + m.maps))
  }

  function Then<T>(done: seq<T>, r: Option<seq<T>>): Option<seq<T>> {
    match r case None => None case Some(m) => Some(done + m)
  }

  lemma NothingDone<T>(m: Option<Merged>, a: Option<MergedAll>, r: Option<seq<T>>)
    ensures ThenMerged([], m) == m && ThenAll([], a) == a && Then([], r) == r
  {
    if m.Some? { assert [] + m.value.map_ == m.value.map_; }
    if a.Some? { assert [] + a.value.maps == a.value.maps; }
    if r.Some? { assert [] + r.value == r.value; }
  }

  lemma ThenMergedOne(done: seq<int>, x: int, r: Option<Merged>)
    ensures ThenMerged(done + [x], r) == ThenMerged(done, ThenMerged([x], r))
  {
    if r.Some? { assert (done + [x]) + r.value.map_ == done + ([x] + r.value.map_); }
  }

  lemma ThenAllOne(done: seq<seq<int>>, x: seq<int>, r: Option<MergedAll>)
    ensures ThenAll(done + [x], r) == ThenAll(done, ThenAll([x], r))
  {
    if r.Some? { assert (done + [x]) + r.value.maps == done + ([x] + r.value.maps); }
  }

  lemma ThenTwice<T>(done: seq<T>, x: seq<T>, r: Option<seq<T>>)
    ensures Then(done + x, r) == Then(done, Then(x, r))
  {
    if r.Some? { assert (done + x) + r.value == done + (x + r.value); }
  }

  // ----- the run ---------------------------------------------------------------------------------------------

  /** Where object i's sections start. */
  function BasesAt(objs: seq<Prog>, i: nat): Bases
    requires i <= |objs|
  {
    BasesAfter(ZERO, objs[..i])
  }

  lemma {:induction false} BasesSnoc(b: Bases, objs: seq<Prog>, o: Prog)
    ensures BasesAfter(b, objs + [o]) == After(BasesAfter(b, objs), o)
    decreases |objs|
  {
    hide After;
    if objs == [] {
      assert [o][1..] == [];
    } else {
      assert (objs + [o])[1..] == objs[1..] + [o];
      BasesSnoc(After(b, objs[0]), objs[1..], o);
    }
  }

  lemma NextBases(objs: seq<Prog>, i: nat)
    requires i < |objs|
    ensures BasesAt(objs, i + 1) == After(BasesAt(objs, i), objs[i])
  {
    assert objs[..i + 1] == objs[..i] + [objs[i]];
    BasesSnoc(ZERO, objs[..i], objs[i]);
  }

  /** The first `at` bytes are final; `rest` is still to be copied. */
  ghost predicate Filled(t: seq<byte>, at: nat, rest: seq<byte>, all: seq<byte>) {
    |t| == |all| && at <= |t| && t[..at] + rest == all
  }

  lemma FilledStart(t: seq<byte>, all: seq<byte>)
    requires |t| == |all|
    ensures Filled(t, 0, all, all)
  {
    assert t[..0] + all == all;
  }

  lemma FilledEnd(t: seq<byte>, at: nat, all: seq<byte>)
    requires Filled(t, at, [], all)
    ensures t == all
  {
    assert t[..at] + [] == t[..at];
  }

  lemma FilledNext(t: seq<byte>, at: nat, w: seq<byte>, rest: seq<byte>, all: seq<byte>)
    requires Filled(t, at, w + rest, all)
    ensures at + |w| <= |t| && Filled(Overwrite(t, at, w), at + |w|, rest, all)
  {
    assert t[..at] + (w + rest) == (t[..at] + w) + rest;
    assert Overwrite(t, at, w)[..at + |w|] == t[..at] + w;
  }

  class LinkJob {
    const objs: seq<Prog>
    var cnst: array<byte>
    var data: array<byte>
    var code: array<byte>
    var bases: seq<Bases>
    var syms: seq<Sym>
    var maps: seq<seq<int>>
    var rels: seq<Rel>

    constructor (objs: seq<Prog>)
      ensures this.objs == objs && syms == [] && maps == [] && rels == [] && bases == []
      ensures fresh(cnst) && fresh(data) && fresh(code) && cnst != data && data != code && cnst != code
      ensures cnst.Length == |Cnst(objs)| && data.Length == |Data(objs)| && code.Length == |Code(objs)|
    {
      this.objs := objs;
      syms, maps, rels, bases := [], [], [], [];
      var totalCnst, totalData, totalCode := 0, 0, 0;
      for i := 0 to |objs|
        invariant totalCnst + |Cnst(objs[i..])| == |Cnst(objs)|
        invariant totalData + |Data(objs[i..])| == |Data(objs)|
        invariant totalCode + |Code(objs[i..])| == |Code(objs)|
      {
        assert objs[i..][0] == objs[i] && objs[i..][1..] == objs[i + 1..];
        totalCnst := totalCnst + |objs[i].cnst|;
        totalData := totalData + |objs[i].data|;
        totalCode := totalCode + |objs[i].code|;
      }
      cnst := new byte[totalCnst](_ => 0);
      data := new byte[totalData](_ => 0);
      code := new byte[totalCode](_ => 0);
    }

    ghost predicate BasesKnown()
      reads this
    {
      |bases| == |objs| && forall i :: 0 <= i < |objs| ==> bases[i] == BasesAt(objs, i)
    }

    /** Pass 2. */
    method CopySections()
      requires bases == [] && cnst != data && data != code && cnst != code
      requires cnst.Length == |Cnst(objs)| && data.Length == |Data(objs)| && code.Length == |Code(objs)|
      modifies this`bases, cnst, data, code
      ensures cnst[..] == Cnst(objs) && data[..] == Data(objs) && code[..] == Code(objs) && BasesKnown()
    {
      hide Filled, Overwrite;
      var b := ZERO;
      FilledStart(cnst[..], Cnst(objs));
      FilledStart(data[..], Data(objs));
      FilledStart(code[..], Code(objs));
      for i := 0 to |objs|
        invariant b == BasesAt(objs, i) && |bases| == i && forall k :: 0 <= k < i ==> bases[k] == BasesAt(objs, k)
        invariant Filled(cnst[..], b.cnst, Cnst(objs[i..]), Cnst(objs))
        invariant Filled(data[..], b.data, Data(objs[i..]), Data(objs))
        invariant Filled(code[..], b.code, Code(objs[i..]), Code(objs))
      {
        assert objs[i..][0] == objs[i] && objs[i..][1..] == objs[i + 1..];
        bases := bases + [b];
        FilledNext(cnst[..], b.cnst, objs[i].cnst, Cnst(objs[i + 1..]), Cnst(objs));
        CopyAt(cnst, b.cnst, objs[i].cnst);
        FilledNext(data[..], b.data, objs[i].data, Data(objs[i + 1..]), Data(objs));
        CopyAt(data, b.data, objs[i].data);
        FilledNext(code[..], b.code, objs[i].code, Code(objs[i + 1..]), Code(objs));
        CopyAt(code, b.code, objs[i].code);
        NextBases(objs, i);
        b := After(b, objs[i]);
      }
      FilledEnd(cnst[..], b.cnst, Cnst(objs));
      FilledEnd(data[..], b.data, Data(objs));
      FilledEnd(code[..], b.code, Code(objs));
    }

    /** msyms_find: the first symbol of that name, or -1. */
    method Find(name: Name) returns (i: int)
      ensures if FindSym(syms, name) < |syms| then i == FindSym(syms, name) else i == -1
    {
      i := 0;
      while i < |syms|
        invariant 0 <= i <= |syms| && forall k :: 0 <= k < i ==> syms[k].name != name
      {
        if syms[i].name == name { return; }
        i := i + 1;
      }
      i := -1;
    }

    /** msyms_add: append, or -1 when the table is full. */
    method Push(s: Sym) returns (i: int)
      modifies this`syms
      ensures Added(syms, i) == Append(old(syms), s)
    {
      if |syms| >= MAX_SYMS { return -1; }
      i := |syms|;
      syms := syms + [s];
    }

    /** A definition: check for a duplicate global, take over an earlier entry of the name, or append. */
    method Define(s: Sym) returns (ok: bool, at: int)
      modifies this`syms
      ensures match AddSym(old(syms), s) case Duplicate => !ok case Added(m, k) => ok && syms == m && at == k
    {
      ok := true;
      if s.flags == SYM_GLOBAL {
        var existing := Find(s.name);
        if existing >= 0 && syms[existing].flags == SYM_GLOBAL && syms[existing].section != SEC_NONE {
          return false, 0;
        }
        if existing >= 0 {
          syms := syms[existing := s];
          at := existing;
        } else {
          at := Push(s);
        }
      } else {
        at := Push(s);
      }
    }

    /** Pass 3 for one object. */
    method MergeObject(b: Bases, ss: seq<Sym>) returns (ok: bool, map_: seq<int>)
      modifies this`syms
      ensures MergeSyms(old(syms), b, ss) == if ok then Some(Merged(syms, map_)) else None
    {
      hide AddSym, Adjust;
      map_ := [];
      NothingDone<int>(MergeSyms(syms, b, ss), None, None);
      for j := 0 to |ss|
        invariant ThenMerged(map_, MergeSyms(syms, b, ss[j..])) == MergeSyms(old(syms), b, ss)
      {
        assert ss[j..][0] == ss[j] && ss[j..][1..] == ss[j + 1..];
        var at := -1;
        if ss[j].flags != SYM_EXTERN {
          ok, at := Define(Adjust(ss[j], b));
          if !ok { return false, []; }
        }
        ThenMergedOne(map_, at, MergeSyms(syms, b, ss[j + 1..]));
        map_ := map_ + [at];
      }
      assert map_ + [] == map_;
      ok := true;
    }

    /** Pass 3. */
    method MergeObjects() returns (ok: bool)
      requires syms == [] && maps == [] && BasesKnown()
      modifies this`syms, this`maps
      ensures MergeFrom([], ZERO, objs) == if ok then Some(MergedAll(syms, maps)) else None
    {
      hide MergeSyms, After;
      NothingDone<int>(None, MergeFrom(syms, ZERO, objs), None);
      for i := 0 to |objs|
        invariant ThenAll(maps, MergeFrom(syms, BasesAt(objs, i), objs[i..])) == MergeFrom([], ZERO, objs)
      {
        assert objs[i..][0] == objs[i] && objs[i..][1..] == objs[i + 1..];
        NextBases(objs, i);
        var good, map_ := MergeObject(bases[i], objs[i].syms);
        if !good { return false; }
        ThenAllOne(maps, map_, MergeFrom(syms, BasesAt(objs, i + 1), objs[i + 1..]));
        maps := maps + [map_];
      }
      assert maps + [] == maps;
      ok := true;
    }

    /** Pass 4 for one object. */
    method ResolveObject(ss: seq<Sym>, map_: seq<int>) returns (r: Option<seq<int>>)
      requires |map_| == |ss|
      ensures r == ResolveSyms(syms, ss, map_)
    {
      var m: seq<int> := [];
      NothingDone(None, None, ResolveSyms(syms, ss, map_));
      for j := 0 to |ss|
        invariant Then(m, ResolveSyms(syms, ss[j..], map_[j..])) == ResolveSyms(syms, ss, map_)
      {
        assert ss[j..][0] == ss[j] && ss[j..][1..] == ss[j + 1..];
        assert map_[j..][0] == map_[j] && map_[j..][1..] == map_[j + 1..];
        var at := map_[j];
        if ss[j].flags == SYM_EXTERN {
          at := Find(ss[j].name);
          if at < 0 || syms[at].section == SEC_NONE { return None; }
        }
        ThenTwice(m, [at], ResolveSyms(syms, ss[j + 1..], map_[j + 1..]));
        m := m + [at];
      }
      assert m + [] == m;
      return Some(m);
    }

    /** Pass 4. */
    method ResolveExterns() returns (ok: bool)
      requires MapsFit(objs, maps)
      modifies this`maps
      ensures ResolveAll(syms, objs, old(maps)) == if ok then Some(maps) else None
    {
      hide ResolveSyms;
      var before := maps;
      var done: seq<seq<int>> := [];
      NothingDone(None, None, ResolveAll(syms, objs, before));
      for i := 0 to |objs|
        invariant MapsFit(objs[i..], before[i..])
        invariant Then(done, ResolveAll(syms, objs[i..], before[i..])) == ResolveAll(syms, objs, before)
      {
        assert objs[i..][0] == objs[i] && objs[i..][1..] == objs[i + 1..];
        assert before[i..][0] == before[i] && before[i..][1..] == before[i + 1..];
        assert MapsFit(objs[i + 1..], before[i + 1..]);
        var m := ResolveObject(objs[i].syms, before[i]);
        if m == None { return false; }
        ThenTwice(done, [m.value], ResolveAll(syms, objs[i + 1..], before[i + 1..]));
        done := done + [m.value];
      }
      assert done + [] == done;
      maps := done;
      ok := true;
    }

    /** Pass 5 for one object. */
    method MapObject(rs: seq<Rel>, map_: seq<int>, base: nat) returns (ok: bool)
      requires |rels| <= MAX_RELS
      modifies this`rels
      ensures |rels| <= MAX_RELS
      ensures match Then(old(rels), MapRels(rs, map_, base))
              case None => !ok
              case Some(all) => ok == (|all| <= MAX_RELS) && (ok ==> rels == all)
    {
      hide MapRel;
      for j := 0 to |rs|
        invariant |rels| <= MAX_RELS
        invariant Then(rels, MapRels(rs[j..], map_, base)) == Then(old(rels), MapRels(rs, map_, base))
      {
        assert rs[j..][0] == rs[j] && rs[j..][1..] == rs[j + 1..];
        if |rels| >= MAX_RELS { return false; }
        var r := MapRel(rs[j], map_, base);
        if r == None { return false; }
        ThenTwice(rels, [r.value], MapRels(rs[j + 1..], map_, base));
        rels := rels + [r.value];
      }
      assert rels + [] == rels;
      ok := true;
    }

    /** Pass 5. */
    method MapRelocs() returns (ok: bool)
      requires |maps| == |objs| && rels == [] && BasesKnown()
      modifies this`rels
      ensures match MapAll(ZERO, objs, maps)
              case None => !ok
              case Some(all) => ok == (|all| <= MAX_RELS) && (ok ==> rels == all)
    {
      hide MapRels, After;
      NothingDone(None, None, MapAll(ZERO, objs, maps));
      for i := 0 to |objs|
        invariant |rels| <= MAX_RELS
        invariant Then(rels, MapAll(BasesAt(objs, i), objs[i..], maps[i..])) == MapAll(ZERO, objs, maps)
      {
        assert objs[i..][0] == objs[i] && objs[i..][1..] == objs[i + 1..];
        assert maps[i..][0] == maps[i] && maps[i..][1..] == maps[i + 1..];
        NextBases(objs, i);
        ghost var rs := MapRels(objs[i].rels, maps[i], bases[i].code);
        if rs.Some? { ThenTwice(rels, rs.value, MapAll(BasesAt(objs, i + 1), objs[i + 1..], maps[i + 1..])); }
        var good := MapObject(objs[i].rels, maps[i], bases[i].code);
        if !good { return false; }
      }
      assert rels + [] == rels;
      ok := true;
    }

    /** Entry point: the first candidate that names a symbol in the code section. */
    method Entry(names: seq<Name>) returns (e: Option<u32>)
      ensures e == EntryOf(syms, names)
    {
      for k := 0 to |names|
        invariant EntryOf(syms, names[k..]) == EntryOf(syms, names)
      {
        assert names[k..][0] == names[k] && names[k..][1..] == names[k + 1..];
        var i := Find(names[k]);
        if i >= 0 && syms[i].section == SEC_CODE { return Some(syms[i].offset); }
      }
      return None;
    }

    /** All passes. */
    method Run(entry: Option<Name>) returns (r: Option<Prog>)
      requires syms == [] && maps == [] && rels == [] && bases == [] && cnst != data && data != code && cnst != code
      requires cnst.Length == |Cnst(objs)| && data.Length == |Data(objs)| && code.Length == |Code(objs)|
      modifies this, cnst, data, code
      ensures r == Link(objs, entry)
    {
      hide MergeFrom, RelsFrom, ResolveAll, MapAll, EntryOf, Cnst, Data, Code, BasesAt;
      CopySections();
      var merged := MergeObjects();
      if !merged { return None; }
      MergeFits([], ZERO, objs);
      PassByPass(syms, ZERO, objs, maps);
      var resolved := ResolveExterns();
      if !resolved { return None; }
      var mapped := MapRelocs();
      if !mapped { return None; }
      var e := Entry(Candidates(entry));
      var off := if e.Some? then e.value else 0;
      r := Some(Prog(cnst[..], data[..], code[..], syms, rels, off, e.Some? || code.Length > 0));
    }
  }

  /** dvm_link. */
  method DvmLink(objs: seq<Prog>, entry: Option<Name>) returns (r: Option<Prog>)
    ensures r == Link(objs, entry)
  {
    hide Link;
    var job := new LinkJob(objs);
    r := job.Run(entry);
  }
}
