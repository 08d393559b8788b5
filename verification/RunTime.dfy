/** The loaded program in memory: what lies behind the pointers that the loader stores. */
module RunTime {
  import opened Words
  import opened Objects
  import opened Memory
  import opened Linker
  import opened Loader
  import opened LinkLoad
  import opened Meaning
  import opened Origins

  /** A loaded program in memory: constants, data and code each at its address. */
  ghost predicate InMemory(mem: Mem, a: Addresses, p: Loaded) {
    LiesAt(mem, a.cnst, p.cnst) && LiesAt(mem, a.data, p.data) && LiesAt(mem, a.code, p.code)
  }

  /** `out` is the link of objs, loaded at a; every section of it is shorter than 2^32 bytes. */
  ghost predicate LinkedAndLoaded(objs: seq<Prog>, entry: Option<Name>, a: Addresses, out: Loaded) {
    && Compact(objs) && |Cnst(objs)| < TWO32 && |Data(objs)| < TWO32
    && Link(objs, entry).Some? && Loader.Load(Link(objs, entry).value, a) == Some(out)
  }

  /** The byte x behind address p is byte x behind symbol s in the section of object o that holds it; in the code,
      if no relocation of the object covers it. */
  ghost predicate Shows(mem: Mem, o: Prog, s: Sym, p: nat, x: nat) {
    && (s.section == SEC_CNST && s.offset + x < |o.cnst| ==> ByteThere(mem, p + x, o.cnst[s.offset + x]))
    && (s.section == SEC_DATA && s.offset + x < |o.data| ==> ByteThere(mem, p + x, o.data[s.offset + x]))
    && (s.section == SEC_CODE && s.offset + x < |o.code| && Clear(o.rels, s.offset + x) ==>
          ByteThere(mem, p + x, o.code[s.offset + x]))
  }

  /** p is the run-time address of symbol s of object o. */
  ghost predicate PointsTo(mem: Mem, o: Prog, s: Sym, p: nat) { forall x: nat :: Shows(mem, o, s, p, x) }

  /** The sections of a loaded link. */
  lemma LoadedSections(objs: seq<Prog>, entry: Option<Name>, a: Addresses, out: Loaded)
    requires LinkedAndLoaded(objs, entry, a, out)
    ensures out.cnst == Cnst(objs) && out.data == Data(objs) && |out.code| == |Code(objs)|
    ensures Link(objs, entry).value.code == Code(objs)
  {
    hide Link, Relocate, Cnst, Data, Code, Compact;
    LinkedSections(objs, entry);
  }

  /** What lies x bytes behind the final place of symbol s of object d. */
  lemma BehindPlace(
      objs: seq<Prog>, entry: Option<Name>, a: Addresses, out: Loaded, mem: Mem, d: nat, s: Sym, x: nat)
    requires LinkedAndLoaded(objs, entry, a, out) && InMemory(mem, a, out) && d < |objs|
    ensures var off := Adjust(s, BasesOf(ZERO, objs, d)).offset;
            && (s.section == SEC_CNST ==> Shows(mem, objs[d], s, a.cnst + off, x))
            && (s.section == SEC_DATA ==> Shows(mem, objs[d], s, a.data + off, x))
            && (s.section == SEC_CODE ==> Shows(mem, objs[d], s, a.code + off, x))
  {
    hide Link, Loader.Load, BasesOf, Cnst, Data, Code, Compact, Clear;
    var l := Link(objs, entry).value;
    LoadedSections(objs, entry, a, out);
    LinkedSections(objs, entry);
    if s.section in {SEC_CNST, SEC_DATA, SEC_CODE} && s.offset + x < |SectionOf(objs[d], s.section)| {
      SectionSize(objs, l, s.section);
      DefinitionByte(objs, entry, d, s, x);
      if s.section == SEC_CODE && Clear(objs[d].rels, s.offset + x) {
        CodePlace(objs, entry, a, out, d, s, x);
      }
    }
  }

  lemma SectionSize(objs: seq<Prog>, l: Prog, sec: byte)
    requires l.cnst == Cnst(objs) && l.data == Data(objs) && l.code == Code(objs)
    requires Compact(objs) && |Cnst(objs)| < TWO32 && |Data(objs)| < TWO32
    ensures |SectionOf(l, sec)| < TWO32
  {
    hide AllSitesDisjoint;
  }

  lemma CodePlace(objs: seq<Prog>, entry: Option<Name>, a: Addresses, out: Loaded, d: nat, s: Sym, x: nat)
    requires LinkedAndLoaded(objs, entry, a, out) && d < |objs| && s.section == SEC_CODE
    requires s.offset + x < |objs[d].code| && Clear(objs[d].rels, s.offset + x)
    requires Adjust(s, BasesOf(ZERO, objs, d)).offset == s.offset + BasesOf(ZERO, objs, d).code
    ensures var off := Adjust(s, BasesOf(ZERO, objs, d)).offset;
            off + x < |out.code| && out.code[off + x] == objs[d].code[s.offset + x]
  {
    hide Link, Loader.Load, BasesOf, Compact, Clear, Adjust;
    LinkLoadElsewhere(objs, entry, a, d, s.offset + x);
  }

  /** Every 8-byte relocation of every object stores a pointer to what its symbol stands for: reading memory x bytes
      behind it gives the byte x bytes behind the symbol in the object that defines it. */
  lemma PointerReads(objs: seq<Prog>, entry: Option<Name>, a: Addresses, out: Loaded, mem: Mem, i: nat, j: nat)
      returns (d: nat, m: nat)
    requires LinkedAndLoaded(objs, entry, a, out) && InMemory(mem, a, out)
    requires i < |objs| && j < |objs[i].rels| && objs[i].rels[j].kind != REL_CODE
    ensures Is(objs, i, objs[i].rels[j].sym) && StandsFor(objs, i, objs[i].rels[j].sym, d, m) && Is(objs, d, m)
    ensures var site := a.code + BasesOf(ZERO, objs, i).code + objs[i].rels[j].at;
            Mapped(mem, site, 8) && PointsTo(mem, objs[d], objs[d].syms[m], FromLe(Bytes(mem, site, 8)))
  {
    hide Link, Loader.Load, BasesOf, Cnst, Data, Code, Compact, Clear, StandsFor, Final, Stored, Adjust, Le, FromLe,
         Bytes, Shows, InMemory, AllSitesDisjoint;
    LinkLoadMeaning(objs, entry, a, i, j);
    var r := objs[i].rels[j];
    d, m := StandsForOne(objs, entry, i, r.sym);
    FinalStandsFor(objs, i, r.sym, d, m);
    var off := BasesOf(ZERO, objs, i).code + r.at;
    var s, t := objs[d].syms[m], Final(objs, i, r.sym).value;
    var w := Stored(a, r.kind, t);
    CodeLies(mem, a, out);
    StoredWidth(a, r.kind, t);
    LiesBytes(mem, a.code, out.code, off, w);
    assert a.code + off == a.code + BasesOf(ZERO, objs, i).code + r.at;
    forall x: nat ensures Shows(mem, objs[d], s, FromLe(w), x) {
      Behind(objs, entry, a, out, mem, d, s, x);
    }
  }

  lemma CodeLies(mem: Mem, a: Addresses, out: Loaded)
    requires InMemory(mem, a, out)
    ensures LiesAt(mem, a.code, out.code)
  {
  }

  lemma StoredWidth(a: Addresses, kind: byte, t: Sym)
    ensures |Stored(a, kind, t)| == RelWidth(kind)
    ensures kind != REL_CODE ==> Stored(a, kind, t) == Stored(a, REL_DATA, t)
  {
  }

  /** The same from the pointer's bytes. */
  lemma Behind(objs: seq<Prog>, entry: Option<Name>, a: Addresses, out: Loaded, mem: Mem, d: nat, s: Sym, x: nat)
    requires LinkedAndLoaded(objs, entry, a, out) && InMemory(mem, a, out) && d < |objs|
    ensures Shows(mem, objs[d], s, FromLe(Stored(a, REL_DATA, Adjust(s, BasesOf(ZERO, objs, d)))), x)
  {
    hide Link, Loader.Load, BasesOf, Cnst, Data, Code, Compact, Clear, Le, FromLe, SectionBase;
    var t := Adjust(s, BasesOf(ZERO, objs, d));
    BehindPlace(objs, entry, a, out, mem, d, s, x);
    LoadedSections(objs, entry, a, out);
    LinkedSections(objs, entry);
    PowValues();
    FromLeLe(8, (AddressOf(a, t.section) + t.offset) % TWO64);
    if s.section in {SEC_CNST, SEC_DATA, SEC_CODE} && s.offset + x < |SectionOf(objs[d], s.section)| {
      SectionSize(objs, Link(objs, entry).value, s.section);
      DefinitionByte(objs, entry, d, s, x);
      hide Adjust;
    }
  }

  /** Every 4-byte relocation stores the code offset of what its symbol stands for: counted from the code's address
      it leads to the symbol's own code. */
  lemma OffsetReads(objs: seq<Prog>, entry: Option<Name>, a: Addresses, out: Loaded, mem: Mem, i: nat, j: nat)
      returns (d: nat, m: nat)
    requires LinkedAndLoaded(objs, entry, a, out) && InMemory(mem, a, out)
    requires i < |objs| && j < |objs[i].rels| && objs[i].rels[j].kind == REL_CODE
    ensures Is(objs, i, objs[i].rels[j].sym) && StandsFor(objs, i, objs[i].rels[j].sym, d, m) && Is(objs, d, m)
    ensures var site := a.code + BasesOf(ZERO, objs, i).code + objs[i].rels[j].at;
            && Mapped(mem, site, 4)
            && (objs[d].syms[m].section == SEC_CODE ==>
                  PointsTo(mem, objs[d], objs[d].syms[m], a.code + FromLe(Bytes(mem, site, 4))))
  {
    hide Link, Loader.Load, BasesOf, Cnst, Data, Code, Compact, Clear, StandsFor, Final, Adjust, Le, FromLe, Bytes,
         Shows, InMemory, AllSitesDisjoint;
    LinkLoadMeaning(objs, entry, a, i, j);
    var r := objs[i].rels[j];
    d, m := StandsForOne(objs, entry, i, r.sym);
    FinalStandsFor(objs, i, r.sym, d, m);
    var off := BasesOf(ZERO, objs, i).code + r.at;
    var s, t := objs[d].syms[m], Final(objs, i, r.sym).value;
    CodeLies(mem, a, out);
    LiesBytes(mem, a.code, out.code, off, Le(4, t.offset));
    PowValues();
    FromLeLe(4, t.offset);
    assert a.code + off == a.code + BasesOf(ZERO, objs, i).code + r.at;
    if s.section == SEC_CODE {
      var target := a.code + t.offset;
      forall x: nat ensures Shows(mem, objs[d], s, target, x) {
        BehindPlace(objs, entry, a, out, mem, d, s, x);
      }
    }
  }
}
