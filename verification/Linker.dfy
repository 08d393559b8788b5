/** The linker: sections concatenated, one merged symbol table, externs resolved by name, relocations
    remapped, entry point chosen. */
module Linker {
  import opened Words
  import opened Objects

  // ----- sections -------------------------------------------------------------------------

  /** Offsets at which an object's sections start in the output. */
  datatype Bases = Bases(cnst: nat, data: nat, code: nat)

  const ZERO: Bases := Bases(0, 0, 0)

  function After(b: Bases, o: Prog): Bases {
    Bases(b.cnst + |o.cnst|, b.data + |o.data|, b.code + |o.code|)
  }

  function BasesAfter(b: Bases, objs: seq<Prog>): Bases
    decreases |objs|
  {
    if objs == [] then b else BasesAfter(After(b, objs[0]), objs[1..])
  }

  function Cnst(objs: seq<Prog>): seq<byte> { if objs == [] then [] else objs[0].cnst + Cnst(objs[1..]) }
  function Data(objs: seq<Prog>): seq<byte> { if objs == [] then [] else objs[0].data + Data(objs[1..]) }
  function Code(objs: seq<Prog>): seq<byte> { if objs == [] then [] else objs[0].code + Code(objs[1..]) }

  // ----- merged symbol table ------------------------------------------------------------------

  function FindSym(ms: seq<Sym>, name: Name): (i: nat)
    ensures i <= |ms| && (i < |ms| ==> ms[i].name == name)
    ensures forall k :: 0 <= k < i ==> ms[k].name != name
  {
    if ms == [] || ms[0].name == name then 0 else 1 + FindSym(ms[1..], name)
  }

  function SectionBase(b: Bases, sec: byte): nat {
    if sec == SEC_CNST then b.cnst else if sec == SEC_DATA then b.data else if sec == SEC_CODE then b.code else 0
  }

  /** The symbol with its offset moved to the output section, in 32-bit arithmetic. */
  function Adjust(s: Sym, b: Bases): Sym {
    s.(offset := (s.offset + SectionBase(b, s.section)) % TWO32)
  }

  /** Index -1 means the table was full and the symbol was dropped. */
  datatype Added = Added(syms: seq<Sym>, at: int) | Duplicate

  function Append(ms: seq<Sym>, s: Sym): Added {
    if |ms| >= MAX_SYMS then Added(ms, -1) else Added(ms + [s], |ms|)
  }

  function AddSym(ms: seq<Sym>, s: Sym): Added {
    if s.flags == SYM_GLOBAL then
      var e := FindSym(ms, s.name);
      if e < |ms| && ms[e].flags == SYM_GLOBAL && ms[e].section != SEC_NONE then Duplicate
      else if e < |ms| then Added(ms[e := s], e)
      else Append(ms, s)
    else Append(ms, s)
  }

  datatype Merged = Merged(syms: seq<Sym>, map_: seq<int>)

  /** Pass 3 over one object: merged table and the object's symbol map (-1 for externs so far). */
  function MergeSyms(ms: seq<Sym>, b: Bases, syms: seq<Sym>): Option<Merged>
    decreases |syms|
  {
    if syms == [] then Some(Merged(ms, []))
    else if syms[0].flags == SYM_EXTERN then
      match MergeSyms(ms, b, syms[1..])
      case None => None
      case Some(r) => Some(Merged(r.syms, [-1] + r.map_))
    else match AddSym(ms, Adjust(syms[0], b))
      case Duplicate => None
      case Added(ms1, at) =>
        match MergeSyms(ms1, b, syms[1..])
        case None => None
        case Some(r) => Some(Merged(r.syms, [at] + r.map_))
  }

  datatype MergedAll = MergedAll(syms: seq<Sym>, maps: seq<seq<int>>)

  function MergeFrom(ms: seq<Sym>, b: Bases, objs: seq<Prog>): Option<MergedAll>
    decreases |objs|
  {
    if objs == [] then Some(MergedAll(ms, []))
    else match MergeSyms(ms, b, objs[0].syms)
      case None => None
      case Some(r) =>
        match MergeFrom(r.syms, After(b, objs[0]), objs[1..])
        case None => None
        case Some(rest) => Some(MergedAll(rest.syms, [r.map_] + rest.maps))
  }

  // ----- externs and relocations -----------------------------------------------------------------

  /** Pass 4: merged index of symbol s, whose pass-3 index is `at`; None if it is an unresolved extern. */
  function ResolveSym(ms: seq<Sym>, s: Sym, at: int): Option<int> {
    if s.flags != SYM_EXTERN then Some(at)
    else
      var r := FindSym(ms, s.name);
      if r == |ms| || ms[r].section == SEC_NONE then None else Some(r)
  }

  function ResolveSyms(ms: seq<Sym>, syms: seq<Sym>, map_: seq<int>): (r: Option<seq<int>>)
    requires |map_| == |syms|
    ensures r.Some? ==> |r.value| == |syms|
  {
    if syms == [] then Some([])
    else match ResolveSym(ms, syms[0], map_[0])
      case None => None
      case Some(i) =>
        match ResolveSyms(ms, syms[1..], map_[1..])
        case None => None
        case Some(rest) => Some([i] + rest)
  }

  /** Pass 5 on one relocation. */
  function MapRel(r: Rel, map_: seq<int>, codeBase: nat): Option<Rel> {
    if r.sym < |map_| && 0 <= map_[r.sym] < TWO32
    then Some(Rel((r.at + codeBase) % TWO32, map_[r.sym], r.kind))
    else None
  }

  function MapRels(rels: seq<Rel>, map_: seq<int>, codeBase: nat): Option<seq<Rel>> {
    if rels == [] then Some([])
    else match MapRel(rels[0], map_, codeBase)
      case None => None
      case Some(r) =>
        match MapRels(rels[1..], map_, codeBase)
        case None => None
        case Some(rest) => Some([r] + rest)
  }

  predicate MapsFit(objs: seq<Prog>, maps: seq<seq<int>>) {
    |maps| == |objs| && forall i :: 0 <= i < |objs| ==> |maps[i]| == |objs[i].syms|
  }

  /** Passes 4 and 5 over the objects. */
  function RelsFrom(ms: seq<Sym>, b: Bases, objs: seq<Prog>, maps: seq<seq<int>>): Option<seq<Rel>>
    requires MapsFit(objs, maps)
    decreases |objs|
  {
    if objs == [] then Some([])
    else
      assert MapsFit(objs[1..], maps[1..]);
      match ResolveSyms(ms, objs[0].syms, maps[0])
      case None => None
      case Some(m) =>
        match MapRels(objs[0].rels, m, b.code)
        case None => None
        case Some(rs) =>
          match RelsFrom(ms, After(b, objs[0]), objs[1..], maps[1..])
          case None => None
          case Some(rest) => Some(rs + rest)
  }

  // ----- entry point -------------------------------------------------------------------------------

  const START_NAME: Name := [95, 115, 116, 97, 114, 116]  // "_start"
  const MAIN_NAME: Name := [109, 97, 105, 110]            // "main"

  function Candidates(entry: Option<Name>): seq<Name> {
    match entry case Some(n) => [n] case None => [START_NAME, MAIN_NAME]
  }

  function EntryOf(ms: seq<Sym>, names: seq<Name>): Option<u32> {
    if names == [] then None
    else
      var i := FindSym(ms, names[0]);
      if i < |ms| && ms[i].section == SEC_CODE then Some(ms[i].offset) else EntryOf(ms, names[1..])
  }

  // ----- dvm_link -------------------------------------------------------------------------------------

  lemma {:induction false} MergeSymsFits(ms: seq<Sym>, b: Bases, syms: seq<Sym>)
    requires MergeSyms(ms, b, syms).Some?
    ensures |MergeSyms(ms, b, syms).value.map_| == |syms|
    decreases |syms|
  {
    hide AddSym;
    if syms != [] {
      if syms[0].flags == SYM_EXTERN {
        MergeSymsFits(ms, b, syms[1..]);
      } else {
        MergeSymsFits(AddSym(ms, Adjust(syms[0], b)).syms, b, syms[1..]);
      }
    }
  }

  lemma {:induction false} MergeFits(ms: seq<Sym>, b: Bases, objs: seq<Prog>)
    requires MergeFrom(ms, b, objs).Some?
    ensures MapsFit(objs, MergeFrom(ms, b, objs).value.maps)
    decreases |objs|
  {
    hide MergeSyms;
    if objs != [] {
      MergeSymsFits(ms, b, objs[0].syms);
      MergeFits(MergeSyms(ms, b, objs[0].syms).value.syms, After(b, objs[0]), objs[1..]);
    }
  }

  function Output(objs: seq<Prog>, ms: seq<Sym>, rels: seq<Rel>, entry: Option<Name>): Prog {
    var e := EntryOf(ms, Candidates(entry));
    var code := Code(objs);
    Prog(Cnst(objs), Data(objs), code, ms, rels,
         match e case Some(off) => off case None => 0,
         e.Some? || |code| > 0)
  }

  function Link(objs: seq<Prog>, entry: Option<Name>): Option<Prog> {
    match MergeFrom([], ZERO, objs)
    case None => None
    case Some(m) =>
      MergeFits([], ZERO, objs);
      match RelsFrom(m.syms, ZERO, objs, m.maps)
      case None => None
      case Some(rels) => if |rels| > MAX_RELS then None else Some(Output(objs, m.syms, rels, entry))
  }
}
