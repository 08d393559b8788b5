/** From source to running program: a label that the source loads into a register points at the bytes of the
    directive behind it. */
module Pointers {
  import opened Words
  import opened Isa
  import opened Objects
  import opened Asm
  import opened Labels
  import opened TwoPass
  import opened Memory
  import opened Linker
  import opened LinkLoad
  import opened Origins
  import opened RunTime
  import Loader
  import Relocs
  import SymIndices
  import DataSections
  import Exports

  /** Object i of objs is the assembled source, in which every declared global is defined. */
  ghost predicate Assembled(objs: seq<Prog>, i: nat, lines: seq<Line>) {
    && Assemble(lines).Ok? && i < |objs| && objs[i] == ToProg(Assemble(lines).v)
    && forall n :: StatusAfter(Absent, START, lines, n) != Declared
  }

  /** The bytes w lie behind address p. */
  ghost predicate Holds(mem: Mem, p: nat, w: seq<byte>) {
    forall x :: 0 <= x < |w| ==> ByteThere(mem, p + x, w[x])
  }

  /** `mov r, n` on line k has a relocation for n, at its immediate. */
  lemma LoadRelocated(lines: seq<Line>, k: nat, r: Reg, n: Name) returns (j: nat)
    requires Assemble(lines).Ok? && forall m :: StatusAfter(Absent, START, lines, m) != Declared
    requires k < |lines| && lines[k] == Ins(MovLabel(r, n))
    ensures var p := ToProg(Assemble(lines).v);
            && j < |p.rels| && p.rels[j].at == Relocs.TextAt(lines, k) + 2 && p.rels[j].kind == REL_DATA
            && p.rels[j].sym < |p.syms| && p.syms[p.rels[j].sym].name == n
  {
    var site := Relocs.Site(Relocs.TextAt(lines, k) + 2, REL_DATA, n);
    assert Relocs.SitesOf(lines[k].src, Relocs.TextAt(lines, k)) == [site];
    assert Relocs.SiteOf(lines, k, site);
    hide Assemble, StatusAfter, SymsOf, Relocs.SitesOf, Relocs.TextAt, Relocs.SiteOf, Relocs.RelocSites;
    SymIndices.ObjectRelocsNameTheirLabels(lines);
    Relocs.SiteMember(lines, |lines|, site);
    Relocs.AssembleRelocs(lines);
    var sites := Relocs.RelocSites(lines, |lines|);
    j :| 0 <= j < |sites| && sites[j] == site;
  }

  /** The only symbol of its name in its object, and no other object exports the name: it stands for itself. */
  lemma StandsForItself(objs: seq<Prog>, i: nat, x: nat, d: nat, m: nat)
    requires Is(objs, i, x) && objs[i].syms[x].flags != SYM_EXTERN && StandsFor(objs, i, x, d, m)
    requires forall y :: 0 <= y < |objs[i].syms| && objs[i].syms[y].name == objs[i].syms[x].name ==> y == x
    requires forall e: nat, y: nat :: GlobalAt(objs, e, y, objs[i].syms[x].name) ==> e == i
    ensures d == i && m == x
  {
  }

  /** Bytes of a data section that are shown behind a pointer are in memory there. */
  lemma HoldsDirective(mem: Mem, o: Prog, s: Sym, p: nat, w: seq<byte>)
    requires s.section in {SEC_DATA, SEC_CNST} && HasAt(if s.section == SEC_DATA then o.data else o.cnst, s.offset, w)
    requires forall x: nat :: Shows(mem, o, s, p, x)
    ensures Holds(mem, p, w)
  {
    forall x | 0 <= x < |w| ensures ByteThere(mem, p + x, w[x]) {
      assert Shows(mem, o, s, p, x);
      Loader.SiteByte(if s.section == SEC_DATA then o.data else o.cnst, s.offset, w, s.offset + x);
    }
  }

  /** Assembled, linked with whatever else, loaded: the immediate of `mov r, n` is the address of the bytes of the
      directive that follows the label n in the source. */
  lemma LabelPointsAtDirective(
      objs: seq<Prog>, entry: Option<Name>, a: Loader.Addresses, out: Loader.Loaded, mem: Mem, i: nat,
      lines: seq<Line>, k: nat, r: Reg, q: nat, n: Name, w: seq<byte>)
    requires LinkedAndLoaded(objs, entry, a, out) && InMemory(mem, a, out) && Assembled(objs, i, lines)
    requires forall e: nat, y: nat :: GlobalAt(objs, e, y, n) ==> e == i
    requires k < |lines| && lines[k] == Ins(MovLabel(r, n))
    requires q + 1 < |lines| && lines[q] == LabelDef(n) && forall j :: 0 <= j < q ==> lines[j] != LabelDef(n)
    requires (lines[q + 1].Number? || lines[q + 1].Text?) && DataSections.StandsIn(lines[q + 1], w)
    ensures var site := a.code + BasesOf(ZERO, objs, i).code + Relocs.TextAt(lines, k) + 2;
            Mapped(mem, site, 8) && Holds(mem, FromLe(Memory.Bytes(mem, site, 8)), w)
  {
    hide LinkedAndLoaded, InMemory, BasesOf, Relocs.TextAt, StatusAfter, DefAt, Exports.Exported, ToProg, Assemble,
         DataSections.StandsIn, StandsFor, FromLe, Memory.Bytes, HasAt, Clear;
    var j := LoadRelocated(lines, k, r, n);
    var sec, off := DataSections.LabelledDirective(lines, q, n, w);
    var x := Exports.SymbolIff(lines, n);
    var p := objs[i];
    assert p.rels[j].sym == x;
    var d, m := PointerReads(objs, entry, a, out, mem, i, j);
    StandsForItself(objs, i, x, d, m);
    var site := a.code + BasesOf(ZERO, objs, i).code + Relocs.TextAt(lines, k) + 2;
    assert a.code + BasesOf(ZERO, objs, i).code + p.rels[j].at == site;
    var at := FromLe(Memory.Bytes(mem, site, 8));
    HoldsDirective(mem, p, p.syms[x], at, w);
  }
}
