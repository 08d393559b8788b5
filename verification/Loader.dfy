/** The loader: section bytes are copied to their run-time addresses and the code is relocated in place. */
module Loader {
  import opened Words
  import opened Objects

  /** Run-time addresses of the three sections. */
  datatype Addresses = Addresses(cnst: u64, data: u64, code: u64)

  datatype Loaded = Loaded(cnst: seq<byte>, data: seq<byte>, code: seq<byte>, entry: u32)

  function AddressOf(a: Addresses, sec: byte): u64 {
    if sec == SEC_CNST then a.cnst else if sec == SEC_DATA then a.data else a.code
  }

  function SectionOf(p: Prog, sec: byte): seq<byte> {
    if sec == SEC_CNST then p.cnst else if sec == SEC_DATA then p.data else p.code
  }

  /** The symbol a relocation may refer to: in range, resolved, in a section that exists. */
  predicate Loadable(p: Prog, r: Rel) {
    && r.sym < |p.syms|
    && p.syms[r.sym].flags != SYM_EXTERN
    && p.syms[r.sym].section in {SEC_CNST, SEC_DATA, SEC_CODE}
    && |SectionOf(p, p.syms[r.sym].section)| > 0
  }

  /** Bytes stored at a relocation site. */
  function RelBytes(p: Prog, a: Addresses, r: Rel): (w: seq<byte>)
    requires Loadable(p, r)
    ensures |w| == RelWidth(r.kind)
  {
    var s := p.syms[r.sym];
    if r.kind == REL_CODE then Le(4, s.offset)
    else Le(8, (AddressOf(a, s.section) + s.offset) % TWO64)
  }

  /** The relocation loop. */
  function Relocate(p: Prog, a: Addresses, code: seq<byte>, rels: seq<Rel>): (r: Option<seq<byte>>)
    ensures r.Some? ==> |r.value| == |code|
  {
    if rels == [] then Some(code)
    else match Relocate(p, a, code, rels[..|rels| - 1])
      case None => None
      case Some(c) =>
        var r := rels[|rels| - 1];
        if Loadable(p, r) then Some(Overwrite(c, r.at, RelBytes(p, a, r))) else None
  }

  function Load(p: Prog, a: Addresses): Option<Loaded> {
    if |p.code| == 0 then None
    else match Relocate(p, a, p.code, p.rels)
      case None => None
      case Some(code) => Some(Loaded(p.cnst, p.data, code, p.entry))
  }

  // ----- what relocation leaves -------------------------------------------------------------

  predicate Covers(r: Rel, x: int) { r.at <= x < r.at + RelWidth(r.kind) }

  /** Sites in bounds; two different relocations never share a byte. */
  ghost predicate Disjoint(rels: seq<Rel>, n: nat) {
    && (forall r :: r in rels ==> r.at + RelWidth(r.kind) <= n)
    && (forall r, s, x: int :: r in rels && s in rels && Covers(r, x) && Covers(s, x) ==> r == s)
  }

  lemma OrderedIsDisjoint(rels: seq<Rel>, n: nat)
    requires SitesOrdered(rels, n)
    ensures Disjoint(rels, n)
  {
    forall r, s, x: int | r in rels && s in rels && Covers(r, x) && Covers(s, x) ensures r == s {
      var i :| 0 <= i < |rels| && rels[i] == r;
      var j :| 0 <= j < |rels| && rels[j] == s;
    }
  }

  lemma OverwriteHas(t: seq<byte>, at: nat, w: seq<byte>)
    requires at + |w| <= |t|
    ensures HasAt(Overwrite(t, at, w), at, w)
    ensures forall x :: 0 <= x < |t| && !(at <= x < at + |w|) ==> Overwrite(t, at, w)[x] == t[x]
  {
  }

  /** Byte x after relocation: from the one site that covers it, or untouched. */
  lemma {:induction false} RelocatedByte(p: Prog, a: Addresses, code: seq<byte>, rels: seq<Rel>, x: nat)
    requires Relocate(p, a, code, rels).Some? && Disjoint(rels, |code|) && x < |code|
    ensures (forall r :: r in rels ==> Loadable(p, r))
    ensures (forall r :: r in rels ==> !Covers(r, x)) ==> Relocate(p, a, code, rels).value[x] == code[x]
    ensures forall r :: r in rels && Covers(r, x) ==>
              Loadable(p, r) && Relocate(p, a, code, rels).value[x] == RelBytes(p, a, r)[x - r.at]
    decreases |rels|
  {
    hide Loadable, RelBytes, Overwrite;
    if rels != [] {
      var front, last := rels[..|rels| - 1], rels[|rels| - 1];
      assert last in rels && forall r :: r in rels <==> r in front || r == last;
      RelocatedByte(p, a, code, front, x);
      var c := Relocate(p, a, code, front).value;
      OverwriteHas(c, last.at, RelBytes(p, a, last));
      if Covers(last, x) {
        SiteByte(Overwrite(c, last.at, RelBytes(p, a, last)), last.at, RelBytes(p, a, last), x);
      }
    }
  }

  lemma SiteByte(code: seq<byte>, at: nat, w: seq<byte>, x: nat)
    requires HasAt(code, at, w) && at <= x < at + |w|
    ensures x < |code| && code[x] == w[x - at]
  {
    assert code[x] == code[at..at + |w|][x - at];
  }

  /** Every site holds its value; every other byte is the input's. */
  lemma RelocateSpec(p: Prog, a: Addresses, code: seq<byte>, rels: seq<Rel>)
    requires Relocate(p, a, code, rels).Some? && Disjoint(rels, |code|)
    ensures var out := Relocate(p, a, code, rels).value;
            && (forall r :: r in rels ==> Loadable(p, r) && HasAt(out, r.at, RelBytes(p, a, r)))
            && (forall x :: 0 <= x < |code| && (forall r :: r in rels ==> !Covers(r, x)) ==> out[x] == code[x])
  {
    hide Loadable, RelBytes, Relocate, Disjoint;
    var out := Relocate(p, a, code, rels).value;
    forall x | 0 <= x < |code| && (forall r :: r in rels ==> !Covers(r, x)) ensures out[x] == code[x] {
      RelocatedByte(p, a, code, rels, x);
    }
    forall r | r in rels ensures Loadable(p, r) && HasAt(out, r.at, RelBytes(p, a, r)) {
      SiteHolds(p, a, code, rels, r);
    }
  }

  lemma SiteHolds(p: Prog, a: Addresses, code: seq<byte>, rels: seq<Rel>, r: Rel)
    requires Relocate(p, a, code, rels).Some? && Disjoint(rels, |code|) && r in rels
    ensures Loadable(p, r) && HasAt(Relocate(p, a, code, rels).value, r.at, RelBytes(p, a, r))
  {
    hide Loadable, RelBytes, Relocate, Disjoint;
    CoveredByte(p, a, code, rels, r, r.at + RelWidth(r.kind) - 1);
    var out, w := Relocate(p, a, code, rels).value, RelBytes(p, a, r);
    forall x | 0 <= x < |w| ensures out[r.at + x] == w[x] {
      CoveredByte(p, a, code, rels, r, r.at + x);
    }
    HasBytes(out, r.at, w);
  }

  lemma HasBytes(t: seq<byte>, at: nat, w: seq<byte>)
    requires at + |w| <= |t| && forall x :: 0 <= x < |w| ==> t[at + x] == w[x]
    ensures HasAt(t, at, w)
  {
  }

  lemma CoveredByte(p: Prog, a: Addresses, code: seq<byte>, rels: seq<Rel>, r: Rel, x: nat)
    requires Relocate(p, a, code, rels).Some? && Disjoint(rels, |code|) && r in rels && Covers(r, x)
    ensures Loadable(p, r) && x < |code| && Relocate(p, a, code, rels).value[x] == RelBytes(p, a, r)[x - r.at]
  {
    assert x < |code|;
    hide Loadable, RelBytes, Relocate, Disjoint;
    RelocatedByte(p, a, code, rels, x);
  }

  /** Whether relocation succeeds depends only on the set of relocations. */
  lemma {:induction false} RelocateDefined(p: Prog, a: Addresses, code: seq<byte>, rels: seq<Rel>)
    ensures Relocate(p, a, code, rels).Some? <==> forall r :: r in rels ==> Loadable(p, r)
    decreases |rels|
  {
    hide Loadable, RelBytes, Overwrite;
    if rels != [] {
      var front, last := rels[..|rels| - 1], rels[|rels| - 1];
      assert last in rels && forall r :: r in rels <==> r in front || r == last;
      RelocateDefined(p, a, code, front);
    }
  }

  /** With disjoint sites the loaded code does not depend on the order of the relocation table. */
  lemma RelocationOrderIrrelevant(p: Prog, a: Addresses, code: seq<byte>, rels: seq<Rel>, perm: seq<Rel>)
    requires Disjoint(rels, |code|) && forall r :: r in rels <==> r in perm
    ensures Relocate(p, a, code, perm) == Relocate(p, a, code, rels)
  {
    RelocateDefined(p, a, code, rels);
    RelocateDefined(p, a, code, perm);
    if Relocate(p, a, code, rels).Some? {
      var x, y := Relocate(p, a, code, rels).value, Relocate(p, a, code, perm).value;
      forall k | 0 <= k < |code| ensures x[k] == y[k] {
        RelocatedByte(p, a, code, rels, k);
        RelocatedByte(p, a, code, perm, k);
      }
      assert x == y;
    }
  }

  /** What is rejected: a program without code, and one with a relocation that names no symbol, an extern symbol, or a
      symbol in no section or an empty one. What is accepted keeps its data, constants, code size and entry. */
  lemma LoadsIff(p: Prog, a: Addresses)
    ensures Load(p, a).Some? <==>
              && |p.code| > 0
              && forall r :: r in p.rels ==>
                   && r.sym < |p.syms| && p.syms[r.sym].flags != SYM_EXTERN
                   && var sec := p.syms[r.sym].section;
                   || (sec == SEC_CNST && |p.cnst| > 0) || (sec == SEC_DATA && |p.data| > 0) || sec == SEC_CODE
    ensures Load(p, a).Some? ==>
              var out := Load(p, a).value;
              out.cnst == p.cnst && out.data == p.data && |out.code| == |p.code| && out.entry == p.entry
  {
    RelocateDefined(p, a, p.code, p.rels);
    hide Relocate;
  }
}
