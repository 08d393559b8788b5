/** The loader as it runs: the code section is copied and patched in place. */
module LoaderRun {
  import opened Words
  import opened Objects
  import opened Loader

  /** The relocation loop on the mapped code section. Sites past its end would overwrite other memory. */
  method RelocateInPlace(p: Prog, a: Addresses, code: array<byte>) returns (ok: bool)
    requires forall r :: r in p.rels ==> r.at + RelWidth(r.kind) <= code.Length
    modifies code
    ensures match Relocate(p, a, old(code[..]), p.rels)
            case None => !ok
            case Some(c) => ok && code[..] == c
  {
    hide Loadable, RelBytes, Overwrite;
    assert p.rels[..|p.rels|] == p.rels;
    for i := 0 to |p.rels|
      invariant Relocate(p, a, old(code[..]), p.rels[..i]) == Some(code[..])
    {
      assert p.rels[..i + 1][..i] == p.rels[..i] && p.rels[..i + 1][i] == p.rels[i];
      var r := p.rels[i];
      if !Loadable(p, r) {
        StopsHere(p, a, old(code[..]), p.rels, i);
        return false;
      }
      CopyAt(code, r.at, RelBytes(p, a, r));
    }
    ok := true;
  }

  /** One relocation that cannot be applied fails the whole load. */
  lemma StopsHere(p: Prog, a: Addresses, code: seq<byte>, rels: seq<Rel>, i: nat)
    requires i < |rels| && !Loadable(p, rels[i])
    ensures Relocate(p, a, code, rels) == None
  {
    hide Loadable, RelBytes, Overwrite;
    RelocateDefined(p, a, code, rels);
    assert rels[i] in rels;
  }

  /** dvm_load. */
  method DvmLoad(p: Prog, a: Addresses) returns (r: Option<Loaded>)
    requires forall x :: x in p.rels ==> x.at + RelWidth(x.kind) <= |p.code|
    ensures r == Load(p, a)
  {
    hide Relocate;
    if |p.code| == 0 { return None; }
    var code := new byte[|p.code|];
    forall k | 0 <= k < |p.code| { code[k] := p.code[k]; }
    assert code[..] == p.code;
    var ok := RelocateInPlace(p, a, code);
    if !ok { return None; }
    r := Some(Loaded(p.cnst, p.data, code[..], p.entry));
  }
}
