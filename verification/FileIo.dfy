/** The reader and writer as they run: one stream operation after another on an open file. */
module FileIo {
  import opened Words
  import opened Objects
  import opened Format

  /** A file opened for writing. */
  class OutFile {
    var bytes: seq<byte>

    constructor ()
      ensures bytes == []
    {
      bytes := [];
    }

    method FwU8(v: byte)
      modifies this
      ensures bytes == old(bytes) + [v]
    {
      bytes := bytes + [v];
    }

    method FwU32(v: nat)
      modifies this
      ensures bytes == old(bytes) + Le(4, v)
    {
      bytes := bytes + Le(4, v);
    }

    method FwTag(t: Tag)
      modifies this
      ensures bytes == old(bytes) + t
    {
      bytes := bytes + t;
    }

    method FwSec(tag: Tag, d: seq<byte>)
      modifies this
      ensures bytes == old(bytes) + WriteSection(tag, d)
    {
      FwTag(tag);
      FwU32(|d|);
      bytes := bytes + d;
      assert bytes == old(bytes) + (tag + Le(4, |d|) + d);
    }

    method FwSym(s: Sym)
      modifies this
      ensures bytes == old(bytes) + WriteSym(s)
    {
      var nl := |CStr(s.name)| % 256;
      FwU8(s.flags);
      FwU8(s.section);
      FwU32(s.offset);
      FwU8(nl);
      bytes := bytes + CStr(s.name)[..nl];
      assert bytes == old(bytes) + ([s.flags, s.section] + Le(4, s.offset) + [nl] + CStr(s.name)[..nl]);
    }

    method FwRel(r: Rel)
      modifies this
      ensures bytes == old(bytes) + WriteRel(r)
    {
      FwU32(r.at);
      FwU32(r.sym);
      FwU8(r.kind);
      assert bytes == old(bytes) + (Le(4, r.at) + Le(4, r.sym) + [r.kind]);
    }

    method FwSyms(ss: seq<Sym>)
      modifies this
      ensures bytes == old(bytes) + WriteSyms(ss)
    {
      hide WriteSym;
      for i := 0 to |ss|
        invariant bytes + WriteSyms(ss[i..]) == old(bytes) + WriteSyms(ss)
      {
        ghost var before := bytes;
        FwSym(ss[i]);
        assert ss[i..][0] == ss[i] && ss[i..][1..] == ss[i + 1..];
        Assoc(before, WriteSym(ss[i]), WriteSyms(ss[i + 1..]));
      }
    }

    method FwRels(rs: seq<Rel>)
      modifies this
      ensures bytes == old(bytes) + WriteRels(rs)
    {
      hide WriteRel;
      for i := 0 to |rs|
        invariant bytes + WriteRels(rs[i..]) == old(bytes) + WriteRels(rs)
      {
        ghost var before := bytes;
        FwRel(rs[i]);
        assert rs[i..][0] == rs[i] && rs[i..][1..] == rs[i + 1..];
        Assoc(before, WriteRel(rs[i]), WriteRels(rs[i + 1..]));
      }
    }

    method DvmWrite(p: Prog)
      modifies this
      ensures bytes == old(bytes) + Write(p)
    {
      hide WriteSection, WriteSyms, WriteRels, Le;
      var start := bytes;
      FwTag(MAGIC);
      FwTag(TAG_ENTR);
      FwU32(p.entry);
      FwSec(TAG_CNST, p.cnst);
      FwSec(TAG_DATA, p.data);
      FwSec(TAG_CODE, p.code);
      ghost var front := bytes;
      FwTag(TAG_SYMS);
      FwU32(|p.syms|);
      FwSyms(p.syms);
      FwTag(TAG_RELS);
      FwU32(|p.rels|);
      FwRels(p.rels);
      FwTag(TAG_END);
      Tables(front, p);
      Front(start, p);
    }
  }

  lemma Tables(front: seq<byte>, p: Prog)
    ensures front + TAG_SYMS + Le(4, |p.syms|) + WriteSyms(p.syms) + TAG_RELS + Le(4, |p.rels|) + WriteRels(p.rels)
        + TAG_END
         == front + WriteTables(p)
  {
    hide WriteSyms, WriteRels, Le;
  }

  lemma Front(start: seq<byte>, p: Prog)
    ensures start + MAGIC + TAG_ENTR + Le(4, p.entry) + WriteSection(TAG_CNST, p.cnst) + WriteSection(TAG_DATA, p.data)
            + WriteSection(TAG_CODE, p.code) + WriteTables(p)
         == start + Write(p)
  {
    hide WriteSection, WriteTables, Le;
  }

  // ----- reading -----------------------------------------------------------------------------------------

  datatype Result<+T> = Got(v: T) | Refused | NameOverrun

  /** The outcome agrees with the specification, and on success the stream is where it says. */
  ghost predicate Agrees<T(!new)>(r: Result<T>, want: Parsed<T>, rest: seq<byte>) {
    match want
    case Ok(v, t) => r == Got(v) && rest == t
    case Reject => r == Refused
    case Overrun => r == NameOverrun
  }

  function Prepend<T>(xs: seq<T>, r: Parsed<seq<T>>): Parsed<seq<T>> {
    match r
    case Ok(ys, t) => Ok(xs + ys, t)
    case Reject => Reject
    case Overrun => Overrun
  }

  /** A file opened for reading. */
  class InFile {
    const bytes: seq<byte>
    var pos: nat

    ghost predicate Valid()
      reads this
    {
      pos <= |bytes|
    }

    ghost function Rest(): seq<byte>
      requires Valid()
      reads this
    {
      bytes[pos..]
    }

    constructor (b: seq<byte>)
      ensures Valid() && Rest() == b
    {
      bytes := b;
      pos := 0;
      new;
      assert bytes[0..] == b;
    }

    /** fread: n bytes or failure. */
    method Fread(n: nat) returns (w: Option<seq<byte>>)
      requires Valid()
      modifies this
      ensures Valid()
      ensures if n <= |old(Rest())| then w == Some(old(Rest())[..n]) && Rest() == old(Rest())[n..] else w == None
    {
      if pos + n > |bytes| {
        return None;
      }
      w := Some(bytes[pos..pos + n]);
      assert bytes[pos..][..n] == bytes[pos..pos + n] && bytes[pos..][n..] == bytes[pos + n..];
      pos := pos + n;
    }

    method FrU8() returns (v: Option<byte>)
      requires Valid()
      modifies this
      ensures Valid()
      ensures if old(Rest()) == [] then v == None else v == Some(old(Rest())[0]) && Rest() == old(Rest())[1..]
    {
      var w := Fread(1);
      v := if w.Some? then Some(w.value[0]) else None;
    }

    method FrU32() returns (v: Option<u32>)
      requires Valid()
      modifies this
      ensures Valid()
      ensures if |old(Rest())| < 4 then v == None
              else v == Some(FromLe(old(Rest())[..4])) && Rest() == old(Rest())[4..]
    {
      PowValues();
      var w := Fread(4);
      v := if w.Some? then Some(FromLe(w.value)) else None;
    }

    method FrTag(t: Tag) returns (ok: bool)
      requires Valid()
      modifies this
      ensures Valid() && ok == (t <= old(Rest())) && (ok ==> Rest() == old(Rest())[4..])
    {
      var w := Fread(4);
      ok := w.Some? && w.value == t;
    }

    method FrSection(tag: Tag) returns (r: Result<seq<byte>>)
      requires Valid()
      modifies this
      ensures Valid() && Agrees(r, ReadSection(tag, old(Rest())), Rest())
    {
      var ok := FrTag(tag);
      if !ok { return Refused; }
      ghost var s := Rest();
      var n := FrU32();
      if n == None { return Refused; }
      var d := Fread(n.value);
      if d == None { return Refused; }
      assert s[4..][..n.value] == s[4..4 + n.value] && s[4..][n.value..] == s[4 + n.value..];
      return Got(d.value);
    }

    method FrSym() returns (r: Result<Sym>)
      requires Valid()
      modifies this
      ensures Valid() && Agrees(r, ReadSym(old(Rest())), Rest())
    {
      ghost var s := Rest();
      var flags := FrU8();
      if flags == None { return Refused; }
      var sec := FrU8();
      if sec == None { return Refused; }
      assert Rest() == s[2..];
      var off := FrU32();
      if off == None { return Refused; }
      assert s[2..][..4] == s[2..6] && Rest() == s[6..];
      var nl := FrU8();
      if nl == None { return Refused; }
      assert Rest() == s[7..];
      if pos + (if nl.value > 65 then 65 else nl.value) > |bytes| { return Refused; }
      if nl.value > NAME_MAX { return NameOverrun; }
      var name := Fread(nl.value);
      assert s[7..][..nl.value] == s[7..7 + nl.value] && Rest() == s[7 + nl.value..];
      return Got(Sym(name.value, flags.value, sec.value, off.value));
    }

    method FrRel() returns (r: Result<Rel>)
      requires Valid()
      modifies this
      ensures Valid() && Agrees(r, ReadRel(old(Rest())), Rest())
    {
      ghost var s := Rest();
      var off := FrU32();
      if off == None { return Refused; }
      var sym := FrU32();
      if sym == None { return Refused; }
      assert s[4..][..4] == s[4..8] && Rest() == s[8..];
      var kind := FrU8();
      if kind == None { return Refused; }
      assert Rest() == s[9..];
      return Got(Rel(off.value, sym.value, kind.value));
    }

    method FrCount(tag: Tag, max: nat) returns (r: Result<nat>)
      requires Valid()
      modifies this
      ensures Valid() && Agrees(r, ReadCount(tag, max, old(Rest())), Rest())
    {
      ghost var s := Rest();
      var ok := FrTag(tag);
      if !ok { return Refused; }
      var n := FrU32();
      assert |s| >= 8 ==> s[4..][..4] == s[4..8] && s[4..][4..] == s[8..];
      if n == None || n.value > max { return Refused; }
      return Got(n.value);
    }

    method FrSyms() returns (r: Result<seq<Sym>>)
      requires Valid()
      modifies this
      ensures Valid() && Agrees(r, ReadSymTable(old(Rest())), Rest())
    {
      hide ReadSym, ReadCount;
      var n := FrCount(TAG_SYMS, MAX_SYMS);
      if !n.Got? { return Refused; }
      ghost var s := Rest();
      var xs, i := [], 0;
      PrependNone(ReadSyms(n.v, s));
      while i < n.v
        invariant Valid() && i <= n.v
        invariant Prepend(xs, ReadSyms(n.v - i, Rest())) == ReadSyms(n.v, s)
      {
        var x := FrSym();
        if !x.Got? { return if x.Refused? then Refused else NameOverrun; }
        PrependOne(xs, x.v, ReadSyms(n.v - i - 1, Rest()));
        xs, i := xs + [x.v], i + 1;
      }
      assert xs + [] == xs;
      return Got(xs);
    }

    method FrRels() returns (r: Result<seq<Rel>>)
      requires Valid()
      modifies this
      ensures Valid() && Agrees(r, ReadRelTable(old(Rest())), Rest())
    {
      hide ReadRel, ReadCount;
      var n := FrCount(TAG_RELS, MAX_RELS);
      if !n.Got? { return Refused; }
      ghost var s := Rest();
      var xs, i := [], 0;
      PrependNone(ReadRels(n.v, s));
      while i < n.v
        invariant Valid() && i <= n.v
        invariant Prepend(xs, ReadRels(n.v - i, Rest())) == ReadRels(n.v, s)
      {
        var x := FrRel();
        if !x.Got? { return Refused; }
        PrependOne(xs, x.v, ReadRels(n.v - i - 1, Rest()));
        xs, i := xs + [x.v], i + 1;
      }
      assert xs + [] == xs;
      return Got(xs);
    }

    method FrEntry() returns (r: Result<u32>)
      requires Valid()
      modifies this
      ensures Valid() && Agrees(r, ReadEntry(old(Rest())), Rest())
    {
      ghost var s := Rest();
      var magic := FrTag(MAGIC);
      if !magic { return Refused; }
      var entr := FrTag(TAG_ENTR);
      if !entr { return Refused; }
      assert Rest() == s[8..];
      var e := FrU32();
      if e == None { return Refused; }
      assert s[8..][..4] == s[8..12] && s[8..][4..] == s[12..];
      return Got(e.value);
    }

    method DvmRead() returns (r: Result<Prog>)
      requires Valid()
      modifies this
      ensures Valid() && Agrees(r, Read(old(Rest())), Rest())
    {
      hide ReadEntry, ReadSection, ReadSymTable, ReadRelTable;
      var entry := FrEntry();
      if !entry.Got? { return Refused; }
      var cnst := FrSection(TAG_CNST);
      if !cnst.Got? { return Refused; }
      var data := FrSection(TAG_DATA);
      if !data.Got? { return Refused; }
      var code := FrSection(TAG_CODE);
      if !code.Got? { return Refused; }
      var syms := FrSyms();
      if !syms.Got? { return if syms.Refused? then Refused else NameOverrun; }
      var rels := FrRels();
      if !rels.Got? { return if rels.Refused? then Refused else NameOverrun; }
      var end := FrTag(TAG_END);
      if !end { return Refused; }
      return Got(Prog(cnst.v, data.v, code.v, syms.v, rels.v, entry.v, true));
    }
  }

  lemma PrependNone<T>(r: Parsed<seq<T>>)
    ensures Prepend([], r) == r
  {
    match r
    case Ok(ys, t) => assert [] + ys == ys;
    case _ =>
  }

  lemma PrependOne<T>(xs: seq<T>, x: T, r: Parsed<seq<T>>)
    ensures Prepend(xs + [x], r) == Prepend(xs, Prepend([x], r))
  {
    match r
    case Ok(ys, t) => assert xs + [x] + ys == xs + ([x] + ys);
    case _ =>
  }
}
