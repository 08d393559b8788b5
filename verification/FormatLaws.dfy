/** The format is canonical, and no proper prefix of a written file is accepted. */
module FormatLaws {
  import opened Words
  import opened Objects
  import opened Format

  // ----- more input never changes what was read -------------------------------------------------------

  function Longer<T>(r: Parsed<T>, t: seq<byte>): Parsed<T> {
    match r
    case Ok(v, rest) => Ok(v, rest + t)
    case Reject => Reject
    case Overrun => Overrun
  }

  lemma TagLonger(tag: Tag, s: seq<byte>, t: seq<byte>)
    requires tag <= s
    ensures tag <= s + t && (s + t)[4..] == s[4..] + t
  {
  }

  lemma SizedLonger(s: seq<byte>, t: seq<byte>)
    requires ReadSized(s) != Reject
    ensures ReadSized(s + t) == Longer(ReadSized(s), t)
  {
    assert (s + t)[..4] == s[..4];
    var n := FromLe(s[..4]);
    assert (s + t)[4..4 + n] == s[4..4 + n] && (s + t)[4 + n..] == s[4 + n..] + t;
  }

  lemma SectionLonger(tag: Tag, s: seq<byte>, t: seq<byte>)
    requires ReadSection(tag, s) != Reject
    ensures ReadSection(tag, s + t) == Longer(ReadSection(tag, s), t)
  {
    hide ReadSized;
    TagLonger(tag, s, t);
    SizedLonger(s[4..], t);
  }

  lemma SymLonger(s: seq<byte>, t: seq<byte>)
    requires ReadSym(s) != Reject
    ensures ReadSym(s + t) == Longer(ReadSym(s), t)
  {
    var n := s[6];
    assert (s + t)[2..6] == s[2..6];
    if n <= NAME_MAX {
      assert (s + t)[7..7 + n] == s[7..7 + n] && (s + t)[7 + n..] == s[7 + n..] + t;
    }
  }

  lemma {:induction false} SymsLonger(n: nat, s: seq<byte>, t: seq<byte>)
    requires ReadSyms(n, s) != Reject
    ensures ReadSyms(n, s + t) == Longer(ReadSyms(n, s), t)
    decreases n
  {
    hide ReadSym;
    if n > 0 {
      SymLonger(s, t);
      match ReadSym(s)
      case Ok(x, s1) => SymsLonger(n - 1, s1, t);
      case _ =>
    }
  }

  lemma RelLonger(s: seq<byte>, t: seq<byte>)
    requires ReadRel(s) != Reject
    ensures ReadRel(s + t) == Longer(ReadRel(s), t)
  {
    assert (s + t)[..4] == s[..4] && (s + t)[4..8] == s[4..8] && (s + t)[9..] == s[9..] + t;
  }

  lemma {:induction false} RelsLonger(n: nat, s: seq<byte>, t: seq<byte>)
    requires ReadRels(n, s) != Reject
    ensures ReadRels(n, s + t) == Longer(ReadRels(n, s), t)
    decreases n
  {
    hide ReadRel;
    if n > 0 {
      RelLonger(s, t);
      match ReadRel(s)
      case Ok(x, s1) => RelsLonger(n - 1, s1, t);
      case _ =>
    }
  }

  lemma CountLonger(tag: Tag, max: nat, s: seq<byte>, t: seq<byte>)
    requires ReadCount(tag, max, s) != Reject
    ensures ReadCount(tag, max, s + t) == Longer(ReadCount(tag, max, s), t)
  {
    TagLonger(tag, s, t);
    assert (s + t)[4..8] == s[4..8] && (s + t)[8..] == s[8..] + t;
  }

  lemma TablesLonger(s: seq<byte>, t: seq<byte>, entry: u32, cnst: seq<byte>, data: seq<byte>, code: seq<byte>)
    requires ReadTables(s, entry, cnst, data, code) != Reject
    ensures ReadTables(s + t, entry, cnst, data, code) == Longer(ReadTables(s, entry, cnst, data, code), t)
  {
    hide ReadSymTable, ReadRelTable;
    SymTableLonger(s, t);
    if ReadSymTable(s).Ok? {
      var s1 := ReadSymTable(s).rest;
      RelTableLonger(s1, t);
      if ReadRelTable(s1).Ok? { TagLonger(TAG_END, ReadRelTable(s1).rest, t); }
    }
  }

  lemma SymTableLonger(s: seq<byte>, t: seq<byte>)
    requires ReadSymTable(s) != Reject
    ensures ReadSymTable(s + t) == Longer(ReadSymTable(s), t)
  {
    hide ReadCount, ReadSyms;
    CountLonger(TAG_SYMS, MAX_SYMS, s, t);
    SymsLonger(ReadCount(TAG_SYMS, MAX_SYMS, s).v, ReadCount(TAG_SYMS, MAX_SYMS, s).rest, t);
  }

  lemma RelTableLonger(s: seq<byte>, t: seq<byte>)
    requires ReadRelTable(s) != Reject
    ensures ReadRelTable(s + t) == Longer(ReadRelTable(s), t)
  {
    hide ReadCount, ReadRels;
    CountLonger(TAG_RELS, MAX_RELS, s, t);
    RelsLonger(ReadCount(TAG_RELS, MAX_RELS, s).v, ReadCount(TAG_RELS, MAX_RELS, s).rest, t);
  }

  lemma EntryLonger(s: seq<byte>, t: seq<byte>)
    requires ReadEntry(s) != Reject
    ensures ReadEntry(s + t) == Longer(ReadEntry(s), t)
  {
    TagLonger(MAGIC, s, t);
    TagLonger(TAG_ENTR, s[4..], t);
    assert (s + t)[8..12] == s[8..12] && (s + t)[12..] == s[12..] + t;
  }

  lemma ReadLonger(s: seq<byte>, t: seq<byte>)
    requires Read(s) != Reject
    ensures Read(s + t) == Longer(Read(s), t)
  {
    hide ReadEntry, ReadSection, ReadTables;
    EntryLonger(s, t);
    var s1 := ReadEntry(s).rest;
    SectionLonger(TAG_CNST, s1, t);
    var s2 := ReadSection(TAG_CNST, s1).rest;
    SectionLonger(TAG_DATA, s2, t);
    var s3 := ReadSection(TAG_DATA, s2).rest;
    SectionLonger(TAG_CODE, s3, t);
    var s4 := ReadSection(TAG_CODE, s3).rest;
    TablesLonger(s4, t, ReadEntry(s).v, ReadSection(TAG_CNST, s1).v, ReadSection(TAG_DATA, s2).v,
                 ReadSection(TAG_CODE, s3).v);
  }

  /** Every proper prefix of a written file is rejected. */
  lemma TruncatedRejected(p: Prog, k: nat)
    requires Writable(p) && k < |Write(p)|
    ensures Read(Write(p)[..k]) == Reject
  {
    hide Read, Write, Writable;
    var w := Write(p);
    assert w[..k] + w[k..] == w && w + [] == w;
    ReadWrite(p, []);
    if Read(w[..k]) != Reject {
      ReadLonger(w[..k], w[k..]);
    }
  }

  // ----- canonicity ----------------------------------------------------------------------------------

  ghost predicate NulFree(ss: seq<Sym>) {
    forall k :: 0 <= k < |ss| ==> 0 !in ss[k].name
  }

  /** Bytes of the symbols with names as read. */
  function SymsSize(ss: seq<Sym>): nat {
    if ss == [] then 0 else 7 + |ss[0].name| + SymsSize(ss[1..])
  }

  /** Rewriting shortens a name with a NUL in it, and only those. */
  lemma {:induction false} WriteSymsSize(ss: seq<Sym>)
    requires forall k :: 0 <= k < |ss| ==> |ss[k].name| <= NAME_MAX
    ensures |WriteSyms(ss)| <= SymsSize(ss)
    ensures |WriteSyms(ss)| == SymsSize(ss) <==> NulFree(ss)
  {
    hide WriteSym, NulFree;
    if ss == [] {
      NoNuls();
    } else {
      WriteSymsSize(ss[1..]);
      NulFreeCons(ss);
      WriteSymSize(ss[0]);
    }
  }

  lemma NoNuls()
    ensures NulFree([])
  {
  }

  lemma WriteSymSize(x: Sym)
    requires |x.name| <= NAME_MAX
    ensures |WriteSym(x)| <= 7 + |x.name|
    ensures |WriteSym(x)| == 7 + |x.name| <==> 0 !in x.name
  {
    CStrSize(x.name);
  }

  lemma NulFreeCons(ss: seq<Sym>)
    requires ss != []
    ensures NulFree(ss) <==> 0 !in ss[0].name && NulFree(ss[1..])
  {
    assert ss == [ss[0]] + ss[1..];
  }

  lemma {:induction false} CStrSize(n: Name)
    ensures |CStr(n)| == |n| <==> 0 !in n
  {
    if n != [] && n[0] != 0 {
      CStrSize(n[1..]);
      assert n == [n[0]] + n[1..];
    }
  }

  lemma Cut(s: seq<byte>, n: nat)
    requires n <= |s|
    ensures s == s[..n] + s[n..]
  {
  }

  lemma SymCanonical(s: seq<byte>)
    requires ReadSym(s).Ok?
    ensures var x := ReadSym(s).v;
            && |x.name| <= NAME_MAX && |s| == 7 + |x.name| + |ReadSym(s).rest|
            && s == RawSym(x) + ReadSym(s).rest && (0 !in x.name ==> WriteSym(x) == RawSym(x))
  {
    var x, n := ReadSym(s).v, s[6];
    LeFromLe(s[2..6]);
    assert RawSym(x) == s[..2] + s[2..6] + [s[6]] + s[7..7 + n];
    assert s[..7] == s[..2] + s[2..6] + [s[6]];
    assert s == s[..7] + s[7..7 + n] + s[7 + n..];
    assert x.name[..|x.name| % 256] == x.name;
  }

  lemma {:induction false} SymsCanonical(n: nat, s: seq<byte>)
    requires ReadSyms(n, s).Ok?
    ensures var xs := ReadSyms(n, s).v;
            && |xs| == n && |s| == SymsSize(xs) + |ReadSyms(n, s).rest|
            && (forall k :: 0 <= k < n ==> |xs[k].name| <= NAME_MAX)
            && s == RawSyms(xs) + ReadSyms(n, s).rest && (NulFree(xs) ==> WriteSyms(xs) == RawSyms(xs))
    decreases n
  {
    hide ReadSym, WriteSym, RawSym;
    if n > 0 {
      var x, s1 := ReadSym(s).v, ReadSym(s).rest;
      SymCanonical(s);
      SymsCanonical(n - 1, s1);
      var xs, rest := ReadSyms(n, s).v, ReadSyms(n, s).rest;
      assert xs[0] == x && xs[1..] == ReadSyms(n - 1, s1).v;
      NulFreeCons(xs);
      Assoc(RawSym(x), RawSyms(xs[1..]), rest);
    }
  }

  lemma RelCanonical(s: seq<byte>)
    requires ReadRel(s).Ok?
    ensures s == WriteRel(ReadRel(s).v) + ReadRel(s).rest
  {
    LeFromLe(s[..4]);
    LeFromLe(s[4..8]);
    assert s == s[..4] + s[4..8] + [s[8]] + s[9..];
  }

  lemma {:induction false} RelsCanonical(n: nat, s: seq<byte>)
    requires ReadRels(n, s).Ok?
    ensures |ReadRels(n, s).v| == n && s == WriteRels(ReadRels(n, s).v) + ReadRels(n, s).rest
    decreases n
  {
    hide ReadRel, WriteRel;
    if n > 0 {
      var x, s1 := ReadRel(s).v, ReadRel(s).rest;
      RelCanonical(s);
      RelsCanonical(n - 1, s1);
      var xs, rest := ReadRels(n, s).v, ReadRels(n, s).rest;
      assert xs[0] == x && xs[1..] == ReadRels(n - 1, s1).v;
      Assoc(WriteRel(x), WriteRels(xs[1..]), rest);
    }
  }

  lemma SectionCanonical(tag: Tag, s: seq<byte>)
    requires ReadSection(tag, s).Ok?
    ensures s == WriteSection(tag, ReadSection(tag, s).v) + ReadSection(tag, s).rest
    ensures |s| == 8 + |ReadSection(tag, s).v| + |ReadSection(tag, s).rest|
    ensures |ReadSection(tag, s).v| < TWO32
  {
    PowValues();
    var u := s[4..];
    LeFromLe(u[..4]);
    var n := FromLe(u[..4]);
    assert s == tag + u[..4] + u[4..4 + n] + u[4 + n..];
  }

  lemma CountCanonical(tag: Tag, max: nat, s: seq<byte>)
    requires ReadCount(tag, max, s).Ok?
    ensures s == tag + Le(4, ReadCount(tag, max, s).v) + ReadCount(tag, max, s).rest
    ensures ReadCount(tag, max, s).v <= max
  {
    LeFromLe(s[4..8]);
    assert s == s[..4] + s[4..8] + s[8..];
  }

  lemma EntryCanonical(s: seq<byte>)
    requires ReadEntry(s).Ok?
    ensures s == MAGIC + TAG_ENTR + Le(4, ReadEntry(s).v) + ReadEntry(s).rest
  {
    LeFromLe(s[8..12]);
    assert s[4..][..4] == s[4..8];
    assert s == s[..4] + s[4..8] + s[8..12] + s[12..];
  }

  lemma TablesCanonical(s: seq<byte>, entry: u32, cnst: seq<byte>, data: seq<byte>, code: seq<byte>)
    requires ReadTables(s, entry, cnst, data, code).Ok?
    ensures var p, rest := ReadTables(s, entry, cnst, data, code).v, ReadTables(s, entry, cnst, data, code).rest;
            && |p.syms| <= MAX_SYMS && |p.rels| <= MAX_RELS && p.hasEntry
            && (forall k :: 0 <= k < |p.syms| ==> |p.syms[k].name| <= NAME_MAX)
            && p == Prog(cnst, data, code, p.syms, p.rels, entry, true)
            && s == RawTables(p) + rest
  {
    hide ReadCount, ReadSyms, ReadRels, RawSyms, WriteRels, NulFree;
    var p, rest := ReadTables(s, entry, cnst, data, code).v, ReadTables(s, entry, cnst, data, code).rest;
    var n, s0, s1 := ReadCount(TAG_SYMS, MAX_SYMS, s).v, ReadCount(TAG_SYMS, MAX_SYMS, s).rest, ReadSymTable(s).rest;
    CountCanonical(TAG_SYMS, MAX_SYMS, s);
    SymsCanonical(n, s0);
    var m, s2, s3 := ReadCount(TAG_RELS, MAX_RELS, s1).v, ReadCount(TAG_RELS, MAX_RELS, s1).rest, ReadRelTable(s1).rest;
    CountCanonical(TAG_RELS, MAX_RELS, s1);
    RelsCanonical(m, s2);
    Cut(s3, 4);
    assert s3 == TAG_END + rest;
    TablesShape(p, rest);
  }

  /** What is accepted is laid out as what was read. */
  lemma AcceptedIsRaw(s: seq<byte>)
    requires Read(s).Ok?
    ensures Rawable(Read(s).v) && s == RawFile(Read(s).v) + Read(s).rest
  {
    hide ReadEntry, ReadSection, ReadTables, RawTables, WriteSection;
    var p, rest := Read(s).v, Read(s).rest;
    var e, s1 := ReadEntry(s).v, ReadEntry(s).rest;
    var c, s2 := ReadSection(TAG_CNST, s1).v, ReadSection(TAG_CNST, s1).rest;
    var d, s3 := ReadSection(TAG_DATA, s2).v, ReadSection(TAG_DATA, s2).rest;
    var k, s4 := ReadSection(TAG_CODE, s3).v, ReadSection(TAG_CODE, s3).rest;
    EntryCanonical(s);
    SectionCanonical(TAG_CNST, s1);
    SectionCanonical(TAG_DATA, s2);
    SectionCanonical(TAG_CODE, s3);
    TablesCanonical(s4, e, c, d, k);
    RawShape(p, rest);
  }

  /** The reader accepts exactly the files laid out as a program within the limits, and reads that program. */
  lemma ReadIff(s: seq<byte>, p: Prog, t: seq<byte>)
    ensures Read(s) == Ok(p, t) <==> Rawable(p) && s == RawFile(p) + t
  {
    hide Read, Rawable, RawFile;
    if Read(s) == Ok(p, t) { AcceptedIsRaw(s); }
    if Rawable(p) && s == RawFile(p) + t { ReadRaw(p, t); }
  }

  /** An accepted file is the rewriting of what was read, followed by the unread rest, exactly when no name
      read contains a NUL. */
  lemma Canonical(s: seq<byte>)
    requires Read(s).Ok?
    ensures Writable(Read(s).v)
    ensures s == Write(Read(s).v) + Read(s).rest <==> NulFree(Read(s).v.syms)
  {
    hide Read, RawFile, Write, KeptProg, NulFree;
    var p, rest := Read(s).v, Read(s).rest;
    AcceptedIsRaw(s);
    CNames(p);
    WriteIsRaw(p);
    if NulFree(p.syms) {
      NothingCut(p);
    }
    if s == Write(p) + rest {
      assert |Write(p)| == |RawFile(p)|;
      SizesDiffer(p);
    }
  }

  lemma CNames(p: Prog)
    requires forall k :: 0 <= k < |p.syms| ==> |p.syms[k].name| <= NAME_MAX
    ensures forall k :: 0 <= k < |p.syms| ==> |CStr(p.syms[k].name)| <= NAME_MAX
  {
  }

  lemma NothingCut(p: Prog)
    requires NulFree(p.syms) && p.hasEntry
    ensures KeptProg(p) == p
  {
    assert KeptAll(p.syms) == p.syms;
  }

  lemma {:induction false} RawSymsSize(ss: seq<Sym>)
    ensures |RawSyms(ss)| == SymsSize(ss)
  {
    if ss != [] {
      RawSymsSize(ss[1..]);
    }
  }

  lemma SizesDiffer(p: Prog)
    requires forall k :: 0 <= k < |p.syms| ==> |p.syms[k].name| <= NAME_MAX
    requires |Write(p)| == |RawFile(p)|
    ensures NulFree(p.syms)
  {
    hide WriteSyms, RawSyms, WriteRels, WriteSection, NulFree;
    RawSymsSize(p.syms);
    WriteSymsSize(p.syms);
  }
}
