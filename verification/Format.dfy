/** The object file format: writer, reader, round trip, canonicity, and rejection of truncated files. */
module Format {
  import opened Words
  import opened Objects

  type Tag = t: seq<byte> | |t| == 4 witness [0, 0, 0, 0]

  const MAGIC: Tag := [0x64, 0x76, 0x6D, 0x40]     // "dvm@"
  const TAG_ENTR: Tag := [0x45, 0x4E, 0x54, 0x52]
  const TAG_CNST: Tag := [0x43, 0x4E, 0x53, 0x54]
  const TAG_DATA: Tag := [0x44, 0x41, 0x54, 0x41]
  const TAG_CODE: Tag := [0x43, 0x4F, 0x44, 0x45]
  const TAG_SYMS: Tag := [0x53, 0x59, 0x4D, 0x53]
  const TAG_RELS: Tag := [0x52, 0x45, 0x4C, 0x53]
  const TAG_END: Tag := [0x45, 0x4E, 0x44, 0]

  // ----- writer --------------------------------------------------------------------------------------

  /** The bytes strlen sees. */
  function CStr(n: Name): (c: Name)
    ensures |c| <= |n| && 0 !in c && (c == n <==> 0 !in n)
  {
    if n == [] || n[0] == 0 then []
    else
      var c := CStr(n[1..]);
      assert n == [n[0]] + n[1..] && (c == n[1..] ==> [n[0]] + c == n) && ([n[0]] + c == n ==> c == ([n[0]] + c)[1..]);
      [n[0]] + c
  }

  function WriteSection(tag: Tag, d: seq<byte>): seq<byte> {
    tag + Le(4, |d|) + d
  }

  /** The length byte is the string length cast to 8 bits. */
  function WriteSym(s: Sym): seq<byte> {
    var n := CStr(s.name);
    [s.flags, s.section] + Le(4, s.offset) + [|n| % 256] + n[..|n| % 256]
  }

  function WriteSyms(ss: seq<Sym>): seq<byte> {
    if ss == [] then [] else WriteSym(ss[0]) + WriteSyms(ss[1..])
  }

  function WriteRel(r: Rel): (w: seq<byte>)
    ensures |w| == 9
  {
    Le(4, r.at) + Le(4, r.sym) + [r.kind]
  }

  function WriteRels(rs: seq<Rel>): seq<byte> {
    if rs == [] then [] else WriteRel(rs[0]) + WriteRels(rs[1..])
  }

  function WriteTables(p: Prog): seq<byte> {
    TAG_SYMS + Le(4, |p.syms|) + WriteSyms(p.syms) + (TAG_RELS + Le(4, |p.rels|) + WriteRels(p.rels) + TAG_END)
  }

  function Write(p: Prog): seq<byte> {
    MAGIC + TAG_ENTR + Le(4, p.entry)
    + (WriteSection(TAG_CNST, p.cnst)
       + (WriteSection(TAG_DATA, p.data) + (WriteSection(TAG_CODE, p.code) + WriteTables(p))))
  }

  // ----- the same with names in full ---------------------------------------------------------------------

  /** A symbol record with its name as it is, NUL bytes included. */
  function RawSym(s: Sym): seq<byte> {
    [s.flags, s.section] + Le(4, s.offset) + [|s.name| % 256] + s.name
  }

  function RawSyms(ss: seq<Sym>): seq<byte> {
    if ss == [] then [] else RawSym(ss[0]) + RawSyms(ss[1..])
  }

  function RawTables(p: Prog): seq<byte> {
    TAG_SYMS + Le(4, |p.syms|) + RawSyms(p.syms) + (TAG_RELS + Le(4, |p.rels|) + WriteRels(p.rels) + TAG_END)
  }

  function RawFile(p: Prog): seq<byte> {
    MAGIC + TAG_ENTR + Le(4, p.entry)
    + (WriteSection(TAG_CNST, p.cnst)
       + (WriteSection(TAG_DATA, p.data) + (WriteSection(TAG_CODE, p.code) + RawTables(p))))
  }

  // ----- reader ----------------------------------------------------------------------------------------

  /** Outcome of reading from the front of a stream. Overrun: a name longer than its field is stored. */
  datatype Parsed<+T> = Ok(v: T, rest: seq<byte>) | Reject | Overrun

  function ReadSized(s: seq<byte>): (r: Parsed<seq<byte>>)
    ensures !r.Overrun?
  {
    if |s| < 4 then Reject
    else
      var n := FromLe(s[..4]);
      if |s| < 4 + n then Reject else Ok(s[4..4 + n], s[4 + n..])
  }

  function ReadSection(tag: Tag, s: seq<byte>): (r: Parsed<seq<byte>>)
    ensures !r.Overrun?
  {
    if !(tag <= s) then Reject else ReadSized(s[4..])
  }

  function ReadSym(s: seq<byte>): Parsed<Sym> {
    if |s| < 7 then Reject
    else
      var n := s[6];
      if |s| - 7 < (if n > 65 then 65 else n) then Reject
      else if n > NAME_MAX then Overrun
      else PowValues(); Ok(Sym(s[7..7 + n], s[0], s[1], FromLe(s[2..6])), s[7 + n..])
  }

  function ReadSyms(n: nat, s: seq<byte>): Parsed<seq<Sym>>
    decreases n
  {
    if n == 0 then Ok([], s)
    else match ReadSym(s)
      case Reject => Reject
      case Overrun => Overrun
      case Ok(x, s1) =>
        match ReadSyms(n - 1, s1)
        case Reject => Reject
        case Overrun => Overrun
        case Ok(xs, s2) => Ok([x] + xs, s2)
  }

  function ReadRel(s: seq<byte>): (r: Parsed<Rel>)
    ensures !r.Overrun?
  {
    if |s| < 9 then Reject
    else PowValues(); Ok(Rel(FromLe(s[..4]), FromLe(s[4..8]), s[8]), s[9..])
  }

  function ReadRels(n: nat, s: seq<byte>): Parsed<seq<Rel>>
    decreases n
  {
    if n == 0 then Ok([], s)
    else match ReadRel(s)
      case Reject => Reject
      case Overrun => Overrun
      case Ok(x, s1) =>
        match ReadRels(n - 1, s1)
        case Reject => Reject
        case Overrun => Overrun
        case Ok(xs, s2) => Ok([x] + xs, s2)
  }

  /** Tag and entry count, at most `max`. */
  function ReadCount(tag: Tag, max: nat, s: seq<byte>): (r: Parsed<nat>)
    ensures !r.Overrun?
  {
    if !(tag <= s) || |s| < 8 || FromLe(s[4..8]) > max then Reject else Ok(FromLe(s[4..8]), s[8..])
  }

  function ReadEntry(s: seq<byte>): (r: Parsed<u32>)
    ensures !r.Overrun?
  {
    if !(MAGIC <= s) || !(TAG_ENTR <= s[4..]) || |s| < 12 then Reject
    else PowValues(); Ok(FromLe(s[8..12]), s[12..])
  }

  function ReadSymTable(s: seq<byte>): Parsed<seq<Sym>> {
    match ReadCount(TAG_SYMS, MAX_SYMS, s)
    case Ok(n, s1) => ReadSyms(n, s1)
    case _ => Reject
  }

  function ReadRelTable(s: seq<byte>): Parsed<seq<Rel>> {
    match ReadCount(TAG_RELS, MAX_RELS, s)
    case Ok(n, s1) => ReadRels(n, s1)
    case _ => Reject
  }

  function ReadEnd(s: seq<byte>): Parsed<bool> {
    if TAG_END <= s then Ok(true, s[4..]) else Reject
  }

  function ReadTables(s: seq<byte>, entry: u32, cnst: seq<byte>, data: seq<byte>, code: seq<byte>): Parsed<Prog> {
    match ReadSymTable(s)
    case Reject => Reject
    case Overrun => Overrun
    case Ok(syms, s1) =>
      match ReadRelTable(s1)
      case Reject => Reject
      case Overrun => Overrun
      case Ok(rels, s2) =>
        match ReadEnd(s2)
        case Ok(_, s3) => Ok(Prog(cnst, data, code, syms, rels, entry, true), s3)
        case _ => Reject
  }

  function Read(s: seq<byte>): Parsed<Prog> {
    match ReadEntry(s)
    case Reject => Reject
    case Overrun => Overrun
    case Ok(entry, s1) =>
      match ReadSection(TAG_CNST, s1)
      case Reject => Reject
      case Overrun => Overrun
      case Ok(cnst, s2) =>
        match ReadSection(TAG_DATA, s2)
        case Reject => Reject
        case Overrun => Overrun
        case Ok(data, s3) =>
          match ReadSection(TAG_CODE, s3)
          case Reject => Reject
          case Overrun => Overrun
          case Ok(code, s4) => ReadTables(s4, entry, cnst, data, code)
  }

  // ----- round trip -------------------------------------------------------------------------------------

  /** What survives a trip through a file: names up to their first NUL; an entry point is always present. */
  function Kept(s: Sym): Sym { s.(name := CStr(s.name)) }

  function KeptAll(ss: seq<Sym>): (r: seq<Sym>)
    ensures |r| == |ss| && forall k :: 0 <= k < |ss| ==> r[k] == Kept(ss[k])
  {
    if ss == [] then [] else [Kept(ss[0])] + KeptAll(ss[1..])
  }

  function KeptProg(p: Prog): Prog { p.(syms := KeptAll(p.syms), hasEntry := true) }

  ghost predicate Writable(p: Prog) {
    && |p.cnst| < TWO32 && |p.data| < TWO32 && |p.code| < TWO32
    && |p.syms| <= MAX_SYMS && |p.rels| <= MAX_RELS
    && forall k :: 0 <= k < |p.syms| ==> |CStr(p.syms[k].name)| <= NAME_MAX
  }

  lemma Cat(a: seq<byte>, b: seq<byte>)
    ensures (a + b)[..|a|] == a && (a + b)[|a|..] == b && a <= a + b
  {
  }

  lemma SizedOfBytes(n: nat, d: seq<byte>, t: seq<byte>)
    requires |d| == n < TWO32
    ensures ReadSized(Le(4, n) + (d + t)) == Ok(d, t)
  {
    PowValues();
    FromLeLe(4, n);
    var s := Le(4, n) + (d + t);
    Cat(Le(4, n), d + t);
    Cat(d, t);
    assert s[4..4 + n] == s[4..][..n] && s[4 + n..] == s[4..][n..];
  }

  lemma SectionBack(tag: Tag, d: seq<byte>, t: seq<byte>)
    requires |d| < TWO32
    ensures ReadSection(tag, WriteSection(tag, d) + t) == Ok(d, t)
  {
    hide ReadSized;
    SizedOfBytes(|d|, d, t);
    var s := WriteSection(tag, d) + t;
    assert s == tag + (Le(4, |d|) + (d + t));
    Cat(tag, Le(4, |d|) + (d + t));
  }

  /** What a file can hold as it is. */
  ghost predicate Rawable(p: Prog) {
    && |p.cnst| < TWO32 && |p.data| < TWO32 && |p.code| < TWO32
    && |p.syms| <= MAX_SYMS && |p.rels| <= MAX_RELS && p.hasEntry
    && forall k :: 0 <= k < |p.syms| ==> |p.syms[k].name| <= NAME_MAX
  }

  lemma SymBack(x: Sym, t: seq<byte>)
    requires |x.name| <= NAME_MAX
    ensures ReadSym(RawSym(x) + t) == Ok(x, t)
  {
    PowValues();
    FromLeLe(4, x.offset);
    var n := x.name;
    var s := RawSym(x) + t;
    assert s == [x.flags, x.section] + Le(4, x.offset) + [|n|] + n + t;
    assert s[2..6] == Le(4, x.offset) && s[6] == |n| && s[7..7 + |n|] == n && s[7 + |n|..] == t;
  }

  lemma {:induction false} SymsBack(xs: seq<Sym>, t: seq<byte>)
    requires forall k :: 0 <= k < |xs| ==> |xs[k].name| <= NAME_MAX
    ensures ReadSyms(|xs|, RawSyms(xs) + t) == Ok(xs, t)
  {
    hide ReadSym, RawSym;
    if xs == [] {
      assert RawSyms(xs) + t == t;
    } else {
      var rest := RawSyms(xs[1..]) + t;
      SymBack(xs[0], rest);
      SymsBack(xs[1..], t);
      Assoc(RawSym(xs[0]), RawSyms(xs[1..]), t);
      assert [xs[0]] + xs[1..] == xs;
    }
  }

  lemma RelBack(x: Rel, t: seq<byte>)
    ensures ReadRel(WriteRel(x) + t) == Ok(x, t)
  {
    PowValues();
    FromLeLe(4, x.at);
    FromLeLe(4, x.sym);
    var s := WriteRel(x) + t;
    assert s[..4] == Le(4, x.at) && s[4..8] == Le(4, x.sym) && s[9..] == t;
  }

  lemma {:induction false} RelsBack(xs: seq<Rel>, t: seq<byte>)
    ensures ReadRels(|xs|, WriteRels(xs) + t) == Ok(xs, t)
  {
    hide ReadRel, WriteRel;
    if xs == [] {
      assert WriteRels(xs) + t == t;
    } else {
      var rest := WriteRels(xs[1..]) + t;
      RelBack(xs[0], rest);
      RelsBack(xs[1..], t);
      Assoc(WriteRel(xs[0]), WriteRels(xs[1..]), t);
      assert [xs[0]] + xs[1..] == xs;
    }
  }

  lemma CountBack(tag: Tag, max: nat, n: nat, t: seq<byte>)
    requires n <= max < TWO32
    ensures ReadCount(tag, max, tag + Le(4, n) + t) == Ok(n, t)
  {
    PowValues();
    FromLeLe(4, n);
    var s := tag + Le(4, n) + t;
    assert s[4..8] == Le(4, n) && s[8..] == t && tag <= s;
  }

  lemma RelTableBack(xs: seq<Rel>, t: seq<byte>)
    requires |xs| <= MAX_RELS
    ensures ReadRelTable(TAG_RELS + Le(4, |xs|) + (WriteRels(xs) + t)) == Ok(xs, t)
  {
    hide ReadCount, ReadRels;
    CountBack(TAG_RELS, MAX_RELS, |xs|, WriteRels(xs) + t);
    RelsBack(xs, t);
  }

  lemma SymTableBack(xs: seq<Sym>, t: seq<byte>)
    requires |xs| <= MAX_SYMS && forall k :: 0 <= k < |xs| ==> |xs[k].name| <= NAME_MAX
    ensures ReadSymTable(TAG_SYMS + Le(4, |xs|) + (RawSyms(xs) + t)) == Ok(xs, t)
  {
    hide ReadCount, ReadSyms;
    CountBack(TAG_SYMS, MAX_SYMS, |xs|, RawSyms(xs) + t);
    SymsBack(xs, t);
  }

  lemma TablesBack(p: Prog, t: seq<byte>)
    requires Rawable(p)
    ensures ReadTables(RawTables(p) + t, p.entry, p.cnst, p.data, p.code) == Ok(p, t)
  {
    hide ReadSymTable, ReadRelTable;
    var relPart := WriteRels(p.rels) + (TAG_END + t);
    RelTableBack(p.rels, TAG_END + t);
    SymTableBack(p.syms, TAG_RELS + Le(4, |p.rels|) + relPart);
    Cat(TAG_END, t);
    TablesShape(p, t);
  }

  lemma TablesShape(p: Prog, t: seq<byte>)
    ensures RawTables(p) + t ==
              TAG_SYMS + Le(4, |p.syms|) + (RawSyms(p.syms)
                + (TAG_RELS + Le(4, |p.rels|) + (WriteRels(p.rels) + (TAG_END + t))))
  {
    hide RawSyms, WriteRels, Le;
    var a, b := TAG_SYMS + Le(4, |p.syms|), TAG_RELS + Le(4, |p.rels|);
    var x, y := RawSyms(p.syms), WriteRels(p.rels);
    Assoc(b + y, TAG_END, t);
    Assoc(b, y, TAG_END + t);
    Assoc(a + x, b + y + TAG_END, t);
    Assoc(a, x, b + (y + (TAG_END + t)));
  }

  /** A file laid out as a program is read as that program, and the stream stands just behind it. */
  lemma ReadRaw(p: Prog, t: seq<byte>)
    requires Rawable(p)
    ensures Read(RawFile(p) + t) == Ok(p, t)
  {
    hide ReadEntry, ReadSection, ReadTables, WriteSection, RawTables;
    var w3 := RawTables(p) + t;
    var w2 := WriteSection(TAG_CODE, p.code) + w3;
    var w1 := WriteSection(TAG_DATA, p.data) + w2;
    var w0 := WriteSection(TAG_CNST, p.cnst) + w1;
    RawShape(p, t);
    EntryBack(p.entry, w0);
    SectionBack(TAG_CNST, p.cnst, w1);
    SectionBack(TAG_DATA, p.data, w2);
    SectionBack(TAG_CODE, p.code, w3);
    TablesBack(p, t);
  }

  lemma RawShape(p: Prog, t: seq<byte>)
    ensures RawFile(p) + t == MAGIC + TAG_ENTR + Le(4, p.entry)
              + (WriteSection(TAG_CNST, p.cnst)
                 + (WriteSection(TAG_DATA, p.data) + (WriteSection(TAG_CODE, p.code) + (RawTables(p) + t))))
  {
    hide WriteSection, RawTables, Le;
    var h := MAGIC + TAG_ENTR + Le(4, p.entry);
    var a, b, c := WriteSection(TAG_CNST, p.cnst), WriteSection(TAG_DATA, p.data), WriteSection(TAG_CODE, p.code);
    var w := RawTables(p);
    Assoc(h, a + (b + (c + w)), t);
    Assoc(a, b + (c + w), t);
    Assoc(b, c + w, t);
    Assoc(c, w, t);
  }

  /** Writing lays out the program with its names cut. */
  lemma {:induction false} SymsKept(ss: seq<Sym>)
    requires forall k :: 0 <= k < |ss| ==> |CStr(ss[k].name)| <= NAME_MAX
    ensures WriteSyms(ss) == RawSyms(KeptAll(ss))
  {
    hide CStr;
    if ss != [] {
      SymsKept(ss[1..]);
      var n := CStr(ss[0].name);
      assert n[..|n| % 256] == n;
      assert KeptAll(ss)[1..] == KeptAll(ss[1..]);
    }
  }

  lemma WriteIsRaw(p: Prog)
    requires Writable(p)
    ensures Write(p) == RawFile(KeptProg(p)) && Rawable(KeptProg(p))
  {
    hide WriteSyms, RawSyms, WriteRels, WriteSection;
    SymsKept(p.syms);
  }

  /** Reading what was written returns the program and leaves the stream just after it. */
  lemma ReadWrite(p: Prog, t: seq<byte>)
    requires Writable(p)
    ensures Read(Write(p) + t) == Ok(KeptProg(p), t)
  {
    hide Read, Write, RawFile, KeptProg;
    WriteIsRaw(p);
    ReadRaw(KeptProg(p), t);
  }

  lemma EntryBack(e: u32, t: seq<byte>)
    ensures ReadEntry(MAGIC + TAG_ENTR + Le(4, e) + t) == Ok(e, t)
  {
    PowValues();
    FromLeLe(4, e);
    var s := MAGIC + TAG_ENTR + Le(4, e) + t;
    assert s[..4] == MAGIC && s[4..][..4] == TAG_ENTR && s[8..12] == Le(4, e) && s[12..] == t;
  }
}
