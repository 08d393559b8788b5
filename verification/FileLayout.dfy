/** Where everything lies in a written object file, in bytes. */
module FileLayout {
  import opened Words
  import opened Isa
  import opened Objects
  import opened Format

  /** At offset `at` of the file: a four-letter tag and then a 32-bit number. */
  ghost predicate Tagged(f: seq<byte>, at: nat, tag: seq<byte>, n: nat) {
    at + 8 <= |f| && f[at..at + 4] == tag && FromLe(f[at + 4..at + 8]) == n
  }

  /** A section: tag, size, bytes. */
  ghost predicate SectionAt(f: seq<byte>, at: nat, tag: seq<byte>, d: seq<byte>) {
    Tagged(f, at, tag, |d|) && HasAt(f, at + 8, d)
  }

  /** A symbol: kind, section, offset, length of the name, name up to its first 0. */
  ghost predicate SymbolAt(f: seq<byte>, at: nat, s: Sym) {
    var n := CStr(s.name);
    && at + 7 + |n| <= |f| && f[at] == s.flags && f[at + 1] == s.section
    && FromLe(f[at + 2..at + 6]) == s.offset && f[at + 6] as int == |n| && f[at + 7..at + 7 + |n|] == n
  }

  /** A relocation: site, symbol index, kind. */
  ghost predicate RelocationAt(f: seq<byte>, at: nat, r: Rel) {
    && at + 9 <= |f| && FromLe(f[at..at + 4]) == r.at && FromLe(f[at + 4..at + 8]) == r.sym
    && f[at + 8] == r.kind
  }

  /** Bytes of the first k symbol records. */
  function SymbolBytes(ss: seq<Sym>, k: nat): nat
    requires k <= |ss|
  {
    if k == 0 then 0 else SymbolBytes(ss, k - 1) + 7 + |CStr(ss[k - 1].name)|
  }

  lemma TaggedHas(f: seq<byte>, at: nat, tag: seq<byte>, n: nat)
    requires |tag| == 4 && n < TWO32 && HasAt(f, at, tag + Le(4, n))
    ensures Tagged(f, at, tag, n)
  {
    hide Le, FromLe;
    PowValues();
    FromLeLe(4, n);
    HasAtSplit(f, at, tag, Le(4, n));
  }

  lemma SectionHas(f: seq<byte>, at: nat, tag: Tag, d: seq<byte>)
    requires |d| < TWO32 && HasAt(f, at, WriteSection(tag, d))
    ensures SectionAt(f, at, tag, d)
  {
    hide Le, FromLe;
    HasAtSplit(f, at, tag + Le(4, |d|), d);
    TaggedHas(f, at, tag, |d|);
  }

  lemma SymbolHas(f: seq<byte>, at: nat, s: Sym)
    requires |CStr(s.name)| <= NAME_MAX && HasAt(f, at, WriteSym(s))
    ensures SymbolAt(f, at, s) && |WriteSym(s)| == 7 + |CStr(s.name)|
  {
    hide Le, FromLe, CStr;
    PowValues();
    FromLeLe(4, s.offset);
    var n := CStr(s.name);
    assert n[..|n| % 256] == n;
    assert WriteSym(s) == [s.flags, s.section] + (Le(4, s.offset) + ([|n| % 256] + n));
    HasAtSplit(f, at, [s.flags, s.section], Le(4, s.offset) + ([|n| % 256] + n));
    HasAtSplit(f, at + 2, Le(4, s.offset), [|n| % 256] + n);
    HasAtSplit(f, at + 6, [|n| % 256], n);
    assert f[at..at + 2][0] == f[at] && f[at..at + 2][1] == f[at + 1] && f[at + 6..at + 7][0] == f[at + 6];
  }

  lemma {:induction false} SymbolsHave(f: seq<byte>, at: nat, ss: seq<Sym>, k: nat)
    requires HasAt(f, at, WriteSyms(ss)) && k < |ss|
    requires forall j :: 0 <= j < |ss| ==> |CStr(ss[j].name)| <= NAME_MAX
    ensures SymbolAt(f, at + SymbolBytes(ss, k), ss[k])
    decreases |ss|
  {
    hide WriteSym, SymbolAt, CStr;
    HasAtSplit(f, at, WriteSym(ss[0]), WriteSyms(ss[1..]));
    SymbolHas(f, at, ss[0]);
    if k > 0 {
      SymbolsHave(f, at + |WriteSym(ss[0])|, ss[1..], k - 1);
      SymbolBytesTail(ss, k);
    }
  }

  lemma {:induction false} SymbolBytesTail(ss: seq<Sym>, k: nat)
    requires 0 < k <= |ss|
    ensures SymbolBytes(ss, k) == 7 + |CStr(ss[0].name)| + SymbolBytes(ss[1..], k - 1)
  {
    hide CStr;
    if k > 1 {
      SymbolBytesTail(ss, k - 1);
    } else {
      assert SymbolBytes(ss, 1) == SymbolBytes(ss, 0) + 7 + |CStr(ss[0].name)|;
    }
  }

  lemma {:induction false} SymbolsSize(ss: seq<Sym>)
    requires forall j :: 0 <= j < |ss| ==> |CStr(ss[j].name)| <= NAME_MAX
    ensures |WriteSyms(ss)| == SymbolBytes(ss, |ss|)
  {
    hide CStr, WriteSym;
    if ss != [] {
      SymbolsSize(ss[1..]);
      SymbolHas(WriteSym(ss[0]), 0, ss[0]) by { HasAtSelf(WriteSym(ss[0])); }
      SymbolBytesTail(ss, |ss|);
    }
  }

  lemma RelocationHas(f: seq<byte>, at: nat, r: Rel)
    requires HasAt(f, at, WriteRel(r))
    ensures RelocationAt(f, at, r)
  {
    hide Le, FromLe;
    PowValues();
    FromLeLe(4, r.at);
    FromLeLe(4, r.sym);
    assert WriteRel(r) == Le(4, r.at) + (Le(4, r.sym) + [r.kind]);
    HasAtSplit(f, at, Le(4, r.at), Le(4, r.sym) + [r.kind]);
    HasAtSplit(f, at + 4, Le(4, r.sym), [r.kind]);
    assert f[at + 8..at + 9][0] == f[at + 8];
  }

  lemma {:induction false} RelocationsHave(f: seq<byte>, at: nat, rs: seq<Rel>, k: nat)
    requires HasAt(f, at, WriteRels(rs)) && k < |rs|
    ensures RelocationAt(f, at + 9 * k, rs[k])
    decreases |rs|
  {
    hide WriteRel, RelocationAt;
    HasAtSplit(f, at, WriteRel(rs[0]), WriteRels(rs[1..]));
    RelocationHas(f, at, rs[0]);
    if k > 0 {
      RelocationsHave(f, at + 9, rs[1..], k - 1);
    }
  }

  lemma {:induction false} RelocationsSize(rs: seq<Rel>)
    ensures |WriteRels(rs)| == 9 * |rs|
  {
    hide WriteRel;
    if rs != [] {
      RelocationsSize(rs[1..]);
    }
  }

  /** The parts of a written file. */
  lemma Parts(p: Prog)
    ensures var f, c, d, k := Write(p), |p.cnst|, |p.data|, |p.code|;
            var at := 36 + c + d + k;
            && HasAt(f, 0, MAGIC) && HasAt(f, 4, TAG_ENTR + Le(4, p.entry))
            && HasAt(f, 12, WriteSection(TAG_CNST, p.cnst)) && HasAt(f, 20 + c, WriteSection(TAG_DATA, p.data))
            && HasAt(f, 28 + c + d, WriteSection(TAG_CODE, p.code))
            && HasAt(f, at, TAG_SYMS + Le(4, |p.syms|)) && HasAt(f, at + 8, WriteSyms(p.syms))
            && HasAt(f, at + 8 + |WriteSyms(p.syms)|, TAG_RELS + Le(4, |p.rels|))
            && HasAt(f, at + 16 + |WriteSyms(p.syms)|, WriteRels(p.rels))
            && HasAt(f, at + 16 + |WriteSyms(p.syms)| + |WriteRels(p.rels)|, TAG_END)
            && |f| == at + 20 + |WriteSyms(p.syms)| + |WriteRels(p.rels)|
  {
    hide Write, WriteSection, WriteTables, WriteSyms, WriteRels, HasAt, Le;
    var f := Write(p);
    var e, tables := TAG_ENTR + Le(4, p.entry), WriteTables(p);
    var x, y, z := WriteSection(TAG_CNST, p.cnst), WriteSection(TAG_DATA, p.data), WriteSection(TAG_CODE, p.code);
    Shape(p);
    HasAtSelf(f);
    HasAtSplit(f, 0, MAGIC, e + (x + (y + (z + tables))));
    HasAtSplit(f, 4, e, x + (y + (z + tables)));
    HasAtSplit(f, 12, x, y + (z + tables));
    SectionSize(TAG_CNST, p.cnst);
    SectionSize(TAG_DATA, p.data);
    SectionSize(TAG_CODE, p.code);
    HasAtSplit(f, 12 + |x|, y, z + tables);
    HasAtSplit(f, 12 + |x| + |y|, z, tables);
    TableParts(p, f, 12 + |x| + |y| + |z|);
  }

  lemma Shape(p: Prog)
    ensures Write(p) == MAGIC + (TAG_ENTR + Le(4, p.entry) + (WriteSection(TAG_CNST, p.cnst)
              + (WriteSection(TAG_DATA, p.data) + (WriteSection(TAG_CODE, p.code) + WriteTables(p)))))
  {
    hide WriteSection, WriteTables, Le;
    var x, y, z := WriteSection(TAG_CNST, p.cnst), WriteSection(TAG_DATA, p.data), WriteSection(TAG_CODE, p.code);
    var rest := x + (y + (z + WriteTables(p)));
    Assoc(MAGIC, TAG_ENTR, Le(4, p.entry));
    Assoc(MAGIC, TAG_ENTR + Le(4, p.entry), rest);
  }

  /** The two tables and the end mark, which take up the rest of the file. */
  lemma TableParts(p: Prog, f: seq<byte>, at: nat)
    requires HasAt(f, at, WriteTables(p)) && |f| == at + |WriteTables(p)|
    ensures HasAt(f, at, TAG_SYMS + Le(4, |p.syms|)) && HasAt(f, at + 8, WriteSyms(p.syms))
    ensures HasAt(f, at + 8 + |WriteSyms(p.syms)|, TAG_RELS + Le(4, |p.rels|))
    ensures HasAt(f, at + 16 + |WriteSyms(p.syms)|, WriteRels(p.rels))
    ensures HasAt(f, at + 16 + |WriteSyms(p.syms)| + |WriteRels(p.rels)|, TAG_END)
    ensures |f| == at + 20 + |WriteSyms(p.syms)| + |WriteRels(p.rels)|
  {
    hide WriteSyms, WriteRels, HasAt, Le;
    var a, b := TAG_SYMS + Le(4, |p.syms|), TAG_RELS + Le(4, |p.rels|);
    var u, v := WriteSyms(p.syms), WriteRels(p.rels);
    Assoc(a, u, b + v + TAG_END);
    Assoc(b, v, TAG_END);
    hide WriteTables;
    HasAtSplit(f, at, a, u + (b + (v + TAG_END)));
    HasAtSplit(f, at + 8, u, b + (v + TAG_END));
    HasAtSplit(f, at + 8 + |u|, b, v + TAG_END);
    HasAtSplit(f, at + 16 + |u|, v, TAG_END);
  }

  lemma SectionSize(tag: Tag, d: seq<byte>)
    ensures |WriteSection(tag, d)| == 8 + |d|
  {
  }

  /** A written file, byte by byte: magic, entry record, constants, data, code, symbols, relocations, end mark. */
  lemma WrittenFile(p: Prog)
    requires Writable(p)
    ensures var f, c, d, k := Write(p), |p.cnst|, |p.data|, |p.code|;
            var syms := 36 + c + d + k;
            var rels := syms + 8 + SymbolBytes(p.syms, |p.syms|);
            && |f| == rels + 12 + 9 * |p.rels|
            && f[..4] == [0x64, 0x76, 0x6D, 0x40]
            && Tagged(f, 4, [0x45, 0x4E, 0x54, 0x52], p.entry)
            && SectionAt(f, 12, [0x43, 0x4E, 0x53, 0x54], p.cnst)
            && SectionAt(f, 20 + c, [0x44, 0x41, 0x54, 0x41], p.data)
            && SectionAt(f, 28 + c + d, [0x43, 0x4F, 0x44, 0x45], p.code)
            && Tagged(f, syms, [0x53, 0x59, 0x4D, 0x53], |p.syms|)
            && (forall j :: 0 <= j < |p.syms| ==> SymbolAt(f, syms + 8 + SymbolBytes(p.syms, j), p.syms[j]))
            && Tagged(f, rels, [0x52, 0x45, 0x4C, 0x53], |p.rels|)
            && (forall j :: 0 <= j < |p.rels| ==> RelocationAt(f, rels + 8 + 9 * j, p.rels[j]))
            && f[|f| - 4..] == [0x45, 0x4E, 0x44, 0]
  {
    hide Write, WriteSection, WriteSyms, WriteRels, SymbolAt, RelocationAt, Tagged, SectionAt, CStr, Le, SymbolBytes,
         HasAt;
    var f, c, d, k := Write(p), |p.cnst|, |p.data|, |p.code|;
    Parts(p);
    SymbolsSize(p.syms);
    RelocationsSize(p.rels);
    TaggedHas(f, 4, TAG_ENTR, p.entry);
    SectionHas(f, 12, TAG_CNST, p.cnst);
    SectionHas(f, 20 + c, TAG_DATA, p.data);
    SectionHas(f, 28 + c + d, TAG_CODE, p.code);
    Records(p, f, 36 + c + d + k);
    Ends(f, 0, MAGIC);
    Ends(f, |f| - 4, TAG_END);
    assert f[0..4] == f[..4] && f[|f| - 4..|f|] == f[|f| - 4..];
  }

  lemma Ends(f: seq<byte>, at: nat, tag: Tag)
    requires HasAt(f, at, tag)
    ensures at + 4 <= |f| && f[at..at + 4] == tag
  {
  }

  /** Both tables, with their records. */
  lemma Records(p: Prog, f: seq<byte>, syms: nat)
    requires Writable(p)
    requires HasAt(f, syms, TAG_SYMS + Le(4, |p.syms|)) && HasAt(f, syms + 8, WriteSyms(p.syms))
    requires HasAt(f, syms + 8 + |WriteSyms(p.syms)|, TAG_RELS + Le(4, |p.rels|))
    requires HasAt(f, syms + 16 + |WriteSyms(p.syms)|, WriteRels(p.rels))
    ensures var rels := syms + 8 + SymbolBytes(p.syms, |p.syms|);
            && Tagged(f, syms, [0x53, 0x59, 0x4D, 0x53], |p.syms|)
            && (forall j :: 0 <= j < |p.syms| ==> SymbolAt(f, syms + 8 + SymbolBytes(p.syms, j), p.syms[j]))
            && Tagged(f, rels, [0x52, 0x45, 0x4C, 0x53], |p.rels|)
            && (forall j :: 0 <= j < |p.rels| ==> RelocationAt(f, rels + 8 + 9 * j, p.rels[j]))
  {
    hide WriteSyms, WriteRels, SymbolAt, RelocationAt, Tagged, CStr, Le, SymbolBytes, HasAt;
    SymbolsSize(p.syms);
    var rels := syms + 8 + SymbolBytes(p.syms, |p.syms|);
    TaggedHas(f, syms, TAG_SYMS, |p.syms|);
    TaggedHas(f, rels, TAG_RELS, |p.rels|);
    forall j | 0 <= j < |p.syms| ensures SymbolAt(f, syms + 8 + SymbolBytes(p.syms, j), p.syms[j]) {
      SymbolsHave(f, syms + 8, p.syms, j);
    }
    forall j | 0 <= j < |p.rels| ensures RelocationAt(f, rels + 8 + 9 * j, p.rels[j]) {
      RelocationsHave(f, rels + 8, p.rels, j);
    }
  }
}
