/** From source lines to running code: assembler, linker, loader and interpreter together. */
module Toolchain {
  import opened Words
  import opened Isa
  import opened Objects
  import opened Asm
  import opened Labels
  import opened TwoPass
  import opened CodeLabels
  import Relocs
  import Linker
  import Loader
  import LinkNames
  import LinkLoad
  import SymIndices
  import Memory
  import Vm
  import ControlFlow

  // ----- which bytes of an assembled text a relocation overwrites ---------------------------------------

  /** Byte x of line k's instruction is not overwritten unless a relocated operand of that line covers it. */
  lemma ClearByte(lines: seq<Line>, k: nat, x: nat)
    requires Assemble(lines).Ok? && k < |lines| && lines[k].Ins?
    requires Relocs.TextAt(lines, k) <= x < Relocs.TextAt(lines, k) + Size(lines[k].src)
    requires forall s :: s in Relocs.SitesOf(lines[k].src, Relocs.TextAt(lines, k)) && Relocs.Relocated(lines, k, s) ==>
               !(s.at <= x < s.at + RelWidth(s.kind))
    ensures LinkLoad.Clear(Assemble(lines).v.rels, x)
  {
    var rels, sites := Assemble(lines).v.rels, Relocs.RelocSites(lines, |lines|);
    Relocs.AssembleRelocs(lines);
    Relocs.TextStep(lines, k);
    hide Assemble, Relocs.Relocated, Relocs.TextAt, Relocs.SitesOf, Size, Relocs.RelocSites;
    forall j | 0 <= j < |rels| ensures !Loader.Covers(rels[j], x) {
      if Loader.Covers(rels[j], x) {
        var s := sites[j];
        Relocs.SiteMember(lines, |lines|, s);
        var k' :| 0 <= k' < |lines| && Relocs.SiteOf(lines, k', s);
        SameLine(lines, k, k', s, x);
      }
    }
  }

  lemma SameLine(lines: seq<Line>, k: nat, k': nat, s: Relocs.Site, x: nat)
    requires DoLines(Init(), lines).Ok? && k < |lines| && k' < |lines| && lines[k].Ins? && lines[k'].Ins?
    requires s in Relocs.SitesOf(lines[k'].src, Relocs.TextAt(lines, k'))
    requires s.at <= x < s.at + RelWidth(s.kind)
    requires Relocs.TextAt(lines, k) <= x < Relocs.TextAt(lines, k) + Size(lines[k].src)
    ensures k == k'
  {
    Relocs.SitesInInstruction(lines[k'].src, Relocs.TextAt(lines, k'));
    Relocs.TextStep(lines, k);
    Relocs.TextStep(lines, k');
    hide Relocs.TextAt, Size, Relocs.SitesOf;
    if k < k' { Relocs.TextGrows(lines, k + 1, k'); }
    else if k' < k { Relocs.TextGrows(lines, k' + 1, k); }
  }

  // ----- where an instruction of the program comes from ------------------------------------------------------

  lemma {:induction false} ProgramSnoc(lines: seq<Line>, line: Line, env: Env)
    ensures Program(lines + [line], env) == Program(lines, env) + if line.Ins? then [Lower(line.src, env)] else []
  {
    hide Lower;
    if lines == [] {
      assert [line][1..] == [] && [] + [line] == [line];
    } else {
      assert (lines + [line])[0] == lines[0] && (lines + [line])[1..] == lines[1..] + [line];
      ProgramSnoc(lines[1..], line, env);
      var head := if lines[0].Ins? then [Lower(lines[0].src, env)] else [];
      var tail := if line.Ins? then [Lower(line.src, env)] else [];
      assert head + (Program(lines[1..], env) + tail) == (head + Program(lines[1..], env)) + tail;
    }
  }

  lemma {:induction false} TextIsLength(lines: seq<Line>, k: nat, env: Env)
    requires DoLines(Init(), lines).Ok? && k <= |lines|
    ensures |EncodeAll(Program(lines[..k], env))| == Relocs.TextAt(lines, k)
    decreases k
  {
    hide Lower, Size, Encode;
    if k == 0 {
      assert lines[..0] == [];
    } else {
      TextIsLength(lines, k - 1, env);
      Relocs.TextStep(lines, k - 1);
      assert lines[..k] == lines[..k - 1] + [lines[k - 1]];
      ProgramSnoc(lines[..k - 1], lines[k - 1], env);
      hide Relocs.TextAt;
      if lines[k - 1].Ins? {
        LowerWidth(lines[k - 1].src, env);
        EncodeAllAppend(Program(lines[..k - 1], env), [Lower(lines[k - 1].src, env)]);
        EncodeOne(Lower(lines[k - 1].src, env));
      } else {
        assert Program(lines[..k - 1], env) + [] == Program(lines[..k - 1], env);
      }
    }
  }

  /** Source line of instruction j, and how many instructions come before it. */
  lemma {:induction false} LineOf(lines: seq<Line>, env: Env, j: nat) returns (k: nat)
    requires j < |Program(lines, env)|
    ensures k < |lines| && lines[k].Ins? && Program(lines, env)[j] == Lower(lines[k].src, env)
    ensures Program(lines[..k], env) == Program(lines, env)[..j]
  {
    hide Lower;
    if lines[0].Ins? && j == 0 {
      k := 0;
      assert lines[..0] == [];
    } else {
      k := LineOf(lines[1..], env, if lines[0].Ins? then j - 1 else j);
      assert lines[..k + 1][1..] == lines[1..][..k];
      k := k + 1;
    }
  }

  /** Instruction j starts where its source line does. */
  lemma InstructionAt(lines: seq<Line>, env: Env, j: nat) returns (k: nat)
    requires DoLines(Init(), lines).Ok? && j < |Program(lines, env)|
    ensures k < |lines| && lines[k].Ins? && Program(lines, env)[j] == Lower(lines[k].src, env)
    ensures Relocs.TextAt(lines, k) == Boundary(Program(lines, env), j)
    ensures Size(lines[k].src) == Width(ShapeOf(Program(lines, env)[j].op))
  {
    hide DoLines, Program, EncodeAll, Boundary, Lower, Size, Relocs.TextAt;
    k := LineOf(lines, env, j);
    TextIsLength(lines, k, env);
    BoundaryPrefix(Program(lines, env), j);
    LowerWidth(lines[k].src, env);
  }

  lemma {:induction false} ProgramPrefix(lines: seq<Line>, env: Env, k: nat)
    requires k < |lines| && lines[k].Ins?
    ensures |Program(lines[..k], env)| < |Program(lines, env)|
    ensures Program(lines, env)[|Program(lines[..k], env)|] == Lower(lines[k].src, env)
    ensures Program(lines, env)[..|Program(lines[..k], env)|] == Program(lines[..k], env)
  {
    hide Lower;
    if k == 0 {
      assert lines[..0] == [];
    } else {
      ProgramPrefix(lines[1..], env, k - 1);
      assert lines[..k][1..] == lines[1..][..k - 1];
    }
  }

  /** Index of the instruction of line k. */
  lemma InstructionOf(lines: seq<Line>, env: Env, k: nat) returns (j: nat)
    requires DoLines(Init(), lines).Ok? && k < |lines| && lines[k].Ins?
    ensures j < |Program(lines, env)| && Program(lines, env)[j] == Lower(lines[k].src, env)
    ensures Boundary(Program(lines, env), j) == Relocs.TextAt(lines, k)
  {
    hide DoLines, Program, EncodeAll, Boundary, Lower, Relocs.TextAt;
    ProgramPrefix(lines, env, k);
    j := |Program(lines[..k], env)|;
    TextIsLength(lines, k, env);
    BoundaryPrefix(Program(lines, env), j);
  }

  /** A code operand in the text is its label's layout offset. */
  lemma CodeOperandText(lines: seq<Line>, k: nat, s: Relocs.Site)
    requires Assemble(lines).Ok? && k < |lines| && lines[k].Ins? && s.kind == REL_CODE
    requires s in Relocs.SitesOf(lines[k].src, Relocs.TextAt(lines, k))
    ensures LabelOffset(lines, s.name) < TWO32
    ensures HasAt(Assemble(lines).v.text, s.at, Le(4, LabelOffset(lines, s.name)))
  {
    assert DoLines(Init(), lines).Ok?;
    hide Assemble, LabelOffset, Relocs.TextAt, Relocs.Relocated, Program, EncodeAll, DoLines;
    var env := LayoutEnv(lines);
    AssembleRefines(lines);
    var j := InstructionOf(lines, env, k);
    EncodedAt(Program(lines, env), j);
    OperandField(lines[k].src, env, Assemble(lines).v.text, Relocs.TextAt(lines, k), s);
  }

  lemma OperandField(src: Src, env: Env, text: seq<byte>, at: nat, s: Relocs.Site)
    requires HasAt(text, at, Encode(Lower(src, env))) && WellFormed(Lower(src, env))
    requires s in Relocs.SitesOf(src, at) && s.kind == REL_CODE
    ensures env(s.name) < TWO32 && HasAt(text, s.at, Le(4, env(s.name)))
  {
    var i := Lower(src, env);
    HasAtSplit(text, at, [i.op], OperandBytes(ShapeOf(i.op), i));
    match src
    case CallSrc(ok, err) => HasAtSplit(text, at + 1, Le(4, env(ok)), Le(4, env(err)));
    case CallrSrc(d, err) => HasAtSplit(text, at + 1, [RegByte(i.d, i.s)], Le(4, env(err)));
    case _ =>
  }

  // ----- the loaded program -------------------------------------------------------------------------------------

  /** The same instructions, 8-byte immediates as found in the code from offset `at` on. */
  function Refilled(ins: seq<Instr>, code: seq<byte>, at: nat): (r: seq<Instr>)
    requires at + |EncodeAll(ins)| <= |code|
    ensures |r| == |ins|
  {
    if ins == [] then []
    else [Refill(ins[0], code, at)] + Refilled(ins[1..], code, at + Width(ShapeOf(ins[0].op)))
  }

  function Refill(i: Instr, code: seq<byte>, at: nat): (r: Instr)
    requires at + Width(ShapeOf(i.op)) <= |code|
    ensures r.op == i.op
  {
    if ShapeOf(i.op) == RegImm64 then i.(x := Field(code, at + 2, 8)) else i
  }

  lemma {:induction false} RefilledAt(ins: seq<Instr>, code: seq<byte>, at: nat, j: nat)
    requires at + |EncodeAll(ins)| <= |code| && j < |ins|
    ensures at + Boundary(ins, j) + Width(ShapeOf(ins[j].op)) <= |code|
    ensures Refilled(ins, code, at)[j] == Refill(ins[j], code, at + Boundary(ins, j))
    ensures Boundary(Refilled(ins, code, at), j) == Boundary(ins, j)
  {
    hide Refill, Encode, Width;
    if j > 0 {
      RefilledAt(ins[1..], code, at + Width(ShapeOf(ins[0].op)), j - 1);
      assert Refilled(ins, code, at)[1..] == Refilled(ins[1..], code, at + Width(ShapeOf(ins[0].op)));
    }
  }

  /** Opcode and operands other than an 8-byte immediate are in the code. */
  ghost predicate SameButImmediate(i: Instr, code: seq<byte>, at: nat) {
    if ShapeOf(i.op) == RegImm64 then HasAt(code, at, [i.op, RegByte(i.d, i.s)]) else HasAt(code, at, Encode(i))
  }

  lemma RefillEncoded(i: Instr, code: seq<byte>, at: nat)
    requires SameButImmediate(i, code, at) && at + Width(ShapeOf(i.op)) <= |code|
    ensures HasAt(code, at, Encode(Refill(i, code, at)))
  {
    if ShapeOf(i.op) == RegImm64 {
      var w := code[at + 2..at + 10];
      LeFromLe(w);
      HasAtSplit(code, at, [i.op, RegByte(i.d, i.s)], w);
      assert Encode(Refill(i, code, at)) == [i.op, RegByte(i.d, i.s)] + w;
    }
  }

  lemma {:induction false} RefilledEncodes(ins: seq<Instr>, code: seq<byte>, at: nat)
    requires at + |EncodeAll(ins)| == |code|
    requires forall j :: 0 <= j < |ins| ==> SameButImmediate(ins[j], code, at + Boundary(ins, j))
    ensures EncodeAll(Refilled(ins, code, at)) == code[at..]
    decreases |ins|
  {
    hide Encode, Width, SameButImmediate, Refill, HasAt;
    if ins != [] {
      var w := Width(ShapeOf(ins[0].op));
      assert Boundary(ins, 0) == 0;
      RefillEncoded(ins[0], code, at);
      forall j | 0 <= j < |ins[1..]| ensures SameButImmediate(ins[1..][j], code, at + w + Boundary(ins[1..], j)) {
        assert ins[j + 1] == ins[1..][j];
      }
      RefilledEncodes(ins[1..], code, at + w);
      HasAtSlice(code, at, Encode(Refill(ins[0], code, at)));
    }
  }

  lemma HasAtSlice(code: seq<byte>, at: nat, w: seq<byte>)
    requires HasAt(code, at, w)
    ensures w + code[at + |w|..] == code[at..]
  {
    assert code[at..] == code[at..at + |w|] + code[at + |w|..];
  }

  lemma {:induction false} RefilledStructured(ins: seq<Instr>, code: seq<byte>)
    requires |EncodeAll(ins)| <= |code| && ControlFlow.Structured(ins)
    ensures ControlFlow.Structured(Refilled(ins, code, 0))
  {
    hide Encode, Width, EncodeAll;
    var r := Refilled(ins, code, 0);
    forall j | 0 <= j < |r|
      ensures WellFormed(r[j]) && r[j].op == ins[j].op
      ensures ShapeOf(r[j].op) in {Code32, Code32x2} ==> r[j] == ins[j]
    {
      RefilledAt(ins, code, 0, j);
      PowValues();
      assert WellFormed(ins[j]);
    }
    forall b | ControlFlow.IsBoundary(ins, b) ensures ControlFlow.IsBoundary(r, b) {
      var k :| 0 <= k <= |ins| && Boundary(ins, k) == b;
      SameBoundary(ins, code, k);
      assert Boundary(r, k) == b;
    }
  }

  lemma SameBoundary(ins: seq<Instr>, code: seq<byte>, k: nat)
    requires |EncodeAll(ins)| <= |code| && k <= |ins|
    ensures Boundary(Refilled(ins, code, 0), k) == Boundary(ins, k)
  {
    hide Refill, Encode, EncodeAll, Width, HasAt;
    var r := Refilled(ins, code, 0);
    if k == 0 {
      assert Boundary(r, 0) == 0 && Boundary(ins, 0) == 0;
    } else {
      RefilledAt(ins, code, 0, k - 1);
      EncodedAt(ins, k - 1);
      EncodedAt(r, k - 1);
    }
  }

  lemma LabelIsImmediate(src: Src, env: Env)
    ensures src.MovLabel? ==> ShapeOf(Lower(src, env).op) == RegImm64
    ensures ShapeOf(Lower(src, env).op) == RegImm64 ==> Width(ShapeOf(Lower(src, env).op)) >= 2
  {
  }

  /** What assembling, linking alone and loading at these addresses leaves in memory. */
  ghost predicate Loads(lines: seq<Line>, entry: Option<Name>, a: Loader.Addresses, out: Loader.Loaded) {
    && Assemble(lines).Ok?
    && var l := Linker.Link([ToProg(Assemble(lines).v)], entry);
       l.Some? && Loader.Load(l.value, a) == Some(out)
  }

  /** Every relocated code operand names its label: no global that is declared and never defined comes before
      that label. */
  ghost predicate CodeAligned(st: Asm.State) {
    forall j, i :: 0 <= j < |st.rels| && st.rels[j].kind == REL_CODE && 0 <= i < st.rels[j].sym && i < |st.labels| ==>
      !Skipped(st.labels[i])
  }

  lemma Alone(lines: seq<Line>)
    requires Assemble(lines).Ok?
    ensures LinkLoad.Compact([ToProg(Assemble(lines).v)])
    ensures Linker.Code([ToProg(Assemble(lines).v)]) == Assemble(lines).v.text
  {
    hide SitesOrdered, DoLines, ToProg;
    Relocs.AssembleSitesOrdered(lines);
    TextFits(lines);
    AloneCompact(ToProg(Assemble(lines).v), Assemble(lines).v);
  }

  lemma TextFits(lines: seq<Line>)
    requires Assemble(lines).Ok?
    ensures |Assemble(lines).v.text| <= BUF_MAX
  {
    RunKeeps(Init(), lines, []);
    hide DoLines;
  }

  lemma AloneCompact(p: Prog, st: Asm.State)
    requires p == ToProg(st) && SitesOrdered(st.rels, |st.text|) && |st.text| <= BUF_MAX
    ensures LinkLoad.Compact([p]) && Linker.Code([p]) == st.text
  {
    Loader.OrderedIsDisjoint(st.rels, |st.text|);
    hide SitesOrdered, Loader.Disjoint;
    assert [p][1..] == [] && p.code + [] == p.code;
    assert Linker.Code([p]) == p.code + Linker.Code([]);
    assert forall o :: o in [p] ==> o == p;
  }

  // ----- an object linked alone --------------------------------------------------------------------------

  /** Symbol names of an assembled object are distinct. */
  lemma ObjectNamesDistinct(lines: seq<Line>, x: nat, y: nat)
    requires Assemble(lines).Ok?
    requires var syms := ToProg(Assemble(lines).v).syms; x < |syms| && y < |syms| && syms[x].name == syms[y].name
    ensures x == y
  {
    SymIndices.TableDistinct(lines);
    hide Assemble, SymsOf, Distinct;
    if x < y { SymIndices.SymsDistinct(Assemble(lines).v.labels, x, y); }
    if y < x { SymIndices.SymsDistinct(Assemble(lines).v.labels, y, x); }
  }

  lemma {:induction false} BoundMember(defs: seq<Sym>, n: Name) returns (q: nat)
    requires LinkNames.Bound(defs, n).Some?
    ensures q < |defs| && defs[q].name == n
    decreases |defs|
  {
    if defs[0].name == n {
      q := 0;
    } else {
      q := BoundMember(defs[1..], n);
      q := q + 1;
    }
  }

  lemma {:induction false} DefsOfMember(b: Linker.Bases, syms: seq<Sym>, q: nat) returns (k: nat)
    requires q < |LinkNames.DefsOf(b, syms)|
    ensures k < |syms| && syms[k].flags != SYM_EXTERN && LinkNames.DefsOf(b, syms)[q] == Linker.Adjust(syms[k], b)
    decreases |syms|
  {
    if syms[0].flags != SYM_EXTERN && q == 0 {
      k := 0;
    } else {
      k := DefsOfMember(b, syms[1..], if syms[0].flags == SYM_EXTERN then q else q - 1);
      k := k + 1;
    }
  }

  /** An object with distinct symbol names that links alone imports nothing. */
  lemma NoImports(p: Prog, entry: Option<Name>, k: nat)
    requires Linker.Link([p], entry).Some? && k < |p.syms|
    requires forall x, y :: 0 <= x < |p.syms| && 0 <= y < |p.syms| && p.syms[x].name == p.syms[y].name ==> x == y
    ensures p.syms[k].flags != SYM_EXTERN
  {
    hide Linker.Link, LinkNames.Bound, LinkNames.Resolved, LinkNames.Exports, LinkNames.DefsOf;
    var n := p.syms[k].name;
    if p.syms[k].flags == SYM_EXTERN {
      assert LinkNames.ImportsAt([p], 0, k, n);
      LinkNames.ExternBinding([p], entry, 0, k, n);
      OneObjectDefs(p);
      var q := BoundMember(LinkNames.DefsOf(Linker.ZERO, p.syms), n);
      var m := DefsOfMember(Linker.ZERO, p.syms, q);
    }
  }

  lemma OneObjectDefs(p: Prog)
    ensures LinkNames.Defs(Linker.ZERO, [p]) == LinkNames.DefsOf(Linker.ZERO, p.syms)
  {
    hide LinkNames.DefsOf;
    assert [p][1..] == [];
    assert LinkNames.Defs(Linker.After(Linker.ZERO, p), []) == [];
  }

  /** Kinds and sections of the symbols of an assembled object. */
  lemma ObjectSymbol(lines: seq<Line>, x: nat)
    requires Assemble(lines).Ok? && x < |ToProg(Assemble(lines).v).syms|
    ensures var s := ToProg(Assemble(lines).v).syms[x];
            && s.flags in {SYM_LOCAL, SYM_GLOBAL, SYM_EXTERN}
            && (s.flags != SYM_EXTERN ==> s.section in {SEC_CNST, SEC_DATA, SEC_CODE})
  {
    hide DoLines, SymsOf;
    var ls := Assemble(lines).v.labels;
    RunKeeps(Init(), lines, []);
    var m := SymIndices.Origin(ls, x);
    assert ls[m] in ls;
  }

  lemma AloneHygienic(lines: seq<Line>, entry: Option<Name>)
    requires Assemble(lines).Ok? && Linker.Link([ToProg(Assemble(lines).v)], entry).Some?
    ensures LinkLoad.AllHygienic([ToProg(Assemble(lines).v)], [ToProg(Assemble(lines).v)])
  {
    hide Assemble, ToProg, Linker.Link;
    var p := ToProg(Assemble(lines).v);
    forall x, y | 0 <= x < |p.syms| && 0 <= y < |p.syms| && p.syms[x].name == p.syms[y].name ensures x == y {
      ObjectNamesDistinct(lines, x, y);
    }
    forall x | 0 <= x < |p.syms|
      ensures p.syms[x].flags in {SYM_LOCAL, SYM_GLOBAL} && p.syms[x].section in {SEC_CNST, SEC_DATA, SEC_CODE}
    {
      NoImports(p, entry, x);
      ObjectSymbol(lines, x);
    }
    PrivateNames(p);
  }

  lemma PrivateNames(p: Prog)
    requires forall x, y :: 0 <= x < |p.syms| && 0 <= y < |p.syms| && p.syms[x].name == p.syms[y].name ==> x == y
    requires forall x :: 0 <= x < |p.syms| ==>
               p.syms[x].flags in {SYM_LOCAL, SYM_GLOBAL} && p.syms[x].section in {SEC_CNST, SEC_DATA, SEC_CODE}
    ensures LinkLoad.AllHygienic([p], [p])
  {
    forall s | s in p.syms
      ensures s.flags == SYM_LOCAL ==> !LinkLoad.Shared([p], s.name)
      ensures s.flags != SYM_LOCAL ==> LinkLoad.Shared([p], s.name)
    {
      var x :| 0 <= x < |p.syms| && p.syms[x] == s;
      if s.flags == SYM_LOCAL {
        forall o, t | o in [p] && t in o.syms && t.name == s.name ensures t == s {
          var y :| 0 <= y < |p.syms| && p.syms[y] == t;
        }
      } else {
        assert p in [p];
      }
    }
    assert forall o :: o in [p] ==> o == p;
  }

  // ----- bytes of the loaded code ------------------------------------------------------------------------

  /** An object linked alone starts at code offset 0; bytes that no relocation overwrites are loaded as they are. */
  lemma LoadedByte(lines: seq<Line>, entry: Option<Name>, a: Loader.Addresses, out: Loader.Loaded, x: nat)
    requires Loads(lines, entry, a, out)
    requires x < |Assemble(lines).v.text| && LinkLoad.Clear(Assemble(lines).v.rels, x)
    ensures x < |out.code| && out.code[x] == Assemble(lines).v.text[x]
  {
    hide Assemble, LinkLoad.Clear, LinkLoad.Compact, Linker.Link, Loader.Load;
    Alone(lines);
    LinkLoad.FirstBases(Linker.ZERO, [ToProg(Assemble(lines).v)]);
    LinkLoad.LinkLoadElsewhere([ToProg(Assemble(lines).v)], entry, a, 0, x);
  }

  lemma LoadedLength(lines: seq<Line>, entry: Option<Name>, a: Loader.Addresses, out: Loader.Loaded)
    requires Loads(lines, entry, a, out)
    ensures |out.code| == |Assemble(lines).v.text|
  {
    hide Assemble, LinkLoad.Compact, Linker.Link, Loader.Load;
    Alone(lines);
    LinkLoad.LoadedSites([ToProg(Assemble(lines).v)], entry, a);
  }

  /** A relocated code operand of an object linked alone holds the offset of the symbol its index names. */
  lemma CodeRelocValue(lines: seq<Line>, entry: Option<Name>, a: Loader.Addresses, out: Loader.Loaded, j: nat)
    requires Loads(lines, entry, a, out)
    requires j < |Assemble(lines).v.rels| && Assemble(lines).v.rels[j].kind == REL_CODE
    ensures var r, syms := Assemble(lines).v.rels[j], ToProg(Assemble(lines).v).syms;
            r.sym < |syms| && HasAt(out.code, r.at, Le(4, syms[r.sym].offset))
  {
    hide Assemble, LinkLoad.Compact, LinkLoad.AllHygienic, Linker.Link, Loader.Load, HasAt, Le, SymsOf;
    var p := ToProg(Assemble(lines).v);
    Alone(lines);
    AloneHygienic(lines, entry);
    var d, m := LinkLoad.LinkLoadReference([p], entry, a, 0, j);
    var k := p.rels[j].sym;
    ForAllDistinct(lines);
    NoImports(p, entry, k);
    assert d == 0 && m == k;
    LinkLoad.FirstBases(Linker.ZERO, [p]);
    AloneTarget(p, a, p.syms[k]);
  }

  lemma ForAllDistinct(lines: seq<Line>)
    requires Assemble(lines).Ok?
    ensures var syms := ToProg(Assemble(lines).v).syms;
            forall x, y :: 0 <= x < |syms| && 0 <= y < |syms| && syms[x].name == syms[y].name ==> x == y
  {
    hide Assemble, ToProg;
    var syms := ToProg(Assemble(lines).v).syms;
    forall x, y | 0 <= x < |syms| && 0 <= y < |syms| && syms[x].name == syms[y].name ensures x == y {
      ObjectNamesDistinct(lines, x, y);
    }
  }

  lemma AloneTarget(p: Prog, a: Loader.Addresses, s: Sym)
    ensures LinkLoad.Target([p], a, REL_CODE, 0, s) == Le(4, s.offset)
  {
    LinkLoad.FirstBases(Linker.ZERO, [p]);
    hide Le;
  }

  /** A defined label's symbol. */
  lemma DefinedLabel(lines: seq<Line>, k: nat)
    requires Assemble(lines).Ok? && k < |Assemble(lines).v.labels|
    requires DefAt(START, lines, Assemble(lines).v.labels[k].name).Some?
    ensures SymOf(Assemble(lines).v.labels[k]).offset == LabelOffset(lines, Assemble(lines).v.labels[k].name)
  {
    hide DoLines, DefAt, StatusAfter, Distinct, Assemble, Get, Good, AllResolvable;
    SymIndices.AssembledParts(lines);
    SymIndices.TableDistinct(lines);
    var l := Assemble(lines).v.labels[k];
    GetAt(Assemble(lines).v.labels, k);
    TableIsLayout(lines, DoLines(Init(), lines).v, l.name);
    RunKeeps(Init(), lines, l.name);
    StatusIsFirstDefinition(Absent, START, lines, l.name);
  }

  /** With code relocations aligned and their labels defined, relocating them writes back what is there. */
  lemma CodeRelocSame(
      lines: seq<Line>, entry: Option<Name>, a: Loader.Addresses, out: Loader.Loaded, j: nat, s: Relocs.Site, x: nat)
    requires Loads(lines, entry, a, out) && CodeAligned(Assemble(lines).v) && SelfContained(lines)
    requires j < |Assemble(lines).v.rels| && Assemble(lines).v.rels[j].kind == REL_CODE
    requires j < |Relocs.RelocSites(lines, |lines|)| && s == Relocs.RelocSites(lines, |lines|)[j]
    requires Loader.Covers(Assemble(lines).v.rels[j], x)
    ensures x < |out.code| && x < |Assemble(lines).v.text| && out.code[x] == Assemble(lines).v.text[x]
  {
    hide Assemble, Loads, SelfContained, CodeAligned, LayoutEnv, Program, EncodeAll, Relocs.RelocSites, HasAt, Le,
         SymsOf, LabelOffset, Relocs.TextAt, Relocs.SitesOf, Relocs.Relocated, Distinct, DefAt;
    LoadsAssembles(lines, entry, a, out);
    var st := Assemble(lines).v;
    var k := st.rels[j].sym;
    SymIndices.RelocIndexIff(lines, j);
    AlignedBefore(st, j);
    CodeRelocValue(lines, entry, a, out, j);
    SymIndices.TableDistinct(lines);
    Relocs.AssembleRelocs(lines);
    Relocs.SiteMember(lines, |lines|, s);
    var line :| 0 <= line < |lines| && Relocs.SiteOf(lines, line, s);
    SiteDefined(lines, line, s);
    DefinedLabel(lines, k);
    SymIndices.RelocatedIsWritten(lines, s);
    SymIndices.WrittenNotSkipped(st.labels, k);
    SymIndices.IndexIff(st.labels, k);
    CodeOperandText(lines, line, s);
    Loader.SiteByte(out.code, s.at, Le(4, LabelOffset(lines, s.name)), x);
    Loader.SiteByte(st.text, s.at, Le(4, LabelOffset(lines, s.name)), x);
  }

  lemma Transfer(i: Instr, text: seq<byte>, code: seq<byte>, b: nat, n: nat)
    requires HasAt(text, b, Encode(i)) && n == (if ShapeOf(i.op) == RegImm64 then 2 else Width(ShapeOf(i.op)))
    requires forall x :: b <= x < b + n ==> x < |code| && code[x] == text[x]
    ensures SameButImmediate(i, code, b)
  {
    var w := if ShapeOf(i.op) == RegImm64 then [i.op, RegByte(i.d, i.s)] else Encode(i);
    assert |w| == n && w == Encode(i)[..n];
    assert text[b..b + n] == text[b..b + |Encode(i)|][..n];
    var last := text[b + n - 1];
    SameSlice(text, b, code, b, n);
  }

  lemma SameSlice(s: seq<byte>, at: nat, t: seq<byte>, to: nat, n: nat)
    requires at + n <= |s| && to + n <= |t|
    requires forall x {:trigger s[x]} :: at <= x < at + n ==> s[x] == t[x - at + to]
    ensures t[to..to + n] == s[at..at + n]
  {
    var u, v := s[at..at + n], t[to..to + n];
    forall y | 0 <= y < n ensures u[y] == v[y] { var b := s[at + y]; }
  }

  lemma LoadsAssembles(lines: seq<Line>, entry: Option<Name>, a: Loader.Addresses, out: Loader.Loaded)
    requires Loads(lines, entry, a, out)
    ensures Assemble(lines).Ok? && DoLines(Init(), lines).Ok?
  {
  }

  lemma AlignedBefore(st: Asm.State, j: nat)
    requires CodeAligned(st) && j < |st.rels| && st.rels[j].kind == REL_CODE && st.rels[j].sym < |st.labels|
    ensures forall i :: 0 <= i < st.rels[j].sym ==> !Skipped(st.labels[i])
  {
  }

  lemma SiteDefined(lines: seq<Line>, k: nat, s: Relocs.Site)
    requires SelfContained(lines) && Relocs.SiteOf(lines, k, s) && s.kind == REL_CODE
    ensures DefAt(START, lines, s.name).Some?
  {
    SymIndices.SiteName(lines[k].src, Relocs.TextAt(lines, k), s);
    hide DefAt, Relocs.TextAt, Relocs.Relocated;
  }

  /** Byte x of instruction j, outside an 8-byte immediate, is loaded as assembled. */
  lemma InstructionByte(lines: seq<Line>, entry: Option<Name>, a: Loader.Addresses, out: Loader.Loaded, j: nat, x: nat)
    requires Loads(lines, entry, a, out) && CodeAligned(Assemble(lines).v) && SelfContained(lines)
    requires j < |Program(lines, LayoutEnv(lines))| && x < |Assemble(lines).v.text|
    requires var i, b := Program(lines, LayoutEnv(lines))[j], Boundary(Program(lines, LayoutEnv(lines)), j);
             b <= x < b + if ShapeOf(i.op) == RegImm64 then 2 else Width(ShapeOf(i.op))
    ensures x < |out.code| && out.code[x] == Assemble(lines).v.text[x]
  {
    LoadsAssembles(lines, entry, a, out);
    hide Loads, Assemble, LayoutEnv, Program, Boundary, LinkLoad.Clear, Relocs.RelocSites, Relocs.TextAt,
         CodeAligned, SelfContained, DoLines, Relocs.Relocated;
    var rels := Assemble(lines).v.rels;
    if LinkLoad.Clear(rels, x) {
      LoadedByte(lines, entry, a, out, x);
    } else {
      var jj := Covering(rels, x);
      Relocs.AssembleRelocs(lines);
      var s := Relocs.RelocSites(lines, |lines|)[jj];
      var k := InstructionAt(lines, LayoutEnv(lines), j);
      Relocs.SiteMember(lines, |lines|, s);
      var k' :| 0 <= k' < |lines| && Relocs.SiteOf(lines, k', s);
      SameLine(lines, k, k', s, x);
      ImmediateSite(lines[k].src, LayoutEnv(lines), Relocs.TextAt(lines, k), s, x);
      CodeRelocSame(lines, entry, a, out, jj, s, x);
    }
  }

  lemma Covering(rels: seq<Rel>, x: nat) returns (j: nat)
    requires !LinkLoad.Clear(rels, x)
    ensures j < |rels| && Loader.Covers(rels[j], x)
  {
    j :| 0 <= j < |rels| && Loader.Covers(rels[j], x);
  }

  /** A site that covers a byte outside an 8-byte immediate is a code operand. */
  lemma ImmediateSite(src: Src, env: Env, at: nat, s: Relocs.Site, x: nat)
    requires s in Relocs.SitesOf(src, at) && s.at <= x
    requires x < at + if ShapeOf(Lower(src, env).op) == RegImm64 then 2 else Width(ShapeOf(Lower(src, env).op))
    ensures s.kind == REL_CODE
  {
  }

  lemma LoadedInstruction(lines: seq<Line>, entry: Option<Name>, a: Loader.Addresses, out: Loader.Loaded, j: nat)
    requires Loads(lines, entry, a, out) && CodeAligned(Assemble(lines).v) && SelfContained(lines)
    requires j < |Program(lines, LayoutEnv(lines))|
    ensures SameButImmediate(Program(lines, LayoutEnv(lines))[j], out.code,
        Boundary(Program(lines, LayoutEnv(lines)), j))
  {
    LoadsAssembles(lines, entry, a, out);
    hide Loads, Assemble, LayoutEnv, Program, EncodeAll, Boundary, CodeAligned, SelfContained, DoLines;
    var prog := Program(lines, LayoutEnv(lines));
    var text, b, i := Assemble(lines).v.text, Boundary(prog, j), prog[j];
    AssembleRefines(lines);
    EncodedAt(prog, j);
    var n := if ShapeOf(i.op) == RegImm64 then 2 else Width(ShapeOf(i.op));
    forall x | b <= x < b + n ensures x < |out.code| && out.code[x] == text[x] {
      InstructionByte(lines, entry, a, out, j, x);
    }
    Transfer(i, text, out.code, b, n);
  }

  /** The loaded code is the encoding of the source's instructions, with 8-byte immediates as relocated. */
  lemma LoadedProgram(lines: seq<Line>, entry: Option<Name>, a: Loader.Addresses, out: Loader.Loaded)
    requires Loads(lines, entry, a, out) && CodeAligned(Assemble(lines).v) && SelfContained(lines)
    ensures |out.code| == |EncodeAll(Program(lines, LayoutEnv(lines)))|
    ensures out.code == EncodeAll(Refilled(Program(lines, LayoutEnv(lines)), out.code, 0))
  {
    hide Loads, Assemble, LayoutEnv, Program, EncodeAll, Encode, Width, Refilled, HasAt, SameButImmediate, Boundary,
         WellFormed, CodeAligned, SelfContained, DoLines;
    LoadsAssembles(lines, entry, a, out);
    AssembleRefines(lines);
    LoadedLength(lines, entry, a, out);
    forall j | 0 <= j < |Program(lines, LayoutEnv(lines))|
      ensures SameButImmediate(Program(lines, LayoutEnv(lines))[j], out.code,
          Boundary(Program(lines, LayoutEnv(lines)), j))
    {
      LoadedInstruction(lines, entry, a, out, j);
    }
    RefilledWhole(Program(lines, LayoutEnv(lines)), out.code);
  }

  lemma RefilledWhole(ins: seq<Instr>, code: seq<byte>)
    requires |EncodeAll(ins)| == |code|
    requires forall j :: 0 <= j < |ins| ==> SameButImmediate(ins[j], code, Boundary(ins, j))
    ensures EncodeAll(Refilled(ins, code, 0)) == code
  {
    hide SameButImmediate, EncodeAll, Boundary, Refilled;
    forall j | 0 <= j < |ins| ensures SameButImmediate(ins[j], code, 0 + Boundary(ins, j)) { }
    RefilledEncodes(ins, code, 0);
    assert code[0..] == code;
  }

  /** The bytecode a thread is created with: the loaded code from the entry point on. */
  ghost predicate StartsAt(c: Vm.Image, a: Loader.Addresses, out: Loader.Loaded) {
    out.entry <= |out.code| && c.base == a.code + out.entry && c.code == out.code[out.entry..]
  }

  /** End to end: assemble a self-contained source, link it, load it anywhere, run it as its entry point says,
      with that at the first byte. In every reachable state ip and all return addresses are instruction
      boundaries or the end of the code, and dispatch never meets an undefined opcode. */
  lemma LoadedControlFlow(
      lines: seq<Line>, entry: Option<Name>, a: Loader.Addresses, out: Loader.Loaded,
      c: Vm.Image, ts: seq<Vm.Thread>, evs: seq<ControlFlow.Event>, ev: ControlFlow.Event) returns (ins: seq<Instr>)
    requires Loads(lines, entry, a, out) && CodeAligned(Assemble(lines).v) && SelfContained(lines)
    requires out.entry == 0 && StartsAt(c, a, out)
    requires ControlFlow.IsTrace(c, ts, evs) && ts[0].ip == c.base && ts[0].shadow == []
    ensures |EncodeAll(Program(lines, LayoutEnv(lines)))| == |c.code|
    ensures ins == Refilled(Program(lines, LayoutEnv(lines)), c.code, 0) && c.code == EncodeAll(ins)
    ensures ControlFlow.OnBoundaries(c, ins, ts[|evs|])
    ensures Vm.Step(c, ts[|evs|], ev.mem, ev.env) != Vm.Faulted(Vm.UndefinedOpcode)
  {
    LoadsAssembles(lines, entry, a, out);
    assert out.code[0..] == out.code;
    hide Loads, Assemble, LayoutEnv, Program, ControlFlow.StepThread, ControlFlow.Structured, EncodeAll, Refilled,
         Vm.Step, CodeAligned, SelfContained, DoLines;
    LoadedProgram(lines, entry, a, out);
    ins := Refilled(Program(lines, LayoutEnv(lines)), c.code, 0);
    AssembledIsStructured(lines);
    RefilledStructured(Program(lines, LayoutEnv(lines)), c.code);
    ControlFlow.RunStaysOnBoundaries(c, ins, ts, evs, |evs|);
    ControlFlow.NoUndefinedDispatch(c, ins, ts, evs, ev);
  }
}
