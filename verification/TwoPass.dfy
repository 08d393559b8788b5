/** Single-pass backpatching refines two-pass assembly. The reference first lays the source out with
    label-independent sizes, then encodes every instruction with its final label offsets. */
module TwoPass {
  import opened Words
  import opened Isa
  import opened Objects
  import opened Asm
  import opened Labels

  const START: Pos := Pos(SEC_CODE, 0, 0, 0)

  lemma InitGood()
    ensures Good(Init()) && PosOf(Init()) == START
  {
  }

  // ----- reference ------------------------------------------------------------------------

  /** Final value of a code operand: the label's offset, 0 if the label stays extern. */
  type Env = Name -> nat

  function Offset(s: Status): nat { if s.Placed? then s.off else 0 }

  /** Offset of a label in the layout, 0 if no line defines it. */
  function LabelOffset(lines: seq<Line>, name: Name): nat {
    match DefAt(START, lines, name) case Some(s) => Offset(s) case None => 0
  }

  function LayoutEnv(lines: seq<Line>): Env {
    name => LabelOffset(lines, name)
  }

  /** The instruction a source line stands for. `lea` is encoded with base 0 whatever its operand says,
      a zero displacement takes the short form, and `mov reg, label` leaves its immediate to the loader. */
  function Lower(src: Src, env: Env): Instr {
    match src
    case RegRegSrc(op, d, s) => Instr(op, d, s, 0, 0)
    case ImmSrc(op, d, v) => Instr(op, d, 0, v, 0)
    case MemSrc(op, d, s, off) =>
      if U32(off) != 0 then Instr(OffForm(op), d, s, U32(off), 0) else Instr(op, d, s, 0, 0)
    case EnterSrc(size) => Instr(OP_ENTER, 0, 0, size % 0x1_0000, 0)
    case BareSrc(op) => Instr(op, 0, 0, 0, 0)
    case LeaSrc(d, _, off) => Instr(OP_LEA, d, 0, U32(off), 0)
    case MovLabel(d, _) => Instr(OP_MOV_RI, d, 0, 0, 0)
    case JumpSrc(op, name) => Instr(op, 0, 0, env(name), 0)
    case CallSrc(ok, err) => Instr(OP_CALL, 0, 0, env(ok), env(err))
    case CallrSrc(d, err) => Instr(OP_CALLR, d, 0, env(err), 0)
  }

  function Program(lines: seq<Line>, env: Env): seq<Instr> {
    if lines == [] then []
    else (if lines[0].Ins? then [Lower(lines[0].src, env)] else []) + Program(lines[1..], env)
  }

  // ----- the patched view of a state ----------------------------------------------------------

  function TableEnv(ls: seq<Label>): Env {
    name => Offset(StatusOf(Get(ls, name)))
  }

  /** The text as it will be once the patches recorded so far are applied with the final table. */
  function View(st: State, final: seq<Label>): seq<byte> {
    PatchAll(st.text, st.patches, final)
  }

  lemma OverwriteBefore(t: seq<byte>, w: seq<byte>, at: nat, v: seq<byte>)
    requires at + |v| <= |t|
    ensures Overwrite(t + w, at, v) == Overwrite(t, at, v) + w
  {
    assert (t + w)[..at] == t[..at];
    assert (t + w)[at + |v|..] == t[at + |v|..] + w;
  }

  lemma OverwriteEnd(t: seq<byte>, w: seq<byte>, v: seq<byte>)
    requires |v| == |w|
    ensures Overwrite(t + w, |t|, v) == t + v
  {
    assert (t + w)[..|t|] == t;
    assert (t + w)[|t| + |v|..] == [];
  }

  /** Old patches do not reach into bytes appended later. */
  lemma {:induction false} PatchAllAppend(t: seq<byte>, w: seq<byte>, ps: seq<Patch>, ls: seq<Label>)
    requires forall p :: p in ps ==> p.at + (if p.is64 then 8 else 4) <= |t|
    ensures PatchAll(t + w, ps, ls) == PatchAll(t, ps, ls) + w
  {
    if ps != [] {
      var q := ps[|ps| - 1];
      PatchAllAppend(t, w, ps[..|ps| - 1], ls);
      assert q in ps;
      var i := Find(ls, q.name);
      if !(q.is64 || i == |ls| || ls[i].flags == SYM_EXTERN || ls[i].offset < 0) {
        OverwriteBefore(PatchAll(t, ps[..|ps| - 1], ls), w, q.at, Le(4, ls[i].offset));
      }
    }
  }

  lemma PutView(st: State, w: seq<byte>, final: seq<Label>)
    requires Good(st) && Put(st, w).Ok?
    ensures View(Put(st, w).v, final) == View(st, final) + w
  {
    PatchAllAppend(st.text, w, st.patches, final);
  }

  lemma PatchAllSnoc(t: seq<byte>, ps: seq<Patch>, p: Patch, ls: seq<Label>)
    ensures PatchAll(t, ps + [p], ls) == PatchOne(PatchAll(t, ps, ls), p, ls)
  {
    assert (ps + [p])[..|ps + [p]| - 1] == ps;
  }

  ghost predicate AllResolvable(ps: seq<Patch>, ls: seq<Label>) {
    forall p :: p in ps ==> Resolvable(p, ls)
  }

  lemma RefCodeView(st: State, name: Name, final: seq<Label>)
    requires Good(st) && RefCode(st, name).Ok?
    requires TableOk(final) && Extends(st.labels, final) && AllResolvable(RefCode(st, name).v.patches, final)
    ensures View(RefCode(st, name).v, final) == View(st, final) + Le(4, TableEnv(final)(name))
  {
    hide View, Le, Resolvable, TableEnv;
    if Ready(st.labels, Find(st.labels, name)) {
      ReadyOffset(st.labels, final, name);
      PutView(st, Le(4, st.labels[Find(st.labels, name)].offset), final);
    } else {
      RefCodePatched(st, name, RefCode(st, name).v, final);
    }
  }

  lemma ReadyOffset(ls: seq<Label>, final: seq<Label>, name: Name)
    requires Ready(ls, Find(ls, name)) && Extends(ls, final)
    ensures TableEnv(final)(name) == ls[Find(ls, name)].offset
  {
    GetExtended(ls, final, name);
  }

  lemma RefCodePatched(st: State, name: Name, s': State, final: seq<Label>)
    requires Good(st) && TableOk(final) && AllResolvable(s'.patches, final)
    requires s'.text == st.text + Le(4, 0) && s'.patches == st.patches + [Patch(name, |st.text|, false)]
    ensures View(s', final) == View(st, final) + Le(4, TableEnv(final)(name))
  {
    hide PatchOne, PatchAll, Le, Resolvable, TableEnv;
    var p := Patch(name, |st.text|, false);
    assert p in s'.patches;
    PatchAllAppend(st.text, Le(4, 0), st.patches, final);
    PatchAllSnoc(s'.text, st.patches, p, final);
    PatchedHere(View(st, final), p, final);
  }

  lemma PatchedHere(t: seq<byte>, p: Patch, final: seq<Label>)
    requires TableOk(final) && Resolvable(p, final) && !p.is64 && p.at == |t|
    ensures PatchOne(t + Le(4, 0), p, final) == t + Le(4, TableEnv(final)(p.name))
  {
    hide Le;
    var j := Find(final, p.name);
    assert final[j] in final;
    if final[j].offset >= 0 {
      OverwriteEnd(t, Le(4, 0), Le(4, final[j].offset));
    }
  }

  lemma RefDataView(st: State, name: Name, final: seq<Label>)
    requires Good(st) && RefData(st, name).Ok?
    ensures View(RefData(st, name).v, final) == View(st, final) + Le(8, 0)
  {
    var s' := RefData(st, name).v;
    PatchAllAppend(st.text, Le(8, 0), st.patches, final);
    if s'.patches != st.patches {
      PatchAllSnoc(s'.text, st.patches, Patch(name, |st.text|, true), final);
    }
  }

  /** Emitting an instruction appends exactly its final encoding to the patched view. */
  lemma EmitView(st: State, src: Src, final: seq<Label>)
    requires Good(st) && Emit(st, src).Ok?
    requires TableOk(final) && Extends(Emit(st, src).v.labels, final)
    requires AllResolvable(Emit(st, src).v.patches, final)
    ensures View(Emit(st, src).v, final) == View(st, final) + Encode(Lower(src, TableEnv(final)))
  {
    hide RefCode, RefData, TableEnv, View, Head;
    match src
    case MovLabel(d, n) =>
      PutView(st, Head(src), final);
      RefDataView(Put(st, Head(src)).v, n, final);
      HeadThen(View(st, final), src, Le(8, 0), Lower(src, TableEnv(final)));
    case JumpSrc(_, n) => EmitOneRef(st, src, n, final);
    case CallSrc(ok, err) => CallView(st, ok, err, final);
    case CallrSrc(_, n) => EmitOneRef(st, src, n, final);
    case _ =>
      PutView(st, Head(src), final);
      HeadThen(View(st, final), src, [], Lower(src, TableEnv(final)));
  }

  /** `w` is the operand field that finishes the encoding of `src` as `i` (calls have two). */
  ghost predicate Completes(src: Src, w: seq<byte>, i: Instr) {
    match src
    case MovLabel(d, _) => w == Le(8, 0) && i == Instr(OP_MOV_RI, d, 0, 0, 0)
    case JumpSrc(op, _) => w == Le(4, i.x) && i == Instr(op, 0, 0, i.x, 0)
    case CallrSrc(d, _) => w == Le(4, i.x) && i == Instr(OP_CALLR, d, 0, i.x, 0)
    case CallSrc(_, _) => false
    case _ => w == [] && i == Lower(src, _ => 0)
  }

  lemma HeadIsPrefix(src: Src, w: seq<byte>, i: Instr)
    requires Completes(src, w, i)
    ensures Head(src) + w == Encode(i)
  {
    hide Le;
    match src
    case MemSrc(op, d, s, off) => assert Head(src) + [] == Head(src);
    case _ =>
  }

  /** Head and operand bytes together are the encoding. */
  lemma HeadThen(v: seq<byte>, src: Src, w: seq<byte>, i: Instr)
    requires Completes(src, w, i)
    ensures (v + Head(src)) + w == v + Encode(i)
  {
    Assoc(v, Head(src), w);
    HeadIsPrefix(src, w, i);
  }

  lemma EmitOneRef(st: State, src: Src, n: Name, final: seq<Label>)
    requires Good(st) && Emit(st, src).Ok?
    requires src.JumpSrc? || src.CallrSrc?
    requires n == if src.JumpSrc? then src.name else src.err
    requires TableOk(final) && Extends(Emit(st, src).v.labels, final)
    requires AllResolvable(Emit(st, src).v.patches, final)
    ensures View(Emit(st, src).v, final) == View(st, final) + Encode(Lower(src, TableEnv(final)))
  {
    hide RefCode, TableEnv, View, Head;
    var s1 := Put(st, Head(src)).v;
    PutView(st, Head(src), final);
    RefCodeKeeps(s1, n);
    RefCodeView(s1, n, final);
    HeadThen(View(st, final), src, Le(4, TableEnv(final)(n)), Lower(src, TableEnv(final)));
  }

  lemma RefCodeGrows(st: State, name: Name, final: seq<Label>)
    requires RefCode(st, name).Ok? && AllResolvable(RefCode(st, name).v.patches, final)
    ensures AllResolvable(st.patches, final)
  {
    assert forall p :: p in st.patches ==> p in RefCode(st, name).v.patches;
  }

  lemma CallView(st: State, ok: Name, err: Name, final: seq<Label>)
    requires Good(st) && Emit(st, CallSrc(ok, err)).Ok?
    requires TableOk(final) && Extends(Emit(st, CallSrc(ok, err)).v.labels, final)
    requires AllResolvable(Emit(st, CallSrc(ok, err)).v.patches, final)
    ensures View(Emit(st, CallSrc(ok, err)).v, final)
              == View(st, final) + Encode(Lower(CallSrc(ok, err), TableEnv(final)))
  {
    hide RefCode, TableEnv, View;
    var env := TableEnv(final);
    PutView(st, [OP_CALL], final);
    var s1 := Put(st, [OP_CALL]).v;
    RefCodeKeeps(s1, ok);
    var s2 := RefCode(s1, ok).v;
    RefCodeKeeps(s2, err);
    RefCodeGrows(s2, err, final);
    RefCodeView(s1, ok, final);
    RefCodeView(s2, err, final);
    Assoc(View(st, final), [OP_CALL], Le(4, env(ok)));
    Assoc(View(st, final), [OP_CALL] + Le(4, env(ok)), Le(4, env(err)));
    Assoc([OP_CALL], Le(4, env(ok)), Le(4, env(err)));
  }

  lemma {:induction false} PatchesGrow(st: State, lines: seq<Line>, p: Patch)
    requires DoLines(st, lines).Ok? && p in st.patches
    ensures p in DoLines(st, lines).v.patches
    decreases |lines|
  {
    if lines != [] {
      LinePatches(st, lines[0], p);
      PatchesGrow(DoLine(st, lines[0]).v, lines[1..], p);
    }
  }

  lemma LinePatches(st: State, line: Line, p: Patch)
    requires DoLine(st, line).Ok? && p in st.patches
    ensures p in DoLine(st, line).v.patches
  {
    hide Define, Head, Emit;
    match line
    case Ins(src) => EmitPatches(st, src, p);
    case _ =>
  }

  lemma EmitPatches(st: State, src: Src, p: Patch)
    requires Emit(st, src).Ok? && p in st.patches
    ensures p in Emit(st, src).v.patches
  {
    hide Head;
    var s1 := Put(st, Head(src)).v;
    match src
    case MovLabel(_, n) => assert p in RefData(s1, n).v.patches;
    case JumpSrc(_, n) => assert p in RefCode(s1, n).v.patches;
    case CallSrc(ok, err) =>
      assert p in RefCode(s1, ok).v.patches;
      assert p in RefCode(RefCode(s1, ok).v, err).v.patches;
    case CallrSrc(_, n) => assert p in RefCode(s1, n).v.patches;
    case _ =>
  }

  // ----- whole sources ----------------------------------------------------------------------------

  lemma {:induction false} RunView(st: State, lines: seq<Line>)
    requires Good(st) && DoLines(st, lines).Ok?
    requires AllResolvable(DoLines(st, lines).v.patches, DoLines(st, lines).v.labels)
    ensures var e := DoLines(st, lines).v;
            View(e, e.labels) == View(st, e.labels) + EncodeAll(Program(lines, TableEnv(e.labels)))
    decreases |lines|
  {
    var e := DoLines(st, lines).v;
    RunKeeps(st, lines, []);
    assert TableOk(e.labels);
    hide DoLine, Good, Lower, TableEnv, Encode, View;
    if lines != [] {
      var s1 := DoLine(st, lines[0]).v;
      LineKeeps(st, lines[0], []);
      RunView(s1, lines[1..]);
      RunKeeps(s1, lines[1..], []);
      forall p | p in s1.patches ensures Resolvable(p, e.labels) { PatchesGrow(s1, lines[1..], p); }
      LineView(st, lines[0], e.labels);
      var head := if lines[0].Ins? then [Lower(lines[0].src, TableEnv(e.labels))] else [];
      EncodeAllAppend(head, Program(lines[1..], TableEnv(e.labels)));
      Assoc(View(st, e.labels), EncodeAll(head), EncodeAll(Program(lines[1..], TableEnv(e.labels))));
    }
  }

  lemma LineView(st: State, line: Line, final: seq<Label>)
    requires Good(st) && DoLine(st, line).Ok? && Good(DoLine(st, line).v)
    requires TableOk(final) && Extends(DoLine(st, line).v.labels, final)
    requires AllResolvable(DoLine(st, line).v.patches, final)
    ensures View(DoLine(st, line).v, final)
              == View(st, final) + EncodeAll(if line.Ins? then [Lower(line.src, TableEnv(final))] else [])
  {
    hide Emit, Define, Lower, TableEnv, Head, Good, AllResolvable, TableOk;
    match line
    case Ins(src) =>
      EmitView(st, src, final);
      EncodeOne(Lower(src, TableEnv(final)));
    case _ =>
      assert DoLine(st, line).v.text == st.text && DoLine(st, line).v.patches == st.patches;
  }

  lemma EncodeOne(i: Instr)
    ensures EncodeAll([i]) == Encode(i)
  {
    assert [i][1..] == [];
  }

  // ----- the refinement theorem ----------------------------------------------------------------------

  lemma {:induction false} ProgramSameEnv(lines: seq<Line>, e1: Env, e2: Env)
    requires forall n :: e1(n) == e2(n)
    ensures Program(lines, e1) == Program(lines, e2)
  {
    if lines != [] {
      ProgramSameEnv(lines[1..], e1, e2);
    }
  }

  /** The final table agrees with the label-independent layout. */
  lemma TableIsLayout(lines: seq<Line>, st: State, name: Name)
    requires DoLines(Init(), lines) == Ok(st)
    ensures Offset(StatusOf(Get(st.labels, name))) == LabelOffset(lines, name) <= BUF_MAX
  {
    RunKeeps(Init(), lines, name);
    StatusIsFirstDefinition(Absent, START, lines, name);
    assert Get(st.labels, name).Some? ==> Get(st.labels, name).value in st.labels;
  }

  lemma LowerWellFormed(src: Src, env: Env)
    requires forall n :: env(n) <= BUF_MAX
    ensures WellFormed(Lower(src, env))
  {
  }

  lemma {:induction false} ProgramWellFormed(lines: seq<Line>, env: Env)
    requires forall n :: env(n) <= BUF_MAX
    ensures AllWellFormed(Program(lines, env))
  {
    hide Lower, WellFormed;
    if lines != [] {
      ProgramWellFormed(lines[1..], env);
      if lines[0].Ins? {
        LowerWellFormed(lines[0].src, env);
      }
    }
  }

  /** Single-pass assembly refines two-pass assembly: the text is the encoding of the source's
      instructions with every label at its final offset, and the interpreter's fetch reads them back. */
  lemma AssembleRefines(lines: seq<Line>)
    requires Assemble(lines).Ok?
    ensures AllWellFormed(Program(lines, LayoutEnv(lines)))
    ensures Assemble(lines).v.text == EncodeAll(Program(lines, LayoutEnv(lines)))
    ensures DecodeAll(Assemble(lines).v.text, 0) == Some(Program(lines, LayoutEnv(lines)))
  {
    hide DoLines, LabelOffset, Get, Program;
    var e := DoLines(Init(), lines).v;
    RunView(Init(), lines);
    forall n ensures TableEnv(e.labels)(n) == LayoutEnv(lines)(n) <= BUF_MAX { TableIsLayout(lines, e, n); }
    ProgramSameEnv(lines, TableEnv(e.labels), LayoutEnv(lines));
    var prog := Program(lines, LayoutEnv(lines));
    ProgramWellFormed(lines, LayoutEnv(lines));
    assert View(Init(), e.labels) == [];
    assert Assemble(lines).v.text == EncodeAll(prog);
    DecodeAllEncodeAll(prog, 0);
    assert Boundary(prog, 0) == 0 && prog[0..] == prog;
  }
}
