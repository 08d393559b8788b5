/** The one-pass assembler: label table, patches, relocations, emission and final backpatching. */
module Asm {
  import opened Words
  import opened Isa
  import opened Objects

  const MAX_LABELS: nat := 512
  const MAX_PATCHES: nat := 1024
  const BUF_MAX: nat := 262144

  // ----- source lines ------------------------------------------------------------------

  type RegRegOp = op: Op | ShapeOf(op) == RegReg witness OP_ADD
  type BareOp = op: Op | ShapeOf(op) == Bare witness OP_RET
  type JumpOp = op: Op | OP_JMP <= op <= OP_JGE witness OP_JMP
  type ImmOp = op: Op | op == OP_MOV_RI || op == OP_FMOV_RI witness OP_MOV_RI
  type MemOp = op: Op | op == OP_MOV_RM || op == OP_MOV_MR || OP_MOVZX_RM8 <= op <= OP_MOV_MR32
    witness OP_MOV_RM

  /** A parsed instruction. Immediates and displacements are already numbers, labels still names. */
  datatype Src =
    | RegRegSrc(rop: RegRegOp, d: Reg, s: Reg)
    | ImmSrc(iop: ImmOp, d: Reg, v: u64)
    | MemSrc(mop: MemOp, d: Reg, s: Reg, off: int)
    | EnterSrc(size: u64)
    | BareSrc(bop: BareOp)
    | LeaSrc(d: Reg, base: Reg, off: int)
    | MovLabel(d: Reg, name: Name)
    | JumpSrc(jop: JumpOp, name: Name)
    | CallSrc(ok: Name, err: Name)
    | CallrSrc(d: Reg, err: Name)

  datatype Line =
    | Section(sec: byte)                       // .text .data .cnst
    | Global(name: Name)
    | Extern(name: Name)
    | LabelDef(name: Name)
    | Ins(src: Src)
    | Number(width: nat, value: u64)           // db dw dd dq
    | Text(bytes: seq<byte>, terminated: bool) // ds dsz

  /** The form with a displacement of a memory opcode. */
  function OffForm(op: MemOp): Op {
    if op == OP_MOV_RM then OP_MOV_RM_OFF
    else if op == OP_MOV_MR then OP_MOV_MR_OFF
    else op + (OP_MOVZX_RM8_OFF - OP_MOVZX_RM8)
  }

  // ----- assembler state -----------------------------------------------------------------

  /** offset -1 is "not defined". */
  datatype Label = Label(name: Name, flags: byte, section: byte, offset: int)
  datatype Patch = Patch(name: Name, at: nat, is64: bool)

  datatype State = State(
    text: seq<byte>, data: seq<byte>, cnst: seq<byte>,
    labels: seq<Label>, patches: seq<Patch>, rels: seq<Rel>, sec: byte)

  datatype AsmError =
    | LabelTableFull | PatchTableFull | RelocTableFull | WrongSection
    | UndefinedLabel | SectionOverrun

  datatype Res<+T> = Ok(v: T) | Err(why: AsmError)

  function Init(): State { State([], [], [], [], [], [], SEC_CODE) }

  /** Index of the first label with this name, |ls| if there is none. */
  function Find(ls: seq<Label>, name: Name): (i: nat)
    ensures i <= |ls| && (i < |ls| ==> ls[i].name == name)
    ensures forall k :: 0 <= k < i ==> ls[k].name != name
  {
    if ls == [] || ls[0].name == name then 0 else 1 + Find(ls[1..], name)
  }

  function Define(ls: seq<Label>, name: Name, flags: byte, sec: byte, off: int): Res<seq<Label>> {
    var i := Find(ls, name);
    if i < |ls| then
      if ls[i].flags == SYM_EXTERN && flags != SYM_EXTERN then Ok(ls[i := Label(name, flags, sec, off)])
      else if ls[i].offset < 0 then Ok(ls[i := Label(name, flags, sec, off)])
      else Ok(ls)
    else if |ls| >= MAX_LABELS then Err(LabelTableFull)
    else Ok(ls + [Label(name, flags, sec, off)])
  }

  function Put(st: State, w: seq<byte>): Res<State> {
    if |st.text| + |w| > BUF_MAX then Err(SectionOverrun) else Ok(st.(text := st.text + w))
  }

  /** A code label usable right away: defined, in the code section. */
  predicate Ready(ls: seq<Label>, i: nat)
    requires i <= |ls|
  {
    i < |ls| && ls[i].offset >= 0 && ls[i].section == SEC_CODE && ls[i].flags != SYM_EXTERN
  }

  /** label_ref_code: the offset if known, otherwise a zero placeholder with a patch, and a relocation
      if the label is extern at this point. */
  function RefCode(st: State, name: Name): Res<State> {
    var i := Find(st.labels, name);
    if Ready(st.labels, i) then Put(st, Le(4, st.labels[i].offset))
    else if |st.patches| >= MAX_PATCHES then Err(PatchTableFull)
    else
      var at := |st.text|;
      match Put(st.(patches := st.patches + [Patch(name, at, false)]), Le(4, 0))
      case Err(e) => Err(e)
      case Ok(s1) =>
        if i < |st.labels| && st.labels[i].flags == SYM_EXTERN then
          if |s1.rels| >= MAX_RELS then Err(RelocTableFull)
          else Ok(s1.(rels := s1.rels + [Rel(at % TWO32, i % TWO32, REL_CODE)]))
        else Ok(s1)
  }

  /** sym_index: find the label or create an extern placeholder. */
  function SymIndex(ls: seq<Label>, name: Name): Res<(nat, seq<Label>)> {
    var i := Find(ls, name);
    if i < |ls| then Ok((i, ls))
    else match Define(ls, name, SYM_EXTERN, SEC_NONE, -1)
      case Err(e) => Err(e)
      case Ok(ls') => Ok((i, ls'))
  }

  /** label_ref_data: always a relocation, and a patch entry while the label is undefined. */
  function RefData(st: State, name: Name): Res<State> {
    if |st.rels| >= MAX_RELS then Err(RelocTableFull)
    else match SymIndex(st.labels, name)
      case Err(e) => Err(e)
      case Ok((i, ls)) =>
        var s1 := st.(labels := ls, rels := st.rels + [Rel(|st.text| % TWO32, i % TWO32, REL_DATA)]);
        if i < |ls| && ls[i].offset >= 0 then Put(s1, Le(8, 0))
        else if |s1.patches| >= MAX_PATCHES then Err(PatchTableFull)
        else Put(s1.(patches := s1.patches + [Patch(name, |st.text|, true)]), Le(8, 0))
  }

  function ThenCode(r: Res<State>, name: Name): Res<State> {
    match r case Err(e) => Err(e) case Ok(st) => RefCode(st, name)
  }

  function ThenData(r: Res<State>, name: Name): Res<State> {
    match r case Err(e) => Err(e) case Ok(st) => RefData(st, name)
  }

  /** The bytes of an instruction before its first label operand. */
  function Head(src: Src): seq<byte> {
    match src
    case RegRegSrc(op, d, s) => [op, RegByte(d, s)]
    case ImmSrc(op, d, v) => [op, RegByte(d, 0)] + Le(8, v)
    case MemSrc(op, d, s, off) =>
      if U32(off) != 0 then [OffForm(op), RegByte(d, s)] + Le(4, U32(off)) else [op, RegByte(d, s)]
    case EnterSrc(size) => [OP_ENTER] + Le(2, size % 0x1_0000)
    case BareSrc(op) => [op]
    case LeaSrc(d, base, off) => [OP_LEA, RegByte(d, 0)] + Le(4, U32(off))
    case MovLabel(d, _) => [OP_MOV_RI, RegByte(d, 0)]
    case JumpSrc(op, _) => [op]
    case CallSrc(_, _) => [OP_CALL]
    case CallrSrc(d, _) => [OP_CALLR, RegByte(d, 0)]
  }

  function Emit(st: State, src: Src): Res<State> {
    var r := Put(st, Head(src));
    match src
    case MovLabel(_, name) => ThenData(r, name)
    case JumpSrc(_, name) => ThenCode(r, name)
    case CallSrc(ok, err) => ThenCode(ThenCode(r, ok), err)
    case CallrSrc(_, err) => ThenCode(r, err)
    case _ => r
  }

  /** Length of the current section. */
  function CurLen(st: State): nat {
    if st.sec == SEC_CNST then |st.cnst| else if st.sec == SEC_DATA then |st.data| else |st.text|
  }

  function PutData(st: State, w: seq<byte>): Res<State> {
    if st.sec != SEC_DATA && st.sec != SEC_CNST then Err(WrongSection)
    else if CurLen(st) + |w| > BUF_MAX then Err(SectionOverrun)
    else if st.sec == SEC_CNST then Ok(st.(cnst := st.cnst + w))
    else Ok(st.(data := st.data + w))
  }

  function WithLabels(st: State, r: Res<seq<Label>>): Res<State> {
    match r case Err(e) => Err(e) case Ok(ls) => Ok(st.(labels := ls))
  }

  function DeclareGlobal(st: State, name: Name): Res<State> {
    var i := Find(st.labels, name);
    if i < |st.labels| then Ok(st.(labels := st.labels[i := st.labels[i].(flags := SYM_GLOBAL)]))
    else WithLabels(st, Define(st.labels, name, SYM_GLOBAL, st.sec, -1))
  }

  function DefineHere(st: State, name: Name): Res<State> {
    var i := Find(st.labels, name);
    var flags := if i < |st.labels| && st.labels[i].flags == SYM_GLOBAL then SYM_GLOBAL else SYM_LOCAL;
    WithLabels(st, Define(st.labels, name, flags, st.sec, CurLen(st)))
  }

  function DoLine(st: State, line: Line): Res<State> {
    match line
    case Section(sec) => if sec in {SEC_CNST, SEC_DATA, SEC_CODE} then Ok(st.(sec := sec)) else Err(WrongSection)
    case Global(name) => DeclareGlobal(st, name)
    case Extern(name) => WithLabels(st, Define(st.labels, name, SYM_EXTERN, SEC_NONE, -1))
    case LabelDef(name) => DefineHere(st, name)
    case Ins(src) => if st.sec != SEC_CODE then Err(WrongSection) else Emit(st, src)
    case Number(width, v) => PutData(st, Le(width, v))
    case Text(bytes, z) => PutData(st, bytes + if z then [0] else [])
  }

  function DoLines(st: State, lines: seq<Line>): Res<State>
    decreases |lines|
  {
    if lines == [] then Ok(st)
    else match DoLine(st, lines[0])
      case Err(e) => Err(e)
      case Ok(st') => DoLines(st', lines[1..])
  }

  // ----- backpatching ----------------------------------------------------------------------

  /** What patches_resolve accepts: a 64-bit reference to an extern or defined label; a code reference to
      an extern label or to a defined code label. */
  predicate Resolvable(p: Patch, ls: seq<Label>) {
    var i := Find(ls, p.name);
    && i < |ls|
    && if p.is64 then ls[i].flags == SYM_EXTERN || ls[i].offset >= 0
       else ls[i].flags == SYM_EXTERN || (ls[i].section == SEC_CODE && ls[i].offset >= 0)
  }

  function PatchOne(text: seq<byte>, p: Patch, ls: seq<Label>): (r: seq<byte>)
    ensures |r| == |text|
  {
    var i := Find(ls, p.name);
    if p.is64 || i == |ls| || ls[i].flags == SYM_EXTERN || ls[i].offset < 0 then text
    else Overwrite(text, p.at, Le(4, ls[i].offset))
  }

  function PatchAll(text: seq<byte>, ps: seq<Patch>, ls: seq<Label>): (r: seq<byte>)
    ensures |r| == |text|
  {
    if ps == [] then text else PatchOne(PatchAll(text, ps[..|ps| - 1], ls), ps[|ps| - 1], ls)
  }

  /** asm_compile. */
  function Assemble(lines: seq<Line>): Res<State> {
    match DoLines(Init(), lines)
    case Err(e) => Err(e)
    case Ok(st) =>
      if forall p :: p in st.patches ==> Resolvable(p, st.labels)
      then Ok(st.(text := PatchAll(st.text, st.patches, st.labels)))
      else Err(UndefinedLabel)
  }

  // ----- asm_to_prog -------------------------------------------------------------------------

  /** Declared global but never defined: no symbol is written for it. */
  predicate Skipped(l: Label) { l.offset < 0 && l.flags != SYM_EXTERN }

  function SymOf(l: Label): Sym {
    Sym(l.name, l.flags, if l.flags == SYM_EXTERN then SEC_NONE else l.section,
        if l.offset >= 0 then l.offset % TWO32 else 0)
  }

  function SymsOf(ls: seq<Label>): (syms: seq<Sym>)
    ensures |syms| <= |ls|
  {
    if ls == [] then []
    else SymsOf(ls[..|ls| - 1]) + if Skipped(ls[|ls| - 1]) then [] else [SymOf(ls[|ls| - 1])]
  }

  function ToProg(st: State): Prog {
    Prog(st.cnst, st.data, st.text, SymsOf(st.labels), st.rels, 0, false)
  }
}
