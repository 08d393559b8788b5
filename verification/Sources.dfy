/** Single source lines, for sources written out in full. */
module Sources {
  import opened Words
  import opened Isa
  import opened Objects
  import opened Asm

  /** A label that is not in the table yet. */
  lemma Defines(st: State, n: Name)
    requires Find(st.labels, n) == |st.labels| < MAX_LABELS
    ensures DoLine(st, LabelDef(n)) == Ok(st.(labels := st.labels + [Label(n, SYM_LOCAL, st.sec, CurLen(st))]))
  {
    hide Find, CurLen;
  }

  lemma Adds(st: State, d: Reg, s: Reg)
    requires st.sec == SEC_CODE && |st.text| + 2 <= BUF_MAX
    ensures DoLine(st, Ins(RegRegSrc(OP_ADD, d, s))) == Ok(st.(text := st.text + [OP_ADD, RegByte(d, s)]))
  {
    hide RegByte;
  }

  /** A jump to label i of the table, defined in the code. */
  lemma JumpsBack(st: State, n: Name, i: nat)
    requires st.sec == SEC_CODE && |st.text| + 5 <= BUF_MAX
    requires i < |st.labels| && Find(st.labels, n) == i && Ready(st.labels, i)
    ensures DoLine(st, Ins(JumpSrc(OP_JMP, n))) == Ok(st.(text := st.text + [OP_JMP] + Le(4, st.labels[i].offset)))
  {
    hide Find, Le;
  }

  /** Without patches the text is what was emitted. */
  lemma NoPatches(lines: seq<Line>, st: State)
    requires DoLines(Init(), lines) == Ok(st) && st.patches == []
    ensures Assemble(lines) == Ok(st)
  {
    hide DoLines, Resolvable;
  }
}
