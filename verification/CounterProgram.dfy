/** The shared-counter program as source text: it assembles, to the code the interleaving theorems run. */
module CounterProgram {
  import opened Words
  import opened Isa
  import opened Objects
  import opened Asm
  import TwoPass
  import Vm
  import Syscalls
  import Mutex

  function Source(h: u64, cell: u64): (lines: seq<Line>)
    ensures |lines| == Mutex.LEN
  {
    [Ins(ImmSrc(OP_MOV_RI, Vm.REG_AX, Syscalls.SYS_LOCK)),
     Ins(ImmSrc(OP_MOV_RI, Vm.REG_BX, h)),
     Ins(BareSrc(OP_SYSCALL)),
     Ins(ImmSrc(OP_MOV_RI, Vm.REG_DI, cell)),
     Ins(MemSrc(OP_MOV_RM, Vm.REG_AX, Vm.REG_DI, 0)),
     Ins(ImmSrc(OP_MOV_RI, Vm.REG_BX, 1)),
     Ins(RegRegSrc(OP_ADD, Vm.REG_AX, Vm.REG_BX)),
     Ins(MemSrc(OP_MOV_MR, Vm.REG_DI, Vm.REG_AX, 0)),
     Ins(ImmSrc(OP_MOV_RI, Vm.REG_AX, Syscalls.SYS_UNLOCK)),
     Ins(ImmSrc(OP_MOV_RI, Vm.REG_BX, h)),
     Ins(BareSrc(OP_SYSCALL)),
     Ins(BareSrc(OP_HALT))]
  }

  /** An instruction without label operands. */
  predicate Plain(line: Line) {
    line.Ins? && (line.src.RegRegSrc? || line.src.ImmSrc? || line.src.MemSrc? || line.src.BareSrc?)
  }

  lemma {:induction false} PlainLinesRun(st: State, lines: seq<Line>)
    requires st.sec == SEC_CODE && |st.text| + 10 * |lines| <= BUF_MAX
    requires forall k :: 0 <= k < |lines| ==> Plain(lines[k])
    ensures DoLines(st, lines).Ok? && DoLines(st, lines).v.patches == st.patches
    decreases |lines|
  {
    if lines != [] {
      assert Plain(lines[0]);
      PlainLinesRun(DoLine(st, lines[0]).v, lines[1..]);
    }
  }

  lemma {:induction false} LowersTo(lines: seq<Line>, ins: seq<Instr>, env: TwoPass.Env)
    requires |lines| == |ins|
    requires forall k :: 0 <= k < |lines| ==> lines[k].Ins? && TwoPass.Lower(lines[k].src, env) == ins[k]
    ensures TwoPass.Program(lines, env) == ins
  {
    hide TwoPass.Lower;
    if lines != [] {
      LowersTo(lines[1..], ins[1..], env);
      assert ins == [ins[0]] + ins[1..];
    }
  }

  /** The source assembles to the twelve instructions, and the interpreter's fetch reads them back. */
  lemma SourceAssembles(h: u64, cell: u64)
    ensures Assemble(Source(h, cell)).Ok?
    ensures Assemble(Source(h, cell)).v.text == EncodeAll(Mutex.Program(h, cell))
    ensures DecodeAll(Assemble(Source(h, cell)).v.text, 0) == Some(Mutex.Program(h, cell))
  {
    hide DoLines, EncodeAll, DecodeAll, Source, Mutex.Program, TwoPass.LayoutEnv, TwoPass.Program, WellFormed;
    Assembles(Source(h, cell)) by { SourcePlain(h, cell, TwoPass.LayoutEnv(Source(h, cell))); }
    TwoPass.AssembleRefines(Source(h, cell));
    SourcePlain(h, cell, TwoPass.LayoutEnv(Source(h, cell)));
    LowersTo(Source(h, cell), Mutex.Program(h, cell), TwoPass.LayoutEnv(Source(h, cell)));
  }

  lemma Assembles(lines: seq<Line>)
    requires |lines| == Mutex.LEN && forall k :: 0 <= k < |lines| ==> Plain(lines[k])
    ensures Assemble(lines).Ok?
  {
    PlainLinesRun(Init(), lines);
    hide DoLines;
  }

  /** Line by line. */
  lemma SourcePlain(h: u64, cell: u64, env: TwoPass.Env)
    ensures forall k :: 0 <= k < Mutex.LEN ==>
              && Plain(Source(h, cell)[k])
              && TwoPass.Lower(Source(h, cell)[k].src, env) == Mutex.Program(h, cell)[k]
  {
    var lines, ins := Source(h, cell), Mutex.Program(h, cell);
    forall k | 0 <= k < Mutex.LEN ensures Plain(lines[k]) && TwoPass.Lower(lines[k].src, env) == ins[k] {
      if k < 6 { FirstHalf(h, cell, env, k); } else { SecondHalf(h, cell, env, k); }
    }
  }

  lemma FirstHalf(h: u64, cell: u64, env: TwoPass.Env, k: nat)
    requires k < 6
    ensures Plain(Source(h, cell)[k]) && TwoPass.Lower(Source(h, cell)[k].src, env) == Mutex.Program(h, cell)[k]
  {
  }

  lemma SecondHalf(h: u64, cell: u64, env: TwoPass.Env, k: nat)
    requires 6 <= k < Mutex.LEN
    ensures Plain(Source(h, cell)[k]) && TwoPass.Lower(Source(h, cell)[k].src, env) == Mutex.Program(h, cell)[k]
  {
  }
}
