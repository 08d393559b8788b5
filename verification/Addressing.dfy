/** What the memory operands of source instructions mean once encoded and executed. */
module Addressing {
  import opened Words
  import opened Isa
  import opened Asm
  import opened TwoPass
  import opened Memory
  import Vm

  /** A displacement that fits 32 bits is added as the signed number the source wrote. */
  lemma DisplacementAdds(b: u64, off: int)
    requires 0 - TWO31 <= off < TWO31
    ensures Vm.Address(b, U32(off)) == (b + off) % TWO64
  {
    PowValues();
    if off < 0 {
      assert U32(off) == off + TWO32;
      assert SignExtend(4, U32(off)) == TWO64 + off;
      ModUnique(b + (TWO64 + off), TWO64, (b + off) / TWO64 + 1, (b + off) % TWO64);
    }
  }

  /** A source load or store reaches base plus displacement, in the long form and in the short form for zero,
      with the width and sign of its mnemonic. */
  lemma MemoryOperand(op: MemOp, d: Reg, s: Reg, off: int, env: TwoPass.Env, b: u64)
    requires 0 - TWO31 <= off < TWO31
    ensures var i := Lower(MemSrc(op, d, s, off), env);
            && Vm.IsMemory(op) && Vm.IsMemory(i.op) && i.d == d && i.s == s && i.x < TWO32
            && Vm.AccessOf(i.op) == Vm.AccessOf(op)
            && Vm.Address(b, i.x) == (b + off) % TWO64
  {
    DisplacementAdds(b, off);
    hide Vm.Address;
    if U32(off) == 0 { assert off == 0; }
  }

  /** Every other source instruction keeps its mnemonic and operands: destination and source register, immediate,
      frame size modulo 2^16, the offset of its label, callee before error target. */
  lemma OperandsKept(src: Src, env: TwoPass.Env)
    ensures var i := Lower(src, env);
            match src
            case RegRegSrc(op, d, s) => i.op == op && i.d == d && i.s == s
            case ImmSrc(op, d, v) => i.op == op && i.d == d && i.x == v
            case MemSrc(_, d, s, _) => i.d == d && i.s == s
            case EnterSrc(size) => i.op == OP_ENTER && i.x == size % 65536
            case BareSrc(op) => i.op == op
            case LeaSrc(d, _, off) => i.op == OP_LEA && i.d == d && i.x == off % TWO32
            case MovLabel(d, _) => i.op == OP_MOV_RI && i.d == d
            case JumpSrc(op, n) => i.op == op && i.x == env(n)
            case CallSrc(ok, err) => i.op == OP_CALL && i.x == env(ok) && i.y == env(err)
            case CallrSrc(d, err) => i.op == OP_CALLR && i.d == d && i.x == env(err)
  {
  }

  /** `lea d, [base + off]` as the source means it. */
  ghost predicate LeaMeaning(i: Instr, d: Reg, base: Reg, off: int)
    requires WellFormed(i) && i.op == OP_LEA
  {
    forall r: Vm.Data, m: Mem, e: Vm.Env ::
      Vm.ExecData(i, r, m, e) == Vm.DataOk(r.(gpr := r.gpr[d := Vm.Address(r.gpr[base], U32(off))]), m)
  }

  /** The assembler encodes base 0 whatever the source says, so the encoding is right exactly for base ax. */
  lemma LeaRightIff(d: Reg, base: Reg, off: int, env: TwoPass.Env)
    ensures var i := Lower(LeaSrc(d, base, off), env);
            WellFormed(i) && i.op == OP_LEA && (LeaMeaning(i, d, base, off) <==> base == Vm.REG_AX)
  {
    var i := Lower(LeaSrc(d, base, off), env);
    hide Vm.Address;
    if base != Vm.REG_AX {
      var zeros: Vm.Regs := [0, 0, 0, 0, 0, 0, 0, 0];
      var g := zeros[base := 1];
      var r := Vm.Data(g, 0, 0, 0, zeros);
      AddressInjective(0, 1, U32(off));
      assert g[0] == 0 && g[base] == 1;
      assert Vm.ExecData(i, r, map[], Vm.Env(0, map[])) == Vm.DataOk(r.(gpr := g[d := Vm.Address(0, U32(off))]), map[]);
      assert g[d := Vm.Address(0, U32(off))][d] != g[d := Vm.Address(1, U32(off))][d];
    }
  }

  lemma AddressInjective(a: u64, b: u64, x: nat)
    requires x < TWO32 && a != b
    ensures Vm.Address(a, x) != Vm.Address(b, x)
  {
    PowValues();
    var k := SignExtend(4, x);
    if Add64(a, k) == Add64(b, k) {
      Cancel(a, b, k);
    }
  }

  lemma Cancel(a: u64, b: u64, k: u64)
    requires (a + k) % TWO64 == (b + k) % TWO64
    ensures a == b
  {
    SmallMultiple((a + k) / TWO64 - (b + k) / TWO64, TWO64);
  }
}
