/** Which bytes an instruction stores to. */
module Stores {
  import opened Words
  import opened Isa
  import opened Memory
  import opened Vm

  /** n bytes from address `at`. */
  datatype Range = Range(at: nat, n: nat)

  predicate In(r: Range, a: int) { r.at <= a < r.at + r.n }

  predicate Apart(r: Range, s: Range) { r.at + r.n <= s.at || s.at + s.n <= r.at }

  /** The bytes a thread's own instruction writes, from its registers; none for a system call, whose writes
      come from outside, or for an instruction that only loads. */
  function StoreOf(i: Instr, d: Data): Option<Range>
    requires WellFormed(i)
  {
    if IsMemory(i.op) && AccessOf(i.op).store then Some(Range(Address(d.gpr[i.d], i.x), AccessOf(i.op).n))
    else if i.op == OP_PUSH || i.op == OP_ENTER then Some(Range(Sub64(d.sp, 8), 8))
    else if i.op == OP_FMOV_MR then Some(Range(d.gpr[i.d], 8))
    else None
  }

  /** Same mapped bytes, and the same values outside r. */
  ghost predicate SameOutside(m: Mem, m': Mem, r: Option<Range>) {
    && m'.Keys == m.Keys
    && forall a :: a in m && (r.Some? ==> !In(r.value, a)) ==> m'[a] == m[a]
  }

  lemma StoreMisses(m: Mem, a: nat, n: nat, v: nat)
    requires Store(m, a, n, v).Some?
    ensures SameOutside(m, Store(m, a, n, v).value, Some(Range(a, n)))
  {
    StoreDefined(m, a, n, v);
  }

  lemma PushMisses(d: Data, m: Mem, v: u64)
    requires PushWord(d, m, v).DataOk?
    ensures SameOutside(m, PushWord(d, m, v).m, Some(Range(Sub64(d.sp, 8), 8)))
  {
    hide Store;
    StoreMisses(m, Sub64(d.sp, 8), 8, v);
  }

  /** An instruction other than a system call changes memory only where StoreOf says. */
  lemma StoreFrame(i: Instr, d: Data, m: Mem, e: Env)
    requires WellFormed(i) && !IsControl(i.op) && i.op != OP_SYSCALL && ExecData(i, d, m, e).DataOk?
    ensures SameOutside(m, ExecData(i, d, m, e).m, StoreOf(i, d))
  {
    hide Store, Load, SameOutside, Address, Alu, CmpFlags, And64, LoadReg, PushWord;
    Unchanged(m);
    if IsMemory(i.op) {
      MemoryFrame(i, d, m);
    } else if i.op == OP_PUSH {
      PushMisses(d, m, d.gpr[i.d]);
    } else if i.op == OP_ENTER {
      PushMisses(d, m, d.bp);
    } else if i.op == OP_FMOV_MR {
      StoreMisses(m, d.gpr[i.d], 8, d.fp[i.s]);
    }
  }

  lemma Unchanged(m: Mem)
    ensures forall r :: SameOutside(m, m, r)
  {
  }

  lemma MemoryFrame(i: Instr, d: Data, m: Mem)
    requires WellFormed(i) && IsMemory(i.op) && ExecMemory(i, d, m).DataOk?
    ensures SameOutside(m, ExecMemory(i, d, m).m, if AccessOf(i.op).store then StoreOf(i, d) else None)
  {
    hide Store, Load, SameOutside, Address, LoadReg, AccessOf;
    Unchanged(m);
    if AccessOf(i.op).store {
      StoreMisses(m, Address(d.gpr[i.d], i.x), AccessOf(i.op).n, d.gpr[i.s]);
    }
  }

  /** A load from bytes that were not written. */
  lemma LoadOutside(m: Mem, m': Mem, r: Option<Range>, a: nat, n: nat)
    requires SameOutside(m, m', r) && (r.Some? ==> Apart(r.value, Range(a, n)))
    ensures Load(m', a, n) == Load(m, a, n)
  {
    LoadFrame(m, m', a, n);
  }
}
