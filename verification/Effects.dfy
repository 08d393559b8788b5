/** What each instruction does, stated on one step of the interpreter and on numbers, bits and bytes alone. */
module Effects {
  import opened Words
  import opened Isa
  import opened Memory
  import opened Vm
  import opened Stores
  import X86

  /** Dispatch falls through to `next` with these registers and memory. */
  ghost predicate Gives(c: Image, t: Thread, m: Mem, e: Env, next: nat, d: Data, m': Mem) {
    c.base + next < TWO64 && Step(c, t, m, e) == Running(t.(ip := c.base + next, data := d), m')
  }

  /** Register r becomes v and nothing else changes. */
  ghost predicate Sets(c: Image, t: Thread, m: Mem, e: Env, next: nat, r: Reg, v: u64) {
    Gives(c, t, m, e, next, t.data.(gpr := t.data.gpr[r := v]), m)
  }

  lemma Dispatched(c: Image, t: Thread, m: Mem, e: Env, i: Instr, next: nat)
    requires Fetch(c, t.ip) == Decoded(i, next)
    ensures WellFormed(i) && next <= |c.code| && c.base + next < TWO64
    ensures Step(c, t, m, e) == Exec(c, i, next, t, m, e)
  {
    hide Fetch, Exec;
    var f := Fetch(c, t.ip);
  }

  lemma Computes(c: Image, t: Thread, m: Mem, e: Env, i: Instr, next: nat, d: Data, m': Mem)
    requires Fetch(c, t.ip) == Decoded(i, next) && !IsControl(i.op)
    requires WellFormed(i) ==> ExecData(i, t.data, m, e) == DataOk(d, m')
    ensures Gives(c, t, m, e, next, d, m')
  {
    hide Fetch, ExecData;
    Dispatched(c, t, m, e, i, next);
  }

  lemma Faults(c: Image, t: Thread, m: Mem, e: Env, i: Instr, next: nat, w: Fault)
    requires Fetch(c, t.ip) == Decoded(i, next) && !IsControl(i.op)
    requires WellFormed(i) ==> ExecData(i, t.data, m, e) == DataFault(w)
    ensures Step(c, t, m, e) == Faulted(w)
  {
    hide Fetch, ExecData;
    Dispatched(c, t, m, e, i, next);
  }

  /** An arithmetic instruction with a result. */
  lemma AluSets(c: Image, t: Thread, m: Mem, e: Env, i: Instr, next: nat, v: u64)
    requires Fetch(c, t.ip) == Decoded(i, next) && IsAlu(i.op)
    requires Alu(i.op, t.data.gpr[i.d], t.data.gpr[i.s]) == Value(v)
    ensures Sets(c, t, m, e, next, i.d, v)
  {
    hide Fetch, Alu;
    Computes(c, t, m, e, i, next, t.data.(gpr := t.data.gpr[i.d := v]), m);
  }

  // ----- arithmetic -----------------------------------------------------------------------------------

  /** Moves, sums and products, modulo 2^64; the product is the signed one too. */
  lemma Arithmetic(c: Image, t: Thread, m: Mem, e: Env, i: Instr, next: nat)
    requires Fetch(c, t.ip) == Decoded(i, next)
    ensures var a, b := t.data.gpr[i.d], t.data.gpr[i.s];
            && (i.op == OP_MOV_RR ==> Sets(c, t, m, e, next, i.d, b))
            && (i.op == OP_MOV_RI ==> i.x < TWO64 && Sets(c, t, m, e, next, i.d, i.x))
            && (i.op == OP_ADD ==> Sets(c, t, m, e, next, i.d, (a + b) % TWO64))
            && (i.op == OP_SUB ==> Sets(c, t, m, e, next, i.d, (a - b) % TWO64))
            && (i.op == OP_NEG ==> Sets(c, t, m, e, next, i.d, (0 - a) % TWO64))
            && (i.op == OP_MUL ==> Sets(c, t, m, e, next, i.d, a * b % TWO64))
            && (i.op == OP_IMUL ==> Sets(c, t, m, e, next, i.d, Signed64(a) * Signed64(b) % TWO64))
  {
    hide Fetch, Sets, Signed64;
    var a, b := t.data.gpr[i.d], t.data.gpr[i.s];
    Dispatched(c, t, m, e, i, next);
    if i.op == OP_MOV_RI {
      MoveImmediate(c, t, m, e, i, next);
    } else if i.op in {OP_MOV_RR, OP_ADD, OP_SUB, OP_NEG, OP_MUL, OP_IMUL} {
      X86.ImulIsMul(a, b);
      AluSets(c, t, m, e, i, next, Alu(i.op, a, b).v);
    }
  }

  lemma MoveImmediate(c: Image, t: Thread, m: Mem, e: Env, i: Instr, next: nat)
    requires Fetch(c, t.ip) == Decoded(i, next) && i.op == OP_MOV_RI
    ensures i.x < TWO64 && Sets(c, t, m, e, next, i.d, i.x)
  {
    hide Fetch;
    Dispatched(c, t, m, e, i, next);
    Computes(c, t, m, e, i, next, t.data.(gpr := t.data.gpr[i.d := i.x]), m);
  }

  /** Unsigned division: quotient and remainder of the same division; a zero divisor faults. */
  lemma Division(c: Image, t: Thread, m: Mem, e: Env, i: Instr, next: nat) returns (q: u64, r: u64)
    requires Fetch(c, t.ip) == Decoded(i, next) && i.op in {OP_DIV, OP_MOD}
    ensures t.data.gpr[i.s] == 0 ==>
              Step(c, t, m, e) == Faulted(if i.op == OP_DIV then DivideByZero else DivideUndefined)
    ensures t.data.gpr[i.s] != 0 ==>
              && t.data.gpr[i.d] == q * t.data.gpr[i.s] + r && r < t.data.gpr[i.s]
              && Sets(c, t, m, e, next, i.d, if i.op == OP_DIV then q else r)
  {
    hide Fetch, Sets;
    var a, b := t.data.gpr[i.d], t.data.gpr[i.s];
    if b == 0 {
      q, r := 0, 0;
      Faults(c, t, m, e, i, next, if i.op == OP_DIV then DivideByZero else DivideUndefined);
    } else {
      q, r := UDiv(a, b), UMod(a, b);
      AluSets(c, t, m, e, i, next, if i.op == OP_DIV then q else r);
    }
  }

  /** The quotient rounded toward zero and its remainder. */
  ghost predicate Truncated(a: int, b: int, q: int, r: int) {
    && a == q * b + r
    && (a >= 0 ==> 0 <= r) && (a < 0 ==> r <= 0)
    && (b > 0 ==> 0 - b < r < b) && (b < 0 ==> b < r < 0 - b)
  }

  lemma TruncDivIs(a: int, b: int)
    requires b != 0
    ensures Truncated(a, b, TruncDiv(a, b), a - TruncDiv(a, b) * b)
  {
  }

  /** Signed division rounds toward zero; it faults for a zero divisor and for the one quotient out of range. */
  lemma SignedDivision(c: Image, t: Thread, m: Mem, e: Env, i: Instr, next: nat) returns (v: u64, r: int)
    requires Fetch(c, t.ip) == Decoded(i, next) && i.op == OP_IDIV
    ensures var a, b := Signed64(t.data.gpr[i.d]), Signed64(t.data.gpr[i.s]);
            && (b == 0 ==> Step(c, t, m, e) == Faulted(DivideByZero))
            && (b == -1 && a == 0 - TWO63 ==> Step(c, t, m, e) == Faulted(DivideUndefined))
            && (b != 0 && !(b == -1 && a == 0 - TWO63) ==>
                  Truncated(a, b, Signed64(v), r) && Sets(c, t, m, e, next, i.d, v))
  {
    hide Fetch, Sets, TruncDiv, Truncated;
    var x, y := t.data.gpr[i.d], t.data.gpr[i.s];
    var a, b := Signed64(x), Signed64(y);
    v, r := 0, 0;
    if b == 0 {
      Faults(c, t, m, e, i, next, DivideByZero);
    } else if b == -1 && a == 0 - TWO63 {
      Faults(c, t, m, e, i, next, DivideUndefined);
    } else {
      v, r := TruncDiv(a, b) % TWO64, a - TruncDiv(a, b) * b;
      TruncDivIs(a, b);
      TruncDivRange(a, b);
      AluSets(c, t, m, e, i, next, v);
    }
  }

  lemma TruncDivRange(a: int, b: int)
    requires 0 - TWO63 <= a < TWO63 && b != 0 && !(b == -1 && a == 0 - TWO63)
    ensures Signed64(TruncDiv(a, b) % TWO64) == TruncDiv(a, b)
  {
    QuotientBound(if a >= 0 then a else 0 - a, b);
  }

  /** A quotient is no larger than its dividend, and equal in size only for divisors 1 and -1. */
  lemma QuotientBound(n: nat, b: int)
    requires b != 0
    ensures 0 - n <= n / b <= n
    ensures n / b == 0 - n ==> n == 0 || b == -1
  {
    var q := n / b;
    assert n == q * b + n % b;
    if b > 0 {
      if q > n { MulGe(b, q); }
      if q < 0 { MulGe(0 - q, b); }
    } else {
      var p, c := 0 - q, 0 - b;
      assert q * b == p * c;
      if p > n { MulGe(c, p); }
      if p < 0 { MulGe(0 - p, c); }
      if p == n && c >= 2 { MulGe(c - 1, n); }
    }
  }

  // ----- bits ---------------------------------------------------------------------------------------------

  /** Bit k of a word. */
  predicate IsSet(a: nat, k: nat) { a / Pow2(k) % 2 == 1 }

  lemma {:induction false} BitOfBitwise(op: BitOp, n: nat, a: nat, b: nat, k: nat)
    requires k < n
    ensures IsSet(Bitwise(op, n, a, b), k) ==
              match op
              case BAnd => IsSet(a, k) && IsSet(b, k)
              case BOr => IsSet(a, k) || IsSet(b, k)
              case BXor => IsSet(a, k) != IsSet(b, k)
  {
    hide IsSet;
    var r := Bitwise(op, n, a, b);
    LowBit(op, n, a, b);
    if k > 0 {
      BitOfBitwise(op, n - 1, a / 2, b / 2, k - 1);
      BitBelow(r, k);
      BitBelow(a, k);
      BitBelow(b, k);
    }
  }

  lemma LowBit(op: BitOp, n: nat, a: nat, b: nat)
    requires n > 0
    ensures Bitwise(op, n, a, b) / 2 == Bitwise(op, n - 1, a / 2, b / 2)
    ensures IsSet(Bitwise(op, n, a, b), 0) ==
              match op
              case BAnd => IsSet(a, 0) && IsSet(b, 0)
              case BOr => IsSet(a, 0) || IsSet(b, 0)
              case BXor => IsSet(a, 0) != IsSet(b, 0)
  {
    assert Pow2(0) == 1;
  }

  lemma BitBelow(a: nat, k: nat)
    requires k > 0
    ensures IsSet(a, k) == IsSet(a / 2, k - 1)
  {
    X86.DivTwice2(a, Pow2(k - 1));
  }

  /** The bitwise operators, bit by bit. */
  lemma BitByBit(c: Image, t: Thread, m: Mem, e: Env, i: Instr, next: nat) returns (v: u64)
    requires Fetch(c, t.ip) == Decoded(i, next) && i.op in {OP_AND, OP_OR, OP_XOR, OP_NOT}
    ensures Sets(c, t, m, e, next, i.d, v)
    ensures var a, b := t.data.gpr[i.d], t.data.gpr[i.s];
            && (i.op == OP_AND ==> forall k: nat :: k < 64 ==> (IsSet(v, k) <==> IsSet(a, k) && IsSet(b, k)))
            && (i.op == OP_OR ==> forall k: nat :: k < 64 ==> (IsSet(v, k) <==> IsSet(a, k) || IsSet(b, k)))
            && (i.op == OP_XOR ==> forall k: nat :: k < 64 ==> (IsSet(v, k) <==> IsSet(a, k) != IsSet(b, k)))
            && (i.op == OP_NOT ==> v == TWO64 - 1 - a)
  {
    hide Fetch, Sets, Bits64, IsSet;
    var a, b := t.data.gpr[i.d], t.data.gpr[i.s];
    v := Alu(i.op, a, b).v;
    AluSets(c, t, m, e, i, next, v);
    BitsOf(a, b);
  }

  lemma BitsOf(a: u64, b: u64)
    ensures forall k: nat :: k < 64 ==> (IsSet(And64(a, b), k) <==> IsSet(a, k) && IsSet(b, k))
    ensures forall k: nat :: k < 64 ==> (IsSet(Or64(a, b), k) <==> IsSet(a, k) || IsSet(b, k))
    ensures forall k: nat :: k < 64 ==> (IsSet(Xor64(a, b), k) <==> IsSet(a, k) != IsSet(b, k))
  {
    hide Bitwise, IsSet;
    forall k: nat | k < 64 ensures IsSet(And64(a, b), k) <==> IsSet(a, k) && IsSet(b, k) {
      BitOfBitwise(BAnd, 64, a, b, k);
    }
    forall k: nat | k < 64 ensures IsSet(Or64(a, b), k) <==> IsSet(a, k) || IsSet(b, k) {
      BitOfBitwise(BOr, 64, a, b, k);
    }
    forall k: nat | k < 64 ensures IsSet(Xor64(a, b), k) <==> IsSet(a, k) != IsSet(b, k) {
      BitOfBitwise(BXor, 64, a, b, k);
    }
  }

  /** Shifts by the low six bits of the source, and truncations, as multiplications and divisions. */
  lemma ShiftsAndTruncations(c: Image, t: Thread, m: Mem, e: Env, i: Instr, next: nat) returns (v: u64)
    requires Fetch(c, t.ip) == Decoded(i, next)
    requires i.op in {OP_SHL, OP_SHR, OP_SAR, OP_TRUNC8, OP_TRUNC16, OP_TRUNC32}
    ensures Sets(c, t, m, e, next, i.d, v)
    ensures var a, p := t.data.gpr[i.d], Pow2(t.data.gpr[i.s] % 64);
            && (i.op == OP_SHL ==> v == a * p % TWO64)
            && (i.op == OP_SHR ==> v == a / p)
            && (i.op == OP_SAR ==> Signed64(v) == Signed64(a) / p)
            && (i.op == OP_TRUNC8 ==> v == a % 256)
            && (i.op == OP_TRUNC16 ==> v == a % 65536)
            && (i.op == OP_TRUNC32 ==> v == a % TWO32)
  {
    hide Fetch, Sets, Pow2;
    var a, b := t.data.gpr[i.d], t.data.gpr[i.s];
    v := Alu(i.op, a, b).v;
    AluSets(c, t, m, e, i, next, v);
    X86.SignedRange(Signed64(a), Pow2(b % 64));
    X86.SignedMod(Signed64(a) / Pow2(b % 64));
  }

  // ----- comparisons and jumps --------------------------------------------------------------------------------

  /** The condition in the name of a jump, on two numbers. */
  predicate Holds(op: Op, a: int, b: int) {
    if op == OP_JE then a == b
    else if op == OP_JNE then a != b
    else if op == OP_JL then a < b
    else if op == OP_JLE then a <= b
    else if op == OP_JG then a > b
    else if op == OP_JGE then a >= b
    else op == OP_JMP
  }

  /** After CMP a jump is taken if and only if its condition holds of the two signed words, and CMP changes
      nothing but the flags. */
  lemma CompareThenJump(
      c: Image, t: Thread, m: Mem, e: Env, i: Instr, next: nat, j: Instr, after: nat, m2: Mem, e2: Env)
      returns (fl: u64)
    requires Fetch(c, t.ip) == Decoded(i, next) && i.op == OP_CMP && c.base + next < TWO64
    requires Fetch(c, c.base + next) == Decoded(j, after) && OP_JMP <= j.op <= OP_JGE
    ensures Gives(c, t, m, e, next, t.data.(fl := fl), m)
    ensures var a, b := Signed64(t.data.gpr[i.d]), Signed64(t.data.gpr[i.s]);
            var t2 := t.(ip := c.base + next, data := t.data.(fl := fl));
            && j.x < TWO32 && c.base + after < TWO64
            && Step(c, t2, m2, e2) == Running(t2.(ip := c.base + if Holds(j.op, a, b) then j.x else after), m2)
  {
    hide Fetch, And64, Xor64, Step;
    Dispatched(c, t, m, e, i, next);
    fl := CmpFlags(t.data.gpr[i.d], t.data.gpr[i.s]);
    Computes(c, t, m, e, i, next, t.data.(fl := fl), m);
    JumpStep(c, t.(ip := c.base + next, data := t.data.(fl := fl)), m2, e2, j, after);
  }

  /** The top bit of a word. */
  lemma TopBit(a: u64)
    ensures IsSet(a, 63) <==> a >= TWO63
  {
    Pow2Values();
    assert Pow2(64) == 2 * Pow2(63);
  }

  /** The four flags of CMP: equal, less as signed words, less as unsigned words, and the difference of the signed words
      out of range. */
  lemma CompareFlags(c: Image, t: Thread, m: Mem, e: Env, i: Instr, next: nat)
    requires Fetch(c, t.ip) == Decoded(i, next) && i.op == OP_CMP
    ensures var a, b := t.data.gpr[i.d], t.data.gpr[i.s];
            var d := Signed64(a) - Signed64(b);
            var fl := (if a == b then 1 else 0) + (if Signed64(a) < Signed64(b) then 2 else 0)
                      + (if a < b then 4 else 0) + (if 0 - TWO63 <= d < TWO63 then 0 else 8);
            Gives(c, t, m, e, next, t.data.(fl := fl), m)
  {
    hide Fetch, Bitwise, IsSet;
    Dispatched(c, t, m, e, i, next);
    var a, b := t.data.gpr[i.d], t.data.gpr[i.s];
    Overflows(a, b);
    Computes(c, t, m, e, i, next, t.data.(fl := CmpFlags(a, b)), m);
  }

  lemma Overflows(a: u64, b: u64)
    ensures And64(Xor64(a, b), Xor64(a, Sub64(a, b))) >= TWO63 <==> !(0 - TWO63 <= Signed64(a) - Signed64(b) < TWO63)
  {
    hide Bitwise, IsSet;
    var r := Sub64(a, b);
    BitOfBitwise(BAnd, 64, Xor64(a, b), Xor64(a, r), 63);
    BitOfBitwise(BXor, 64, a, b, 63);
    BitOfBitwise(BXor, 64, a, r, 63);
    TopBit(And64(Xor64(a, b), Xor64(a, r)));
    TopBit(a);
    TopBit(b);
    TopBit(r);
  }

  /** A jump by the two flags it reads. */
  lemma JumpStep(c: Image, t: Thread, m: Mem, e: Env, j: Instr, after: nat)
    requires Fetch(c, t.ip) == Decoded(j, after) && OP_JMP <= j.op <= OP_JGE
    ensures j.x < TWO32 && c.base + after < TWO64
    ensures Step(c, t, m, e) == Running(t.(ip := c.base + if Taken(j.op, t.data.fl) then j.x else after), m)
  {
    hide Fetch, Taken;
    Dispatched(c, t, m, e, j, after);
  }

  /** After TEST of two words whose bitwise and is v, the jumps see v compared with 0 as unsigned: JE is taken
      if and only if no bit is in both. */
  lemma TestThenJump(
      c: Image, t: Thread, m: Mem, e: Env, i: Instr, next: nat, j: Instr, after: nat, m2: Mem, e2: Env)
      returns (fl: u64)
    requires Fetch(c, t.ip) == Decoded(i, next) && i.op == OP_TEST && c.base + next < TWO64
    requires Fetch(c, c.base + next) == Decoded(j, after) && OP_JMP <= j.op <= OP_JGE
    ensures Gives(c, t, m, e, next, t.data.(fl := fl), m)
    ensures var none := forall k: nat :: k < 64 ==> !(IsSet(t.data.gpr[i.d], k) && IsSet(t.data.gpr[i.s], k));
            var t2 := t.(ip := c.base + next, data := t.data.(fl := fl));
            && j.x < TWO32 && c.base + after < TWO64
            && Step(c, t2, m2, e2)
               == Running(t2.(ip := c.base + if Holds(j.op, if none then 0 else 1, 0) then j.x else after), m2)
  {
    hide Fetch, And64, Step, IsSet;
    var a, b := t.data.gpr[i.d], t.data.gpr[i.s];
    Dispatched(c, t, m, e, i, next);
    fl := if And64(a, b) != 0 then 0 else FL_ZF;
    Computes(c, t, m, e, i, next, t.data.(fl := fl), m);
    JumpStep(c, t.(ip := c.base + next, data := t.data.(fl := fl)), m2, e2, j, after);
    AndIsZero(a, b);
  }

  lemma AndIsZero(a: u64, b: u64)
    ensures And64(a, b) == 0 <==> forall k: nat :: k < 64 ==> !(IsSet(a, k) && IsSet(b, k))
  {
    hide Bitwise, IsSet;
    BitsOf(a, b);
    Pow2Values();
    NoBits(And64(a, b), 64);
  }

  lemma {:induction false} NoBits(a: nat, n: nat)
    requires a < Pow2(n)
    ensures a == 0 <==> forall k: nat :: k < n ==> !IsSet(a, k)
  {
    if a == 0 {
      forall k: nat | k < n ensures !IsSet(a, k) { ZeroBit(k); }
    } else {
      if n == 1 {
        assert Pow2(1) == 2 * Pow2(0) && IsSet(1, 0);
      } else if a % 2 == 1 {
        assert Pow2(0) == 1 && IsSet(a, 0);
      } else {
        NoBits(a / 2, n - 1);
        var k: nat :| k < n - 1 && IsSet(a / 2, k);
        BitBelow(a, k + 1);
      }
    }
  }

  lemma ZeroBit(k: nat)
    ensures !IsSet(0, k)
  {
  }

  // ----- memory -------------------------------------------------------------------------------------------------

  /** n bytes at a become the low bytes of v, least significant first, and nothing else changes. */
  ghost predicate Writes(m: Mem, m': Mem, a: nat, n: nat, v: u64) {
    && SameOutside(m, m', Some(Range(a, n))) && Mapped(m, a, n)
    && FromLe(Bytes(m', a, n)) == v % Pow256(n)
  }

  lemma StoreWrites(m: Mem, a: nat, n: nat, v: u64)
    ensures Store(m, a, n, v).Some? <==> Mapped(m, a, n)
    ensures Store(m, a, n, v).Some? ==> Writes(m, Store(m, a, n, v).value, a, n, v)
  {
    hide Load, Store;
    StoreDefined(m, a, n, v);
    if Mapped(m, a, n) {
      var m' := Store(m, a, n, v).value;
      StoreMisses(m, a, n, v);
      LoadAfterStore(m, a, n, v);
      LoadIsLe(m', a, n);
    }
  }

  /** Base register plus the displacement as a signed number. */
  function Reached(b: u64, x: nat): u64
    requires x < TWO32
  {
    (b + if x < TWO31 then x else x - TWO32) % TWO64
  }

  lemma AddressReached(b: u64, x: nat)
    requires x < TWO32
    ensures Address(b, x) == Reached(b, x)
  {
    PowValues();
    if x >= TWO31 {
      ModUnique(b + (TWO64 + (x - TWO32)), TWO64, (b + (x - TWO32)) / TWO64 + 1, (b + (x - TWO32)) % TWO64);
    }
  }

  predicate ZeroExtends(op: Op, n: nat) {
    || (n == 8 && op in {OP_MOV_RM, OP_MOV_RM_OFF})
    || (n == 1 && op in {OP_MOVZX_RM8, OP_MOVZX_RM8_OFF})
    || (n == 2 && op in {OP_MOVZX_RM16, OP_MOVZX_RM16_OFF})
    || (n == 4 && op in {OP_MOVZX_RM32, OP_MOVZX_RM32_OFF})
  }

  predicate SignExtends(op: Op, n: nat) {
    || (n == 1 && op in {OP_MOVSX_RM8, OP_MOVSX_RM8_OFF})
    || (n == 2 && op in {OP_MOVSX_RM16, OP_MOVSX_RM16_OFF})
    || (n == 4 && op in {OP_MOVSX_RM32, OP_MOVSX_RM32_OFF})
  }

  predicate Truncates(op: Op, n: nat) {
    || (n == 8 && op in {OP_MOV_MR, OP_MOV_MR_OFF})
    || (n == 1 && op in {OP_MOV_MR8, OP_MOV_MR8_OFF})
    || (n == 2 && op in {OP_MOV_MR16, OP_MOV_MR16_OFF})
    || (n == 4 && op in {OP_MOV_MR32, OP_MOV_MR32_OFF})
  }

  lemma LoadedValue(m: Mem, a: u64, k: Access)
    requires k.n in {1, 2, 4, 8} && (k.signed ==> k.n in {1, 2, 4})
    ensures LoadReg(m, a, k).Some? <==> Mapped(m, a, k.n)
    ensures var u := FromLe(Bytes(m, a, k.n));
            LoadReg(m, a, k).Some? ==>
              && (!k.signed ==> LoadReg(m, a, k).value == u)
              && (k.signed ==>
                    Signed64(LoadReg(m, a, k).value) == if u < Pow256(k.n) / 2 then u else u - Pow256(k.n))
  {
    hide Load, Bytes, FromLe;
    PowValues();
    LoadDefined(m, a, k.n);
    if Mapped(m, a, k.n) { LoadIsLe(m, a, k.n); }
  }

  lemma LoadAccess(op: Op, n: nat)
    requires ZeroExtends(op, n) || SignExtends(op, n)
    ensures IsMemory(op) && !IsControl(op) && !IsAlu(op) && op !in {OP_MOV_RI, OP_CMP, OP_TEST}
    ensures AccessOf(op) == Access(false, n, SignExtends(op, n)) && (SignExtends(op, n) <==> !ZeroExtends(op, n))
    ensures n in {1, 2, 4, 8} && (SignExtends(op, n) ==> n in {1, 2, 4}) && ShapeOf(op) in {RegReg, RegReg32}
  {
  }

  /** A load of n bytes: the little-endian number there, as it is or read as a signed one of n bytes. */
  lemma LoadStep(c: Image, t: Thread, m: Mem, e: Env, i: Instr, next: nat, n: nat) returns (v: u64)
    requires Fetch(c, t.ip) == Decoded(i, next) && (ZeroExtends(i.op, n) || SignExtends(i.op, n))
    ensures i.x < TWO32
    ensures var a := Reached(t.data.gpr[i.s], i.x);
            var u := FromLe(Bytes(m, a, n));
            && (!Mapped(m, a, n) ==> Step(c, t, m, e) == Faulted(BadAccess))
            && (Mapped(m, a, n) ==> Sets(c, t, m, e, next, i.d, v))
            && (Mapped(m, a, n) && ZeroExtends(i.op, n) ==> v == u)
            && (Mapped(m, a, n) && SignExtends(i.op, n) ==>
                  Signed64(v) == if u < Pow256(n) / 2 then u else u - Pow256(n))
  {
    hide Fetch, Load, Bytes, FromLe, Address, LoadReg, Signed64, Mapped, AccessOf, ZeroExtends, SignExtends;
    Dispatched(c, t, m, e, i, next);
    LoadAccess(i.op, n);
    AddressReached(t.data.gpr[i.s], i.x);
    var a := Reached(t.data.gpr[i.s], i.x);
    hide Reached;
    LoadedValue(m, a, Access(false, n, SignExtends(i.op, n)));
    v := 0;
    if Mapped(m, a, n) {
      v := LoadReg(m, a, Access(false, n, SignExtends(i.op, n))).value;
      Computes(c, t, m, e, i, next, t.data.(gpr := t.data.gpr[i.d := v]), m);
    } else {
      Faults(c, t, m, e, i, next, BadAccess);
    }
  }

  /** A store of the low n bytes of the source. */
  lemma StoreStep(c: Image, t: Thread, m: Mem, e: Env, i: Instr, next: nat, n: nat) returns (m': Mem)
    requires Fetch(c, t.ip) == Decoded(i, next) && Truncates(i.op, n)
    ensures i.x < TWO32
    ensures var a := Reached(t.data.gpr[i.d], i.x);
            && (!Mapped(m, a, n) ==> Step(c, t, m, e) == Faulted(BadAccess))
            && (Mapped(m, a, n) ==> Gives(c, t, m, e, next, t.data, m') && Writes(m, m', a, n, t.data.gpr[i.s]))
  {
    hide Fetch, Store, Writes, Address;
    Dispatched(c, t, m, e, i, next);
    AddressReached(t.data.gpr[i.d], i.x);
    var a := Reached(t.data.gpr[i.d], i.x);
    hide Reached;
    StoreWrites(m, a, n, t.data.gpr[i.s]);
    m' := m;
    if Mapped(m, a, n) {
      m' := Store(m, a, n, t.data.gpr[i.s]).value;
      Computes(c, t, m, e, i, next, t.data, m');
    } else {
      Faults(c, t, m, e, i, next, BadAccess);
    }
  }

  /** LEA computes the address a load would reach. */
  lemma LeaStep(c: Image, t: Thread, m: Mem, e: Env, i: Instr, next: nat)
    requires Fetch(c, t.ip) == Decoded(i, next) && i.op == OP_LEA
    ensures i.x < TWO32 && Sets(c, t, m, e, next, i.d, Reached(t.data.gpr[i.s], i.x))
  {
    hide Fetch, Address, Reached;
    Dispatched(c, t, m, e, i, next);
    AddressReached(t.data.gpr[i.s], i.x);
    Computes(c, t, m, e, i, next, t.data.(gpr := t.data.gpr[i.d := Reached(t.data.gpr[i.s], i.x)]), m);
  }

  // ----- the data stack -------------------------------------------------------------------------------------------

  /** PUSH and ENTER store a word below sp; ENTER stores bp, points bp at it and leaves room for its operand. */
  lemma PushStep(c: Image, t: Thread, m: Mem, e: Env, i: Instr, next: nat) returns (m': Mem)
    requires Fetch(c, t.ip) == Decoded(i, next) && i.op in {OP_PUSH, OP_ENTER}
    ensures var a := (t.data.sp - 8) % TWO64;
            && (!Mapped(m, a, 8) ==> Step(c, t, m, e) == Faulted(BadAccess))
            && (Mapped(m, a, 8) && i.op == OP_PUSH ==>
                  Gives(c, t, m, e, next, t.data.(sp := a), m') && Writes(m, m', a, 8, t.data.gpr[i.d]))
            && (Mapped(m, a, 8) && i.op == OP_ENTER ==>
                  && Gives(c, t, m, e, next, t.data.(sp := (a - i.x) % TWO64, bp := a), m')
                  && Writes(m, m', a, 8, t.data.bp))
  {
    hide Fetch, Store, Writes;
    Dispatched(c, t, m, e, i, next);
    var a := Sub64(t.data.sp, 8);
    var v := if i.op == OP_PUSH then t.data.gpr[i.d] else t.data.bp;
    StoreWrites(m, a, 8, v);
    m' := m;
    if Mapped(m, a, 8) {
      m' := Store(m, a, 8, v).value;
      var d' := if i.op == OP_PUSH then t.data.(sp := a) else t.data.(sp := (a - i.x) % TWO64, bp := a);
      Computes(c, t, m, e, i, next, d', m');
    } else {
      Faults(c, t, m, e, i, next, BadAccess);
    }
  }

  /** POP reads the word at sp and drops it; LEAVE reads the word at bp into bp and sets sp right above it. */
  lemma PopStep(c: Image, t: Thread, m: Mem, e: Env, i: Instr, next: nat) returns (v: u64)
    requires Fetch(c, t.ip) == Decoded(i, next) && i.op in {OP_POP, OP_LEAVE}
    ensures var a := if i.op == OP_POP then t.data.sp else t.data.bp;
            && (!Mapped(m, a, 8) ==> Step(c, t, m, e) == Faulted(BadAccess))
            && (Mapped(m, a, 8) ==> v == FromLe(Bytes(m, a, 8)))
            && (Mapped(m, a, 8) && i.op == OP_POP ==>
                  Gives(c, t, m, e, next, t.data.(gpr := t.data.gpr[i.d := v], sp := (a + 8) % TWO64), m))
            && (Mapped(m, a, 8) && i.op == OP_LEAVE ==>
                  Gives(c, t, m, e, next, t.data.(bp := v, sp := (a + 8) % TWO64), m))
  {
    hide Fetch, Load, Bytes, FromLe;
    Dispatched(c, t, m, e, i, next);
    var a := if i.op == OP_POP then t.data.sp else t.data.bp;
    LoadDefined(m, a, 8);
    PowValues();
    v := 0;
    if Mapped(m, a, 8) {
      LoadIsLe(m, a, 8);
      v := FromLe(Bytes(m, a, 8));
      var d' := if i.op == OP_POP then t.data.(gpr := t.data.gpr[i.d := v], sp := (a + 8) % TWO64)
                else t.data.(bp := v, sp := (a + 8) % TWO64);
      Computes(c, t, m, e, i, next, d', m);
    } else {
      Faults(c, t, m, e, i, next, BadAccess);
    }
  }

  /** ALLOCA lowers sp by the least multiple of 8 that holds ax bytes, and returns it in ax; a size that close
      to 2^64 that rounding wraps takes nothing. */
  lemma AllocaStep(c: Image, t: Thread, m: Mem, e: Env, i: Instr, next: nat) returns (room: nat)
    requires Fetch(c, t.ip) == Decoded(i, next) && i.op == OP_ALLOCA
    ensures room % 8 == 0
    ensures var ax := t.data.gpr[0]; if ax <= TWO64 - 8 then ax <= room < ax + 8 else room == 0
    ensures var sp := (t.data.sp - room) % TWO64;
            Gives(c, t, m, e, next, t.data.(sp := sp, gpr := t.data.gpr[0 := sp]), m)
  {
    hide Fetch;
    Dispatched(c, t, m, e, i, next);
    room := RoundUp8(t.data.gpr[0]);
    var sp := (t.data.sp - room) % TWO64;
    Computes(c, t, m, e, i, next, t.data.(sp := sp, gpr := t.data.gpr[0 := sp]), m);
  }

  // ----- floating-point moves, results from outside, the end ------------------------------------------------------

  /** Moves of raw floating-point words. */
  lemma FloatMoves(c: Image, t: Thread, m: Mem, e: Env, i: Instr, next: nat) returns (m': Mem)
    requires Fetch(c, t.ip) == Decoded(i, next) && i.op in {OP_FMOV_RR, OP_FMOV_RI, OP_FMOV_RM, OP_FMOV_MR}
    ensures var a := if i.op == OP_FMOV_RM then t.data.gpr[i.s] else t.data.gpr[i.d];
            && (i.op == OP_FMOV_RR ==> Gives(c, t, m, e, next, t.data.(fp := t.data.fp[i.d := t.data.fp[i.s]]), m))
            && (i.op == OP_FMOV_RI ==>
                  i.x < TWO64 && Gives(c, t, m, e, next, t.data.(fp := t.data.fp[i.d := i.x]), m))
            && (i.op in {OP_FMOV_RM, OP_FMOV_MR} && !Mapped(m, a, 8) ==> Step(c, t, m, e) == Faulted(BadAccess))
            && (i.op == OP_FMOV_RM && Mapped(m, a, 8) ==>
                  && FromLe(Bytes(m, a, 8)) < TWO64
                  && Gives(c, t, m, e, next, t.data.(fp := t.data.fp[i.d := FromLe(Bytes(m, a, 8))]), m))
            && (i.op == OP_FMOV_MR && Mapped(m, a, 8) ==>
                  Gives(c, t, m, e, next, t.data, m') && Writes(m, m', a, 8, t.data.fp[i.s]))
  {
    hide Fetch, Load, Store, Bytes, FromLe, Writes, Alu;
    Dispatched(c, t, m, e, i, next);
    PowValues();
    m' := m;
    if i.op == OP_FMOV_RR {
      Computes(c, t, m, e, i, next, t.data.(fp := t.data.fp[i.d := t.data.fp[i.s]]), m);
    } else if i.op == OP_FMOV_RI {
      Computes(c, t, m, e, i, next, t.data.(fp := t.data.fp[i.d := i.x]), m);
    } else if i.op == OP_FMOV_RM {
      var a := t.data.gpr[i.s];
      LoadDefined(m, a, 8);
      if Mapped(m, a, 8) {
        LoadIsLe(m, a, 8);
        Computes(c, t, m, e, i, next, t.data.(fp := t.data.fp[i.d := FromLe(Bytes(m, a, 8))]), m);
      } else {
        Faults(c, t, m, e, i, next, BadAccess);
      }
    } else {
      var a := t.data.gpr[i.d];
      StoreWrites(m, a, 8, t.data.fp[i.s]);
      if Mapped(m, a, 8) {
        m' := Store(m, a, 8, t.data.fp[i.s]).value;
        Computes(c, t, m, e, i, next, t.data, m');
      } else {
        Faults(c, t, m, e, i, next, BadAccess);
      }
    }
  }

  /** Where a result from outside goes, and that HALT alone ends the run. */
  lemma OutsideResults(c: Image, t: Thread, m: Mem, e: Env, i: Instr, next: nat)
    requires Fetch(c, t.ip) == Decoded(i, next)
    ensures i.op == OP_SYSCALL ==> Gives(c, t, m, e, next, t.data.(gpr := t.data.gpr[0 := e.word]), e.mem)
    ensures i.op in {OP_FADD, OP_FSUB, OP_FMUL, OP_FDIV, OP_ITOF} ==>
              Gives(c, t, m, e, next, t.data.(fp := t.data.fp[i.d := e.word]), m)
    ensures i.op == OP_FTOI ==> Sets(c, t, m, e, next, i.d, e.word)
    ensures i.op == OP_HALT <==> Step(c, t, m, e).Halted?
    ensures i.op == OP_HALT ==> c.base + next < TWO64 && Step(c, t, m, e) == Halted(t.(ip := c.base + next), m)
  {
    hide Fetch, Alu, CmpFlags, ExecMemory, ExecStack, Taken;
    Dispatched(c, t, m, e, i, next);
  }
}
