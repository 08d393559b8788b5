/** Interpreters interleaved over shared memory and mutexes. Any number of threads run the program
    lock; load counter; add 1; store; unlock; halt. */
module Mutex {
  import opened Words
  import opened Isa
  import opened Memory
  import opened Vm
  import opened Syscalls

  // ----- interleaved machine ---------------------------------------------------------------------------

  datatype Slot = Live(t: Thread) | Stopped

  datatype Machine = Machine(slots: seq<Slot>, s: Shared)

  /** The system call a thread is about to make, from its registers; malloc gives these threads nothing. */
  function CallOf(t: Thread, s: Shared, who: nat): Reply {
    Dispatch(s, who, t.data.gpr[REG_AX], t.data.gpr[REG_BX], t.data.gpr[REG_CX], t.data.gpr[3], 0)
  }

  /** Thread i dispatches one instruction; None if it cannot (stopped, waiting, faulting, outside the model). */
  function Turn(c: Image, w: Machine, i: nat): Option<Machine> {
    if i >= |w.slots| || w.slots[i].Stopped? then None
    else
      var t := w.slots[i].t;
      match Fetch(c, t.ip)
      case Decoded(ins, _) =>
        if ins.op == OP_SYSCALL then
          (match CallOf(t, w.s, i)
           case Return(v, s1) => After(w, i, Step(c, t, s1.mem, Env(v, s1.mem)), s1)
           case _ => None)
        else After(w, i, Step(c, t, w.s.mem, Env(0, w.s.mem)), w.s)
      case _ => None
  }

  function After(w: Machine, i: nat, o: Outcome, s: Shared): Option<Machine>
    requires i < |w.slots|
  {
    match o
    case Running(t, m) => Some(Machine(w.slots[i := Live(t)], s.(mem := m)))
    case Halted(_, m) => Some(Machine(w.slots[i := Stopped], s.(mem := m)))
    case Faulted(_) => None
  }

  function Run(c: Image, w: Machine, schedule: seq<nat>): Option<Machine>
    decreases |schedule|
  {
    if schedule == [] then Some(w)
    else match Turn(c, w, schedule[0])
      case None => None
      case Some(w1) => Run(c, w1, schedule[1..])
  }

  // ----- the program --------------------------------------------------------------------------------------

  const LEN: nat := 12
  const STORED: nat := 8
  const UNLOCKED: nat := 11
  const REST: nat := 12

  function Program(h: u64, cell: u64): (p: seq<Instr>)
    ensures |p| == LEN
  {
    [Instr(OP_MOV_RI, REG_AX, 0, SYS_LOCK, 0),
     Instr(OP_MOV_RI, REG_BX, 0, h, 0),
     Instr(OP_SYSCALL, 0, 0, 0, 0),
     Instr(OP_MOV_RI, REG_DI, 0, cell, 0),
     Instr(OP_MOV_RM, REG_AX, REG_DI, 0, 0),
     Instr(OP_MOV_RI, REG_BX, 0, 1, 0),
     Instr(OP_ADD, REG_AX, REG_BX, 0, 0),
     Instr(OP_MOV_MR, REG_DI, REG_AX, 0, 0),
     Instr(OP_MOV_RI, REG_AX, 0, SYS_UNLOCK, 0),
     Instr(OP_MOV_RI, REG_BX, 0, h, 0),
     Instr(OP_SYSCALL, 0, 0, 0, 0),
     Instr(OP_HALT, 0, 0, 0, 0)]
  }

  /** Mutex handle, address of the counter, its initial value. */
  datatype Params = Params(h: u64, cell: u64, v0: u64)

  ghost predicate Runs(c: Image, p: Params) {
    && c.code == EncodeAll(Program(p.h, p.cell)) && p.h != 0 && p.cell + 8 <= TWO64
  }

  /** Position k of the program as an address. */
  function At(c: Image, p: Params, k: nat): nat
    requires k <= LEN
  {
    c.base + Boundary(Program(p.h, p.cell), k)
  }

  lemma FetchHere(c: Image, p: Params, t: Thread, k: nat)
    requires Runs(c, p) && k < LEN && t.ip == At(c, p, k)
    ensures Fetch(c, t.ip) == Decoded(Program(p.h, p.cell)[k], At(c, p, k + 1) - c.base)
    ensures At(c, p, k + 1) - c.base <= |c.code|
  {
    hide EncodeAll, Program, Decode, Encode, Boundary, Width, Fits, HasAt;
    var prog := Program(p.h, p.cell);
    EncodedAt(prog, k);
    Allowed(p, k);
    DecodeEncode(c.code, Boundary(prog, k), prog[k]);
  }

  lemma Allowed(p: Params, k: nat)
    requires k < LEN
    ensures WellFormed(Program(p.h, p.cell)[k])
  {
  }

  // ----- invariant --------------------------------------------------------------------------------------------

  /** What the registers of a thread at position k hold; v is the counter. */
  ghost predicate Holds(c: Image, p: Params, t: Thread, k: nat, v: u64) {
    && k < LEN && t.ip == At(c, p, k)
    && (1 <= k <= 2 ==> t.data.gpr[REG_AX] == SYS_LOCK)
    && (k == 2 ==> t.data.gpr[REG_BX] == p.h)
    && (4 <= k <= 7 ==> t.data.gpr[REG_DI] == p.cell)
    && (5 <= k <= 6 ==> t.data.gpr[REG_AX] == v)
    && (k == 6 ==> t.data.gpr[REG_BX] == 1)
    && (k == 7 ==> t.data.gpr[REG_AX] == Add64(v, 1))
    && (9 <= k <= 10 ==> t.data.gpr[REG_AX] == SYS_UNLOCK)
    && (k == 10 ==> t.data.gpr[REG_BX] == p.h)
  }

  /** Between taking the mutex and giving it back. */
  predicate Inside(k: nat) { 3 <= k <= 10 }

  /** How many threads have stored their increment, or have left the critical section. */
  function Count(ks: seq<nat>, from: nat): (n: nat)
    ensures n <= |ks|
  {
    if ks == [] then 0 else (if ks[0] >= from then 1 else 0) + Count(ks[1..], from)
  }

  ghost predicate SlotOk(c: Image, p: Params, slot: Slot, k: nat, v: u64) {
    match slot case Stopped => k == REST case Live(t) => Holds(c, p, t, k, v)
  }

  function Counter(p: Params, ks: seq<nat>): u64 { (p.v0 + Count(ks, STORED)) % TWO64 }

  ghost predicate Inv(c: Image, p: Params, w: Machine, ks: seq<nat>) {
    && |ks| == |w.slots|
    && p.h in w.s.mutexes
    && Load(w.s.mem, p.cell, 8) == Some(Counter(p, ks))
    && (forall i :: 0 <= i < |ks| ==> SlotOk(c, p, w.slots[i], ks[i], Counter(p, ks)))
    && (forall i :: 0 <= i < |ks| ==> (Inside(ks[i]) <==> w.s.mutexes[p.h] == Some(i)))
    && (w.s.mutexes[p.h].Some? ==> w.s.mutexes[p.h].value < |ks|)
  }

  // ----- one instruction ----------------------------------------------------------------------------------------

  lemma {:induction false} CountMoves(ks: seq<nat>, i: nat, k: nat, from: nat)
    requires i < |ks| && ks[i] <= k
    ensures Count(ks[i := k], from) == Count(ks, from) + if ks[i] < from <= k then 1 else 0
  {
    if i == 0 {
      assert ks[0 := k][1..] == ks[1..];
    } else {
      CountMoves(ks[1..], i - 1, k, from);
      assert ks[i := k][1..] == ks[1..][i - 1 := k];
    }
  }

  /** An immediate move. */
  lemma MovTurn(c: Image, w: Machine, i: nat, next: nat, d: Reg, x: u64)
    requires i < |w.slots| && w.slots[i].Live?
    requires Fetch(c, w.slots[i].t.ip) == Decoded(Instr(OP_MOV_RI, d, 0, x, 0), next)
    ensures var t := w.slots[i].t;
            Turn(c, w, i) == Some(w.(slots :=
              w.slots[i := Live(Thread(c.base + next, t.shadow, t.data.(gpr := t.data.gpr[d := x])))]))
  {
    hide Fetch, Dispatch;
  }

  /** A system call that returns. */
  lemma CallTurn(c: Image, w: Machine, i: nat, next: nat)
    requires i < |w.slots| && w.slots[i].Live?
    requires Fetch(c, w.slots[i].t.ip) == Decoded(Instr(OP_SYSCALL, 0, 0, 0, 0), next)
    ensures Turn(c, w, i).Some? <==> CallOf(w.slots[i].t, w.s, i).Return?
    ensures var t, r := w.slots[i].t, CallOf(w.slots[i].t, w.s, i);
            r.Return? ==> Turn(c, w, i) == Some(Machine(
              w.slots[i := Live(Thread(c.base + next, t.shadow, t.data.(gpr := t.data.gpr[REG_AX := r.word])))], r.s))
  {
    hide Fetch, Dispatch;
  }

  lemma AddTurn(c: Image, w: Machine, i: nat, next: nat)
    requires i < |w.slots| && w.slots[i].Live?
    requires Fetch(c, w.slots[i].t.ip) == Decoded(Instr(OP_ADD, REG_AX, REG_BX, 0, 0), next)
    ensures var t := w.slots[i].t;
            Turn(c, w, i) == Some(w.(slots := w.slots[i := Live(Thread(c.base + next, t.shadow,
              t.data.(gpr := t.data.gpr[REG_AX := Add64(t.data.gpr[REG_AX], t.data.gpr[REG_BX])])))]))
  {
    hide Fetch, Dispatch;
  }

  lemma LoadTurn(c: Image, w: Machine, i: nat, next: nat)
    requires i < |w.slots| && w.slots[i].Live?
    requires Fetch(c, w.slots[i].t.ip) == Decoded(Instr(OP_MOV_RM, REG_AX, REG_DI, 0, 0), next)
    requires Load(w.s.mem, w.slots[i].t.data.gpr[REG_DI], 8).Some?
    ensures var t := w.slots[i].t;
            var v := Load(w.s.mem, t.data.gpr[REG_DI], 8).value;
            v < TWO64 && Turn(c, w, i) == Some(w.(slots := w.slots[i := Live(Thread(c.base + next, t.shadow,
              t.data.(gpr := t.data.gpr[REG_AX := v])))]))
  {
    PlainAddress(w.slots[i].t.data.gpr[REG_DI]);
    PowValues();
    hide Fetch, Dispatch, Load, Address, Pow256;
  }

  lemma StoreTurn(c: Image, w: Machine, i: nat, next: nat)
    requires i < |w.slots| && w.slots[i].Live?
    requires Store(w.s.mem, w.slots[i].t.data.gpr[REG_DI], 8, w.slots[i].t.data.gpr[REG_AX]).Some?
    requires Fetch(c, w.slots[i].t.ip) == Decoded(Instr(OP_MOV_MR, REG_DI, REG_AX, 0, 0), next)
    ensures var t := w.slots[i].t;
            Turn(c, w, i) == Some(Machine(w.slots[i := Live(t.(ip := c.base + next))],
                 w.s.(mem := Store(w.s.mem, t.data.gpr[REG_DI], 8, t.data.gpr[REG_AX]).value)))
  {
    PlainAddress(w.slots[i].t.data.gpr[REG_DI]);
    hide Fetch, Dispatch, Store, Address;
  }

  lemma HaltTurn(c: Image, w: Machine, i: nat, next: nat)
    requires i < |w.slots| && w.slots[i].Live? && next <= |c.code|
    requires Fetch(c, w.slots[i].t.ip) == Decoded(Instr(OP_HALT, 0, 0, 0, 0), next)
    ensures Turn(c, w, i) == Some(w.(slots := w.slots[i := Stopped]))
  {
    hide Fetch, Dispatch;
  }

  // ----- every turn keeps the invariant -----------------------------------------------------------------------

  /** A turn that touches neither memory nor mutex, and neither enters nor leaves the critical section. */
  lemma LocalKeeps(c: Image, p: Params, w: Machine, ks: seq<nat>, i: nat, slot: Slot)
    requires Inv(c, p, w, ks) && i < |ks| && ks[i] !in {2, 7, 10}
    requires SlotOk(c, p, slot, ks[i] + 1, Counter(p, ks))
    ensures Inv(c, p, w.(slots := w.slots[i := slot]), ks[i := ks[i] + 1])
  {
    hide Holds, Load, At;
    CountMoves(ks, i, ks[i] + 1, STORED);
  }

  lemma LockKeeps(c: Image, p: Params, w: Machine, ks: seq<nat>, i: nat, t': Thread)
    requires Inv(c, p, w, ks) && i < |ks| && ks[i] == 2 && w.s.mutexes[p.h] == None
    requires Holds(c, p, t', 3, Counter(p, ks))
    ensures Inv(c, p, Machine(w.slots[i := Live(t')], w.s.(mutexes := w.s.mutexes[p.h := Some(i)])), ks[i := 3])
  {
    hide Holds, Load, At;
    CountMoves(ks, i, 3, STORED);
  }

  lemma UnlockKeeps(c: Image, p: Params, w: Machine, ks: seq<nat>, i: nat, t': Thread)
    requires Inv(c, p, w, ks) && i < |ks| && ks[i] == 10
    requires Holds(c, p, t', 11, Counter(p, ks))
    ensures Inv(c, p, Machine(w.slots[i := Live(t')], w.s.(mutexes := w.s.mutexes[p.h := None])), ks[i := 11])
  {
    hide Holds, Load, At;
    CountMoves(ks, i, 11, STORED);
    forall j | 0 <= j < |ks| && j != i ensures !Inside(ks[j]) { }
  }

  /** Outside the critical section, nothing a thread holds depends on the counter. */
  lemma HoldsAnyCounter(c: Image, p: Params, slot: Slot, k: nat, v: u64, v': u64)
    requires SlotOk(c, p, slot, k, v) && !Inside(k)
    ensures SlotOk(c, p, slot, k, v')
  {
    hide At;
  }

  lemma StoreKeeps(c: Image, p: Params, w: Machine, ks: seq<nat>, i: nat, t': Thread, m: Mem)
    requires Inv(c, p, w, ks) && i < |ks| && ks[i] == 7
    requires Load(m, p.cell, 8) == Some(Add64(Counter(p, ks), 1))
    requires forall v :: Holds(c, p, t', 8, v)
    ensures Inv(c, p, Machine(w.slots[i := Live(t')], w.s.(mem := m)), ks[i := 8])
  {
    hide Holds, Load, At;
    CountMoves(ks, i, 8, STORED);
    var ks' := ks[i := 8];
    Successor(p.v0 + Count(ks, STORED));
    assert Counter(p, ks') == Add64(Counter(p, ks), 1);
    forall j | 0 <= j < |ks| && j != i ensures SlotOk(c, p, w.slots[j], ks[j], Counter(p, ks')) {
      HoldsAnyCounter(c, p, w.slots[j], ks[j], Counter(p, ks), Counter(p, ks'));
    }
  }

  lemma Successor(n: nat)
    ensures Add64(n % TWO64, 1) == (n + 1) % TWO64
  {
    ModAdd(n, 0, 1);
  }

  /** The instruction at each position. */
  lemma ProgramAt(p: Params, k: nat)
    requires k < LEN
    ensures var q := Program(p.h, p.cell);
            && (k == 0 ==> q[k] == Instr(OP_MOV_RI, REG_AX, 0, SYS_LOCK, 0))
            && (k == 1 ==> q[k] == Instr(OP_MOV_RI, REG_BX, 0, p.h, 0))
            && (k == 2 ==> q[k] == Instr(OP_SYSCALL, 0, 0, 0, 0))
            && (k == 3 ==> q[k] == Instr(OP_MOV_RI, REG_DI, 0, p.cell, 0))
            && (k == 4 ==> q[k] == Instr(OP_MOV_RM, REG_AX, REG_DI, 0, 0))
            && (k == 5 ==> q[k] == Instr(OP_MOV_RI, REG_BX, 0, 1, 0))
            && (k == 6 ==> q[k] == Instr(OP_ADD, REG_AX, REG_BX, 0, 0))
            && (k == 7 ==> q[k] == Instr(OP_MOV_MR, REG_DI, REG_AX, 0, 0))
            && (k == 8 ==> q[k] == Instr(OP_MOV_RI, REG_AX, 0, SYS_UNLOCK, 0))
            && (k == 9 ==> q[k] == Instr(OP_MOV_RI, REG_BX, 0, p.h, 0))
            && (k == 10 ==> q[k] == Instr(OP_SYSCALL, 0, 0, 0, 0))
            && (k == 11 ==> q[k] == Instr(OP_HALT, 0, 0, 0, 0))
  {
  }

  /** Immediate moves, the load and the addition. */
  lemma LocalTurn(c: Image, p: Params, w: Machine, ks: seq<nat>, i: nat)
    requires Runs(c, p) && Inv(c, p, w, ks) && i < |ks| && ks[i] in {0, 1, 3, 4, 5, 6, 8, 9}
    ensures Turn(c, w, i).Some? && Inv(c, p, Turn(c, w, i).value, ks[i := ks[i] + 1])
  {
    hide Load, At, Fetch, Turn, Program, Runs, Counter;
    var k, t := ks[i], w.slots[i].t;
    var next := At(c, p, k + 1) - c.base;
    FetchHere(c, p, t, k);
    ProgramAt(p, k);
    if k == 4 {
      LoadTurn(c, w, i, next);
      var t' := Thread(c.base + next, t.shadow, t.data.(gpr := t.data.gpr[REG_AX := Counter(p, ks)]));
      LocalKeeps(c, p, w, ks, i, Live(t'));
    } else if k == 6 {
      AddTurn(c, w, i, next);
      var t' := Thread(c.base + next, t.shadow,
                       t.data.(gpr := t.data.gpr[REG_AX := Add64(t.data.gpr[REG_AX], t.data.gpr[REG_BX])]));
      LocalKeeps(c, p, w, ks, i, Live(t'));
    } else {
      var d, x := MovOf(p, k);
      MovTurn(c, w, i, next, d, x);
      var t' := Thread(c.base + next, t.shadow, t.data.(gpr := t.data.gpr[d := x]));
      LocalKeeps(c, p, w, ks, i, Live(t'));
    }
  }

  lemma MovOf(p: Params, k: nat) returns (d: Reg, x: u64)
    requires k in {0, 1, 3, 5, 8, 9}
    ensures Program(p.h, p.cell)[k] == Instr(OP_MOV_RI, d, 0, x, 0)
    ensures (d, x) == (if k == 0 then (REG_AX, SYS_LOCK) else if k == 3 then (REG_DI, p.cell)
                       else if k == 5 then (REG_BX, 1) else if k == 8 then (REG_AX, SYS_UNLOCK) else (REG_BX, p.h))
  {
    var j := Program(p.h, p.cell)[k];
    d, x := j.d, j.x;
  }

  lemma LockTurn(c: Image, p: Params, w: Machine, ks: seq<nat>, i: nat)
    requires Runs(c, p) && Inv(c, p, w, ks) && i < |ks| && ks[i] == 2
    ensures Turn(c, w, i).Some? <==> w.s.mutexes[p.h] == None
    ensures Turn(c, w, i).Some? ==> Inv(c, p, Turn(c, w, i).value, ks[i := 3])
  {
    hide Load, At, Fetch, Turn, Program, Counter;
    var t, next := w.slots[i].t, At(c, p, 3) - c.base;
    FetchHere(c, p, t, 2);
    ProgramAt(p, 2);
    CallTurn(c, w, i, next);
    assert CallOf(t, w.s, i) == Lock(w.s, i, p.h);
    if w.s.mutexes[p.h] == None {
      var t' := Thread(c.base + next, t.shadow, t.data.(gpr := t.data.gpr[REG_AX := 0]));
      LockKeeps(c, p, w, ks, i, t');
    }
  }

  lemma UnlockTurn(c: Image, p: Params, w: Machine, ks: seq<nat>, i: nat)
    requires Runs(c, p) && Inv(c, p, w, ks) && i < |ks| && ks[i] == 10
    ensures Turn(c, w, i).Some? && Inv(c, p, Turn(c, w, i).value, ks[i := 11])
  {
    hide Load, At, Fetch, Turn, Program, Counter;
    var t, next := w.slots[i].t, At(c, p, 11) - c.base;
    FetchHere(c, p, t, 10);
    ProgramAt(p, 10);
    CallTurn(c, w, i, next);
    assert CallOf(t, w.s, i) == Unlock(w.s, i, p.h);
    var t' := Thread(c.base + next, t.shadow, t.data.(gpr := t.data.gpr[REG_AX := 0]));
    UnlockKeeps(c, p, w, ks, i, t');
  }

  lemma StoringTurn(c: Image, p: Params, w: Machine, ks: seq<nat>, i: nat)
    requires Runs(c, p) && Inv(c, p, w, ks) && i < |ks| && ks[i] == 7
    ensures Turn(c, w, i).Some? && Inv(c, p, Turn(c, w, i).value, ks[i := 8])
  {
    hide Load, Store, At, Fetch, Turn, Program, Counter;
    var t, next := w.slots[i].t, At(c, p, 8) - c.base;
    FetchHere(c, p, t, 7);
    ProgramAt(p, 7);
    LoadDefined(w.s.mem, p.cell, 8);
    StoreDefined(w.s.mem, p.cell, 8, t.data.gpr[REG_AX]);
    StoreTurn(c, w, i, next);
    StoreWord(w.s.mem, p.cell, t.data.gpr[REG_AX]);
    StoreKeeps(c, p, w, ks, i, t.(ip := c.base + next), Store(w.s.mem, p.cell, 8, t.data.gpr[REG_AX]).value);
  }

  lemma HaltingTurn(c: Image, p: Params, w: Machine, ks: seq<nat>, i: nat)
    requires Runs(c, p) && Inv(c, p, w, ks) && i < |ks| && ks[i] == 11
    ensures Turn(c, w, i).Some? && Inv(c, p, Turn(c, w, i).value, ks[i := REST])
  {
    hide Load, Store, At, Fetch, Turn, Program, Counter;
    var t, next := w.slots[i].t, At(c, p, 12) - c.base;
    FetchHere(c, p, t, 11);
    ProgramAt(p, 11);
    HaltTurn(c, w, i, next);
    LocalKeeps(c, p, w, ks, i, Stopped);
  }

  /** A live thread has not finished; a stopped one has. */
  lemma LivePosition(c: Image, p: Params, w: Machine, ks: seq<nat>, i: nat)
    requires Inv(c, p, w, ks) && i < |ks|
    ensures i < |w.slots| && ks[i] <= REST && (w.slots[i].Live? <==> ks[i] < REST)
  {
    hide Load, At;
    assert SlotOk(c, p, w.slots[i], ks[i], Counter(p, ks));
  }

  /** Any live thread can take its turn, except one waiting at the lock; every turn keeps the invariant. */
  lemma TurnKeeps(c: Image, p: Params, w: Machine, ks: seq<nat>, i: nat)
    requires Runs(c, p) && Inv(c, p, w, ks) && i < |ks| && ks[i] < REST
    ensures Turn(c, w, i).Some? <==> ks[i] != 2 || w.s.mutexes[p.h] == None
    ensures Turn(c, w, i).Some? ==> Inv(c, p, Turn(c, w, i).value, ks[i := ks[i] + 1])
  {
    hide Turn, Inv, Runs;
    if ks[i] == 2 { LockTurn(c, p, w, ks, i); }
    else if ks[i] == 7 { StoringTurn(c, p, w, ks, i); }
    else if ks[i] == 10 { UnlockTurn(c, p, w, ks, i); }
    else if ks[i] == 11 { HaltingTurn(c, p, w, ks, i); }
    else { LocalTurn(c, p, w, ks, i); }
  }

  lemma TurnIndex(c: Image, w: Machine, i: nat)
    requires Turn(c, w, i).Some?
    ensures i < |w.slots| && w.slots[i].Live?
  {
  }

  function Positions(ks: seq<nat>): nat {
    if ks == [] then 0 else ks[0] + Positions(ks[1..])
  }

  lemma {:induction false} PositionsMove(ks: seq<nat>, i: nat)
    requires i < |ks|
    ensures Positions(ks[i := ks[i] + 1]) == Positions(ks) + 1
  {
    if i == 0 {
      assert ks[0 := ks[0] + 1][1..] == ks[1..];
    } else {
      PositionsMove(ks[1..], i - 1);
      assert ks[i := ks[i] + 1][1..] == ks[1..][i - 1 := ks[i] + 1];
    }
  }

  lemma {:induction false} PositionsBounded(ks: seq<nat>)
    requires forall i :: 0 <= i < |ks| ==> ks[i] <= REST
    ensures Positions(ks) <= REST * |ks|
  {
    if ks != [] { PositionsBounded(ks[1..]); }
  }

  lemma InvSize(c: Image, p: Params, w: Machine, ks: seq<nat>)
    requires Inv(c, p, w, ks)
    ensures |ks| == |w.slots| && p.h in w.s.mutexes
  {
  }

  lemma {:induction false} RunKeeps(c: Image, p: Params, w: Machine, ks: seq<nat>, schedule: seq<nat>)
      returns (ks': seq<nat>)
    requires Runs(c, p) && Inv(c, p, w, ks) && Run(c, w, schedule).Some?
    ensures Inv(c, p, Run(c, w, schedule).value, ks') && Positions(ks') == Positions(ks) + |schedule|
    decreases |schedule|
  {
    InvSize(c, p, w, ks);
    hide Turn, Inv, Runs, Positions;
    if schedule == [] {
      ks' := ks;
    } else {
      var i := schedule[0];
      TurnIndex(c, w, i);
      LivePosition(c, p, w, ks, i);
      TurnKeeps(c, p, w, ks, i);
      PositionsMove(ks, i);
      ks' := RunKeeps(c, p, Turn(c, w, i).value, ks[i := ks[i] + 1], schedule[1..]);
    }
  }

  // ----- main results ------------------------------------------------------------------------------------

  /** n fresh threads at the start of the program, the mutex free, the counter at its initial value. */
  ghost predicate Start(c: Image, p: Params, w: Machine, n: nat) {
    && Runs(c, p) && |w.slots| == n
    && (forall i :: 0 <= i < n ==> w.slots[i].Live? && w.slots[i].t.ip == c.base)
    && p.h in w.s.mutexes && w.s.mutexes[p.h] == None
    && Load(w.s.mem, p.cell, 8) == Some(p.v0)
  }

  function Zeros(n: nat): (ks: seq<nat>)
    ensures |ks| == n && forall i :: 0 <= i < n ==> ks[i] == 0
  {
    seq(n, _ => 0)
  }

  lemma {:induction false} CountZeros(ks: seq<nat>, from: nat)
    requires from > 0 && forall i :: 0 <= i < |ks| ==> ks[i] == 0
    ensures Count(ks, from) == 0
  {
    if ks != [] {
      CountZeros(ks[1..], from);
    }
  }

  lemma StartInv(c: Image, p: Params, w: Machine, n: nat)
    requires Start(c, p, w, n)
    ensures Inv(c, p, w, Zeros(n))
  {
    hide Load, Zeros;
    CountZeros(Zeros(n), STORED);
    assert Boundary(Program(p.h, p.cell), 0) == 0;
  }

  lemma {:induction false} CountSame(ks: seq<nat>)
    requires forall i :: 0 <= i < |ks| ==> !Inside(ks[i])
    ensures Count(ks, STORED) == Count(ks, UNLOCKED)
  {
    if ks != [] {
      CountSame(ks[1..]);
    }
  }

  /** Threads past the critical section. */
  function Completed(c: Image, p: Params, slots: seq<Slot>): (n: nat)
  {
    if slots == [] then 0
    else (if slots[0].Stopped? || slots[0].t.ip == At(c, p, UNLOCKED) then 1 else 0) + Completed(c, p, slots[1..])
  }

  lemma {:induction false} BoundariesIncrease(ins: seq<Instr>, j: nat, k: nat)
    requires j < k <= |ins|
    ensures Boundary(ins, j) < Boundary(ins, k)
    decreases j
  {
    if j > 0 { BoundariesIncrease(ins[1..], j - 1, k - 1); }
  }

  lemma {:induction false} CompletedIsCount(c: Image, p: Params, slots: seq<Slot>, ks: seq<nat>, v: u64)
    requires |slots| == |ks| && forall i :: 0 <= i < |ks| ==> SlotOk(c, p, slots[i], ks[i], v)
    ensures Completed(c, p, slots) == Count(ks, UNLOCKED)
  {
    hide Program;
    if slots != [] {
      CompletedIsCount(c, p, slots[1..], ks[1..], v);
      assert SlotOk(c, p, slots[0], ks[0], v);
      if slots[0].Live? && ks[0] < UNLOCKED {
        BoundariesIncrease(Program(p.h, p.cell), ks[0], UNLOCKED);
      }
    }
  }

  /** Every reachable machine satisfies the invariant, each turn having moved one thread one position. */
  lemma Reached(c: Image, p: Params, w: Machine, n: nat, schedule: seq<nat>) returns (ks: seq<nat>, w': Machine)
    requires Start(c, p, w, n) && Run(c, w, schedule).Some?
    ensures Runs(c, p) && w' == Run(c, w, schedule).value && Inv(c, p, w', ks)
    ensures |ks| == |w'.slots| == n && p.h in w'.s.mutexes && Positions(ks) == |schedule|
  {
    hide Load, Run, Inv, Runs, Positions;
    StartInv(c, p, w, n);
    ks := RunKeeps(c, p, w, Zeros(n), schedule);
    w' := Run(c, w, schedule).value;
    SlotsKept(c, w, schedule);
    InvSize(c, p, w', ks);
    NoPositions(Zeros(n));
  }

  lemma FreeCounter(c: Image, p: Params, w: Machine, ks: seq<nat>)
    requires Inv(c, p, w, ks) && w.s.mutexes[p.h] == None
    ensures Load(w.s.mem, p.cell, 8) == Some((p.v0 + Completed(c, p, w.slots)) % TWO64)
  {
    hide Load, Completed, Holds;
    CountSame(ks);
    CompletedIsCount(c, p, w.slots, ks, Counter(p, ks));
  }

  /** Under every schedule, whenever the mutex is free the counter is its initial value plus the number of
      threads past the critical section. */
  lemma CounterWhenFree(c: Image, p: Params, w: Machine, n: nat, schedule: seq<nat>)
    requires Start(c, p, w, n) && Run(c, w, schedule).Some?
    ensures var w' := Run(c, w, schedule).value;
            && p.h in w'.s.mutexes
            && (w'.s.mutexes[p.h] == None ==>
                  Load(w'.s.mem, p.cell, 8) == Some((p.v0 + Completed(c, p, w'.slots)) % TWO64))
  {
    hide Load, Run, Completed, Inv, Runs, Start;
    var ks, w' := Reached(c, p, w, n, schedule);
    if w'.s.mutexes[p.h] == None { FreeCounter(c, p, w', ks); }
  }

  /** The instruction pointer is between the lock and the unlock. */
  ghost predicate InSection(c: Image, p: Params, slot: Slot) {
    slot.Live? && At(c, p, 3) <= slot.t.ip <= At(c, p, 10)
  }

  lemma InSectionInside(c: Image, p: Params, slot: Slot, k: nat, v: u64)
    requires SlotOk(c, p, slot, k, v) && InSection(c, p, slot)
    ensures Inside(k)
  {
    hide Program;
    var q := Program(p.h, p.cell);
    if k < 3 { BoundariesIncrease(q, k, 3); }
    if k > 10 { BoundariesIncrease(q, 10, k); }
  }

  /** Mutual exclusion: under every schedule at most one thread is between lock and unlock. */
  lemma MutualExclusion(c: Image, p: Params, w: Machine, n: nat, schedule: seq<nat>, i: nat, j: nat)
    requires Start(c, p, w, n) && Run(c, w, schedule).Some?
    requires var slots := Run(c, w, schedule).value.slots;
             i < |slots| && j < |slots| && InSection(c, p, slots[i]) && InSection(c, p, slots[j])
    ensures i == j
  {
    hide Load, Run, Runs, SlotOk, InSection, Counter, Start;
    var ks, w' := Reached(c, p, w, n, schedule);
    InSectionInside(c, p, w'.slots[i], ks[i], Counter(p, ks));
    InSectionInside(c, p, w'.slots[j], ks[j], Counter(p, ks));
  }

  lemma {:induction false} AllCompleted(c: Image, p: Params, slots: seq<Slot>)
    requires forall i :: 0 <= i < |slots| ==> slots[i].Stopped?
    ensures Completed(c, p, slots) == |slots|
  {
    if slots != [] {
      AllCompleted(c, p, slots[1..]);
    }
  }

  lemma StoppedMeansFree(c: Image, p: Params, w: Machine, ks: seq<nat>)
    requires Inv(c, p, w, ks) && forall i :: 0 <= i < |w.slots| ==> w.slots[i].Stopped?
    ensures p.h in w.s.mutexes && w.s.mutexes[p.h] == None
  {
    hide Load, Holds;
    forall i | 0 <= i < |ks| ensures !Inside(ks[i]) {
      assert SlotOk(c, p, w.slots[i], ks[i], Counter(p, ks));
    }
  }

  /** When all n threads have halted the counter has grown by n. */
  lemma CounterAtEnd(c: Image, p: Params, w: Machine, n: nat, schedule: seq<nat>)
    requires Start(c, p, w, n) && Run(c, w, schedule).Some?
    requires forall i :: 0 <= i < |Run(c, w, schedule).value.slots| ==> Run(c, w, schedule).value.slots[i].Stopped?
    ensures Load(Run(c, w, schedule).value.s.mem, p.cell, 8) == Some((p.v0 + n) % TWO64)
  {
    hide Load, Run, Completed, Inv, Runs, Start;
    var ks, w' := Reached(c, p, w, n, schedule);
    StoppedMeansFree(c, p, w', ks);
    FreeCounter(c, p, w', ks);
    AllCompleted(c, p, w'.slots);
  }

  /** No schedule deadlocks: unless all threads have halted, some thread can go on; and no schedule is longer
      than twelve turns a thread. */
  lemma Progress(c: Image, p: Params, w: Machine, n: nat, schedule: seq<nat>)
    requires Start(c, p, w, n) && Run(c, w, schedule).Some?
    ensures |schedule| <= REST * n
    ensures var w' := Run(c, w, schedule).value;
            (forall i :: 0 <= i < n ==> i < |w'.slots| && w'.slots[i].Stopped?)
            || exists i :: 0 <= i < n && Turn(c, w', i).Some?
  {
    hide Load, Run, Holds, Inv, Turn, Runs, Positions, Start;
    var ks, w' := Reached(c, p, w, n, schedule);
    forall i | 0 <= i < |ks| ensures ks[i] <= REST { LivePosition(c, p, w', ks, i); }
    PositionsBounded(ks);
    Enabled(c, p, w', ks);
  }

  lemma {:induction false} NoPositions(ks: seq<nat>)
    requires forall i :: 0 <= i < |ks| ==> ks[i] == 0
    ensures Positions(ks) == 0
  {
    if ks != [] { NoPositions(ks[1..]); }
  }

  lemma Holder(c: Image, p: Params, w: Machine, ks: seq<nat>)
    requires Inv(c, p, w, ks) && w.s.mutexes[p.h].Some?
    ensures w.s.mutexes[p.h].value < |ks| && Inside(ks[w.s.mutexes[p.h].value])
  {
  }

  lemma Enabled(c: Image, p: Params, w: Machine, ks: seq<nat>)
    requires Runs(c, p) && Inv(c, p, w, ks)
    ensures (forall i :: 0 <= i < |w.slots| ==> w.slots[i].Stopped?)
            || exists i :: 0 <= i < |w.slots| && Turn(c, w, i).Some?
  {
    InvSize(c, p, w, ks);
    hide Turn, Inv, Runs;
    if i :| 0 <= i < |w.slots| && !w.slots[i].Stopped? {
      var j := i;
      if w.s.mutexes[p.h].Some? { Holder(c, p, w, ks); j := w.s.mutexes[p.h].value; }
      LivePosition(c, p, w, ks, j);
      TurnKeeps(c, p, w, ks, j);
      assert Turn(c, w, j).Some?;
    }
  }

  lemma {:induction false} SlotsKept(c: Image, w: Machine, schedule: seq<nat>)
    requires Run(c, w, schedule).Some?
    ensures |Run(c, w, schedule).value.slots| == |w.slots|
    decreases |schedule|
  {
    if schedule != [] {
      SlotKept(c, w, schedule[0]);
      hide Turn;
      SlotsKept(c, Turn(c, w, schedule[0]).value, schedule[1..]);
    }
  }

  lemma SlotKept(c: Image, w: Machine, i: nat)
    requires Turn(c, w, i).Some?
    ensures |Turn(c, w, i).value.slots| == |w.slots|
  {
    hide Step, Fetch, Dispatch;
  }
}
