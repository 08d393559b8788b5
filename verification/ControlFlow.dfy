/** Whole-run control properties of one interpreter thread. At every step the memory it sees and the
    result of a system call are arbitrary, so the claims hold beside any other threads. */
module ControlFlow {
  import opened Words
  import opened Isa
  import opened Memory
  import opened Vm

  /** Memory as the step finds it, and what a system call returns. */
  datatype Event = Event(mem: Mem, env: Env)

  function StepThread(c: Image, t: Thread, ev: Event): Option<Thread> {
    match Step(c, t, ev.mem, ev.env)
    case Running(t', _) => Some(t')
    case _ => None
  }

  /** ts is the sequence of states of a run that never stops before its last state. */
  ghost predicate IsTrace(c: Image, ts: seq<Thread>, evs: seq<Event>) {
    && |ts| == |evs| + 1
    && forall i {:trigger evs[i]} :: 0 <= i < |evs| ==> StepThread(c, ts[i], evs[i]) == Some(ts[i + 1])
  }

  predicate IsCall(op: Op) { op == OP_CALL || op == OP_CALLR }

  /** The instruction about to be dispatched. */
  ghost predicate AtOp(c: Image, t: Thread, i: Instr, next: nat) {
    Fetch(c, t.ip) == Decoded(i, next)
  }

  function OpAt(c: Image, t: Thread): Option<Op> {
    match Fetch(c, t.ip)
    case Decoded(i, _) => Some(i.op)
    case _ => None
  }

  function ErrTarget(i: Instr): nat { if i.op == OP_CALL then i.y else i.x }

  /** Instructions that leave the straight line, by the zero and the sign flag. */
  predicate Jumps(op: Op, zero: bool, sign: bool) {
    || op == OP_JMP
    || (op == OP_JE && zero) || (op == OP_JNE && !zero)
    || (op == OP_JL && sign) || (op == OP_JGE && !sign)
    || (op == OP_JLE && (sign || zero)) || (op == OP_JG && !sign && !zero)
  }

  /** Effect of one step on the control state, by kind of instruction. */
  lemma StepControl(c: Image, t: Thread, ev: Event, t': Thread) returns (i: Instr, next: nat)
    requires StepThread(c, t, ev) == Some(t')
    ensures AtOp(c, t, i, next) && WellFormed(i) && next <= |c.code|
    ensures IsCall(i.op) ==>
              && t'.shadow == t.shadow + [c.base + ErrTarget(i), c.base + next]
              && |t'.shadow| <= SHADOW_DEPTH
              && t'.ip == (if i.op == OP_CALL then c.base + i.x else t.data.gpr[i.d])
    ensures i.op == OP_RET || i.op == OP_THROW ==>
              && |t.shadow| >= 2
              && t'.shadow == t.shadow[..|t.shadow| - 2]
              && t'.ip == t.shadow[|t.shadow| - (if i.op == OP_RET then 1 else 2)]
    ensures !IsCall(i.op) && i.op != OP_RET && i.op != OP_THROW ==>
              && t'.shadow == t.shadow
              && t'.ip == c.base + if Jumps(i.op, t.data.fl % 2 == 1, t.data.fl / 2 % 2 == 1) then i.x else next
  {
    hide Fetch, ExecData;
    var f := Fetch(c, t.ip);
    i, next := f.i, f.next;
  }

  // ----- control-flow integrity -------------------------------------------------------

  ghost predicate IsBoundary(ins: seq<Instr>, b: int) {
    exists k :: 0 <= k <= |ins| && Boundary(ins, k) == b
  }

  /** No indirect calls, and every code operand is an instruction boundary. */
  ghost predicate Structured(ins: seq<Instr>) {
    && AllWellFormed(ins)
    && forall k :: 0 <= k < |ins| ==>
         && ins[k].op != OP_CALLR
         && (ShapeOf(ins[k].op) in {Code32, Code32x2} ==> IsBoundary(ins, ins[k].x))
         && (ins[k].op == OP_CALL ==> IsBoundary(ins, ins[k].y))
  }

  ghost predicate OnBoundaries(c: Image, ins: seq<Instr>, t: Thread) {
    && IsBoundary(ins, t.ip - c.base)
    && forall j :: 0 <= j < |t.shadow| ==> IsBoundary(ins, t.shadow[j] - c.base)
  }

  /** At a boundary the fetch yields the instruction there, or the end of the text. */
  lemma FetchAtBoundary(c: Image, ins: seq<Instr>, ip: u64) returns (k: nat)
    requires AllWellFormed(ins) && c.code == EncodeAll(ins) && IsBoundary(ins, ip - c.base)
    ensures k <= |ins| && Boundary(ins, k) == ip - c.base
    ensures k < |ins| ==> Fetch(c, ip) == Decoded(ins[k], Boundary(ins, k + 1))
    ensures k == |ins| ==> ip == c.base + |c.code| && Fetch(c, ip) == PastEnd
  {
    hide Boundary, EncodeAll, Encode, Width, Operands, HasAt, Fits;
    k :| 0 <= k <= |ins| && Boundary(ins, k) == ip - c.base;
    if k < |ins| {
      EncodedAt(ins, k);
      DecodeEncode(c.code, Boundary(ins, k), ins[k]);
    } else {
      BoundaryEnd(ins);
    }
  }

  lemma StepOnBoundaries(c: Image, ins: seq<Instr>, t: Thread, ev: Event, t': Thread)
    requires Structured(ins) && c.code == EncodeAll(ins) && OnBoundaries(c, ins, t)
    requires StepThread(c, t, ev) == Some(t')
    ensures OnBoundaries(c, ins, t')
  {
    hide EncodeAll, Width, Step;
    var k := FetchAtBoundary(c, ins, t.ip);
    var i, next := StepControl(c, t, ev, t');
    assert k < |ins| && i == ins[k] && next == Boundary(ins, k + 1);
    assert IsBoundary(ins, next);
    if i.op == OP_CALL {
      assert ShapeOf(i.op) == Code32x2;
      assert t'.shadow[..|t.shadow|] == t.shadow;
    }
  }

  /** Control-flow integrity: from the start of the text, through any run, the instruction pointer and
      every return address stay on instruction boundaries. */
  lemma {:induction false} RunStaysOnBoundaries(c: Image, ins: seq<Instr>, ts: seq<Thread>, evs: seq<Event>, k: nat)
    requires Structured(ins) && c.code == EncodeAll(ins) && IsTrace(c, ts, evs) && k < |ts|
    requires ts[0].ip == c.base && ts[0].shadow == []
    ensures OnBoundaries(c, ins, ts[k])
    decreases k
  {
    hide Structured, StepThread, EncodeAll;
    if k == 0 {
      assert Boundary(ins, 0) == 0;
    } else {
      RunStaysOnBoundaries(c, ins, ts, evs, k - 1);
      hide OnBoundaries;
      assert StepThread(c, ts[k - 1], evs[k - 1]) == Some(ts[k]);
      StepOnBoundaries(c, ins, ts[k - 1], evs[k - 1], ts[k]);
    }
  }

  /** So dispatch never meets an undefined opcode, and leaves the text only at its end. */
  lemma NoUndefinedDispatch(c: Image, ins: seq<Instr>, ts: seq<Thread>, evs: seq<Event>, ev: Event)
    requires Structured(ins) && c.code == EncodeAll(ins) && IsTrace(c, ts, evs)
    requires ts[0].ip == c.base && ts[0].shadow == []
    ensures Step(c, ts[|evs|], ev.mem, ev.env) != Faulted(UndefinedOpcode)
    ensures Step(c, ts[|evs|], ev.mem, ev.env) == Faulted(PastCode) <==>
              ts[|evs|].ip == c.base + |c.code|
  {
    hide StepThread, EncodeAll;
    RunStaysOnBoundaries(c, ins, ts, evs, |evs|);
    var t := ts[|evs|];
    var k := FetchAtBoundary(c, ins, t.ip);
    if k < |ins| {
      ExecNeverPastCode(c, ins[k], Boundary(ins, k + 1), t, ev);
    }
  }

  lemma ExecNeverPastCode(c: Image, i: Instr, next: nat, t: Thread, ev: Event)
    requires WellFormed(i) && next <= |c.code|
    ensures Exec(c, i, next, t, ev.mem, ev.env) != Faulted(UndefinedOpcode)
    ensures Exec(c, i, next, t, ev.mem, ev.env) != Faulted(PastCode)
  {
    if !IsControl(i.op) {
      DataFaults(i, t.data, ev.mem, ev.env);
    }
  }

  lemma DataFaults(i: Instr, d: Data, m: Mem, e: Env)
    requires WellFormed(i) && !IsControl(i.op)
    ensures ExecData(i, d, m, e).DataFault? ==>
              ExecData(i, d, m, e).why in {BadAccess, DivideByZero, DivideUndefined}
  {
  }

  // ----- call bracketing ----------------------------------------------------------------

  /** While the call made at ts[0] is open, its two return addresses and everything below stay put. */
  lemma {:induction false} InsideCall(c: Image, ts: seq<Thread>, evs: seq<Event>, d: nat, k: nat)
    requires IsTrace(c, ts, evs) && 1 <= k < |ts|
    requires |ts[1].shadow| == d + 2
    requires forall j :: 1 <= j < k ==> |ts[j].shadow| != d
    requires k < |ts| - 1 ==> |ts[k].shadow| != d
    ensures |ts[k].shadow| != d ==> |ts[k].shadow| >= d + 2 && ts[k].shadow[..d + 2] == ts[1].shadow
    ensures |ts[k].shadow| == d ==> k >= 2 && |ts[k - 1].shadow| == d + 2 && ts[k - 1].shadow == ts[1].shadow
    decreases k
  {
    hide StepThread, Fetch;
    if k == 1 {
      assert ts[1].shadow[..d + 2] == ts[1].shadow;
    } else {
      InsideCall(c, ts, evs, d, k - 1);
      assert StepThread(c, ts[k - 1], evs[k - 1]) == Some(ts[k]);
      var i, next := StepControl(c, ts[k - 1], evs[k - 1], ts[k]);
      if IsCall(i.op) {
        assert ts[k].shadow[..d + 2] == ts[k - 1].shadow[..d + 2];
      } else if i.op == OP_RET || i.op == OP_THROW {
        if |ts[k].shadow| == d {
          assert ts[k - 1].shadow[..d + 2] == ts[k - 1].shadow;
        } else {
          AboveOrEqual(c, ts, evs, d, k);
          assert ts[k].shadow[..d + 2] == ts[k - 1].shadow[..d + 2];
        }
      }
    }
  }

  /** Depth moves by two, so it cannot skip over d on the way down. */
  lemma {:induction false} AboveOrEqual(c: Image, ts: seq<Thread>, evs: seq<Event>, d: nat, k: nat)
    requires IsTrace(c, ts, evs) && 1 <= k < |ts|
    requires |ts[1].shadow| == d + 2
    requires forall j :: 1 <= j < k ==> |ts[j].shadow| != d
    ensures |ts[k].shadow| >= d && |ts[k].shadow| % 2 == d % 2
    decreases k
  {
    hide StepThread, Fetch;
    if k > 1 {
      AboveOrEqual(c, ts, evs, d, k - 1);
      assert StepThread(c, ts[k - 1], evs[k - 1]) == Some(ts[k]);
      var i, next := StepControl(c, ts[k - 1], evs[k - 1], ts[k]);
    }
  }

  /** Call bracketing: the first state back at the caller's depth is right after the call if it came by
      RET, at the call's error target if by THROW, with the caller's shadow stack intact; nothing else
      closes a call. */
  lemma CallReturns(c: Image, ts: seq<Thread>, evs: seq<Event>, call: Instr, next: nat)
    requires IsTrace(c, ts, evs) && |ts| >= 2
    requires AtOp(c, ts[0], call, next) && IsCall(call.op)
    requires |ts[|ts| - 1].shadow| == |ts[0].shadow|
    requires forall j :: 1 <= j < |ts| - 1 ==> |ts[j].shadow| != |ts[0].shadow|
    ensures ts[|ts| - 1].shadow == ts[0].shadow
    ensures || (OpAt(c, ts[|ts| - 2]) == Some(OP_RET) && ts[|ts| - 1].ip == c.base + next)
            || (OpAt(c, ts[|ts| - 2]) == Some(OP_THROW) && ts[|ts| - 1].ip == c.base + ErrTarget(call))
  {
    hide StepThread, Fetch;
    var n := |ts| - 1;
    assert StepThread(c, ts[0], evs[0]) == Some(ts[1]);
    Opened(c, ts[0], evs[0], ts[1], call, next);
    InsideCall(c, ts, evs, |ts[0].shadow|, n);
    assert StepThread(c, ts[n - 1], evs[n - 1]) == Some(ts[n]);
    Closed(c, ts[n - 1], evs[n - 1], ts[n], ts[0].shadow, c.base + ErrTarget(call), c.base + next);
  }

  lemma Opened(c: Image, t: Thread, ev: Event, t': Thread, call: Instr, next: nat)
    requires StepThread(c, t, ev) == Some(t') && AtOp(c, t, call, next) && IsCall(call.op)
    ensures WellFormed(call) && next <= |c.code|
    ensures t'.shadow == t.shadow + [c.base + ErrTarget(call), c.base + next]
  {
    var i, n := StepControl(c, t, ev, t');
  }

  lemma Closed(c: Image, t: Thread, ev: Event, t': Thread, below: seq<u64>, err: u64, ok: u64)
    requires StepThread(c, t, ev) == Some(t')
    requires t.shadow == below + [err, ok] && |t'.shadow| == |below|
    ensures t'.shadow == below
    ensures (OpAt(c, t) == Some(OP_RET) && t'.ip == ok) || (OpAt(c, t) == Some(OP_THROW) && t'.ip == err)
  {
    var i, n := StepControl(c, t, ev, t');
    assert OpAt(c, t) == Some(i.op);
  }

  /** +1 for a call, -1 for a return of either kind. */
  function Balance(c: Image, t: Thread): int {
    match OpAt(c, t)
    case Some(op) => if IsCall(op) then 1 else if op == OP_RET || op == OP_THROW then -1 else 0
    case None => 0
  }

  function Balances(c: Image, ts: seq<Thread>): int {
    if ts == [] then 0 else Balances(c, ts[..|ts| - 1]) + Balance(c, ts[|ts| - 1])
  }

  /** The shadow depth of every reachable state is twice the calls not yet returned, and within bounds. */
  lemma {:induction false} DepthCountsOpenCalls(c: Image, ts: seq<Thread>, evs: seq<Event>)
    requires IsTrace(c, ts, evs) && ts[0].shadow == []
    ensures |ts[|evs|].shadow| == 2 * Balances(c, ts[..|evs|])
    ensures |ts[|evs|].shadow| <= SHADOW_DEPTH
  {
    if evs != [] {
      var n := |evs| - 1;
      assert IsTrace(c, ts[..n + 1], evs[..n]);
      DepthCountsOpenCalls(c, ts[..n + 1], evs[..n]);
      assert ts[..n + 1][..n] == ts[..n];
      assert ts[..n + 1][..|ts[..n + 1]| - 1] == ts[..n];
      assert StepThread(c, ts[n], evs[n]) == Some(ts[n + 1]);
      var i, next := StepControl(c, ts[n], evs[n], ts[n + 1]);
    }
  }
}
