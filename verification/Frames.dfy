/** Data-stack discipline: ENTER/LEAVE frames over whole runs, and register save/restore by PUSH/POP. */
module Frames {
  import opened Words
  import opened Isa
  import opened Memory
  import opened Vm
  import opened ControlFlow
  import opened Stores

  // ----- frames over a run -------------------------------------------------------------

  /** Indices of the frames open after one more step. */
  function NextOpen(es: seq<nat>, op: Op, k: nat): seq<nat> {
    if op == OP_ENTER then es + [k]
    else if op == OP_LEAVE && es != [] then es[..|es| - 1]
    else es
  }

  /** Indices of the ENTER steps whose frame is open before step k, innermost last. */
  function Open(c: Image, ts: seq<Thread>, k: nat): (es: seq<nat>)
    requires k <= |ts|
    ensures forall j :: 0 <= j < |es| ==> es[j] < k
  {
    if k == 0 then []
    else
      var es := Open(c, ts, k - 1);
      match OpAt(c, ts[k - 1])
      case Some(op) =>
        NextOpen(es, op, k - 1)
      case None => es
  }

  /** Where ENTER at a state with this sp stores the caller's bp. */
  function SavedSlot(t: Thread): u64 { Sub64(t.data.sp, 8) }

  /** The word a step at k leaves in the slot of frame e. */
  function SlotAfter(c: Image, ts: seq<Thread>, evs: seq<Event>, k: nat, e: nat): Option<nat>
    requires k < |ts| && k < |evs| && e < |ts|
  {
    match Step(c, ts[k], evs[k].mem, evs[k].env)
    case Running(_, m) => Load(m, SavedSlot(ts[e]), 8)
    case _ => None
  }

  /** Between consecutive steps the saved words of frames that stay open keep their values. */
  ghost predicate SlotsUntouched(c: Image, ts: seq<Thread>, evs: seq<Event>, k: nat)
    requires |ts| == |evs| + 1 && k < |evs|
  {
    forall e :: e in Open(c, ts, k) + [k] && e in Open(c, ts, k + 1) && k + 1 < |evs| ==>
      Load(evs[k + 1].mem, SavedSlot(ts[e]), 8)
        == if e == k then SlotAfter(c, ts, evs, k, e) else Load(evs[k].mem, SavedSlot(ts[e]), 8)
  }

  // ----- whose stores matter ---------------------------------------------------------------

  /** The instruction about to be dispatched does not store to these 8 bytes. */
  predicate OwnStoreMisses(c: Image, t: Thread, slot: u64) {
    match Fetch(c, t.ip)
    case Decoded(i, _) => StoreOf(i, t.data).Some? ==> Apart(StoreOf(i, t.data).value, Range(slot, 8))
    case _ => true
  }

  /** Nobody else writes these 8 bytes: not the system call of this step, and no other thread until the next. */
  ghost predicate OthersMiss(c: Image, t: Thread, ev: Event, next: Mem, slot: u64) {
    && (OpAt(c, t) == Some(OP_SYSCALL) ==> Agree(ev.mem, ev.env.mem, slot, slot + 8))
    && (Step(c, t, ev.mem, ev.env).Running? ==> Agree(Step(c, t, ev.mem, ev.env).m, next, slot, slot + 8))
  }

  /** Step k and whatever happens before the next spare the saved words of the frames that stay open; the ENTER
      that makes a frame may of course store its own. */
  ghost predicate FramesSpared(c: Image, ts: seq<Thread>, evs: seq<Event>, k: nat)
    requires |ts| == |evs| + 1 && k < |evs|
  {
    forall e :: e in Open(c, ts, k) + [k] && e in Open(c, ts, k + 1) && k + 1 < |evs| ==>
      && (e != k ==> OwnStoreMisses(c, ts[k], SavedSlot(ts[e])))
      && OthersMiss(c, ts[k], evs[k], evs[k + 1].mem, SavedSlot(ts[e]))
  }

  lemma WordAgrees(m: Mem, m': Mem, a: nat)
    requires Agree(m, m', a, a + 8)
    ensures Load(m', a, 8) == Load(m, a, 8)
  {
    LoadFrame(m, m', a, 8);
  }

  /** A step that misses a word, with others missing it too, keeps it. */
  lemma WordKept(c: Image, t: Thread, ev: Event, next: Mem, slot: u64)
    requires StepThread(c, t, ev).Some? && OwnStoreMisses(c, t, slot) && OthersMiss(c, t, ev, next, slot)
    ensures Load(next, slot, 8) == Load(ev.mem, slot, 8)
  {
    hide Load, ExecData, StoreOf, SameOutside, ExecControl;
    var i := Fetch(c, t.ip).i;
    var m' := Step(c, t, ev.mem, ev.env).m;
    WordAgrees(m', next, slot);
    if IsControl(i.op) {
      ControlKeepsMemory(c, i, Fetch(c, t.ip).next, t, ev.mem);
    } else if i.op == OP_SYSCALL {
      SyscallMemory(i, t.data, ev.mem, ev.env);
      WordAgrees(ev.mem, ev.env.mem, slot);
    } else {
      StoreFrame(i, t.data, ev.mem, ev.env);
      LoadOutside(ev.mem, m', StoreOf(i, t.data), slot, 8);
    }
  }

  lemma ControlKeepsMemory(c: Image, i: Instr, next: nat, t: Thread, m: Mem)
    requires WellFormed(i) && IsControl(i.op) && next <= |c.code| && ExecControl(c, i, next, t, m).Running?
    ensures ExecControl(c, i, next, t, m).m == m
  {
  }

  lemma SyscallMemory(i: Instr, d: Data, m: Mem, e: Env)
    requires WellFormed(i) && i.op == OP_SYSCALL
    ensures ExecData(i, d, m, e).DataOk? && ExecData(i, d, m, e).m == e.mem
  {
  }

  lemma SparedIsUntouched(c: Image, ts: seq<Thread>, evs: seq<Event>, k: nat)
    requires IsTrace(c, ts, evs) && k < |evs| && FramesSpared(c, ts, evs, k)
    ensures SlotsUntouched(c, ts, evs, k)
  {
    hide Load, Open, OwnStoreMisses, OthersMiss, Step, SavedSlot;
    assert StepThread(c, ts[k], evs[k]) == Some(ts[k + 1]);
    forall e | e in Open(c, ts, k) + [k] && e in Open(c, ts, k + 1) && k + 1 < |evs|
      ensures Load(evs[k + 1].mem, SavedSlot(ts[e]), 8)
           == if e == k then SlotAfter(c, ts, evs, k, e) else Load(evs[k].mem, SavedSlot(ts[e]), 8)
    {
      if e == k {
        SlotKeptAfter(c, ts[k], evs[k], evs[k + 1].mem, SavedSlot(ts[e]));
      } else {
        WordKept(c, ts[k], evs[k], evs[k + 1].mem, SavedSlot(ts[e]));
      }
    }
  }

  lemma SlotKeptAfter(c: Image, t: Thread, ev: Event, next: Mem, slot: u64)
    requires StepThread(c, t, ev).Some? && OthersMiss(c, t, ev, next, slot)
    ensures Step(c, t, ev.mem, ev.env).Running?
    ensures Load(next, slot, 8) == Load(Step(c, t, ev.mem, ev.env).m, slot, 8)
  {
    hide Load, Step;
    WordAgrees(Step(c, t, ev.mem, ev.env).m, next, slot);
  }

  // ----- linked frames ------------------------------------------------------------------------

  /** bp points at the innermost saved word, and each frame was entered with bp at the one around it. */
  ghost predicate Chained(ts: seq<Thread>, es: seq<nat>, bp: u64) {
    && (forall j :: 0 <= j < |es| ==> es[j] < |ts|)
    && (es != [] ==> bp == SavedSlot(ts[es[|es| - 1]]))
    && (forall j :: 0 < j < |es| ==> ts[es[j]].data.bp == SavedSlot(ts[es[j - 1]]))
  }

  /** Every saved word is the bp its ENTER saw. */
  ghost predicate Saved(ts: seq<Thread>, es: seq<nat>, m: Mem)
    requires forall j :: 0 <= j < |es| ==> es[j] < |ts|
  {
    forall j :: 0 <= j < |es| ==> Load(m, SavedSlot(ts[es[j]]), 8) == Some(ts[es[j]].data.bp)
  }

  ghost predicate Linked(c: Image, ts: seq<Thread>, evs: seq<Event>, k: nat)
    requires |ts| == |evs| + 1 && k < |ts|
  {
    var es := Open(c, ts, k);
    Chained(ts, es, ts[k].data.bp) && (k < |evs| ==> Saved(ts, es, evs[k].mem))
  }

  /** How one step moves sp and bp. */
  lemma StepStack(c: Image, t: Thread, ev: Event, t': Thread)
    requires StepThread(c, t, ev) == Some(t')
    ensures OpAt(c, t).Some?
    ensures OpAt(c, t) == Some(OP_ENTER) ==>
              && t'.data.bp == SavedSlot(t)
              && Step(c, t, ev.mem, ev.env).Running?
              && Load(Step(c, t, ev.mem, ev.env).m, SavedSlot(t), 8) == Some(t.data.bp)
    ensures OpAt(c, t) == Some(OP_LEAVE) ==>
              t'.data.sp == Add64(t.data.bp, 8) && Load(ev.mem, t.data.bp, 8) == Some(t'.data.bp)
    ensures OpAt(c, t) != Some(OP_ENTER) && OpAt(c, t) != Some(OP_LEAVE) ==> t'.data.bp == t.data.bp
  {
    var f := Fetch(c, t.ip);
    if f.i.op == OP_ENTER {
      EnterStores(f.i, t.data, ev.mem, ev.env);
    }
  }

  lemma EnterStores(i: Instr, d: Data, m: Mem, e: Env)
    requires WellFormed(i) && i.op == OP_ENTER && ExecData(i, d, m, e).DataOk?
    ensures ExecData(i, d, m, e) == ExecStack(i, d, m)
    ensures ExecStack(i, d, m).d.bp == Sub64(d.sp, 8)
    ensures Load(ExecStack(i, d, m).m, Sub64(d.sp, 8), 8) == Some(d.bp)
  {
    PushLoads(d, m, d.bp);
  }

  lemma PushLoads(d: Data, m: Mem, v: u64)
    requires PushWord(d, m, v).DataOk?
    ensures PushWord(d, m, v).d == d.(sp := Sub64(d.sp, 8))
    ensures Load(PushWord(d, m, v).m, Sub64(d.sp, 8), 8) == Some(v)
    ensures Agree(m, PushWord(d, m, v).m, Sub64(d.sp, 8) + 8, TWO64)
  {
    StoreWord(m, Sub64(d.sp, 8), v);
  }

  lemma {:induction false} FramesLinked(c: Image, ts: seq<Thread>, evs: seq<Event>, k: nat)
    requires IsTrace(c, ts, evs) && k < |ts|
    requires forall j :: 0 <= j < k ==> FramesSpared(c, ts, evs, j)
    ensures Linked(c, ts, evs, k)
    decreases k
  {
    hide SlotsUntouched, FramesSpared, StepThread, OpAt, Open, Linked;
    if k > 0 {
      FramesLinked(c, ts, evs, k - 1);
      SparedIsUntouched(c, ts, evs, k - 1);
      LinkedStep(c, ts, evs, k - 1);
    } else {
      LinkedStart(c, ts, evs);
    }
  }

  lemma LinkedStart(c: Image, ts: seq<Thread>, evs: seq<Event>)
    requires |ts| == |evs| + 1
    ensures Linked(c, ts, evs, 0)
  {
    assert Open(c, ts, 0) == [];
  }

  lemma LinkedStep(c: Image, ts: seq<Thread>, evs: seq<Event>, k: nat)
    requires IsTrace(c, ts, evs) && k < |evs|
    requires Linked(c, ts, evs, k) && SlotsUntouched(c, ts, evs, k)
    ensures Linked(c, ts, evs, k + 1)
  {
    hide StepThread, Chained, Saved, SlotsUntouched, OpAt;
    var es := Open(c, ts, k);
    assert StepThread(c, ts[k], evs[k]) == Some(ts[k + 1]);
    StepStack(c, ts[k], evs[k], ts[k + 1]);
    ChainStep(ts, es, k, ts[k + 1].data.bp, OpAt(c, ts[k]).value, evs[k].mem);
    if k + 1 < |evs| {
      SavedStep(c, ts, evs, k);
    }
  }

  lemma ChainStep(ts: seq<Thread>, es: seq<nat>, k: nat, bp: u64, op: Op, m: Mem)
    requires k < |ts| && Chained(ts, es, ts[k].data.bp) && Saved(ts, es, m)
    requires op == OP_ENTER ==> bp == SavedSlot(ts[k])
    requires op == OP_LEAVE ==> Load(m, ts[k].data.bp, 8) == Some(bp)
    requires op != OP_ENTER && op != OP_LEAVE ==> bp == ts[k].data.bp
    ensures Chained(ts, NextOpen(es, op, k), bp)
  {
    hide SavedSlot;
  }

  lemma SavedStep(c: Image, ts: seq<Thread>, evs: seq<Event>, k: nat)
    requires IsTrace(c, ts, evs) && k + 1 < |evs|
    requires Saved(ts, Open(c, ts, k), evs[k].mem) && SlotsUntouched(c, ts, evs, k)
    ensures Saved(ts, Open(c, ts, k + 1), evs[k + 1].mem)
  {
    hide SavedSlot, OpAt;
    var es, es' := Open(c, ts, k), Open(c, ts, k + 1);
    assert StepThread(c, ts[k], evs[k]) == Some(ts[k + 1]);
    StepStack(c, ts[k], evs[k], ts[k + 1]);
    hide Step;
    forall j | 0 <= j < |es'|
      ensures Load(evs[k + 1].mem, SavedSlot(ts[es'[j]]), 8) == Some(ts[es'[j]].data.bp)
    {
      var e := es'[j];
      assert e in es' && e in es + [k];
      if j < |es| {
        assert e == es[j];
      }
    }
  }

  /** Frame discipline: in any run whose stores miss the saved words of open frames, each LEAVE restores the sp
      and the bp that its matching ENTER saw. */
  lemma LeaveRestores(c: Image, ts: seq<Thread>, evs: seq<Event>, k: nat)
    requires IsTrace(c, ts, evs) && k < |evs|
    requires forall j :: 0 <= j < k ==> FramesSpared(c, ts, evs, j)
    requires OpAt(c, ts[k]) == Some(OP_LEAVE) && Open(c, ts, k) != []
    ensures var e := Open(c, ts, k)[|Open(c, ts, k)| - 1];
            ts[k + 1].data.sp == ts[e].data.sp && ts[k + 1].data.bp == ts[e].data.bp
  {
    hide StepThread, FramesSpared, OpAt, Open, Linked;
    FramesLinked(c, ts, evs, k);
    assert StepThread(c, ts[k], evs[k]) == Some(ts[k + 1]);
    LeaveStep(c, ts, evs, k);
  }

  lemma LeaveStep(c: Image, ts: seq<Thread>, evs: seq<Event>, k: nat)
    requires |ts| == |evs| + 1 && k < |evs| && StepThread(c, ts[k], evs[k]) == Some(ts[k + 1])
    requires Linked(c, ts, evs, k) && OpAt(c, ts[k]) == Some(OP_LEAVE) && Open(c, ts, k) != []
    ensures var e := Open(c, ts, k)[|Open(c, ts, k)| - 1];
            ts[k + 1].data.sp == ts[e].data.sp && ts[k + 1].data.bp == ts[e].data.bp
  {
    hide StepThread, OpAt, Open, Load;
    StepStack(c, ts[k], evs[k], ts[k + 1]);
  }

  // ----- saving registers ---------------------------------------------------------------

  function Push(r: Reg): Instr { Instr(OP_PUSH, r, 0, 0, 0) }
  function Pop(r: Reg): Instr { Instr(OP_POP, r, 0, 0, 0) }

  function ExecList(ins: seq<Instr>, d: Data, m: Mem): DataOut
    requires forall k :: 0 <= k < |ins| ==> WellFormed(ins[k]) && IsStack(ins[k].op)
  {
    if ins == [] then DataOk(d, m)
    else match ExecStack(ins[0], d, m)
      case DataFault(w) => DataFault(w)
      case DataOk(d', m') => ExecList(ins[1..], d', m')
  }

  function Pushes(rs: seq<Reg>): (ins: seq<Instr>)
    ensures forall k :: 0 <= k < |ins| ==> WellFormed(ins[k]) && IsStack(ins[k].op)
  {
    if rs == [] then [] else [Push(rs[0])] + Pushes(rs[1..])
  }

  /** The same registers, popped last to first. */
  function Pops(rs: seq<Reg>): (ins: seq<Instr>)
    ensures forall k :: 0 <= k < |ins| ==> WellFormed(ins[k]) && IsStack(ins[k].op)
  {
    if rs == [] then [] else Pops(rs[1..]) + [Pop(rs[0])]
  }

  lemma {:induction false} ExecAppend(a: seq<Instr>, b: seq<Instr>, d: Data, m: Mem)
    requires forall k :: 0 <= k < |a + b| ==> WellFormed((a + b)[k]) && IsStack((a + b)[k].op)
    requires forall k :: 0 <= k < |a| ==> WellFormed(a[k]) && IsStack(a[k].op)
    requires forall k :: 0 <= k < |b| ==> WellFormed(b[k]) && IsStack(b[k].op)
    ensures ExecList(a + b, d, m) ==
              match ExecList(a, d, m)
              case DataFault(w) => DataFault(w)
              case DataOk(d', m') => ExecList(b, d', m')
  {
    if a == [] {
      assert a + b == b;
    } else {
      assert (a + b)[0] == a[0] && (a + b)[1..] == a[1..] + b;
      match ExecStack(a[0], d, m)
      case DataFault(_) =>
      case DataOk(d', m') => ExecAppend(a[1..], b, d', m');
    }
  }

  lemma PushStep(r: Reg, d: Data, m: Mem)
    requires 8 <= d.sp && ExecStack(Push(r), d, m).DataOk?
    ensures ExecStack(Push(r), d, m).d == d.(sp := d.sp - 8)
    ensures Load(ExecStack(Push(r), d, m).m, d.sp - 8, 8) == Some(d.gpr[r])
    ensures Agree(m, ExecStack(Push(r), d, m).m, d.sp, TWO64)
  {
    PushLoads(d, m, d.gpr[r]);
  }

  lemma PopStep(r: Reg, d: Data, m: Mem, v: u64)
    requires d.sp + 8 < TWO64 && Load(m, d.sp, 8) == Some(v)
    ensures ExecStack(Pop(r), d, m) == DataOk(d.(gpr := d.gpr[r := v], sp := d.sp + 8), m)
  {
  }

  /** Pushing lowers sp by 8 a register, and writes only below the old sp. */
  lemma {:induction false} PushesEffect(rs: seq<Reg>, d: Data, m: Mem)
    requires 8 * |rs| <= d.sp && ExecList(Pushes(rs), d, m).DataOk?
    ensures ExecList(Pushes(rs), d, m).d == d.(sp := d.sp - 8 * |rs|)
    ensures Agree(m, ExecList(Pushes(rs), d, m).m, d.sp, TWO64)
  {
    if rs != [] {
      hide ExecStack;
      assert Pushes(rs)[1..] == Pushes(rs[1..]);
      PushStep(rs[0], d, m);
      var DataOk(d1, m1) := ExecStack(Push(rs[0]), d, m);
      PushesEffect(rs[1..], d1, m1);
    }
  }

  /** `cur` with the listed registers taken from `saved`. */
  function Restored(rs: seq<Reg>, saved: Regs, cur: Regs): (g: Regs)
    ensures forall r: Reg :: g[r] == if r in rs then saved[r] else cur[r]
  {
    if rs == [] then cur else
      assert forall r: Reg :: r in rs <==> r == rs[0] || r in rs[1..];
      Restored(rs[1..], saved, cur)[rs[0] := saved[rs[0]]]
  }

  /** Push a list of registers, run any body that gives sp back and keeps the pushed words, pop in reverse:
      every listed register and sp are back, whatever the body did to the registers. */
  lemma {:induction false} SaveRestore(rs: seq<Reg>, d: Data, m: Mem, body: Data, after: Mem)
    requires 8 * |rs| <= d.sp && ExecList(Pushes(rs), d, m).DataOk?
    requires body.sp == d.sp - 8 * |rs|
    requires Agree(ExecList(Pushes(rs), d, m).m, after, body.sp, d.sp)
    ensures ExecList(Pops(rs), body, after) == DataOk(body.(gpr := Restored(rs, d.gpr, body.gpr), sp := d.sp), after)
  {
    if rs != [] {
      hide ExecStack;
      PushStep(rs[0], d, m);
      assert Pushes(rs)[1..] == Pushes(rs[1..]);
      var DataOk(d1, m1) := ExecStack(Push(rs[0]), d, m);
      SaveRestore(rs[1..], d1, m1, body, after);
      FirstWordKept(rs, d, m, after);
      PopLast(rs, body, after, body.(gpr := Restored(rs[1..], d.gpr, body.gpr), sp := d1.sp), d.gpr[rs[0]]);
    }
  }

  lemma PopLast(rs: seq<Reg>, d: Data, m: Mem, d1: Data, v: u64)
    requires rs != [] && ExecList(Pops(rs[1..]), d, m) == DataOk(d1, m)
    requires d1.sp + 8 < TWO64 && Load(m, d1.sp, 8) == Some(v)
    ensures ExecList(Pops(rs), d, m) == DataOk(d1.(gpr := d1.gpr[rs[0] := v], sp := d1.sp + 8), m)
  {
    hide ExecStack;
    ExecAppend(Pops(rs[1..]), [Pop(rs[0])], d, m);
    PopStep(rs[0], d1, m, v);
    assert ExecList([Pop(rs[0])], d1, m) == ExecStack(Pop(rs[0]), d1, m);
  }

  lemma FirstWordKept(rs: seq<Reg>, d: Data, m: Mem, after: Mem)
    requires rs != [] && 8 * |rs| <= d.sp && ExecList(Pushes(rs), d, m).DataOk?
    requires Agree(ExecList(Pushes(rs), d, m).m, after, d.sp - 8 * |rs|, d.sp)
    ensures Load(after, d.sp - 8, 8) == Some(d.gpr[rs[0]])
  {
    hide ExecStack;
    assert Pushes(rs)[1..] == Pushes(rs[1..]);
    PushStep(rs[0], d, m);
    var DataOk(d1, m1) := ExecStack(Push(rs[0]), d, m);
    var m2 := ExecList(Pushes(rs), d, m).m;
    PushesEffect(rs[1..], d1, m1);
    LoadFrame(m1, m2, d.sp - 8, 8);
    LoadFrame(m2, after, d.sp - 8, 8);
  }
}
