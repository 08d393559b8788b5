/** System calls on shared state: mutexes and atomic operations. */
module Syscalls {
  import opened Words
  import opened Memory

  const SYS_CREATE: nat := 16
  const SYS_LOCK: nat := 17
  const SYS_UNLOCK: nat := 18
  const SYS_DESTROY: nat := 19
  const SYS_FETCHADD: nat := 20
  const SYS_CMPXCHG: nat := 21
  const SYS_COUNT: nat := 22

  const FAILED: u64 := 0xFFFF_FFFF_FFFF_FFFF

  /** Shared memory, and every existing mutex with the thread that holds it. */
  datatype Shared = Shared(mem: Mem, mutexes: map<u64, Option<nat>>)

  /** A call returns a word in the caller's result, waits, or is outside this model: another system call, a
      handle that is no mutex, unlocking a mutex held elsewhere, an unmapped cell. */
  datatype Reply = Return(word: u64, s: Shared) | Wait | Outside

  /** `block` is what malloc returns: 0, or an address no live mutex has. */
  function Create(s: Shared, block: u64): Reply {
    if block == 0 then Return(0, s)
    else if block in s.mutexes then Outside
    else Return(block, s.(mutexes := s.mutexes[block := None]))
  }

  function Destroy(s: Shared, h: u64): Reply {
    if h == 0 then Return(0, s)
    else if h !in s.mutexes || s.mutexes[h].Some? then Outside
    else Return(0, s.(mutexes := s.mutexes - {h}))
  }

  function Lock(s: Shared, who: nat, h: u64): Reply {
    if h == 0 then Return(FAILED, s)
    else if h !in s.mutexes then Outside
    else if s.mutexes[h].Some? then Wait
    else Return(0, s.(mutexes := s.mutexes[h := Some(who)]))
  }

  function Unlock(s: Shared, who: nat, h: u64): Reply {
    if h == 0 then Return(FAILED, s)
    else if h !in s.mutexes || s.mutexes[h] != Some(who) then Outside
    else Return(0, s.(mutexes := s.mutexes[h := None]))
  }

  function FetchAdd(s: Shared, p: u64, delta: u64): Reply {
    PowValues();
    match Load(s.mem, p, 8)
    case None => Outside
    case Some(v) =>
      match Store(s.mem, p, 8, Add64(v, delta))
      case None => Outside
      case Some(m) => Return(v, s.(mem := m))
  }

  /** The old value is returned either way; the swap happens if it is the expected one. */
  function CmpXchg(s: Shared, p: u64, expected: u64, desired: u64): Reply {
    PowValues();
    match Load(s.mem, p, 8)
    case None => Outside
    case Some(v) =>
      if v != expected then Return(v, s)
      else match Store(s.mem, p, 8, desired)
        case None => Outside
        case Some(m) => Return(v, s.(mem := m))
  }

  /** Unknown numbers leave -1 in the result. */
  function Dispatch(s: Shared, who: nat, nr: u64, a1: u64, a2: u64, a3: u64, block: u64): Reply {
    var k := nr % TWO32;
    if k == SYS_CREATE then Create(s, block)
    else if k == SYS_DESTROY then Destroy(s, a1)
    else if k == SYS_LOCK then Lock(s, who, a1)
    else if k == SYS_UNLOCK then Unlock(s, who, a1)
    else if k == SYS_FETCHADD then FetchAdd(s, a1, a2)
    else if k == SYS_CMPXCHG then CmpXchg(s, a1, a2, a3)
    else if k >= SYS_COUNT then Return(FAILED, s)
    else Outside
  }

  /** The dispatcher as it runs, updating shared memory and mutexes in place. */
  class Kernel {
    var mem: Mem
    var mutexes: map<u64, Option<nat>>

    function Abs(): Shared
      reads this
    {
      Shared(mem, mutexes)
    }

    constructor (m: Mem)
      ensures Abs() == Shared(m, map[])
    {
      mem, mutexes := m, map[];
    }

    method Call(who: nat, nr: u64, a1: u64, a2: u64, a3: u64, block: u64) returns (ret: Option<u64>)
      modifies this
      ensures match Dispatch(old(Abs()), who, nr, a1, a2, a3, block)
              case Return(w, s) => ret == Some(w) && Abs() == s
              case _ => ret == None && Abs() == old(Abs())
    {
      PowValues();
      ret := Some(FAILED);
      var k := nr % TWO32;
      if k == SYS_CREATE {
        if block == 0 { return Some(0); }
        if block in mutexes { return None; }
        mutexes := mutexes[block := None];
        ret := Some(block);
      } else if k == SYS_DESTROY {
        if a1 == 0 { return Some(0); }
        if a1 !in mutexes || mutexes[a1].Some? { return None; }
        mutexes := mutexes - {a1};
        ret := Some(0);
      } else if k == SYS_LOCK {
        if a1 == 0 { return Some(FAILED); }
        if a1 !in mutexes || mutexes[a1].Some? { return None; }
        mutexes := mutexes[a1 := Some(who)];
        ret := Some(0);
      } else if k == SYS_UNLOCK {
        if a1 == 0 { return Some(FAILED); }
        if a1 !in mutexes || mutexes[a1] != Some(who) { return None; }
        mutexes := mutexes[a1 := None];
        ret := Some(0);
      } else if k == SYS_FETCHADD {
        var v := Load(mem, a1, 8);
        if v == None { return None; }
        var m := Store(mem, a1, 8, Add64(v.value, a2));
        if m == None { return None; }
        mem := m.value;
        ret := Some(v.value);
      } else if k == SYS_CMPXCHG {
        var v := Load(mem, a1, 8);
        if v == None { return None; }
        if v.value == a2 {
          var m := Store(mem, a1, 8, a3);
          if m == None { return None; }
          mem := m.value;
        }
        ret := Some(v.value);
      } else if k < SYS_COUNT {
        return None;
      }
    }
  }

  // ----- a mutex from creation to destruction -------------------------------------------------------------

  /** A created mutex is free; whoever locks it shuts everyone out until the same thread unlocks it; destroying it
      leaves the state as it was before. */
  lemma MutexLifetime(s: Shared, h: u64, a: nat, b: nat, x: u64, y: u64)
    requires h != 0 && h !in s.mutexes
    ensures var s1 := Dispatch(s, a, SYS_CREATE, x, y, 0, h);
            && s1.Return? && s1.word == h
            && var s2 := Dispatch(s1.s, a, SYS_LOCK, h, x, y, 0);
            && s2.Return? && s2.word == 0
            && Dispatch(s2.s, b, SYS_LOCK, h, x, y, 0) == Wait
            && (b != a ==> Dispatch(s2.s, b, SYS_UNLOCK, h, x, y, 0) == Outside)
            && Dispatch(s2.s, a, SYS_UNLOCK, h, x, y, 0) == Return(0, s1.s)
            && Dispatch(s1.s, b, SYS_DESTROY, h, x, y, 0) == Return(0, s)
  {
    var s1 := Create(s, h).s;
    assert s1.mutexes - {h} == s.mutexes;
    var s2 := Lock(s1, a, h).s;
    assert s2.mutexes[h := None] == s1.mutexes;
  }

  // ----- calls that fail and calls that read and write one cell -------------------------------------------

  /** Handle 0, a failed allocation and an unknown number: the result, with nothing changed. Only the low 32 bits of
      the number count. */
  lemma FailingCalls(s: Shared, who: nat, nr: u64, a1: u64, a2: u64, a3: u64, block: u64)
    ensures nr % TWO32 == 16 && block == 0 ==> Dispatch(s, who, nr, a1, a2, a3, block) == Return(0, s)
    ensures nr % TWO32 in {17, 18} && a1 == 0 ==> Dispatch(s, who, nr, a1, a2, a3, block) == Return(TWO64 - 1, s)
    ensures nr % TWO32 == 19 && a1 == 0 ==> Dispatch(s, who, nr, a1, a2, a3, block) == Return(0, s)
    ensures nr % TWO32 >= 22 ==> Dispatch(s, who, nr, a1, a2, a3, block) == Return(TWO64 - 1, s)
    ensures Dispatch(s, who, nr, a1, a2, a3, block) == Dispatch(s, who, nr % TWO32, a1, a2, a3, block)
  {
    hide Load, Store;
  }

  /** Both atomic operations return the number that was in the cell. Fetch-add leaves the sum modulo 2^64 there,
      compare-exchange the new value if the old one was expected; no other byte and no mutex changes. */
  lemma AtomicCalls(s: Shared, who: nat, nr: u64, p: u64, a2: u64, a3: u64, block: u64)
    requires nr % TWO32 in {20, 21} && Mapped(s.mem, p, 8)
    ensures var r := Dispatch(s, who, nr, p, a2, a3, block);
            var v := FromLe(Bytes(s.mem, p, 8));
            && r.Return? && r.word == v && r.s.mutexes == s.mutexes && r.s.mem.Keys == s.mem.Keys
            && (forall a :: a in s.mem && !(p <= a < p + 8) ==> r.s.mem[a] == s.mem[a])
            && FromLe(Bytes(r.s.mem, p, 8))
               == if nr % TWO32 == 20 then (v + a2) % TWO64 else if v == a2 then a3 else v
  {
    hide Load, Store, Bytes, FromLe;
    PowValues();
    LoadIsLe(s.mem, p, 8);
    var v := Load(s.mem, p, 8).value;
    var w := if nr % TWO32 == 20 then Add64(v, a2) else a3;
    StoreDefined(s.mem, p, 8, w);
    var m := Store(s.mem, p, 8, w).value;
    StoreWord(s.mem, p, w);
    LoadDefined(m, p, 8);
    LoadIsLe(m, p, 8);
  }

  // ----- atomic addition -------------------------------------------------------------------------------

  /** Every thread has the deltas it has still to add to the cell at p. */
  datatype Adders = Adders(todo: seq<seq<u64>>, s: Shared)

  /** Thread i performs its next fetch-add. */
  function AddStep(a: Adders, p: u64, i: nat): Option<Adders> {
    if i >= |a.todo| || a.todo[i] == [] then None
    else match Dispatch(a.s, i, SYS_FETCHADD, p, a.todo[i][0], 0, 0)
      case Return(_, s) => Some(Adders(a.todo[i := a.todo[i][1..]], s))
      case _ => None
  }

  function AddRun(a: Adders, p: u64, schedule: seq<nat>): Option<Adders>
    decreases |schedule|
  {
    if schedule == [] then Some(a)
    else match AddStep(a, p, schedule[0])
      case None => None
      case Some(b) => AddRun(b, p, schedule[1..])
  }

  function Sum(ds: seq<u64>): nat {
    if ds == [] then 0 else ds[0] + Sum(ds[1..])
  }

  function Total(todo: seq<seq<u64>>): nat {
    if todo == [] then 0 else Sum(todo[0]) + Total(todo[1..])
  }

  lemma {:induction false} TotalAfter(todo: seq<seq<u64>>, i: nat)
    requires i < |todo| && todo[i] != []
    ensures Total(todo) == todo[i][0] + Total(todo[i := todo[i][1..]])
  {
    if i > 0 {
      TotalAfter(todo[1..], i - 1);
      assert todo[i := todo[i][1..]][1..] == todo[1..][i - 1 := todo[i][1..]];
    } else {
      assert todo[0 := todo[0][1..]][1..] == todo[1..];
    }
  }

  lemma FetchAddCell(s: Shared, who: nat, p: u64, d: u64)
    requires Dispatch(s, who, SYS_FETCHADD, p, d, 0, 0).Return?
    ensures Load(s.mem, p, 8).Some?
    ensures var r := Dispatch(s, who, SYS_FETCHADD, p, d, 0, 0);
            r.word == Load(s.mem, p, 8).value && Load(r.s.mem, p, 8) == Some((r.word + d) % TWO64)
  {
    PowValues();
    var v := Load(s.mem, p, 8).value;
    StoreWord(s.mem, p, Add64(v, d));
  }

  lemma ModAdd(v: int, d: int, t: int)
    ensures ((v + d) % TWO64 + t) % TWO64 == (v + (d + t)) % TWO64
  {
    var x := v + d;
    ModUnique(x + t, TWO64, x / TWO64 + (x % TWO64 + t) / TWO64, (x % TWO64 + t) % TWO64);
  }

  /** The cell plus what is still to be added is conserved modulo 2^64, under every schedule. */
  lemma {:induction false} AddConserves(a: Adders, p: u64, schedule: seq<nat>)
    requires AddRun(a, p, schedule).Some? && Load(a.s.mem, p, 8).Some?
    ensures var b := AddRun(a, p, schedule).value;
            Load(b.s.mem, p, 8).Some? &&
            (Load(b.s.mem, p, 8).value + Total(b.todo)) % TWO64 == (Load(a.s.mem, p, 8).value + Total(a.todo)) % TWO64
    decreases |schedule|
  {
    hide Dispatch, Load, Total;
    if schedule != [] {
      var i := schedule[0];
      var d := a.todo[i][0];
      var b := AddStep(a, p, i).value;
      FetchAddCell(a.s, i, p, d);
      AddConserves(b, p, schedule[1..]);
      TotalAfter(a.todo, i);
      ModAdd(Load(a.s.mem, p, 8).value, d, Total(b.todo));
    }
  }

  /** Once every thread is done the cell holds its first value plus all deltas modulo 2^64. */
  lemma AllAdded(a: Adders, p: u64, schedule: seq<nat>)
    requires AddRun(a, p, schedule).Some? && Load(a.s.mem, p, 8).Some?
    requires forall i :: 0 <= i < |AddRun(a, p, schedule).value.todo| ==> AddRun(a, p, schedule).value.todo[i] == []
    ensures Load(AddRun(a, p, schedule).value.s.mem, p, 8) == Some((Load(a.s.mem, p, 8).value + Total(a.todo)) % TWO64)
  {
    hide AddRun, Load;
    PowValues();
    AddConserves(a, p, schedule);
    NothingLeft(AddRun(a, p, schedule).value.todo);
  }

  lemma {:induction false} NothingLeft(todo: seq<seq<u64>>)
    requires forall i :: 0 <= i < |todo| ==> todo[i] == []
    ensures Total(todo) == 0
  {
    if todo != [] {
      NothingLeft(todo[1..]);
    }
  }

  // ----- compare-exchange -----------------------------------------------------------------------------------

  /** Old values seen by racers that compare with `expected` and write their own value, in order of arrival. */
  function Race(s: Shared, p: u64, expected: u64, desired: seq<u64>): Option<(seq<u64>, Shared)>
    decreases |desired|
  {
    if desired == [] then Some(([], s))
    else match Dispatch(s, 0, SYS_CMPXCHG, p, expected, desired[0], 0)
      case Return(w, s1) =>
        (match Race(s1, p, expected, desired[1..])
         case None => None
         case Some(r) => Some(([w] + r.0, r.1)))
      case _ => None
  }

  lemma CmpXchgCell(s: Shared, p: u64, expected: u64, desired: u64)
    requires Dispatch(s, 0, SYS_CMPXCHG, p, expected, desired, 0).Return?
    ensures Load(s.mem, p, 8).Some?
    ensures var r := Dispatch(s, 0, SYS_CMPXCHG, p, expected, desired, 0);
            && r.word == Load(s.mem, p, 8).value
            && Load(r.s.mem, p, 8) == Some(if r.word == expected then desired else r.word)
  {
    PowValues();
    if Load(s.mem, p, 8) == Some(expected) {
      StoreWord(s.mem, p, desired);
    }
  }

  /** Once the cell differs from the expected value no racer succeeds and the cell stays. */
  lemma {:induction false} NoLateWinner(s: Shared, p: u64, expected: u64, desired: seq<u64>)
    requires Race(s, p, expected, desired).Some? && Load(s.mem, p, 8).Some? && Load(s.mem, p, 8).value != expected
    ensures var r := Race(s, p, expected, desired).value;
            && |r.0| == |desired| && (forall k :: 0 <= k < |desired| ==> r.0[k] != expected)
            && Load(r.1.mem, p, 8) == Load(s.mem, p, 8)
    decreases |desired|
  {
    hide Dispatch, Load;
    if desired != [] {
      CmpXchgCell(s, p, expected, desired[0]);
      NoLateWinner(Dispatch(s, 0, SYS_CMPXCHG, p, expected, desired[0], 0).s, p, expected, desired[1..]);
    }
  }

  /** In whatever order the racers arrive, exactly one sees the expected value, and its value stays. */
  lemma OneWinner(s: Shared, p: u64, expected: u64, desired: seq<u64>)
    requires desired != [] && Race(s, p, expected, desired).Some? && Load(s.mem, p, 8) == Some(expected)
    requires forall k :: 0 <= k < |desired| ==> desired[k] != expected
    ensures var r := Race(s, p, expected, desired).value;
            && |r.0| == |desired|
            && (exists k :: 0 <= k < |desired| && r.0[k] == expected && Load(r.1.mem, p, 8) == Some(desired[k])
                  && forall j :: 0 <= j < |desired| && r.0[j] == expected ==> j == k)
  {
    hide Dispatch, Load;
    CmpXchgCell(s, p, expected, desired[0]);
    var s1 := Dispatch(s, 0, SYS_CMPXCHG, p, expected, desired[0], 0).s;
    NoLateWinner(s1, p, expected, desired[1..]);
    var r := Race(s, p, expected, desired).value;
    assert r.0[0] == expected;
    assert forall j :: 1 <= j < |desired| ==> r.0[j] == Race(s1, p, expected, desired[1..]).value.0[j - 1];
  }
}
