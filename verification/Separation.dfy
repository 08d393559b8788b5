/** The machine as it lies in one memory: bytecode, instruction pointer, shadow stack and shadow stack pointer are
    bytes that any store can reach. A run whose stores miss them is a run of the machine that keeps them apart;
    any other run stays in the program exactly when what is stored over them is an instruction boundary. */
module Separation {
  import opened Words
  import opened Isa
  import opened Memory
  import opened Vm
  import opened Stores
  import opened ControlFlow

  // ----- layout -----------------------------------------------------------------------------------

  /** Bytecode of `len` bytes from `base`. The part of the thread record that dispatching uses is a row of words
      from `rf`: general registers, ip, sp, bp, fl, floating-point registers, shadow array, shadow stack pointer. */
  datatype Layout = Layout(base: nat, len: nat, rf: nat)

  const IP: nat := 8
  const SHADOW: nat := 20
  const STOP: nat := 2068
  const WORDS: nat := 2069

  function At(y: Layout, i: nat): nat { y.rf + 8 * i }

  function CodeRange(y: Layout): Range { Range(y.base, y.len) }
  function RecordRange(y: Layout): Range { Range(y.rf, 8 * WORDS) }

  ghost predicate ValidLayout(y: Layout) {
    && y.base + TWO32 <= TWO64 && y.len < TWO32 && At(y, WORDS) <= TWO64
    && Apart(CodeRange(y), RecordRange(y))
  }

  function CodeIn(y: Layout, m: Mem): (code: seq<byte>)
    ensures |code| == y.len && forall k :: 0 <= k < y.len ==> code[k] == ByteIn(m, y.base + k)
  {
    Bytes(m, y.base, y.len)
  }

  function ImageIn(y: Layout, m: Mem): Image
    requires ValidLayout(y)
  {
    RawImage(CodeIn(y, m), y.base)
  }

  /** Word i of the record. */
  function Word(y: Layout, m: Mem, i: nat): u64 {
    PowValues();
    match Load(m, At(y, i), 8) case Some(v) => v case None => 0
  }

  function SetWord(y: Layout, m: Mem, i: nat, v: u64): Option<Mem> { Store(m, At(y, i), 8, v) }

  /** Words on the shadow stack, from its pointer. */
  function Depth(y: Layout, m: Mem): nat {
    if Word(y, m, STOP) < At(y, SHADOW) then 0 else (Word(y, m, STOP) - At(y, SHADOW)) / 8
  }

  /** The pointer is at a word of the array or right behind it. */
  predicate Sound(y: Layout, m: Mem) {
    Depth(y, m) <= SHADOW_DEPTH && Word(y, m, STOP) == At(y, SHADOW + Depth(y, m))
  }

  /** Word k of the shadow array. */
  function Saved(y: Layout, m: Mem, k: nat): u64 { Word(y, m, SHADOW + k) }

  function ShadowIn(y: Layout, m: Mem, n: nat): (s: seq<u64>)
    ensures |s| == n && forall k :: 0 <= k < n ==> s[k] == Saved(y, m, k)
  {
    seq<u64>(n, k requires 0 <= k < n => Saved(y, m, k))
  }

  /** A word of the record stored: the code and all other words stay. */
  lemma PutWord(y: Layout, m: Mem, i: nat, v: u64)
    requires ValidLayout(y) && i < WORDS && SetWord(y, m, i, v).Some?
    ensures var m' := SetWord(y, m, i, v).value;
            && CodeIn(y, m') == CodeIn(y, m) && m'.Keys == m.Keys
            && forall j {:trigger Word(y, m', j)} :: 0 <= j < WORDS ==>
                 Word(y, m', j) == if j == i then v else Word(y, m, j)
  {
    hide Store, Load;
    var m' := SetWord(y, m, i, v).value;
    StoreMisses(m, At(y, i), 8, v);
    StoreWord(m, At(y, i), v);
    forall j {:trigger Word(y, m', j)} | 0 <= j < WORDS && j != i ensures Word(y, m', j) == Word(y, m, j) {
      LoadOutside(m, m', Some(Range(At(y, i), 8)), At(y, j), 8);
    }
    forall k | 0 <= k < y.len ensures CodeIn(y, m')[k] == CodeIn(y, m)[k] { }
  }

  // ----- one step in one memory -----------------------------------------------------------------------

  /** Store at the shadow stack pointer, wherever it points below the array's end, and move it up. */
  function Spush(y: Layout, m: Mem, v: u64): Option<Mem>
    requires ValidLayout(y)
  {
    var p := Word(y, m, STOP);
    if p >= At(y, STOP) then None
    else match Store(m, p, 8, v)
      case None => None
      case Some(m1) => SetWord(y, m1, STOP, p + 8)
  }

  /** The word popped, and the memory after it. */
  function Spop(y: Layout, m: Mem): Option<(u64, Mem)> {
    PowValues();
    var p := Word(y, m, STOP);
    if p == At(y, SHADOW) then None
    else match SetWord(y, m, STOP, Sub64(p, 8))
      case None => None
      case Some(m1) =>
        match Load(m1, Sub64(p, 8), 8)
        case None => None
        case Some(v) => Some((v, m1))
  }

  /** CALL and CALLR: the return address is read from the record after the first push. */
  function RawCall(y: Layout, m: Mem, err: u64, target: u64): Option<Mem>
    requires ValidLayout(y)
  {
    match Spush(y, m, err)
    case None => None
    case Some(m1) =>
      match Spush(y, m1, Word(y, m1, IP))
      case None => None
      case Some(m2) => SetWord(y, m2, IP, target)
  }

  function RawReturn(y: Layout, m: Mem, throwing: bool): Option<Mem> {
    match Spop(y, m)
    case None => None
    case Some((ok, m1)) =>
      match Spop(y, m1)
      case None => None
      case Some((err, m2)) => SetWord(y, m2, IP, if throwing then err else ok)
  }

  /** A control instruction, with ip already behind it. */
  function RawControl(y: Layout, i: Instr, d: Data, m: Mem): Option<Mem>
    requires ValidLayout(y) && WellFormed(i) && IsControl(i.op)
  {
    if i.op == OP_CALL then RawCall(y, m, y.base + i.y, y.base + i.x)
    else if i.op == OP_CALLR then RawCall(y, m, y.base + i.x, d.gpr[i.d])
    else if i.op == OP_RET then RawReturn(y, m, false)
    else if i.op == OP_THROW then RawReturn(y, m, true)
    else if i.op == OP_HALT then None
    else if Taken(i.op, d.fl) then SetWord(y, m, IP, y.base + i.x)
    else Some(m)
  }

  datatype Fetching = Fetching(i: Instr, next: nat, m: Mem)

  /** The instruction at ip, its end, and memory with ip moved there. */
  function FetchRaw(y: Layout, m: Mem): (r: Option<Fetching>)
    requires ValidLayout(y)
    ensures r.Some? ==> WellFormed(r.value.i) && r.value.next <= y.len
  {
    match Fetch(ImageIn(y, m), Word(y, m, IP))
    case Decoded(i, next) =>
      (match SetWord(y, m, IP, y.base + next)
       case None => None
       case Some(m1) => Some(Fetching(i, next, m1)))
    case _ => None
  }

  /** One dispatch: data registers and memory after it. None if the thread halts or faults. */
  function RawStep(y: Layout, m: Mem, d: Data, e: Env): Option<(Data, Mem)>
    requires ValidLayout(y)
  {
    match FetchRaw(y, m)
    case None => None
    case Some(f) =>
      if IsControl(f.i.op) then
        (match RawControl(y, f.i, d, f.m)
         case None => None
         case Some(m') => Some((d, m')))
      else
        (match ExecData(f.i, d, f.m, e)
         case DataOk(d', m') => Some((d', m'))
         case DataFault(_) => None)
  }

  lemma StepFetches(y: Layout, m: Mem, d: Data, e: Env)
    requires ValidLayout(y) && RawStep(y, m, d, e).Some?
    ensures FetchRaw(y, m).Some?
  {
    hide FetchRaw, RawControl, ExecData;
  }

  // ----- pushes and pops of a sound stack ---------------------------------------------------------------

  lemma {:induction false} PushSound(y: Layout, m: Mem, v: u64)
    requires ValidLayout(y) && Sound(y, m) && Spush(y, m, v).Some?
    ensures var m', n := Spush(y, m, v).value, Depth(y, m);
            && n < SHADOW_DEPTH && Depth(y, m') == n + 1 && Sound(y, m')
            && CodeIn(y, m') == CodeIn(y, m) && Word(y, m', IP) == Word(y, m, IP)
            && ShadowIn(y, m', n + 1) == ShadowIn(y, m, n) + [v]
  {
    hide Store, Load, CodeIn, Word;
    var n, p := Depth(y, m), Word(y, m, STOP);
    var m1 := Store(m, p, 8, v).value;
    assert SetWord(y, m, SHADOW + n, v) == Some(m1);
    PutWord(y, m, SHADOW + n, v);
    PutWord(y, m1, STOP, p + 8);
  }

  lemma PopSound(y: Layout, m: Mem)
    requires ValidLayout(y) && Sound(y, m) && Spop(y, m).Some?
    ensures var (v, m') := Spop(y, m).value;
            var n := Depth(y, m);
            && n > 0 && Depth(y, m') == n - 1 && Sound(y, m')
            && CodeIn(y, m') == CodeIn(y, m) && v == Saved(y, m, n - 1)
            && ShadowIn(y, m', n - 1) == ShadowIn(y, m, n)[..n - 1]
  {
    hide Store, Load, CodeIn;
    var n := Depth(y, m);
    var m1 := SetWord(y, m, STOP, At(y, SHADOW + n - 1)).value;
    PutWord(y, m, STOP, At(y, SHADOW + n - 1));
    assert Saved(y, m1, n - 1) == Saved(y, m, n - 1);
    hide Word;
  }

  /** The instruction pointer stored. */
  lemma IpSound(y: Layout, m: Mem, v: u64)
    requires ValidLayout(y) && SetWord(y, m, IP, v).Some?
    ensures var m' := SetWord(y, m, IP, v).value;
            && CodeIn(y, m') == CodeIn(y, m) && Word(y, m', IP) == v && Depth(y, m') == Depth(y, m)
            && (Sound(y, m) ==> Sound(y, m') && ShadowIn(y, m', Depth(y, m)) == ShadowIn(y, m, Depth(y, m)))
  {
    hide Store, Load, CodeIn, Word;
    PutWord(y, m, IP, v);
  }

  // ----- a step in memory and a step apart from it ------------------------------------------------------

  /** The thread in the machine that keeps bytecode and control state apart from memory. */
  function Abstract(y: Layout, m: Mem, d: Data): Thread {
    Thread(Word(y, m, IP), ShadowIn(y, m, Depth(y, m)), d)
  }

  lemma CallAbstracts(y: Layout, m: Mem, d: Data, err: u64, target: u64)
    requires ValidLayout(y) && Sound(y, m) && RawCall(y, m, err, target).Some?
    ensures var m' := RawCall(y, m, err, target).value;
            && Sound(y, m') && CodeIn(y, m') == CodeIn(y, m)
            && DoCall(Abstract(y, m, d), m, err, Word(y, m, IP), target) == Running(Abstract(y, m', d), m)
  {
    hide Store, CodeIn, ShadowIn, Word, Depth, Sound, Spush;
    var m1 := Spush(y, m, err).value;
    var m2 := Spush(y, m1, Word(y, m1, IP)).value;
    PushSound(y, m, err);
    PushSound(y, m1, Word(y, m1, IP));
    IpSound(y, m2, target);
  }

  lemma ReturnAbstracts(y: Layout, m: Mem, d: Data, throwing: bool)
    requires ValidLayout(y) && Sound(y, m) && RawReturn(y, m, throwing).Some?
    ensures var m' := RawReturn(y, m, throwing).value;
            && Sound(y, m') && CodeIn(y, m') == CodeIn(y, m)
            && DoReturn(Abstract(y, m, d), m, throwing) == Running(Abstract(y, m', d), m)
  {
    hide Store, CodeIn, Word, Depth, Sound, Spop;
    var (ok, m1) := Spop(y, m).value;
    var (err, m2) := Spop(y, m1).value;
    PopSound(y, m);
    PopSound(y, m1);
    IpSound(y, m2, if throwing then err else ok);
    assert ShadowIn(y, m1, Depth(y, m1))[Depth(y, m1) - 1] == err;
    hide ShadowIn;
  }

  /** Neither depends on the instruction pointer before it. */
  lemma AnyIp(t: Thread, ip: u64, m: Mem, err: u64, ok: u64, target: u64, throwing: bool)
    ensures DoCall(t.(ip := ip), m, err, ok, target) == DoCall(t, m, err, ok, target)
    ensures DoReturn(t.(ip := ip), m, throwing) == DoReturn(t, m, throwing)
  {
  }

  /** The state the instruction being dispatched leaves if its store misses the control state. */
  function Intended(y: Layout, m: Mem, d: Data, e: Env): Option<Thread>
    requires ValidLayout(y)
  {
    match FetchRaw(y, m)
    case None => None
    case Some(f) => StepThread(ImageIn(y, m), Abstract(y, m, d), Event(f.m, e))
  }

  /** Control instructions do the same in both machines. */
  lemma ControlAbstracts(y: Layout, m: Mem, d: Data, e: Env)
    requires ValidLayout(y) && Sound(y, m) && RawStep(y, m, d, e).Some? && IsControl(FetchRaw(y, m).value.i.op)
    ensures var m' := RawStep(y, m, d, e).value.1;
            && Intended(y, m, d, e) == Some(Abstract(y, m', d))
            && Sound(y, m') && CodeIn(y, m') == CodeIn(y, m) && RawStep(y, m, d, e).value.0 == d
  {
    hide Decode, CodeIn, ShadowIn, DoCall, DoReturn, RawCall, RawReturn, Taken, Store, Word, Depth, Sound;
    var f, t := FetchRaw(y, m).value, Abstract(y, m, d);
    IpSound(y, m, y.base + f.next);
    assert Abstract(y, f.m, d) == t.(ip := y.base + f.next);
    if f.i.op == OP_CALL {
      CallAbstracts(y, f.m, d, y.base + f.i.y, y.base + f.i.x);
      AnyIp(t, y.base + f.next, f.m, y.base + f.i.y, y.base + f.next, y.base + f.i.x, false);
    } else if f.i.op == OP_CALLR {
      CallAbstracts(y, f.m, d, y.base + f.i.x, d.gpr[f.i.d]);
      AnyIp(t, y.base + f.next, f.m, y.base + f.i.x, y.base + f.next, d.gpr[f.i.d], false);
    } else if f.i.op == OP_RET || f.i.op == OP_THROW {
      ReturnAbstracts(y, f.m, d, f.i.op == OP_THROW);
      AnyIp(t, y.base + f.next, f.m, 0, 0, 0, f.i.op == OP_THROW);
    } else if Taken(f.i.op, d.fl) {
      IpSound(y, f.m, y.base + f.i.x);
    }
  }

  // ----- steps that keep to themselves ----------------------------------------------------------------

  /** Same code and same control words. */
  ghost predicate SameControl(y: Layout, m: Mem, m': Mem) {
    && CodeIn(y, m') == CodeIn(y, m)
    && forall i {:trigger Word(y, m', i)} :: i == IP || SHADOW <= i < WORDS ==> Word(y, m', i) == Word(y, m, i)
  }

  /** The instruction about to be dispatched stores to no byte of code or record; a system call leaves the code and
      the control words as they are. */
  ghost predicate KeepsApart(y: Layout, m: Mem, d: Data, e: Env)
    requires ValidLayout(y)
  {
    match FetchRaw(y, m)
    case None => true
    case Some(f) =>
      && (f.i.op == OP_SYSCALL ==> SameControl(y, f.m, e.mem))
      && (StoreOf(f.i, d).Some? ==> Spared(y, StoreOf(f.i, d).value))
  }

  predicate Spared(y: Layout, r: Range) { Apart(r, CodeRange(y)) && Apart(r, RecordRange(y)) }

  lemma SparedControl(y: Layout, m: Mem, m': Mem, r: Option<Range>)
    requires SameOutside(m, m', r) && (r.Some? ==> Spared(y, r.value))
    ensures SameControl(y, m, m')
  {
    hide Load;
    forall k | 0 <= k < y.len ensures CodeIn(y, m')[k] == CodeIn(y, m)[k] { }
    forall i {:trigger Word(y, m', i)} | i == IP || SHADOW <= i < WORDS ensures Word(y, m', i) == Word(y, m, i) {
      LoadOutside(m, m', r, At(y, i), 8);
    }
  }

  lemma SameControlAbstract(y: Layout, m: Mem, m': Mem, d: Data)
    requires ValidLayout(y) && SameControl(y, m, m') && Sound(y, m)
    ensures Sound(y, m') && Abstract(y, m', d) == Abstract(y, m, d) && ImageIn(y, m') == ImageIn(y, m)
  {
    hide Word, CodeIn;
  }

  /** What a data instruction is meant to leave. */
  lemma DataIntended(y: Layout, m: Mem, d: Data, e: Env)
    requires ValidLayout(y) && RawStep(y, m, d, e).Some? && !IsControl(FetchRaw(y, m).value.i.op)
    ensures var f := FetchRaw(y, m).value;
            var (d', m') := RawStep(y, m, d, e).value;
            && ExecData(f.i, d, f.m, e) == DataOk(d', m')
            && Intended(y, m, d, e) == Some(Abstract(y, m, d').(ip := y.base + f.next))
  {
    hide Decode, CodeIn, ShadowIn, ExecData, Store, Word, Depth;
  }

  lemma DataAbstracts(y: Layout, m: Mem, d: Data, e: Env)
    requires ValidLayout(y) && Sound(y, m) && RawStep(y, m, d, e).Some? && !IsControl(FetchRaw(y, m).value.i.op)
    requires KeepsApart(y, m, d, e)
    ensures var (d', m') := RawStep(y, m, d, e).value;
            && Intended(y, m, d, e) == Some(Abstract(y, m', d'))
            && Sound(y, m') && CodeIn(y, m') == CodeIn(y, m)
  {
    hide Decode, CodeIn, ShadowIn, ExecData, Store, Word, Depth, Sound, RawStep, StoreOf, Spared, SameControl,
         Intended;
    StepFetches(y, m, d, e);
    DataIntended(y, m, d, e);
    var f := FetchRaw(y, m).value;
    var (d', m') := RawStep(y, m, d, e).value;
    IpSound(y, m, y.base + f.next);
    if f.i.op == OP_SYSCALL {
      SyscallMemory(f.i, d, f.m, e);
    } else {
      StoreFrame(f.i, d, f.m, e);
      SparedControl(y, f.m, m', StoreOf(f.i, d));
    }
    SameControlAbstract(y, f.m, m', d');
  }

  lemma SyscallMemory(i: Instr, d: Data, m: Mem, e: Env)
    requires WellFormed(i) && i.op == OP_SYSCALL && ExecData(i, d, m, e).DataOk?
    ensures ExecData(i, d, m, e).m == e.mem
  {
  }

  /** One dispatch whose stores miss code and record is a step of the machine that keeps them apart from memory. */
  lemma StepAbstracts(y: Layout, m: Mem, d: Data, e: Env)
    requires ValidLayout(y) && Sound(y, m) && RawStep(y, m, d, e).Some? && KeepsApart(y, m, d, e)
    ensures var (d', m') := RawStep(y, m, d, e).value;
            && Intended(y, m, d, e) == Some(Abstract(y, m', d'))
            && Sound(y, m') && CodeIn(y, m') == CodeIn(y, m)
  {
    hide *;
    StepFetches(y, m, d, e);
    if IsControl(FetchRaw(y, m).value.i.op) {
      ControlAbstracts(y, m, d, e);
    } else {
      DataAbstracts(y, m, d, e);
    }
  }

  // ----- runs ------------------------------------------------------------------------------------------------

  /** A run that goes on: memory and data registers before each step are arbitrary, since a store of any thread,
      this one too, may have reached anything. */
  ghost predicate IsRawTrace(y: Layout, ms: seq<Mem>, ds: seq<Data>, es: seq<Env>) {
    && ValidLayout(y) && |ms| == |ds| == |es| + 1
    && forall k {:trigger es[k]} :: 0 <= k < |es| ==> RawStep(y, ms[k], ds[k], es[k]).Some?
  }

  /** No store covers code or record: not one of this thread, and between its steps code, control words and
      registers stay as the step left them, whatever else other threads write. */
  ghost predicate Separated(y: Layout, ms: seq<Mem>, ds: seq<Data>, es: seq<Env>)
    requires IsRawTrace(y, ms, ds, es)
  {
    forall k {:trigger es[k]} :: 0 <= k < |es| ==>
      && KeepsApart(y, ms[k], ds[k], es[k])
      && SameControl(y, RawStep(y, ms[k], ds[k], es[k]).value.1, ms[k + 1])
      && ds[k + 1] == RawStep(y, ms[k], ds[k], es[k]).value.0
  }

  function AbstractAll(y: Layout, ms: seq<Mem>, ds: seq<Data>): (r: seq<Thread>)
    requires |ds| == |ms|
    ensures |r| == |ms| && forall k :: 0 <= k < |ms| ==> r[k] == Abstract(y, ms[k], ds[k])
  {
    seq(|ms|, k requires 0 <= k < |ms| => Abstract(y, ms[k], ds[k]))
  }

  /** Memory as each instruction finds it, ip having moved on. */
  function Found(y: Layout, m: Mem): Mem
    requires ValidLayout(y)
  {
    match FetchRaw(y, m) case Some(f) => f.m case None => m
  }

  function Events(y: Layout, ms: seq<Mem>, es: seq<Env>): (r: seq<Event>)
    requires ValidLayout(y) && |ms| >= |es|
    ensures |r| == |es| && forall k :: 0 <= k < |es| ==> r[k] == Event(Found(y, ms[k]), es[k])
  {
    seq(|es|, k requires 0 <= k < |es| => Event(Found(y, ms[k]), es[k]))
  }

  /** One step of a separated run. */
  lemma SeparatedStep(y: Layout, ms: seq<Mem>, ds: seq<Data>, es: seq<Env>, k: nat)
    requires IsRawTrace(y, ms, ds, es) && Separated(y, ms, ds, es) && k < |es| && Sound(y, ms[k])
    ensures Sound(y, ms[k + 1]) && CodeIn(y, ms[k + 1]) == CodeIn(y, ms[k])
    ensures StepThread(ImageIn(y, ms[k]), Abstract(y, ms[k], ds[k]), Event(Found(y, ms[k]), es[k]))
            == Some(Abstract(y, ms[k + 1], ds[k + 1]))
  {
    hide RawStep, CodeIn, SameControl, KeepsApart, StepThread, Abstract, Sound, FetchRaw;
    assert es[k] == es[k];
    StepAbstracts(y, ms[k], ds[k], es[k]);
    SameControlAbstract(y, RawStep(y, ms[k], ds[k], es[k]).value.1, ms[k + 1], ds[k + 1]);
  }

  lemma {:induction false} CodeStays(y: Layout, ms: seq<Mem>, ds: seq<Data>, es: seq<Env>, k: nat)
    requires IsRawTrace(y, ms, ds, es) && Separated(y, ms, ds, es) && Sound(y, ms[0]) && k < |ms|
    ensures CodeIn(y, ms[k]) == CodeIn(y, ms[0]) && Sound(y, ms[k])
    decreases k
  {
    hide CodeIn, Sound, Separated, StepThread, Abstract;
    if k > 0 {
      CodeStays(y, ms, ds, es, k - 1);
      SeparatedStep(y, ms, ds, es, k - 1);
    }
  }

  /** A run whose stores keep apart is a run of the machine with bytecode and control state outside memory: every law
      of such runs holds of it. */
  lemma RunAbstracts(y: Layout, ms: seq<Mem>, ds: seq<Data>, es: seq<Env>)
    requires IsRawTrace(y, ms, ds, es) && Separated(y, ms, ds, es) && Sound(y, ms[0])
    ensures IsTrace(ImageIn(y, ms[0]), AbstractAll(y, ms, ds), Events(y, ms, es))
  {
    hide CodeIn, Separated, StepThread, Abstract, Sound, Found, RawStep;
    var c, abs, evs := ImageIn(y, ms[0]), AbstractAll(y, ms, ds), Events(y, ms, es);
    forall k {:trigger evs[k]} | 0 <= k < |evs| ensures StepThread(c, abs[k], evs[k]) == Some(abs[k + 1]) {
      CodeStays(y, ms, ds, es, k);
      SeparatedStep(y, ms, ds, es, k);
    }
  }

  // ----- staying in the program ---------------------------------------------------------------------------------

  /** ip and every word on the shadow stack are instruction boundaries. */
  ghost predicate Intact(y: Layout, ins: seq<Instr>, m: Mem) {
    && Sound(y, m) && IsBoundary(ins, Word(y, m, IP) - y.base)
    && forall j :: 0 <= j < Depth(y, m) ==> IsBoundary(ins, Saved(y, m, j) - y.base)
  }

  /** The control words that are not what t has are instruction boundaries, and the shadow stack pointer is in the
      array. */
  ghost predicate Harmless(y: Layout, ins: seq<Instr>, t: Thread, m: Mem) {
    && Sound(y, m)
    && (Word(y, m, IP) != t.ip ==> IsBoundary(ins, Word(y, m, IP) - y.base))
    && forall j :: 0 <= j < Depth(y, m) && (j < |t.shadow| ==> Saved(y, m, j) != t.shadow[j]) ==>
         IsBoundary(ins, Saved(y, m, j) - y.base)
  }

  lemma IntactAbstract(y: Layout, ins: seq<Instr>, m: Mem, d: Data)
    requires ValidLayout(y) && Sound(y, m)
    ensures Intact(y, ins, m) <==> OnBoundaries(ImageIn(y, m), ins, Abstract(y, m, d))
  {
    hide IsBoundary, Word, CodeIn, Depth, Sound;
    if OnBoundaries(ImageIn(y, m), ins, Abstract(y, m, d)) {
      forall j | 0 <= j < Depth(y, m) ensures IsBoundary(ins, Saved(y, m, j) - y.base) {
        assert Abstract(y, m, d).shadow[j] == Saved(y, m, j);
      }
    }
  }

  /** Where the dispatched instruction itself would go is on boundaries again. */
  lemma IntendedOnBoundaries(y: Layout, ins: seq<Instr>, m: Mem, d: Data, e: Env)
    requires ValidLayout(y) && Structured(ins) && CodeIn(y, m) == EncodeAll(ins) && Intact(y, ins, m)
    requires RawStep(y, m, d, e).Some?
    ensures Intended(y, m, d, e).Some? && OnBoundaries(ImageIn(y, m), ins, Intended(y, m, d, e).value)
  {
    hide Structured, CodeIn, EncodeAll, StepThread, OnBoundaries, Abstract, RawStep;
    IntactAbstract(y, ins, m, d);
    StepFetches(y, m, d, e);
    if IsControl(FetchRaw(y, m).value.i.op) {
      ControlAbstracts(y, m, d, e);
    } else {
      DataIntended(y, m, d, e);
    }
    StepOnBoundaries(ImageIn(y, m), ins, Abstract(y, m, d), Event(FetchRaw(y, m).value.m, e),
        Intended(y, m, d, e).value);
  }

  /** Whatever is stored during and after a dispatch, by this thread or another: the state is still in the program
      if and only if each control word that is not as the instruction itself leaves it is a boundary. */
  lemma OverwriteIff(y: Layout, ins: seq<Instr>, m: Mem, d: Data, e: Env, m': Mem)
    requires ValidLayout(y) && Structured(ins) && CodeIn(y, m) == EncodeAll(ins) && Intact(y, ins, m)
    requires RawStep(y, m, d, e).Some?
    ensures Intended(y, m, d, e).Some?
    ensures Intact(y, ins, m') <==> Harmless(y, ins, Intended(y, m, d, e).value, m')
  {
    hide Structured, CodeIn, EncodeAll, IsBoundary, Word, Depth, Sound, Intended, RawStep;
    IntendedOnBoundaries(y, ins, m, d, e);
    var t := Intended(y, m, d, e).value;
    assert forall j :: 0 <= j < |t.shadow| ==> IsBoundary(ins, t.shadow[j] - y.base);
  }

  // ----- over a run -----------------------------------------------------------------------------------------------

  /** Whatever was stored around step k is harmless. */
  ghost predicate HarmlessAt(y: Layout, ins: seq<Instr>, ms: seq<Mem>, ds: seq<Data>, es: seq<Env>, k: nat)
    requires ValidLayout(y) && |ms| == |ds| == |es| + 1 && k < |es|
  {
    match Intended(y, ms[k], ds[k], es[k])
    case Some(t) => Harmless(y, ins, t, ms[k + 1])
    case None => true
  }

  /** The program's bytes are in place, and the thread is about to start it. */
  ghost predicate Starts(y: Layout, ins: seq<Instr>, ms: seq<Mem>) {
    && |ms| > 0 && Word(y, ms[0], IP) == y.base && Word(y, ms[0], STOP) == At(y, SHADOW)
    && forall k {:trigger ms[k]} :: 0 <= k < |ms| ==> CodeIn(y, ms[k]) == EncodeAll(ins)
  }

  lemma StartIntact(y: Layout, ins: seq<Instr>, ms: seq<Mem>)
    requires Starts(y, ins, ms)
    ensures Intact(y, ins, ms[0])
  {
    hide Word;
    assert Boundary(ins, 0) == 0;
  }

  lemma {:induction false} HarmlessStays(
      y: Layout, ins: seq<Instr>, ms: seq<Mem>, ds: seq<Data>, es: seq<Env>, k: nat)
    requires IsRawTrace(y, ms, ds, es) && Structured(ins) && Starts(y, ins, ms) && k < |ms|
    requires forall j :: 0 <= j < k ==> HarmlessAt(y, ins, ms, ds, es, j)
    ensures Intact(y, ins, ms[k])
    decreases k
  {
    hide Structured, EncodeAll, CodeIn, Intact, Harmless, Intended, RawStep;
    if k == 0 {
      StartIntact(y, ins, ms);
    } else {
      HarmlessStays(y, ins, ms, ds, es, k - 1);
      assert HarmlessAt(y, ins, ms, ds, es, k - 1) && es[k - 1] == es[k - 1];
      OverwriteIff(y, ins, ms[k - 1], ds[k - 1], es[k - 1], ms[k]);
    }
  }

  /** Control-flow integrity exactly: with the bytecode in place, a run whose stores may go anywhere keeps ip and all
      return addresses on instruction boundaries if and only if, step by step, each control word that is not what
      the instruction itself leaves is a boundary. */
  lemma ControlFlowIff(y: Layout, ins: seq<Instr>, ms: seq<Mem>, ds: seq<Data>, es: seq<Env>)
    requires IsRawTrace(y, ms, ds, es) && Structured(ins) && Starts(y, ins, ms)
    ensures (forall k {:trigger ms[k]} :: 0 <= k < |ms| ==> Intact(y, ins, ms[k]))
            <==> (forall k :: 0 <= k < |es| ==> HarmlessAt(y, ins, ms, ds, es, k))
  {
    hide Structured, EncodeAll, CodeIn, Intact, Harmless, Intended, RawStep;
    if forall k {:trigger ms[k]} :: 0 <= k < |ms| ==> Intact(y, ins, ms[k]) {
      forall k | 0 <= k < |es| ensures HarmlessAt(y, ins, ms, ds, es, k) {
        assert es[k] == es[k] && ms[k] == ms[k] && ms[k + 1] == ms[k + 1];
        OverwriteIff(y, ins, ms[k], ds[k], es[k], ms[k + 1]);
      }
    }
    if forall k :: 0 <= k < |es| ==> HarmlessAt(y, ins, ms, ds, es, k) {
      forall k {:trigger ms[k]} | 0 <= k < |ms| ensures Intact(y, ins, ms[k]) {
        HarmlessStays(y, ins, ms, ds, es, k);
      }
    }
  }

  /** So it holds in one memory if no store of any thread covers the bytecode or the record. */
  lemma SeparatedControlFlow(y: Layout, ins: seq<Instr>, ms: seq<Mem>, ds: seq<Data>, es: seq<Env>, k: nat)
    requires IsRawTrace(y, ms, ds, es) && Separated(y, ms, ds, es) && Structured(ins) && k < |ms|
    requires CodeIn(y, ms[0]) == EncodeAll(ins) && Word(y, ms[0], IP) == y.base && Word(y, ms[0], STOP) == At(y, SHADOW)
    ensures CodeIn(y, ms[k]) == EncodeAll(ins) && Intact(y, ins, ms[k])
  {
    hide CodeIn, EncodeAll, Structured, StepThread, Separated, RawStep, OnBoundaries, Word, Intact, IsTrace;
    CodeStays(y, ms, ds, es, k);
    RunAbstracts(y, ms, ds, es);
    RunStaysOnBoundaries(ImageIn(y, ms[0]), ins, AbstractAll(y, ms, ds), Events(y, ms, es), k);
    IntactAbstract(y, ins, ms[k], ds[k]);
  }

  // ----- one word stored over the record -----------------------------------------------------------------------------

  predicate IsWordStore(op: Op) { op == OP_MOV_MR || op == OP_MOV_MR_OFF }

  /** Word w of the record may become v. */
  ghost predicate MayBecome(y: Layout, ins: seq<Instr>, m: Mem, w: nat, v: u64) {
    if w == IP || SHADOW <= w < SHADOW + Depth(y, m) then IsBoundary(ins, v - y.base)
    else w == STOP ==> NewDepth(y, ins, m, v)
  }

  /** v as shadow stack pointer: in the array, with boundaries below it. */
  ghost predicate NewDepth(y: Layout, ins: seq<Instr>, m: Mem, v: u64) {
    && v >= At(y, SHADOW) && (v - At(y, SHADOW)) % 8 == 0 && (v - At(y, SHADOW)) / 8 <= SHADOW_DEPTH
    && forall j :: 0 <= j < (v - At(y, SHADOW)) / 8 ==> IsBoundary(ins, Saved(y, m, j) - y.base)
  }

  lemma StoreEffect(y: Layout, m: Mem, d: Data, e: Env, w: nat)
    requires ValidLayout(y) && RawStep(y, m, d, e).Some? && IsWordStore(FetchRaw(y, m).value.i.op)
    requires Address(d.gpr[FetchRaw(y, m).value.i.d], FetchRaw(y, m).value.i.x) == At(y, w)
    ensures var f := FetchRaw(y, m).value;
            SetWord(y, f.m, w, d.gpr[f.i.s]) == Some(RawStep(y, m, d, e).value.1)
  {
    hide FetchRaw, Store, Address;
  }

  lemma FetchedWords(y: Layout, m: Mem)
    requires ValidLayout(y) && FetchRaw(y, m).Some?
    ensures var f := FetchRaw(y, m).value;
            && CodeIn(y, f.m) == CodeIn(y, m) && Word(y, f.m, IP) == y.base + f.next
            && forall j {:trigger Word(y, f.m, j)} :: 0 <= j < WORDS && j != IP ==> Word(y, f.m, j) == Word(y, m, j)
  {
    hide Word, CodeIn, Store, Fetch;
    PutWord(y, m, IP, y.base + FetchRaw(y, m).value.next);
  }

  /** A word store over a word of the thread's own record, in any state of the program: the next state is in the
      program if and only if the word may become what is stored. */
  lemma StoreIff(y: Layout, ins: seq<Instr>, m: Mem, d: Data, e: Env, w: nat)
    requires ValidLayout(y) && Structured(ins) && CodeIn(y, m) == EncodeAll(ins) && Intact(y, ins, m)
    requires RawStep(y, m, d, e).Some? && IsWordStore(FetchRaw(y, m).value.i.op)
    requires w < WORDS && Address(d.gpr[FetchRaw(y, m).value.i.d], FetchRaw(y, m).value.i.x) == At(y, w)
    ensures var v, m' := d.gpr[FetchRaw(y, m).value.i.s], RawStep(y, m, d, e).value.1;
            CodeIn(y, m') == CodeIn(y, m) && (Intact(y, ins, m') <==> MayBecome(y, ins, m, w, v))
  {
    hide Structured, EncodeAll, CodeIn, RawStep, FetchRaw, Store, IsBoundary, Word, Address, SetWord, Intended,
         Abstract;
    StepFetches(y, m, d, e);
    var f, m' := FetchRaw(y, m).value, RawStep(y, m, d, e).value.1;
    StoreEffect(y, m, d, e, w);
    FetchedWords(y, m);
    PutWord(y, f.m, w, d.gpr[f.i.s]);
    FallsOnBoundary(y, ins, m, d, e);
    WordPut(y, ins, m, f.m, m', w, d.gpr[f.i.s]);
  }

  lemma FallsOnBoundary(y: Layout, ins: seq<Instr>, m: Mem, d: Data, e: Env)
    requires ValidLayout(y) && Structured(ins) && CodeIn(y, m) == EncodeAll(ins) && Intact(y, ins, m)
    requires RawStep(y, m, d, e).Some? && IsWordStore(FetchRaw(y, m).value.i.op)
    ensures IsBoundary(ins, FetchRaw(y, m).value.next)
  {
    hide Structured, EncodeAll, CodeIn, RawStep, FetchRaw, IsBoundary, Word, Depth, Sound;
    IntendedOnBoundaries(y, ins, m, d, e);
    DataIntended(y, m, d, e);
  }

  /** The same on words: m1 is m with ip at a boundary, m' is m1 with word w replaced. */
  lemma WordPut(y: Layout, ins: seq<Instr>, m: Mem, m1: Mem, m': Mem, w: nat, v: u64)
    requires Intact(y, ins, m) && w < WORDS && IsBoundary(ins, Word(y, m1, IP) - y.base)
    requires forall j {:trigger Word(y, m1, j)} :: 0 <= j < WORDS && j != IP ==> Word(y, m1, j) == Word(y, m, j)
    requires forall j {:trigger Word(y, m', j)} :: 0 <= j < WORDS ==>
               Word(y, m', j) == if j == w then v else Word(y, m1, j)
    ensures Intact(y, ins, m') <==> MayBecome(y, ins, m, w, v)
  {
    hide IsBoundary, Word;
    assert forall j :: 0 <= j < SHADOW_DEPTH ==> Saved(y, m', j) == if w == SHADOW + j then v else Saved(y, m, j);
    assert Word(y, m', STOP) == if w == STOP then v else Word(y, m, STOP);
    assert Word(y, m', IP) == if w == IP then v else Word(y, m1, IP);
    hide Saved;
    if w != STOP {
      assert Depth(y, m') == Depth(y, m) && Sound(y, m');
      if SHADOW <= w < SHADOW + Depth(y, m) {
        assert Saved(y, m', w - SHADOW) == v;
      }
    } else {
      assert Sound(y, m') <==>
          v >= At(y, SHADOW) && (v - At(y, SHADOW)) % 8 == 0 && (v - At(y, SHADOW)) / 8 <= SHADOW_DEPTH;
    }
  }
}
