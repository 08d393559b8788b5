/** The interpreter as it runs: one thread's registers and shadow stack updated in place, over memory that
    other threads share. Every step is proved to be `Vm.Step`. */
module VmRun {
  import opened Words
  import opened Isa
  import opened Memory
  import opened Vm

  datatype Status = Go | Stop | Abort(why: Fault)

  class SharedMem {
    var bytes: Mem

    constructor (m: Mem)
      ensures bytes == m
    {
      bytes := m;
    }
  }

  class VMThread {
    const c: Image
    const ram: SharedMem
    const shadow: array<u64>
    /** Top of the shadow stack. */
    var stop: nat
    var ip: u64
    var gpr: Regs
    var sp: u64
    var bp: u64
    var fl: u64
    var fp: Regs
    /** Next thread in the registry. */
    var next: VMThread?

    ghost predicate Valid()
      reads this
    {
      shadow.Length == SHADOW_DEPTH && stop <= SHADOW_DEPTH
    }

    ghost function Abs(): Thread
      requires Valid()
      reads this, shadow
    {
      Thread(ip, shadow[..stop], Registers())
    }

    function Registers(): Data
      reads this
    {
      Data(gpr, sp, bp, fl, fp)
    }

    /** vm_thread_create: registers zero, both stack pointers at the top of the new stack. */
    constructor (image: Image, ram: SharedMem, stackTop: u64)
      ensures Valid() && fresh(shadow) && c == image && this.ram == ram && next == null
      ensures Abs() == InitThread(image, stackTop)
      ensures ip == image.base && stop == 0 && sp == stackTop && bp == stackTop && fl == 0
      ensures forall r: Reg :: gpr[r] == 0 && fp[r] == 0
    {
      c, this.ram := image, ram;
      shadow := new u64[SHADOW_DEPTH];
      stop, ip, sp, bp, fl := 0, image.base, stackTop, stackTop, 0;
      gpr, fp, next := [0, 0, 0, 0, 0, 0, 0, 0], [0, 0, 0, 0, 0, 0, 0, 0], null;
    }

    /** Push a return address; false where C aborts. */
    method Spush(v: u64) returns (ok: bool)
      requires Valid()
      modifies this`stop, shadow
      ensures Valid()
      ensures match SPush(old(Abs().shadow), v)
              case PushFull => !ok && Abs() == old(Abs())
              case PushOk(s) => ok && Abs() == old(Abs()).(shadow := s)
    {
      if stop >= SHADOW_DEPTH { return false; }
      shadow[stop] := v;
      stop := stop + 1;
      return true;
    }

    method Spop() returns (v: Option<u64>)
      requires Valid()
      modifies this`stop
      ensures Valid()
      ensures match SPop(old(Abs().shadow))
              case PopEmpty => v == None
              case PopOk(x, s) => v == Some(x) && Abs() == old(Abs()).(shadow := s)
    {
      if stop == 0 { return None; }
      stop := stop - 1;
      assert old(shadow[..stop])[..stop] == shadow[..stop];
      v := Some(shadow[stop]);
    }

    /** CALL and CALLR: error target below, return address on top. */
    method Call(err: u64, ok: u64, target: u64) returns (r: Status)
      requires Valid()
      modifies this`stop, this`ip, shadow
      ensures Valid()
      ensures Matches(r, DoCall(old(Abs()), ram.bytes, err, ok, target))
    {
      var pushed := Spush(err);
      if !pushed { return Abort(ShadowOverflow); }
      pushed := Spush(ok);
      if !pushed { return Abort(ShadowOverflow); }
      ip := target;
      return Go;
    }

    /** RET and THROW. */
    method Return(throwing: bool) returns (r: Status)
      requires Valid()
      modifies this`stop, this`ip
      ensures Valid()
      ensures Matches(r, DoReturn(old(Abs()), ram.bytes, throwing))
    {
      var ok := Spop();
      if ok == None { return Abort(ShadowUnderflow); }
      var err := Spop();
      if err == None { return Abort(ShadowUnderflow); }
      ip := if throwing then err.value else ok.value;
      return Go;
    }

    /** The state is what the specification says; after an abort only that it aborted. */
    ghost predicate Matches(r: Status, o: Outcome)
      requires Valid()
      reads this, shadow, ram
    {
      match o
      case Running(t, m) => r == Go && Abs() == t && ram.bytes == m
      case Halted(t, m) => r == Stop && Abs() == t && ram.bytes == m
      case Faulted(w) => r == Abort(w)
    }

    method Control(i: Instr, next: nat) returns (r: Status)
      requires Valid() && WellFormed(i) && IsControl(i.op) && next <= |c.code|
      modifies this`stop, this`ip, shadow
      ensures Valid() && Matches(r, ExecControl(c, i, next, old(Abs()), ram.bytes))
    {
      hide DoCall, DoReturn, Taken;
      if i.op == OP_CALL {
        r := Call(c.base + i.y, c.base + next, c.base + i.x);
      } else if i.op == OP_CALLR {
        r := Call(c.base + i.x, c.base + next, gpr[i.d]);
      } else if i.op == OP_RET {
        r := Return(false);
      } else if i.op == OP_THROW {
        r := Return(true);
      } else if i.op == OP_HALT {
        ip := c.base + next;
        r := Stop;
      } else {
        ip := if Taken(i.op, fl) then c.base + i.x else c.base + next;
        r := Go;
      }
    }

    /** The registers and memory a data instruction leaves. */
    ghost predicate MatchesData(r: Status, o: DataOut)
      reads this, ram
    {
      match o
      case DataOk(d, m) => r == Go && Registers() == d && ram.bytes == m
      case DataFault(w) => r == Abort(w)
    }

    method Push(v: u64) returns (r: Status)
      modifies this`sp, ram
      ensures MatchesData(r, PushWord(old(Registers()), old(ram.bytes), v))
    {
      sp := Sub64(sp, 8);
      var m := Store(ram.bytes, sp, 8, v);
      if m == None { return Abort(BadAccess); }
      ram.bytes := m.value;
      return Go;
    }

    method Stack(i: Instr) returns (r: Status)
      requires WellFormed(i) && IsStack(i.op)
      modifies this`gpr, this`sp, this`bp, ram
      ensures MatchesData(r, ExecStack(i, old(Registers()), old(ram.bytes)))
    {
      hide Load, Store;
      PowValues();
      if i.op == OP_PUSH {
        r := Push(gpr[i.d]);
      } else if i.op == OP_POP {
        var v := Load(ram.bytes, sp, 8);
        if v == None { return Abort(BadAccess); }
        gpr := gpr[i.d := v.value];
        sp := Add64(sp, 8);
        r := Go;
      } else if i.op == OP_ENTER {
        r := Push(bp);
        if r == Go {
          bp := sp;
          sp := Sub64(sp, i.x);
        }
      } else if i.op == OP_LEAVE {
        sp := bp;
        var v := Load(ram.bytes, sp, 8);
        if v == None { return Abort(BadAccess); }
        bp := v.value;
        sp := Add64(sp, 8);
        r := Go;
      } else {
        sp := Sub64(sp, RoundUp8(gpr[REG_AX]));
        gpr := gpr[REG_AX := sp];
        r := Go;
      }
    }

    method MemoryOp(i: Instr) returns (r: Status)
      requires WellFormed(i) && IsMemory(i.op)
      modifies this`gpr, ram
      ensures MatchesData(r, ExecMemory(i, old(Registers()), old(ram.bytes)))
    {
      hide Load, Store, Address, LoadReg;
      var k := AccessOf(i.op);
      if k.store {
        var m := Store(ram.bytes, Address(gpr[i.d], i.x), k.n, gpr[i.s]);
        if m == None { return Abort(BadAccess); }
        ram.bytes := m.value;
      } else {
        var v := LoadReg(ram.bytes, Address(gpr[i.s], i.x), k);
        if v == None { return Abort(BadAccess); }
        gpr := gpr[i.d := v.value];
      }
      r := Go;
    }

    method Float(i: Instr, e: Env) returns (r: Status)
      requires WellFormed(i)
      modifies this`gpr, this`fl, this`fp, ram
      ensures MatchesData(r, ExecFloat(i, old(Registers()), old(ram.bytes), e))
    {
      hide Load, Store;
      PowValues();
      r := Go;
      if i.op == OP_FCMP {
        fl := e.word % 3;
      } else if i.op == OP_FMOV_RR {
        fp := fp[i.d := fp[i.s]];
      } else if i.op == OP_FMOV_RI && i.x < TWO64 {
        fp := fp[i.d := i.x];
      } else if i.op == OP_FMOV_RM {
        var v := Load(ram.bytes, gpr[i.s], 8);
        if v == None { return Abort(BadAccess); }
        fp := fp[i.d := v.value];
      } else if i.op == OP_FMOV_MR {
        var m := Store(ram.bytes, gpr[i.d], 8, fp[i.s]);
        if m == None { return Abort(BadAccess); }
        ram.bytes := m.value;
      } else if i.op == OP_FTOI {
        gpr := gpr[i.d := e.word];
      } else {
        fp := fp[i.d := e.word];
      }
    }

    method DataOp(i: Instr, e: Env) returns (r: Status)
      requires WellFormed(i) && !IsControl(i.op)
      modifies this`gpr, this`sp, this`bp, this`fl, this`fp, ram
      ensures MatchesData(r, ExecData(i, old(Registers()), old(ram.bytes), e))
    {
      hide Alu, CmpFlags, And64, Address, ExecStack, ExecMemory, ExecFloat;
      r := Go;
      if IsAlu(i.op) {
        var v := Alu(i.op, gpr[i.d], gpr[i.s]);
        if v.AluFault? { return Abort(v.why); }
        gpr := gpr[i.d := v.v];
      } else if i.op == OP_MOV_RI {
        gpr := gpr[i.d := i.x];
      } else if i.op == OP_CMP {
        fl := CmpFlags(gpr[i.d], gpr[i.s]);
      } else if i.op == OP_TEST {
        fl := if And64(gpr[i.d], gpr[i.s]) != 0 then 0 else FL_ZF;
      } else if IsMemory(i.op) {
        r := MemoryOp(i);
      } else if IsStack(i.op) {
        r := Stack(i);
      } else if i.op == OP_LEA {
        gpr := gpr[i.d := Address(gpr[i.s], i.x)];
      } else if i.op == OP_SYSCALL {
        ram.bytes := e.mem;
        gpr := gpr[REG_AX := e.word];
      } else {
        r := Float(i, e);
      }
    }

    /** One dispatch. */
    method StepOnce(e: Env) returns (r: Status)
      requires Valid()
      modifies this`stop, this`ip, this`gpr, this`sp, this`bp, this`fl, this`fp, shadow, ram
      ensures Valid() && Matches(r, Step(c, old(Abs()), old(ram.bytes), e))
    {
      hide Fetch, ExecControl, ExecData, IsControl;
      match Fetch(c, ip)
      case BadOpcode(_) => r := Abort(UndefinedOpcode);
      case PastEnd => r := Abort(PastCode);
      case Decoded(i, next) =>
        if IsControl(i.op) {
          r := Control(i, next);
        } else {
          r := DataOp(i, e);
          ip := c.base + next;
        }
    }

    /** Dispatch until the thread stops, for as long as outside results are supplied. */
    method Run(es: seq<Env>) returns (r: Status)
      requires Valid()
      modifies this`stop, this`ip, this`gpr, this`sp, this`bp, this`fl, this`fp, shadow, ram
      ensures Valid() && Matches(r, RunAll(c, old(Abs()), old(ram.bytes), es))
    {
      hide Step;
      for k := 0 to |es|
        invariant Valid() && RunAll(c, Abs(), ram.bytes, es[k..]) == RunAll(c, old(Abs()), old(ram.bytes), es)
      {
        assert es[k..][0] == es[k] && es[k..][1..] == es[k + 1..];
        r := StepOnce(es[k]);
        if r != Go { return; }
      }
      r := Go;
    }
  }

  /** A run without interference. */
  function RunAll(c: Image, t: Thread, m: Mem, es: seq<Env>): Outcome
    decreases |es|
  {
    if es == [] then Running(t, m)
    else match Step(c, t, m, es[0])
      case Running(t', m') => RunAll(c, t', m', es[1..])
      case stopped => stopped
  }
}
