/** The assembler as it runs: section buffers filled in place, tables appended to, and the text patched at
    the end. Every method is proved to compute the corresponding step of module Asm. */
module Assembler {
  import opened Words
  import opened Isa
  import opened Objects
  import opened Asm
  import opened Labels
  import TwoPass

  /** A section buffer: fixed storage, `len` bytes in use. */
  class Buf {
    const buf: array<byte>
    var len: nat

    ghost predicate Valid() reads this { buf.Length == BUF_MAX && len <= BUF_MAX }

    ghost function Contents(): (s: seq<byte>)
      requires Valid()
      reads this, buf
    {
      buf[..len]
    }

    constructor ()
      ensures Valid() && Contents() == [] && fresh(buf)
    {
      buf := new byte[BUF_MAX](_ => 0);
      len := 0;
    }

    /** Append bytes; refuses where C would run past the buffer. */
    method Write(w: seq<byte>) returns (ok: bool)
      requires Valid()
      modifies this, buf
      ensures Valid() && ok == (old(len) + |w| <= BUF_MAX)
      ensures Contents() == old(Contents()) + if ok then w else []
    {
      ok := len + |w| <= BUF_MAX;
      if ok {
        CopyIn(len, w);
        len := len + |w|;
        assert buf[..len] == buf[..old(len)] + buf[old(len)..len];
      }
    }

    method CopyIn(at: nat, w: seq<byte>)
      requires Valid() && at + |w| <= BUF_MAX
      modifies buf
      ensures buf[..at] == old(buf[..at]) && buf[at..at + |w|] == w
      ensures buf[at + |w|..] == old(buf[at + |w|..])
    {
      var i := 0;
      while i < |w|
        invariant i <= |w|
        invariant forall k :: 0 <= k < at ==> buf[k] == old(buf[k])
        invariant forall k :: 0 <= k < i ==> buf[at + k] == w[k]
        invariant forall k :: at + |w| <= k < BUF_MAX ==> buf[k] == old(buf[k])
      {
        buf[at + i] := w[i];
        i := i + 1;
      }
    }

    /** memcpy over bytes already written. */
    method Patch(at: nat, w: seq<byte>)
      requires Valid() && at + |w| <= len
      modifies buf
      ensures Valid() && Contents() == Overwrite(old(Contents()), at, w)
    {
      CopyIn(at, w);
      var t := old(buf[..len]);
      assert buf[..len] == buf[..at] + buf[at..at + |w|] + buf[at + |w|..][..len - at - |w|];
      assert t[at + |w|..] == old(buf[at + |w|..])[..len - at - |w|];
    }
  }

  lemma PatchBounds(st: State)
    requires Good(st)
    ensures forall p :: p in st.patches ==> p.at + (if p.is64 then 8 else 4) <= |st.text|
  {
  }

  lemma NoPatches(t: seq<byte>, ls: seq<Label>)
    ensures PatchAll(t, [], ls) == t
  {
  }

  class AsmCtx {
    const text: Buf
    const data: Buf
    const cnst: Buf
    var labels: seq<Label>
    var patches: seq<Patch>
    var rels: seq<Rel>
    var sec: byte

    ghost const Repr: set<object>

    ghost predicate Valid()
      reads this, Repr
    {
      && Repr == {this, text, text.buf, data, data.buf, cnst, cnst.buf}
      && text.Valid() && data.Valid() && cnst.Valid()
      && text != data && text != cnst && data != cnst
      && text.buf != data.buf && text.buf != cnst.buf && data.buf != cnst.buf
    }

    ghost function Abs(): State
      requires Valid()
      reads this, Repr
    {
      State(text.Contents(), data.Contents(), cnst.Contents(), labels, patches, rels, sec)
    }

    constructor ()
      ensures Valid() && fresh(Repr) && Abs() == Init()
    {
      var t := new Buf();
      var d := new Buf();
      var c := new Buf();
      text, data, cnst := t, d, c;
      labels, patches, rels, sec := [], [], [], SEC_CODE;
      Repr := {this, t, t.buf, d, d.buf, c, c.buf};
    }

    /** asm_label_find, as an index. */
    method LabelFind(name: Name) returns (i: nat)
      ensures i == Find(labels, name)
    {
      i := 0;
      while i < |labels| && labels[i].name != name
        invariant i <= |labels|
        invariant forall k :: 0 <= k < i ==> labels[k].name != name
      {
        i := i + 1;
      }
      FindUnique(labels, name, i);
    }

    method LabelDefine(name: Name, flags: byte, section: byte, off: int) returns (ok: bool)
      modifies this`labels
      ensures match Define(old(labels), name, flags, section, off)
              case Ok(ls) => ok && labels == ls
              case Err(_) => !ok && labels == old(labels)
    {
      var i := LabelFind(name);
      ok := true;
      if i < |labels| {
        if labels[i].flags == SYM_EXTERN && flags != SYM_EXTERN {
          labels := labels[i := Label(name, flags, section, off)];
        } else if labels[i].offset < 0 {
          labels := labels[i := Label(name, flags, section, off)];
        }
      } else if |labels| >= MAX_LABELS {
        ok := false;
      } else {
        labels := labels + [Label(name, flags, section, off)];
      }
    }

    method PutText(w: seq<byte>) returns (ok: bool)
      requires Valid()
      modifies text, text.buf
      ensures Valid()
      ensures match Put(old(Abs()), w) case Ok(s) => ok && Abs() == s case Err(_) => !ok
    {
      ok := text.Write(w);
    }

    method LabelRefCode(name: Name) returns (ok: bool)
      requires Valid()
      modifies this, text, text.buf
      ensures Valid()
      ensures match RefCode(old(Abs()), name) case Ok(s) => ok && Abs() == s case Err(_) => !ok
    {
      var i := LabelFind(name);
      if i < |labels| && labels[i].offset >= 0 && labels[i].section == SEC_CODE && labels[i].flags != SYM_EXTERN {
        ok := PutText(Le(4, labels[i].offset));
        return;
      }
      if |patches| >= MAX_PATCHES { return false; }
      var at := text.len;
      patches := patches + [Patch(name, at, false)];
      ok := PutText(Le(4, 0));
      if !ok { return; }
      if i < |labels| && labels[i].flags == SYM_EXTERN {
        if |rels| >= MAX_RELS { return false; }
        rels := rels + [Rel(at % TWO32, i % TWO32, REL_CODE)];
      }
    }

    method LabelRefData(name: Name) returns (ok: bool)
      requires Valid()
      modifies this, text, text.buf
      ensures Valid()
      ensures match RefData(old(Abs()), name) case Ok(s) => ok && Abs() == s case Err(_) => !ok
    {
      if |rels| >= MAX_RELS { return false; }
      var i := LabelFind(name);
      if i == |labels| {
        var placed := LabelDefine(name, SYM_EXTERN, SEC_NONE, -1);
        if !placed { return false; }
      }
      rels := rels + [Rel(text.len % TWO32, i % TWO32, REL_DATA)];
      if !(i < |labels| && labels[i].offset >= 0) {
        if |patches| >= MAX_PATCHES { return false; }
        patches := patches + [Patch(name, text.len, true)];
      }
      ok := PutText(Le(8, 0));
    }

    method EmitIns(src: Src) returns (ok: bool)
      requires Valid()
      modifies this, text, text.buf
      ensures Valid()
      ensures match Emit(old(Abs()), src) case Ok(s) => ok && Abs() == s case Err(_) => !ok
    {
      hide Put, RefCode, RefData, Head;
      ok := PutText(Head(src));
      if !ok { return; }
      match src
      case MovLabel(_, name) => ok := LabelRefData(name);
      case JumpSrc(_, name) => ok := LabelRefCode(name);
      case CallSrc(okName, err) =>
        ok := LabelRefCode(okName);
        if ok { ok := LabelRefCode(err); }
      case CallrSrc(_, err) => ok := LabelRefCode(err);
      case _ =>
    }

    method PutBytes(w: seq<byte>) returns (ok: bool)
      requires Valid()
      modifies data, data.buf, cnst, cnst.buf
      ensures Valid()
      ensures match PutData(old(Abs()), w) case Ok(s) => ok && Abs() == s case Err(_) => !ok
    {
      if sec == SEC_CNST {
        ok := cnst.Write(w);
      } else if sec == SEC_DATA {
        ok := data.Write(w);
      } else {
        ok := false;
      }
    }

    method Declare(line: Line) returns (ok: bool)
      requires Valid() && (line.Global? || line.Extern? || line.LabelDef?)
      modifies this`labels
      ensures Valid()
      ensures match DoLine(old(Abs()), line) case Ok(s) => ok && Abs() == s case Err(_) => !ok
    {
      hide Define, Emit, PutData;
      var i := LabelFind(line.name);
      match line
      case Global(name) =>
        if i < |labels| {
          labels := labels[i := labels[i].(flags := SYM_GLOBAL)];
          ok := true;
        } else {
          ok := LabelDefine(name, SYM_GLOBAL, sec, -1);
        }
      case Extern(name) =>
        ok := LabelDefine(name, SYM_EXTERN, SEC_NONE, -1);
      case LabelDef(name) =>
        var flags := if i < |labels| && labels[i].flags == SYM_GLOBAL then SYM_GLOBAL else SYM_LOCAL;
        var here := if sec == SEC_CNST then cnst.len else if sec == SEC_DATA then data.len else text.len;
        ok := LabelDefine(name, flags, sec, here);
    }

    method CompileLine(line: Line) returns (ok: bool)
      requires Valid()
      modifies Repr
      ensures Valid()
      ensures match DoLine(old(Abs()), line) case Ok(s) => ok && Abs() == s case Err(_) => !ok
    {
      hide Define, Emit, PutData;
      match line
      case Section(s) =>
        ok := s == SEC_CNST || s == SEC_DATA || s == SEC_CODE;
        if ok { sec := s; }
      case Ins(src) =>
        if sec != SEC_CODE { ok := false; } else { ok := EmitIns(src); }
      case Number(width, v) =>
        ok := PutBytes(Le(width, v));
      case Text(bytes, z) =>
        ok := PutBytes(bytes + if z then [0] else []);
      case _ =>
        ok := Declare(line);
    }

    /** patches_resolve: patches the text in place, and goes on past a patch it cannot resolve. */
    method PatchesResolve() returns (ok: bool)
      requires Valid() && Good(Abs())
      modifies text.buf
      ensures Valid()
      ensures ok == TwoPass.AllResolvable(patches, labels)
      ensures ok ==> Abs() == old(Abs()).(text := PatchAll(old(Abs()).text, patches, labels))
    {
      hide Good, PatchAll, PatchOne, Resolvable, Le;
      ghost var t0 := text.Contents();
      PatchBounds(Abs());
      ok := true;
      var n := 0;
      NoPatches(t0, labels);
      while n < |patches|
        invariant n <= |patches| && Valid() && |text.Contents()| == |t0|
        invariant ok == forall k :: 0 <= k < n ==> Resolvable(patches[k], labels)
        invariant ok ==> text.Contents() == PatchAll(t0, patches[..n], labels)
      {
        assert patches[..n + 1] == patches[..n] + [patches[n]];
        TwoPass.PatchAllSnoc(t0, patches[..n], patches[n], labels);
        var good := PatchResolve(patches[n]);
        ok := ok && good;
        n := n + 1;
      }
      assert patches[..n] == patches;
    }

    method PatchResolve(p: Asm.Patch) returns (ok: bool)
      requires Valid() && p.at + (if p.is64 then 8 else 4) <= text.len
      modifies text.buf
      ensures Valid() && ok == Resolvable(p, labels) && |text.Contents()| == |old(text.Contents())|
      ensures ok ==> text.Contents() == PatchOne(old(text.Contents()), p, labels)
    {
      hide Le;
      ok := true;
      var i := LabelFind(p.name);
      if i == |labels| {
        ok := false;
      } else if p.is64 {
        if labels[i].flags != SYM_EXTERN && labels[i].offset < 0 { ok := false; }
      } else if labels[i].flags != SYM_EXTERN {
        if labels[i].section != SEC_CODE || labels[i].offset < 0 {
          ok := false;
        } else {
          text.Patch(p.at, Le(4, labels[i].offset));
        }
      }
    }

    /** asm_compile on an empty context. */
    method Compile(lines: seq<Line>) returns (ok: bool)
      requires Valid() && Abs() == Init()
      modifies Repr
      ensures Valid()
      ensures ok <==> Assemble(lines).Ok?
      ensures ok ==> Abs() == Assemble(lines).v
    {
      hide DoLine, PatchAll, Resolvable;
      var n := 0;
      ok := true;
      while ok && n < |lines|
        invariant n <= |lines| && Valid()
        invariant ok ==> DoLines(Init(), lines) == DoLines(Abs(), lines[n..])
        invariant !ok ==> DoLines(Init(), lines).Err?
        decreases |lines| - n, ok
      {
        assert lines[n..][1..] == lines[n + 1..];
        ok := CompileLine(lines[n]);
        n := n + 1;
      }
      if !ok { return; }
      TwoPass.InitGood();
      RunKeeps(Init(), lines, []);
      assert lines[n..] == [];
      ok := PatchesResolve();
    }
  }
}
