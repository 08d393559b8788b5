/** The thread registry: a linked list through the threads' own `next` fields. */
module Registry {
  import opened VmRun

  // ----- specification --------------------------------------------------------------------------------

  /** The list without t. */
  function Without<T(==)>(s: seq<T>, t: T): (r: seq<T>)
  {
    if s == [] then [] else if s[0] == t then Without(s[1..], t) else [s[0]] + Without(s[1..], t)
  }

  ghost predicate NoDup<T>(s: seq<T>) {
    forall i, j :: 0 <= i < j < |s| ==> s[i] != s[j]
  }

  lemma {:induction false} WithoutMembers<T>(s: seq<T>, t: T)
    ensures t !in Without(s, t)
    ensures forall x :: x != t ==> (x in Without(s, t) <==> x in s)
  {
    if s != [] {
      WithoutMembers(s[1..], t);
    }
  }

  lemma {:induction false} WithoutAbsent<T>(s: seq<T>, t: T)
    requires t !in s
    ensures Without(s, t) == s
  {
    if s != [] {
      WithoutAbsent(s[1..], t);
      assert s == [s[0]] + s[1..];
    }
  }

  lemma {:induction false} WithoutNoDup<T>(s: seq<T>, t: T)
    requires NoDup(s)
    ensures NoDup(Without(s, t))
  {
    if s != [] {
      WithoutNoDup(s[1..], t);
      WithoutMembers(s[1..], t);
      assert s[0] !in s[1..];
    }
  }

  /** At its one occurrence, removal joins what is before and after. */
  lemma {:induction false} WithoutAt<T>(s: seq<T>, i: nat)
    requires NoDup(s) && i < |s|
    ensures Without(s, s[i]) == s[..i] + s[i + 1..]
  {
    if i == 0 {
      assert s[0] !in s[1..];
      WithoutAbsent(s[1..], s[0]);
      assert s[..0] + s[1..] == s[1..];
    } else {
      WithoutAt(s[1..], i - 1);
      assert s[0] != s[i] && s[1..][i - 1] == s[i];
      assert [s[0]] + (s[1..][..i - 1] + s[1..][i..]) == s[..i] + s[i + 1..];
    }
  }

  datatype Op<T> = Add(t: T) | Remove(t: T)

  function Apply<T(==)>(s: seq<T>, op: Op<T>): seq<T> {
    match op case Add(t) => [t] + s case Remove(t) => Without(s, t)
  }

  function ApplyAll<T(==)>(s: seq<T>, ops: seq<Op<T>>): seq<T> {
    if ops == [] then s else Apply(ApplyAll(s, ops[..|ops| - 1]), ops[|ops| - 1])
  }

  /** A thread is only added when it is not in the list. */
  ghost predicate Allowed<T>(ops: seq<Op<T>>) {
    forall k :: 0 <= k < |ops| && ops[k].Add? ==> ops[k].t !in ApplyAll([], ops[..k])
  }

  /** Added, and not removed since. */
  ghost predicate Registered<T>(ops: seq<Op<T>>, t: T) {
    exists k :: 0 <= k < |ops| && ops[k] == Add(t) && forall j :: k < j < |ops| ==> ops[j] != Remove(t)
  }

  /** After any sequence of additions and removals the list holds exactly once each thread added and not yet
      removed. */
  lemma {:induction false} ExactlyRegistered<T>(ops: seq<Op<T>>)
    requires Allowed(ops)
    ensures NoDup(ApplyAll([], ops))
    ensures forall t :: t in ApplyAll([], ops) <==> Registered(ops, t)
    decreases |ops|
  {
    if ops != [] {
      var front, last := ops[..|ops| - 1], ops[|ops| - 1];
      assert forall k :: 0 <= k < |front| ==> front[..k] == ops[..k];
      ExactlyRegistered(front);
      var s := ApplyAll([], front);
      forall t ensures t in Apply(s, last) <==> Registered(ops, t) { LastOp(ops, t); }
      match last
      case Add(t) =>
      case Remove(t) => WithoutNoDup(s, t);
    }
  }

  lemma LastOp<T>(ops: seq<Op<T>>, t: T)
    requires ops != []
    requires t in ApplyAll([], ops[..|ops| - 1]) <==> Registered(ops[..|ops| - 1], t)
    ensures t in ApplyAll([], ops) <==> Registered(ops, t)
  {
    var front, last := ops[..|ops| - 1], ops[|ops| - 1];
    if last.Remove? { WithoutMembers(ApplyAll([], front), last.t); }
    RegisteredLast(ops, t);
  }

  lemma RegisteredLast<T>(ops: seq<Op<T>>, t: T)
    requires ops != []
    ensures Registered(ops, t) <==>
              ops[|ops| - 1] == Add(t) || (ops[|ops| - 1] != Remove(t) && Registered(ops[..|ops| - 1], t))
  {
    var front, last := ops[..|ops| - 1], ops[|ops| - 1];
    if last != Add(t) && last != Remove(t) && Registered(front, t) {
      var k :| 0 <= k < |front| && front[k] == Add(t) && forall j :: k < j < |front| ==> front[j] != Remove(t);
      assert ops[k] == Add(t);
      forall j | k < j < |ops| ensures ops[j] != Remove(t) { assert j < |front| ==> front[j] == ops[j]; }
    }
    if last != Add(t) && Registered(ops, t) {
      var k :| 0 <= k < |ops| && ops[k] == Add(t) && forall j :: k < j < |ops| ==> ops[j] != Remove(t);
      assert front[k] == Add(t);
      forall j | k < j < |front| ensures front[j] != Remove(t) { assert front[j] == ops[j]; }
    }
  }

  // ----- the linked list ----------------------------------------------------------------------------------

  ghost function Following(s: seq<VMThread>, i: nat): VMThread? {
    if i + 1 < |s| then s[i + 1] else null
  }

  /** Successors once element i is gone. */
  lemma FollowingWithout(s: seq<VMThread>, i: nat)
    requires i < |s|
    ensures var r := s[..i] + s[i + 1..];
            forall k :: 0 <= k < |r| ==>
              && r[k] == s[if k < i then k else k + 1]
              && Following(r, k) == Following(s, if k < i - 1 then k else k + 1)
  {
  }

  class ThreadList {
    var head: VMThread?
    /** The threads in list order. */
    ghost var contents: seq<VMThread>

    /** Following `next` from `head` visits `contents`, in order and once each, and ends. */
    ghost predicate Valid()
      reads this, contents
    {
      && NoDup(contents)
      && head == (if contents == [] then null else contents[0])
      && forall i :: 0 <= i < |contents| ==> contents[i].next == Following(contents, i)
    }

    constructor ()
      ensures Valid() && contents == []
    {
      head := null;
      contents := [];
    }

    method Add(t: VMThread)
      requires Valid() && t !in contents
      modifies this, t`next
      ensures Valid() && contents == Apply(old(contents), Op.Add(t))
    {
      ghost var s := contents;
      assert forall i :: 0 <= i < |s| ==> s[i] != t;
      t.next := head;
      head := t;
      contents := [t] + s;
      assert forall i :: 0 < i < |contents| ==> contents[i] == s[i - 1];
    }

    /** Walk to the link that points at t, if any, and make it point past t. */
    method Remove(t: VMThread)
      requires Valid()
      modifies this, contents`next
      ensures Valid() && contents == Apply(old(contents), Op.Remove(t))
      ensures t !in old(contents) ==> head == old(head) && forall x :: x in old(contents) ==> x.next == old(x.next)
      ensures t.next == old(t.next)
    {
      var prev: VMThread? := null;
      var p := head;
      ghost var i := 0;
      while p != null && p != t
        invariant 0 <= i <= |contents|
        invariant p == (if i < |contents| then contents[i] else null)
        invariant prev == (if i == 0 then null else contents[i - 1])
        invariant t !in contents[..i]
        decreases |contents| - i
      {
        prev := p;
        p := p.next;
        i := i + 1;
      }
      if p != null {
        Unlink(prev, t, i);
      } else {
        assert contents[..i] == contents;
        WithoutAbsent(contents, t);
      }
    }

    /** Make the link that points at t point past it. */
    method Unlink(prev: VMThread?, t: VMThread, ghost i: nat)
      requires Valid() && i < |contents| && contents[i] == t
      requires prev == (if i == 0 then null else contents[i - 1])
      modifies this, contents`next
      ensures Valid() && contents == Apply(old(contents), Op.Remove(t)) && t.next == old(t.next)
    {
      ghost var s := contents;
      WithoutAt(s, i);
      FollowingWithout(s, i);
      assert forall k :: 0 <= k < |s| && k != i ==> s[k] != t;
      if prev == null {
        head := t.next;
      } else {
        assert forall k :: 0 <= k < |s| && k != i - 1 ==> s[k] != prev;
        prev.next := t.next;
      }
      contents := s[..i] + s[i + 1..];
      WithoutNoDup(s, t);
      forall k | 0 <= k < |contents| ensures contents[k].next == Following(contents, k) {
        assert s[if k < i then k else k + 1] in s;
      }
    }
  }
}
