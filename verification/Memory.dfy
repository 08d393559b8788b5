/** Byte-addressed little-endian memory shared by the machine's threads. */
module Memory {
  import opened Words

  type Mem = map<nat, byte>

  ghost predicate Mapped(m: Mem, a: nat, n: nat) {
    forall k :: a <= k < a + n ==> k in m
  }

  /** Same bytes on [lo, hi). */
  ghost predicate Agree(m: Mem, m': Mem, lo: nat, hi: nat) {
    forall k :: lo <= k < hi ==> (k in m <==> k in m') && (k in m ==> m'[k] == m[k])
  }

  function Load(m: Mem, a: nat, n: nat): (r: Option<nat>)
    ensures r.Some? ==> r.value < Pow256(n)
    decreases n, a
  {
    if n == 0 then Some(0)
    else if a !in m then None
    else match Load(m, a + 1, n - 1)
      case None => None
      case Some(hi) => Some(m[a] + 256 * hi)
  }

  function Store(m: Mem, a: nat, n: nat, v: nat): (r: Option<Mem>)
    decreases n, a
  {
    if n == 0 then Some(m)
    else if a !in m then None
    else Store(m[a := v % 256], a + 1, n - 1, v / 256)
  }

  function ByteIn(m: Mem, a: nat): byte { if a in m then m[a] else 0 }

  /** n bytes from address a. */
  function Bytes(m: Mem, a: nat, n: nat): (w: seq<byte>)
    ensures |w| == n && forall k :: 0 <= k < n ==> w[k] == ByteIn(m, a + k)
  {
    seq<byte>(n, k requires 0 <= k < n => ByteIn(m, a + k))
  }

  predicate ByteThere(m: Mem, a: nat, b: byte) { a in m && m[a] == b }

  /** The bytes w lie in memory from address `at`, without wrap-around. */
  ghost predicate LiesAt(m: Mem, at: nat, w: seq<byte>) {
    at + |w| <= TWO64 && forall k :: 0 <= k < |w| ==> ByteThere(m, at + k, w[k])
  }

  lemma LiesBytes(m: Mem, at: nat, w: seq<byte>, off: nat, v: seq<byte>)
    requires LiesAt(m, at, w) && HasAt(w, off, v)
    ensures Mapped(m, at + off, |v|) && Bytes(m, at + off, |v|) == v
  {
    forall k | 0 <= k < |v| ensures ByteThere(m, at + (off + k), v[k]) {
      assert w[off..off + |v|][k] == w[off + k];
    }
    forall k | at + off <= k < at + off + |v| ensures k in m {
      var q := k - (at + off);
      assert w[off..off + |v|][q] == w[off + q] && at + (off + q) == k;
    }
    forall k | 0 <= k < |v| ensures Bytes(m, at + off, |v|)[k] == v[k] {
      assert w[off..off + |v|][k] == w[off + k] && at + (off + k) == at + off + k;
    }
  }

  /** A load reads the little-endian number at its address. */
  lemma {:induction false} LoadIsLe(m: Mem, a: nat, n: nat)
    requires Mapped(m, a, n)
    ensures Load(m, a, n) == Some(FromLe(Bytes(m, a, n)))
    decreases n
  {
    if n > 0 {
      LoadIsLe(m, a + 1, n - 1);
      assert Bytes(m, a, n)[1..] == Bytes(m, a + 1, n - 1);
    }
  }

  /** A load faults exactly when it touches an unmapped byte. */
  lemma {:induction false} LoadDefined(m: Mem, a: nat, n: nat)
    ensures Load(m, a, n).Some? <==> Mapped(m, a, n)
    decreases n, a
  {
    if n > 0 {
      LoadDefined(m, a + 1, n - 1);
      assert Mapped(m, a, n) <==> a in m && Mapped(m, a + 1, n - 1);
    }
  }

  lemma {:induction false} StoreDefined(m: Mem, a: nat, n: nat, v: nat)
    ensures Store(m, a, n, v).Some? <==> Mapped(m, a, n)
    ensures Store(m, a, n, v).Some? ==> Store(m, a, n, v).value.Keys == m.Keys
    ensures Store(m, a, n, v).Some? ==>
              forall k :: k in m && !(a <= k < a + n) ==> Store(m, a, n, v).value[k] == m[k]
    decreases n, a
  {
    if n > 0 {
      assert Mapped(m, a, n) <==> a in m && Mapped(m, a + 1, n - 1);
      if a in m {
        var m' := m[a := v % 256];
        StoreDefined(m', a + 1, n - 1, v / 256);
        assert m'.Keys == m.Keys;
        assert Mapped(m', a + 1, n - 1) <==> Mapped(m, a + 1, n - 1);
      }
    }
  }

  /** A load sees only the bytes it covers. */
  lemma {:induction false} LoadFrame(m: Mem, m': Mem, a: nat, n: nat)
    requires forall k :: a <= k < a + n ==> (k in m <==> k in m') && (k in m ==> m'[k] == m[k])
    ensures Load(m', a, n) == Load(m, a, n)
    decreases n, a
  {
    if n > 0 && a in m {
      LoadFrame(m, m', a + 1, n - 1);
    }
  }

  /** What was stored is read back, truncated to the access width. */
  lemma {:induction false} LoadAfterStore(m: Mem, a: nat, n: nat, v: nat)
    requires Store(m, a, n, v).Some?
    ensures Load(Store(m, a, n, v).value, a, n) == Some(v % Pow256(n))
    decreases n, a
  {
    if n > 0 {
      var m1 := m[a := v % 256];
      var m' := Store(m, a, n, v).value;
      LoadAfterStore(m1, a + 1, n - 1, v / 256);
      StoreDefined(m1, a + 1, n - 1, v / 256);
      ModNested(v, Pow256(n - 1));
      assert m'[a] == v % 256;
    }
  }

  /** The two facts about storing a full word. */
  lemma StoreWord(m: Mem, a: nat, v: u64)
    requires Store(m, a, 8, v).Some?
    ensures Load(Store(m, a, 8, v).value, a, 8) == Some(v)
    ensures Agree(m, Store(m, a, 8, v).value, a + 8, TWO64)
    ensures Agree(m, Store(m, a, 8, v).value, 0, a)
  {
    PowValues();
    LoadAfterStore(m, a, 8, v);
    StoreDefined(m, a, 8, v);
  }
}
