/** The trie in terms of hashes alone: slots are the base-32 digits of the hash, and what that
    means for runs. */
module HashBits {
  import opened Options
  import opened Hamt
  import opened HamtOps
  import opened PMap

  // ---------- slots are digits ----------

  function Pow(b: nat, n: nat): nat { if n == 0 then 1 else Pow(b, n - 1) * b }

  lemma {:induction false} SamePower(n: nat)
    ensures Pow32(n) == Pow(32, n)
  {
    if n > 0 {
      SamePower(n - 1);
    }
  }

  /** The number whose base-32 digits are the key's first `n` slots. */
  function Digits(h: Key -> nat, k: Key, n: nat): nat {
    if n == 0 then 0 else Digits(h, k, n - 1) + Slot(h, k, n - 1) * Pow(32, n - 1)
  }

  lemma DivMod(x: nat, m: nat, q: nat, r: nat)
    requires m > 0 && x == q * m + r && r < m
    ensures x / m == q && x % m == r
  {
    var q', r' := x / m, x % m;
    assert x == q' * m + r';
    if q' < q {
      MulLess(q', q, m);
    } else if q < q' {
      MulLess(q, q', m);
    }
  }

  lemma MulLess(a: nat, b: nat, m: nat)
    requires a < b
    ensures a * m + m <= b * m
  {
    assert (b - a) * m >= m by {
      assert b - a >= 1;
      assert (b - a) * m == m + (b - a - 1) * m;
    }
    assert b * m == a * m + (b - a) * m;
  }

  /** One more base-32 digit of a number. */
  lemma NextDigit(x: nat, p: nat)
    requires p > 0
    ensures x % (p * 32) == x % p + x / p % 32 * p
  {
    var q, r := x / p, x % p;
    var d, u := q % 32, q / 32;
    assert x == q * p + r && q == u * 32 + d;
    assert x == u * (p * 32) + (d * p + r) by {
      assert q * p == (u * 32) * p + d * p;
      assert (u * 32) * p == u * (p * 32);
    }
    assert d * p + r < p * 32 by {
      MulLess(d, 32, p);
    }
    DivMod(x, p * 32, u, d * p + r);
  }

  /** The slots of a key down to level `n` are the low `n` base-32 digits of its hash. */
  lemma {:induction false} DigitLaw(h: Key -> nat, k: Key, n: nat)
    ensures Pow(32, n) > 0 && h(k) % Pow(32, n) == Digits(h, k, n)
  {
    if n > 0 {
      DigitLaw(h, k, n - 1);
      SamePower(n - 1);
      NextDigit(h(k), Pow(32, n - 1));
    }
  }

  lemma SplitEqual(a: nat, b: nat, d: nat, e: nat, p: nat)
    requires a < p && b < p && a + d * p == b + e * p
    ensures a == b && d == e
  {
    DivMod(a + d * p, p, d, a);
    DivMod(b + e * p, p, e, b);
  }

  /** Two keys share their first `n` slots exactly when their hashes agree modulo 32^n. */
  lemma {:induction false} SharedSlots(h: Key -> nat, a: Key, b: Key, n: nat)
    ensures (forall l :: 0 <= l < n ==> Slot(h, a, l) == Slot(h, b, l)) <==> Digits(h, a, n) == Digits(h, b, n)
  {
    hide Slot;
    if n > 0 {
      SharedSlots(h, a, b, n - 1);
      DigitLaw(h, a, n - 1);
      DigitLaw(h, b, n - 1);
      var p := Pow(32, n - 1);
      if Digits(h, a, n) == Digits(h, b, n) {
        SplitEqual(Digits(h, a, n - 1), Digits(h, b, n - 1), Slot(h, a, n - 1), Slot(h, b, n - 1), p);
      }
    }
  }

  lemma FirstSlot(h: Key -> nat, k: Key)
    ensures Slot(h, k, 0) == h(k) % 32
  {
    assert Pow32(0) == 1;
  }

  lemma TenDigits()
    ensures Pow(32, MAX_LEVELS) == 0x4_0000_0000_0000
  {
    assert Pow(32, 2) == 1024;
    assert Pow(32, 4) == 0x10_0000;
    assert Pow(32, 6) == 0x4000_0000;
    assert Pow(32, 8) == 0x100_0000_0000;
  }

  // ---------- two keys ----------

  lemma TwoKeys(a: Key, b: Key, v: Val, w: Val)
    requires a != b
    ensures var e: map<Key, Val> := map[a := v, b := w]; |e| == 2 && e.Keys == {a, b} && e[a] == v && e[b] == w
  {
    var e: map<Key, Val> := map[a := v, b := w];
    assert e.Keys == {a, b} && |e| == |e.Keys|;
  }

  lemma UsedSlot(h: Key -> nat, e: map<Key, Val>, k: Key, level: nat)
    requires k in e
    ensures Used(h, e, level)[Slot(h, k, level)]
  {
    hide Slot;
    assert k in Bucket(h, e, level, Slot(h, k, level));
  }

  /** More than one slot in use. */
  lemma TwoRanks(b: seq<bool>, i: nat, j: nat)
    requires |b| == BRANCH && i != j && i < BRANCH && j < BRANCH && b[i] && b[j]
    ensures Rank(b, BRANCH) >= 2
  {
    if i < j {
      RankMono(b, i, j);
      RankMono(b, j, BRANCH);
    } else {
      RankMono(b, j, i);
      RankMono(b, i, BRANCH);
    }
  }

  lemma OneRank(b: seq<bool>, i: nat)
    requires |b| == BRANCH && i < BRANCH && b[i] && forall s :: 0 <= s < BRANCH && s != i ==> !b[s]
    ensures Rank(b, BRANCH) == 1
  {
    RankMono(b, i, BRANCH);
    if Rank(b, BRANCH) >= 2 {
      var t := TwoUsed(b, BRANCH, i);
      assert false;
    }
  }

  lemma FewKeys(e: map<Key, Val>, k: Key)
    requires e.Keys <= {k}
    ensures |e| <= 1
  {
    assert |e| == |e.Keys|;
    if k in e {
      assert e.Keys == {k};
    } else {
      assert e.Keys == {};
    }
  }

  lemma PairSkips(h: Key -> nat, e: map<Key, Val>, a: Key, b: Key)
    requires a != b && e.Keys == {a, b} && |e| == 2
    ensures NoSkip(h, e, 0) <==> Slot(h, a, 0) != Slot(h, b, 0) || forall l :: 0 <= l < MAX_LEVELS ==> Slot(h, a, l) == Slot(h, b, l)
  {
    hide Slot, Rank, Bucket;
    UsedSlot(h, e, a, 0);
    UsedSlot(h, e, b, 0);
    var i, j := Slot(h, a, 0), Slot(h, b, 0);
    assert forall k :: k in e <==> k in e.Keys;
    if i == j {
      forall s | 0 <= s < BRANCH && s != i ensures !Used(h, e, 0)[s] {
        forall k ensures k !in Bucket(h, e, 0, s) {
          InBucket(h, e, 0, s, k);
        }
      }
      OneRank(Used(h, e, 0), i);
      assert Collide(h, e, 0) <==> forall l :: 0 <= l < MAX_LEVELS ==> Slot(h, a, l) == Slot(h, b, l) by {
        PairCollides(h, e, a, b);
      }
    } else {
      TwoRanks(Used(h, e, 0), i, j);
      forall s | 0 <= s < BRANCH ensures NoSkip(h, Bucket(h, e, 0, s), 1) {
        var c := Bucket(h, e, 0, s);
        InBucket(h, e, 0, s, a);
        InBucket(h, e, 0, s, b);
        forall k | k in c ensures k == if s == i then a else b {
          InBucket(h, e, 0, s, k);
        }
        FewKeys(c, if s == i then a else b);
      }
    }
  }

  lemma PairCollides(h: Key -> nat, e: map<Key, Val>, a: Key, b: Key)
    requires e.Keys == {a, b}
    ensures Collide(h, e, 0) <==> forall l :: 0 <= l < MAX_LEVELS ==> Slot(h, a, l) == Slot(h, b, l)
  {
    hide Slot;
    assert a in e && b in e;
    assert forall k :: k in e ==> k in e.Keys;
  }

  lemma PutTwo(h: Key -> nat, a: Key, v: Val, b: Key, w: Val)
    requires a != b
    ensures After(h, [Put(a, v), Put(b, w)]) == Build(h, map[a := v, b := w], 0)
  {
    hide Build;
    var ops := [Put(a, v), Put(b, w)];
    assert ops[..1] == [Put(a, v)];
    assert ops[..1][..0] == [];
    var one: map<Key, Val> := map[a := v];
    assert a in one && b !in one;
    assert After(h, ops[..1]) == Cell(Leaf(one));
    assert one[b := w] == map[a := v, b := w] && ops[1] == Put(b, w);
  }

  /** Two keys put one after the other are both found if and only if their hashes differ modulo
      32, or agree in all fifty bits the trie looks at. */
  lemma TwoKeysFound(h: Key -> nat, a: Key, v: Val, b: Key, w: Val)
    requires a != b
    ensures var r := After(h, [Put(a, v), Put(b, w)]);
      Value(h, r, a, 0) == Some(v) && Value(h, r, b, 0) == Some(w) <==>
      h(a) % 32 != h(b) % 32 || h(a) % 0x4_0000_0000_0000 == h(b) % 0x4_0000_0000_0000
  {
    hide Build, Value, NoSkip, Slot, Digits, Pow, After;
    var e: map<Key, Val> := map[a := v, b := w];
    TwoKeys(a, b, v, w);
    PutTwo(h, a, v, b, w);
    BuildCorrect(h, e, 0);
    PairSkips(h, e, a, b);
    FirstSlot(h, a);
    FirstSlot(h, b);
    SharedSlots(h, a, b, MAX_LEVELS);
    DigitLaw(h, a, MAX_LEVELS);
    DigitLaw(h, b, MAX_LEVELS);
    TenDigits();
    assert a in e && b in e && forall k :: k in e ==> k == a || k == b;
  }

  // ---------- keys that part at once ----------

  /** The keys a run puts differ in the low five bits of their hashes. */
  ghost predicate Spread(h: Key -> nat, ops: seq<Op>) {
    forall i, j :: 0 <= i < |ops| && 0 <= j < |ops| && ops[i].Put? && ops[j].Put? && ops[i].k != ops[j].k ==>
      h(ops[i].k) % 32 != h(ops[j].k) % 32
  }

  lemma {:induction false} ModelKeys(ops: seq<Op>, k: Key)
    requires k in Model(ops)
    ensures exists i :: 0 <= i < |ops| && ops[i].Put? && ops[i].k == k
    decreases |ops|
  {
    var n := |ops| - 1;
    if ops[n].Put? && ops[n].k == k {
      assert ops[n].k == k;
    } else {
      ModelKeys(ops[..n], k);
      var i :| 0 <= i < n && ops[..n][i].Put? && ops[..n][i].k == k;
      assert ops[i].k == k;
    }
  }

  /** A subtree that holds no other key takes one more put without a split. */
  lemma {:induction false} OnlyKey(h: Key -> nat, r: Ref, k: Key, path: seq<nat>)
    requires Aligned(h, r, path) && OnPath(h, k, path)
    requires forall x :: OnPath(h, x, path) && Value(h, r, x, |path|).Some? ==> x == k
    ensures SetOk(h, r, k, |path|)
    decreases r
  {
    hide Slot, NoSkip, Rank;
    if r.node.Leaf? {
      var x :| x in r.node.entries;
      assert OnPath(h, x, path) && Value(h, r, x, |path|).Some?;
    } else {
      var b, ch := r.node.bitmap, r.node.children;
      var s := Slot(h, k, |path|);
      if b[s] {
        AlignedChild(h, b, ch, path, s);
        OnPathMore(h, k, path);
        forall x | OnPath(h, x, path + [s]) && Value(h, Child(b, ch, s), x, |path| + 1).Some? ensures x == k {
          OnPathLess(h, x, path, s);
          ValueInner(h, b, ch, x, |path|);
        }
        OnlyKey(h, Child(b, ch, s), k, path + [s]);
      }
    }
  }

  /** Entries that differ in their first slot are told apart at once. */
  lemma SpreadEntries(h: Key -> nat, e: map<Key, Val>)
    requires forall a, b :: a in e && b in e && a != b ==> Slot(h, a, 0) != Slot(h, b, 0)
    ensures NoSkip(h, e, 0)
  {
    hide Slot, Rank, Bucket, Built;
    if |e| > 1 {
      var a := SomeKey(e);
      var b := AnotherKey(e, a);
      UsedSlot(h, e, a, 0);
      UsedSlot(h, e, b, 0);
      TwoRanks(Used(h, e, 0), Slot(h, a, 0), Slot(h, b, 0));
      forall s | 0 <= s < BRANCH ensures NoSkip(h, Bucket(h, e, 0, s), 1) {
        SmallBucket(h, e, s);
      }
    }
  }

  lemma SomeKey(e: map<Key, Val>) returns (a: Key)
    requires |e| > 1
    ensures a in e
  {
    assert |e| == |e.Keys|;
    a :| a in e.Keys;
  }

  lemma AnotherKey(e: map<Key, Val>, a: Key) returns (b: Key)
    requires |e| > 1 && a in e
    ensures b in e && b != a
  {
    assert |e| == |e.Keys|;
    assert |e.Keys - {a}| == |e.Keys| - 1;
    b :| b in e.Keys - {a};
  }

  lemma SmallBucket(h: Key -> nat, e: map<Key, Val>, s: nat)
    requires forall a, b :: a in e && b in e && a != b ==> Slot(h, a, 0) != Slot(h, b, 0)
    ensures NoSkip(h, Bucket(h, e, 0, s), 1)
  {
    hide Slot;
    var c := Bucket(h, e, 0, s);
    if a :| a in c {
      assert c.Keys <= {a};
      FewKeys(c, a);
    } else {
      FewKeys(c, 0);
    }
  }

  lemma SpreadPut(h: Key -> nat, r: Ref, m: map<Key, Val>, k: Key)
    requires Root(h, r) && forall x :: Value(h, r, x, 0) == Find(m, x)
    requires forall a, b :: (a in m || a == k) && (b in m || b == k) && a != b ==> Slot(h, a, 0) != Slot(h, b, 0)
    ensures SetOk(h, r, k, 0)
  {
    hide Slot, NoSkip;
    if r.Cell? && r.node.Leaf? {
      var e := r.node.entries[k := 0];
      forall a | a in r.node.entries ensures a in m {
        assert Value(h, r, a, 0) == Find(m, a);
      }
      SpreadEntries(h, e);
    } else if r.Cell? {
      var b, ch := r.node.bitmap, r.node.children;
      var s := Slot(h, k, 0);
      if b[s] {
        assert OnPath(h, k, []);
        AlignedChild(h, b, ch, [], s);
        OnPathMore(h, k, []);
        forall x | OnPath(h, x, [] + [s]) && Value(h, Child(b, ch, s), x, 1).Some? ensures x == k {
          OnPathLess(h, x, [], s);
          ValueInner(h, b, ch, x, 0);
          assert Value(h, r, x, 0) == Find(m, x);
        }
        OnlyKey(h, Child(b, ch, s), k, [] + [s]);
      }
    }
  }

  /** A run whose keys differ in the low five bits of their hashes never skips a level: every
      lookup finds what the run put there last. */
  lemma {:induction false} SpreadRun(h: Key -> nat, ops: seq<Op>)
    requires Spread(h, ops)
    ensures NeverSkips(h, ops)
    ensures forall k :: Value(h, After(h, ops), k, 0) == Find(Model(ops), k)
    decreases |ops|
  {
    hide SetOk, Value, Aligned, Slot, After, Model, Set, Remove;
    if ops != [] {
      var n := |ops| - 1;
      var prefix := ops[..n];
      forall i, j | 0 <= i < n && 0 <= j < n && prefix[i].Put? && prefix[j].Put? && prefix[i].k != prefix[j].k
        ensures h(prefix[i].k) % 32 != h(prefix[j].k) % 32
      {
        assert prefix[i] == ops[i] && prefix[j] == ops[j];
      }
      SpreadRun(h, prefix);
      RunCorrect(h, prefix);
      if ops[n].Put? {
        SpreadApart(h, ops);
        SpreadPut(h, After(h, prefix), Model(prefix), ops[n].k);
      }
    }
    RunCorrect(h, ops);
  }

  lemma SpreadApart(h: Key -> nat, ops: seq<Op>)
    requires |ops| > 0 && Spread(h, ops) && ops[|ops| - 1].Put?
    ensures var m, k := Model(ops[..|ops| - 1]), ops[|ops| - 1].k;
      forall a, b :: (a in m || a == k) && (b in m || b == k) && a != b ==> Slot(h, a, 0) != Slot(h, b, 0)
  {
    hide Slot, Model;
    var n := |ops| - 1;
    var m, k := Model(ops[..n]), ops[n].k;
    forall a | a in m || a == k ensures exists i :: 0 <= i < |ops| && ops[i].Put? && ops[i].k == a {
      if a == k {
        assert ops[n].k == a;
      } else {
        ModelKeys(ops[..n], a);
        var i :| 0 <= i < n && ops[..n][i].Put? && ops[..n][i].k == a;
        assert ops[i].k == a;
      }
    }
    forall a, b | (a in m || a == k) && (b in m || b == k) && a != b ensures Slot(h, a, 0) != Slot(h, b, 0) {
      var i :| 0 <= i < |ops| && ops[i].Put? && ops[i].k == a;
      var j :| 0 <= j < |ops| && ops[j].Put? && ops[j].k == b;
      FirstSlot(h, a);
      FirstSlot(h, b);
    }
  }
}
