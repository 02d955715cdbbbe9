/** Insertion and removal on the trie, and exactly when an insertion keeps every key findable. */
module HamtOps {
  import opened Options
  import opened Hamt

  // ---------- building a subtree from entries ----------

  function Bucket(h: Key -> nat, e: map<Key, Val>, level: nat, s: nat): map<Key, Val> {
    map k | k in e && Slot(h, k, level) == s :: e[k]
  }

  function Used(h: Key -> nat, e: map<Key, Val>, level: nat): (b: seq<bool>)
    ensures |b| == BRANCH && forall s :: 0 <= s < BRANCH ==> b[s] == (Bucket(h, e, level, s) != map[])
  {
    seq(BRANCH, s requires 0 <= s < BRANCH => Bucket(h, e, level, s) != map[])
  }

  /** Group the entries by their slot at this level and recurse. When they all share one slot
      the whole batch is pushed a level down and no node marks the level skipped. */
  function Build(h: Key -> nat, e: map<Key, Val>, level: nat): Ref
    decreases MAX_LEVELS - level, BRANCH + 1
  {
    if e == map[] then Empty
    else if |e| == 1 || level >= MAX_LEVELS then Cell(Leaf(e))
    else if Rank(Used(h, e, level), BRANCH) == 1 then Build(h, e, level + 1)
    else Cell(Inner(Used(h, e, level), Built(h, e, level, BRANCH)))
  }

  /** The children for the slots below `n`. */
  function Built(h: Key -> nat, e: map<Key, Val>, level: nat, n: nat): (ch: seq<Ref>)
    requires n <= BRANCH && level < MAX_LEVELS
    ensures |ch| == Rank(Used(h, e, level), n)
    decreases MAX_LEVELS - level, n
  {
    if n == 0 then []
    else
      Built(h, e, level, n - 1)
      + if Used(h, e, level)[n - 1] then [Build(h, Bucket(h, e, level, n - 1), level + 1)] else []
  }

  lemma {:induction false} BuiltChild(h: Key -> nat, e: map<Key, Val>, level: nat, n: nat, s: nat)
    requires s < n <= BRANCH && level < MAX_LEVELS && Used(h, e, level)[s]
    ensures Rank(Used(h, e, level), s) < |Built(h, e, level, n)|
    ensures Built(h, e, level, n)[Rank(Used(h, e, level), s)] == Build(h, Bucket(h, e, level, s), level + 1)
    decreases n
  {
    hide Build;
    if s < n - 1 {
      BuiltChild(h, e, level, n - 1, s);
    }
  }

  lemma BuiltView(h: Key -> nat, e: map<Key, Val>, level: nat)
    requires level < MAX_LEVELS
    ensures var b, ch := Used(h, e, level), Built(h, e, level, BRANCH);
      && Dense(b, ch)
      && forall s :: 0 <= s < BRANCH ==>
           Child(b, ch, s) == if b[s] then Build(h, Bucket(h, e, level, s), level + 1) else Empty
  {
    hide Build, Built;
    var b, ch := Used(h, e, level), Built(h, e, level, BRANCH);
    forall s | 0 <= s < BRANCH && b[s] ensures Child(b, ch, s) == Build(h, Bucket(h, e, level, s), level + 1) {
      BuiltChild(h, e, level, BRANCH, s);
    }
  }

  /** All the keys agree on every slot from `level` on. */
  ghost predicate Collide(h: Key -> nat, e: map<Key, Val>, level: nat) {
    forall k, k', l :: k in e && k' in e && level <= l < MAX_LEVELS ==> Slot(h, k, l) == Slot(h, k', l)
  }

  /** No level is skipped: each group separates at its own level, or never does. */
  ghost predicate NoSkip(h: Key -> nat, e: map<Key, Val>, level: nat)
    decreases MAX_LEVELS - level
  {
    |e| <= 1 || level >= MAX_LEVELS
    || if Rank(Used(h, e, level), BRANCH) == 1 then Collide(h, e, level)
       else forall s :: 0 <= s < BRANCH ==> NoSkip(h, Bucket(h, e, level, s), level + 1)
  }

  /** Whatever level it is searched at, a built tree yields only what was put in. */
  lemma {:induction false} BuildSound(h: Key -> nat, e: map<Key, Val>, level: nat, k: Key, at: nat)
    ensures Value(h, Build(h, e, level), k, at) == None || Value(h, Build(h, e, level), k, at) == Find(e, k)
    decreases MAX_LEVELS - level
  {
    hide Value, Built, Used, Rank, Slot, Bucket, Child;
    if e == map[] || |e| == 1 || level >= MAX_LEVELS {
      LeafValue(h, e, k, at);
    } else if Rank(Used(h, e, level), BRANCH) == 1 {
      BuildSound(h, e, level + 1, k, at);
    } else {
      var s := Slot(h, k, at);
      BuiltLookup(h, e, level, k, at);
      BuildSound(h, Bucket(h, e, level, s), level + 1, k, at + 1);
      BucketFind(h, e, level, s, k);
    }
  }

  lemma LeafValue(h: Key -> nat, e: map<Key, Val>, k: Key, at: nat)
    ensures Value(h, Empty, k, at) == None && Value(h, Cell(Leaf(e)), k, at) == Find(e, k)
  {
  }

  /** A lookup in a branching node goes on in the subtree built from its slot's bucket. */
  lemma BuiltLookup(h: Key -> nat, e: map<Key, Val>, level: nat, k: Key, at: nat)
    requires level < MAX_LEVELS
    ensures Value(h, Cell(Inner(Used(h, e, level), Built(h, e, level, BRANCH))), k, at)
         == Value(h, Build(h, Bucket(h, e, level, Slot(h, k, at)), level + 1), k, at + 1)
  {
    hide Built;
    BuiltView(h, e, level);
    ValueInner(h, Used(h, e, level), Built(h, e, level, BRANCH), k, at);
  }

  lemma BucketFind(h: Key -> nat, e: map<Key, Val>, level: nat, s: nat, k: Key)
    ensures Find(Bucket(h, e, level, s), k) == if Slot(h, k, level) == s then Find(e, k) else None
  {
  }

  lemma {:induction false} TwoUsed(b: seq<bool>, n: nat, s: nat) returns (t: nat)
    requires n <= |b| && Rank(b, n) >= 2
    ensures t < n && b[t] && t != s
    decreases n
  {
    if b[n - 1] && n - 1 != s {
      t := n - 1;
    } else {
      if Rank(b, n - 1) >= 2 {
        t := TwoUsed(b, n - 1, s);
      } else {
        t := OneUsed(b, n - 1);
      }
    }
  }

  lemma {:induction false} OneUsed(b: seq<bool>, n: nat) returns (t: nat)
    requires n <= |b| && Rank(b, n) >= 1
    ensures t < n && b[t]
    decreases n
  {
    if b[n - 1] {
      t := n - 1;
    } else {
      t := OneUsed(b, n - 1);
    }
  }

  lemma NoneUsed(h: Key -> nat, e: map<Key, Val>, level: nat)
    requires e != map[]
    ensures Rank(Used(h, e, level), BRANCH) >= 1
  {
    var k :| k in e;
    var s := Slot(h, k, level);
    assert k in Bucket(h, e, level, s);
    RankMono(Used(h, e, level), s, BRANCH);
  }

  /** If the batch is one slot wide, that slot is everybody's. */
  lemma SameSlot(h: Key -> nat, e: map<Key, Val>, level: nat)
    requires Rank(Used(h, e, level), BRANCH) == 1
    ensures forall k, k' :: k in e && k' in e ==> Slot(h, k, level) == Slot(h, k', level)
  {
    var b := Used(h, e, level);
    forall k, k' | k in e && k' in e ensures Slot(h, k, level) == Slot(h, k', level) {
      var s, s' := Slot(h, k, level), Slot(h, k', level);
      assert k in Bucket(h, e, level, s) && k' in Bucket(h, e, level, s');
      if s < s' {
        RankMono(b, s, s');
        RankMono(b, s', BRANCH);
      } else if s' < s {
        RankMono(b, s', s);
        RankMono(b, s, BRANCH);
      }
    }
  }

  ghost predicate AllFound(h: Key -> nat, r: Ref, e: map<Key, Val>, level: nat) {
    forall k :: k in e ==> Value(h, r, k, level) == Some(e[k])
  }

  lemma TwoKeys(h: Key -> nat, e: map<Key, Val>, level: nat) returns (k: Key, k': Key)
    requires Rank(Used(h, e, level), BRANCH) >= 2
    ensures k in e && k' in e && Slot(h, k, level) != Slot(h, k', level)
  {
    var t := OneUsed(Used(h, e, level), BRANCH);
    var t' := TwoUsed(Used(h, e, level), BRANCH, t);
    k :| k in Bucket(h, e, level, t);
    k' :| k' in Bucket(h, e, level, t');
  }

  /** A batch that collides to the end becomes one leaf. */
  lemma {:induction false} CollideLeaf(h: Key -> nat, e: map<Key, Val>, level: nat)
    requires e != map[] && Collide(h, e, level)
    ensures Build(h, e, level) == Cell(Leaf(e))
    decreases MAX_LEVELS - level
  {
    hide Slot;
    if |e| > 1 && level < MAX_LEVELS {
      NoneUsed(h, e, level);
      if Rank(Used(h, e, level), BRANCH) >= 2 {
        var k, k' := TwoKeys(h, e, level);
        assert false;
      }
      CollideLeaf(h, e, level + 1);
    }
  }

  /** A batch that separates after all becomes a branching node of a deeper level. */
  lemma {:induction false} SeparatesBelow(h: Key -> nat, e: map<Key, Val>, level: nat) returns (below: nat)
    requires |e| > 1 && level < MAX_LEVELS && !Collide(h, e, level)
    ensures level <= below < MAX_LEVELS && Rank(Used(h, e, below), BRANCH) >= 2
    ensures Build(h, e, level) == Cell(Inner(Used(h, e, below), Built(h, e, below, BRANCH)))
    ensures Rank(Used(h, e, level), BRANCH) == 1 ==> level < below
    decreases MAX_LEVELS - level
  {
    hide Slot, Built;
    NoneUsed(h, e, level);
    if Rank(Used(h, e, level), BRANCH) >= 2 {
      below := level;
    } else {
      SameSlot(h, e, level);
      assert !Collide(h, e, level + 1) by { CollideStep(h, e, level); }
      assert level + 1 < MAX_LEVELS;
      below := SeparatesBelow(h, e, level + 1);
    }
  }

  lemma CollideStep(h: Key -> nat, e: map<Key, Val>, level: nat)
    requires forall k, k' :: k in e && k' in e ==> Slot(h, k, level) == Slot(h, k', level)
    ensures Collide(h, e, level + 1) ==> Collide(h, e, level)
  {
  }

  /** In a skipped level somebody is lost: all keys search the same slot of a node that has two. */
  lemma SkipLoses(h: Key -> nat, e: map<Key, Val>, level: nat) returns (k: Key)
    requires |e| > 1 && level < MAX_LEVELS
    requires Rank(Used(h, e, level), BRANCH) == 1 && !Collide(h, e, level)
    ensures k in e && Value(h, Build(h, e, level), k, level) == None
  {
    hide Slot, Built, Value, Build;
    var below := SeparatesBelow(h, e, level);
    SameSlot(h, e, level);
    var any :| any in e;
    var s := Slot(h, any, level);
    var t := TwoUsed(Used(h, e, below), BRANCH, s);
    k :| k in Bucket(h, e, below, t);
    BuiltLookup(h, e, below, k, level);
    BuildSound(h, Bucket(h, e, below, s), below + 1, k, level + 1);
    BucketFind(h, e, below, s, k);
  }

  /** Building keeps every key findable exactly when no level is skipped. */
  lemma {:induction false} BuildCorrect(h: Key -> nat, e: map<Key, Val>, level: nat)
    ensures AllFound(h, Build(h, e, level), e, level) <==> NoSkip(h, e, level)
    decreases MAX_LEVELS - level
  {
    hide Slot, Built, Value, Used, Rank, Bucket, Collide;
    if |e| <= 1 || level >= MAX_LEVELS {
      forall k | k in e ensures Value(h, Build(h, e, level), k, level) == Some(e[k]) {
        LeafValue(h, e, k, level);
      }
    } else if Rank(Used(h, e, level), BRANCH) == 1 {
      if Collide(h, e, level) {
        CollideLeaf(h, e, level);
        forall k | k in e ensures Value(h, Build(h, e, level), k, level) == Some(e[k]) {
          LeafValue(h, e, k, level);
        }
      } else {
        var k := SkipLoses(h, e, level);
      }
    } else {
      BuildCorrectInner(h, e, level);
    }
  }

  lemma {:induction false} BuildCorrectInner(h: Key -> nat, e: map<Key, Val>, level: nat)
    requires |e| > 1 && level < MAX_LEVELS && Rank(Used(h, e, level), BRANCH) != 1
    ensures AllFound(h, Build(h, e, level), e, level) <==> NoSkip(h, e, level)
    decreases MAX_LEVELS - level, 0
  {
    hide Slot, Built, Value, Used, Rank, Collide;
    forall s | 0 <= s < BRANCH
      ensures AllFound(h, Build(h, Bucket(h, e, level, s), level + 1), Bucket(h, e, level, s), level + 1)
              <==> NoSkip(h, Bucket(h, e, level, s), level + 1)
    {
      BuildCorrect(h, Bucket(h, e, level, s), level + 1);
    }
    forall k | k in e
      ensures Value(h, Build(h, e, level), k, level)
           == Value(h, Build(h, Bucket(h, e, level, Slot(h, k, level)), level + 1), k, level + 1)
    {
      BuiltLookup(h, e, level, k, level);
    }
    if AllFound(h, Build(h, e, level), e, level) {
      forall s | 0 <= s < BRANCH ensures NoSkip(h, Bucket(h, e, level, s), level + 1) {
        var c := Bucket(h, e, level, s);
        assert forall k :: k in c ==> k in e && Slot(h, k, level) == s && c[k] == e[k];
        assert AllFound(h, Build(h, c, level + 1), c, level + 1);
      }
    }
    if NoSkip(h, e, level) {
      forall k | k in e ensures Value(h, Build(h, e, level), k, level) == Some(e[k]) {
        var s := Slot(h, k, level);
        assert k in Bucket(h, e, level, s);
        assert NoSkip(h, Bucket(h, e, level, s), level + 1);
      }
    }
  }

  lemma InBucket(h: Key -> nat, e: map<Key, Val>, level: nat, s: nat, k: Key)
    ensures k in Bucket(h, e, level, s) <==> k in e && Slot(h, k, level) == s
  {
    hide Slot;
  }

  lemma OnPathMore(h: Key -> nat, k: Key, path: seq<nat>)
    requires OnPath(h, k, path)
    ensures OnPath(h, k, path + [Slot(h, k, |path|)])
  {
  }

  lemma {:induction false} BuildAligned(h: Key -> nat, e: map<Key, Val>, path: seq<nat>)
    requires e != map[] && NoSkip(h, e, |path|) && forall k :: k in e ==> OnPath(h, k, path)
    ensures Aligned(h, Build(h, e, |path|), path)
    decreases MAX_LEVELS - |path|
  {
    hide Slot, Rank, OnPath, Collide, Bucket, Child;
    var level := |path|;
    if |e| > 1 && level < MAX_LEVELS {
      if Rank(Used(h, e, level), BRANCH) == 1 {
        CollideLeaf(h, e, level);
      } else {
        forall s | 0 <= s < BRANCH && Used(h, e, level)[s]
          ensures Aligned(h, Build(h, Bucket(h, e, level, s), level + 1), path + [s])
        {
          var c := Bucket(h, e, level, s);
          forall k | k in c ensures OnPath(h, k, path + [s]) {
            InBucket(h, e, level, s, k);
            OnPathMore(h, k, path);
          }
          BuildAligned(h, c, path + [s]);
        }
        BuildInner(h, e, path);
      }
    }
  }

  lemma BuildIs(h: Key -> nat, e: map<Key, Val>, level: nat)
    requires level < MAX_LEVELS && |e| > 1 && Rank(Used(h, e, level), BRANCH) != 1
    ensures Build(h, e, level) == Cell(Inner(Used(h, e, level), Built(h, e, level, BRANCH))) && e != map[]
  {
    hide Slot, Rank, Bucket;
    assert |e| == |e.Keys|;
  }

  lemma BuildInner(h: Key -> nat, e: map<Key, Val>, path: seq<nat>)
    requires |path| < MAX_LEVELS && |e| > 1 && Rank(Used(h, e, |path|), BRANCH) != 1
    requires forall s | 0 <= s < BRANCH && Used(h, e, |path|)[s] :: Aligned(h, Build(h, Bucket(h, e, |path|, s), |path| + 1), path + [s])
    ensures Aligned(h, Build(h, e, |path|), path)
  {
    hide Slot, Rank, OnPath, Bucket, Child, Build, Built, Aligned;
    var level := |path|;
    BuildIs(h, e, level);
    BuiltView(h, e, level);
    var b, ch := Used(h, e, level), Built(h, e, level, BRANCH);
    NoneUsed(h, e, level);
    forall s | 0 <= s < BRANCH && b[s] ensures Aligned(h, Child(b, ch, s), path + [s]) {
    }
    AlignedInner(h, b, ch, path);
  }

  // ---------- insertion ----------

  /** The tree after `set`. */
  function Set(h: Key -> nat, r: Ref, k: Key, v: Val, level: nat): Ref
    decreases r
  {
    match r
    case Empty => Cell(Leaf(map[k := v]))
    case Cell(Leaf(e)) =>
      if k in e || e == map[] || level >= MAX_LEVELS then Cell(Leaf(e[k := v])) else Build(h, e[k := v], level)
    case Cell(Inner(b, ch)) =>
      var s := Slot(h, k, level);
      if !Dense(b, ch) then Cell(Leaf(map[k := v]))
      else
        RankMono(b, s, BRANCH);
        var i := Rank(b, s);
        if b[s] then Cell(Inner(b, ch[i := Set(h, ch[i], k, v, level + 1)]))
        else Cell(Inner(b[s := true], Insert(ch, i, Cell(Leaf(map[k := v])))))
  }

  /** Whether inserting `k` splits a leaf without skipping a level. */
  ghost predicate SetOk(h: Key -> nat, r: Ref, k: Key, level: nat)
    decreases r
  {
    match r
    case Empty => true
    case Cell(Leaf(e)) => k in e || NoSkip(h, e[k := 0], level)
    case Cell(Inner(b, ch)) =>
      var s := Slot(h, k, level);
      Dense(b, ch) && b[s] ==> (RankMono(b, s, BRANCH); SetOk(h, ch[Rank(b, s)], k, level + 1))
  }

  ghost predicate Updated(h: Key -> nat, r: Ref, r': Ref, k: Key, v: Option<Val>, path: seq<nat>) {
    forall x :: OnPath(h, x, path) ==>
      Value(h, r', x, |path|) == if x == k then v else Value(h, r, x, |path|)
  }

  /** Values play no part in where entries go. */
  lemma {:induction false} NoSkipKeys(h: Key -> nat, e: map<Key, Val>, d: map<Key, Val>, level: nat)
    requires e.Keys == d.Keys
    ensures NoSkip(h, e, level) == NoSkip(h, d, level)
    decreases MAX_LEVELS - level
  {
    hide Slot, Bucket, Rank;
    assert |e| == |e.Keys| == |d|;
    if level < MAX_LEVELS {
      forall s | 0 <= s < BRANCH
        ensures (Bucket(h, e, level, s) != map[]) == (Bucket(h, d, level, s) != map[])
        ensures NoSkip(h, Bucket(h, e, level, s), level + 1) == NoSkip(h, Bucket(h, d, level, s), level + 1)
      {
        BucketKeys(h, e, d, level, s);
        NoKeys(Bucket(h, e, level, s));
        NoKeys(Bucket(h, d, level, s));
        NoSkipKeys(h, Bucket(h, e, level, s), Bucket(h, d, level, s), level + 1);
      }
      assert Used(h, e, level) == Used(h, d, level);
      CollideKeys(h, e, d, level);
    }
  }

  lemma BucketKeys(h: Key -> nat, e: map<Key, Val>, d: map<Key, Val>, level: nat, s: nat)
    requires e.Keys == d.Keys
    ensures Bucket(h, e, level, s).Keys == Bucket(h, d, level, s).Keys
  {
    hide Slot;
    forall k ensures k in Bucket(h, e, level, s) <==> k in Bucket(h, d, level, s) {
      assert k in e.Keys <==> k in d.Keys;
    }
  }

  lemma CollideKeys(h: Key -> nat, e: map<Key, Val>, d: map<Key, Val>, level: nat)
    requires e.Keys == d.Keys
    ensures Collide(h, e, level) == Collide(h, d, level)
  {
    hide Slot;
    assert forall k :: k in e <==> k in d.Keys;
  }

  lemma NoKeys(m: map<Key, Val>)
    ensures m == map[] <==> m.Keys == {}
  {
  }

  /** The leaf step of an insertion. */
  lemma SetLeaf(h: Key -> nat, e: map<Key, Val>, k: Key, v: Val, path: seq<nat>)
    requires Aligned(h, Cell(Leaf(e)), path) && OnPath(h, k, path)
    ensures var r := Cell(Leaf(e));
      && (Updated(h, r, Set(h, r, k, v, |path|), k, Some(v), path) <==> SetOk(h, r, k, |path|))
      && (SetOk(h, r, k, |path|) ==> Aligned(h, Set(h, r, k, v, |path|), path))
  {
    hide Slot, Build, Built, NoSkip, OnPath;
    var r := Cell(Leaf(e));
    var d := e[k := v];
    if k in e || |path| >= MAX_LEVELS {
      if k !in e {
        assert NoSkip(h, e[k := 0], |path|) by { DeepNoSkip(h, e[k := 0], |path|); }
      }
    } else {
      NoSkipKeys(h, d, e[k := 0], |path|);
      BuildCorrect(h, d, |path|);
      if SetOk(h, r, k, |path|) {
        BuildAligned(h, d, path);
        forall x | OnPath(h, x, path)
          ensures Value(h, Build(h, d, |path|), x, |path|) == if x == k then Some(v) else Value(h, r, x, |path|)
        {
          BuildSound(h, d, |path|, x, |path|);
        }
      } else {
        var x :| x in d && Value(h, Build(h, d, |path|), x, |path|) != Some(d[x]);
        assert OnPath(h, x, path);
      }
    }
  }

  lemma DeepNoSkip(h: Key -> nat, e: map<Key, Val>, level: nat)
    requires level >= MAX_LEVELS
    ensures NoSkip(h, e, level)
  {
  }

  /** Two branching nodes that differ in one slot differ as that slot's children do. */
  lemma InnerUpdated(h: Key -> nat, b: seq<bool>, ch: seq<Ref>, b': seq<bool>, ch': seq<Ref>,
                     k: Key, v: Option<Val>, path: seq<nat>)
    requires Dense(b, ch) && Dense(b', ch') && OnPath(h, k, path)
    requires forall t :: 0 <= t < BRANCH && t != Slot(h, k, |path|) ==> Child(b', ch', t) == Child(b, ch, t)
    ensures var s := Slot(h, k, |path|);
      Updated(h, Cell(Inner(b, ch)), Cell(Inner(b', ch')), k, v, path)
      <==> Updated(h, Child(b, ch, s), Child(b', ch', s), k, v, path + [s])
  {
    hide Slot, Child, Rank, Value;
    var s := Slot(h, k, |path|);
    var r, r' := Cell(Inner(b, ch)), Cell(Inner(b', ch'));
    forall x
      ensures Value(h, r, x, |path|) == Value(h, Child(b, ch, Slot(h, x, |path|)), x, |path| + 1)
      ensures Value(h, r', x, |path|) == Value(h, Child(b', ch', Slot(h, x, |path|)), x, |path| + 1)
    {
      ValueInner(h, b, ch, x, |path|);
      ValueInner(h, b', ch', x, |path|);
    }
    if Updated(h, r, r', k, v, path) {
      forall x | OnPath(h, x, path + [s])
        ensures Value(h, Child(b', ch', s), x, |path| + 1) == if x == k then v else Value(h, Child(b, ch, s), x, |path| + 1)
      {
        OnPathLess(h, x, path, s);
      }
    }
    if Updated(h, Child(b, ch, s), Child(b', ch', s), k, v, path + [s]) {
      forall x | OnPath(h, x, path) ensures Value(h, r', x, |path|) == if x == k then v else Value(h, r, x, |path|) {
        OnPathMore(h, x, path);
      }
    }
  }

  lemma OnPathLess(h: Key -> nat, k: Key, path: seq<nat>, s: nat)
    requires OnPath(h, k, path + [s])
    ensures OnPath(h, k, path) && Slot(h, k, |path|) == s
  {
    forall i | 0 <= i < |path| ensures Slot(h, k, i) == path[i] {
      assert (path + [s])[i] == path[i];
    }
    assert (path + [s])[|path|] == s;
  }

  lemma AlignedUpdate(h: Key -> nat, b: seq<bool>, ch: seq<Ref>, b': seq<bool>, ch': seq<Ref>, s: nat, path: seq<nat>)
    requires Aligned(h, Cell(Inner(b, ch)), path) && Dense(b', ch') && ch' != [] && s < BRANCH
    requires forall t :: 0 <= t < BRANCH && t != s ==> b'[t] == b[t] && Child(b', ch', t) == Child(b, ch, t)
    requires b'[s] ==> Aligned(h, Child(b', ch', s), path + [s])
    ensures Aligned(h, Cell(Inner(b', ch')), path)
  {
    hide Rank;
    forall t | 0 <= t < BRANCH && b'[t] ensures Aligned(h, Child(b', ch', t), path + [t]) {
      if t != s {
        AlignedChild(h, b, ch, path, t);
      }
    }
    AlignedInner(h, b', ch', path);
  }

  /** An insertion makes `k` findable with `v` and leaves every other key alone if, and only
      if, it splits no leaf across a skipped level; and then the trie stays aligned. */
  lemma {:induction false} SetCorrect(h: Key -> nat, r: Ref, k: Key, v: Val, path: seq<nat>)
    requires Aligned(h, r, path) && OnPath(h, k, path)
    ensures Updated(h, r, Set(h, r, k, v, |path|), k, Some(v), path) <==> SetOk(h, r, k, |path|)
    ensures SetOk(h, r, k, |path|) ==> Aligned(h, Set(h, r, k, v, |path|), path)
    decreases r
  {
    hide Slot, Rank, Updated, Build, Value, OnPath;
    if r.node.Leaf? {
      SetLeaf(h, r.node.entries, k, v, path);
    } else {
      var b, ch := r.node.bitmap, r.node.children;
      var s := Slot(h, k, |path|);
      OnPathMore(h, k, path);
      if b[s] {
        UpdateChild(b, ch, s, Set(h, Child(b, ch, s), k, v, |path| + 1));
        AlignedChild(h, b, ch, path, s);
        SetCorrect(h, Child(b, ch, s), k, v, path + [s]);
        var ch' := ch[Rank(b, s) := Set(h, ch[Rank(b, s)], k, v, |path| + 1)];
        InnerUpdated(h, b, ch, b, ch', k, Some(v), path);
        if SetOk(h, r, k, |path|) {
          AlignedUpdate(h, b, ch, b, ch', s, path);
        }
      } else {
        var leaf := Cell(Leaf(map[k := v]));
        InsertChild(b, ch, s, leaf);
        var b', ch' := b[s := true], Insert(ch, Rank(b, s), leaf);
        InnerUpdated(h, b, ch, b', ch', k, Some(v), path);
        FreshLeaf(h, k, v, path + [s]);
        AlignedUpdate(h, b, ch, b', ch', s, path);
      }
    }
  }

  lemma FreshLeaf(h: Key -> nat, k: Key, v: Val, path: seq<nat>)
    requires OnPath(h, k, path)
    ensures Updated(h, Empty, Cell(Leaf(map[k := v])), k, Some(v), path)
    ensures Aligned(h, Cell(Leaf(map[k := v])), path)
  {
  }

  // ---------- removal ----------

  /** The tree after `remove`, and whether the key was there. */
  function Remove(h: Key -> nat, r: Ref, k: Key, level: nat): (Ref, bool)
    decreases r
  {
    match r
    case Empty => (r, false)
    case Cell(Leaf(e)) =>
      if k !in e then (r, false)
      else if e - {k} == map[] then (Empty, true)
      else (Cell(Leaf(e - {k})), true)
    case Cell(Inner(b, ch)) =>
      var s := Slot(h, k, level);
      if !Dense(b, ch) || !b[s] then (r, false)
      else
        RankMono(b, s, BRANCH);
        var i := Rank(b, s);
        var (c, found) := Remove(h, ch[i], k, level + 1);
        if !found then (r, false)
        else if c.Empty? then
          if Rank(b[s := false], BRANCH) == 0 then (Empty, true) else (Cell(Inner(b[s := false], Delete(ch, i))), true)
        else (Cell(Inner(b, ch[i := c])), true)
  }

  /** Removal deletes exactly `k`, needs no condition, and returns the same root when the key
      is absent. */
  lemma {:induction false} RemoveCorrect(h: Key -> nat, r: Ref, k: Key, path: seq<nat>)
    requires Aligned(h, r, path) && OnPath(h, k, path)
    ensures var (r', found) := Remove(h, r, k, |path|);
      && Updated(h, r, r', k, None, path)
      && (r'.Empty? || Aligned(h, r', path))
      && (found <==> Value(h, r, k, |path|).Some?)
      && (!found ==> r' == r)
    decreases r
  {
    hide Slot, Rank, OnPath;
    if r.node.Inner? {
      var b, ch := r.node.bitmap, r.node.children;
      var s := Slot(h, k, |path|);
      OnPathMore(h, k, path);
      if b[s] {
        AlignedChild(h, b, ch, path, s);
        RemoveCorrect(h, Child(b, ch, s), k, path + [s]);
        RemoveInner(h, b, ch, k, path);
      } else {
        ValueInner(h, b, ch, k, |path|);
      }
    } else {
      RemoveLeaf(h, r.node.entries, k, path);
    }
  }

  lemma RemoveLeaf(h: Key -> nat, e: map<Key, Val>, k: Key, path: seq<nat>)
    ensures Updated(h, Cell(Leaf(e)), Remove(h, Cell(Leaf(e)), k, |path|).0, k, None, path)
  {
    var d := e - {k};
    assert forall x :: x in e && x != k ==> x in d && d[x] == e[x];
  }

  lemma AlignedDense(h: Key -> nat, b: seq<bool>, ch: seq<Ref>, path: seq<nat>)
    requires Aligned(h, Cell(Inner(b, ch)), path)
    ensures Dense(b, ch)
  {
  }

  lemma RemoveInner(h: Key -> nat, b: seq<bool>, ch: seq<Ref>, k: Key, path: seq<nat>)
    requires Dense(b, ch) && Aligned(h, Cell(Inner(b, ch)), path) && OnPath(h, k, path)
    requires var s := Slot(h, k, |path|);
      && b[s]
      && var (c, found) := Remove(h, Child(b, ch, s), k, |path| + 1);
         && Updated(h, Child(b, ch, s), c, k, None, path + [s])
         && (c.Empty? || Aligned(h, c, path + [s]))
         && (found <==> Value(h, Child(b, ch, s), k, |path| + 1).Some?)
         && (!found ==> c == Child(b, ch, s))
    ensures var (r', found) := Remove(h, Cell(Inner(b, ch)), k, |path|);
      && Updated(h, Cell(Inner(b, ch)), r', k, None, path)
      && (r'.Empty? || Aligned(h, r', path))
      && (found <==> Value(h, Cell(Inner(b, ch)), k, |path|).Some?)
      && (!found ==> r' == Cell(Inner(b, ch)))
  {
    hide Slot, Updated, OnPath, Aligned, Value;
    var s := Slot(h, k, |path|);
    var (c, found) := Remove(h, Child(b, ch, s), k, |path| + 1);
    ValueInner(h, b, ch, k, |path|);
    if found && c.Cell? {
      UpdateChild(b, ch, s, c);
      InnerUpdated(h, b, ch, b, ch[Rank(b, s) := c], k, None, path);
      AlignedUpdate(h, b, ch, b, ch[Rank(b, s) := c], s, path);
    } else {
      RemoveChild(b, ch, s);
      var b', ch' := b[s := false], Delete(ch, Rank(b, s));
      InnerUpdated(h, b, ch, b', ch', k, None, path);
      if found {
        if ch' == [] {
          EmptyInner(h, b, ch, b', ch', k, path);
        } else {
          AlignedUpdate(h, b, ch, b', ch', s, path);
        }
      } else {
        InnerUpdated(h, b, ch, b, ch, k, None, path);
      }
    }
  }

  /** A node that lost its last child holds nothing. */
  lemma EmptyInner(h: Key -> nat, b: seq<bool>, ch: seq<Ref>, b': seq<bool>, ch': seq<Ref>, k: Key, path: seq<nat>)
    requires Dense(b', ch') && ch' == []
    requires Updated(h, Cell(Inner(b, ch)), Cell(Inner(b', ch')), k, None, path)
    ensures Updated(h, Cell(Inner(b, ch)), Empty, k, None, path)
  {
    forall x ensures Value(h, Cell(Inner(b', ch')), x, |path|) == None {
      var s := Slot(h, x, |path|);
      RankMono(b', s, BRANCH);
    }
  }
}
