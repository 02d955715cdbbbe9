/** The persistent map at work: a transaction that writes node cells, and whole runs of it. */
module PMap {
  import opened Options
  import opened Hamt
  import opened HamtOps

  class Tx {
    /** Cells readable by the transaction: the snapshot's and its own. */
    var cells: Store
    /** Node cells this transaction wrote: the candidates of a later sweep. */
    var written: Store

    constructor (snapshot: Store)
      ensures cells == snapshot && written == {}
    {
      cells, written := snapshot, {};
    }

    method WriteNode(n: Node) returns (r: Ref)
      modifies this
      ensures r == Cell(n) && cells == old(cells) + {r} && written == old(written) + {r}
    {
      r := Cell(n);
      cells, written := cells + {r}, written + {r};
    }

    /** Group entries by slot, in whatever order they come. */
    method Buckets(h: Key -> nat, e: map<Key, Val>, level: nat) returns (bySlot: map<nat, map<Key, Val>>)
      ensures Grouped(h, e, level, bySlot)
    {
      hide Slot;
      bySlot := map[];
      var left := e.Keys;
      ghost var done: map<Key, Val> := map[];
      while left != {}
        invariant left <= e.Keys && done == (map k | k in e && k !in left :: e[k])
        invariant Grouped(h, done, level, bySlot)
        decreases |left|
      {
        var k :| k in left;
        var s := Slot(h, k, level);
        var group: map<Key, Val> := (if s in bySlot then bySlot[s] else map[])[k := e[k]];
        GroupMore(h, done, level, bySlot, k, e[k]);
        bySlot := bySlot[s := group];
        left := left - {k};
        done := done[k := e[k]];
      }
      assert done == e;
    }

    method BuildFromEntries(h: Key -> nat, e: map<Key, Val>, level: nat) returns (r: Ref)
      modifies this
      ensures r == Build(h, e, level) && old(cells) <= cells && Present(cells, r)
      decreases MAX_LEVELS - level, 1
    {
      hide Slot, Used, Built, Rank, Grouped;
      if e == map[] {
        return Empty;
      }
      if |e| == 1 || level >= MAX_LEVELS {
        r := WriteNode(Leaf(e));
        return;
      }
      var bySlot := Buckets(h, e, level);
      OneBucket(h, e, level, bySlot);
      if |bySlot| == 1 {
        r := BuildFromEntries(h, e, level + 1);
        return;
      }
      var bitmap, children := BuildChildren(h, e, level, bySlot);
      ghost var before := cells;
      r := WriteNode(Inner(bitmap, children));
      PresentInner(before, cells, bitmap, children);
      BuiltView(h, e, level);
    }

    method BuildChildren(h: Key -> nat, e: map<Key, Val>, level: nat, bySlot: map<nat, map<Key, Val>>)
      returns (bitmap: seq<bool>, children: seq<Ref>)
      requires level < MAX_LEVELS && Grouped(h, e, level, bySlot)
      modifies this
      ensures bitmap == Used(h, e, level) && children == Built(h, e, level, BRANCH)
      ensures old(cells) <= cells && forall c :: c in children ==> Present(cells, c)
      decreases MAX_LEVELS - level, 0
    {
      hide Slot, Build, Rank, Present;
      bitmap := seq(BRANCH, _ => false);
      children := [];
      var s := 0;
      while s < BRANCH
        invariant s <= BRANCH && |bitmap| == BRANCH && old(cells) <= cells
        invariant forall t :: 0 <= t < BRANCH ==> bitmap[t] == (t < s && Used(h, e, level)[t])
        invariant children == Built(h, e, level, s)
        invariant forall c :: c in children ==> Present(cells, c)
      {
        if s in bySlot {
          ghost var before := cells;
          bitmap := bitmap[s := true];
          var c := BuildFromEntries(h, bySlot[s], level + 1);
          forall d | d in children ensures Present(cells, d) {
            PresentGrows(before, cells, d);
          }
          children := children + [c];
        }
        s := s + 1;
      }
    }

    /** Insert below `r`; a cell that cannot be read counts as an empty leaf. */
    method SetAt(h: Key -> nat, r: Ref, k: Key, v: Val, level: nat) returns (r': Ref)
      modifies this
      ensures old(cells) <= cells
      ensures Present(old(cells), r) ==> r' == Set(h, r, k, v, level) && Present(cells, r')
      decreases r
    {
      hide Slot, Rank, Build;
      if r.Empty? {
        r' := WriteNode(Leaf(map[k := v]));
        return;
      }
      var read := Read(cells, r);
      var node := if read.Some? then read.value else Leaf(map[]);
      match node {
        case Leaf(e) =>
          if k in e || e == map[] || level >= MAX_LEVELS {
            r' := WriteNode(Leaf(e[k := v]));
          } else {
            r' := BuildFromEntries(h, e[k := v], level);
          }
        case Inner(b, ch) => r' := SetInner(h, r, b, ch, k, v, level);
      }
    }

    method SetInner(h: Key -> nat, r: Ref, b: seq<bool>, ch: seq<Ref>, k: Key, v: Val, level: nat) returns (r': Ref)
      requires r == Cell(Inner(b, ch)) && r in cells && Dense(b, ch)
      modifies this
      ensures old(cells) <= cells
      ensures Present(old(cells), r) ==> r' == Set(h, r, k, v, level) && Present(cells, r')
      decreases r, 0
    {
      hide Slot, Rank, Insert;
      var s := Slot(h, k, level);
      RankMono(b, s, BRANCH);
      var i := Rank(b, s);
      ghost var start := cells;
      if b[s] {
        var c := SetAt(h, ch[i], k, v, level + 1);
        ghost var mid := cells;
        r' := WriteNode(Inner(b, ch[i := c]));
        if Present(start, r) {
          UpdateChild(b, ch, s, c);
          ReplacePresent(start, mid, ch, i, c);
          PresentInner(mid, cells, b, ch[i := c]);
        }
      } else {
        var leaf := WriteNode(Leaf(map[k := v]));
        ghost var mid := cells;
        r' := WriteNode(Inner(b[s := true], Insert(ch, i, leaf)));
        if Present(start, r) {
          InsertChild(b, ch, s, leaf);
          InsertPresent(start, mid, ch, i, leaf);
          PresentInner(mid, cells, b[s := true], Insert(ch, i, leaf));
        }
      }
    }

    /** Remove below `r`. */
    method RemoveAt(h: Key -> nat, r: Ref, k: Key, level: nat) returns (r': Ref, found: bool)
      modifies this
      ensures old(cells) <= cells
      ensures Present(old(cells), r) ==> (r', found) == Remove(h, r, k, level) && Present(cells, r')
      decreases r
    {
      hide Slot, Rank, Delete;
      var read := Read(cells, r);
      if read.None? {
        return r, false;
      }
      match read.value {
        case Leaf(e) =>
          if k !in e {
            return r, false;
          }
          if e - {k} == map[] {
            return Empty, true;
          }
          r' := WriteNode(Leaf(e - {k}));
          found := true;
        case Inner(b, ch) => r', found := RemoveInner(h, r, b, ch, k, level);
      }
    }

    method RemoveInner(h: Key -> nat, r: Ref, b: seq<bool>, ch: seq<Ref>, k: Key, level: nat)
      returns (r': Ref, found: bool)
      requires r == Cell(Inner(b, ch)) && r in cells && Dense(b, ch)
      modifies this
      ensures old(cells) <= cells
      ensures Present(old(cells), r) ==> (r', found) == Remove(h, r, k, level) && Present(cells, r')
      decreases r, 0
    {
      hide Slot, Rank, Delete;
      var s := Slot(h, k, level);
      if !b[s] {
        return r, false;
      }
      RankMono(b, s, BRANCH);
      var i := Rank(b, s);
      ghost var start := cells;
      var c;
      c, found := RemoveAt(h, ch[i], k, level + 1);
      ghost var mid := cells;
      if !found {
        r' := r;
        if Present(start, r) {
          PresentGrows(start, mid, r);
        }
      } else if c.Empty? {
        if Rank(b[s := false], BRANCH) == 0 {
          r' := Empty;
        } else {
          r' := WriteNode(Inner(b[s := false], Delete(ch, i)));
          if Present(start, r) {
            Hamt.RemoveChild(b, ch, s);
            DeletePresent(start, mid, ch, i);
            PresentInner(mid, cells, b[s := false], Delete(ch, i));
          }
        }
      } else {
        r' := WriteNode(Inner(b, ch[i := c]));
        if Present(start, r) {
          UpdateChild(b, ch, s, c);
          ReplacePresent(start, mid, ch, i, c);
          PresentInner(mid, cells, b, ch[i := c]);
        }
      }
    }
  }

  ghost predicate Grouped(h: Key -> nat, e: map<Key, Val>, level: nat, bySlot: map<nat, map<Key, Val>>) {
    && (forall s: nat :: s in bySlot <==> s < BRANCH && Bucket(h, e, level, s) != map[])
    && (forall s: nat :: s in bySlot ==> bySlot[s] == Bucket(h, e, level, s))
  }

  lemma GroupMore(h: Key -> nat, e: map<Key, Val>, level: nat, bySlot: map<nat, map<Key, Val>>, k: Key, v: Val)
    requires Grouped(h, e, level, bySlot)
    ensures var s := Slot(h, k, level);
      var group: map<Key, Val> := (if s in bySlot then bySlot[s] else map[])[k := v];
      Grouped(h, e[k := v], level, bySlot[s := group])
  {
    hide Slot;
    var s := Slot(h, k, level);
    var e' := e[k := v];
    forall t: nat
      ensures Bucket(h, e', level, t) == if t == s then Bucket(h, e, level, t)[k := v] else Bucket(h, e, level, t)
    {
    }
    assert k in Bucket(h, e', level, s);
  }

  lemma PresentInner(before: Store, cells: Store, bitmap: seq<bool>, children: seq<Ref>)
    requires cells == before + {Cell(Inner(bitmap, children))} && Dense(bitmap, children)
    requires forall c :: c in children ==> Present(before, c)
    ensures Present(cells, Cell(Inner(bitmap, children)))
  {
    forall c | c in children ensures Present(cells, c) {
      PresentGrows(before, cells, c);
    }
  }

  lemma {:induction false} CountUsed(b: seq<bool>, n: nat, used: set<nat>)
    requires n <= |b| && forall s: nat :: s in used <==> s < n && b[s]
    ensures |used| == Rank(b, n)
    decreases n
  {
    if n > 0 {
      CountUsed(b, n - 1, used - {n - 1});
    } else {
      assert used == {};
    }
  }

  lemma OneBucket(h: Key -> nat, e: map<Key, Val>, level: nat, bySlot: map<nat, map<Key, Val>>)
    requires Grouped(h, e, level, bySlot)
    ensures |bySlot| == Rank(Used(h, e, level), BRANCH)
  {
    CountUsed(Used(h, e, level), BRANCH, bySlot.Keys);
    assert |bySlot| == |bySlot.Keys|;
  }

  lemma ReplacePresent(start: Store, mid: Store, ch: seq<Ref>, i: nat, c: Ref)
    requires start <= mid && i < |ch| && Present(mid, c) && forall d :: d in ch ==> Present(start, d)
    ensures forall d :: d in ch[i := c] ==> Present(mid, d)
  {
    forall d | d in ch[i := c] ensures Present(mid, d) {
      if d in ch {
        PresentGrows(start, mid, d);
      }
    }
  }

  lemma InsertPresent(start: Store, mid: Store, ch: seq<Ref>, i: nat, c: Ref)
    requires start <= mid && i <= |ch| && Present(mid, c) && forall d :: d in ch ==> Present(start, d)
    ensures forall d :: d in Insert(ch, i, c) ==> Present(mid, d)
  {
    forall d | d in Insert(ch, i, c) ensures Present(mid, d) {
      if d in ch {
        PresentGrows(start, mid, d);
      }
    }
  }

  lemma DeletePresent(start: Store, mid: Store, ch: seq<Ref>, i: nat)
    requires start <= mid && i < |ch| && forall d :: d in ch ==> Present(start, d)
    ensures forall d :: d in Delete(ch, i) ==> Present(mid, d)
  {
    forall d | d in Delete(ch, i) ensures Present(mid, d) {
      assert d in ch;
      PresentGrows(start, mid, d);
    }
  }

  // ---------- whole runs ----------

  datatype Op = Put(k: Key, v: Val) | Del(k: Key)

  /** Root after a run of operations from the empty map. */
  ghost function After(h: Key -> nat, ops: seq<Op>): Ref {
    if ops == [] then Empty
    else
      var r := After(h, ops[..|ops| - 1]);
      match ops[|ops| - 1]
      case Put(k, v) => Set(h, r, k, v, 0)
      case Del(k) => Remove(h, r, k, 0).0
  }

  /** The finite map the run describes. */
  ghost function Model(ops: seq<Op>): map<Key, Val> {
    if ops == [] then map[]
    else
      var m := Model(ops[..|ops| - 1]);
      match ops[|ops| - 1]
      case Put(k, v) => m[k := v]
      case Del(k) => m - {k}
  }

  /** Every insertion of the run splits without skipping a level. */
  ghost predicate NeverSkips(h: Key -> nat, ops: seq<Op>) {
    ops == [] ||
      (NeverSkips(h, ops[..|ops| - 1])
       && match ops[|ops| - 1]
          case Put(k, _) => SetOk(h, After(h, ops[..|ops| - 1]), k, 0)
          case Del(_) => true)
  }

  /** A run that never skips a level is a finite map: lookups agree with it at every key, the
      trie is aligned, and it is the empty root exactly when the map is empty. */
  lemma {:induction false} RunCorrect(h: Key -> nat, ops: seq<Op>)
    requires NeverSkips(h, ops)
    ensures Root(h, After(h, ops))
    ensures forall k :: Value(h, After(h, ops), k, 0) == Find(Model(ops), k)
    ensures After(h, ops) == Empty <==> Model(ops) == map[]
    decreases |ops|
  {
    hide SetOk, Set, Remove, Value, Aligned;
    if ops == [] {
      forall k ensures Value(h, Empty, k, 0) == None {
        LeafValue(h, map[], k, 0);
      }
    } else {
      var n := |ops| - 1;
      RunCorrect(h, ops[..n]);
      StepCorrect(h, After(h, ops[..n]), Model(ops[..n]), ops[n]);
      var r := After(h, ops);
      if r.Cell? {
        var k := HasKey(h, r, []);
        assert Find(Model(ops), k).Some?;
      } else {
        forall k ensures k !in Model(ops) {
          LeafValue(h, map[], k, 0);
          assert Find(Model(ops), k) == None;
        }
      }
    }
  }

  lemma StepCorrect(h: Key -> nat, r: Ref, m: map<Key, Val>, op: Op)
    requires Root(h, r) && forall k :: Value(h, r, k, 0) == Find(m, k)
    requires op.Put? ==> SetOk(h, r, op.k, 0)
    ensures var r' := if op.Put? then Set(h, r, op.k, op.v, 0) else Remove(h, r, op.k, 0).0;
      var m' := if op.Put? then m[op.k := op.v] else m - {op.k};
      Root(h, r') && forall k :: Value(h, r', k, 0) == Find(m', k)
  {
    hide SetOk, Value, Aligned;
    var v := if op.Put? then Some(op.v) else None;
    var r' := if op.Put? then Set(h, r, op.k, op.v, 0) else Remove(h, r, op.k, 0).0;
    var m' := if op.Put? then m[op.k := op.v] else m - {op.k};
    assert OnPath(h, op.k, []);
    if r.Cell? {
      if op.Put? {
        SetCorrect(h, r, op.k, op.v, []);
      } else {
        RemoveCorrect(h, r, op.k, []);
      }
    } else {
      FreshLeaf(h, op.k, if op.Put? then op.v else 0, []);
      assert op.Del? ==> Updated(h, r, r', op.k, v, []) by {
        LeafValue(h, map[], op.k, 0);
      }
    }
    forall k ensures Value(h, r', k, 0) == Find(m', k) {
      assert OnPath(h, k, []);
    }
  }

  /** An aligned tree is never empty. */
  lemma {:induction false} HasKey(h: Key -> nat, r: Ref, path: seq<nat>) returns (k: Key)
    requires Aligned(h, r, path)
    ensures OnPath(h, k, path) && Value(h, r, k, |path|).Some?
    decreases r
  {
    hide Slot;
    if r.node.Leaf? {
      k :| k in r.node.entries;
    } else {
      var b, ch := r.node.bitmap, r.node.children;
      var s := OneUsed(b, BRANCH);
      AlignedChild(h, b, ch, path, s);
      k := HasKey(h, Child(b, ch, s), path + [s]);
      OnPathLess(h, k, path, s);
      ValueInner(h, b, ch, k, |path|);
    }
  }

  /** Two keys that share the first slot and part at the second: after both insertions the
      first one cannot be found. */
  lemma SkippedLevelLosesKey(h: Key -> nat, v: Val, w: Val)
    requires h(1) == 0 && h(2) == 32
    ensures var r := After(h, [Put(1, v), Put(2, w)]);
      Value(h, r, 1, 0) == None || Value(h, r, 2, 0) == None
  {
    hide Build, Value, Built, Rank, Collide, Used, After;
    var e: map<Key, Val> := map[1 := v, 2 := w];
    TwoPuts(h, v, w);
    SharedSlot(h, v, w);
    var lost := SkipLoses(h, e, 0);
  }

  lemma TwoPuts(h: Key -> nat, v: Val, w: Val)
    ensures After(h, [Put(1, v), Put(2, w)]) == Build(h, map[1 := v, 2 := w], 0)
  {
    hide Build, Value, Built;
    var ops := [Put(1, v), Put(2, w)];
    assert ops[..1] == [Put(1, v)];
    assert ops[..1][..0] == [];
    var one: map<Key, Val> := map[1 := v];
    assert 1 in one && 2 !in one;
    assert After(h, ops[..1]) == Cell(Leaf(one));
    assert one[2 := w] == map[1 := v, 2 := w] && ops[1] == Put(2, w);
  }

  lemma SharedSlot(h: Key -> nat, v: Val, w: Val)
    requires h(1) == 0 && h(2) == 32
    ensures var e: map<Key, Val> := map[1 := v, 2 := w];
      |e| == 2 && !Collide(h, e, 0) && Rank(Used(h, e, 0), BRANCH) == 1 && e.Keys == {1, 2}
  {
    hide Build, Built, Rank;
    var e: map<Key, Val> := map[1 := v, 2 := w];
    assert Pow32(0) == 1 && Pow32(1) == 32;
    assert Slot(h, 1, 0) == 0 && Slot(h, 2, 0) == 0 && Slot(h, 1, 1) == 0 && Slot(h, 2, 1) == 1;
    assert e.Keys == {1, 2} && |e| == |e.Keys|;
    assert 1 in e && 2 in e && Slot(h, 1, 1) != Slot(h, 2, 1);
    var b := Used(h, e, 0);
    assert 1 in Bucket(h, e, 0, 0);
    forall s | 1 <= s < BRANCH ensures !b[s] {
      assert Bucket(h, e, 0, s) == map[];
    }
    RankOfFirst(b, BRANCH);
  }

  lemma {:induction false} RankOfFirst(b: seq<bool>, n: nat)
    requires 1 <= n <= |b| && b[0] && forall s :: 1 <= s < |b| ==> !b[s]
    ensures Rank(b, n) == 1
    decreases n
  {
    if n > 1 {
      RankOfFirst(b, n - 1);
    }
  }
}
