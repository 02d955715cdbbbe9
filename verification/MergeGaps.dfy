/** When the three-way merge declines, and three tries on which it brings a deleted key back. */
module MergeGaps {
  import opened Options
  import opened Hamt
  import opened HamtOps
  import opened HamtMerge
  import opened PMap

  // ---------- when the merge declines ----------

  /** Both sides moved away from the base, and from each other. */
  ghost predicate Apart(a: Ref, b: Ref, base: Ref) { a != b && a != base && b != base }

  /** The entry of `k` was changed in two different ways. */
  ghost predicate ChangedTwice(a: Ref, b: Ref, base: Ref, k: Key)
    requires a.Cell? && a.node.Leaf? && b.Cell? && b.node.Leaf?
  {
    var va, vb := Find(a.node.entries, k), Find(b.node.entries, k);
    var vd := if base.Cell? && base.node.Leaf? then Find(base.node.entries, k) else None;
    va != vb && va != vd && vb != vd
  }

  /** What the merge cannot reconcile at one position: one side has nothing there, the two
      have different shapes, or one entry of the two leaves was changed twice. */
  ghost predicate Clash(a: Ref, b: Ref, base: Ref) {
    Apart(a, b, base) &&
      (a.Empty? || b.Empty? || a.node.Leaf? != b.node.Leaf? || (a.node.Leaf? && exists k :: ChangedTwice(a, b, base, k)))
  }

  /** The position `path` below the three nodes is compared, and there is a clash there. */
  ghost predicate ClashAt(a: Ref, b: Ref, base: Ref, path: seq<nat>)
    decreases |path|
  {
    if path == [] then Clash(a, b, base)
    else
      && Apart(a, b, base) && Branching(a) && Branching(b) && path[0] < BRANCH
      && ClashAt(Kid(a, path[0]), Kid(b, path[0]), Kid(base, path[0]), path[1..])
  }

  lemma LeavesDecline(ea: map<Key, Val>, eb: map<Key, Val>, ed: map<Key, Val>)
    ensures MergeLeaf(ea, eb, ed).None? <==>
      exists k :: Find(ea, k) != Find(eb, k) && Find(ea, k) != Find(ed, k) && Find(eb, k) != Find(ed, k)
  {
    if MergeLeaf(ea, eb, ed).None? {
      var k :| k in ea.Keys + eb.Keys + ed.Keys && Pick(Find(ea, k), Find(eb, k), Find(ed, k)).None?;
    }
    if k :| Find(ea, k) != Find(eb, k) && Find(ea, k) != Find(ed, k) && Find(eb, k) != Find(ed, k) {
      assert k in ea.Keys + eb.Keys + ed.Keys;
      assert Pick(Find(ea, k), Find(eb, k), Find(ed, k)).None?;
    }
  }

  /** Slot by slot: the merge of two branching nodes declines in the first slot that does. */
  lemma {:induction false} SlotsDecline(store: Store, ba: seq<bool>, ca: seq<Ref>, bb: seq<bool>, cb: seq<Ref>,
                                        bd: seq<bool>, cd: seq<Ref>, n: nat)
    returns (s: nat)
    requires Dense(ba, ca) && Dense(bb, cb) && Dense(bd, cd) && n <= BRANCH
    requires MergeSlots(store, ba, ca, bb, cb, bd, cd, n).None?
    ensures s < n && MergeRef(store, Child(ba, ca, s), Child(bb, cb, s), Child(bd, cd, s)).None?
    decreases n
  {
    hide MergeRef, Child;
    if MergeSlots(store, ba, ca, bb, cb, bd, cd, n - 1).None? {
      s := SlotsDecline(store, ba, ca, bb, cb, bd, cd, n - 1);
    } else {
      s := n - 1;
    }
  }

  /** The slots the merge descends into are the nodes' kids. */
  lemma SlotKids(store: Store, a: Ref, b: Ref, base: Ref, s: nat)
    requires Present(store, base) && Branching(a) && Branching(b) && s < BRANCH
    ensures var (bd, cd) := BaseSlots(Read(store, base));
      && Child(a.node.bitmap, a.node.children, s) == Kid(a, s) && Child(b.node.bitmap, b.node.children, s) == Kid(b, s)
      && Child(bd, cd, s) == Kid(base, s)
  {
  }

  lemma BranchesMerge(store: Store, a: Ref, b: Ref, base: Ref)
    requires Present(store, a) && Present(store, b) && Apart(a, b, base) && Branching(a) && Branching(b)
    ensures var (bd, cd) := BaseSlots(Read(store, base));
      MergeRef(store, a, b, base).None? <==>
        MergeSlots(store, a.node.bitmap, a.node.children, b.node.bitmap, b.node.children, bd, cd, BRANCH).None?
  {
    hide MergeSlots;
  }

  lemma {:induction false} Declines(store: Store, a: Ref, b: Ref, base: Ref) returns (path: seq<nat>)
    requires Present(store, a) && Present(store, b) && Present(store, base) && MergeRef(store, a, b, base).None?
    ensures ClashAt(a, b, base, path)
    decreases Height(a)
  {
    hide MergeSlots, Rank;
    path := [];
    if Branching(a) && Branching(b) {
      BranchesMerge(store, a, b, base);
      var (bd, cd) := BaseSlots(Read(store, base));
      var s := SlotsDecline(store, a.node.bitmap, a.node.children, b.node.bitmap, b.node.children, bd, cd, BRANCH);
      SlotKids(store, a, b, base, s);
      KidLower(a, s);
      KidPresent(store, a, s);
      KidPresent(store, b, s);
      KidPresent(store, base, s);
      var rest := Declines(store, Kid(a, s), Kid(b, s), Kid(base, s));
      path := [s] + rest;
      assert path[1..] == rest;
    } else if a.Cell? && b.Cell? && a.node.Leaf? && b.node.Leaf? {
      LeavesDecline(a.node.entries, b.node.entries, BaseEntries(Read(store, base)));
      var k :| Find(a.node.entries, k) != Find(b.node.entries, k)
               && Find(a.node.entries, k) != Find(BaseEntries(Read(store, base)), k)
               && Find(b.node.entries, k) != Find(BaseEntries(Read(store, base)), k);
      assert ChangedTwice(a, b, base, k);
    }
  }

  lemma {:induction false} ClashDeclines(store: Store, a: Ref, b: Ref, base: Ref, path: seq<nat>)
    requires Present(store, a) && Present(store, b) && Present(store, base) && ClashAt(a, b, base, path)
    ensures MergeRef(store, a, b, base).None?
    decreases |path|
  {
    hide MergeSlots, Rank, MergeLeaf;
    if path == [] {
      if a.Cell? && b.Cell? && a.node.Leaf? && b.node.Leaf? {
        var k :| ChangedTwice(a, b, base, k);
        LeavesDecline(a.node.entries, b.node.entries, BaseEntries(Read(store, base)));
      }
    } else {
      var s := path[0];
      KidPresent(store, a, s);
      KidPresent(store, b, s);
      KidPresent(store, base, s);
      ClashDeclines(store, Kid(a, s), Kid(b, s), Kid(base, s), path[1..]);
      SlotKids(store, a, b, base, s);
      BranchesMerge(store, a, b, base);
      var (bd, cd) := BaseSlots(Read(store, base));
      if MergeSlots(store, a.node.bitmap, a.node.children, b.node.bitmap, b.node.children, bd, cd, BRANCH).Some? {
        SlotMerged(store, a.node.bitmap, a.node.children, b.node.bitmap, b.node.children, bd, cd, BRANCH, s);
      }
    }
  }

  /** The merge declines exactly when, at some position it compares, one side has nothing, the
      shapes differ, or an entry was changed in two different ways. */
  lemma DeclinesExactly(store: Store, a: Ref, b: Ref, base: Ref)
    requires Present(store, a) && Present(store, b) && Present(store, base)
    ensures MergeRef(store, a, b, base).None? <==> exists path :: ClashAt(a, b, base, path)
  {
    hide MergeRef, ClashAt, Present;
    if MergeRef(store, a, b, base).None? {
      var path := Declines(store, a, b, base);
    }
    if path :| ClashAt(a, b, base, path) {
      ClashDeclines(store, a, b, base, path);
    }
  }

  // ---------- a deleted key comes back ----------

  /** Every key is its own hash. */
  function Own(k: Key): nat { k }

  /** The cells of a tree. */
  ghost function Below(r: Ref): (cells: Store)
    decreases r
  {
    match r
    case Empty => {}
    case Cell(Leaf(_)) => {r}
    case Cell(Inner(_, ch)) => {r} + BelowAll(ch)
  }

  ghost function BelowAll(ch: seq<Ref>): (cells: Store)
    ensures forall c :: c in ch ==> Below(c) <= cells
    decreases ch
  {
    if ch == [] then {} else BelowAll(ch[..|ch| - 1]) + Below(ch[|ch| - 1])
  }

  lemma {:induction false} AlignedPresent(h: Key -> nat, r: Ref, path: seq<nat>)
    requires Aligned(h, r, path)
    ensures Present(Below(r), r)
    decreases r
  {
    hide Rank;
    if r.node.Inner? {
      var b, ch := r.node.bitmap, r.node.children;
      forall i | 0 <= i < |ch| ensures Present(Below(r), ch[i]) {
        var s := ChildSlot(b, ch, i, BRANCH);
        AlignedChild(h, b, ch, path, s);
        AlignedPresent(h, ch[i], path + [s]);
        PresentGrows(Below(ch[i]), Below(r), ch[i]);
      }
    }
  }

  /** Two entries in different slots. */
  ghost predicate TwoSlots(e: map<Key, Val>, i: Key, j: Key) {
    e.Keys == {i, j} && i < BRANCH && j < BRANCH && i != j
  }

  lemma OwnSlot(k: Key)
    requires k < BRANCH
    ensures Slot(Own, k, 0) == k
  {
    assert Pow32(0) == 1;
  }

  lemma OwnBuckets(e: map<Key, Val>, i: Key, j: Key, s: nat)
    requires TwoSlots(e, i, j) && s < BRANCH
    ensures Used(Own, e, 0)[s] == (s == i || s == j) && |Bucket(Own, e, 0, s)| <= 1
  {
    hide Slot;
    OwnSlot(i);
    OwnSlot(j);
    var c := Bucket(Own, e, 0, s);
    forall k | k in c ensures k == s && (k == i || k == j) {
      assert k in e.Keys;
    }
    if s == i || s == j {
      assert s in e.Keys && s in c;
    }
    assert c.Keys <= {s};
    SmallKeys(c, s);
  }

  lemma SmallKeys(c: map<Key, Val>, s: Key)
    requires c.Keys <= {s}
    ensures |c| <= 1
  {
    assert |c| == |c.Keys|;
    if s in c {
      assert c.Keys == {s};
    } else {
      assert c.Keys == {};
    }
  }

  lemma TwoRanks(b: seq<bool>, i: nat, j: nat)
    requires |b| == BRANCH && i < j < BRANCH && b[i] && b[j]
    ensures Rank(b, BRANCH) >= 2
  {
    RankMono(b, i, j);
    RankMono(b, j, BRANCH);
  }

  /** Splitting a leaf of one entry on a key of another slot. */
  lemma SplitLeaf(e: map<Key, Val>, i: Key, j: Key)
    requires TwoSlots(e, i, j)
    ensures NoSkip(Own, e, 0) && Branching(Build(Own, e, 0))
    ensures forall s :: 0 <= s < BRANCH && s != i && s != j ==> Kid(Build(Own, e, 0), s) == Empty
  {
    hide Slot, Rank, Bucket, Built, Build, NoSkip;
    forall s | 0 <= s < BRANCH
      ensures Used(Own, e, 0)[s] == (s == i || s == j) && NoSkip(Own, Bucket(Own, e, 0, s), 1)
    {
      OwnBuckets(e, i, j, s);
      FewNoSkip(Bucket(Own, e, 0, s), 1);
    }
    assert |e| == |e.Keys| == 2;
    TwoRanks(Used(Own, e, 0), if i < j then i else j, if i < j then j else i);
    BuildIs(Own, e, 0);
    BuiltView(Own, e, 0);
    NoSkipIs(e);
  }

  lemma FewNoSkip(e: map<Key, Val>, level: nat)
    requires |e| <= 1
    ensures NoSkip(Own, e, level)
  {
  }

  lemma NoSkipIs(e: map<Key, Val>)
    requires Rank(Used(Own, e, 0), BRANCH) != 1
    requires forall s :: 0 <= s < BRANCH ==> NoSkip(Own, Bucket(Own, e, 0, s), 1)
    ensures NoSkip(Own, e, 0)
  {
    hide Slot, Rank, Bucket, Used;
  }

  /** A run that ends by putting `j` into a map of the one entry `i`. */
  lemma OneThenTwo(ops: seq<Op>, i: Key, v: Val, j: Key, w: Val)
    requires NeverSkips(Own, ops) && After(Own, ops) == Cell(Leaf(map[i := v])) && i < BRANCH && j < BRANCH && i != j
    ensures var ops' := ops + [Put(j, w)];
      && NeverSkips(Own, ops') && After(Own, ops') == Build(Own, map[i := v, j := w], 0)
      && TwoSlots(map[i := v, j := w], i, j)
  {
    hide Build, NoSkip;
    var e: map<Key, Val> := map[i := v];
    var ops' := ops + [Put(j, w)];
    assert ops'[..|ops|] == ops && ops'[|ops|] == Put(j, w);
    var d: map<Key, Val> := e[j := w];
    assert d == map[i := v, j := w] && i in e && j !in e;
    SplitLeaf(e[j := 0], i, j);
  }

  lemma OnePut(ops: seq<Op>, k: Key, v: Val)
    requires NeverSkips(Own, ops) && After(Own, ops) == Empty
    ensures NeverSkips(Own, ops + [Put(k, v)]) && After(Own, ops + [Put(k, v)]) == Cell(Leaf(map[k := v]))
  {
    var ops' := ops + [Put(k, v)];
    assert ops'[..|ops|] == ops;
  }

  lemma PutAndDeleted(k: Key, v: Val)
    ensures NeverSkips(Own, [Put(k, v), Del(k)]) && After(Own, [Put(k, v), Del(k)]) == Empty
    ensures NeverSkips(Own, [Put(k, v)]) && After(Own, [Put(k, v)]) == Cell(Leaf(map[k := v]))
  {
    var ops: seq<Op> := [Put(k, v), Del(k)];
    OnePut([], k, v);
    assert [] + [Put(k, v)] == [Put(k, v)] == ops[..1];
    var e: map<Key, Val> := map[k := v];
    assert k in e && e - {k} == map[];
    assert After(Own, ops) == Remove(Own, Cell(Leaf(e)), k, 0).0;
  }

  /** Nodes that share no slot merge, whatever a leaf base held. */
  lemma DisjointMerge(store: Store, a: Ref, b: Ref, base: Ref)
    requires Present(store, a) && Present(store, b) && Present(store, base)
    requires Branching(a) && Branching(b) && base.Cell? && base.node.Leaf?
    requires forall s :: 0 <= s < BRANCH ==> Kid(a, s) == Empty || Kid(b, s) == Empty
    ensures MergeRef(store, a, b, base).Some?
    ensures a != b ==> MergeRef(store, a, b, base) == MergeRef(store, a, b, Empty)
  {
    if MergeRef(store, a, b, base).None? {
      var path := Declines(store, a, b, base);
      assert false;
    }
  }

  /** 1 is in the base. One side deletes it and puts 2 and 3, the other puts 4: both have
      branched where the base was a leaf, so the base counts as absent there, the merge goes
      through, and the deleted 1 is back. No insertion of the three runs skips a level. */
  lemma DeletedKeyIsBack(v: Val, w: Val, x: Val, y: Val)
    ensures var opsD: seq<Op> := [Put(1, v)];
      var opsA: seq<Op> := [Put(1, v), Del(1), Put(2, w), Put(3, x)];
      var opsB: seq<Op> := [Put(1, v), Put(4, y)];
      var (d, a, b) := (After(Own, opsD), After(Own, opsA), After(Own, opsB));
      var store := Below(d) + Below(a) + Below(b);
      && NeverSkips(Own, opsD) && NeverSkips(Own, opsA) && NeverSkips(Own, opsB)
      && Present(store, d) && Present(store, a) && Present(store, b)
      && Value(Own, a, 1, 0) == None && Value(Own, b, 1, 0) == Value(Own, d, 1, 0) == Some(v)
      && MergeRef(store, a, b, d).Some?
      && Value(Own, MergeRef(store, a, b, d).value, 1, 0) == Some(v)
      && !Lawful(Own, a, b, d, MergeRef(store, a, b, d).value, [])
  {
    hide Build, NeverSkips, After, Value, Present, Below, Kid, MergeRef, Lawful, Aligned, BaseOk, Model;
    var opsD: seq<Op> := [Put(1, v)];
    var opsA: seq<Op> := [Put(1, v), Del(1), Put(2, w), Put(3, x)];
    var opsB: seq<Op> := [Put(1, v), Put(4, y)];
    var (d, a, b) := (After(Own, opsD), After(Own, opsA), After(Own, opsB));
    PutAndDeleted(1, v);
    OnePut([Put(1, v), Del(1)], 2, w);
    assert [Put(1, v), Del(1)] + [Put(2, w)] == [Put(1, v), Del(1), Put(2, w)];
    OneThenTwo([Put(1, v), Del(1), Put(2, w)], 2, w, 3, x);
    assert [Put(1, v), Del(1), Put(2, w)] + [Put(3, x)] == opsA;
    OneThenTwo(opsD, 1, v, 4, y);
    assert opsD + [Put(4, y)] == opsB;
    SplitLeaf(map[2 := w, 3 := x], 2, 3);
    SplitLeaf(map[1 := v, 4 := y], 1, 4);
    var store := Below(d) + Below(a) + Below(b);
    AllThere(opsD, store);
    AllThere(opsA, store);
    AllThere(opsB, store);
    ThreeModels(v, w, x, y);
    DisjointMerge(store, a, b, d);
    MergedValue(store, a, b, 1);
    DeletedKeyReturns(Own, store, a, b, d, 1);
  }

  /** The merge may decline with no key changed two ways: one side deletes the only key of the
      base, the other puts a second one. */
  lemma DeclinesWithoutConflict(v: Val, y: Val)
    ensures var (d, a, b) := (After(Own, [Put(1, v)]), After(Own, [Put(1, v), Del(1)]), After(Own, [Put(1, v), Put(4, y)]));
      var store := Below(d) + Below(b);
      && Present(store, d) && Present(store, a) && Present(store, b) && MergeRef(store, a, b, d).None?
      && forall k :: Value(Own, a, k, 0) == Value(Own, d, k, 0) || Value(Own, b, k, 0) == Value(Own, d, k, 0)
  {
    hide Build, NeverSkips, After, Value, Below, Model, Kid;
    var opsD: seq<Op>, opsA: seq<Op>, opsB: seq<Op> := [Put(1, v)], [Put(1, v), Del(1)], [Put(1, v), Put(4, y)];
    PutAndDeleted(1, v);
    OneThenTwo(opsD, 1, v, 4, y);
    assert opsD + [Put(4, y)] == opsB;
    SplitLeaf(map[1 := v, 4 := y], 1, 4);
    var (d, a, b) := (After(Own, opsD), After(Own, opsA), After(Own, opsB));
    var store := Below(d) + Below(b);
    assert Below(Empty) == {} by { EmptyBelow(); }
    AllThere(opsD, store);
    AllThere(opsA, store);
    AllThere(opsB, store);
    assert ClashAt(a, b, d, []);
    ClashDeclines(store, a, b, d, []);
    TwoModels(v, y);
  }

  lemma EmptyBelow()
    ensures Below(Empty) == {}
  {
  }

  lemma TwoModels(v: Val, y: Val)
    ensures Model([Put(1, v)]) == map[1 := v] && Model([Put(1, v), Del(1)]) == map[]
    ensures Model([Put(1, v), Put(4, y)]) == map[1 := v, 4 := y]
    ensures forall k :: Find(Model([Put(1, v), Del(1)]), k) == Find(Model([Put(1, v)]), k)
                     || Find(Model([Put(1, v), Put(4, y)]), k) == Find(Model([Put(1, v)]), k)
  {
    var p: seq<Op>, q: seq<Op> := [Put(1, v), Del(1)], [Put(1, v), Put(4, y)];
    assert p[..1] == [Put(1, v)] && q[..1] == [Put(1, v)] && p[..1][..0] == [];
    assert Model(p[..1]) == map[1 := v];
    assert Model(p) == map[];
    assert Model(q) == map[1 := v, 4 := y];
  }

  lemma AllThere(ops: seq<Op>, store: Store)
    requires NeverSkips(Own, ops) && Below(After(Own, ops)) <= store
    ensures Present(store, After(Own, ops)) && forall k :: Value(Own, After(Own, ops), k, 0) == Find(Model(ops), k)
  {
    hide NeverSkips, After, Value, Below, Aligned, Model;
    RunCorrect(Own, ops);
    var r := After(Own, ops);
    if r.Cell? {
      AlignedPresent(Own, r, []);
      PresentGrows(Below(r), store, r);
    }
  }

  lemma ThreeModels(v: Val, w: Val, x: Val, y: Val)
    ensures Find(Model([Put(1, v)]), 1) == Some(v) && Find(Model([Put(1, v), Put(4, y)]), 1) == Some(v)
    ensures Find(Model([Put(1, v), Del(1), Put(2, w), Put(3, x)]), 1) == None
  {
    var p: seq<Op> := [Put(1, v), Del(1), Put(2, w), Put(3, x)];
    assert p[..3] == [Put(1, v), Del(1), Put(2, w)] && p[..3][..2] == [Put(1, v), Del(1)];
    assert 1 !in Model(p[..3][..2]);
    assert 1 !in Model(p[..3]);
    var q: seq<Op> := [Put(1, v), Put(4, y)];
    assert q[..1] == [Put(1, v)] && q[..1][..0] == [];
    assert Model(q[..1]) == map[1 := v];
  }

  /** Against an absent base, what one side alone holds is in the merge. */
  lemma MergedValue(store: Store, a: Ref, b: Ref, k: Key)
    requires Present(store, a) && Present(store, b) && MergeRef(store, a, b, Empty).Some?
    requires Value(Own, a, k, 0) == None
    ensures Value(Own, MergeRef(store, a, b, Empty).value, k, 0) == Value(Own, b, k, 0)
  {
    hide Value, MergeRef, BaseOk;
    assert Value(Own, Empty, k, 0) == None by { LeafValue(Own, map[], k, 0); }
    EmptyBaseOk(Own, a, b, []);
    MergeCorrect(Own, store, a, b, Empty, []);
    assert OnPath(Own, k, []);
  }
}
