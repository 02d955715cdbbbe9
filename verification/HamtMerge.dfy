/** Three-way merge of two divergent tries against their common ancestor. */
module HamtMerge {
  import opened Options
  import opened Hamt
  import opened HamtOps

  // ---------- the merge ----------

  /** One key: equal views collapse, an unchanged side yields to the other, else a conflict. */
  function Pick(va: Option<Val>, vb: Option<Val>, vd: Option<Val>): Option<Option<Val>> {
    if va == vb then Some(va) else if va == vd then Some(vb) else if vb == vd then Some(va) else None
  }

  predicate Agrees(ea: map<Key, Val>, eb: map<Key, Val>, ed: map<Key, Val>) {
    forall k :: k in ea.Keys + eb.Keys + ed.Keys ==> Pick(Find(ea, k), Find(eb, k), Find(ed, k)).Some?
  }

  function MergeLeaf(ea: map<Key, Val>, eb: map<Key, Val>, ed: map<Key, Val>): Option<map<Key, Val>> {
    if Agrees(ea, eb, ed) then
      Some(map k | k in ea.Keys + eb.Keys + ed.Keys && Pick(Find(ea, k), Find(eb, k), Find(ed, k)).value.Some? ::
             Pick(Find(ea, k), Find(eb, k), Find(ed, k)).value.value)
    else None
  }

  function Height(r: Ref): nat {
    match r
    case Empty => 0
    case Cell(Leaf(_)) => 1
    case Cell(Inner(_, ch)) => 1 + Tallest(ch)
  }

  function Tallest(ch: seq<Ref>): (n: nat)
    ensures forall c :: c in ch ==> Height(c) <= n
  {
    if ch == [] then 0
    else
      var n := |ch| - 1;
      var (x, y) := (Height(ch[n]), Tallest(ch[..n]));
      if x > y then x else y
  }

  /** Bitmap and dense vector of 32 slots, some of them empty. */
  function Bits(slots: seq<Ref>): (b: seq<bool>)
    ensures |b| == |slots| && forall s :: 0 <= s < |slots| ==> b[s] == slots[s].Cell?
  {
    seq(|slots|, s requires 0 <= s < |slots| => slots[s].Cell?)
  }

  function Kids(slots: seq<Ref>, n: nat): (ch: seq<Ref>)
    requires n <= |slots|
    ensures |ch| == Rank(Bits(slots), n)
    ensures forall c :: c in ch ==> c in slots && c.Cell?
  {
    if n == 0 then [] else Kids(slots, n - 1) + if slots[n - 1].Cell? then [slots[n - 1]] else []
  }

  function Pack(slots: seq<Ref>): Ref
    requires |slots| == BRANCH
  {
    if Kids(slots, BRANCH) == [] then Empty else Cell(Inner(Bits(slots), Kids(slots, BRANCH)))
  }

  /** The branching structure of a base node; any other base counts as having no children. */
  function BaseSlots(d: Option<Node>): (p: (seq<bool>, seq<Ref>))
    requires d.Some? && d.value.Inner? ==> Dense(d.value.bitmap, d.value.children)
    ensures Dense(p.0, p.1)
  {
    if d.Some? && d.value.Inner? then (d.value.bitmap, d.value.children)
    else
      NoBits(BRANCH);
      (seq(BRANCH, _ => false), [])
  }

  lemma {:induction false} NoBits(n: nat)
    requires n <= BRANCH
    ensures Rank(seq(BRANCH, _ => false), n) == 0
  {
    if n > 0 {
      NoBits(n - 1);
    }
  }

  function BaseEntries(d: Option<Node>): map<Key, Val> {
    if d.Some? && d.value.Leaf? then d.value.entries else map[]
  }

  function MergeRef(store: Store, a: Ref, b: Ref, base: Ref): Option<Ref>
    decreases Height(a), BRANCH + 1
  {
    if a == b then Some(a)
    else if a == base then Some(b)
    else if b == base then Some(a)
    else
      match (Read(store, a), Read(store, b))
      case (Some(Leaf(ea)), Some(Leaf(eb))) =>
        (match MergeLeaf(ea, eb, BaseEntries(Read(store, base)))
         case None => None
         case Some(m) => Some(if m == map[] then Empty else Cell(Leaf(m))))
      case (Some(Inner(ba, ca)), Some(Inner(bb, cb))) =>
        var (bd, cd) := BaseSlots(Read(store, base));
        (match MergeSlots(store, ba, ca, bb, cb, bd, cd, BRANCH)
         case None => None
         case Some(slots) => Some(Pack(slots)))
      case _ => None
  }

  /** The merged children of the slots below `n`. */
  function MergeSlots(store: Store, ba: seq<bool>, ca: seq<Ref>, bb: seq<bool>, cb: seq<Ref>,
                      bd: seq<bool>, cd: seq<Ref>, n: nat): (r: Option<seq<Ref>>)
    requires Dense(ba, ca) && Dense(bb, cb) && Dense(bd, cd) && n <= BRANCH
    ensures r.Some? ==> |r.value| == n
    decreases 1 + Tallest(ca), n
  {
    if n == 0 then Some([])
    else match MergeSlots(store, ba, ca, bb, cb, bd, cd, n - 1)
         case None => None
         case Some(slots) =>
           match MergeRef(store, Child(ba, ca, n - 1), Child(bb, cb, n - 1), Child(bd, cd, n - 1))
           case None => None
           case Some(r) => Some(slots + [r])
  }

  lemma {:induction false} SlotMerged(store: Store, ba: seq<bool>, ca: seq<Ref>, bb: seq<bool>, cb: seq<Ref>,
                                      bd: seq<bool>, cd: seq<Ref>, n: nat, s: nat)
    requires Dense(ba, ca) && Dense(bb, cb) && Dense(bd, cd) && s < n <= BRANCH
    requires MergeSlots(store, ba, ca, bb, cb, bd, cd, n).Some?
    ensures MergeRef(store, Child(ba, ca, s), Child(bb, cb, s), Child(bd, cd, s))
         == Some(MergeSlots(store, ba, ca, bb, cb, bd, cd, n).value[s])
    decreases n
  {
    hide MergeRef, Child, Rank;
    if s < n - 1 {
      SlotMerged(store, ba, ca, bb, cb, bd, cd, n - 1, s);
    }
  }

  lemma {:induction false} KidAt(slots: seq<Ref>, n: nat, s: nat)
    requires s < n <= |slots| && slots[s].Cell?
    ensures Rank(Bits(slots), s) < |Kids(slots, n)| && Kids(slots, n)[Rank(Bits(slots), s)] == slots[s]
    decreases n
  {
    if s < n - 1 {
      KidAt(slots, n - 1, s);
    }
  }

  lemma PackView(h: Key -> nat, slots: seq<Ref>, k: Key, level: nat)
    requires |slots| == BRANCH
    ensures Value(h, Pack(slots), k, level) == Value(h, slots[Slot(h, k, level)], k, level + 1)
  {
    hide Slot;
    var s := Slot(h, k, level);
    if slots[s].Cell? {
      KidAt(slots, BRANCH, s);
    }
  }

  // ---------- what a successful merge means ----------

  /** The merge law at one key: A's change wins where A changed, else B's view stands, and the
      key was not changed in two different ways. */
  ghost predicate Law(va: Option<Val>, vb: Option<Val>, vd: Option<Val>, vm: Option<Val>) {
    vm == (if va != vd then va else vb) && (va == vb || va == vd || vb == vd)
  }

  ghost predicate Lawful(h: Key -> nat, a: Ref, b: Ref, base: Ref, m: Ref, path: seq<nat>) {
    forall k :: OnPath(h, k, path) ==>
      Law(Value(h, a, k, |path|), Value(h, b, k, |path|), Value(h, base, k, |path|), Value(h, m, k, |path|))
  }

  /** No key of the base was deleted on exactly one side. */
  ghost predicate NoLoneDelete(h: Key -> nat, a: Ref, b: Ref, base: Ref, path: seq<nat>) {
    forall k :: OnPath(h, k, path) && Value(h, base, k, |path|).Some? ==>
      (Value(h, a, k, |path|).Some? <==> Value(h, b, k, |path|).Some?)
  }

  ghost predicate SameShape(a: Ref, base: Ref)
    requires a.Cell?
  {
    base.Empty? || base.node.Leaf? == a.node.Leaf?
  }

  function Kid(r: Ref, s: nat): Ref
    requires s < BRANCH
  {
    if r.Cell? && r.node.Inner? && Dense(r.node.bitmap, r.node.children)
    then Child(r.node.bitmap, r.node.children, s) else Empty
  }

  /** At every position where the two sides are compared, either the base has their shape (or
      is absent), or no key it holds there was deleted on one side only. */
  ghost predicate BaseOk(h: Key -> nat, a: Ref, b: Ref, base: Ref, path: seq<nat>)
    decreases Height(a)
  {
    if a == b || a == base || b == base || a.Empty? || b.Empty? || a.node.Leaf? != b.node.Leaf? then true
    else if a.node.Leaf? then SameShape(a, base) || NoLoneDelete(h, a, b, base, path)
    else if SameShape(a, base) then
      forall s :: 0 <= s < BRANCH ==>
        (KidLower(a, s); BaseOk(h, Kid(a, s), Kid(b, s), Kid(base, s), path + [s]))
    else NoLoneDelete(h, a, b, base, path)
  }

  lemma KidLower(a: Ref, s: nat)
    requires a.Cell? && a.node.Inner? && s < BRANCH
    ensures Height(Kid(a, s)) < Height(a)
  {
  }

  lemma KidValue(h: Key -> nat, r: Ref, k: Key, level: nat)
    requires r.Empty? || (r.node.Inner? && Dense(r.node.bitmap, r.node.children))
    ensures Value(h, r, k, level) == Value(h, Kid(r, Slot(h, k, level)), k, level + 1)
  {
  }

  /** An absent base is always fine. */
  lemma {:induction false} EmptyBaseOk(h: Key -> nat, a: Ref, b: Ref, path: seq<nat>)
    ensures BaseOk(h, a, b, Empty, path)
    decreases Height(a)
  {
    if a.Cell? && a.node.Inner? {
      forall s | 0 <= s < BRANCH ensures BaseOk(h, Kid(a, s), Kid(b, s), Kid(Empty, s), path + [s]) {
        KidLower(a, s);
        EmptyBaseOk(h, Kid(a, s), Kid(b, s), path + [s]);
      }
    }
  }

  lemma MergedLeaf(ea: map<Key, Val>, eb: map<Key, Val>, ed: map<Key, Val>, k: Key)
    requires MergeLeaf(ea, eb, ed).Some?
    ensures Law(Find(ea, k), Find(eb, k), Find(ed, k), Find(MergeLeaf(ea, eb, ed).value, k))
  {
    if k in ea.Keys + eb.Keys + ed.Keys {
      assert Pick(Find(ea, k), Find(eb, k), Find(ed, k)).Some?;
    }
  }

  /** Merging as if the base were absent is right exactly when no key of the real base was
      deleted on one side only. */
  lemma AbsentBase(h: Key -> nat, a: Ref, b: Ref, base: Ref, m: Ref, path: seq<nat>)
    requires Lawful(h, a, b, Empty, m, path)
    ensures Lawful(h, a, b, base, m, path) <==> NoLoneDelete(h, a, b, base, path)
  {
    hide OnPath;
    if NoLoneDelete(h, a, b, base, path) {
      forall k | OnPath(h, k, path)
        ensures Law(Value(h, a, k, |path|), Value(h, b, k, |path|), Value(h, base, k, |path|), Value(h, m, k, |path|))
      {
      }
    }
    if Lawful(h, a, b, base, m, path) {
      forall k | OnPath(h, k, path) && Value(h, base, k, |path|).Some?
        ensures Value(h, a, k, |path|).Some? <==> Value(h, b, k, |path|).Some?
      {
        assert Law(Value(h, a, k, |path|), Value(h, b, k, |path|), None, Value(h, m, k, |path|));
      }
    }
  }

  lemma LeafCase(h: Key -> nat, store: Store, a: Ref, b: Ref, base: Ref, path: seq<nat>)
    requires Present(store, a) && Present(store, b) && Present(store, base)
    requires a != b && a != base && b != base
    requires a.Cell? && b.Cell? && a.node.Leaf? && b.node.Leaf? && MergeRef(store, a, b, base).Some?
    ensures BaseOk(h, a, b, base, path) <==> Lawful(h, a, b, base, MergeRef(store, a, b, base).value, path)
  {
    hide OnPath;
    var ea, eb, ed := a.node.entries, b.node.entries, BaseEntries(Read(store, base));
    var m := MergeRef(store, a, b, base).value;
    var d := if SameShape(a, base) then base else Empty;
    forall k | OnPath(h, k, path)
      ensures Law(Value(h, a, k, |path|), Value(h, b, k, |path|), Value(h, d, k, |path|), Value(h, m, k, |path|))
    {
      MergedLeaf(ea, eb, ed, k);
    }
    if !SameShape(a, base) {
      AbsentBase(h, a, b, base, m, path);
    }
  }

  /** The slots of a merged node are lawful one by one exactly when the node is. */
  lemma SlotsLawful(h: Key -> nat, a: Ref, b: Ref, d: Ref, slots: seq<Ref>, path: seq<nat>)
    requires |slots| == BRANCH
    requires a.Cell? && a.node.Inner? && Dense(a.node.bitmap, a.node.children)
    requires b.Cell? && b.node.Inner? && Dense(b.node.bitmap, b.node.children)
    requires d.Empty? || (d.node.Inner? && Dense(d.node.bitmap, d.node.children))
    ensures (forall s :: 0 <= s < BRANCH ==> Lawful(h, Kid(a, s), Kid(b, s), Kid(d, s), slots[s], path + [s]))
            <==> Lawful(h, a, b, d, Pack(slots), path)
  {
    hide OnPath, Slot, Value, Pack, Kid, Law;
    forall k
      ensures var s := Slot(h, k, |path|);
        && Value(h, a, k, |path|) == Value(h, Kid(a, s), k, |path| + 1)
        && Value(h, b, k, |path|) == Value(h, Kid(b, s), k, |path| + 1)
        && Value(h, d, k, |path|) == Value(h, Kid(d, s), k, |path| + 1)
        && Value(h, Pack(slots), k, |path|) == Value(h, slots[s], k, |path| + 1)
    {
      KidValue(h, a, k, |path|);
      KidValue(h, b, k, |path|);
      KidValue(h, d, k, |path|);
      PackView(h, slots, k, |path|);
    }
    if Lawful(h, a, b, d, Pack(slots), path) {
      forall s | 0 <= s < BRANCH ensures Lawful(h, Kid(a, s), Kid(b, s), Kid(d, s), slots[s], path + [s]) {
        forall k | OnPath(h, k, path + [s])
          ensures Law(Value(h, Kid(a, s), k, |path| + 1), Value(h, Kid(b, s), k, |path| + 1),
                      Value(h, Kid(d, s), k, |path| + 1), Value(h, slots[s], k, |path| + 1))
        {
          OnPathLess(h, k, path, s);
        }
      }
    }
    if forall s :: 0 <= s < BRANCH ==> Lawful(h, Kid(a, s), Kid(b, s), Kid(d, s), slots[s], path + [s]) {
      forall k | OnPath(h, k, path)
        ensures Law(Value(h, a, k, |path|), Value(h, b, k, |path|), Value(h, d, k, |path|), Value(h, Pack(slots), k, |path|))
      {
        OnPathMore(h, k, path);
        var s := Slot(h, k, |path|);
        assert Lawful(h, Kid(a, s), Kid(b, s), Kid(d, s), slots[s], path + [s]);
      }
    }
  }

  lemma KidPresent(store: Store, r: Ref, s: nat)
    requires Present(store, r) && s < BRANCH
    ensures Present(store, Kid(r, s))
  {
  }

  /** A successful merge obeys the law at every key if, and only if, the base is usable at
      every compared position. */
  lemma {:induction false} MergeCorrect(h: Key -> nat, store: Store, a: Ref, b: Ref, base: Ref, path: seq<nat>)
    requires Present(store, a) && Present(store, b) && Present(store, base)
    requires MergeRef(store, a, b, base).Some?
    ensures BaseOk(h, a, b, base, path) <==> Lawful(h, a, b, base, MergeRef(store, a, b, base).value, path)
    decreases Height(a)
  {
    hide OnPath, Slot, Value, Lawful, Pack, MergeSlots, NoLoneDelete;
    if a == b || a == base || b == base {
      TrivialLaw(h, a, b, base, path);
    } else if a.node.Leaf? {
      LeafCase(h, store, a, b, base, path);
    } else {
      InnerShape(store, a, b, base);
      var d := if SameShape(a, base) then base else Empty;
      var slots := MergeSlots(store, a.node.bitmap, a.node.children, b.node.bitmap, b.node.children,
                              BaseSlots(Read(store, base)).0, BaseSlots(Read(store, base)).1, BRANCH).value;
      forall s | 0 <= s < BRANCH
        ensures BaseOk(h, Kid(a, s), Kid(b, s), Kid(d, s), path + [s])
                <==> Lawful(h, Kid(a, s), Kid(b, s), Kid(d, s), slots[s], path + [s])
      {
        SlotCase(store, a, b, base, s);
        KidLower(a, s);
        KidPresent(store, a, s);
        KidPresent(store, b, s);
        KidPresent(store, d, s);
        MergeCorrect(h, store, Kid(a, s), Kid(b, s), Kid(d, s), path + [s]);
      }
      SlotsLawful(h, a, b, d, slots, path);
      if !SameShape(a, base) {
        forall s | 0 <= s < BRANCH ensures BaseOk(h, Kid(a, s), Kid(b, s), Kid(Empty, s), path + [s]) {
          EmptyBaseOk(h, Kid(a, s), Kid(b, s), path + [s]);
        }
        AbsentBase(h, a, b, base, MergeRef(store, a, b, base).value, path);
      }
    }
  }

  lemma TrivialLaw(h: Key -> nat, a: Ref, b: Ref, base: Ref, path: seq<nat>)
    ensures a == b ==> Lawful(h, a, b, base, a, path)
    ensures a == base ==> Lawful(h, a, b, base, b, path)
    ensures b == base ==> Lawful(h, a, b, base, a, path)
  {
  }

  ghost predicate Branching(r: Ref) {
    r.Cell? && r.node.Inner? && Dense(r.node.bitmap, r.node.children)
  }

  lemma InnerShape(store: Store, a: Ref, b: Ref, base: Ref)
    requires a != b && a != base && b != base && a.Cell? && a.node.Inner?
    requires Present(store, a) && Present(store, b) && Present(store, base)
    requires MergeRef(store, a, b, base).Some?
    ensures Branching(a) && Branching(b) && (base.Empty? || base.node.Leaf? || Branching(base))
    ensures var (bd, cd) := BaseSlots(Read(store, base));
      var slots := MergeSlots(store, a.node.bitmap, a.node.children, b.node.bitmap, b.node.children, bd, cd, BRANCH);
      slots.Some? && MergeRef(store, a, b, base) == Some(Pack(slots.value))
  {
  }

  lemma SlotCase(store: Store, a: Ref, b: Ref, base: Ref, s: nat)
    requires Branching(a) && Branching(b) && (base.Empty? || base.node.Leaf? || Branching(base)) && s < BRANCH
    requires Present(store, base)
    requires var (bd, cd) := BaseSlots(Read(store, base));
      MergeSlots(store, a.node.bitmap, a.node.children, b.node.bitmap, b.node.children, bd, cd, BRANCH).Some?
    ensures var (bd, cd) := BaseSlots(Read(store, base));
      var slots := MergeSlots(store, a.node.bitmap, a.node.children, b.node.bitmap, b.node.children, bd, cd, BRANCH).value;
      var d := if SameShape(a, base) then base else Empty;
      MergeRef(store, Kid(a, s), Kid(b, s), Kid(d, s)) == Some(slots[s])
  {
    hide MergeRef, MergeSlots, Rank;
    var (bd, cd) := BaseSlots(Read(store, base));
    SlotMerged(store, a.node.bitmap, a.node.children, b.node.bitmap, b.node.children, bd, cd, BRANCH, s);
  }

  /** A base leaf where both sides have branched: a key that A deleted and B kept comes back. */
  lemma DeletedKeyReturns(h: Key -> nat, store: Store, a: Ref, b: Ref, base: Ref, k: Key)
    requires Present(store, a) && Present(store, b) && Present(store, base)
    requires a.Cell? && b.Cell? && base.Cell? && a.node.Inner? && b.node.Inner? && base.node.Leaf? && a != b
    requires Value(h, base, k, 0).Some? && Value(h, a, k, 0) == None && Value(h, b, k, 0) == Value(h, base, k, 0)
    requires MergeRef(store, a, b, base).Some?
    ensures !Lawful(h, a, b, base, MergeRef(store, a, b, base).value, [])
  {
    assert OnPath(h, k, []);
    assert !NoLoneDelete(h, a, b, base, []);
    MergeCorrect(h, store, a, b, base, []);
  }

  // ---------- alignment, reachability, conservation ----------

  ghost predicate AlignedOrEmpty(h: Key -> nat, r: Ref, path: seq<nat>) { r.Empty? || Aligned(h, r, path) }

  lemma PackAligned(h: Key -> nat, slots: seq<Ref>, path: seq<nat>)
    requires |slots| == BRANCH && |path| < MAX_LEVELS
    requires forall s :: 0 <= s < BRANCH ==> AlignedOrEmpty(h, slots[s], path + [s])
    ensures AlignedOrEmpty(h, Pack(slots), path)
  {
    hide Rank, Aligned;
    var b, ch := Bits(slots), Kids(slots, BRANCH);
    forall s | 0 <= s < BRANCH && b[s] ensures Aligned(h, Child(b, ch, s), path + [s]) {
      KidAt(slots, BRANCH, s);
      assert AlignedOrEmpty(h, slots[s], path + [s]);
    }
    if ch != [] {
      AlignedInner(h, b, ch, path);
    }
  }

  /** Merging aligned tries gives an aligned trie. */
  lemma {:induction false} MergeAligned(h: Key -> nat, store: Store, a: Ref, b: Ref, base: Ref, path: seq<nat>)
    requires Present(store, a) && Present(store, b) && Present(store, base)
    requires AlignedOrEmpty(h, a, path) && AlignedOrEmpty(h, b, path)
    requires MergeRef(store, a, b, base).Some?
    ensures AlignedOrEmpty(h, MergeRef(store, a, b, base).value, path)
    decreases Height(a)
  {
    hide OnPath, Slot, Value, Pack, MergeSlots, Rank;
    if !(a == b || a == base || b == base) && a.node.Inner? {
      InnerShape(store, a, b, base);
      var d := if SameShape(a, base) then base else Empty;
      var slots := MergeSlots(store, a.node.bitmap, a.node.children, b.node.bitmap, b.node.children,
                              BaseSlots(Read(store, base)).0, BaseSlots(Read(store, base)).1, BRANCH).value;
      forall s | 0 <= s < BRANCH ensures AlignedOrEmpty(h, slots[s], path + [s]) {
        SlotCase(store, a, b, base, s);
        KidLower(a, s);
        KidPresent(store, a, s);
        KidPresent(store, b, s);
        KidPresent(store, d, s);
        MergeAligned(h, store, Kid(a, s), Kid(b, s), Kid(d, s), path + [s]);
      }
      PackAligned(h, slots, path);
    }
  }

  ghost function Amount(v: Option<Val>): int { if v.Some? then v.value else 0 }

  /** Sum of the values a trie holds at a finite set of keys. */
  ghost function Total(h: Key -> nat, r: Ref, keys: set<Key>): int {
    if keys == {} then 0
    else
      var k :| k in keys;
      Amount(Value(h, r, k, 0)) + Total(h, r, keys - {k})
  }

  lemma {:induction false} TotalSplit(h: Key -> nat, r: Ref, keys: set<Key>, k: Key)
    requires k in keys
    ensures Total(h, r, keys) == Amount(Value(h, r, k, 0)) + Total(h, r, keys - {k})
    decreases |keys|
  {
    hide Value;
    var p :| p in keys && Total(h, r, keys) == Amount(Value(h, r, p, 0)) + Total(h, r, keys - {p});
    if p != k {
      TotalSplit(h, r, keys - {p}, k);
      TotalSplit(h, r, keys - {k}, p);
      assert keys - {p} - {k} == keys - {k} - {p};
    }
  }

  /** When no key changed on both sides, a lawful merge conserves totals: what each side added
      is added once. */
  lemma {:induction false} MergeConserves(h: Key -> nat, a: Ref, b: Ref, base: Ref, m: Ref, keys: set<Key>)
    requires Lawful(h, a, b, base, m, [])
    requires forall k :: Value(h, a, k, 0) == Value(h, base, k, 0) || Value(h, b, k, 0) == Value(h, base, k, 0)
    ensures Total(h, m, keys) == Total(h, a, keys) + Total(h, b, keys) - Total(h, base, keys)
    decreases |keys|
  {
    hide Value;
    if keys != {} {
      var k :| k in keys;
      assert OnPath(h, k, []);
      TotalSplit(h, a, keys, k);
      TotalSplit(h, b, keys, k);
      TotalSplit(h, base, keys, k);
      TotalSplit(h, m, keys, k);
      MergeConserves(h, a, b, base, m, keys - {k});
    }
  }

  // ---------- the merge at work ----------

  ghost function Cells(out: seq<Ref>): Store { set r | r in out }

  /** `merged` holds the picks of every key visited so far and nothing else. */
  ghost predicate Picked(ea: map<Key, Val>, eb: map<Key, Val>, ed: map<Key, Val>, visited: set<Key>, merged: map<Key, Val>) {
    && (forall k :: k in visited ==> Pick(Find(ea, k), Find(eb, k), Find(ed, k)) == Some(Find(merged, k)))
    && merged.Keys <= visited
  }

  lemma PickMore(ea: map<Key, Val>, eb: map<Key, Val>, ed: map<Key, Val>, visited: set<Key>, merged: map<Key, Val>, k: Key)
    requires Picked(ea, eb, ed, visited, merged) && k !in visited
    requires Pick(Find(ea, k), Find(eb, k), Find(ed, k)).Some?
    ensures var v := Pick(Find(ea, k), Find(eb, k), Find(ed, k)).value;
      Picked(ea, eb, ed, visited + {k}, if v.Some? then merged[k := v.value] else merged)
  {
    hide Pick;
  }

  lemma AllPicked(ea: map<Key, Val>, eb: map<Key, Val>, ed: map<Key, Val>, merged: map<Key, Val>)
    requires Picked(ea, eb, ed, ea.Keys + eb.Keys + ed.Keys, merged)
    ensures MergeLeaf(ea, eb, ed) == Some(merged)
  {
    hide Pick;
    var m := MergeLeaf(ea, eb, ed).value;
    forall k ensures Find(m, k) == Find(merged, k) {
      if k in ea.Keys + eb.Keys + ed.Keys {
        assert Pick(Find(ea, k), Find(eb, k), Find(ed, k)) == Some(Find(merged, k));
      }
    }
    SameFinds(m, merged);
  }

  lemma SameFinds(m: map<Key, Val>, n: map<Key, Val>)
    requires forall k :: Find(m, k) == Find(n, k)
    ensures m == n
  {
    forall k ensures k in m <==> k in n {
      assert Find(m, k) == Find(n, k);
    }
    forall k | k in m ensures m[k] == n[k] {
      assert Find(m, k) == Find(n, k);
    }
  }

  /** Walk two leaves key by key, in whatever order. */
  method MergeEntries(ea: map<Key, Val>, eb: map<Key, Val>, ed: map<Key, Val>) returns (r: Option<map<Key, Val>>)
    ensures r == MergeLeaf(ea, eb, ed)
  {
    hide Pick, Picked, Find;
    var all := ea.Keys + eb.Keys + ed.Keys;
    var left := all;
    var merged: map<Key, Val> := map[];
    NothingPicked(ea, eb, ed);
    assert all - left == {};
    while left != {}
      invariant left <= all && Picked(ea, eb, ed, all - left, merged)
      decreases |left|
    {
      var k :| k in left;
      var picked := Pick(Find(ea, k), Find(eb, k), Find(ed, k));
      if picked.None? {
        return None;
      }
      PickMore(ea, eb, ed, all - left, merged, k);
      assert all - (left - {k}) == all - left + {k};
      if picked.value.Some? {
        merged := merged[k := picked.value.value];
      }
      left := left - {k};
    }
    assert all - left == all;
    AllPicked(ea, eb, ed, merged);
    return Some(merged);
  }

  lemma NothingPicked(ea: map<Key, Val>, eb: map<Key, Val>, ed: map<Key, Val>)
    ensures Picked(ea, eb, ed, {}, map[])
  {
  }

  /** The recursive merge: node cells it synthesizes are pushed to `out`. Every node of a
      merged tree is already in the store or among them. */
  method MergeAt(store: Store, a: Ref, b: Ref, base: Ref, out: seq<Ref>) returns (r: Option<Ref>, out': seq<Ref>)
    requires Present(store, a) && Present(store, b)
    ensures r == MergeRef(store, a, b, base)
    ensures out <= out'
    ensures r.Some? ==> Present(store + Cells(out'), r.value)
    decreases Height(a), BRANCH + 1
  {
    hide MergeSlots, Rank, Pack, Cells, MergeLeaf;
    out' := out;
    if a == b || a == base || b == base {
      r := if a == b then Some(a) else if a == base then Some(b) else Some(a);
      PresentGrows(store, store + Cells(out), r.value);
      return;
    }
    var na, nb := Read(store, a), Read(store, b);
    if na.None? || nb.None? || na.value.Leaf? != nb.value.Leaf? {
      return None, out;
    }
    if na.value.Leaf? {
      var merged := MergeEntries(na.value.entries, nb.value.entries, BaseEntries(Read(store, base)));
      if merged.None? {
        return None, out;
      }
      if merged.value == map[] {
        return Some(Empty), out;
      }
      var leaf := Cell(Leaf(merged.value));
      out' := out + [leaf];
      LeafOut(store, out, leaf);
      r := Some(leaf);
    } else {
      var (bd, cd) := BaseSlots(Read(store, base));
      r, out' := MergeNodes(store, a, b, bd, cd, out);
    }
  }

  lemma LeafOut(store: Store, out: seq<Ref>, leaf: Ref)
    requires leaf.Cell? && leaf.node.Leaf?
    ensures Present(store + Cells(out + [leaf]), leaf)
  {
  }

  /** Merge slot by slot, collecting the non-empty results. */
  method MergeNodes(store: Store, a: Ref, b: Ref, bd: seq<bool>, cd: seq<Ref>, out: seq<Ref>)
    returns (r: Option<Ref>, out': seq<Ref>)
    requires Branching(a) && Branching(b) && Dense(bd, cd) && Present(store, a) && Present(store, b)
    ensures var slots := MergeSlots(store, a.node.bitmap, a.node.children, b.node.bitmap, b.node.children, bd, cd, BRANCH);
      r == if slots.None? then None else Some(Pack(slots.value))
    ensures out <= out'
    ensures r.Some? ==> Present(store + Cells(out'), r.value)
    decreases Height(a), BRANCH
  {
    hide MergeRef, MergeSlots, Rank, Cells, Child, Present, Kids, Pack;
    var (ba, ca, bb, cb) := (a.node.bitmap, a.node.children, b.node.bitmap, b.node.children);
    out' := out;
    var bitmap: seq<bool> := seq(BRANCH, _ => false);
    var children: seq<Ref> := [];
    ghost var slots: seq<Ref> := [];
    var s := 0;
    SlotsNone(store, ba, ca, bb, cb, bd, cd);
    while s < BRANCH
      invariant s <= BRANCH == |bitmap| && out <= out' && |slots| == s
      invariant MergeSlots(store, ba, ca, bb, cb, bd, cd, s) == Some(slots)
      invariant forall t :: 0 <= t < BRANCH ==> bitmap[t] == (t < s && slots[t].Cell?)
      invariant children == Kids(slots, s)
      invariant forall t :: 0 <= t < s ==> Present(store + Cells(out'), slots[t])
    {
      KidLower(a, s);
      KidPresent(store, a, s);
      KidPresent(store, b, s);
      ghost var before := out';
      var m;
      SlotsNext(store, ba, ca, bb, cb, bd, cd, s);
      m, out' := MergeAt(store, Child(ba, ca, s), Child(bb, cb, s), Child(bd, cd, s), out');
      if m.None? {
        NoneStays(store, ba, ca, bb, cb, bd, cd, s + 1, BRANCH);
        return None, out';
      }
      StillPresent(store, before, out', slots);
      KidsMore(slots, m.value);
      if m.value != Empty {
        children := children + [m.value];
        bitmap := bitmap[s := true];
      }
      slots := slots + [m.value];
      s := s + 1;
    }
    assert bitmap == Bits(slots);
    PackIs(slots);
    if children == [] {
      assert Present(store + Cells(out'), Empty) by { EmptyPresent(store + Cells(out')); }
      return Some(Empty), out';
    }
    var node := Cell(Inner(bitmap, children));
    NodeOut(store, out', slots);
    out' := out' + [node];
    r := Some(node);
  }

  lemma SlotsNone(store: Store, ba: seq<bool>, ca: seq<Ref>, bb: seq<bool>, cb: seq<Ref>, bd: seq<bool>, cd: seq<Ref>)
    requires Dense(ba, ca) && Dense(bb, cb) && Dense(bd, cd)
    ensures MergeSlots(store, ba, ca, bb, cb, bd, cd, 0) == Some([]) && Kids([], 0) == []
  {
  }

  lemma SlotsNext(store: Store, ba: seq<bool>, ca: seq<Ref>, bb: seq<bool>, cb: seq<Ref>, bd: seq<bool>, cd: seq<Ref>, s: nat)
    requires Dense(ba, ca) && Dense(bb, cb) && Dense(bd, cd) && s < BRANCH
    requires MergeSlots(store, ba, ca, bb, cb, bd, cd, s).Some?
    ensures var m := MergeRef(store, Child(ba, ca, s), Child(bb, cb, s), Child(bd, cd, s));
      MergeSlots(store, ba, ca, bb, cb, bd, cd, s + 1)
      == if m.None? then None else Some(MergeSlots(store, ba, ca, bb, cb, bd, cd, s).value + [m.value])
  {
    hide MergeRef, Child, Rank;
  }

  lemma PackIs(slots: seq<Ref>)
    requires |slots| == BRANCH
    ensures Pack(slots) == if Kids(slots, BRANCH) == [] then Empty else Cell(Inner(Bits(slots), Kids(slots, BRANCH)))
  {
  }

  lemma EmptyPresent(store: Store)
    ensures Present(store, Empty)
  {
  }

  lemma NodeOut(store: Store, out: seq<Ref>, slots: seq<Ref>)
    requires |slots| == BRANCH && forall t :: 0 <= t < BRANCH ==> Present(store + Cells(out), slots[t])
    ensures var node := Cell(Inner(Bits(slots), Kids(slots, BRANCH)));
      Present(store + Cells(out + [node]), node)
  {
    hide Rank;
    var b, ch := Bits(slots), Kids(slots, BRANCH);
    var node := Cell(Inner(b, ch));
    var store' := store + Cells(out + [node]);
    forall c | c in ch ensures Present(store', c) {
      var t :| 0 <= t < BRANCH && slots[t] == c;
      PresentGrows(store + Cells(out), store', c);
    }
  }

  lemma StillPresent(store: Store, before: seq<Ref>, out: seq<Ref>, slots: seq<Ref>)
    requires before <= out && forall t :: 0 <= t < |slots| ==> Present(store + Cells(before), slots[t])
    ensures forall t :: 0 <= t < |slots| ==> Present(store + Cells(out), slots[t])
  {
    forall t | 0 <= t < |slots| ensures Present(store + Cells(out), slots[t]) {
      PresentGrows(store + Cells(before), store + Cells(out), slots[t]);
    }
  }

  lemma {:induction false} KidsSame(slots: seq<Ref>, r: Ref, n: nat)
    requires n <= |slots|
    ensures Kids(slots + [r], n) == Kids(slots, n)
    decreases n
  {
    hide Rank, Bits, Kids;
    KidsStep(slots, n);
    KidsStep(slots + [r], n);
    if n > 0 {
      KidsSame(slots, r, n - 1);
      assert (slots + [r])[n - 1] == slots[n - 1];
    }
  }

  lemma KidsStep(slots: seq<Ref>, n: nat)
    requires n <= |slots|
    ensures Kids(slots, n) == if n == 0 then [] else Kids(slots, n - 1) + if slots[n - 1].Cell? then [slots[n - 1]] else []
  {
    hide Rank, Bits;
  }

  lemma KidsMore(slots: seq<Ref>, r: Ref)
    ensures Kids(slots + [r], |slots| + 1) == Kids(slots, |slots|) + if r.Cell? then [r] else []
  {
    KidsSame(slots, r, |slots|);
  }

  lemma {:induction false} NoneStays(store: Store, ba: seq<bool>, ca: seq<Ref>, bb: seq<bool>, cb: seq<Ref>,
                                     bd: seq<bool>, cd: seq<Ref>, n: nat, m: nat)
    requires Dense(ba, ca) && Dense(bb, cb) && Dense(bd, cd) && n <= m <= BRANCH
    requires MergeSlots(store, ba, ca, bb, cb, bd, cd, n).None?
    ensures MergeSlots(store, ba, ca, bb, cb, bd, cd, m).None?
    decreases m
  {
    hide MergeRef, Child;
    if n < m {
      NoneStays(store, ba, ca, bb, cb, bd, cd, n, m - 1);
    }
  }
}
