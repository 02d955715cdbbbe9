/** Persistent map: a 32-way trie over key hashes, one content-addressed cell per node.

    A cell is named by its contents. `Ref` is that name: `Empty` for the reserved hash 0, or
    the name of a node, where different nodes have different names. A leaf is modelled by its
    contents, a finite map; the order its entries are serialized in is not part of it. */
module Hamt {
  import opened Options

  type Key = nat
  type Val = int

  datatype Ref = Empty | Cell(node: Node)

  datatype Node =
    | Inner(bitmap: seq<bool>, children: seq<Ref>)
    | Leaf(entries: map<Key, Val>)

  const BRANCH: nat := 32
  const MAX_LEVELS: nat := 10

  function Pow32(n: nat): (p: nat)
    ensures p > 0
  {
    if n == 0 then 1 else 32 * Pow32(n - 1)
  }

  /** Five bits of the key's hash: the slot it takes at a level. */
  function Slot(h: Key -> nat, k: Key, level: nat): (s: nat)
    ensures s < BRANCH
  {
    (h(k) / Pow32(level)) % BRANCH
  }

  // ---------- bitmap and dense child vector ----------

  /** Number of set bits below `s`: the position of slot `s` in the dense vector. */
  function Rank(b: seq<bool>, s: nat): (n: nat)
    requires s <= |b|
    ensures n <= s
  {
    if s == 0 then 0 else Rank(b, s - 1) + if b[s - 1] then 1 else 0
  }

  lemma {:induction false} RankMono(b: seq<bool>, s: nat, t: nat)
    requires s <= t <= |b|
    ensures Rank(b, s) <= Rank(b, t)
    ensures s < t && b[s] ==> Rank(b, s) < Rank(b, t)
    decreases t
  {
    if s < t {
      RankMono(b, s, t - 1);
    }
  }

  predicate Dense(b: seq<bool>, ch: seq<Ref>) { |b| == BRANCH && |ch| == Rank(b, BRANCH) }

  /** The child in slot `s`, `Empty` when its bit is clear. */
  function Child(b: seq<bool>, ch: seq<Ref>, s: nat): (c: Ref)
    requires Dense(b, ch) && s < BRANCH
    ensures b[s] ==> c in ch
  {
    RankMono(b, s, BRANCH);
    if b[s] then ch[Rank(b, s)] else Empty
  }

  lemma {:induction false} RankUpdate(b: seq<bool>, s: nat, v: bool, t: nat)
    requires s < |b| && t <= |b|
    ensures Rank(b[s := v], t) == Rank(b, t) + if s < t then (if v then 1 else 0) - (if b[s] then 1 else 0) else 0
    decreases t
  {
    if t > 0 {
      RankUpdate(b, s, v, t - 1);
    }
  }

  function Insert(ch: seq<Ref>, i: nat, c: Ref): seq<Ref>
    requires i <= |ch|
  {
    ch[..i] + [c] + ch[i..]
  }

  function Delete(ch: seq<Ref>, i: nat): seq<Ref>
    requires i < |ch|
  {
    ch[..i] + ch[i + 1..]
  }

  lemma InsertChild(b: seq<bool>, ch: seq<Ref>, s: nat, c: Ref)
    requires Dense(b, ch) && s < BRANCH && !b[s]
    ensures Rank(b, s) <= |ch| && Dense(b[s := true], Insert(ch, Rank(b, s), c))
    ensures forall t :: 0 <= t < BRANCH ==>
              Child(b[s := true], Insert(ch, Rank(b, s), c), t) == if t == s then c else Child(b, ch, t)
  {
    RankMono(b, s, BRANCH);
    RankUpdate(b, s, true, BRANCH);
    var b', ch' := b[s := true], Insert(ch, Rank(b, s), c);
    forall t | 0 <= t < BRANCH ensures Child(b', ch', t) == if t == s then c else Child(b, ch, t) {
      RankUpdate(b, s, true, t);
      RankMono(b, t, BRANCH);
      if t < s {
        RankMono(b, t, s);
      } else if s < t {
        RankMono(b, s, t);
      }
    }
  }

  lemma UpdateChild(b: seq<bool>, ch: seq<Ref>, s: nat, c: Ref)
    requires Dense(b, ch) && s < BRANCH && b[s]
    ensures Rank(b, s) < |ch| && Dense(b, ch[Rank(b, s) := c])
    ensures forall t :: 0 <= t < BRANCH ==>
              Child(b, ch[Rank(b, s) := c], t) == if t == s then c else Child(b, ch, t)
  {
    RankMono(b, s, BRANCH);
    var ch' := ch[Rank(b, s) := c];
    forall t | 0 <= t < BRANCH ensures Child(b, ch', t) == if t == s then c else Child(b, ch, t) {
      RankMono(b, t, BRANCH);
      if t < s {
        RankMono(b, t, s);
      } else if s < t {
        RankMono(b, s, t);
      }
    }
  }

  lemma RemoveChild(b: seq<bool>, ch: seq<Ref>, s: nat)
    requires Dense(b, ch) && s < BRANCH && b[s]
    ensures Rank(b, s) < |ch| && Dense(b[s := false], Delete(ch, Rank(b, s)))
    ensures forall t :: 0 <= t < BRANCH ==>
              Child(b[s := false], Delete(ch, Rank(b, s)), t) == if t == s then Empty else Child(b, ch, t)
  {
    RankMono(b, s, BRANCH);
    RankUpdate(b, s, false, BRANCH);
    var b', ch' := b[s := false], Delete(ch, Rank(b, s));
    forall t | 0 <= t < BRANCH ensures Child(b', ch', t) == if t == s then Empty else Child(b, ch, t) {
      RankUpdate(b, s, false, t);
      RankMono(b, t, BRANCH);
      if t < s {
        RankMono(b, t, s);
      } else if s < t {
        RankMono(b, s, t);
      }
    }
  }

  /** Every member of the dense vector is the child of some slot. */
  lemma {:induction false} ChildSlot(b: seq<bool>, ch: seq<Ref>, i: nat, n: nat) returns (s: nat)
    requires Dense(b, ch) && n <= BRANCH && i < Rank(b, n)
    ensures s < n && b[s] && Rank(b, s) == i && i < |ch| && Child(b, ch, s) == ch[i]
    decreases n
  {
    RankMono(b, n, BRANCH);
    if b[n - 1] && Rank(b, n - 1) == i {
      s := n - 1;
    } else {
      s := ChildSlot(b, ch, i, n - 1);
    }
  }

  // ---------- lookup ----------

  /** Cells present in the store. */
  type Store = set<Ref>

  /** A cell whose bitmap does not match its child vector does not decode. */
  function Read(store: Store, r: Ref): (n: Option<Node>)
    ensures n.Some? && n.value.Inner? ==> Dense(n.value.bitmap, n.value.children)
  {
    if r.Cell? && r in store && (r.node.Inner? ==> Dense(r.node.bitmap, r.node.children)) then Some(r.node) else None
  }

  function Find(m: map<Key, Val>, k: Key): Option<Val> { if k in m then Some(m[k]) else None }

  /** Lookup as the code does it: follow the key's slots until a leaf. */
  function GetAt(h: Key -> nat, store: Store, r: Ref, k: Key, level: nat): Option<Val>
    decreases r
  {
    match Read(store, r)
    case None => None
    case Some(Leaf(e)) => Find(e, k)
    case Some(Inner(b, ch)) =>
      var s := Slot(h, k, level);
      if b[s] then
        RankMono(b, s, BRANCH);
        GetAt(h, store, ch[Rank(b, s)], k, level + 1)
      else None
  }

  /** What a tree with all its cells present holds at `k`. */
  ghost function Value(h: Key -> nat, r: Ref, k: Key, level: nat): Option<Val>
    decreases r
  {
    match r
    case Empty => None
    case Cell(Leaf(e)) => Find(e, k)
    case Cell(Inner(b, ch)) =>
      if Dense(b, ch) then
        var s := Slot(h, k, level);
        if b[s] then
          RankMono(b, s, BRANCH);
          Value(h, ch[Rank(b, s)], k, level + 1)
        else None
      else None
  }

  /** Every cell reachable from `r` is in the store, and bitmaps match their child vectors. */
  ghost predicate Present(store: Store, r: Ref) {
    r.Empty? || (r in store && (r.node.Inner? ==>
      Dense(r.node.bitmap, r.node.children) && forall c :: c in r.node.children ==> Present(store, c)))
  }

  lemma {:induction false} GetIsValue(h: Key -> nat, store: Store, r: Ref, k: Key, level: nat)
    requires Present(store, r)
    ensures GetAt(h, store, r, k, level) == Value(h, r, k, level)
    decreases r
  {
    if r.Cell? && r.node.Inner? {
      var b, ch := r.node.bitmap, r.node.children;
      var s := Slot(h, k, level);
      if b[s] {
        RankMono(b, s, BRANCH);
        GetIsValue(h, store, ch[Rank(b, s)], k, level + 1);
      }
    }
  }

  /** Writing more cells changes nothing that was there: old roots keep their contents. */
  lemma {:induction false} PresentGrows(store: Store, store': Store, r: Ref)
    requires Present(store, r) && store <= store'
    ensures Present(store', r)
    decreases r
  {
    if r.Cell? && r.node.Inner? {
      forall c | c in r.node.children ensures Present(store', c) {
        PresentGrows(store, store', c);
      }
    }
  }

  lemma ValueInner(h: Key -> nat, b: seq<bool>, ch: seq<Ref>, k: Key, level: nat)
    requires Dense(b, ch)
    ensures Value(h, Cell(Inner(b, ch)), k, level) == Value(h, Child(b, ch, Slot(h, k, level)), k, level + 1)
  {
  }

  // ---------- alignment ----------

  /** The key's slots down from the root spell `path`. */
  ghost predicate OnPath(h: Key -> nat, k: Key, path: seq<nat>) {
    forall i :: 0 <= i < |path| ==> Slot(h, k, i) == path[i]
  }

  /** A well-formed subtree at `path`: keys sit where lookup will search for them, there is no
      branching past the last level, and no child is empty. */
  ghost predicate Aligned(h: Key -> nat, r: Ref, path: seq<nat>)
    decreases r
  {
    match r
    case Empty => false
    case Cell(Leaf(e)) => e != map[] && forall k :: k in e ==> OnPath(h, k, path)
    case Cell(Inner(b, ch)) =>
      && |path| < MAX_LEVELS && Dense(b, ch) && ch != []
      && forall s :: 0 <= s < BRANCH && b[s] ==>
           (RankMono(b, s, BRANCH); Aligned(h, ch[Rank(b, s)], path + [s]))
  }

  /** A pmap root: the empty tree or an aligned one. */
  ghost predicate Root(h: Key -> nat, r: Ref) { r.Empty? || Aligned(h, r, []) }

  lemma AlignedChild(h: Key -> nat, b: seq<bool>, ch: seq<Ref>, path: seq<nat>, s: nat)
    requires Aligned(h, Cell(Inner(b, ch)), path) && s < BRANCH && b[s]
    ensures Aligned(h, Child(b, ch, s), path + [s])
  {
  }

  lemma AlignedInner(h: Key -> nat, b: seq<bool>, ch: seq<Ref>, path: seq<nat>)
    requires |path| < MAX_LEVELS && Dense(b, ch) && ch != []
    requires forall s :: 0 <= s < BRANCH && b[s] ==> Aligned(h, Child(b, ch, s), path + [s])
    ensures Aligned(h, Cell(Inner(b, ch)), path)
  {
    forall s | 0 <= s < BRANCH && b[s] ensures Aligned(h, Child(b, ch, s), path + [s]) {
    }
  }
}
