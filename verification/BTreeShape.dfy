/** Balance and occupancy of B+-trees grown by insertions alone. */
module BTreeShape {
  import opened BTree
  import opened BTreeSet
  import opened PBTree

  const HALF: nat := B / 2

  /** A subtree of height `h` below the root: every node at least half full, all leaves level. */
  ghost predicate Packed(r: Ref, h: nat)
    decreases h, 0
  {
    && r.Cell?
    && match r.node
       case Leaf(e) => h == 0 && HALF <= |e| <= B
       case Inner(keys, ch) =>
         h > 0 && HALF <= |keys| <= B && |ch| == |keys| + 1 && AllPacked(ch, h - 1)
  }

  ghost predicate AllPacked(ch: seq<Ref>, h: nat)
    decreases h, 1
  {
    forall c :: c in ch ==> Packed(c, h)
  }

  /** A root may be nearly empty; everything below it is packed. */
  ghost predicate PackedRoot(r: Ref, h: nat) {
    && r.Cell?
    && match r.node
       case Leaf(e) => h == 0 && 1 <= |e| <= B
       case Inner(keys, ch) =>
         h > 0 && 1 <= |keys| <= B && |ch| == |keys| + 1 && AllPacked(ch, h - 1)
  }

  /** An insertion leaves the height alone, or splits into two packed halves of that height. */
  ghost predicate Kept(res: SetResult, h: nat) {
    match res
    case Plain(r) => Packed(r, h)
    case Split(l, _, r) => Packed(l, h) && Packed(r, h)
  }

  /** The parent's side of it: at least `n` keys, and packed halves when it splits. */
  ghost predicate ParentKept(res: SetResult, n: nat, h: nat) {
    if res.Split? then Packed(res.left, h + 1) && Packed(res.right, h + 1)
    else
      && res.ref.Cell? && res.ref.node.Inner? && n <= |res.ref.node.keys| <= B
      && |res.ref.node.children| == |res.ref.node.keys| + 1 && AllPacked(res.ref.node.children, h)
  }

  lemma ChildrenKept(keys: seq<Key>, ch: seq<Ref>, p: nat, res: SetResult, h: nat)
    requires p <= |keys| && |ch| == |keys| + 1 && |keys| <= B && AllPacked(ch, h) && Kept(res, h)
    ensures ParentKept(Adopt(keys, ch, p, res), |keys|, h)
  {
    hide Packed;
    match res
    case Plain(c) =>
    case Split(l, sep, r) =>
      var keys', ch' := keys[..p] + [sep] + keys[p..], ch[..p] + [l, r] + ch[p + 1..];
      assert AllPacked(ch', h);
      if |keys'| > B {
        var mid := |keys'| / 2;
        InnerPacked(keys'[..mid], ch'[..mid + 1], h);
        InnerPacked(keys'[mid + 1..], ch'[mid + 1..], h);
      }
  }

  lemma InnerPacked(keys: seq<Key>, ch: seq<Ref>, h: nat)
    requires HALF <= |keys| <= B && |ch| == |keys| + 1 && AllPacked(ch, h)
    ensures Packed(Cell(Inner(keys, ch)), h + 1)
  {
  }

  lemma {:induction false} SetKeepsPacked(r: Ref, k: Key, v: Val, h: nat)
    requires Packed(r, h)
    ensures Kept(SetAt(r, k, v), h)
    decreases h
  {
    if r.node.Inner? {
      var keys, ch := r.node.keys, r.node.children;
      var p := Pos(keys, k);
      SetKeepsPacked(ch[p], k, v, h - 1);
      ChildrenKept(keys, ch, p, SetAt(ch[p], k, v), h - 1);
    }
  }

  /** Inserting into a packed root keeps its height, or adds one level when the root splits. */
  lemma SetKeepsRoot(r: Ref, k: Key, v: Val, h: nat)
    requires PackedRoot(r, h)
    ensures PackedRoot(Set(r, k, v), if SetAt(r, k, v).Split? then h + 1 else h)
  {
    if r.node.Inner? {
      var keys, ch := r.node.keys, r.node.children;
      var p := Pos(keys, k);
      SetKeepsPacked(ch[p], k, v, h - 1);
      ChildrenKept(keys, ch, p, SetAt(ch[p], k, v), h - 1);
    }
  }

  function Pow(b: nat, e: nat): (r: nat)
    ensures b > 0 ==> r > 0
  {
    if e == 0 then 1 else b * Pow(b, e - 1)
  }

  /** A packed subtree of height `h` holds between 16 * 17^h and 32 * 33^h entries. */
  lemma {:induction false} PackedSize(r: Ref, h: nat)
    requires Packed(r, h)
    ensures HALF * Pow(HALF + 1, h) <= |Flat(r)| <= B * Pow(B + 1, h)
    decreases h, 1, 0
  {
    hide Pow;
    PowStep(HALF, h);
    PowStep(B, h);
    if h > 0 {
      var ch := r.node.children;
      var least, most := HALF * Pow(HALF + 1, h - 1), B * Pow(B + 1, h - 1);
      AllSize(ch, h - 1);
      Scale(|ch|, HALF + 1, least);
      Scale(B + 1, |ch|, most);
    }
  }

  lemma PowStep(b: nat, h: nat)
    ensures b * Pow(b + 1, h) == if h == 0 then b else (b + 1) * (b * Pow(b + 1, h - 1))
  {
  }

  lemma OneMore(n: nat, x: nat)
    requires n > 0
    ensures n * x == x + (n - 1) * x
  {
  }

  lemma Scale(a: nat, b: nat, x: nat)
    requires a >= b
    ensures a * x >= b * x
  {
  }

  lemma {:induction false} AllSize(ch: seq<Ref>, h: nat)
    requires AllPacked(ch, h)
    ensures |ch| * (HALF * Pow(HALF + 1, h)) <= |FlatAll(ch)| <= |ch| * (B * Pow(B + 1, h))
    decreases h, 2, |ch|
  {
    hide Pow, Packed;
    if ch != [] {
      PackedSize(ch[0], h);
      AllSize(ch[1..], h);
      OneMore(|ch|, HALF * Pow(HALF + 1, h));
      OneMore(|ch|, B * Pow(B + 1, h));
    }
  }

  /** A tree with `h` inner levels grown by insertions holds at least 2 * 16 * 17^(h-1) entries. */
  lemma RootSize(r: Ref, h: nat)
    requires PackedRoot(r, h) && h >= 1
    ensures |Flat(r)| >= 2 * (HALF * Pow(HALF + 1, h - 1))
  {
    var ch := r.node.children;
    AllSize(ch, h - 1);
    Scale(|ch|, 2, HALF * Pow(HALF + 1, h - 1));
  }

  /** Every tree grown by insertions alone is packed and level. */
  lemma {:induction false} GrownPacked(ops: seq<Op>) returns (h: nat)
    requires ops != [] && forall i :: 0 <= i < |ops| ==> ops[i].Put?
    ensures PackedRoot(After(ops), h)
    ensures h >= 1 ==> |Model(ops)| >= 2 * (HALF * Pow(HALF + 1, h - 1))
    decreases |ops|
  {
    hide PackedRoot, Set, SetAt, Lists, Pow;
    var n := |ops| - 1;
    var k, v := ops[n].k, ops[n].v;
    var r := After(ops[..n]);
    if n == 0 {
      FirstLeaf(k, v);
      h := 0;
    } else {
      h := GrownPacked(ops[..n]);
      SetKeepsRoot(r, k, v, h);
      h := if SetAt(r, k, v).Split? then h + 1 else h;
    }
    if h >= 1 {
      RunCorrect(ops);
      RootSize(After(ops), h);
      ListsSize(Flat(After(ops)), Model(ops));
    }
  }

  lemma FirstLeaf(k: Key, v: Val)
    ensures PackedRoot(Set(Empty, k, v), 0)
  {
  }

  lemma {:induction false} ListsSize(s: seq<Entry>, m: map<Key, Val>)
    requires Lists(s, m)
    ensures |s| == |m|
    decreases |s|
  {
    if s == [] {
      NoPairs(m);
    } else {
      var e := s[0];
      assert e in s;
      assert forall x :: x in s <==> x == e || x in s[1..];
      ListsSize(s[1..], m - {e.0});
      assert |m| == |m.Keys| && |m - {e.0}| == |(m - {e.0}).Keys| && m.Keys == (m - {e.0}).Keys + {e.0};
    }
  }
}
