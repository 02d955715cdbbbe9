/** Removal from the B+-tree: no rebalancing, empty children dropped, single children lifted. */
module BTreeRemove {
  import opened Options
  import opened BTree
  import BTreeSet

  datatype RemoveResult = Unchanged | Changed(ref: Ref) | Gone

  function HasKey(s: seq<Entry>, k: Key): bool { Lookup(s, k).Some? }

  function DropAt<T>(s: seq<T>, p: nat): seq<T>
    requires p < |s|
  {
    s[..p] + s[p + 1..]
  }

  /** The routing keys once the child at `p` is gone: the key after it goes, or the last one. */
  function KeysWithout(keys: seq<Key>, p: nat): seq<Key> {
    if p < |keys| then DropAt(keys, p) else if 0 < p == |keys| then DropAt(keys, p - 1) else keys
  }

  function Shrink(keys: seq<Key>, ch: seq<Ref>): RemoveResult {
    if ch == [] then Gone
    else if keys == [] && |ch| == 1 then Changed(ch[0])
    else Changed(Cell(Inner(keys, ch)))
  }

  function RemoveAt(r: Ref, k: Key): RemoveResult
    decreases r
  {
    match r
    case Empty => Unchanged
    case Cell(Leaf(e)) =>
      if !HasKey(e, k) then Unchanged else if |e| == 1 then Gone else Changed(Cell(Leaf(Del(e, k))))
    case Cell(Inner(keys, ch)) =>
      var p := Pos(keys, k);
      if p >= |ch| then Unchanged
      else
        match RemoveAt(ch[p], k)
        case Unchanged => Unchanged
        case Changed(c) => Changed(Cell(Inner(keys, ch[p := c])))
        case Gone => Shrink(KeysWithout(keys, p), DropAt(ch, p))
  }

  function Remove(r: Ref, k: Key): Ref {
    match RemoveAt(r, k)
    case Unchanged => r
    case Changed(c) => c
    case Gone => Empty
  }

  // ---------- correctness ----------

  ghost predicate Wider(lo: Option<Key>, hi: Option<Key>, lo': Option<Key>, hi': Option<Key>) {
    && (lo'.Some? ==> lo.Some? && lo'.value <= lo.value)
    && (hi'.Some? ==> hi.Some? && hi.value <= hi'.value)
  }

  lemma {:induction false} WFWiden(r: Ref, lo: Option<Key>, hi: Option<Key>, lo': Option<Key>, hi': Option<Key>)
    requires WF(r, lo, hi) && Wider(lo, hi, lo', hi')
    ensures WF(r, lo', hi')
    decreases r
  {
    if r.node.Inner? {
      var keys, ch := r.node.keys, r.node.children;
      forall i | 0 <= i < |ch| ensures WF(ch[i], LoOf(keys, lo', i), HiOf(keys, hi', i)) {
        WFWiden(ch[i], LoOf(keys, lo, i), HiOf(keys, hi, i), LoOf(keys, lo', i), HiOf(keys, hi', i));
      }
    }
  }

  lemma {:induction false} DelPresent(s: seq<Entry>, k: Key)
    ensures HasKey(s, k) ==> |Del(s, k)| == |s| - 1
    ensures !HasKey(s, k) ==> Del(s, k) == s
  {
    if s != [] {
      DelPresent(s[1..], k);
    }
  }

  lemma {:induction false} HasKeyIn(s: seq<Entry>, k: Key)
    ensures HasKey(s, k) <==> exists e :: e in s && e.0 == k
  {
    if s != [] {
      assert forall e :: e in s <==> e == s[0] || e in s[1..];
      HasKeyIn(s[1..], k);
    }
  }

  /** Dropping a child and its routing key keeps the bounds of the children that remain. */
  lemma DropChild(keys: seq<Key>, ch: seq<Ref>, lo: Option<Key>, hi: Option<Key>, p: nat)
    requires WF(Cell(Inner(keys, ch)), lo, hi) && p < |ch| && |keys| >= 2
    ensures WF(Cell(Inner(KeysWithout(keys, p), DropAt(ch, p))), lo, hi)
  {
    var keys', ch' := KeysWithout(keys, p), DropAt(ch, p);
    forall i | 0 <= i < |ch'| ensures WF(ch'[i], LoOf(keys', lo, i), HiOf(keys', hi, i)) {
      var j := if i < p then i else i + 1;
      assert ch'[i] == ch[j] && WF(ch[j], LoOf(keys, lo, j), HiOf(keys, hi, j));
      WFWiden(ch[j], LoOf(keys, lo, j), HiOf(keys, hi, j), LoOf(keys', lo, i), HiOf(keys', hi, i));
    }
  }

  lemma LiftChild(keys: seq<Key>, ch: seq<Ref>, lo: Option<Key>, hi: Option<Key>, i: nat)
    requires WF(Cell(Inner(keys, ch)), lo, hi) && i < |ch|
    ensures WF(ch[i], lo, hi)
  {
    assert i > 0 ==> Within(keys[i - 1], lo, hi);
    assert i < |keys| ==> Within(keys[i], lo, hi);
    WFWiden(ch[i], LoOf(keys, lo, i), HiOf(keys, hi, i), lo, hi);
  }

  lemma ShrinkCorrect(keys: seq<Key>, ch: seq<Ref>, lo: Option<Key>, hi: Option<Key>, p: nat)
    requires WF(Cell(Inner(keys, ch)), lo, hi) && p < |ch|
    ensures var res := Shrink(KeysWithout(keys, p), DropAt(ch, p));
      res.Changed? && WF(res.ref, lo, hi) && Flat(res.ref) == FlatAll(ch[..p]) + FlatAll(ch[p + 1..])
  {
    FlatConcat(ch[..p], ch[p + 1..]);
    if |keys| >= 2 {
      DropChild(keys, ch, lo, hi, p);
    } else {
      LiftChild(keys, ch, lo, hi, 1 - p);
      FlatOne(ch[1 - p]);
      assert DropAt(ch, p) == [ch[1 - p]];
    }
  }

  /** What a removal owes: absent keys change nothing, the last entry makes the subtree vanish. */
  ghost predicate Removed(r: Ref, k: Key, lo: Option<Key>, hi: Option<Key>, res: RemoveResult) {
    match res
    case Unchanged => !HasKey(Flat(r), k)
    case Changed(c) => HasKey(Flat(r), k) && WF(c, lo, hi) && Flat(c) == Del(Flat(r), k)
    case Gone => HasKey(Flat(r), k) && Del(Flat(r), k) == []
  }

  lemma {:induction false} RemoveAtCorrect(r: Ref, k: Key, lo: Option<Key>, hi: Option<Key>)
    requires WF(r, lo, hi) && Within(k, lo, hi)
    ensures Removed(r, k, lo, hi, RemoveAt(r, k))
    decreases r
  {
    match r.node
    case Leaf(e) =>
      DelPresent(e, k);
      DelKeys(e, k);
    case Inner(keys, ch) =>
      var p := Pos(keys, k);
      Around(keys, ch, lo, hi, k);
      RemoveAtCorrect(ch[p], k, LoOf(keys, lo, p), HiOf(keys, hi, p));
      RemoveInnerCorrect(keys, ch, k, lo, hi);
  }

  lemma RemoveInnerCorrect(keys: seq<Key>, ch: seq<Ref>, k: Key, lo: Option<Key>, hi: Option<Key>)
    requires WF(Cell(Inner(keys, ch)), lo, hi) && Within(k, lo, hi) && Pos(keys, k) < |ch|
    requires var p := Pos(keys, k);
      Removed(ch[p], k, LoOf(keys, lo, p), HiOf(keys, hi, p), RemoveAt(ch[p], k))
    ensures Removed(Cell(Inner(keys, ch)), k, lo, hi, RemoveAt(Cell(Inner(keys, ch)), k))
  {
    hide Flat, FlatAll, Lookup, Del, WF, RemoveAt;
    var p := Pos(keys, k);
    Around(keys, ch, lo, hi, k);
    DelMiddle(FlatAll(ch[..p]), Flat(ch[p]), FlatAll(ch[p + 1..]), k);
    LookupMiddle(FlatAll(ch[..p]), Flat(ch[p]), FlatAll(ch[p + 1..]), k);
    FlatInner(keys, ch);
    RemoveInnerStep(keys, ch, k);
    match RemoveAt(ch[p], k)
    case Unchanged =>
    case Changed(c) =>
      BTreeSet.ReplaceChild(keys, ch, lo, hi, p, c);
      FlatInner(keys, ch[p := c]);
    case Gone => ShrinkCorrect(keys, ch, lo, hi, p);
  }

  lemma FlatInner(keys: seq<Key>, ch: seq<Ref>)
    ensures Flat(Cell(Inner(keys, ch))) == FlatAll(ch)
  {
  }

  lemma RemoveInnerStep(keys: seq<Key>, ch: seq<Ref>, k: Key)
    requires Pos(keys, k) < |ch|
    ensures var p, res := Pos(keys, k), RemoveAt(Cell(Inner(keys, ch)), k);
      match RemoveAt(ch[p], k)
      case Unchanged => res == Unchanged
      case Changed(c) => res == Changed(Cell(Inner(keys, ch[p := c])))
      case Gone => res == Shrink(KeysWithout(keys, p), DropAt(ch, p))
  {
  }

  /** Removing a key from any root deletes exactly that key; an absent key leaves the very same
      root, and the empty root is returned exactly when nothing is left. */
  lemma RemoveCorrect(r: Ref, k: Key)
    requires Root(r)
    ensures Root(Remove(r, k))
    ensures Flat(Remove(r, k)) == Del(Flat(r), k)
    ensures !HasKey(Flat(r), k) ==> Remove(r, k) == r
    ensures Remove(r, k) == Empty <==> Del(Flat(r), k) == []
  {
    if r.Cell? {
      RemoveAtCorrect(r, k, None, None);
      DelPresent(Flat(r), k);
      FlatWithin(r, None, None);
      match RemoveAt(r, k)
      case Changed(c) => FlatWithin(c, None, None);
      case _ =>
    }
  }
}
