/** The B+-tree at work: a transaction that writes node cells, and whole runs of it. */
module PBTree {
  import opened Options
  import opened BTree
  import opened BTreeSet
  import opened BTreeRemove

  datatype Result<+T> = Ok(value: T) | Missing

  /** The cells on the way down to the leaf of `k` can all be read. */
  ghost predicate PathPresent(cells: Store, r: Ref, k: Key)
    decreases r
  {
    && r.Cell? && r in cells
    && (r.node.Inner? ==>
          var p := Pos(r.node.keys, k);
          p < |r.node.children| ==> PathPresent(cells, r.node.children[p], k))
  }

  ghost predicate ResPresent(cells: Store, res: SetResult) {
    match res
    case Plain(r) => Present(cells, r)
    case Split(l, _, r) => Present(cells, l) && Present(cells, r)
  }

  // ---------- the leaf entry of a key ----------

  ghost predicate Located(e: seq<Entry>, k: Key, found: bool, pos: nat) {
    && pos <= |e| && (found ==> pos < |e| && e[pos].0 == k)
    && (forall i :: 0 <= i < pos ==> e[i].0 < k)
    && (!found ==> forall i :: pos <= i < |e| ==> k < e[i].0)
  }

  /** Binary search in a leaf. */
  method Locate(e: seq<Entry>, k: Key) returns (found: bool, pos: nat)
    requires Sorted(e)
    ensures Located(e, k, found, pos)
  {
    var lo, hi := 0, |e|;
    while lo < hi
      invariant 0 <= lo <= hi <= |e|
      invariant forall i :: 0 <= i < lo ==> e[i].0 < k
      invariant forall i :: hi <= i < |e| ==> k < e[i].0
    {
      var mid := (lo + hi) / 2;
      if e[mid].0 < k {
        lo := mid + 1;
      } else if e[mid].0 == k {
        return true, mid;
      } else {
        hi := mid;
      }
    }
    return false, lo;
  }

  lemma {:induction false} InsLocated(e: seq<Entry>, k: Key, v: Val, found: bool, pos: nat)
    requires Located(e, k, found, pos)
    ensures Ins(e, k, v) == if found then e[pos := (k, v)] else e[..pos] + [(k, v)] + e[pos..]
    decreases |e|
  {
    if pos > 0 {
      InsLocated(e[1..], k, v, found, pos - 1);
    }
  }

  lemma {:induction false} DelLocated(e: seq<Entry>, k: Key, found: bool, pos: nat)
    requires Located(e, k, found, pos)
    ensures found == HasKey(e, k)
    ensures found ==> Del(e, k) == DropAt(e, pos)
    decreases |e|
  {
    if pos > 0 {
      DelLocated(e[1..], k, found, pos - 1);
    } else if !found {
      LookupAbsent(e, k);
    }
  }

  // ---------- presence of rebuilt nodes ----------

  lemma InnerPresent(before: Store, cells: Store, keys: seq<Key>, ch: seq<Ref>)
    requires before <= cells && Cell(Inner(keys, ch)) in cells && forall c :: c in ch ==> Present(before, c)
    ensures Present(cells, Cell(Inner(keys, ch)))
  {
    forall c | c in ch ensures Present(cells, c) {
      PresentGrows(before, cells, c);
    }
  }

  /** Children drawn from an old node and from newly present ones are all present. */
  lemma MixPresent(start: Store, mid: Store, old_ch: seq<Ref>, new_ch: seq<Ref>, ch: seq<Ref>)
    requires start <= mid && (forall c :: c in old_ch ==> Present(start, c)) && (forall c :: c in new_ch ==> Present(mid, c))
    requires forall c :: c in ch ==> c in old_ch || c in new_ch
    ensures forall c :: c in ch ==> Present(mid, c)
  {
    forall c | c in ch ensures Present(mid, c) {
      if c in old_ch {
        PresentGrows(start, mid, c);
      }
    }
  }

  class Tx {
    /** Cells readable by the transaction: the snapshot's and its own. */
    var cells: Store

    constructor (snapshot: Store)
      ensures cells == snapshot
    {
      cells := snapshot;
    }

    method WriteNode(n: Node) returns (r: Ref)
      modifies this
      ensures r == Cell(n) && cells == old(cells) + {r}
    {
      r := Cell(n);
      cells := cells + {r};
    }

    method Get(root: Ref, k: Key) returns (v: Option<Val>)
      requires Root(root)
      ensures Present(cells, root) ==> v == Lookup(Flat(root), k)
    {
      v := GetAt(cells, root, k);
      if root.Cell? && Present(cells, root) {
        GetCorrect(cells, root, k, None, None);
      }
    }

    method WriteLeaf(e: seq<Entry>) returns (res: SetResult)
      modifies this
      ensures res == PackLeaf(e) && old(cells) <= cells && ResPresent(cells, res)
    {
      if |e| <= B {
        var r := WriteNode(Leaf(e));
        return Plain(r);
      }
      var mid := |e| / 2;
      var left := WriteNode(Leaf(e[..mid]));
      var right := WriteNode(Leaf(e[mid..]));
      return Split(left, e[mid..][0].0, right);
    }

    method WriteInner(keys: seq<Key>, ch: seq<Ref>) returns (res: SetResult)
      requires |ch| == |keys| + 1
      modifies this
      ensures res == PackInner(keys, ch) && old(cells) <= cells
      ensures (forall c :: c in ch ==> Present(old(cells), c)) ==> ResPresent(cells, res)
    {
      hide Present;
      ghost var start := cells;
      if |keys| <= B {
        var r := WriteNode(Inner(keys, ch));
        if forall c :: c in ch ==> Present(start, c) {
          InnerPresent(start, cells, keys, ch);
        }
        return Plain(r);
      }
      var mid := |keys| / 2;
      var left := WriteNode(Inner(keys[..mid], ch[..mid + 1]));
      var right := WriteNode(Inner(keys[mid + 1..], ch[mid + 1..]));
      if forall c :: c in ch ==> Present(start, c) {
        InnerPresent(start, cells, keys[..mid], ch[..mid + 1]);
        InnerPresent(start, cells, keys[mid + 1..], ch[mid + 1..]);
      }
      return Split(left, keys[mid], right);
    }

    /** Insert below `r`. Nothing is written when a cell on the path cannot be read. */
    method SetInner(r: Ref, k: Key, v: Val, ghost lo: Option<Key>, ghost hi: Option<Key>) returns (res: Result<SetResult>)
      requires r.Cell? ==> WF(r, lo, hi)
      modifies this
      ensures res.Ok? <==> PathPresent(old(cells), r, k)
      ensures res.Ok? ==> res.value == SetAt(r, k, v)
      ensures old(cells) <= cells && (res.Missing? ==> cells == old(cells))
      ensures Present(old(cells), r) && res.Ok? ==> ResPresent(cells, res.value)
      decreases r
    {
      match Read(cells, r) {
        case None => return Missing;
        case Some(Leaf(e)) =>
          var found, pos := Locate(e, k);
          InsLocated(e, k, v, found, pos);
          var e' := if found then e[pos := (k, v)] else e[..pos] + [(k, v)] + e[pos..];
          var packed := WriteLeaf(e');
          return Ok(packed);
        case Some(Inner(keys, ch)) =>
          var pos := DescendPos(keys, k);
          ghost var start := cells;
          var below := SetInner(ch[pos], k, v, LoOf(keys, lo, pos), HiOf(keys, hi, pos));
          if below.Missing? {
            return Missing;
          }
          var packed := SetParent(keys, ch, pos, below.value, start);
          return Ok(packed);
      }
    }

    /** Rewrite the parent of a child that changed or split. */
    method SetParent(keys: seq<Key>, ch: seq<Ref>, pos: nat, below: SetResult, ghost start: Store) returns (res: SetResult)
      requires pos < |ch| == |keys| + 1 && start <= cells
      modifies this
      ensures res == Adopt(keys, ch, pos, below) && old(cells) <= cells
      ensures (forall c :: c in ch ==> Present(start, c)) && ResPresent(old(cells), below) ==> ResPresent(cells, res)
    {
      hide Present;
      ghost var mid := cells;
      match below {
        case Plain(c) =>
          var ch' := ch[pos := c];
          var r := WriteNode(Inner(keys, ch'));
          res := Plain(r);
          if (forall c :: c in ch ==> Present(start, c)) && ResPresent(mid, below) {
            MixPresent(start, mid, ch, [c], ch');
            InnerPresent(mid, cells, keys, ch');
          }
        case Split(left, sep, right) =>
          var ch' := ch[..pos] + [left, right] + ch[pos + 1..];
          res := WriteInner(keys[..pos] + [sep] + keys[pos..], ch');
          if (forall c :: c in ch ==> Present(start, c)) && ResPresent(mid, below) {
            MixPresent(start, mid, ch, [left, right], ch');
          }
      }
    }

    method Set(root: Ref, k: Key, v: Val) returns (res: Result<Ref>)
      requires Root(root)
      modifies this
      ensures res.Ok? <==> root.Empty? || PathPresent(old(cells), root, k)
      ensures res.Ok? ==> res.value == BTreeSet.Set(root, k, v)
      ensures old(cells) <= cells && (res.Missing? ==> cells == old(cells))
      ensures Present(old(cells), root) ==> res.Ok? && Present(cells, res.value)
    {
      if root.Empty? {
        var r := WriteNode(Leaf([(k, v)]));
        return Ok(r);
      }
      ghost var start := cells;
      var below := SetInner(root, k, v, None, None);
      if Present(start, root) {
        PresentPath(start, root, k);
      }
      if below.Missing? {
        return Missing;
      }
      match below.value {
        case Plain(r) => return Ok(r);
        case Split(left, sep, right) =>
          ghost var mid := cells;
          var r := WriteNode(Inner([sep], [left, right]));
          if Present(mid, left) && Present(mid, right) {
            InnerPresent(mid, cells, [sep], [left, right]);
          }
          return Ok(r);
      }
    }

    method RemoveInner(r: Ref, k: Key, ghost lo: Option<Key>, ghost hi: Option<Key>) returns (res: Result<RemoveResult>)
      requires r.Cell? ==> WF(r, lo, hi)
      modifies this
      ensures res.Ok? <==> PathPresent(old(cells), r, k)
      ensures res.Ok? ==> res.value == RemoveAt(r, k)
      ensures old(cells) <= cells && (res.Missing? || res.value == Unchanged ==> cells == old(cells))
      ensures Present(old(cells), r) && res.Ok? && res.value.Changed? ==> Present(cells, res.value.ref)
      decreases r
    {
      match Read(cells, r) {
        case None => return Missing;
        case Some(Leaf(e)) =>
          var found, pos := Locate(e, k);
          DelLocated(e, k, found, pos);
          if !found {
            return Ok(Unchanged);
          }
          var e' := DropAt(e, pos);
          if e' == [] {
            return Ok(Gone);
          }
          var c := WriteNode(Leaf(e'));
          return Ok(Changed(c));
        case Some(Inner(keys, ch)) =>
          var pos := DescendPos(keys, k);
          ghost var start := cells;
          var below := RemoveInner(ch[pos], k, LoOf(keys, lo, pos), HiOf(keys, hi, pos));
          RemoveInnerStep(keys, ch, k);
          if below.Missing? || below.value == Unchanged {
            return below;
          }
          var changed := RemoveParent(keys, ch, pos, below.value, start);
          return Ok(changed);
      }
    }

    /** Rewrite the parent of a child that changed, or drop one that vanished. */
    method RemoveParent(keys: seq<Key>, ch: seq<Ref>, pos: nat, below: RemoveResult, ghost start: Store) returns (res: RemoveResult)
      requires pos < |ch| == |keys| + 1 && start <= cells && below != Unchanged
      modifies this
      ensures old(cells) <= cells
      ensures below.Changed? ==> res == Changed(Cell(Inner(keys, ch[pos := below.ref])))
      ensures below.Gone? ==> res == Shrink(KeysWithout(keys, pos), DropAt(ch, pos))
      ensures (forall c :: c in ch ==> Present(start, c)) && (below.Changed? ==> Present(old(cells), below.ref)) ==>
                res.Changed? ==> Present(cells, res.ref)
    {
      hide Present;
      ghost var mid := cells;
      ghost var known := (forall c :: c in ch ==> Present(start, c)) && (below.Changed? ==> Present(mid, below.ref));
      if below.Changed? {
        var ch' := ch[pos := below.ref];
        var r := WriteNode(Inner(keys, ch'));
        if known {
          MixPresent(start, mid, ch, [below.ref], ch');
          InnerPresent(mid, cells, keys, ch');
        }
        return Changed(r);
      }
      var keys', ch' := keys, DropAt(ch, pos);
      if pos < |keys| {
        keys' := DropAt(keys, pos);
      } else if pos > 0 {
        keys' := DropAt(keys, pos - 1);
      }
      if known {
        MixPresent(start, mid, ch, [], ch');
      }
      if ch' == [] {
        return Gone;
      }
      if keys' == [] && |ch'| == 1 {
        return Changed(ch'[0]);
      }
      var r := WriteNode(Inner(keys', ch'));
      if known {
        InnerPresent(mid, cells, keys', ch');
      }
      return Changed(r);
    }

    method Remove(root: Ref, k: Key) returns (res: Result<Ref>)
      requires Root(root)
      modifies this
      ensures res.Ok? <==> root.Empty? || PathPresent(old(cells), root, k)
      ensures res.Ok? ==> res.value == BTreeRemove.Remove(root, k)
      ensures old(cells) <= cells && (res.Missing? || !HasKey(Flat(root), k) ==> cells == old(cells))
      ensures Present(old(cells), root) ==> res.Ok? && Present(cells, res.value)
    {
      if root.Empty? {
        return Ok(Empty);
      }
      ghost var start := cells;
      RemoveAtCorrect(root, k, None, None);
      var below := RemoveInner(root, k, None, None);
      if Present(start, root) {
        PresentPath(start, root, k);
      }
      if below.Missing? {
        return Missing;
      }
      match below.value {
        case Unchanged => return Ok(root);
        case Changed(c) => return Ok(c);
        case Gone => return Ok(Empty);
      }
    }

    /** Run operations from the empty tree, keeping every root on the way. At the end each of
        them can still be read in full and holds what it held when it was made. */
    method Replay(ops: seq<Op>) returns (roots: seq<Ref>)
      modifies this
      ensures |roots| == |ops| + 1
      ensures forall i :: 0 <= i <= |ops| ==> roots[i] == After(ops[..i]) && Present(cells, roots[i])
      ensures forall i, k :: 0 <= i <= |ops| ==> GetAt(cells, roots[i], k) == Find(Model(ops[..i]), k)
    {
      hide WF, Present, After, Model, Flat, Lists, Find, GetAt;
      var root := Empty;
      roots := [root];
      NothingYet(cells);
      for n := 0 to |ops|
        invariant |roots| == n + 1 && root == roots[n]
        invariant forall i :: 0 <= i <= n ==> roots[i] == After(ops[..i]) && Present(cells, roots[i])
      {
        ghost var start := cells;
        RunCorrect(ops[..n]);
        AfterNext(ops, n);
        root := Apply(root, ops[n]);
        forall i | 0 <= i <= n ensures Present(cells, roots[i]) {
          PresentGrows(start, cells, roots[i]);
        }
        roots := roots + [root];
      }
      forall i, k | 0 <= i <= |ops| ensures GetAt(cells, roots[i], k) == Find(Model(ops[..i]), k) {
        ReadsModel(cells, ops[..i], k);
      }
    }

    method Apply(root: Ref, op: Op) returns (root': Ref)
      requires Root(root) && Present(cells, root)
      modifies this
      ensures root' == Step(root, op) && old(cells) <= cells && Present(cells, root')
    {
      var res;
      match op {
        case Put(k, v) => res := Set(root, k, v);
        case Drop(k) => res := Remove(root, k);
      }
      root' := res.value;
    }
  }

  lemma NothingYet(cells: Store)
    ensures After([]) == Empty && Present(cells, Empty)
  {
  }

  lemma {:induction false} PresentPath(cells: Store, r: Ref, k: Key)
    requires Present(cells, r) && r.Cell?
    requires exists lo, hi :: WF(r, lo, hi)
    ensures PathPresent(cells, r, k)
    decreases r
  {
    var lo, hi :| WF(r, lo, hi);
    if r.node.Inner? {
      var p := Pos(r.node.keys, k);
      assert WF(r.node.children[p], LoOf(r.node.keys, lo, p), HiOf(r.node.keys, hi, p));
      PresentPath(cells, r.node.children[p], k);
    }
  }

  // ---------- whole runs ----------

  datatype Op = Put(k: Key, v: Val) | Drop(k: Key)

  /** Root after a run of operations from the empty tree. */
  ghost function After(ops: seq<Op>): Ref {
    if ops == [] then Empty else Step(After(ops[..|ops| - 1]), ops[|ops| - 1])
  }

  function Step(r: Ref, op: Op): Ref {
    match op
    case Put(k, v) => BTreeSet.Set(r, k, v)
    case Drop(k) => BTreeRemove.Remove(r, k)
  }

  /** The finite map the run describes. */
  ghost function Model(ops: seq<Op>): map<Key, Val> {
    if ops == [] then map[]
    else
      var m := Model(ops[..|ops| - 1]);
      match ops[|ops| - 1]
      case Put(k, v) => m[k := v]
      case Drop(k) => m - {k}
  }

  function Find(m: map<Key, Val>, k: Key): Option<Val> { if k in m then Some(m[k]) else None }

  lemma AfterNext(ops: seq<Op>, n: nat)
    requires n < |ops|
    ensures After(ops[..n + 1]) == Step(After(ops[..n]), ops[n])
  {
    assert ops[..n + 1][..n] == ops[..n];
  }

  /** The entries are exactly the pairs of the map. */
  ghost predicate Lists(s: seq<Entry>, m: map<Key, Val>) {
    Sorted(s) && forall e :: e in s <==> e.0 in m && m[e.0] == e.1
  }

  lemma {:induction false} LookupListed(s: seq<Entry>, k: Key)
    requires Sorted(s)
    ensures match Lookup(s, k)
            case Some(v) => (k, v) in s
            case None => forall v :: (k, v) !in s
    ensures forall v :: (k, v) in s ==> Lookup(s, k) == Some(v)
  {
    if s != [] {
      assert s == [s[0]] + s[1..];
      LookupListed(s[1..], k);
    }
  }

  /** Any run of insertions and removals refines a sorted map: the tree stays well formed, its
      entries are exactly the map's pairs in key order, and it is the empty root exactly when
      the map is empty. */
  lemma {:induction false} RunCorrect(ops: seq<Op>)
    ensures Root(After(ops)) && Lists(Flat(After(ops)), Model(ops))
    ensures After(ops) == Empty <==> Model(ops) == map[]
    decreases |ops|
  {
    hide WF, Flat, BTreeSet.Set, BTreeRemove.Remove, Lists;
    if ops == [] {
      FlatOfEmpty();
    } else {
      var n := |ops| - 1;
      RunCorrect(ops[..n]);
      var r, m := After(ops[..n]), Model(ops[..n]);
      match ops[n] {
        case Put(k, v) =>
          SetCorrect(r, k, v);
          ListsIns(Flat(r), m, k, v);
        case Drop(k) =>
          RemoveCorrect(r, k);
          ListsDel(Flat(r), m, k);
      }
      EmptyMap(After(ops), Model(ops));
    }
  }

  lemma ListsIns(s: seq<Entry>, m: map<Key, Val>, k: Key, v: Val)
    requires Lists(s, m)
    ensures Lists(Ins(s, k, v), m[k := v])
  {
    InsKeys(s, k, v);
  }

  lemma ListsDel(s: seq<Entry>, m: map<Key, Val>, k: Key)
    requires Lists(s, m)
    ensures Lists(Del(s, k), m - {k})
  {
    DelKeys(s, k);
  }

  lemma FlatOfEmpty()
    ensures Flat(Empty) == [] && Lists(Flat(Empty), map[])
  {
  }

  lemma NoPairs(m: map<Key, Val>)
    requires Lists([], m)
    ensures m == map[]
  {
    forall k ensures k !in m {
      var e := (k, match Find(m, k) case Some(v) => v case None => 0);
      assert e !in [] && e.0 == k;
    }
  }

  lemma EmptyMap(r: Ref, m: map<Key, Val>)
    requires Root(r) && Lists(Flat(r), m)
    ensures r == Empty <==> m == map[]
  {
    if r.Cell? {
      FlatWithin(r, None, None);
      var e := Flat(r)[0];
      assert e in Flat(r) && e.0 in m;
    } else {
      NoPairs(m);
    }
  }

  /** Lookups agree with the map after any run. */
  lemma ReadsModel(cells: Store, ops: seq<Op>, k: Key)
    requires Present(cells, After(ops))
    ensures GetAt(cells, After(ops), k) == Find(Model(ops), k)
  {
    hide WF, Flat, After, Model, Lookup;
    RunCorrect(ops);
    var r := After(ops);
    LookupListed(Flat(r), k);
    if r.Cell? {
      GetCorrect(cells, r, k, None, None);
    }
  }
}
