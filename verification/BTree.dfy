/** Persistent sorted map: a B+-tree, one content-addressed cell per node.

    The contents of a tree are the entries of its leaves read left to right. Every operation
    is stated on that sequence. */
module BTree {
  import opened Options

  type Key = int
  type Val = int
  type Entry = (Key, Val)

  datatype Ref = Empty | Cell(node: Node)

  datatype Node =
    | Inner(keys: seq<Key>, children: seq<Ref>)
    | Leaf(entries: seq<Entry>)

  /** Branching factor: most keys of an inner node, most entries of a leaf. */
  const B: nat := 32

  // ---------- sorted sequences of entries ----------

  ghost predicate Sorted(s: seq<Entry>) { forall i, j :: 0 <= i < j < |s| ==> s[i].0 < s[j].0 }

  ghost predicate Ascending(keys: seq<Key>) { forall i, j :: 0 <= i < j < |keys| ==> keys[i] < keys[j] }

  /** Insert in order, replacing an entry with the same key. */
  function Ins(s: seq<Entry>, k: Key, v: Val): (r: seq<Entry>)
    ensures |s| <= |r| <= |s| + 1
  {
    if s == [] then [(k, v)]
    else if s[0].0 < k then [s[0]] + Ins(s[1..], k, v)
    else if s[0].0 == k then [(k, v)] + s[1..]
    else [(k, v)] + s
  }

  function Del(s: seq<Entry>, k: Key): seq<Entry> {
    if s == [] then [] else if s[0].0 == k then s[1..] else [s[0]] + Del(s[1..], k)
  }

  function Lookup(s: seq<Entry>, k: Key): Option<Val> {
    if s == [] then None else if s[0].0 == k then Some(s[0].1) else Lookup(s[1..], k)
  }

  ghost predicate Below(s: seq<Entry>, k: Key) { forall e :: e in s ==> e.0 < k }

  ghost predicate Above(s: seq<Entry>, k: Key) { forall e :: e in s ==> k < e.0 }

  lemma Cons(e: Entry, s: seq<Entry>, k: Key, v: Val)
    ensures Ins([e] + s, k, v) == if e.0 < k then [e] + Ins(s, k, v) else if e.0 == k then [(k, v)] + s else [(k, v), e] + s
    ensures Del([e] + s, k) == if e.0 == k then s else [e] + Del(s, k)
    ensures Lookup([e] + s, k) == if e.0 == k then Some(e.1) else Lookup(s, k)
  {
    assert ([e] + s)[1..] == s;
    assert [(k, v)] + ([e] + s) == [(k, v), e] + s;
  }

  lemma Split3(a: seq<Entry>, m: seq<Entry>, c: seq<Entry>)
    ensures a != [] ==> a == [a[0]] + a[1..] && a + m + c == [a[0]] + (a[1..] + m + c)
    ensures a == [] ==> a + m + c == m + c
    ensures m != [] ==> m == [m[0]] + m[1..] && m + c == [m[0]] + (m[1..] + c)
    ensures m == [] ==> m + c == c
  {
  }

  /** An operation on one key acts only on the stretch that can hold it. */
  lemma {:induction false} InsMiddle(a: seq<Entry>, m: seq<Entry>, c: seq<Entry>, k: Key, v: Val)
    requires Below(a, k) && Above(c, k)
    ensures Ins(a + m + c, k, v) == a + Ins(m, k, v) + c
    decreases |a| + |m|
  {
    Split3(a, m, c);
    if a != [] {
      assert a[0] in a;
      InsMiddle(a[1..], m, c, k, v);
      hide Ins;
      Cons(a[0], a[1..] + m + c, k, v);
      Split3(a, Ins(m, k, v), c);
    } else {
      InsHead(m, c, k, v);
      assert [] + Ins(m, k, v) + c == Ins(m, k, v) + c;
    }
  }

  lemma {:induction false} InsHead(m: seq<Entry>, c: seq<Entry>, k: Key, v: Val)
    requires Above(c, k)
    ensures Ins(m + c, k, v) == Ins(m, k, v) + c
    decreases |m|
  {
    Split3([], m, c);
    if m != [] {
      InsHead(m[1..], c, k, v);
      Cons(m[0], m[1..] + c, k, v);
      Cons(m[0], m[1..], k, v);
      hide Ins;
      Regroup([m[0]], Ins(m[1..], k, v), c);
      Regroup([(k, v)], m[1..], c);
      Regroup([(k, v), m[0]], m[1..], c);
    } else if c != [] {
      assert c[0] in c;
    }
  }

  lemma Regroup(a: seq<Entry>, b: seq<Entry>, c: seq<Entry>)
    ensures a + b + c == a + (b + c)
  {
  }

  lemma {:induction false} DelMiddle(a: seq<Entry>, m: seq<Entry>, c: seq<Entry>, k: Key)
    requires Below(a, k) && Above(c, k)
    ensures Del(a + m + c, k) == a + Del(m, k) + c
    decreases |a| + |m|
  {
    Split3(a, m, c);
    if a != [] {
      assert a[0] in a;
      DelMiddle(a[1..], m, c, k);
      hide Del;
      Cons(a[0], a[1..] + m + c, k, 0);
      Split3(a, Del(m, k), c);
    } else {
      DelHead(m, c, k);
      assert [] + Del(m, k) + c == Del(m, k) + c;
    }
  }

  lemma {:induction false} DelHead(m: seq<Entry>, c: seq<Entry>, k: Key)
    requires Above(c, k)
    ensures Del(m + c, k) == Del(m, k) + c
    decreases |m|
  {
    Split3([], m, c);
    if m != [] {
      DelHead(m[1..], c, k);
      Cons(m[0], m[1..] + c, k, 0);
      Cons(m[0], m[1..], k, 0);
      hide Del;
      Regroup([m[0]], Del(m[1..], k), c);
    } else {
      DelAbsent(c, k);
    }
  }

  lemma {:induction false} DelAbsent(s: seq<Entry>, k: Key)
    requires forall e :: e in s ==> e.0 != k
    ensures Del(s, k) == s
  {
    if s != [] {
      assert s[0] in s;
      DelAbsent(s[1..], k);
    }
  }

  lemma {:induction false} LookupMiddle(a: seq<Entry>, m: seq<Entry>, c: seq<Entry>, k: Key)
    requires Below(a, k) && Above(c, k)
    ensures Lookup(a + m + c, k) == Lookup(m, k)
    decreases |a| + |m|
  {
    var s := a + m + c;
    if a != [] {
      assert a[0] in a && s[0] == a[0] && s[1..] == a[1..] + m + c;
      LookupMiddle(a[1..], m, c, k);
    } else if m != [] {
      assert s[0] == m[0] && s[1..] == a + m[1..] + c;
      LookupMiddle(a, m[1..], c, k);
    } else {
      assert s == c;
      LookupAbsent(c, k);
    }
  }

  lemma {:induction false} LookupAbsent(s: seq<Entry>, k: Key)
    requires forall e :: e in s ==> e.0 != k
    ensures Lookup(s, k) == None
  {
    if s != [] {
      assert s[0] in s;
      LookupAbsent(s[1..], k);
    }
  }

  lemma SortedCons(e: Entry, s: seq<Entry>)
    requires Sorted(s) && forall x :: x in s ==> e.0 < x.0
    ensures Sorted([e] + s)
  {
    forall i, j | 0 <= i < j < |[e] + s| ensures ([e] + s)[i].0 < ([e] + s)[j].0 {
      assert ([e] + s)[j] == s[j - 1] && s[j - 1] in s;
    }
  }

  lemma SortedTail(s: seq<Entry>)
    requires Sorted(s) && s != []
    ensures Sorted(s[1..]) && s == [s[0]] + s[1..]
    ensures forall x :: x in s[1..] ==> s[0].0 < x.0
    ensures forall x :: x in s <==> x == s[0] || x in s[1..]
  {
  }

  lemma {:induction false} InsKeys(s: seq<Entry>, k: Key, v: Val)
    requires Sorted(s)
    ensures Sorted(Ins(s, k, v))
    ensures forall e :: e in Ins(s, k, v) <==> e == (k, v) || (e in s && e.0 != k)
  {
    if s != [] {
      SortedTail(s);
      hide Sorted;
      if s[0].0 < k {
        InsKeys(s[1..], k, v);
        SortedCons(s[0], Ins(s[1..], k, v));
      } else if s[0].0 == k {
        SortedCons((k, v), s[1..]);
      } else {
        SortedCons((k, v), s);
      }
    }
  }

  lemma {:induction false} DelKeys(s: seq<Entry>, k: Key)
    requires Sorted(s)
    ensures Sorted(Del(s, k))
    ensures forall e :: e in Del(s, k) <==> e in s && e.0 != k
  {
    if s != [] {
      SortedTail(s);
      hide Sorted;
      if s[0].0 != k {
        DelKeys(s[1..], k);
        SortedCons(s[0], Del(s[1..], k));
      }
    }
  }

  // ---------- trees ----------

  /** All entries, left to right. */
  function Flat(r: Ref): seq<Entry> {
    match r
    case Empty => []
    case Cell(Leaf(e)) => e
    case Cell(Inner(_, ch)) => FlatAll(ch)
  }

  function FlatAll(ch: seq<Ref>): seq<Entry> {
    if ch == [] then [] else Flat(ch[0]) + FlatAll(ch[1..])
  }

  lemma {:induction false} FlatConcat(a: seq<Ref>, b: seq<Ref>)
    ensures FlatAll(a + b) == FlatAll(a) + FlatAll(b)
    decreases |a|
  {
    if a == [] {
      assert a + b == b;
    } else {
      assert (a + b)[0] == a[0] && (a + b)[1..] == a[1..] + b;
      FlatConcat(a[1..], b);
    }
  }

  lemma FlatOne(r: Ref)
    ensures FlatAll([r]) == Flat(r)
  {
    assert [r][1..] == [];
  }

  /** Bounds of a subtree: `None` is unbounded. */
  ghost predicate Within(k: Key, lo: Option<Key>, hi: Option<Key>) {
    (lo.Some? ==> lo.value <= k) && (hi.Some? ==> k < hi.value)
  }

  function LoOf(keys: seq<Key>, lo: Option<Key>, i: nat): Option<Key>
    requires i <= |keys|
  {
    if i == 0 then lo else Some(keys[i - 1])
  }

  function HiOf(keys: seq<Key>, hi: Option<Key>, i: nat): Option<Key>
    requires i <= |keys|
  {
    if i == |keys| then hi else Some(keys[i])
  }

  /** Routing keys strictly sorted and bounding their subtrees, leaves sorted, nothing empty. */
  ghost predicate WF(r: Ref, lo: Option<Key>, hi: Option<Key>)
    decreases r
  {
    match r
    case Empty => false
    case Cell(Leaf(e)) => e != [] && Sorted(e) && forall x :: x in e ==> Within(x.0, lo, hi)
    case Cell(Inner(keys, ch)) =>
      && |keys| >= 1 && |ch| == |keys| + 1 && Ascending(keys)
      && (forall i :: 0 <= i < |keys| ==> Within(keys[i], lo, hi) && lo != Some(keys[i]))
      && forall i :: 0 <= i < |ch| ==> WF(ch[i], LoOf(keys, lo, i), HiOf(keys, hi, i))
  }

  ghost predicate Root(r: Ref) { r.Empty? || WF(r, None, None) }

  ghost predicate AllWithin(s: seq<Entry>, lo: Option<Key>, hi: Option<Key>) {
    forall e :: e in s ==> Within(e.0, lo, hi)
  }

  lemma {:induction false} FlatWithin(r: Ref, lo: Option<Key>, hi: Option<Key>)
    requires WF(r, lo, hi)
    ensures AllWithin(Flat(r), lo, hi) && Flat(r) != []
    decreases r, 1, 0
  {
    if r.node.Inner? {
      var keys, ch := r.node.keys, r.node.children;
      PrefixWithin(keys, ch, lo, hi, |ch|);
    }
  }

  /** The first `n` children lie between `lo` and the routing key that ends them. */
  lemma {:induction false} PrefixWithin(keys: seq<Key>, ch: seq<Ref>, lo: Option<Key>, hi: Option<Key>, n: nat)
    requires WF(Cell(Inner(keys, ch)), lo, hi) && 0 < n <= |ch|
    ensures AllWithin(FlatAll(ch[..n]), lo, HiOf(keys, hi, n - 1))
    ensures FlatAll(ch[..n]) != [] && (n == |ch| ==> ch[..n] == ch)
    decreases Cell(Inner(keys, ch)), 0, n
  {
    FlatWithin(ch[n - 1], LoOf(keys, lo, n - 1), HiOf(keys, hi, n - 1));
    assert ch[..n] == ch[..n - 1] + [ch[n - 1]];
    FlatConcat(ch[..n - 1], [ch[n - 1]]);
    FlatOne(ch[n - 1]);
    if n > 1 {
      PrefixWithin(keys, ch, lo, hi, n - 1);
    } else {
      assert ch[..0] == [];
    }
  }

  /** The children from `n` on lie between the routing key that starts them and `hi`. */
  lemma {:induction false} SuffixWithin(keys: seq<Key>, ch: seq<Ref>, lo: Option<Key>, hi: Option<Key>, n: nat)
    requires WF(Cell(Inner(keys, ch)), lo, hi) && n < |ch|
    ensures AllWithin(FlatAll(ch[n..]), LoOf(keys, lo, n), hi)
    decreases |ch| - n
  {
    FlatWithin(ch[n], LoOf(keys, lo, n), HiOf(keys, hi, n));
    assert ch[n..][0] == ch[n] && ch[n..][1..] == ch[n + 1..];
    if n + 1 < |ch| {
      SuffixWithin(keys, ch, lo, hi, n + 1);
    } else {
      assert ch[n + 1..] == [];
    }
  }

  lemma SortedConcat(a: seq<Entry>, b: seq<Entry>, k: Key)
    requires Sorted(a) && Sorted(b) && Below(a, k) && forall e :: e in b ==> k <= e.0
    ensures Sorted(a + b)
  {
    forall i, j | 0 <= i < j < |a + b| ensures (a + b)[i].0 < (a + b)[j].0 {
      if i < |a| <= j {
        assert a[i] in a && b[j - |a|] in b;
      }
    }
  }

  lemma {:induction false} FlatSorted(r: Ref, lo: Option<Key>, hi: Option<Key>)
    requires WF(r, lo, hi)
    ensures Sorted(Flat(r))
    decreases r, 1, 0
  {
    if r.node.Inner? {
      var keys, ch := r.node.keys, r.node.children;
      PrefixSorted(keys, ch, lo, hi, |ch|);
      assert ch[..|ch|] == ch;
    }
  }

  lemma {:induction false} PrefixSorted(keys: seq<Key>, ch: seq<Ref>, lo: Option<Key>, hi: Option<Key>, n: nat)
    requires WF(Cell(Inner(keys, ch)), lo, hi) && n <= |ch|
    ensures Sorted(FlatAll(ch[..n]))
    decreases Cell(Inner(keys, ch)), 0, n
  {
    if n > 0 {
      PrefixSorted(keys, ch, lo, hi, n - 1);
      FlatSorted(ch[n - 1], LoOf(keys, lo, n - 1), HiOf(keys, hi, n - 1));
      assert ch[..n] == ch[..n - 1] + [ch[n - 1]];
      FlatConcat(ch[..n - 1], [ch[n - 1]]);
      FlatOne(ch[n - 1]);
      if n > 1 {
        PrefixWithin(keys, ch, lo, hi, n - 1);
        FlatWithin(ch[n - 1], LoOf(keys, lo, n - 1), HiOf(keys, hi, n - 1));
        SortedConcat(FlatAll(ch[..n - 1]), Flat(ch[n - 1]), keys[n - 2]);
      } else {
        assert ch[..0] == [];
      }
    }
  }

  // ---------- descent ----------

  /** The child that can hold `key`: the number of routing keys at most `key`. */
  function Pos(keys: seq<Key>, key: Key): (p: nat)
    ensures p <= |keys|
    ensures forall i :: 0 <= i < p ==> keys[i] <= key
    ensures p < |keys| ==> key < keys[p]
  {
    if keys == [] || key < keys[0] then 0 else 1 + Pos(keys[1..], key)
  }

  /** Binary search for the same position. */
  method DescendPos(keys: seq<Key>, key: Key) returns (p: nat)
    requires Ascending(keys)
    ensures p == Pos(keys, key)
  {
    var lo, hi := 0, |keys|;
    while lo < hi
      invariant 0 <= lo <= hi <= |keys|
      invariant forall i :: 0 <= i < lo ==> keys[i] <= key
      invariant forall i :: hi <= i < |keys| ==> key < keys[i]
    {
      var mid := (lo + hi) / 2;
      if keys[mid] <= key {
        lo := mid + 1;
      } else {
        hi := mid;
      }
    }
    p := lo;
    PosUnique(keys, key, p);
  }

  lemma {:induction false} PosUnique(keys: seq<Key>, key: Key, p: nat)
    requires p <= |keys| && (forall i :: 0 <= i < p ==> keys[i] <= key) && (p < |keys| ==> key < keys[p])
    ensures p == Pos(keys, key)
  {
    if p > 0 {
      PosUnique(keys[1..], key, p - 1);
    }
  }

  /** Around the child that can hold `k`, everything to the left is smaller and everything to
      the right is larger. */
  lemma Around(keys: seq<Key>, ch: seq<Ref>, lo: Option<Key>, hi: Option<Key>, k: Key)
    requires WF(Cell(Inner(keys, ch)), lo, hi) && Within(k, lo, hi)
    ensures var p := Pos(keys, k);
      && p < |ch| && Within(k, LoOf(keys, lo, p), HiOf(keys, hi, p))
      && WF(ch[p], LoOf(keys, lo, p), HiOf(keys, hi, p))
      && FlatAll(ch) == FlatAll(ch[..p]) + Flat(ch[p]) + FlatAll(ch[p + 1..])
      && Below(FlatAll(ch[..p]), k) && Above(FlatAll(ch[p + 1..]), k)
  {
    hide Flat, FlatAll, Below, Above;
    var p := Pos(keys, k);
    FlatSplit(ch, p);
    LeftOf(keys, ch, lo, hi, k, p);
    RightOf(keys, ch, lo, hi, k, p);
  }

  lemma LeftOf(keys: seq<Key>, ch: seq<Ref>, lo: Option<Key>, hi: Option<Key>, k: Key, p: nat)
    requires WF(Cell(Inner(keys, ch)), lo, hi)
    requires p <= |keys| && (p > 0 ==> keys[p - 1] <= k)
    ensures Below(FlatAll(ch[..p]), k)
  {
    hide Flat, FlatAll;
    if p > 0 {
      PrefixWithin(keys, ch, lo, hi, p);
      hide WF;
    } else {
      NoEntries(ch[..0]);
    }
  }

  lemma RightOf(keys: seq<Key>, ch: seq<Ref>, lo: Option<Key>, hi: Option<Key>, k: Key, p: nat)
    requires WF(Cell(Inner(keys, ch)), lo, hi)
    requires p <= |keys| && (p < |keys| ==> k < keys[p])
    ensures Above(FlatAll(ch[p + 1..]), k)
  {
    hide Flat, FlatAll;
    if p < |keys| {
      SuffixWithin(keys, ch, lo, hi, p + 1);
      hide WF;
    } else {
      NoEntries(ch[p + 1..]);
    }
  }

  lemma FlatSplit(ch: seq<Ref>, p: nat)
    requires p < |ch|
    ensures FlatAll(ch) == FlatAll(ch[..p]) + Flat(ch[p]) + FlatAll(ch[p + 1..])
  {
    hide Flat, FlatAll;
    assert ch == ch[..p] + ([ch[p]] + ch[p + 1..]);
    FlatConcat(ch[..p], [ch[p]] + ch[p + 1..]);
    FlatConcat([ch[p]], ch[p + 1..]);
    FlatOne(ch[p]);
  }

  lemma NoEntries(ch: seq<Ref>)
    requires ch == []
    ensures FlatAll(ch) == []
  {
  }

  type Store = set<Ref>

  function Read(store: Store, r: Ref): Option<Node> {
    if r.Cell? && r in store then Some(r.node) else None
  }

  ghost predicate Present(store: Store, r: Ref) {
    r.Empty? || (r in store && (r.node.Inner? ==> forall c :: c in r.node.children ==> Present(store, c)))
  }

  lemma {:induction false} PresentGrows(store: Store, store': Store, r: Ref)
    requires Present(store, r) && store <= store'
    ensures Present(store', r)
    decreases r
  {
    if r.Cell? && r.node.Inner? {
      forall c | c in r.node.children ensures Present(store', c) {
        PresentGrows(store, store', c);
      }
    }
  }

  /** Point lookup: one path down the routing keys. */
  function GetAt(store: Store, r: Ref, k: Key): Option<Val>
    decreases r
  {
    match Read(store, r)
    case None => None
    case Some(Leaf(e)) => Lookup(e, k)
    case Some(Inner(keys, ch)) =>
      var p := Pos(keys, k);
      if p < |ch| then GetAt(store, ch[p], k) else None
  }

  /** A lookup finds exactly what the tree holds. */
  lemma {:induction false} GetCorrect(store: Store, r: Ref, k: Key, lo: Option<Key>, hi: Option<Key>)
    requires Present(store, r) && WF(r, lo, hi) && Within(k, lo, hi)
    ensures GetAt(store, r, k) == Lookup(Flat(r), k)
    decreases r
  {
    if r.node.Inner? {
      var keys, ch := r.node.keys, r.node.children;
      var p := Pos(keys, k);
      Around(keys, ch, lo, hi, k);
      GetCorrect(store, ch[p], k, LoOf(keys, lo, p), HiOf(keys, hi, p));
      LookupMiddle(FlatAll(ch[..p]), Flat(ch[p]), FlatAll(ch[p + 1..]), k);
    }
  }
}
