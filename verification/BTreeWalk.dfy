/** Ordered reads of the B+-tree: full walk, range scan, and a cursor that re-seeks from the
    current root at every step. */
module BTreeWalk {
  import opened Options
  import opened BTree

  // ---------- full walk ----------

  method CollectEntries(store: Store, r: Ref, out: seq<Entry>) returns (out': seq<Entry>)
    ensures Present(store, r) ==> out' == out + Flat(r)
    decreases r
  {
    out' := out;
    match Read(store, r) {
      case None =>
      case Some(Leaf(e)) => out' := out' + e;
      case Some(Inner(keys, ch)) =>
        for i := 0 to |ch|
          invariant Present(store, r) ==> out' == out + FlatAll(ch[..i])
        {
          FlatNext(ch, i);
          out' := CollectEntries(store, ch[i], out');
        }
        assert ch[..|ch|] == ch;
    }
  }

  lemma FlatNext(ch: seq<Ref>, i: nat)
    requires i < |ch|
    ensures FlatAll(ch[..i + 1]) == FlatAll(ch[..i]) + Flat(ch[i])
  {
    assert ch[..i + 1] == ch[..i] + [ch[i]];
    FlatConcat(ch[..i], [ch[i]]);
    FlatOne(ch[i]);
  }

  // ---------- range ----------

  /** Values whose keys lie in `[lo, hi]`, in order. */
  function InRange(s: seq<Entry>, lo: Key, hi: Key): seq<Val> {
    if s == [] then [] else (if lo <= s[0].0 <= hi then [s[0].1] else []) + InRange(s[1..], lo, hi)
  }

  lemma {:induction false} InRangeConcat(a: seq<Entry>, b: seq<Entry>, lo: Key, hi: Key)
    ensures InRange(a + b, lo, hi) == InRange(a, lo, hi) + InRange(b, lo, hi)
  {
    if a == [] {
      assert a + b == b;
    } else {
      assert (a + b)[0] == a[0] && (a + b)[1..] == a[1..] + b;
      InRangeConcat(a[1..], b, lo, hi);
    }
  }

  lemma {:induction false} NoneInRange(s: seq<Entry>, lo: Key, hi: Key)
    requires forall e :: e in s ==> !(lo <= e.0 <= hi)
    ensures InRange(s, lo, hi) == []
  {
    if s != [] {
      assert s[0] in s;
      NoneInRange(s[1..], lo, hi);
    }
  }

  /** A leaf scan stops at the first key above the range. */
  method RangeLeaf(e: seq<Entry>, lo: Key, hi: Key, out: seq<Val>) returns (out': seq<Val>)
    requires Sorted(e)
    ensures out' == out + InRange(e, lo, hi)
  {
    hide InRange;
    out' := out;
    var i := 0;
    RangeNothing(lo, hi);
    while i < |e|
      invariant 0 <= i <= |e|
      invariant out' == out + InRange(e[..i], lo, hi)
    {
      RangeOne(e, i, lo, hi);
      if e[i].0 > hi {
        break;
      }
      if e[i].0 >= lo {
        out' := out' + [e[i].1];
      }
      i := i + 1;
    }
    RangeRest(e, i, lo, hi);
  }

  lemma RangeOne(e: seq<Entry>, i: nat, lo: Key, hi: Key)
    requires i < |e|
    ensures InRange(e[..i + 1], lo, hi) == InRange(e[..i], lo, hi) + if lo <= e[i].0 <= hi then [e[i].1] else []
  {
    assert e[..i + 1] == e[..i] + [e[i]];
    InRangeConcat(e[..i], [e[i]], lo, hi);
    assert [e[i]][1..] == [];
  }

  lemma RangeRest(e: seq<Entry>, i: nat, lo: Key, hi: Key)
    requires i <= |e| && Sorted(e) && (i < |e| ==> hi < e[i].0)
    ensures InRange(e, lo, hi) == InRange(e[..i], lo, hi)
  {
    hide InRange;
    assert e == e[..i] + e[i..];
    InRangeConcat(e[..i], e[i..], lo, hi);
    NoneInRange(e[i..], lo, hi);
  }

  /** Only the children that can overlap the range are visited, and nothing in it is missed. */
  method RangeAt(store: Store, r: Ref, lo: Key, hi: Key, out: seq<Val>,
                 ghost least: Option<Key>, ghost most: Option<Key>) returns (out': seq<Val>)
    requires WF(r, least, most)
    ensures Present(store, r) ==> out' == out + InRange(Flat(r), lo, hi)
    decreases r
  {
    hide InRange, FlatAll, Pos;
    out' := out;
    match Read(store, r) {
      case None =>
      case Some(Leaf(e)) => out' := RangeLeaf(e, lo, hi, out');
      case Some(Inner(keys, ch)) =>
        var first := DescendPos(keys, lo);
        var last := DescendPos(keys, hi);
        var pos := first;
        RangeNothing(lo, hi);
        assert ch[first..first] == [];
        while pos <= last
          invariant first <= pos && (first <= last ==> pos <= last + 1)
          invariant first > last ==> pos == first
          invariant Present(store, r) ==> out' == out + InRange(FlatAll(ch[first..pos]), lo, hi)
          decreases last + 1 - pos
        {
          MidNext(ch, first, pos, lo, hi);
          out' := RangeAt(store, ch[pos], lo, hi, out', LoOf(keys, least, pos), HiOf(keys, most, pos));
          pos := pos + 1;
        }
        RangeCut(keys, ch, lo, hi, least, most);
    }
  }

  lemma RangeNothing(lo: Key, hi: Key)
    ensures InRange([], lo, hi) == [] && FlatAll([]) == []
  {
  }

  lemma MidNext(ch: seq<Ref>, first: nat, pos: nat, lo: Key, hi: Key)
    requires first <= pos < |ch|
    ensures InRange(FlatAll(ch[first..pos + 1]), lo, hi)
         == InRange(FlatAll(ch[first..pos]), lo, hi) + InRange(Flat(ch[pos]), lo, hi)
  {
    hide Flat, FlatAll, InRange;
    var mid := ch[first..pos + 1];
    FlatNext(mid, pos - first);
    assert mid[..pos - first + 1] == mid && mid[..pos - first] == ch[first..pos];
    InRangeConcat(FlatAll(ch[first..pos]), Flat(ch[pos]), lo, hi);
  }

  lemma RangeCut(keys: seq<Key>, ch: seq<Ref>, lo: Key, hi: Key, least: Option<Key>, most: Option<Key>)
    requires WF(Cell(Inner(keys, ch)), least, most)
    ensures var first, last := Pos(keys, lo), Pos(keys, hi);
      && first < |ch| && last < |ch|
      && InRange(Flat(Cell(Inner(keys, ch))), lo, hi)
         == if first <= last then InRange(FlatAll(ch[first..last + 1]), lo, hi) else []
  {
    hide InRange, FlatAll;
    var first, last := Pos(keys, lo), Pos(keys, hi);
    if first <= last {
      LeftOf(keys, ch, least, most, lo, first);
      RightOf(keys, ch, least, most, hi, last);
      hide WF;
      CutThree(ch, first, last + 1, lo, hi);
    } else {
      assert last < |keys| && hi < keys[last] <= lo;
      NoneInRange(FlatAll(ch), lo, hi);
    }
  }

  /** Children left of the range or right of it contribute nothing. */
  lemma CutThree(ch: seq<Ref>, a: nat, b: nat, lo: Key, hi: Key)
    requires a <= b <= |ch| && Below(FlatAll(ch[..a]), lo) && Above(FlatAll(ch[b..]), hi)
    ensures InRange(FlatAll(ch), lo, hi) == InRange(FlatAll(ch[a..b]), lo, hi)
  {
    hide InRange, FlatAll;
    var x, y, z := ch[..a], ch[a..b], ch[b..];
    assert ch == x + y + z;
    FlatConcat(x + y, z);
    FlatConcat(x, y);
    InRangeConcat(FlatAll(x) + FlatAll(y), FlatAll(z), lo, hi);
    InRangeConcat(FlatAll(x), FlatAll(y), lo, hi);
    NoneInRange(FlatAll(x), lo, hi);
    NoneInRange(FlatAll(z), lo, hi);
  }

  // ---------- seeking ----------

  ghost predicate After(k: Key, target: Option<Key>) { target.Some? ==> target.value < k }

  /** First entry after the target. */
  function Next(s: seq<Entry>, target: Option<Key>): (r: Option<Entry>)
    ensures r.Some? ==> r.value in s && After(r.value.0, target)
  {
    if s == [] then None
    else if target.None? || s[0].0 > target.value then Some(s[0])
    else Next(s[1..], target)
  }

  function Start(keys: seq<Key>, target: Option<Key>): (p: nat)
    ensures p <= |keys|
  {
    if target.None? then 0 else Pos(keys, target.value)
  }

  /** Directed descent, moving on to the next sibling when a subtree has nothing to offer. */
  function FirstGreaterAt(store: Store, r: Ref, target: Option<Key>): Option<Entry>
    decreases r, 1, 0
  {
    match Read(store, r)
    case None => None
    case Some(Leaf(e)) => Next(e, target)
    case Some(Inner(keys, ch)) => FirstGreaterIn(store, r, Start(keys, target), target)
  }

  function FirstGreaterIn(store: Store, r: Ref, i: nat, target: Option<Key>): Option<Entry>
    requires r.Cell? && r.node.Inner?
    decreases r, 0, if i < |r.node.children| then |r.node.children| - i else 0
  {
    var ch := r.node.children;
    if i >= |ch| then None
    else
      var got := FirstGreaterAt(store, ch[i], target);
      if got.Some? then got else FirstGreaterIn(store, r, i + 1, None)
  }

  lemma {:induction false} NextConcat(a: seq<Entry>, b: seq<Entry>, target: Option<Key>)
    ensures Next(a + b, target) == if Next(a, target).Some? then Next(a, target) else Next(b, target)
  {
    if a == [] {
      assert a + b == b;
    } else {
      assert (a + b)[0] == a[0] && (a + b)[1..] == a[1..] + b;
      NextConcat(a[1..], b, target);
    }
  }

  lemma {:induction false} NextAbove(s: seq<Entry>, target: Option<Key>)
    requires forall e :: e in s ==> After(e.0, target)
    ensures Next(s, target) == Next(s, None)
  {
    if s != [] {
      assert s[0] in s;
    }
  }

  lemma {:induction false} NextBelow(s: seq<Entry>, k: Key)
    requires Below(s, k)
    ensures Next(s, Some(k)) == None
  {
    if s != [] {
      assert s[0] in s;
      NextBelow(s[1..], k);
    }
  }

  /** The descent finds the first entry after the target. */
  lemma {:induction false} SeekCorrect(store: Store, r: Ref, target: Option<Key>, lo: Option<Key>, hi: Option<Key>)
    requires Present(store, r) && WF(r, lo, hi)
    ensures FirstGreaterAt(store, r, target) == Next(Flat(r), target)
    decreases r, 2, 0
  {
    if r.node.Inner? {
      var keys, ch := r.node.keys, r.node.children;
      var p := Start(keys, target);
      SeekChild(store, keys, ch, p, target, lo, hi);
      SeekSkip(keys, ch, target, lo, hi);
    }
  }

  lemma FlatFrom(ch: seq<Ref>, i: nat)
    requires i < |ch|
    ensures FlatAll(ch[i..]) == Flat(ch[i]) + FlatAll(ch[i + 1..])
  {
    assert ch[i..][0] == ch[i] && ch[i..][1..] == ch[i + 1..];
  }

  lemma {:induction false} SeekRest(store: Store, keys: seq<Key>, ch: seq<Ref>, i: nat, lo: Option<Key>, hi: Option<Key>)
    requires Present(store, Cell(Inner(keys, ch))) && WF(Cell(Inner(keys, ch)), lo, hi) && i <= |ch|
    ensures FirstGreaterIn(store, Cell(Inner(keys, ch)), i, None) == Next(FlatAll(ch[i..]), None)
    decreases Cell(Inner(keys, ch)), 0, |ch| - i
  {
    if i < |ch| {
      hide Flat, FlatAll, Next;
      SeekCorrect(store, ch[i], None, LoOf(keys, lo, i), HiOf(keys, hi, i));
      SeekRest(store, keys, ch, i + 1, lo, hi);
      FlatFrom(ch, i);
      NextConcat(Flat(ch[i]), FlatAll(ch[i + 1..]), None);
    }
  }

  lemma {:induction false} SeekChild(store: Store, keys: seq<Key>, ch: seq<Ref>, p: nat, target: Option<Key>,
                                     lo: Option<Key>, hi: Option<Key>)
    requires Present(store, Cell(Inner(keys, ch))) && WF(Cell(Inner(keys, ch)), lo, hi)
    requires p == Start(keys, target)
    ensures p < |ch|
    ensures FirstGreaterIn(store, Cell(Inner(keys, ch)), p, target) == Next(FlatAll(ch[p..]), target)
    decreases Cell(Inner(keys, ch)), 1, 0
  {
    hide Flat, FlatAll, Next;
    SeekCorrect(store, ch[p], target, LoOf(keys, lo, p), HiOf(keys, hi, p));
    SeekRest(store, keys, ch, p + 1, lo, hi);
    FlatFrom(ch, p);
    NextConcat(Flat(ch[p]), FlatAll(ch[p + 1..]), target);
    if target.Some? {
      RightOf(keys, ch, lo, hi, target.value, p);
    }
    NextAbove(FlatAll(ch[p + 1..]), target);
  }

  lemma SeekSkip(keys: seq<Key>, ch: seq<Ref>, target: Option<Key>, lo: Option<Key>, hi: Option<Key>)
    requires WF(Cell(Inner(keys, ch)), lo, hi)
    ensures var p := Start(keys, target);
      p < |ch| && Next(FlatAll(ch), target) == Next(FlatAll(ch[p..]), target)
  {
    hide Flat, FlatAll, Next;
    var p := Start(keys, target);
    if target.Some? {
      assert ch == ch[..p] + ch[p..];
      FlatConcat(ch[..p], ch[p..]);
      LeftOf(keys, ch, lo, hi, target.value, p);
      NextBelow(FlatAll(ch[..p]), target.value);
      NextConcat(FlatAll(ch[..p]), FlatAll(ch[p..]), target);
    } else {
      assert ch[0..] == ch;
    }
  }

  method Entries(store: Store, root: Ref) returns (out: seq<Entry>)
    ensures Present(store, root) ==> out == Flat(root)
  {
    out := CollectEntries(store, root, []);
  }

  method Range(store: Store, root: Ref, lo: Key, hi: Key) returns (out: seq<Val>)
    requires Root(root)
    ensures Present(store, root) ==> out == InRange(Flat(root), lo, hi)
  {
    out := [];
    if root.Cell? {
      out := RangeAt(store, root, lo, hi, out, None, None);
    }
  }

  // ---------- cursors ----------

  /** What a cursor yields when its `i`-th step finds the tree at `roots[i]`. It stops at the first
      step that finds nothing. */
  ghost function Walk(store: Store, roots: seq<Ref>, last: Option<Key>): (y: seq<Entry>)
    ensures |y| <= |roots|
  {
    if roots == [] then []
    else
      match FirstGreaterAt(store, roots[0], last)
      case None => []
      case Some(e) => [e] + Walk(store, roots[1..], Some(e.0))
  }

  ghost predicate Holds(s: seq<Entry>, k: Key) { exists e :: e in s && e.0 == k }

  lemma SeekRoot(store: Store, root: Ref, target: Option<Key>)
    requires Root(root) && Present(store, root)
    ensures FirstGreaterAt(store, root, target) == Next(Flat(root), target)
    ensures Sorted(Flat(root))
  {
    if root.Cell? {
      SeekCorrect(store, root, target, None, None);
      FlatSorted(root, None, None);
    }
  }

  /** Nothing lies strictly between the target and what the seek returns. */
  lemma {:induction false} NextLeast(s: seq<Entry>, target: Option<Key>, k: Key)
    requires Sorted(s) && Holds(s, k) && After(k, target)
    ensures Next(s, target).Some? && Next(s, target).value.0 <= k
  {
    var e :| e in s && e.0 == k;
    var i :| 0 <= i < |s| && s[i] == e;
    if i > 0 && !(target.None? || s[0].0 > target.value) {
      assert s[1..][i - 1] == e;
      NextLeast(s[1..], target, k);
    }
  }

  /** A cursor over a changing tree: keys strictly increase, each entry is in the tree when it is
      yielded, and a walk that runs to its end has yielded every key present all along. */
  lemma CursorCorrect(store: Store, roots: seq<Ref>, last: Option<Key>)
    requires forall i :: 0 <= i < |roots| ==> Root(roots[i]) && Present(store, roots[i])
    ensures var y := Walk(store, roots, last);
      && Sorted(y)
      && (forall i :: 0 <= i < |y| ==> y[i] in Flat(roots[i]) && After(y[i].0, last))
      && (|y| < |roots| ==> forall k | After(k, last) && (forall i :: 0 <= i <= |y| ==> Holds(Flat(roots[i]), k)) :: Holds(y, k))
  {
    hide *;
    var y := Walk(store, roots, last);
    CursorOrder(store, roots, last);
    if |y| < |roots| {
      forall k | After(k, last) && (forall i :: 0 <= i <= |y| ==> Holds(Flat(roots[i]), k)) ensures Holds(y, k) {
        CursorFinds(store, roots, last, k);
      }
    }
  }

  lemma {:induction false} CursorOrder(store: Store, roots: seq<Ref>, last: Option<Key>)
    requires forall i :: 0 <= i < |roots| ==> Root(roots[i]) && Present(store, roots[i])
    ensures var y := Walk(store, roots, last);
      |y| <= |roots| && Sorted(y) && forall i :: 0 <= i < |y| ==> y[i] in Flat(roots[i]) && After(y[i].0, last)
  {
    hide FirstGreaterAt, Flat, Next, WF, Present, Sorted;
    var y := Walk(store, roots, last);
    if roots != [] && y != [] {
      var rest := roots[1..];
      SeekRoot(store, roots[0], last);
      NextIn(Flat(roots[0]), last);
      CursorOrder(store, rest, Some(y[0].0));
      var z := Walk(store, rest, Some(y[0].0));
      assert y == [y[0]] + z;
      forall i | 0 <= i < |y| ensures y[i] in Flat(roots[i]) && After(y[i].0, last) {
        if i > 0 {
          assert y[i] == z[i - 1] && roots[i] == rest[i - 1];
        }
      }
      SortedCons(y[0], z);
    } else {
      SortedNone(y);
    }
  }

  lemma SortedNone(y: seq<Entry>)
    ensures y == [] ==> Sorted(y)
  {
  }

  lemma {:induction false} CursorFinds(store: Store, roots: seq<Ref>, last: Option<Key>, k: Key)
    requires forall i :: 0 <= i < |roots| ==> Root(roots[i]) && Present(store, roots[i])
    requires |Walk(store, roots, last)| < |roots| && After(k, last)
    requires forall i :: 0 <= i <= |Walk(store, roots, last)| ==> Holds(Flat(roots[i]), k)
    ensures Holds(Walk(store, roots, last), k)
  {
    hide FirstGreaterAt, Flat, Next, WF, Present, Sorted, Holds;
    var y := Walk(store, roots, last);
    SeekRoot(store, roots[0], last);
    assert Holds(Flat(roots[0]), k);
    NextLeast(Flat(roots[0]), last, k);
    var z := Walk(store, roots[1..], Some(y[0].0));
    assert y == [y[0]] + z;
    if y[0].0 == k {
      HoldsHead(y, k);
    } else {
      CursorTail(roots, y, k);
      assert y[1..] == z;
      CursorFinds(store, roots[1..], Some(y[0].0), k);
      HoldsTail(y, k);
    }
  }

  lemma HoldsHead(y: seq<Entry>, k: Key)
    requires y != [] && y[0].0 == k
    ensures Holds(y, k)
  {
    assert y[0] in y;
  }

  lemma NextIn(s: seq<Entry>, target: Option<Key>)
    ensures Next(s, target).Some? ==> Next(s, target).value in s && After(Next(s, target).value.0, target)
  {
  }

  lemma CursorTail(roots: seq<Ref>, y: seq<Entry>, k: Key)
    requires 0 < |y| < |roots| && forall i :: 0 <= i <= |y| ==> Holds(Flat(roots[i]), k)
    ensures forall i :: 0 <= i <= |y[1..]| ==> Holds(Flat(roots[1..][i]), k)
  {
    forall i | 0 <= i <= |y[1..]| ensures Holds(Flat(roots[1..][i]), k) {
      assert roots[1..][i] == roots[i + 1];
    }
  }

  lemma HoldsTail(y: seq<Entry>, k: Key)
    requires y != [] && Holds(y[1..], k)
    ensures Holds(y, k)
  {
    var e :| e in y[1..] && e.0 == k;
    assert e in y;
  }

  /** With no change in between, a cursor yields exactly the entries of the tree. */
  lemma {:induction false} CursorStill(store: Store, root: Ref, roots: seq<Ref>, i: nat)
    requires Root(root) && Present(store, root) && forall j :: 0 <= j < |roots| ==> roots[j] == root
    requires i <= |Flat(root)| < i + |roots|
    ensures Walk(store, roots, if i == 0 then None else Some(Flat(root)[i - 1].0)) == Flat(root)[i..]
    decreases |Flat(root)| - i
  {
    hide FirstGreaterAt, Flat, Next, WF, Present;
    var s := Flat(root);
    var last := if i == 0 then None else Some(s[i - 1].0);
    SeekRoot(store, root, last);
    NextAt(s, i);
    assert roots[0] == root;
    if i < |s| {
      CursorStill(store, root, roots[1..], i + 1);
      assert s[i..] == [s[i]] + s[i + 1..];
    }
  }

  lemma {:induction false} NextAt(s: seq<Entry>, i: nat)
    requires Sorted(s) && i <= |s|
    ensures Next(s, if i == 0 then None else Some(s[i - 1].0)) == if i < |s| then Some(s[i]) else None
    decreases |s|
  {
    if i == 1 {
      if |s| > 1 {
        assert s[1..][0] == s[1];
      }
    } else if i > 1 {
      NextAt(s[1..], i - 1);
    }
  }
}
