/** Insertion into the B+-tree: path copying, leaf and inner splits. */
module BTreeSet {
  import opened Options
  import opened BTree

  datatype SetResult = Plain(ref: Ref) | Split(left: Ref, sep: Key, right: Ref)

  /** A leaf with these entries, cut in two when it is over-full. */
  function PackLeaf(e: seq<Entry>): SetResult {
    if |e| <= B then Plain(Cell(Leaf(e)))
    else
      var mid := |e| / 2;
      Split(Cell(Leaf(e[..mid])), e[mid].0, Cell(Leaf(e[mid..])))
  }

  /** An inner node, cut in two around its middle key when it is over-full. */
  function PackInner(keys: seq<Key>, ch: seq<Ref>): SetResult {
    if |keys| <= B || |ch| != |keys| + 1 then Plain(Cell(Inner(keys, ch)))
    else
      var mid := |keys| / 2;
      Split(Cell(Inner(keys[..mid], ch[..mid + 1])), keys[mid], Cell(Inner(keys[mid + 1..], ch[mid + 1..])))
  }

  /** The parent after the child at `p` became `res`. */
  function Adopt(keys: seq<Key>, ch: seq<Ref>, p: nat, res: SetResult): SetResult
    requires p <= |keys| && p < |ch|
  {
    match res
    case Plain(c) => Plain(Cell(Inner(keys, ch[p := c])))
    case Split(l, sep, r) => PackInner(keys[..p] + [sep] + keys[p..], ch[..p] + [l, r] + ch[p + 1..])
  }

  function SetAt(r: Ref, k: Key, v: Val): SetResult
    decreases r
  {
    match r
    case Empty => Plain(Cell(Leaf([(k, v)])))
    case Cell(Leaf(e)) => PackLeaf(Ins(e, k, v))
    case Cell(Inner(keys, ch)) =>
      var p := Pos(keys, k);
      if p < |ch| then Adopt(keys, ch, p, SetAt(ch[p], k, v)) else Plain(r)
  }

  /** A split root is wrapped under a fresh one. */
  function Wrap(res: SetResult): Ref {
    match res
    case Plain(r) => r
    case Split(l, sep, r) => Cell(Inner([sep], [l, r]))
  }

  function Set(r: Ref, k: Key, v: Val): Ref { Wrap(SetAt(r, k, v)) }

  // ---------- what a result holds ----------

  function ResFlat(res: SetResult): seq<Entry> {
    match res
    case Plain(r) => Flat(r)
    case Split(l, _, r) => Flat(l) + Flat(r)
  }

  ghost predicate ResWF(res: SetResult, lo: Option<Key>, hi: Option<Key>) {
    match res
    case Plain(r) => WF(r, lo, hi)
    case Split(l, sep, r) =>
      Within(sep, lo, hi) && lo != Some(sep) && WF(l, lo, Some(sep)) && WF(r, Some(sep), hi)
  }

  lemma PackLeafCorrect(e: seq<Entry>, lo: Option<Key>, hi: Option<Key>)
    requires e != [] && Sorted(e) && AllWithin(e, lo, hi)
    ensures ResWF(PackLeaf(e), lo, hi) && ResFlat(PackLeaf(e)) == e
  {
    if |e| > B {
      var mid := |e| / 2;
      Halves(e, lo, hi, mid);
      hide Sorted, AllWithin;
      assert e[..mid] + e[mid..] == e;
    }
  }

  lemma Halves(e: seq<Entry>, lo: Option<Key>, hi: Option<Key>, mid: nat)
    requires Sorted(e) && AllWithin(e, lo, hi) && 0 < mid < |e|
    ensures var sep := e[mid].0;
      && Within(sep, lo, hi) && lo != Some(sep)
      && WF(Cell(Leaf(e[..mid])), lo, Some(sep)) && WF(Cell(Leaf(e[mid..])), Some(sep), hi)
  {
    assert e[mid] in e && e[0] in e && e[0].0 < e[mid].0;
  }

  lemma ReplaceChild(keys: seq<Key>, ch: seq<Ref>, lo: Option<Key>, hi: Option<Key>, p: nat, c: Ref)
    requires WF(Cell(Inner(keys, ch)), lo, hi) && p < |ch|
    requires WF(c, LoOf(keys, lo, p), HiOf(keys, hi, p))
    ensures WF(Cell(Inner(keys, ch[p := c])), lo, hi)
    ensures FlatAll(ch[p := c]) == FlatAll(ch[..p]) + Flat(c) + FlatAll(ch[p + 1..])
  {
    hide Flat, FlatAll;
    FlatSplit(ch[p := c], p);
    assert ch[p := c][..p] == ch[..p] && ch[p := c][p + 1..] == ch[p + 1..];
  }

  lemma SplitKeys(keys: seq<Key>, lo: Option<Key>, hi: Option<Key>, p: nat, sep: Key)
    requires p <= |keys| && Ascending(keys)
    requires forall i :: 0 <= i < |keys| ==> Within(keys[i], lo, hi) && lo != Some(keys[i])
    requires Within(sep, LoOf(keys, lo, p), HiOf(keys, hi, p)) && LoOf(keys, lo, p) != Some(sep)
    ensures var keys' := keys[..p] + [sep] + keys[p..];
      && Ascending(keys')
      && forall i :: 0 <= i < |keys'| ==> Within(keys'[i], lo, hi) && lo != Some(keys'[i])
  {
    assert forall i :: 0 <= i < p ==> keys[i] < sep;
    assert forall i :: p <= i < |keys| ==> sep < keys[i];
    assert p > 0 ==> Within(keys[p - 1], lo, hi);
    assert p < |keys| ==> Within(keys[p], lo, hi);
  }

  lemma SplitChild(keys: seq<Key>, ch: seq<Ref>, lo: Option<Key>, hi: Option<Key>, p: nat, l: Ref, sep: Key, r: Ref)
    requires WF(Cell(Inner(keys, ch)), lo, hi) && p < |ch|
    requires ResWF(Split(l, sep, r), LoOf(keys, lo, p), HiOf(keys, hi, p))
    ensures WF(Cell(Inner(keys[..p] + [sep] + keys[p..], ch[..p] + [l, r] + ch[p + 1..])), lo, hi)
  {
    SplitKeys(keys, lo, hi, p, sep);
    var keys', ch' := keys[..p] + [sep] + keys[p..], ch[..p] + [l, r] + ch[p + 1..];
    forall i | 0 <= i < |ch'| ensures WF(ch'[i], LoOf(keys', lo, i), HiOf(keys', hi, i)) {
      if i < p {
        assert WF(ch[i], LoOf(keys, lo, i), HiOf(keys, hi, i));
      } else if i > p + 1 {
        assert ch'[i] == ch[i - 1];
        assert WF(ch[i - 1], LoOf(keys, lo, i - 1), HiOf(keys, hi, i - 1));
      }
    }
  }

  lemma SplitFlat(ch: seq<Ref>, p: nat, l: Ref, r: Ref)
    requires p < |ch|
    ensures FlatAll(ch[..p] + [l, r] + ch[p + 1..]) == FlatAll(ch[..p]) + (Flat(l) + Flat(r)) + FlatAll(ch[p + 1..])
  {
    hide Flat, FlatAll;
    assert [l, r] == [l] + [r];
    FlatConcat(ch[..p] + [l, r], ch[p + 1..]);
    FlatConcat(ch[..p], [l, r]);
    FlatConcat([l], [r]);
    FlatOne(l);
    FlatOne(r);
  }

  lemma PackInnerCorrect(keys: seq<Key>, ch: seq<Ref>, lo: Option<Key>, hi: Option<Key>)
    requires WF(Cell(Inner(keys, ch)), lo, hi)
    ensures ResWF(PackInner(keys, ch), lo, hi) && ResFlat(PackInner(keys, ch)) == FlatAll(ch)
  {
    if |keys| > B {
      var mid := |keys| / 2;
      LeftHalf(keys, ch, lo, hi, mid);
      RightHalf(keys, ch, lo, hi, mid);
      hide WF, FlatAll;
      assert ch == ch[..mid + 1] + ch[mid + 1..];
      FlatConcat(ch[..mid + 1], ch[mid + 1..]);
    }
  }

  lemma LeftHalf(keys: seq<Key>, ch: seq<Ref>, lo: Option<Key>, hi: Option<Key>, mid: nat)
    requires WF(Cell(Inner(keys, ch)), lo, hi) && 0 < mid < |keys|
    ensures WF(Cell(Inner(keys[..mid], ch[..mid + 1])), lo, Some(keys[mid]))
    ensures Within(keys[mid], lo, hi) && lo != Some(keys[mid])
  {
    var ks, cs, top := keys[..mid], ch[..mid + 1], Some(keys[mid]);
    forall i | 0 <= i < |cs| ensures WF(cs[i], LoOf(ks, lo, i), HiOf(ks, top, i)) {
      assert WF(ch[i], LoOf(keys, lo, i), HiOf(keys, hi, i));
    }
  }

  lemma RightHalf(keys: seq<Key>, ch: seq<Ref>, lo: Option<Key>, hi: Option<Key>, mid: nat)
    requires WF(Cell(Inner(keys, ch)), lo, hi) && mid < |keys| - 1
    ensures WF(Cell(Inner(keys[mid + 1..], ch[mid + 1..])), Some(keys[mid]), hi)
  {
    var ks, cs, bottom := keys[mid + 1..], ch[mid + 1..], Some(keys[mid]);
    forall i | 0 <= i < |cs| ensures WF(cs[i], LoOf(ks, bottom, i), HiOf(ks, hi, i)) {
      assert WF(ch[mid + 1 + i], LoOf(keys, lo, mid + 1 + i), HiOf(keys, hi, mid + 1 + i));
    }
  }

  lemma AdoptCorrect(keys: seq<Key>, ch: seq<Ref>, lo: Option<Key>, hi: Option<Key>, p: nat, res: SetResult)
    requires WF(Cell(Inner(keys, ch)), lo, hi) && p < |ch|
    requires ResWF(res, LoOf(keys, lo, p), HiOf(keys, hi, p))
    ensures ResWF(Adopt(keys, ch, p, res), lo, hi)
    ensures ResFlat(Adopt(keys, ch, p, res)) == FlatAll(ch[..p]) + ResFlat(res) + FlatAll(ch[p + 1..])
  {
    match res
    case Plain(c) =>
      ReplaceChild(keys, ch, lo, hi, p, c);
    case Split(l, sep, r) =>
      SplitChild(keys, ch, lo, hi, p, l, sep, r);
      PackInnerCorrect(keys[..p] + [sep] + keys[p..], ch[..p] + [l, r] + ch[p + 1..], lo, hi);
      SplitFlat(ch, p, l, r);
  }

  /** Inserting keeps the bounds and performs the sorted insertion on the contents. */
  lemma {:induction false} SetAtCorrect(r: Ref, k: Key, v: Val, lo: Option<Key>, hi: Option<Key>)
    requires WF(r, lo, hi) && Within(k, lo, hi)
    ensures ResWF(SetAt(r, k, v), lo, hi)
    ensures ResFlat(SetAt(r, k, v)) == Ins(Flat(r), k, v)
    decreases r
  {
    match r.node
    case Leaf(e) =>
      InsKeys(e, k, v);
      PackLeafCorrect(Ins(e, k, v), lo, hi);
    case Inner(keys, ch) =>
      var p := Pos(keys, k);
      Around(keys, ch, lo, hi, k);
      SetAtCorrect(ch[p], k, v, LoOf(keys, lo, p), HiOf(keys, hi, p));
      AdoptCorrect(keys, ch, lo, hi, p, SetAt(ch[p], k, v));
      InsMiddle(FlatAll(ch[..p]), Flat(ch[p]), FlatAll(ch[p + 1..]), k, v);
  }

  lemma WrapCorrect(res: SetResult)
    requires ResWF(res, None, None)
    ensures WF(Wrap(res), None, None) && Flat(Wrap(res)) == ResFlat(res)
  {
    match res
    case Plain(_) =>
    case Split(l, sep, r) =>
      FlatOne(r);
      assert [l, r][1..] == [r];
  }

  /** Setting a key on any root yields a well-formed root with exactly that key changed. */
  lemma SetCorrect(r: Ref, k: Key, v: Val)
    requires Root(r)
    ensures WF(Set(r, k, v), None, None)
    ensures Flat(Set(r, k, v)) == Ins(Flat(r), k, v)
  {
    if r.Cell? {
      SetAtCorrect(r, k, v, None, None);
      WrapCorrect(SetAt(r, k, v));
    }
  }
}
