/** Mark and sweep of the node cells of persistent maps and vectors. The store is arbitrary: subtrees may be shared,
    cells missing or undecodable, references even cyclic. */
module Gc {
  import opened Options

  type Hash = nat
  type Blob = seq<int>
  type Store = map<Hash, Blob>

  const EMPTY: Hash := 0

  datatype Node = Inner(children: seq<Hash>) | Leaf

  /** State types: maps and vectors are trees of node cells, with their entry types by name. */
  datatype Type = PMap(entry: int) | PVec(elem: int) | Other

  /** How cells decode, at a given state type, as a node and as a root. */
  datatype Codec = Codec(node: (Blob, Type) -> Option<Node>, root: (Blob, Type) -> Option<Hash>)

  function Children(k: Codec, ty: Type, store: Store, h: Hash): seq<Hash> {
    if h !in store then []
    else
      match k.node(store[h], ty)
      case Some(Inner(ch)) => ch
      case _ => []
  }

  // ---------- reachability ----------

  /** A chain of references, none of them the empty one. */
  ghost predicate Path(k: Codec, ty: Type, store: Store, p: seq<Hash>) {
    && p != [] && (forall i :: 0 <= i < |p| ==> p[i] != EMPTY)
    && forall i :: 0 <= i < |p| - 1 ==> p[i + 1] in Children(k, ty, store, p[i])
  }

  ghost predicate Reachable(k: Codec, ty: Type, store: Store, from: Hash, h: Hash) {
    exists p :: Path(k, ty, store, p) && p[0] == from && p[|p| - 1] == h
  }

  ghost predicate Closed(k: Codec, ty: Type, store: Store, inside: set<Hash>, within: set<Hash>) {
    forall h, c :: h in inside && c in Children(k, ty, store, h) && c != EMPTY ==> c in within
  }

  lemma ReachSelf(k: Codec, ty: Type, store: Store, h: Hash)
    requires h != EMPTY
    ensures Reachable(k, ty, store, h, h)
  {
    assert Path(k, ty, store, [h]);
  }

  lemma ReachChild(k: Codec, ty: Type, store: Store, h: Hash, c: Hash, d: Hash)
    requires h != EMPTY && c in Children(k, ty, store, h) && Reachable(k, ty, store, c, d)
    ensures Reachable(k, ty, store, h, d)
  {
    var p :| Path(k, ty, store, p) && p[0] == c && p[|p| - 1] == d;
    var q := [h] + p;
    forall i | 0 <= i < |q| - 1 ensures q[i + 1] in Children(k, ty, store, q[i]) {
      if i > 0 {
        assert p[i] in Children(k, ty, store, p[i - 1]);
      }
    }
    assert Path(k, ty, store, q) && q[|q| - 1] == d;
  }

  /** A closed set that holds the start of a path holds all of it. */
  lemma {:induction false} ClosedHolds(k: Codec, ty: Type, store: Store, set0: set<Hash>, p: seq<Hash>, i: nat)
    requires Closed(k, ty, store, set0, set0) && Path(k, ty, store, p) && p[0] in set0 && i < |p|
    ensures p[i] in set0
  {
    if i > 0 {
      ClosedHolds(k, ty, store, set0, p, i - 1);
    }
  }

  // ---------- marking ----------

  /** Depth-first walk. It terminates on every store, marks only what the start reaches, and every
      newly marked cell has its children marked. */
  method WalkReachable(k: Codec, ty: Type, store: Store, h: Hash, seen: set<Hash>) returns (seen': set<Hash>)
    ensures seen <= seen' && (h != EMPTY ==> h in seen')
    ensures forall d :: d in seen' && d !in seen ==> Reachable(k, ty, store, h, d)
    ensures Closed(k, ty, store, seen' - seen, seen')
    decreases |store.Keys - seen|
  {
    hide Reachable;
    seen' := seen;
    if h == EMPTY || h in seen {
      return;
    }
    seen' := seen + {h};
    ReachSelf(k, ty, store, h);
    var ch := Children(k, ty, store, h);
    for i := 0 to |ch|
      invariant seen + {h} <= seen'
      invariant forall j :: 0 <= j < i && ch[j] != EMPTY ==> ch[j] in seen'
      invariant forall d :: d in seen' && d !in seen ==> Reachable(k, ty, store, h, d)
      invariant Closed(k, ty, store, seen' - seen - {h}, seen')
    {
      ghost var before := seen';
      Fewer(store.Keys, seen, seen', h);
      seen' := WalkReachable(k, ty, store, ch[i], seen');
      forall d | d in seen' && d !in before ensures Reachable(k, ty, store, h, d) {
        ReachChild(k, ty, store, h, ch[i], d);
      }
    }
  }

  lemma Fewer(all: set<Hash>, seen: set<Hash>, seen': set<Hash>, h: Hash)
    requires h in all && h !in seen && seen + {h} <= seen'
    ensures |all - seen'| < |all - seen|
  {
    assert all - seen' < all - seen;
    Smaller(all - seen', all - seen);
  }

  lemma Smaller(a: set<Hash>, b: set<Hash>)
    requires a < b
    ensures |a| < |b|
  {
    assert |b| == |a| + |b - a| by { assert b == a + (b - a); }
    assert b - a != {};
  }

  /** The walk from a root marks exactly the cells it reaches. */
  method ReachableCells(k: Codec, ty: Type, store: Store, root: Hash) returns (cells: set<Hash>)
    ensures forall h :: h in cells <==> Reachable(k, ty, store, root, h)
  {
    cells := WalkReachable(k, ty, store, root, {});
    assert cells - {} == cells;
    forall h | Reachable(k, ty, store, root, h) ensures h in cells {
      var p :| Path(k, ty, store, p) && p[0] == root && p[|p| - 1] == h;
      ClosedHolds(k, ty, store, cells, p, |p| - 1);
    }
  }

  // ---------- sweeping ----------

  type LiveState = (Hash, Type)

  /** The root held by a live state, if it is a map or a vector and its cell decodes. */
  function LiveRoot(k: Codec, store: Store, st: LiveState): Option<Hash> {
    if !st.1.Other? && st.0 in store then k.root(store[st.0], st.1) else None
  }

  /** Cells a live state keeps: its own, and whatever its root reaches. */
  ghost predicate Keeps(k: Codec, store: Store, st: LiveState, h: Hash) {
    h == st.0 || (LiveRoot(k, store, st).Some? && Reachable(k, st.1, store, LiveRoot(k, store, st).value, h))
  }

  ghost predicate Live(k: Codec, store: Store, states: seq<LiveState>, h: Hash) {
    exists st :: st in states && Keeps(k, store, st, h)
  }

  /** Exactly the cells that live states keep, present or not. */
  ghost predicate AllLive(k: Codec, store: Store, states: seq<LiveState>, live: set<Hash>) {
    forall h :: h in live <==> Live(k, store, states, h)
  }

  /** `kept` counts the cells live states keep, `swept` the cells removed. */
  datatype Report = Report(kept: nat, swept: nat)

  class InMemoryKv {
    var data: Store

    constructor (data: Store)
      ensures this.data == data
    {
      this.data := data;
    }

    method Mark(k: Codec, states: seq<LiveState>) returns (live: set<Hash>)
      ensures forall h :: h in live <==> Live(k, data, states, h)
    {
      hide Reachable, LiveRoot;
      live := {};
      for i := 0 to |states|
        invariant forall h :: h in live <==> exists j :: 0 <= j < i && Keeps(k, data, states[j], h)
      {
        var st := states[i];
        live := live + {st.0};
        var root := LiveRoot(k, data, st);
        if root.Some? {
          var cells := ReachableCells(k, st.1, data, root.value);
          live := live + cells;
        }
      }
    }

    /** Remove the candidates that no live state keeps, and nothing else. */
    method Sweep(k: Codec, states: seq<LiveState>, candidates: set<Hash>) returns (report: Report)
      modifies this
      ensures data == Swept(k, old(data), states, candidates)
      ensures report.swept == |old(data)| - |data|
      ensures exists live :: AllLive(k, old(data), states, live) && report.kept == |live|
    {
      hide Live;
      var live := Mark(k, states);
      var swept := RemoveAll(candidates, live);
      report := Report(|live|, swept);
      SweptIs(k, old(data), states, candidates, live);
      assert AllLive(k, old(data), states, live);
    }

    /** Drop the candidates outside `live`, in any order, counting the cells that existed. */
    method RemoveAll(candidates: set<Hash>, live: set<Hash>) returns (swept: nat)
      modifies this
      ensures data == old(data) - (candidates - live)
      ensures swept == |old(data)| - |data|
    {
      hide Rest;
      swept := 0;
      var left := candidates;
      RestEnds(old(data), candidates, live);
      while left != {}
        invariant left <= candidates && swept + |data| == |old(data)|
        invariant data == Rest(old(data), candidates, live, left)
        decreases |left|
      {
        var c :| c in left;
        RestNext(old(data), candidates, live, left, c);
        left := left - {c};
        if c !in live && c in data {
          DropOne(data, c);
          swept := swept + 1;
          data := data - {c};
        }
      }
    }
  }

  /** The store while the candidates in `left` are still to be looked at. */
  ghost function Rest(store: Store, candidates: set<Hash>, live: set<Hash>, left: set<Hash>): Store {
    store - (candidates - left - live)
  }

  lemma RestEnds(store: Store, candidates: set<Hash>, live: set<Hash>)
    ensures Rest(store, candidates, live, candidates) == store
    ensures Rest(store, candidates, live, {}) == store - (candidates - live)
  {
    assert candidates - {} - live == candidates - live;
  }

  lemma RestNext(store: Store, candidates: set<Hash>, live: set<Hash>, left: set<Hash>, c: Hash)
    requires c in left && left <= candidates
    ensures var now := Rest(store, candidates, live, left);
      Rest(store, candidates, live, left - {c}) == if c !in live && c in now then now - {c} else now
  {
    assert candidates - (left - {c}) - live == (candidates - left - live) + if c in live then {} else {c};
  }

  lemma DropOne(store: Store, c: Hash)
    requires c in store
    ensures |store - {c}| == |store| - 1
  {
    assert (store - {c}).Keys == store.Keys - {c};
    assert |store| == |store.Keys| && |store - {c}| == |(store - {c}).Keys|;
  }

  lemma SweptIs(k: Codec, store: Store, states: seq<LiveState>, candidates: set<Hash>, live: set<Hash>)
    requires forall h :: h in live <==> Live(k, store, states, h)
    ensures store - (candidates - live) == Swept(k, store, states, candidates)
  {
    hide Live;
  }

  /** The store after a sweep. */
  ghost function Swept(k: Codec, store: Store, states: seq<LiveState>, candidates: set<Hash>): Store {
    map h | h in store && !(h in candidates && !Live(k, store, states, h)) :: store[h]
  }

  /** Live cells keep their bytes, so what they refer to does not change. */
  lemma SweptChildren(k: Codec, store: Store, states: seq<LiveState>, candidates: set<Hash>, ty: Type, h: Hash)
    requires Live(k, store, states, h)
    ensures var store' := Swept(k, store, states, candidates);
      && (h in store' <==> h in store) && (h in store ==> store'[h] == store[h])
      && Children(k, ty, store', h) == Children(k, ty, store, h)
  {
    hide Live;
  }

  /** A sweep does not change what a live map reaches. */
  lemma SweptReach(k: Codec, store: Store, states: seq<LiveState>, candidates: set<Hash>, st: LiveState, h: Hash)
    requires st in states
    ensures var store' := Swept(k, store, states, candidates);
      && LiveRoot(k, store', st) == LiveRoot(k, store, st)
      && (Keeps(k, store', st, h) <==> Keeps(k, store, st, h))
  {
    var store' := Swept(k, store, states, candidates);
    assert Keeps(k, store, st, st.0);
    SweptChildren(k, store, states, candidates, st.1, st.0);
    var root := LiveRoot(k, store, st);
    if root.Some? {
      if Reachable(k, st.1, store, root.value, h) {
        var p :| Path(k, st.1, store, p) && p[0] == root.value && p[|p| - 1] == h;
        PathKept(k, store, states, candidates, st, p);
      }
      if Reachable(k, st.1, store', root.value, h) {
        var p :| Path(k, st.1, store', p) && p[0] == root.value && p[|p| - 1] == h;
        PathWas(k, store, states, candidates, st, p, |p|);
        assert p[..|p|] == p;
      }
    }
  }

  lemma OnPathLive(k: Codec, store: Store, states: seq<LiveState>, st: LiveState, p: seq<Hash>, i: nat)
    requires st in states && LiveRoot(k, store, st).Some? && i < |p|
    requires Path(k, st.1, store, p) && p[0] == LiveRoot(k, store, st).value
    ensures Live(k, store, states, p[i])
  {
    var q := p[..i + 1];
    forall j | 0 <= j < |q| - 1 ensures q[j + 1] in Children(k, st.1, store, q[j]) {
      assert p[j + 1] in Children(k, st.1, store, p[j]);
    }
    assert Path(k, st.1, store, q);
    assert Reachable(k, st.1, store, p[0], p[i]);
    assert Keeps(k, store, st, p[i]);
  }

  lemma PathKept(k: Codec, store: Store, states: seq<LiveState>, candidates: set<Hash>, st: LiveState, p: seq<Hash>)
    requires st in states && LiveRoot(k, store, st).Some?
    requires Path(k, st.1, store, p) && p[0] == LiveRoot(k, store, st).value
    ensures Path(k, st.1, Swept(k, store, states, candidates), p)
  {
    var store' := Swept(k, store, states, candidates);
    forall i | 0 <= i < |p| - 1 ensures p[i + 1] in Children(k, st.1, store', p[i]) {
      OnPathLive(k, store, states, st, p, i);
      SweptChildren(k, store, states, candidates, st.1, p[i]);
    }
  }

  lemma {:induction false} PathWas(k: Codec, store: Store, states: seq<LiveState>, candidates: set<Hash>, st: LiveState,
                                   p: seq<Hash>, n: nat)
    requires st in states && LiveRoot(k, store, st).Some? && 0 < n <= |p|
    requires Path(k, st.1, Swept(k, store, states, candidates), p) && p[0] == LiveRoot(k, store, st).value
    ensures Path(k, st.1, store, p[..n])
    decreases n
  {
    hide Swept, Live, LiveRoot, Children;
    if n > 1 {
      PathWas(k, store, states, candidates, st, p, n - 1);
      var q := p[..n - 1];
      OnPathLive(k, store, states, st, q, n - 2);
      SweptChildren(k, store, states, candidates, st.1, p[n - 2]);
      assert p[n - 1] in Children(k, st.1, store, p[n - 2]);
      forall i | 0 <= i < n - 1 ensures p[..n][i + 1] in Children(k, st.1, store, p[..n][i]) {
        if i < n - 2 {
          assert q[i + 1] in Children(k, st.1, store, q[i]);
        }
      }
    }
  }

  /** What is read by following child positions from a cell: the bytes at the end of the route. */
  ghost function Follow(k: Codec, ty: Type, store: Store, h: Hash, route: seq<nat>): Option<Blob>
    decreases |route|
  {
    if h == EMPTY || h !in store then None
    else if route == [] then Some(store[h])
    else
      var ch := Children(k, ty, store, h);
      if route[0] < |ch| then Follow(k, ty, store, ch[route[0]], route[1..]) else None
  }

  /** Every live map reads the same along every route, whatever the candidates were. */
  lemma {:induction false} LiveMapsIntact(k: Codec, store: Store, states: seq<LiveState>, candidates: set<Hash>,
                                          st: LiveState, root: Hash, h: Hash, route: seq<nat>)
    requires st in states && (st.1.PMap? || st.1.PVec?) && st.0 in store && k.root(store[st.0], st.1) == Some(root)
    requires h == EMPTY || Reachable(k, st.1, store, root, h)
    ensures Follow(k, st.1, Swept(k, store, states, candidates), h, route) == Follow(k, st.1, store, h, route)
    decreases |route|
  {
    hide Swept, Reachable, Children;
    if h != EMPTY {
      assert Keeps(k, store, st, h);
      var ty, ch := st.1, Children(k, st.1, store, h);
      SweptChildren(k, store, states, candidates, ty, h);
      if route != [] && route[0] < |ch| && h in store {
        var c := ch[route[0]];
        if c != EMPTY {
          ReachOneMore(k, ty, store, root, h, c);
        }
        LiveMapsIntact(k, store, states, candidates, st, root, c, route[1..]);
      }
    }
  }

  lemma ReachOneMore(k: Codec, ty: Type, store: Store, from: Hash, h: Hash, c: Hash)
    requires Reachable(k, ty, store, from, h) && c in Children(k, ty, store, h) && c != EMPTY
    ensures Reachable(k, ty, store, from, c)
  {
    hide Children;
    var p :| Path(k, ty, store, p) && p[0] == from && p[|p| - 1] == h;
    var q := p + [c];
    forall i | 0 <= i < |q| - 1 ensures q[i + 1] in Children(k, ty, store, q[i]) {
    }
    assert Path(k, ty, store, q) && q[|q| - 1] == c;
  }

  /** Sweeping again removes nothing. */
  lemma SweepTwice(k: Codec, store: Store, states: seq<LiveState>, candidates: set<Hash>)
    ensures var store' := Swept(k, store, states, candidates);
      Swept(k, store', states, candidates) == store'
  {
    hide Keeps;
    var store' := Swept(k, store, states, candidates);
    forall h ensures Live(k, store', states, h) <==> Live(k, store, states, h) {
      forall st | st in states ensures Keeps(k, store', st, h) <==> Keeps(k, store, st, h) {
        SweptReach(k, store, states, candidates, st, h);
      }
    }
  }
}
