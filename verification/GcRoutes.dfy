/** The sweep in terms of stored bytes: what decodes as a root, what decodes as a node, and the
    routes between them. */
module GcRoutes {
  import opened Options
  import opened Gc

  /** The cell at `h` decodes as a branching node with `c` among its children. */
  ghost predicate Leads(k: Codec, ty: Type, store: Store, h: Hash, c: Hash) {
    h in store && k.node(store[h], ty).Some? && k.node(store[h], ty).value.Inner? && c in k.node(store[h], ty).value.children
  }

  /** A way down from a root, cell by cell; the last cell may be missing. */
  ghost predicate Route(k: Codec, ty: Type, store: Store, p: seq<Hash>) {
    && p != [] && (forall i :: 0 <= i < |p| ==> p[i] != 0)
    && forall i, j :: 0 <= i && j == i + 1 && j < |p| ==> Leads(k, ty, store, p[i], p[j])
  }

  lemma RouteIsPath(k: Codec, ty: Type, store: Store, p: seq<Hash>)
    ensures Route(k, ty, store, p) <==> Path(k, ty, store, p)
  {
    forall h, c ensures Leads(k, ty, store, h, c) <==> c in Children(k, ty, store, h) {
    }
    if Path(k, ty, store, p) {
      forall i, j | 0 <= i && j == i + 1 && j < |p| ensures Leads(k, ty, store, p[i], p[j]) {
        assert p[i + 1] in Children(k, ty, store, p[i]);
      }
    }
    if Route(k, ty, store, p) {
      forall i | 0 <= i < |p| - 1 ensures p[i + 1] in Children(k, ty, store, p[i]) {
        var j := i + 1;
        assert Leads(k, ty, store, p[i], p[j]);
      }
    }
  }

  /** `r` is the root that a map or vector state holds. */
  ghost predicate HoldsRoot(k: Codec, store: Store, cell: Hash, ty: Type, r: Hash) {
    (ty.PMap? || ty.PVec?) && cell in store && k.root(store[cell], ty) == Some(r)
  }

  /** `h` is the cell of a state, or lies on a route from the root that a map or vector state holds. */
  ghost predicate Needed(k: Codec, store: Store, states: seq<LiveState>, h: Hash) {
    exists st :: st in states && (h == st.0 || OnRoute(k, store, st.0, st.1, h))
  }

  ghost predicate OnRoute(k: Codec, store: Store, cell: Hash, ty: Type, h: Hash) {
    exists r, p :: HoldsRoot(k, store, cell, ty, r) && Route(k, ty, store, p) && p[0] == r && p[|p| - 1] == h
  }

  lemma NeededIsLive(k: Codec, store: Store, states: seq<LiveState>, h: Hash)
    ensures Needed(k, store, states, h) <==> Live(k, store, states, h)
  {
    forall st: LiveState ensures (h == st.0 || OnRoute(k, store, st.0, st.1, h)) <==> Keeps(k, store, st, h) {
      var root := LiveRoot(k, store, st);
      if r, p :| HoldsRoot(k, store, st.0, st.1, r) && Route(k, st.1, store, p) && p[0] == r && p[|p| - 1] == h {
        RouteIsPath(k, st.1, store, p);
        assert Reachable(k, st.1, store, root.value, h);
      }
      if root.Some? && Reachable(k, st.1, store, root.value, h) {
        var p :| Path(k, st.1, store, p) && p[0] == root.value && p[|p| - 1] == h;
        RouteIsPath(k, st.1, store, p);
        assert HoldsRoot(k, store, st.0, st.1, root.value);
      }
    }
  }

  /** A sweep removes exactly the candidates that no state needs, and changes no bytes. */
  lemma SweptExactly(k: Codec, store: Store, states: seq<LiveState>, candidates: set<Hash>, h: Hash)
    ensures var store' := Swept(k, store, states, candidates);
      && (h in store' <==> h in store && (h in candidates ==> Needed(k, store, states, h)))
      && (h in store' ==> store'[h] == store[h])
  {
    hide Needed, Live;
    NeededIsLive(k, store, states, h);
  }

  /** Every route from the root of a map or vector state leads over the same bytes before and
      after a sweep, and there are no new ones. */
  lemma RoutesKept(k: Codec, store: Store, states: seq<LiveState>, candidates: set<Hash>, cell: Hash, ty: Type, r: Hash, p: seq<Hash>)
    requires (cell, ty) in states && (ty.PMap? || ty.PVec?) && cell in store && k.root(store[cell], ty) == Some(r)
    requires p != [] && p[0] == r
    ensures var store' := Swept(k, store, states, candidates);
      && cell in store' && store'[cell] == store[cell]
      && (Route(k, ty, store, p) <==> Route(k, ty, store', p))
      && (Route(k, ty, store, p) ==>
            forall i :: 0 <= i < |p| ==> (p[i] in store' <==> p[i] in store) && (p[i] in store ==> store'[p[i]] == store[p[i]]))
  {
    hide Needed, Route, Path;
    var store' := Swept(k, store, states, candidates);
    var st := (cell, ty);
    CellNeeded(k, store, states, cell, ty);
    SweptExactly(k, store, states, candidates, cell);
    RouteIsPath(k, ty, store, p);
    RouteIsPath(k, ty, store', p);
    assert LiveRoot(k, store, st) == Some(r);
    if Path(k, ty, store, p) {
      PathKept(k, store, states, candidates, st, p);
      forall i | 0 <= i < |p| ensures (p[i] in store' <==> p[i] in store) && (p[i] in store ==> store'[p[i]] == store[p[i]]) {
        OnPathLive(k, store, states, st, p, i);
        SweptChildren(k, store, states, candidates, ty, p[i]);
      }
    }
    if Path(k, ty, store', p) {
      PathWas(k, store, states, candidates, st, p, |p|);
      assert p[..|p|] == p;
    }
  }

  lemma CellNeeded(k: Codec, store: Store, states: seq<LiveState>, cell: Hash, ty: Type)
    requires (cell, ty) in states
    ensures Needed(k, store, states, cell)
  {
    var st := (cell, ty);
    assert st in states && cell == st.0;
  }
}
