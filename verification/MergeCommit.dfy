/** Group commit with the trie merge in it: what lands in the store when two writers of one
    persistent map meet. */
module MergeCommit {
  import opened Options
  import opened Bytes
  import opened GroupCommit
  import opened CommitExamples
  import opened Occ
  import H = Hamt
  import M = HamtMerge
  import G = MergeGaps

  // ---------- nodes under their cell names ----------

  /** The nodes that occur, how a node is serialized, and the hash that names its cell. */
  datatype Book = Book(nodes: set<H.Ref>, bytes: H.Ref -> Blob, address: Blob -> Cell)

  /** The cell of a node: the hash of its bytes. */
  function CellOf(book: Book, r: H.Ref): Cell { book.address(book.bytes(r)) }

  /** No two of the nodes that occur share a cell, and none has the hash reserved for the empty map. */
  ghost predicate Valid(book: Book) {
    && (forall r :: r in book.nodes ==> r.Cell? && CellOf(book, r) != 0)
    && (forall r, q :: r in book.nodes && q in book.nodes && CellOf(book, r) == CellOf(book, q) ==> r == q)
  }

  /** The tree a root stands for. */
  ghost function Tree(book: Book, root: nat): Option<H.Ref> {
    if root == 0 then Some(H.Empty)
    else if r :| r in book.nodes && CellOf(book, r) == root then Some(r)
    else None
  }

  ghost function Name(book: Book, r: H.Ref): (n: Cell)
    requires Valid(book) && (r.Cell? ==> r in book.nodes)
    ensures Tree(book, n) == Some(r)
  {
    if r.Empty? then 0 else CellOf(book, r)
  }

  /** The node can be read from a view. */
  ghost predicate Holds(book: Book, view: View, r: H.Ref) {
    CellOf(book, r) in view && view[CellOf(book, r)] == Ser(Bytes(book.bytes(r)))
  }

  ghost function StoreOf(book: Book, view: View): H.Store { set r | r in book.nodes && Holds(book, view, r) }

  /** A cell that holds a node of the book. */
  ghost predicate NodeCell(book: Book, p: (Cell, Blob), r: H.Ref) { p == (CellOf(book, r), book.bytes(r)) }

  ghost function CellsOf(book: Book, added: set<H.Ref>): (cells: seq<(Cell, Blob)>)
    ensures forall p :: p in cells ==> exists r :: r in added && NodeCell(book, p, r)
    ensures forall r :: r in added ==> (CellOf(book, r), book.bytes(r)) in cells
    decreases |added|
  {
    if added == {} then []
    else
      var r :| r in added;
      assert NodeCell(book, (CellOf(book, r), book.bytes(r)), r);
      [(CellOf(book, r), book.bytes(r))] + CellsOf(book, added - {r})
  }

  ghost predicate InBook(book: Book, tree: H.Ref) { G.Below(tree) <= book.nodes }

  /** The trie merge of three roots, its nodes read from a view. It gives the new root and the
      cells of the nodes that were not there. */
  ghost function MergeRoots(book: Book, ours: nat, live: nat, base: nat, view: View): Option<Merged>
    requires Valid(book)
  {
    var (a, b, d) := (Tree(book, ours), Tree(book, live), Tree(book, base));
    if a.None? || b.None? || d.None? then None
    else
      var store := StoreOf(book, view);
      var m := M.MergeRef(store, a.value, b.value, d.value);
      if m.None? || !InBook(book, m.value) then None
      else
        RootInBook(book, m.value);
        Some(Merged(Name(book, m.value), CellsOf(book, G.Below(m.value) - store)))
  }

  lemma RootInBook(book: Book, r: H.Ref)
    requires InBook(book, r)
    ensures r.Cell? ==> r in book.nodes
  {
    if r.Cell? {
      assert r in G.Below(r);
    }
  }

  function RootIn(b: Blob): Option<nat> { if |b| == 17 && b[0] == 0x16 then Some(Num(b[1..])) else None }

  ghost function TreeCodec(book: Book): Codec
    requires Valid(book)
  {
    Codec(Ser, v => v == PMap(0) || v == Bytes([]), (b, t) => RootIn(b), book.address,
          (ours, live, base, view, t) => MergeRoots(book, ours, live, base, view))
  }

  // ---------- a merged tree is all there ----------

  /** Every node of a merged tree was in the store, or is one of the tree's own. */
  lemma {:induction false} MergePresent(store: H.Store, a: H.Ref, b: H.Ref, base: H.Ref)
    requires H.Present(store, a) && H.Present(store, b) && H.Present(store, base) && M.MergeRef(store, a, b, base).Some?
    ensures var m := M.MergeRef(store, a, b, base).value; H.Present(store + G.Below(m), m)
    decreases M.Height(a)
  {
    hide M.MergeSlots, H.Rank, M.Pack;
    var m := M.MergeRef(store, a, b, base).value;
    if a == b || a == base || b == base {
      H.PresentGrows(store, store + G.Below(m), m);
    } else if a.node.Inner? {
      M.InnerShape(store, a, b, base);
      var d := if M.SameShape(a, base) then base else H.Empty;
      var slots := M.MergeSlots(store, a.node.bitmap, a.node.children, b.node.bitmap, b.node.children,
                                M.BaseSlots(H.Read(store, base)).0, M.BaseSlots(H.Read(store, base)).1, H.BRANCH).value;
      forall s | 0 <= s < H.BRANCH ensures H.Present(store + G.Below(slots[s]), slots[s]) {
        M.SlotCase(store, a, b, base, s);
        M.KidLower(a, s);
        M.KidPresent(store, a, s);
        M.KidPresent(store, b, s);
        M.KidPresent(store, d, s);
        MergePresent(store, M.Kid(a, s), M.Kid(b, s), M.Kid(d, s));
      }
      PackPresent(store, slots);
    }
  }

  lemma PackPresent(store: H.Store, slots: seq<H.Ref>)
    requires |slots| == H.BRANCH && forall s :: 0 <= s < H.BRANCH ==> H.Present(store + G.Below(slots[s]), slots[s])
    ensures H.Present(store + G.Below(M.Pack(slots)), M.Pack(slots))
  {
    hide H.Rank;
    var m := M.Pack(slots);
    if m.Cell? {
      var ch := m.node.children;
      forall c | c in ch ensures H.Present(store + G.Below(m), c) {
        var s :| 0 <= s < |slots| && slots[s] == c;
        assert G.Below(c) <= G.BelowAll(ch);
        H.PresentGrows(store + G.Below(c), store + G.Below(m), c);
      }
    }
  }

  // ---------- one job ----------

  /** The three tries of a mismatched cell, as the merge reads them. */
  ghost predicate ThreeTrees(book: Book, view: View, job: Job, c: Cell, a: H.Ref, b: H.Ref, d: H.Ref)
    requires Valid(book)
  {
    var store := StoreOf(book, Effective(TreeCodec(book), view, job.writes));
    && c in job.observed && job.observed[c].PMap? && Tree(book, job.observed[c].root) == Some(d)
    && c in job.writes && job.writes[c].PMap? && Tree(book, job.writes[c].root) == Some(a)
    && Tree(book, if c in view && RootIn(view[c]).Some? then RootIn(view[c]).value else 0) == Some(b)
    && H.Present(store, a) && H.Present(store, b) && H.Present(store, d)
  }

  /** No state cell that the job read is the cell of a node. */
  ghost predicate Separate(book: Book, job: Job) {
    forall x, r :: x in job.observed && r in book.nodes ==> CellOf(book, r) != x
  }

  ghost predicate AllNodes(book: Book, nodes: set<(Cell, Blob)>) {
    forall p :: p in nodes ==> exists r :: r in book.nodes && NodeCell(book, p, r)
  }

  /** Content addressing without collisions is clean. */
  lemma BookIsClean(book: Book, view: View, job: Job)
    requires Valid(book)
    ensures Clean(TreeCodec(book), view, job)
    ensures AllNodes(book, Nodes(TreeCodec(book), view, job, job.observed.Keys))
  {
    hide Rescue, ReadMatches, MergeRoots, Clean, Named;
    var k := TreeCodec(book);
    var nodes := Nodes(k, view, job, job.observed.Keys);
    forall p | p in nodes ensures exists r :: r in book.nodes && NodeCell(book, p, r) {
      var c :| c in Merges(k, view, job, job.observed.Keys) && p in Rescue(k, view, job, c).value.cells;
      RescuedCells(book, view, job, c);
    }
    AddressesApart(book, nodes);
    ContentNamesClean(k, view, job);
  }

  lemma AddressesApart(book: Book, nodes: set<(Cell, Blob)>)
    requires Valid(book) && AllNodes(book, nodes)
    ensures forall p :: p in nodes ==> p.0 == book.address(p.1)
    ensures forall p, q :: p in nodes && q in nodes && book.address(p.1) == book.address(q.1) ==> p.1 == q.1
  {
    forall p, q | p in nodes && q in nodes && book.address(p.1) == book.address(q.1) ensures p.1 == q.1 {
      var r :| r in book.nodes && NodeCell(book, p, r);
      var t :| t in book.nodes && NodeCell(book, q, t);
      assert CellOf(book, r) == CellOf(book, t);
    }
  }

  lemma RescuedCells(book: Book, view: View, job: Job, c: Cell)
    requires Valid(book) && c in job.observed && Rescue(TreeCodec(book), view, job, c).Some?
    ensures forall p :: p in Rescue(TreeCodec(book), view, job, c).value.cells ==>
              exists r :: r in book.nodes && NodeCell(book, p, r)
    ensures Rescue(TreeCodec(book), view, job, c).value.root < Pow256(16)
  {
    hide MergeRoots, Effective, Valid, NodeCell;
    var t := job.pmapTypes[c];
    var live := if c in view && RootIn(view[c]).Some? then RootIn(view[c]).value else EMPTY;
    MergedCells(book, job.writes[c].root, live, job.observed[c].root, Effective(TreeCodec(book), view, job.writes));
  }

  lemma MergedCells(book: Book, ours: nat, live: nat, base: nat, view: View)
    requires Valid(book) && MergeRoots(book, ours, live, base, view).Some?
    ensures var m := MergeRoots(book, ours, live, base, view).value;
      && m.root < Pow256(16) && forall p :: p in m.cells ==> exists r :: r in book.nodes && NodeCell(book, p, r)
  {
    hide StoreOf, M.MergeRef, Tree, G.Below, NodeCell, CellsOf, Pow256, Name;
    Widths();
    var m := MergeRoots(book, ours, live, base, view).value;
    forall p | p in m.cells ensures exists r :: r in book.nodes && NodeCell(book, p, r) {
      var tree := M.MergeRef(StoreOf(book, view), Tree(book, ours).value, Tree(book, live).value, Tree(book, base).value).value;
      var r :| r in G.Below(tree) - StoreOf(book, view) && NodeCell(book, p, r);
    }
  }

  lemma RescueIs(book: Book, view: View, job: Job, c: Cell, a: H.Ref, b: H.Ref, d: H.Ref)
    requires Valid(book) && ThreeTrees(book, view, job, c, a, b, d) && Rescue(TreeCodec(book), view, job, c).Some?
    ensures var store := StoreOf(book, Effective(TreeCodec(book), view, job.writes));
      var m := M.MergeRef(store, a, b, d);
      && m.Some? && InBook(book, m.value) && (m.value.Cell? ==> m.value in book.nodes)
      && Rescue(TreeCodec(book), view, job, c) == Some(Merged(Name(book, m.value), CellsOf(book, G.Below(m.value) - store)))
  {
    hide StoreOf, M.MergeRef, InBook, Tree, Effective, CellsOf, G.Below, Name, H.Present;
    var m := M.MergeRef(StoreOf(book, Effective(TreeCodec(book), view, job.writes)), a, b, d);
    if m.Some? && InBook(book, m.value) {
      RootInBook(book, m.value);
    }
  }

  /** Nodes readable before, and the merged ones, are readable after roots and nodes went in. */
  lemma NodesLand(book: Book, k: Codec, view: View, writes: map<Cell, Value>, roots: map<Cell, Value>, nodes: set<(Cell, Blob)>)
    requires Valid(book) && k.ser == Ser && AllNodes(book, nodes)
    requires forall r :: r in book.nodes ==> CellOf(book, r) !in roots
    ensures var view' := Effective(k, view, writes + roots + NodeValues(nodes));
      && StoreOf(book, Effective(k, view, writes)) <= StoreOf(book, view')
      && forall p :: p in nodes ==> p.0 in view' && view'[p.0] == Ser(Bytes(p.1))
  {
    hide Ser, NodeValues, Effective;
    var view' := Effective(k, view, writes + roots + NodeValues(nodes));
    forall p | p in nodes ensures p.0 in view' && view'[p.0] == Ser(Bytes(p.1)) {
      NodeAt(book, nodes, p);
      Lands(k, view, writes, roots, NodeValues(nodes), p.0);
    }
    forall r | r in book.nodes && Holds(book, Effective(k, view, writes), r) ensures Holds(book, view', r) {
      var x := CellOf(book, r);
      NodeCells(nodes, x);
      Lands(k, view, writes, roots, NodeValues(nodes), x);
      if p :| p in nodes && p.0 == x {
        var q :| q in book.nodes && NodeCell(book, p, q);
        assert q == r;
      }
    }
  }

  /** And a merged root is where it was put. */
  lemma RootLands(book: Book, k: Codec, view: View, writes: map<Cell, Value>, roots: map<Cell, Value>, nodes: set<(Cell, Blob)>,
                  c: Cell, root: nat)
    requires k.ser == Ser && AllNodes(book, nodes) && c in roots && roots[c] == PMap(root) && root < Pow256(16)
    requires forall r :: r in book.nodes ==> CellOf(book, r) != c
    ensures var view' := Effective(k, view, writes + roots + NodeValues(nodes));
      c in view' && RootIn(view'[c]) == Some(root)
  {
    hide Ser, Pow256, BE, Num, NodeValues, Effective;
    SerRoot(root);
    SerTag(root);
    NodeCells(nodes, c);
    forall p | p in nodes ensures p.0 != c {
      var q :| q in book.nodes && NodeCell(book, p, q);
    }
    Lands(k, view, writes, roots, NodeValues(nodes), c);
  }

  lemma CodecSer(book: Book)
    requires Valid(book)
    ensures TreeCodec(book).ser == Ser
  {
  }

  lemma PromotedIs(k: Codec, view: View, job: Job)
    ensures Promoted(k, view, job) ==
      job.writes + Roots(k, view, job, job.observed.Keys) + NodeValues(Nodes(k, view, job, job.observed.Keys))
  {
    hide Roots, NodeValues, Nodes;
  }

  lemma RootCells(k: Codec, view: View, job: Job)
    ensures Roots(k, view, job, job.observed.Keys).Keys <= job.observed.Keys
  {
    hide Rescue;
  }

  lemma NodeCells(nodes: set<(Cell, Blob)>, c: Cell)
    ensures c in NodeValues(nodes) <==> exists p :: p in nodes && p.0 == c
  {
  }

  /** What a cell holds after three layers of writes. */
  lemma Lands(k: Codec, view: View, writes: map<Cell, Value>, roots: map<Cell, Value>, nodes: map<Cell, Value>, c: Cell)
    ensures var view' := Effective(k, view, writes + roots + nodes);
      && (c in nodes ==> c in view' && view'[c] == k.ser(nodes[c]))
      && (c !in nodes && c in roots ==> c in view' && view'[c] == k.ser(roots[c]))
      && (c !in nodes && c !in roots && c in Effective(k, view, writes) ==>
            c in view' && view'[c] == Effective(k, view, writes)[c])
  {
  }

  lemma NodeAt(book: Book, nodes: set<(Cell, Blob)>, p: (Cell, Blob))
    requires Valid(book) && p in nodes && AllNodes(book, nodes)
    ensures p.0 in NodeValues(nodes) && NodeValues(nodes)[p.0] == Bytes(p.1)
  {
    assert p.0 in (set q | q in nodes :: q.0);
    var q :| q in nodes && q.0 == p.0 && BytesAt(nodes, p.0) == q.1;
    AddressesApart(book, nodes);
  }

  /** The two ends meet: a job rescued by the trie merge leaves in its cell the root of the
      three-way merge, every node of that trie can be read from the store it leaves, and the
      merged map obeys the merge law exactly when the base was usable. */
  lemma CommittedMerge(h: H.Key -> nat, book: Book, view: View, job: Job, c: Cell, a: H.Ref, b: H.Ref, d: H.Ref)
    requires Valid(book) && ThreeTrees(book, view, job, c, a, b, d)
    requires Accepts(TreeCodec(book), view, job) && c in Merges(TreeCodec(book), view, job, job.observed.Keys)
    requires Separate(book, job)
    ensures Clean(TreeCodec(book), view, job)
    ensures var k := TreeCodec(book);
      var m := M.MergeRef(StoreOf(book, Effective(k, view, job.writes)), a, b, d);
      var view' := Commit(k, view, job).0;
      && m.Some? && c in view' && RootIn(view'[c]).Some?
      && Tree(book, RootIn(view'[c]).value) == Some(m.value)
      && H.Present(StoreOf(book, view'), m.value)
      && (M.BaseOk(h, a, b, d, []) <==> M.Lawful(h, a, b, d, m.value, []))
  {
    hide M.MergeRef, M.BaseOk, M.Lawful, InBook, StoreOf, Ser, MergeRoots, Rescue, ReadMatches, Named, Clean, Effective, G.Below;
    hide H.Present, CellsOf, Tree, Name, Promoted, Pow256, Num, TreeCodec, Valid, RootIn, NodeCell, NodeValues, Roots;
    var k := TreeCodec(book);
    var store := StoreOf(book, Effective(k, view, job.writes));
    var view' := Effective(k, view, Promoted(k, view, job));
    var nodes, roots := Nodes(k, view, job, job.observed.Keys), Roots(k, view, job, job.observed.Keys);
    BookIsClean(book, view, job);
    CodecSer(book);
    PromotedIs(k, view, job);
    RootCells(k, view, job);
    RootOfCell(k, view, job, c);
    RescueIs(book, view, job, c, a, b, d);
    RescuedCells(book, view, job, c);
    NodesLand(book, k, view, job.writes, roots, nodes);
    RootLands(book, k, view, job.writes, roots, nodes, c, Rescue(k, view, job, c).value.root);
    var m := M.MergeRef(store, a, b, d).value;
    MergePresent(store, a, b, d);
    AllLand(book, store, view', m, Rescue(k, view, job, c).value.cells);
    H.PresentGrows(store + G.Below(m), StoreOf(book, view'), m);
    M.MergeCorrect(h, store, a, b, d, []);
  }

  lemma AllLand(book: Book, store: H.Store, view': View, m: H.Ref, cells: seq<(Cell, Blob)>)
    requires InBook(book, m) && cells == CellsOf(book, G.Below(m) - store) && store <= StoreOf(book, view')
    requires forall p :: p in cells ==> p.0 in view' && view'[p.0] == Ser(Bytes(p.1))
    ensures store + G.Below(m) <= StoreOf(book, view')
  {
    hide Ser, G.Below, CellsOf;
    forall r | r in G.Below(m) - store ensures r in StoreOf(book, view') {
      assert (CellOf(book, r), book.bytes(r)) in cells;
    }
  }

  lemma RootOfCell(k: Codec, view: View, job: Job, c: Cell)
    requires c in Merges(k, view, job, job.observed.Keys)
    ensures var roots := Roots(k, view, job, job.observed.Keys);
      c in roots && roots[c] == PMap(Rescue(k, view, job, c).value.root)
  {
    hide Rescue;
  }

  lemma SerTag(r: nat)
    ensures |Ser(PMap(r))| > 0 && Ser(PMap(r))[0] == 0x16
  {
  }

  // ---------- a salvaged transaction ----------

  /** The three tries of a cell, as the salvage reads them: written, there now, there before. */
  ghost predicate SalvageTrees(book: Book, e: Exec, live: View, snapshot: View, c: Cell, a: H.Ref, b: H.Ref, d: H.Ref)
    requires Valid(book)
  {
    var k := TreeCodec(book);
    var store := StoreOf(book, Effective(k, live, e.writes));
    && c in e.types && c in e.writes && e.writes[c].PMap? && Tree(book, e.writes[c].root) == Some(a)
    && Tree(book, RootAt(k, live, c, e.types[c])) == Some(b) && Tree(book, RootAt(k, snapshot, c, e.types[c])) == Some(d)
    && H.Present(store, a) && H.Present(store, b) && H.Present(store, d)
  }

  lemma CellMergeIs(book: Book, e: Exec, live: View, snapshot: View, c: Cell)
    requires Valid(book) && MergeCell(TreeCodec(book), e, live, snapshot, c).Some?
    ensures var m := MergeCell(TreeCodec(book), e, live, snapshot, c).value;
      && m.root < Pow256(16) && forall p :: p in m.cells ==> exists r :: r in book.nodes && NodeCell(book, p, r)
  {
    hide MergeRoots, Effective, Valid, NodeCell, RootAt, Pow256;
    var k := TreeCodec(book);
    MergedCells(book, e.writes[c].root, RootAt(k, live, c, e.types[c]), RootAt(k, snapshot, c, e.types[c]), Effective(k, live, e.writes));
  }

  lemma TreeMergeIs(book: Book, e: Exec, live: View, snapshot: View, c: Cell, a: H.Ref, b: H.Ref, d: H.Ref)
    requires Valid(book) && SalvageTrees(book, e, live, snapshot, c, a, b, d)
    requires MergeCell(TreeCodec(book), e, live, snapshot, c).Some?
    ensures var store := StoreOf(book, Effective(TreeCodec(book), live, e.writes));
      var m := M.MergeRef(store, a, b, d);
      && m.Some? && InBook(book, m.value) && (m.value.Cell? ==> m.value in book.nodes)
      && MergeCell(TreeCodec(book), e, live, snapshot, c) ==
           Some(Merged(Name(book, m.value), CellsOf(book, G.Below(m.value) - store)))
  {
    hide StoreOf, M.MergeRef, InBook, Tree, Effective, CellsOf, G.Below, Name, H.Present, RootAt;
    var m := M.MergeRef(StoreOf(book, Effective(TreeCodec(book), live, e.writes)), a, b, d);
    if m.Some? && InBook(book, m.value) {
      RootInBook(book, m.value);
    }
  }

  /** The merges of a salvage are orderly when cells are named by content. */
  lemma BookIsOrderly(book: Book, got: map<Cell, Merged>)
    requires Valid(book) && forall c, r :: c in got && r in book.nodes ==> CellOf(book, r) != c
    requires forall c, p :: c in got && p in got[c].cells ==> exists r :: r in book.nodes && NodeCell(book, p, r)
    ensures Orderly(got) && AllNodes(book, MergedNodes(got))
  {
    var nodes := MergedNodes(got);
    AddressesApart(book, nodes);
    forall p | p in nodes ensures p.0 !in got {
      var r :| r in book.nodes && NodeCell(book, p, r);
    }
  }

  /** The same law for the in-memory store: a salvaged transaction leaves in each merged cell the
      root of the three-way merge, with every node readable. */
  lemma SalvagedMerge(h: H.Key -> nat, book: Book, t: Typing, e: Exec, live: View, snapshot: View, fix: map<Cell, Value>,
                      c: Cell, a: H.Ref, b: H.Ref, d: H.Ref)
    requires Valid(book) && t.codec == TreeCodec(book) && Salvaged(t, e, live, snapshot, fix)
    requires c in Mismatched(t, e, live) && SalvageTrees(book, e, live, snapshot, c, a, b, d)
    requires forall x, r :: x in e.observed && r in book.nodes ==> CellOf(book, r) != x
    ensures var m := M.MergeRef(StoreOf(book, Effective(t.codec, live, e.writes)), a, b, d);
      var view' := Effective(t.codec, live, fix);
      && m.Some? && c in view' && RootIn(view'[c]).Some?
      && Tree(book, RootIn(view'[c]).value) == Some(m.value)
      && H.Present(StoreOf(book, view'), m.value)
      && (M.BaseOk(h, a, b, d, []) <==> M.Lawful(h, a, b, d, m.value, []))
  {
    hide M.MergeRef, M.BaseOk, M.Lawful, InBook, StoreOf, Ser, MergeRoots, Named, Effective, G.Below, MergeCell, Salvaged, Mismatched;
    hide H.Present, CellsOf, Tree, Name, Pow256, Num, TreeCodec, Valid, RootIn, NodeCell, NodeValues, MergedRoots, MergedNodes;
    var k := TreeCodec(book);
    var got := WhatWasMerged(book, t, e, live, snapshot, fix);
    CodecSer(book);
    GotRoots(got, c);
    GotNodes(got, c);
    var store := StoreOf(book, Effective(k, live, e.writes));
    var nodes, roots := MergedNodes(got), MergedRoots(got);
    var view' := Effective(k, live, fix);
    TreeMergeIs(book, e, live, snapshot, c, a, b, d);
    CellMergeIs(book, e, live, snapshot, c);
    assert forall r :: r in book.nodes ==> CellOf(book, r) !in roots by { MismatchedObserved(t, e, live); }
    NodesLand(book, k, live, e.writes, roots, nodes);
    RootLands(book, k, live, e.writes, roots, nodes, c, got[c].root);
    var m := M.MergeRef(store, a, b, d).value;
    MergePresent(store, a, b, d);
    AllLand(book, store, view', m, got[c].cells);
    H.PresentGrows(store + G.Below(m), StoreOf(book, view'), m);
    M.MergeCorrect(h, store, a, b, d, []);
  }

  lemma MismatchedObserved(t: Typing, e: Exec, live: View)
    ensures Mismatched(t, e, live) <= e.observed.Keys
  {
  }

  lemma WhatWasMerged(book: Book, t: Typing, e: Exec, live: View, snapshot: View, fix: map<Cell, Value>)
    returns (got: map<Cell, Merged>)
    requires Valid(book) && t.codec == TreeCodec(book) && Salvaged(t, e, live, snapshot, fix)
    requires forall x, r :: x in e.observed && r in book.nodes ==> CellOf(book, r) != x
    ensures got.Keys == Mismatched(t, e, live) && fix == e.writes + MergedRoots(got) + NodeValues(MergedNodes(got))
    ensures forall x :: x in got ==> MergeCell(t.codec, e, live, snapshot, x) == Some(got[x])
    ensures AllNodes(book, MergedNodes(got))
  {
    hide MergeCell, Mismatched, Hopeless, TreeCodec, Valid, NodeCell, NodeValues, Orderly, MergedRoots, MergedNodes;
    got := map x | x in Mismatched(t, e, live) :: MergeCell(t.codec, e, live, snapshot, x).value;
    MismatchedObserved(t, e, live);
    forall x, p | x in got && p in got[x].cells ensures exists r :: r in book.nodes && NodeCell(book, p, r) {
      CellMergeIs(book, e, live, snapshot, x);
    }
    BookIsOrderly(book, got);
  }

  lemma GotNodes(got: map<Cell, Merged>, c: Cell)
    ensures c in got ==> forall p :: p in got[c].cells ==> p in MergedNodes(got)
  {
  }

  lemma GotRoots(got: map<Cell, Merged>, c: Cell)
    ensures MergedRoots(got).Keys == got.Keys
    ensures c in got ==> MergedRoots(got)[c] == PMap(got[c].root)
  {
  }

  // ---------- two writers of one map ----------

  function Ours(v: H.Val): H.Ref { H.Cell(H.Leaf(map[1 := v])) }

  function Theirs(w: H.Val): H.Ref { H.Cell(H.Leaf(map[2 := w])) }

  function Both(v: H.Val, w: H.Val): H.Ref { H.Cell(H.Leaf(map[1 := v, 2 := w])) }

  /** Which of the keys 1 and 2 a leaf has; enough to tell these three nodes apart. */
  function KeyBytes(r: H.Ref): Blob {
    if r.Cell? && r.node.Leaf? then [if 1 in r.node.entries then 1 else 0, if 2 in r.node.entries then 1 else 0] else []
  }

  function Bits(b: Blob): Cell { if |b| == 2 then (b[0] as int) % 2 + 2 * ((b[1] as int) % 2) else 0 }

  /** One writer put key 1 into the empty map, another key 2; the third node is the merge. */
  function Pair(v: H.Val, w: H.Val): Book { Book({Ours(v), Theirs(w), Both(v, w)}, KeyBytes, Bits) }

  /** The second writer's map is in cell 10, its node in cell 2. */
  function Landed(): View { map[2 := Ser(Bytes([0, 1])), 10 := Ser(PMap(2))] }

  /** The first writer, who still saw the empty map. */
  function Late(): Job { Job(map[10 := PMap(0)], map[1 := Bytes([1, 0]), 10 := PMap(1)], map[10 := 0]) }

  lemma PairCells(v: H.Val, w: H.Val)
    ensures var book := Pair(v, w);
      && CellOf(book, Ours(v)) == 1 && book.bytes(Ours(v)) == [1, 0]
      && CellOf(book, Theirs(w)) == 2 && book.bytes(Theirs(w)) == [0, 1]
      && CellOf(book, Both(v, w)) == 3
  {
    var a: map<H.Key, H.Val>, b: map<H.Key, H.Val>, m: map<H.Key, H.Val> := map[1 := v], map[2 := w], map[1 := v, 2 := w];
    assert 1 in a && 2 !in a && 1 !in b && 2 in b && 1 in m && 2 in m;
  }

  lemma PairValid(v: H.Val, w: H.Val)
    ensures Valid(Pair(v, w))
    ensures Tree(Pair(v, w), 0) == Some(H.Empty) && Tree(Pair(v, w), 1) == Some(Ours(v)) && Tree(Pair(v, w), 2) == Some(Theirs(w))
  {
    hide CellOf, KeyBytes;
    PairCells(v, w);
    var book := Pair(v, w);
    assert Ours(v) in book.nodes && Theirs(w) in book.nodes && Both(v, w) in book.nodes;
  }

  lemma PairMerge(v: H.Val, w: H.Val, store: H.Store)
    requires Ours(v) in store && Theirs(w) in store
    ensures M.MergeRef(store, Ours(v), Theirs(w), H.Empty) == Some(Both(v, w))
  {
    var a: map<H.Key, H.Val>, b: map<H.Key, H.Val>, m: map<H.Key, H.Val> := map[1 := v], map[2 := w], map[1 := v, 2 := w];
    assert 1 in a && 1 !in b && 2 !in a && 2 in b;
    M.AllPicked(a, b, map[], m);
    assert m != map[] by { assert 1 in m; }
  }

  lemma LandedView(v: H.Val, w: H.Val)
    requires Valid(Pair(v, w))
    ensures var view := Effective(TreeCodec(Pair(v, w)), Landed(), Late().writes);
      Ours(v) in StoreOf(Pair(v, w), view) && Theirs(w) in StoreOf(Pair(v, w), view)
  {
    hide Ser, MergeRoots, CellOf, KeyBytes;
    PairCells(v, w);
    var book := Pair(v, w);
    var view := Effective(TreeCodec(book), Landed(), Late().writes);
    assert 1 in view && view[1] == Ser(Bytes([1, 0])) && 2 in view && view[2] == Ser(Bytes([0, 1]));
  }

  lemma LateMismatch()
    ensures Ser(PMap(2)) != Ser(PMap(0)) && RootIn(Ser(PMap(2))) == Some(2)
  {
    hide BE, Num, Pow256, Ser;
    assert 2 < Pow256(16) && 0 < Pow256(16) by { Widths(); }
    SerRoot(2);
    SerRoot(0);
    SerTag(2);
  }

  /** The theorem applies: the late writer is rescued, and cell 10 ends with the root of the map
      that holds both keys. */
  lemma BothKeysLand(h: H.Key -> nat, v: H.Val, w: H.Val)
    ensures Valid(Pair(v, w))
    ensures var k := TreeCodec(Pair(v, w));
      && Accepts(k, Landed(), Late()) && 10 in Merges(k, Landed(), Late(), {10})
      && 10 in Commit(k, Landed(), Late()).0 && RootIn(Commit(k, Landed(), Late()).0[10]).Some?
      && Tree(Pair(v, w), RootIn(Commit(k, Landed(), Late()).0[10]).value) == Some(Both(v, w))
  {
    hide Ser, StoreOf, M.MergeRef, Commit, Effective, Num, Valid, CellsOf, Name, CellOf, Tree;
    PairValid(v, w);
    var book := Pair(v, w);
    var k, view, job := TreeCodec(book), Landed(), Late();
    var store := StoreOf(book, Effective(k, view, job.writes));
    LandedView(v, w);
    LateMismatch();
    PairMerge(v, w, store);
    assert ThreeTrees(book, view, job, 10, Ours(v), Theirs(w), H.Empty);
    assert InBook(book, Both(v, w));
    assert Rescue(k, view, job, 10).Some?;
    assert !ReadMatches(k, view, 10, PMap(0));
    assert job.observed.Keys == {10};
    assert Separate(book, job) by { PairCells(v, w); }
    CommittedMerge(h, book, view, job, 10, Ours(v), Theirs(w), H.Empty);
  }

  /** The late writer as a transaction of a batch, speculated on the empty store. */
  function LateExec(): Exec { Exec(PMap(0), Late().observed, Late().writes, Late().pmapTypes) }

  /** And the same in memory: it can be salvaged, and is salvaged to the map that holds both keys. */
  lemma BothKeysSalvaged(h: H.Key -> nat, v: H.Val, w: H.Val, t: Typing, fix: map<Cell, Value>)
    requires Valid(Pair(v, w)) && t.codec == TreeCodec(Pair(v, w))
    ensures !Validates(t, LateExec().observed, Landed()) && Salvageable(t, LateExec(), Landed(), map[])
    ensures Salvaged(t, LateExec(), Landed(), map[], fix) ==>
      var view' := Effective(t.codec, Landed(), fix);
      10 in view' && RootIn(view'[10]).Some? && Tree(Pair(v, w), RootIn(view'[10]).value) == Some(Both(v, w))
  {
    hide Ser, StoreOf, M.MergeRef, Effective, Num, Valid, CellsOf, Name, CellOf, Tree, Salvaged;
    PairValid(v, w);
    var book := Pair(v, w);
    var k, live, e := TreeCodec(book), Landed(), LateExec();
    var store := StoreOf(book, Effective(k, live, e.writes));
    LandedView(v, w);
    LateMismatch();
    PairMerge(v, w, store);
    assert SalvageTrees(book, e, live, map[], 10, Ours(v), Theirs(w), H.Empty);
    assert InBook(book, Both(v, w));
    assert MergeCell(k, e, live, map[], 10).Some?;
    assert !ReadMatches(k, live, 10, PMap(0));
    assert Mismatched(t, e, live) == {10};
    if Salvaged(t, e, live, map[], fix) {
      assert forall x, r :: x in e.observed && r in book.nodes ==> CellOf(book, r) != x by { PairCells(v, w); }
      SalvagedMerge(h, book, t, e, live, map[], fix, 10, Ours(v), Theirs(w), H.Empty);
    }
  }
}
