/** Group commit on the durable store: jobs validated against an overlay and flushed once. */
module GroupCommit {
  import opened Options
  import opened Bytes

  type Cell = c: int | 0 <= c < 0x1_0000_0000_0000_0000_0000_0000_0000_0000
  type Namespace = n: int | 0 <= n < 0x1_0000_0000_0000_0000
  type Blob = seq<byte>
  type Disk = map<seq<byte>, Blob>
  /** The bytes of one namespace, by cell. */
  type View = map<Cell, Blob>

  datatype Value = PMap(root: nat) | PBTree(root: nat) | Bytes(bytes: Blob) | Plain(tag: int)

  /** Key and value types of a persistent map, by name. */
  type Types = int

  datatype Job = Job(observed: map<Cell, Value>, writes: map<Cell, Value>, pmapTypes: map<Cell, Types>)

  datatype Merged = Merged(root: nat, cells: seq<(Cell, Blob)>)

  datatype Outcome = Committed | Conflict

  /** Serialization, content addressing and the three-way merge, which reads nodes from a view. */
  datatype Codec = Codec(
    ser: Value -> Blob,
    isDefault: Value -> bool,
    rootOf: (Blob, Types) -> Option<nat>,
    address: Blob -> Cell,
    merge: (nat, nat, nat, View, Types) -> Option<Merged>)

  const EMPTY: nat := 0

  // ---------- one job against one view ----------

  function Serialized(k: Codec, m: map<Cell, Value>): View { map c | c in m :: k.ser(m[c]) }

  /** What a reader sees: the overlay in front of the stored bytes. */
  function Effective(k: Codec, stored: View, overlay: map<Cell, Value>): View {
    stored + Serialized(k, overlay)
  }

  /** A missing cell stands for the default value, and for nothing else. */
  predicate ReadMatches(k: Codec, view: View, c: Cell, expected: Value) {
    if c in view then view[c] == k.ser(expected) else k.isDefault(expected)
  }

  /** The merge that may rescue a mismatched read. */
  function Rescue(k: Codec, view: View, job: Job, c: Cell): Option<Merged>
    requires c in job.observed
  {
    if c !in job.pmapTypes || !job.observed[c].PMap? || c !in job.writes || !job.writes[c].PMap? then None
    else
      var t := job.pmapTypes[c];
      var live := if c in view then k.rootOf(view[c], t) else None;
      k.merge(job.writes[c].root, if live.Some? then live.value else EMPTY, job.observed[c].root,
              Effective(k, view, job.writes), t)
  }

  predicate CellOk(k: Codec, view: View, job: Job, c: Cell)
    requires c in job.observed
  {
    ReadMatches(k, view, c, job.observed[c]) || Rescue(k, view, job, c).Some?
  }

  /** The verdict, with no order of visits in it. */
  ghost predicate Accepts(k: Codec, view: View, job: Job) {
    forall c :: c in job.observed ==> CellOk(k, view, job, c)
  }

  /** Cells among `done` whose root is replaced by a merged one. */
  ghost function Merges(k: Codec, view: View, job: Job, done: set<Cell>): set<Cell> {
    set c | c in done && c in job.observed && !ReadMatches(k, view, c, job.observed[c]) && Rescue(k, view, job, c).Some?
  }

  ghost function Roots(k: Codec, view: View, job: Job, done: set<Cell>): map<Cell, Value> {
    map c | c in Merges(k, view, job, done) :: PMap(Rescue(k, view, job, c).value.root)
  }

  ghost function Nodes(k: Codec, view: View, job: Job, done: set<Cell>): set<(Cell, Blob)> {
    set c, p | c in Merges(k, view, job, done) && p in Rescue(k, view, job, c).value.cells :: p
  }

  /** No two cells share a name and differ in bytes. */
  ghost predicate Named(nodes: set<(Cell, Blob)>) {
    forall p, q :: p in nodes && q in nodes && p.0 == q.0 ==> p.1 == q.1
  }

  /** The job's merges, against this view, name no two different nodes alike: its effect does not
      hang on the order its reads are visited in. */
  ghost predicate Clean(k: Codec, view: View, job: Job) { Named(Nodes(k, view, job, job.observed.Keys)) }

  /** Content addressing gives that much: cells named by their bytes, and no collision among the
      bytes that occur. */
  lemma ContentNamesClean(k: Codec, view: View, job: Job)
    requires var nodes := Nodes(k, view, job, job.observed.Keys);
      && (forall p :: p in nodes ==> p.0 == k.address(p.1))
      && (forall p, q :: p in nodes && q in nodes && k.address(p.1) == k.address(q.1) ==> p.1 == q.1)
    ensures Clean(k, view, job)
  {
    hide Nodes;
    var nodes := Nodes(k, view, job, job.observed.Keys);
    forall p, q | p in nodes && q in nodes && p.0 == q.0 ensures p.1 == q.1 {
      assert k.address(p.1) == k.address(q.1);
    }
  }

  ghost function BytesAt(nodes: set<(Cell, Blob)>, c: Cell): Blob
    requires exists p :: p in nodes && p.0 == c
  {
    var p :| p in nodes && p.0 == c; p.1
  }

  ghost function NodeValues(nodes: set<(Cell, Blob)>): map<Cell, Value> {
    map c | c in (set p | p in nodes :: p.0) :: Bytes(BytesAt(nodes, c))
  }

  /** Everything an accepted job puts in place: its writes, merged roots, merged nodes. */
  ghost function Promoted(k: Codec, view: View, job: Job): map<Cell, Value> {
    job.writes + Roots(k, view, job, job.observed.Keys) + NodeValues(Nodes(k, view, job, job.observed.Keys))
  }

  /** One job on its own: validate against the stored bytes, then store its effects. */
  ghost function Commit(k: Codec, view: View, job: Job): (View, Outcome)
  {
    if Accepts(k, view, job) then (Effective(k, view, Promoted(k, view, job)), Committed) else (view, Conflict)
  }

  /** The jobs one at a time, in order. */
  ghost function Serial(k: Codec, view: View, jobs: seq<Job>): (r: (View, seq<Outcome>))
    ensures |r.1| == |jobs|
    decreases |jobs|
  {
    if jobs == [] then (view, [])
    else
      var before := Serial(k, view, jobs[..|jobs| - 1]);
      var last := Commit(k, before.0, jobs[|jobs| - 1]);
      (last.0, before.1 + [last.1])
  }

  /** Every accepted job of a serial run is clean at its turn. */
  ghost predicate CleanRun(k: Codec, view: View, jobs: seq<Job>) {
    forall i :: 0 <= i < |jobs| ==> CleanTurn(k, view, jobs, i)
  }

  ghost predicate CleanTurn(k: Codec, view: View, jobs: seq<Job>, i: nat)
    requires i < |jobs|
  {
    var now := Serial(k, view, jobs[..i]).0;
    Accepts(k, now, jobs[i]) ==> Clean(k, now, jobs[i])
  }

  // ---------- keys on disk ----------

  function EncodeKey(ns: Namespace, c: Cell): seq<byte> { BE(ns, 8) + BE(c, 16) }

  lemma Widths()
    ensures Pow256(8) == 0x1_0000_0000_0000_0000
    ensures Pow256(16) == 0x1_0000_0000_0000_0000_0000_0000_0000_0000
  {
    assert Pow256(4) == 0x1_0000_0000;
    assert Pow256(8) == 0x1_0000_0000_0000_0000;
    assert Pow256(12) == 0x1_0000_0000_0000_0000_0000_0000;
  }

  /** Different namespaces or cells never share a key on disk. */
  /** Eight bytes of namespace, then sixteen of cell, both big-endian. */
  lemma KeyLayout(ns: Namespace, c: Cell)
    ensures |EncodeKey(ns, c)| == 24 && Num(EncodeKey(ns, c)[..8]) == ns && Num(EncodeKey(ns, c)[8..]) == c
  {
    Widths();
    NumBE(ns, 8);
    NumBE(c, 16);
    assert EncodeKey(ns, c)[..8] == BE(ns, 8) && EncodeKey(ns, c)[8..] == BE(c, 16);
  }

  lemma KeysApart(ns: Namespace, c: Cell, ns': Namespace, c': Cell)
    ensures EncodeKey(ns, c) == EncodeKey(ns', c') <==> ns == ns' && c == c'
  {
    Widths();
    if EncodeKey(ns, c) == EncodeKey(ns', c') {
      assert EncodeKey(ns, c)[..8] == BE(ns, 8) && EncodeKey(ns', c')[..8] == BE(ns', 8);
      assert EncodeKey(ns, c)[8..] == BE(c, 16) && EncodeKey(ns', c')[8..] == BE(c', 16);
      BEInjective(ns, ns', 8);
      BEInjective(c, c', 16);
    }
  }

  function Slice(db: Disk, ns: Namespace): View {
    map c: Cell | EncodeKey(ns, c) in db :: db[EncodeKey(ns, c)]
  }

  // ---------- the store ----------

  class RocksKv {
    const codec: Codec
    var db: Disk

    constructor (codec: Codec, db: Disk)
      ensures this.codec == codec && this.db == db
    {
      this.codec := codec;
      this.db := db;
    }

    /** Bytes of a cell as the batch sees it. */
    method Live(ns: Namespace, overlay: map<Cell, Value>, c: Cell) returns (bytes: Option<Blob>)
      ensures var view := Effective(codec, Slice(db, ns), overlay);
        bytes == if c in view then Some(view[c]) else None
    {
      if c in overlay {
        return Some(codec.ser(overlay[c]));
      }
      var key := EncodeKey(ns, c);
      return if key in db then Some(db[key]) else None;
    }

    /** Validate one job against the batch so far; the recorded reads come in any order. */
    method ValidateAndApplyJob(ns: Namespace, job: Job, overlay: map<Cell, Value>)
      returns (verdict: Outcome, overlay': map<Cell, Value>)
      ensures var view := Effective(codec, Slice(db, ns), overlay);
        && (verdict == Committed <==> Accepts(codec, view, job))
        && (verdict == Conflict ==> overlay' == overlay)
        && (verdict == Committed && Clean(codec, view, job) ==> overlay' == overlay + Promoted(codec, view, job))
    {
      hide *;
      ghost var view := Effective(codec, Slice(db, ns), overlay);
      var local := job.writes;
      var nodes: seq<(Cell, Blob)> := [];
      var left := job.observed.Keys;
      NoneVisited(codec, view, job);
      while left != {}
        invariant left <= job.observed.Keys
        invariant Visited(codec, view, job, job.observed.Keys - left, local, nodes)
        decreases |left|
      {
        var c :| c in left;
        ghost var done := job.observed.Keys - left;
        UnvisitedLocal(codec, view, job, done, local, nodes, c);
        var status, merged := VisitRead(ns, job, overlay, c, local);
        if status == Conflict {
          CellRejects(codec, view, job, c);
          return Conflict, overlay;
        }
        VisitedMore(codec, view, job, done, local, nodes, c);
        left := left - {c};
        assert job.observed.Keys - left == done + {c};
        if merged.Some? {
          local := local[c := PMap(merged.value.root)];
          nodes := nodes + merged.value.cells;
        }
      }
      assert job.observed.Keys - {} == job.observed.Keys;
      AllVisited(codec, view, job, local, nodes);
      verdict := Committed;
      overlay' := InsertNodes(overlay + local, nodes);
      if Clean(codec, view, job) {
        PromotedIs(codec, view, job, overlay, local, nodes);
      }
    }

    /** One recorded read: it still holds, a merge rescues it, or the job conflicts. */
    method VisitRead(ns: Namespace, job: Job, overlay: map<Cell, Value>, c: Cell, local: map<Cell, Value>)
      returns (status: Outcome, merged: Option<Merged>)
      requires c in job.observed
      requires c in local <==> c in job.writes
      requires c in local ==> local[c] == job.writes[c]
      ensures var view := Effective(codec, Slice(db, ns), overlay);
        && (status == Committed <==> CellOk(codec, view, job, c))
        && (status == Committed ==>
              merged == if ReadMatches(codec, view, c, job.observed[c]) then None else Rescue(codec, view, job, c))
    {
      hide Slice, EncodeKey;
      var expected := job.observed[c];
      var live := Live(ns, overlay, c);
      merged := None;
      if match live case None => codec.isDefault(expected) case Some(b) => b == codec.ser(expected) {
        return Committed, None;
      }
      if c !in job.pmapTypes || !expected.PMap? {
        return Conflict, None;
      }
      var root := match live case None => None case Some(b) => codec.rootOf(b, job.pmapTypes[c]);
      var liveRoot := if root.Some? then root.value else EMPTY;
      if c !in local || !local[c].PMap? {
        return Conflict, None;
      }
      var view := Effective(codec, Effective(codec, Slice(db, ns), overlay), job.writes);
      merged := codec.merge(local[c].root, liveRoot, expected.root, view, job.pmapTypes[c]);
      status := if merged.Some? then Committed else Conflict;
    }

    /** Stage the whole overlay, in any order, and write it at once. */
    method Flush(ns: Namespace, overlay: map<Cell, Value>)
      modifies this
      ensures Slice(db, ns) == Effective(codec, Slice(old(db), ns), overlay)
      ensures forall other :: other != ns ==> Slice(db, other) == Slice(old(db), other)
    {
      hide EncodeKey, Slice;
      var batch: Disk := map[];
      var left := overlay.Keys;
      while left != {}
        invariant left <= overlay.Keys && db == old(db)
        invariant batch == Staged(codec, ns, overlay, overlay.Keys - left)
        decreases |left|
      {
        var c :| c in left;
        batch := batch[EncodeKey(ns, c) := codec.ser(overlay[c])];
        StagedMore(codec, ns, overlay, overlay.Keys - left, c);
        assert overlay.Keys - left + {c} == overlay.Keys - (left - {c});
        left := left - {c};
      }
      assert overlay.Keys - {} == overlay.Keys;
      FlushedSlices(codec, db, ns, overlay);
      db := db + batch;
    }

    /** Commit a batch: one verdict per job, one write. A failed write stores nothing. */
    method CommitBatch(ns: Namespace, jobs: seq<Job>, writeFails: bool) returns (outcomes: Option<seq<Outcome>>)
      modifies this
      ensures outcomes.None? <==> writeFails && jobs != []
      ensures outcomes.None? ==> db == old(db)
      ensures outcomes.Some? ==> |outcomes.value| == |jobs|
      ensures outcomes.Some? && CleanRun(codec, Slice(old(db), ns), jobs) ==>
        (Slice(db, ns), outcomes.value) == Serial(codec, Slice(old(db), ns), jobs)
      ensures forall other :: other != ns ==> Slice(db, other) == Slice(old(db), other)
    {
      hide *;
      if jobs == [] {
        SerialNone(codec, Slice(db, ns), jobs);
        return Some([]);
      }
      ghost var stored := Slice(db, ns);
      var overlay: map<Cell, Value> := map[];
      var verdicts: seq<Outcome> := [];
      SerialNone(codec, stored, jobs[..0]);
      EffectiveNone(codec, stored);
      for i := 0 to |jobs|
        invariant db == old(db) && |verdicts| == i
        invariant CleanRun(codec, stored, jobs) ==> (Effective(codec, stored, overlay), verdicts) == Serial(codec, stored, jobs[..i])
      {
        if CleanRun(codec, stored, jobs) {
          SerialNext(codec, stored, jobs, i, overlay);
          CleanNow(codec, stored, jobs, i);
        }
        var verdict;
        verdict, overlay := ValidateAndApplyJob(ns, jobs[i], overlay);
        verdicts := verdicts + [verdict];
      }
      assert jobs[..|jobs|] == jobs;
      if writeFails {
        return None;
      }
      Flush(ns, overlay);
      return Some(verdicts);
    }
  }

  ghost function Staged(k: Codec, ns: Namespace, overlay: map<Cell, Value>, done: set<Cell>): Disk {
    StagedKeys(ns);
    map c | c in done && c in overlay :: EncodeKey(ns, c) := k.ser(overlay[c])
  }

  lemma StagedKeys(ns: Namespace)
    ensures forall c, d :: EncodeKey(ns, c) == EncodeKey(ns, d) ==> c == d
  {
    hide EncodeKey;
    forall c, d | EncodeKey(ns, c) == EncodeKey(ns, d) ensures c == d {
      KeysApart(ns, c, ns, d);
    }
  }

  lemma StagedMore(k: Codec, ns: Namespace, overlay: map<Cell, Value>, done: set<Cell>, c: Cell)
    requires c in overlay && c !in done
    ensures Staged(k, ns, overlay, done + {c}) == Staged(k, ns, overlay, done)[EncodeKey(ns, c) := k.ser(overlay[c])]
  {
    hide EncodeKey;
    StagedKeys(ns);
    assert c in done + {c};
  }

  lemma FlushedSlices(k: Codec, db: Disk, ns: Namespace, overlay: map<Cell, Value>)
    ensures var db' := db + Staged(k, ns, overlay, overlay.Keys);
      && Slice(db', ns) == Effective(k, Slice(db, ns), overlay)
      && forall other :: other != ns ==> Slice(db', other) == Slice(db, other)
  {
    hide *;
    var batch := Staged(k, ns, overlay, overlay.Keys);
    StagedView(k, ns, overlay);
    SliceNext(db, batch, ns);
    forall other | other != ns ensures Slice(db + batch, other) == Slice(db, other) {
      forall c: Cell ensures EncodeKey(other, c) !in batch {
        StagedElsewhere(k, ns, overlay, other, c);
      }
      SliceNext(db, batch, other);
      NothingFrom(batch, other);
    }
    EffectiveIs(k, Slice(db, ns), overlay);
  }

  lemma SliceNext(db: Disk, batch: Disk, ns: Namespace)
    ensures Slice(db + batch, ns) == Slice(db, ns) + Slice(batch, ns)
  {
    hide EncodeKey;
  }

  lemma NothingFrom(batch: Disk, ns: Namespace)
    requires forall c: Cell :: EncodeKey(ns, c) !in batch
    ensures Slice(batch, ns) == map[]
    ensures forall view: View :: view + Slice(batch, ns) == view
  {
    hide EncodeKey;
  }

  lemma EffectiveIs(k: Codec, view: View, overlay: map<Cell, Value>)
    ensures Effective(k, view, overlay) == view + Serialized(k, overlay)
  {
  }

  lemma StagedView(k: Codec, ns: Namespace, overlay: map<Cell, Value>)
    ensures Slice(Staged(k, ns, overlay, overlay.Keys), ns) == Serialized(k, overlay)
  {
    hide EncodeKey;
    StagedKeys(ns);
  }

  lemma StagedElsewhere(k: Codec, ns: Namespace, overlay: map<Cell, Value>, other: Namespace, c: Cell)
    requires other != ns
    ensures EncodeKey(other, c) !in Staged(k, ns, overlay, overlay.Keys)
  {
    hide EncodeKey;
    forall d: Cell ensures EncodeKey(ns, d) != EncodeKey(other, c) {
      KeysApart(ns, d, other, c);
    }
  }

  lemma SerialNone(k: Codec, view: View, jobs: seq<Job>)
    requires jobs == []
    ensures Serial(k, view, jobs) == (view, [])
  {
  }

  lemma CleanNow(k: Codec, view: View, jobs: seq<Job>, i: nat)
    requires CleanRun(k, view, jobs) && i < |jobs|
    ensures var now := Serial(k, view, jobs[..i]).0;
      Accepts(k, now, jobs[i]) ==> Clean(k, now, jobs[i])
  {
    assert CleanTurn(k, view, jobs, i);
  }

  lemma EffectiveNone(k: Codec, view: View)
    ensures Effective(k, view, map[]) == view
  {
  }

  /** Promoting into the overlay is storing, as far as later jobs can see. */
  lemma EffectiveTwice(k: Codec, view: View, a: map<Cell, Value>, b: map<Cell, Value>)
    ensures Effective(k, view, a + b) == Effective(k, Effective(k, view, a), b)
  {
    SerializedPlus(k, a, b);
    hide Serialized;
    Layers(view, Serialized(k, a), Serialized(k, b));
  }

  lemma SerializedPlus(k: Codec, a: map<Cell, Value>, b: map<Cell, Value>)
    ensures Serialized(k, a + b) == Serialized(k, a) + Serialized(k, b)
  {
  }

  lemma Layers(a: View, b: View, c: View)
    ensures a + (b + c) == a + b + c
  {
  }

  lemma SerialNext(k: Codec, stored: View, jobs: seq<Job>, i: nat, overlay: map<Cell, Value>)
    requires i < |jobs| && Effective(k, stored, overlay) == Serial(k, stored, jobs[..i]).0
    ensures var view := Effective(k, stored, overlay);
      var verdict := if Accepts(k, view, jobs[i]) then Committed else Conflict;
      var overlay' := if Accepts(k, view, jobs[i]) then overlay + Promoted(k, view, jobs[i]) else overlay;
      Serial(k, stored, jobs[..i + 1]) == (Effective(k, stored, overlay'), Serial(k, stored, jobs[..i]).1 + [verdict])
  {
    hide Effective, Accepts, Promoted;
    var view := Effective(k, stored, overlay);
    assert jobs[..i + 1][..i] == jobs[..i];
    EffectiveTwice(k, stored, overlay, Promoted(k, view, jobs[i]));
  }

  // ---------- what batching does not change ----------

  ghost function Flatten(batches: seq<seq<Job>>): seq<Job> {
    if batches == [] then [] else Flatten(batches[..|batches| - 1]) + batches[|batches| - 1]
  }

  /** The batches one after the other, each from what the one before stored. */
  ghost function Batched(k: Codec, view: View, batches: seq<seq<Job>>): (View, seq<Outcome>)
    decreases |batches|
  {
    if batches == [] then (view, [])
    else
      var before := Batched(k, view, batches[..|batches| - 1]);
      var last := Serial(k, before.0, batches[|batches| - 1]);
      (last.0, before.1 + last.1)
  }

  lemma SerialLast(k: Codec, view: View, jobs: seq<Job>, job: Job)
    ensures var before := Serial(k, view, jobs);
      var last := Commit(k, before.0, job);
      Serial(k, view, jobs + [job]) == (last.0, before.1 + [last.1])
  {
    assert (jobs + [job])[..|jobs|] == jobs;
  }

  lemma {:induction false} SerialSplit(k: Codec, view: View, a: seq<Job>, b: seq<Job>)
    ensures var first := Serial(k, view, a);
      var second := Serial(k, first.0, b);
      Serial(k, view, a + b) == (second.0, first.1 + second.1)
    decreases |b|
  {
    hide Commit, Serial;
    var first := Serial(k, view, a);
    if b == [] {
      assert a + b == a;
      SerialNone(k, first.0, b);
      assert first.1 + [] == first.1;
    } else {
      var n := |b| - 1;
      SerialSplit(k, view, a, b[..n]);
      SerialLast(k, view, a + b[..n], b[n]);
      SerialLast(k, first.0, b[..n], b[n]);
      assert a + b == a + b[..n] + [b[n]] && b == b[..n] + [b[n]];
      var second := Serial(k, first.0, b[..n]);
      var last := Commit(k, second.0, b[n]);
      assert first.1 + second.1 + [last.1] == first.1 + (second.1 + [last.1]);
    }
  }

  /** A run is clean exactly when its parts are. */
  lemma CleanSplit(k: Codec, view: View, a: seq<Job>, b: seq<Job>)
    ensures CleanRun(k, view, a + b) <==> CleanRun(k, view, a) && CleanRun(k, Serial(k, view, a).0, b)
  {
    hide Serial, Accepts, Clean;
    forall i | 0 <= i < |a| ensures CleanTurn(k, view, a + b, i) <==> CleanTurn(k, view, a, i) {
      assert (a + b)[..i] == a[..i];
    }
    forall i | 0 <= i < |b| ensures CleanTurn(k, view, a + b, |a| + i) <==> CleanTurn(k, Serial(k, view, a).0, b, i) {
      assert (a + b)[..|a| + i] == a + b[..i];
      SerialSplit(k, view, a, b[..i]);
    }
    if CleanRun(k, view, a) && CleanRun(k, Serial(k, view, a).0, b) {
      forall i | 0 <= i < |a + b| ensures CleanTurn(k, view, a + b, i) {
        if i >= |a| {
          assert CleanTurn(k, Serial(k, view, a).0, b, i - |a|);
          assert CleanTurn(k, view, a + b, |a| + (i - |a|));
        }
      }
    }
    if CleanRun(k, view, a + b) {
      forall i | 0 <= i < |b| ensures CleanTurn(k, Serial(k, view, a).0, b, i) {
        assert CleanTurn(k, view, a + b, |a| + i);
      }
    }
  }

  /** Every cut of the jobs into batches gives the outcomes and the store of running them one
      at a time. */
  lemma {:induction false} CutsDoNotMatter(k: Codec, view: View, batches: seq<seq<Job>>)
    ensures Batched(k, view, batches) == Serial(k, view, Flatten(batches))
    decreases |batches|
  {
    hide Commit, Serial;
    if batches != [] {
      var n := |batches| - 1;
      CutsDoNotMatter(k, view, batches[..n]);
      SerialSplit(k, view, Flatten(batches[..n]), batches[n]);
    } else {
      SerialNone(k, view, []);
    }
  }

  /** Jobs answered `Conflict` leave no trace: dropping them changes neither the final bytes nor
      the answers of the others. */
  lemma {:induction false} ConflictsLeaveNoTrace(k: Codec, view: View, jobs: seq<Job>)
    ensures var kept := Kept(jobs, Serial(k, view, jobs).1);
      && Serial(k, view, kept).0 == Serial(k, view, jobs).0
      && forall o :: o in Serial(k, view, kept).1 ==> o == Committed
    decreases |jobs|
  {
    hide Accepts, Promoted, Effective, Serial, Kept;
    if jobs == [] {
      SerialNone(k, view, jobs);
      KeptNone(jobs, []);
    } else {
      var n := |jobs| - 1;
      var before := Serial(k, view, jobs[..n]);
      ConflictsLeaveNoTrace(k, view, jobs[..n]);
      assert jobs == jobs[..n] + [jobs[n]];
      SerialLast(k, view, jobs[..n], jobs[n]);
      var last := Commit(k, before.0, jobs[n]);
      var kept := Kept(jobs[..n], before.1);
      KeptLast(jobs[..n], before.1, jobs[n], last.1);
      SerialLast(k, view, kept, jobs[n]);
      assert kept + [] == kept;
    }
  }

  lemma KeptNone(jobs: seq<Job>, outs: seq<Outcome>)
    requires |outs| == |jobs| == 0
    ensures Kept(jobs, outs) == []
  {
  }

  lemma KeptLast(jobs: seq<Job>, outs: seq<Outcome>, job: Job, out: Outcome)
    requires |outs| == |jobs|
    ensures Kept(jobs + [job], outs + [out]) == Kept(jobs, outs) + if out == Committed then [job] else []
  {
    assert (jobs + [job])[..|jobs|] == jobs && (outs + [out])[..|outs|] == outs;
  }

  /** The jobs that were committed, in order. */
  ghost function Kept(jobs: seq<Job>, outs: seq<Outcome>): seq<Job>
    requires |outs| == |jobs|
  {
    if jobs == [] then []
    else
      var n := |jobs| - 1;
      Kept(jobs[..n], outs[..n]) + if outs[n] == Committed then [jobs[n]] else []
  }

  ghost function Elements(nodes: seq<(Cell, Blob)>): set<(Cell, Blob)> { set p | p in nodes }

  lemma NoNodes()
    ensures Elements([]) == {} && NodeValues({}) == map[]
  {
  }

  /** The merged node cells go in one after the other. */
  method InsertNodes(base: map<Cell, Value>, nodes: seq<(Cell, Blob)>) returns (m: map<Cell, Value>)
    ensures Named(Elements(nodes)) ==> m == base + NodeValues(Elements(nodes))
  {
    hide NodeValues;
    m := base;
    NoNodes();
    for i := 0 to |nodes|
      invariant Named(Elements(nodes)) ==> m == base + NodeValues(Elements(nodes[..i]))
    {
      m := m[nodes[i].0 := Bytes(nodes[i].1)];
      assert Elements(nodes[..i + 1]) == Elements(nodes[..i]) + {nodes[i]};
      if Named(Elements(nodes)) {
        NodeMore(Elements(nodes[..i]), nodes[i]);
      }
    }
    assert nodes[..|nodes|] == nodes;
  }

  lemma NodeMore(nodes: set<(Cell, Blob)>, p: (Cell, Blob))
    requires Named(nodes + {p})
    ensures NodeValues(nodes + {p}) == NodeValues(nodes)[p.0 := Bytes(p.1)]
  {
    var m, m' := NodeValues(nodes), NodeValues(nodes + {p});
    assert p in nodes + {p};
    forall q | q in nodes + {p} ensures q.0 in m' && m'[q.0] == Bytes(q.1) {
      assert BytesAt(nodes + {p}, q.0) == q.1;
    }
    forall c | c in m && c != p.0 ensures c in m' && m'[c] == m[c] {
      var q :| q in nodes && q.0 == c && q.1 == BytesAt(nodes, c);
      assert q in nodes + {p};
    }
    forall c | c in m' ensures c == p.0 || c in m {
      var q :| q in nodes + {p} && q.0 == c;
    }
  }

  /** Progress of a validation: the cells of `done` passed, and this is what they call for. */
  ghost predicate Visited(k: Codec, view: View, job: Job, done: set<Cell>, local: map<Cell, Value>, nodes: seq<(Cell, Blob)>) {
    && (forall c :: c in done && c in job.observed ==> CellOk(k, view, job, c))
    && local == job.writes + Roots(k, view, job, done)
    && Elements(nodes) == Nodes(k, view, job, done)
  }

  lemma NoneVisited(k: Codec, view: View, job: Job)
    ensures Visited(k, view, job, job.observed.Keys - job.observed.Keys, job.writes, [])
  {
  }

  lemma UnvisitedLocal(k: Codec, view: View, job: Job, done: set<Cell>, local: map<Cell, Value>, nodes: seq<(Cell, Blob)>, c: Cell)
    requires Visited(k, view, job, done, local, nodes) && c !in done
    ensures c in local <==> c in job.writes
    ensures c in local ==> local[c] == job.writes[c]
  {
    hide Rescue, ReadMatches;
  }

  lemma CellRejects(k: Codec, view: View, job: Job, c: Cell)
    requires c in job.observed && !CellOk(k, view, job, c)
    ensures !Accepts(k, view, job)
  {
  }

  lemma AllVisited(k: Codec, view: View, job: Job, local: map<Cell, Value>, nodes: seq<(Cell, Blob)>)
    requires Visited(k, view, job, job.observed.Keys, local, nodes)
    ensures Accepts(k, view, job)
  {
    hide Rescue, ReadMatches, CellOk;
  }

  lemma PromotedIs(k: Codec, view: View, job: Job, overlay: map<Cell, Value>, local: map<Cell, Value>, nodes: seq<(Cell, Blob)>)
    requires Visited(k, view, job, job.observed.Keys, local, nodes) && Clean(k, view, job)
    ensures Named(Elements(nodes))
    ensures overlay + local + NodeValues(Elements(nodes)) == overlay + Promoted(k, view, job)
  {
    hide Rescue, ReadMatches, CellOk, NodeValues, Roots, Nodes;
  }

  lemma VisitedMore(k: Codec, view: View, job: Job, done: set<Cell>, local: map<Cell, Value>, nodes: seq<(Cell, Blob)>, c: Cell)
    requires Visited(k, view, job, done, local, nodes)
    requires c in job.observed && c !in done && CellOk(k, view, job, c)
    ensures ReadMatches(k, view, c, job.observed[c]) || Rescue(k, view, job, c).Some?
    ensures if ReadMatches(k, view, c, job.observed[c]) then Visited(k, view, job, done + {c}, local, nodes)
            else var m := Rescue(k, view, job, c).value;
              Visited(k, view, job, done + {c}, local[c := PMap(m.root)], nodes + m.cells)
  {
    hide ReadMatches, Rescue;
    MergesMore(k, view, job, done, c);
    if !ReadMatches(k, view, c, job.observed[c]) {
      var m := Rescue(k, view, job, c).value;
      assert Elements(nodes + m.cells) == Elements(nodes) + Elements(m.cells);
    }
  }

  lemma MergesMore(k: Codec, view: View, job: Job, done: set<Cell>, c: Cell)
    requires c in job.observed && c !in done
    ensures var hit := !ReadMatches(k, view, c, job.observed[c]) && Rescue(k, view, job, c).Some?;
      && Roots(k, view, job, done + {c}) == (if hit then Roots(k, view, job, done)[c := PMap(Rescue(k, view, job, c).value.root)]
                                             else Roots(k, view, job, done))
      && Nodes(k, view, job, done + {c}) == (if hit then Nodes(k, view, job, done) + Elements(Rescue(k, view, job, c).value.cells)
                                             else Nodes(k, view, job, done))
  {
    hide ReadMatches, Rescue;
    var hit := !ReadMatches(k, view, c, job.observed[c]) && Rescue(k, view, job, c).Some?;
    assert Merges(k, view, job, done + {c}) == Merges(k, view, job, done) + if hit then {c} else {};
  }
}
