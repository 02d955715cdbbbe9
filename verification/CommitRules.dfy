/** The verdict on a job, and what it leaves, spelled out on the stored bytes. */
module CommitRules {
  import opened Options
  import opened GroupCommit
  import opened Occ

  /** The cell still holds what was read: the same bytes, or nothing where a default was read. */
  ghost predicate Unchanged(k: Codec, view: View, c: Cell, seen: Value) {
    (c in view && view[c] == k.ser(seen)) || (c !in view && k.isDefault(seen))
  }

  /** The job read a map there and wrote a map there, and the map's types are known. */
  ghost predicate MapRewritten(observed: map<Cell, Value>, writes: map<Cell, Value>, types: map<Cell, Types>, c: Cell)
    requires c in observed
  {
    c in types && observed[c].PMap? && c in writes && writes[c].PMap?
  }

  function RootNow(k: Codec, view: View, c: Cell, ty: Types): nat {
    if c in view && k.rootOf(view[c], ty).Some? then k.rootOf(view[c], ty).value else 0
  }

  /** The stored bytes with the job's own writes in front. */
  function Behind(k: Codec, view: View, writes: map<Cell, Value>): View { view + map c | c in writes :: k.ser(writes[c]) }

  /** A rewritten map merges: what was written, what is there now, what was read. */
  function MergeOf(k: Codec, view: View, writes: map<Cell, Value>, base: nat, c: Cell, ty: Types): Option<Merged>
    requires c in writes && writes[c].PMap?
  {
    k.merge(writes[c].root, RootNow(k, view, c, ty), base, Behind(k, view, writes), ty)
  }

  lemma BehindIs(k: Codec, view: View, writes: map<Cell, Value>)
    ensures Effective(k, view, writes) == Behind(k, view, writes)
  {
  }

  ghost predicate Fine(k: Codec, view: View, job: Job, c: Cell)
    requires c in job.observed
  {
    Unchanged(k, view, c, job.observed[c])
    || (MapRewritten(job.observed, job.writes, job.pmapTypes, c)
        && MergeOf(k, view, job.writes, job.observed[c].root, c, job.pmapTypes[c]).Some?)
  }

  lemma FineExactly(k: Codec, view: View, job: Job, c: Cell)
    requires c in job.observed
    ensures CellOk(k, view, job, c) <==> Fine(k, view, job, c)
    ensures !Unchanged(k, view, c, job.observed[c]) && MapRewritten(job.observed, job.writes, job.pmapTypes, c) ==>
      Rescue(k, view, job, c) == MergeOf(k, view, job.writes, job.observed[c].root, c, job.pmapTypes[c])
  {
    hide Effective;
    BehindIs(k, view, job.writes);
  }

  /** A job is committed if and only if every cell it read is unchanged, or holds a map that the
      job read and rewrote and that merges; a refused job changes nothing. */
  lemma VerdictExactly(k: Codec, view: View, job: Job)
    ensures Commit(k, view, job).1 == Committed <==> forall c :: c in job.observed ==> Fine(k, view, job, c)
    ensures Commit(k, view, job).1 == Conflict ==> Commit(k, view, job).0 == view
  {
    hide CellOk, Fine, Promoted, Effective;
    forall c | c in job.observed ensures CellOk(k, view, job, c) <==> Fine(k, view, job, c) {
      FineExactly(k, view, job, c);
    }
  }

  /** A stale read of anything but a map that the job rewrote is refused. */
  lemma StaleReadRefused(k: Codec, view: View, job: Job, c: Cell)
    requires c in job.observed && !Unchanged(k, view, c, job.observed[c])
    requires !MapRewritten(job.observed, job.writes, job.pmapTypes, c)
    ensures Commit(k, view, job) == (view, Conflict)
  {
    hide Commit, Unchanged, MapRewritten;
    VerdictExactly(k, view, job);
    assert !Fine(k, view, job, c);
  }

  /** A job that writes no map is committed if and only if every read still holds, and then leaves
      exactly its writes over what was there. */
  lemma PlainJob(k: Codec, view: View, job: Job)
    requires forall c :: c in job.writes ==> !job.writes[c].PMap?
    ensures Commit(k, view, job).1 == Committed <==> forall c :: c in job.observed ==> Unchanged(k, view, c, job.observed[c])
    ensures Commit(k, view, job).1 == Committed ==>
      var view' := Commit(k, view, job).0;
      && (forall c :: c in view' <==> c in view || c in job.writes)
      && (forall c :: c in job.writes ==> view'[c] == k.ser(job.writes[c]))
      && (forall c :: c in view && c !in job.writes ==> view'[c] == view[c])
  {
    hide Unchanged, Commit, MergeOf, Clean, NewNode, Remerged;
    VerdictExactly(k, view, job);
    NothingMerged(k, view, job);
    if Commit(k, view, job).1 == Committed {
      LeavesExactly(k, view, job);
    }
  }

  lemma NothingMerged(k: Codec, view: View, job: Job)
    requires forall c :: c in job.writes ==> !job.writes[c].PMap?
    ensures Clean(k, view, job)
    ensures forall c :: !Remerged(k, view, job, c) && !NodeNamed(k, view, job, c)
  {
    hide Effective, MergeOf;
    assert Merges(k, view, job, job.observed.Keys) == {};
  }

  /** The job read a map that has changed since, and rewrote it. */
  ghost predicate Remerged(k: Codec, view: View, job: Job, c: Cell) {
    && c in job.observed && !Unchanged(k, view, c, job.observed[c])
    && MapRewritten(job.observed, job.writes, job.pmapTypes, c)
    && MergeOf(k, view, job.writes, job.observed[c].root, c, job.pmapTypes[c]).Some?
  }

  ghost function MergedAt(k: Codec, view: View, job: Job, c: Cell): Merged
    requires Remerged(k, view, job, c)
  {
    MergeOf(k, view, job.writes, job.observed[c].root, c, job.pmapTypes[c]).value
  }

  /** A node cell that one of the job's merges made. */
  ghost predicate NewNode(k: Codec, view: View, job: Job, p: (Cell, Blob)) {
    exists c :: Remerged(k, view, job, c) && p in MergedAt(k, view, job, c).cells
  }

  lemma MergesAre(k: Codec, view: View, job: Job)
    ensures forall c :: c in Merges(k, view, job, job.observed.Keys) <==> Remerged(k, view, job, c)
    ensures forall c :: Remerged(k, view, job, c) ==> Rescue(k, view, job, c) == Some(MergedAt(k, view, job, c))
    ensures forall p :: p in Nodes(k, view, job, job.observed.Keys) <==> NewNode(k, view, job, p)
  {
    hide Effective, Rescue, MergeOf;
    forall c ensures c in Merges(k, view, job, job.observed.Keys) <==> Remerged(k, view, job, c) {
      if c in job.observed {
        FineExactly(k, view, job, c);
        if !MapRewritten(job.observed, job.writes, job.pmapTypes, c) {
          NotRescued(k, view, job, c);
        }
      }
    }
    forall c | Remerged(k, view, job, c) ensures Rescue(k, view, job, c) == Some(MergedAt(k, view, job, c)) {
      FineExactly(k, view, job, c);
    }
    forall p ensures p in Nodes(k, view, job, job.observed.Keys) <==> NewNode(k, view, job, p) {
      if p in Nodes(k, view, job, job.observed.Keys) {
        var c :| c in Merges(k, view, job, job.observed.Keys) && p in Rescue(k, view, job, c).value.cells;
        assert Remerged(k, view, job, c);
      }
    }
  }

  lemma NotRescued(k: Codec, view: View, job: Job, c: Cell)
    requires c in job.observed && !MapRewritten(job.observed, job.writes, job.pmapTypes, c)
    ensures Rescue(k, view, job, c).None?
  {
  }

  /** What a committed job leaves, cell by cell, when its merges name no two different nodes
      alike: merged nodes, merged roots, its own writes, and everything else as it was. */
  lemma LeavesExactly(k: Codec, view: View, job: Job)
    requires Commit(k, view, job).1 == Committed && Clean(k, view, job)
    ensures var view' := Commit(k, view, job).0;
      && (forall p :: NewNode(k, view, job, p) ==> p.0 in view' && view'[p.0] == k.ser(Bytes(p.1)))
      && forall c | !NodeNamed(k, view, job, c) ::
           && (Remerged(k, view, job, c) ==> c in view' && view'[c] == k.ser(PMap(MergedAt(k, view, job, c).root)))
           && (!Remerged(k, view, job, c) && c in job.writes ==> c in view' && view'[c] == k.ser(job.writes[c]))
           && (!Remerged(k, view, job, c) && c !in job.writes ==> (c in view' <==> c in view) && (c in view ==> view'[c] == view[c]))
  {
    hide Remerged, MergedAt, Rescue, ReadMatches, Merges, Nodes;
    MergesAre(k, view, job);
    var done := job.observed.Keys;
    var nodes, roots := Nodes(k, view, job, done), Roots(k, view, job, done);
    var values := NodeValues(nodes);
    var view' := Commit(k, view, job).0;
    assert view' == Effective(k, view, job.writes + roots + values);
    forall p | NewNode(k, view, job, p) ensures p.0 in view' && view'[p.0] == k.ser(Bytes(p.1)) {
      ValueKeys(nodes, p.0);
      var q :| q in nodes && q.0 == p.0 && values[p.0] == Bytes(q.1);
    }
    forall c | !NodeNamed(k, view, job, c) ensures c !in values {
      ValueKeys(nodes, c);
      forall p | p in nodes ensures p.0 != c {
        assert NewNode(k, view, job, p);
      }
    }
  }

  /** The cell is named by one of the job's merged nodes. */
  ghost predicate NodeNamed(k: Codec, view: View, job: Job, c: Cell) {
    exists p :: NewNode(k, view, job, p) && p.0 == c
  }

  /** A speculation can be salvaged if and only if every cell it read is unchanged, or holds a map
      that it read and rewrote and that merges against what the snapshot had. */
  lemma SalvageExactly(t: Typing, e: Exec, live: View, snapshot: View)
    ensures Salvageable(t, e, live, snapshot) <==>
      forall c :: c in e.observed ==>
        Unchanged(t.codec, live, c, e.observed[c])
        || (MapRewritten(e.observed, e.writes, e.types, c)
            && MergeOf(t.codec, live, e.writes, RootNow(t.codec, snapshot, c, e.types[c]), c, e.types[c]).Some?)
  {
    hide Effective, MergeCell, MergeOf, ReadMatches, Unchanged;
    forall c | c in e.observed
      ensures ReadMatches(t.codec, live, c, e.observed[c]) <==> Unchanged(t.codec, live, c, e.observed[c])
      ensures MapRewritten(e.observed, e.writes, e.types, c) ==>
        MergeCell(t.codec, e, live, snapshot, c) == MergeOf(t.codec, live, e.writes, RootNow(t.codec, snapshot, c, e.types[c]), c, e.types[c])
      ensures MergeCell(t.codec, e, live, snapshot, c).Some? ==> c in e.types && c in e.writes && e.writes[c].PMap?
    {
      MergeCellIs(t, e, live, snapshot, c);
    }
    if Salvageable(t, e, live, snapshot) {
      forall c | c in e.observed && !Unchanged(t.codec, live, c, e.observed[c])
        ensures MapRewritten(e.observed, e.writes, e.types, c) && MergeCell(t.codec, e, live, snapshot, c).Some?
      {
        assert c in Mismatched(t, e, live);
      }
    }
  }

  lemma MergeCellIs(t: Typing, e: Exec, live: View, snapshot: View, c: Cell)
    requires c in e.observed
    ensures ReadMatches(t.codec, live, c, e.observed[c]) <==> Unchanged(t.codec, live, c, e.observed[c])
    ensures MapRewritten(e.observed, e.writes, e.types, c) ==>
      MergeCell(t.codec, e, live, snapshot, c) == MergeOf(t.codec, live, e.writes, RootNow(t.codec, snapshot, c, e.types[c]), c, e.types[c])
    ensures MergeCell(t.codec, e, live, snapshot, c).Some? ==> c in e.types && c in e.writes && e.writes[c].PMap?
  {
    hide Effective;
    BehindIs(t.codec, live, e.writes);
  }
}
