/** Concrete batches: the conditions of group commit are met by runs in which merges produce cells. */
module CommitExamples {
  import opened Options
  import opened Bytes
  import opened GroupCommit

  /** A tag byte and the value; roots are 16 bytes. */
  function Ser(v: Value): Blob {
    match v
    case PMap(r) => [0x16] + BE(r, 16)
    case PBTree(r) => [0x19] + BE(r, 16)
    case Bytes(b) => [0x14] + b
    case Plain(n) => [0x01]
  }

  /** Merging two roots writes one node, named 7, and the merged root is the sum of the two. */
  function Sum(ours: nat, live: nat, base: nat, view: View, t: Types): Option<Merged> {
    Some(Merged(ours + live, [(7, [9])]))
  }

  const Adder: Codec := Codec(Ser, v => v == PMap(0), (b, t) => if |b| == 17 then Some(Num(b[1..])) else None, b => 7, Sum)

  /** A job that read the empty map at cell 1 and wrote root `r` there. */
  function Write(r: nat): Job { Job(map[1 := PMap(0)], map[1 := PMap(r)], map[1 := 0]) }

  lemma SerRoot(r: nat)
    requires r < Pow256(16)
    ensures |Ser(PMap(r))| == 17 && Ser(PMap(r))[1..] == BE(r, 16) && Num(BE(r, 16)) == r
    ensures Adder.rootOf(Ser(PMap(r)), 0) == Some(r)
  {
    NumBE(r, 16);
    assert Ser(PMap(r))[1..] == BE(r, 16);
  }

  lemma NoMerges(view: View, job: Job)
    requires forall c :: c in job.observed ==> ReadMatches(Adder, view, c, job.observed[c])
    ensures Merges(Adder, view, job, job.observed.Keys) == {} && Nodes(Adder, view, job, job.observed.Keys) == {}
    ensures Roots(Adder, view, job, job.observed.Keys) == map[]
  {
    hide Rescue;
  }

  /** One merged cell with one node. */
  lemma OneMerge(view: View, job: Job, m: Merged, p: (Cell, Blob))
    requires job.observed.Keys == {1} && !ReadMatches(Adder, view, 1, job.observed[1])
    requires Rescue(Adder, view, job, 1) == Some(m) && m.cells == [p]
    ensures Merges(Adder, view, job, {1}) == {1} && Nodes(Adder, view, job, {1}) == {p}
    ensures Roots(Adder, view, job, {1}) == map[1 := PMap(m.root)]
  {
    hide Rescue, ReadMatches;
    assert p in Rescue(Adder, view, job, 1).value.cells;
  }

  lemma OneNode(p: (Cell, Blob))
    ensures NodeValues({p}) == map[p.0 := Bytes(p.1)]
  {
    assert p in {p};
    assert BytesAt({p}, p.0) == p.1;
  }

  /** The first job finds the cell missing, so its read holds and nothing is merged. */
  lemma FirstWrite(r: nat)
    ensures Accepts(Adder, map[], Write(r)) && Clean(Adder, map[], Write(r))
    ensures Commit(Adder, map[], Write(r)) == (map[1 := Ser(PMap(r))], Committed)
  {
    hide Ser, Roots, Nodes, NodeValues, Merges, Rescue, Serialized;
    var job := Write(r);
    assert ReadMatches(Adder, map[], 1, PMap(0));
    NoMerges(map[], job);
    NoNodes();
    assert Promoted(Adder, map[], job) == job.writes + map[] + map[];
    assert job.writes + map[] + map[] == job.writes;
    OneWrite(PMap(r));
  }

  lemma OneWrite(v: Value)
    ensures Effective(Adder, map[], map[1 := v]) == map[1 := Ser(v)]
  {
    hide Ser;
    assert Serialized(Adder, map[1 := v]) == map[1 := Ser(v)];
  }

  lemma RootAndNode(view: View, v: Value, w: Value)
    requires view.Keys == {1}
    ensures Effective(Adder, view, map[1 := v, 7 := w]) == map[1 := Ser(v), 7 := Ser(w)]
  {
    hide Ser;
    assert Serialized(Adder, map[1 := v, 7 := w]) == map[1 := Ser(v), 7 := Ser(w)];
  }

  lemma Rescued(r: nat, q: nat)
    requires 0 < r < Pow256(16)
    ensures var view: View := map[1 := Ser(PMap(r))];
      && !ReadMatches(Adder, view, 1, PMap(0))
      && Rescue(Adder, view, Write(q), 1) == Some(Merged(q + r, [(7, [9])]))
  {
    hide Ser, Effective, Pow256, BE, Num;
    assert 0 < Pow256(16);
    SerRoot(r);
    SerRoot(0);
    assert Ser(PMap(r)) != Ser(PMap(0));
  }

  /** The second finds the first one's root there and is rescued by a merge, whose node is stored. */
  lemma SecondWrite(r: nat, q: nat)
    requires 0 < r < Pow256(16)
    ensures var view: View := map[1 := Ser(PMap(r))];
      && Accepts(Adder, view, Write(q)) && Clean(Adder, view, Write(q))
      && Merges(Adder, view, Write(q), {1}) == {1}
      && Commit(Adder, view, Write(q)) == (map[1 := Ser(PMap(q + r)), 7 := Ser(Bytes([9]))], Committed)
  {
    hide Ser, Roots, Nodes, NodeValues, Merges, Effective, Pow256, BE, Num, Rescue, ReadMatches;
    var view: View, job := map[1 := Ser(PMap(r))], Write(q);
    var m := Merged(q + r, [(7, [9])]);
    Rescued(r, q);
    assert job.observed.Keys == {1};
    OneMerge(view, job, m, (7, [9]));
    OneNode((7, [9]));
    var writes: map<Cell, Value> := map[1 := PMap(q)];
    assert writes + map[1 := PMap(q + r)] + map[7 := Bytes([9])] == map[1 := PMap(q + r), 7 := Bytes([9])];
    RootAndNode(view, PMap(q + r), Bytes([9]));
  }

  /** Both in one run: clean at every turn, both committed, the second by a merge that stored a node. */
  lemma TwoWritersMerge()
    ensures CleanRun(Adder, map[], [Write(2), Write(3)])
    ensures Serial(Adder, map[], [Write(2), Write(3)])
         == (map[1 := Ser(PMap(5)), 7 := Ser(Bytes([9]))], [Committed, Committed])
  {
    hide Accepts, Clean, Commit, Ser, Merges, Write, Serial;
    var jobs := [Write(2), Write(3)];
    Widths();
    FirstWrite(2);
    SecondWrite(2, 3);
    assert jobs[..0] == [] && jobs[..1] == [Write(2)];
    SerialNone(Adder, map[], []);
    SerialLast(Adder, map[], [], Write(2));
    SerialLast(Adder, map[], [Write(2)], Write(3));
    assert [] + [Write(2)] == [Write(2)] && [Write(2)] + [Write(3)] == jobs;
    var one: seq<Outcome> := [];
    assert one + [Committed] == [Committed] && [Committed] + [Committed] == [Committed, Committed];
    assert Serial(Adder, map[], [Write(2)]) == (map[1 := Ser(PMap(2))], [Committed]);
    assert CleanTurn(Adder, map[], jobs, 0) && CleanTurn(Adder, map[], jobs, 1);
  }
}
