/** A missing sorted map is a conflict with itself: a typing and a one-read transaction that no
    validation ever accepts. */
module OccExamples {
  import opened Options
  import opened Bytes
  import opened GroupCommit
  import opened Occ
  import CommitExamples

  const MAPS: Types := 0
  const SORTED: Types := 1

  /** Defaults as the validator recognises them: the empty map and no bytes, not the empty sorted map. */
  function Recognised(v: Value): bool { v == PMap(0) || v == Bytes([]) }

  function RootOf(b: Blob, tag: byte): Option<nat> { if |b| == 17 && b[0] == tag then Some(Num(b[1..])) else None }

  function Decode(b: Blob, ty: Types): Option<Value> {
    if ty == MAPS then (var r := RootOf(b, 0x16); if r.Some? then Some(PMap(r.value)) else None)
    else if ty == SORTED then (var r := RootOf(b, 0x19); if r.Some? then Some(PBTree(r.value)) else None)
    else if |b| > 0 && b[0] == 0x14 then Some(Bytes(b[1..]))
    else None
  }

  function Initial(ty: Types): Value { if ty == MAPS then PMap(0) else if ty == SORTED then PBTree(0) else Bytes([]) }

  predicate HasType(v: Value, ty: Types) {
    match v
    case PMap(r) => ty == MAPS && r < Pow256(16)
    case PBTree(r) => ty == SORTED && r < Pow256(16)
    case Bytes(_) => ty != MAPS && ty != SORTED
    case Plain(_) => false
  }

  const Cells: Typing := Typing(
    Codec(CommitExamples.Ser, Recognised, (b, t) => RootOf(b, 0x16), b => 7, (a, b, d, view, t) => None),
    Decode, Initial, HasType)

  lemma SerDecodes(v: Value, ty: Types)
    requires HasType(v, ty)
    ensures Decode(CommitExamples.Ser(v), ty) == Some(v)
  {
    hide BE, Num, Pow256;
    var b := CommitExamples.Ser(v);
    match v
    case PMap(r) =>
      NumBE(r, 16);
      assert b[1..] == BE(r, 16);
    case PBTree(r) =>
      NumBE(r, 16);
      assert b[1..] == BE(r, 16);
    case Bytes(x) => assert b[1..] == x;
  }

  lemma DecodesTyped(b: Blob, ty: Types)
    requires Decode(b, ty).Some?
    ensures HasType(Decode(b, ty).value, ty)
  {
    hide Num, Pow256;
    if ty == MAPS || ty == SORTED {
      BENum(b[1..]);
    }
  }

  lemma CellsFaithful()
    ensures Faithful(Cells)
  {
    hide HasType, Decode, CommitExamples.Ser, Pow256;
    forall v, ty | Cells.hasType(v, ty) ensures Cells.decode(Cells.codec.ser(v), ty) == Some(v) {
      SerDecodes(v, ty);
    }
    forall b, ty | Cells.decode(b, ty).Some? ensures Cells.hasType(Cells.decode(b, ty).value, ty) {
      DecodesTyped(b, ty);
    }
    forall ty ensures Cells.hasType(Cells.initial(ty), ty) {
      InitialTyped(ty);
    }
    forall v, ty | Cells.hasType(v, ty) && Cells.codec.isDefault(v) ensures v == Cells.initial(ty) {
      OnlyDefault(v, ty);
    }
  }

  lemma InitialTyped(ty: Types)
    ensures HasType(Initial(ty), ty)
  {
    hide Pow256;
    assert 0 < Pow256(16);
  }

  lemma OnlyDefault(v: Value, ty: Types)
    requires HasType(v, ty) && Recognised(v)
    ensures v == Initial(ty)
  {
  }

  /** Read the sorted map at cell 5 and return it. */
  function ReadSorted(seen: seq<Value>): Action { if seen == [] then Read(5, SORTED) else Finish(seen[0]) }

  lemma ReadSortedRuns(fuel: nat)
    requires fuel >= 2
    ensures Start(Cells, ReadSorted, map[], fuel) == Some(Exec(PBTree(0), map[5 := PBTree(0)], map[], map[]))
    ensures FirstReads(Cells, ReadSorted, map[], Fresh, fuel) == map[5 := SORTED]
  {
    hide Decode, CommitExamples.Ser, HasType;
    var v := PBTree(0);
    assert Fetch(Cells, map[], 5, SORTED) == v;
    var tx := ReadStep(Cells, map[], Fresh, 5, SORTED);
    assert tx == Tx([v], map[5 := v], map[], map[]);
    assert ReadSorted(tx.seen) == Finish(v);
    assert Execute(Cells, ReadSorted, map[], tx, fuel - 1) == Some(Exec(v, map[5 := v], map[], map[]));
    var none: map<Cell, Types> := map[];
    assert FirstReads(Cells, ReadSorted, map[], tx, fuel - 1) == none;
    assert none[5 := SORTED] == map[5 := SORTED];
  }

  /** It runs to its end on an empty store with every fuel from 2 on, and against the very store
      it ran on its read does not hold: in memory it is not validated, and as a job of a group
      commit it is a conflict. */
  lemma MissingSortedMapConflicts(fuel: nat)
    requires fuel >= 2
    ensures Faithful(Cells)
    ensures Start(Cells, ReadSorted, map[], fuel).Some?
    ensures var e := Start(Cells, ReadSorted, map[], fuel).value;
      && !Confirmable(Cells, map[], 5, SORTED) && !Validates(Cells, e.observed, map[])
      && Commit(Cells.codec, map[], Job(e.observed, e.writes, e.types)) == (map[], Conflict)
  {
    hide Faithful, Start, FirstReads, Decode, CommitExamples.Ser, HasType;
    CellsFaithful();
    ReadSortedRuns(fuel);
    UndisturbedValidates(Cells, ReadSorted, map[], fuel);
    var job := Job(map[5 := PBTree(0)], map[], map[]);
    assert !CellOk(Cells.codec, map[], job, 5);
  }
}
