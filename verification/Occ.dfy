/** Optimistic batches in memory: speculate on a snapshot, then validate, salvage or re-execute. */
module Occ {
  import opened Options
  import opened GroupCommit

  /** Typed storage: how bytes are read back, and what a missing cell reads as. */
  datatype Typing = Typing(
    codec: Codec,
    decode: (Blob, Types) -> Option<Value>,
    initial: Types -> Value,
    hasType: (Value, Types) -> bool)

  /** Serialization round-trips at a type, and only a type's own default passes for its default. */
  ghost predicate Faithful(t: Typing) {
    && (forall v, ty :: t.hasType(v, ty) ==> t.decode(t.codec.ser(v), ty) == Some(v))
    && (forall b, ty :: t.decode(b, ty).Some? ==> t.hasType(t.decode(b, ty).value, ty))
    && (forall ty :: t.hasType(t.initial(ty), ty))
    && (forall v, ty :: t.hasType(v, ty) && t.codec.isDefault(v) ==> v == t.initial(ty))
  }

  // ---------- transactions ----------

  /** What a transaction does next. */
  datatype Action =
    | Read(c: Cell, ty: Types)
    | Write(c: Cell, v: Value)
    | UseMap(c: Cell, ty: Types)     // an operation on the map in `c` makes its types known
    | Finish(result: Value)
    | Abort

  /** A deterministic transaction: its next action is a function of the values it has seen. */
  type Program = seq<Value> -> Action

  datatype Tx = Tx(seen: seq<Value>, observed: map<Cell, Value>, writes: map<Cell, Value>, types: map<Cell, Types>)

  datatype Exec = Exec(result: Value, observed: map<Cell, Value>, writes: map<Cell, Value>, types: map<Cell, Types>)

  function Fetch(t: Typing, view: View, c: Cell, ty: Types): Value {
    var got := if c in view then t.decode(view[c], ty) else None;
    if got.Some? then got.value else t.initial(ty)
  }

  /** A read is served by the transaction's own writes, then by its recorded reads, then by the
      store, and only the last kind is recorded. */
  function ReadStep(t: Typing, view: View, tx: Tx, c: Cell, ty: Types): Tx {
    if c in tx.writes then tx.(seen := tx.seen + [tx.writes[c]])
    else if c in tx.observed then tx.(seen := tx.seen + [tx.observed[c]])
    else
      var v := Fetch(t, view, c, ty);
      tx.(seen := tx.seen + [v], observed := tx.observed[c := v])
  }

  function WriteStep(tx: Tx, c: Cell, v: Value): Tx { tx.(seen := tx.seen + [v], writes := tx.writes[c := v]) }

  /** The first types recorded for a cell stay. */
  function UseStep(tx: Tx, c: Cell, ty: Types): Tx {
    tx.(seen := tx.seen + [Plain(0)], types := if c in tx.types then tx.types else tx.types[c := ty])
  }

  /** Run for at most `fuel` actions; `None` is an error, running out included. */
  function Execute(t: Typing, p: Program, view: View, tx: Tx, fuel: nat): Option<Exec>
    decreases fuel
  {
    if fuel == 0 then None
    else
      match p(tx.seen)
      case Read(c, ty) => Execute(t, p, view, ReadStep(t, view, tx, c, ty), fuel - 1)
      case Write(c, v) => Execute(t, p, view, WriteStep(tx, c, v), fuel - 1)
      case UseMap(c, ty) => Execute(t, p, view, UseStep(tx, c, ty), fuel - 1)
      case Finish(r) => Some(Exec(r, tx.observed, tx.writes, tx.types))
      case Abort => None
  }

  const Fresh: Tx := Tx([], map[], map[], map[])

  function Start(t: Typing, p: Program, view: View, fuel: nat): Option<Exec> { Execute(t, p, view, Fresh, fuel) }

  /** Every recorded read still holds. */
  ghost predicate Validates(t: Typing, observed: map<Cell, Value>, view: View) {
    forall c :: c in observed ==> ReadMatches(t.codec, view, c, observed[c])
  }

  lemma {:induction false} ObservedKept(t: Typing, p: Program, view: View, tx: Tx, fuel: nat)
    requires Execute(t, p, view, tx, fuel).Some?
    ensures var e := Execute(t, p, view, tx, fuel).value;
      forall c :: c in tx.observed ==> c in e.observed && e.observed[c] == tx.observed[c]
    decreases fuel
  {
    match p(tx.seen)
    case Read(c, ty) => ObservedKept(t, p, view, ReadStep(t, view, tx, c, ty), fuel - 1);
    case Write(c, v) => ObservedKept(t, p, view, WriteStep(tx, c, v), fuel - 1);
    case UseMap(c, ty) => ObservedKept(t, p, view, UseStep(tx, c, ty), fuel - 1);
    case _ =>
  }

  lemma MatchedFetch(t: Typing, view: View, view': View, c: Cell, ty: Types)
    requires Faithful(t) && ReadMatches(t.codec, view', c, Fetch(t, view, c, ty))
    ensures Fetch(t, view', c, ty) == Fetch(t, view, c, ty)
  {
    assert t.hasType(Fetch(t, view, c, ty), ty);
  }

  /** A transaction whose recorded reads hold in another store does there exactly what it did. */
  lemma {:induction false} Replays(t: Typing, p: Program, view: View, view': View, tx: Tx, fuel: nat)
    requires Faithful(t) && Execute(t, p, view, tx, fuel).Some?
    requires Validates(t, Execute(t, p, view, tx, fuel).value.observed, view')
    ensures Execute(t, p, view', tx, fuel) == Execute(t, p, view, tx, fuel)
    decreases fuel
  {
    hide Faithful, Fetch;
    match p(tx.seen)
    case Read(c, ty) =>
      var next := ReadStep(t, view, tx, c, ty);
      if c !in tx.writes && c !in tx.observed {
        ObservedKept(t, p, view, next, fuel - 1);
        assert next.observed[c] == Fetch(t, view, c, ty);
        MatchedFetch(t, view, view', c, ty);
      }
      Replays(t, p, view, view', next, fuel - 1);
    case Write(c, v) => Replays(t, p, view, view', WriteStep(tx, c, v), fuel - 1);
    case UseMap(c, ty) => Replays(t, p, view, view', UseStep(tx, c, ty), fuel - 1);
    case _ =>
  }

  lemma {:induction false} MoreFuel(t: Typing, p: Program, view: View, tx: Tx, fuel: nat, more: nat)
    requires Execute(t, p, view, tx, fuel).Some?
    ensures Execute(t, p, view, tx, fuel + more) == Execute(t, p, view, tx, fuel)
    decreases fuel
  {
    match p(tx.seen)
    case Read(c, ty) => MoreFuel(t, p, view, ReadStep(t, view, tx, c, ty), fuel - 1, more);
    case Write(c, v) => MoreFuel(t, p, view, WriteStep(tx, c, v), fuel - 1, more);
    case UseMap(c, ty) => MoreFuel(t, p, view, UseStep(tx, c, ty), fuel - 1, more);
    case _ =>
  }

  // ---------- the serial reference ----------

  /** What a transaction does when fuel is no limit. */
  ghost function Unlimited(t: Typing, p: Program, view: View): Option<Exec> {
    if fuel: nat :| Start(t, p, view, fuel).Some? then Start(t, p, view, fuel) else None
  }

  lemma UnlimitedIs(t: Typing, p: Program, view: View, fuel: nat)
    requires Start(t, p, view, fuel).Some?
    ensures Unlimited(t, p, view) == Start(t, p, view, fuel)
  {
    var f: nat :| Start(t, p, view, f).Some? && Unlimited(t, p, view) == Start(t, p, view, f);
    assert Execute(t, p, view, Fresh, f) == Start(t, p, view, f) && Execute(t, p, view, Fresh, fuel) == Start(t, p, view, fuel);
    if f <= fuel {
      MoreFuel(t, p, view, Fresh, f, fuel - f);
    } else {
      MoreFuel(t, p, view, Fresh, fuel, f - fuel);
    }
  }

  /** The transactions one after the other, in list order. */
  ghost function Sequential(t: Typing, view: View, ps: seq<Program>): Option<(View, seq<Value>)>
    decreases |ps|
  {
    if ps == [] then Some((view, []))
    else
      var n := |ps| - 1;
      match Sequential(t, view, ps[..n])
      case None => None
      case Some(before) =>
        match Unlimited(t, ps[n], before.0)
        case None => None
        case Some(e) => Some((Effective(t.codec, before.0, e.writes), before.1 + [e.result]))
  }

  /** One transaction at its turn: run on the store as it is, or its speculation salvaged. */
  ghost function Turn(t: Typing, p: Program, snapshot: View, view: View, fix: Option<map<Cell, Value>>): Option<(View, Value)> {
    if fix.None? then
      match Unlimited(t, p, view)
      case None => None
      case Some(e) => Some((Effective(t.codec, view, e.writes), e.result))
    else
      match Unlimited(t, p, snapshot)
      case None => None
      case Some(e) =>
        if !Validates(t, e.observed, view) && Salvaged(t, e, view, snapshot, fix.value)
        then Some((Effective(t.codec, view, fix.value), e.result)) else None
  }

  /** The transactions one after the other, those with a fix salvaged, the others run. */
  ghost function Mixed(t: Typing, snapshot: View, ps: seq<Program>, fixes: seq<Option<map<Cell, Value>>>)
    : Option<(View, seq<Value>)>
    requires |fixes| == |ps|
    decreases |ps|
  {
    if ps == [] then Some((snapshot, []))
    else
      var n := |ps| - 1;
      match Mixed(t, snapshot, ps[..n], fixes[..n])
      case None => None
      case Some(before) =>
        match Turn(t, ps[n], snapshot, before.0, fixes[n])
        case None => None
        case Some(after) => Some((after.0, before.1 + [after.1]))
  }

  lemma MixedNext(t: Typing, snapshot: View, ps: seq<Program>, i: nat, mid: View, results: seq<Value>,
                  fixes: seq<Option<map<Cell, Value>>>, fix: Option<map<Cell, Value>>)
    requires i < |ps| && |fixes| == i && Mixed(t, snapshot, ps[..i], fixes) == Some((mid, results))
    requires Turn(t, ps[i], snapshot, mid, fix).Some?
    ensures var after := Turn(t, ps[i], snapshot, mid, fix).value;
      Mixed(t, snapshot, ps[..i + 1], fixes + [fix]) == Some((after.0, results + [after.1]))
  {
    hide Turn;
    assert ps[..i + 1][..i] == ps[..i] && (fixes + [fix])[..i] == fixes;
  }

  /** With nothing salvaged that is the sequential run. */
  lemma {:induction false} MixedPlain(t: Typing, view: View, ps: seq<Program>, fixes: seq<Option<map<Cell, Value>>>)
    requires |fixes| == |ps| && forall i :: 0 <= i < |fixes| ==> fixes[i].None?
    ensures Mixed(t, view, ps, fixes) == Sequential(t, view, ps)
    decreases |ps|
  {
    hide Unlimited, Salvaged, Validates, Effective;
    if ps != [] {
      MixedPlain(t, view, ps[..|ps| - 1], fixes[..|ps| - 1]);
    }
  }

  ghost function Fixed(fixes: seq<Option<map<Cell, Value>>>): set<nat> {
    set i: nat | i < |fixes| && fixes[i].Some?
  }

  lemma FixedMore(fixes: seq<Option<map<Cell, Value>>>, fix: Option<map<Cell, Value>>)
    ensures |Fixed(fixes + [fix])| == |Fixed(fixes)| + if fix.Some? then 1 else 0
  {
    var n := |fixes|;
    assert Fixed(fixes + [fix]) == Fixed(fixes) + if fix.Some? then {n} else {};
  }

  lemma NoneFixed(fixes: seq<Option<map<Cell, Value>>>)
    requires |Fixed(fixes)| == 0
    ensures forall i :: 0 <= i < |fixes| ==> fixes[i].None?
  {
    forall i | 0 <= i < |fixes| ensures fixes[i].None? {
      assert i !in Fixed(fixes);
    }
  }

  // ---------- the driver ----------

  datatype Request = Request(program: Program, fuelFirst: nat, fuelRetry: nat)
  datatype Report = Report(result: Value, reExecuted: bool)
  datatype BatchReport = BatchReport(txs: seq<Report>, conflicts: nat, merged: nat)

  function Programs(txs: seq<Request>): (ps: seq<Program>)
    ensures |ps| == |txs| && forall i :: 0 <= i < |txs| ==> ps[i] == txs[i].program
  {
    if txs == [] then [] else [txs[0].program] + Programs(txs[1..])
  }

  function Results(reports: seq<Report>): (rs: seq<Value>)
    ensures |rs| == |reports| && forall i :: 0 <= i < |rs| ==> rs[i] == reports[i].result
  {
    if reports == [] then [] else [reports[0].result] + Results(reports[1..])
  }

  ghost function ReExecuted(reports: seq<Report>): set<nat> {
    set i: nat | i < |reports| && reports[i].reExecuted
  }

  // ---------- salvage ----------

  ghost function Mismatched(t: Typing, e: Exec, live: View): set<Cell> {
    set c | c in e.observed && !ReadMatches(t.codec, live, c, e.observed[c])
  }

  /** Mismatched reads that no merge can rescue: not a persistent collection, or not written. */
  ghost predicate Hopeless(t: Typing, e: Exec, live: View) {
    exists c :: c in e.observed && !ReadMatches(t.codec, live, c, e.observed[c])
                && (!e.observed[c].PMap? || c !in e.writes)
  }

  function RootAt(k: Codec, view: View, c: Cell, ty: Types): nat {
    var root := if c in view then k.rootOf(view[c], ty) else None;
    if root.Some? then root.value else EMPTY
  }

  /** The merge of one cell: what the transaction wrote, what is there now, and what was there
      when it started; nodes are read from the store behind the transaction's own writes. */
  function MergeCell(k: Codec, e: Exec, live: View, snapshot: View, c: Cell): Option<Merged> {
    if c !in e.types || c !in e.writes || !e.writes[c].PMap? then None
    else
      k.merge(e.writes[c].root, RootAt(k, live, c, e.types[c]), RootAt(k, snapshot, c, e.types[c]),
              Effective(k, live, e.writes), e.types[c])
  }

  ghost predicate Salvageable(t: Typing, e: Exec, live: View, snapshot: View) {
    !Hopeless(t, e, live) && forall c :: c in Mismatched(t, e, live) ==> MergeCell(t.codec, e, live, snapshot, c).Some?
  }

  ghost function MergedRoots(got: map<Cell, Merged>): map<Cell, Value> { map c | c in got :: PMap(got[c].root) }

  ghost function MergedNodes(got: map<Cell, Merged>): set<(Cell, Blob)> {
    set c, p | c in got && p in got[c].cells :: p
  }

  /** The writes with merged roots in place of their own, and the merged nodes. */
  ghost function Laid(writes: map<Cell, Value>, got: map<Cell, Merged>): map<Cell, Value> {
    writes + MergedRoots(got) + NodeValues(MergedNodes(got))
  }

  /** No two merged nodes share a name and differ, and none has the name of a merged cell: the
      order of the merges does not matter. */
  ghost predicate Orderly(got: map<Cell, Merged>) {
    Named(MergedNodes(got)) && forall p :: p in MergedNodes(got) ==> p.0 !in got
  }

  /** `fix` is the write set of a salvaged transaction. */
  ghost predicate Salvaged(t: Typing, e: Exec, live: View, snapshot: View, fix: map<Cell, Value>) {
    && Salvageable(t, e, live, snapshot)
    && var got := map c | c in Mismatched(t, e, live) :: MergeCell(t.codec, e, live, snapshot, c).value;
       Orderly(got) ==> fix == Laid(e.writes, got)
  }

  lemma NodesMore(got: map<Cell, Merged>, c: Cell, m: Merged)
    requires c !in got
    ensures MergedNodes(got[c := m]) == MergedNodes(got) + Elements(m.cells)
  {
    var got' := got[c := m];
    forall p ensures p in MergedNodes(got') <==> p in MergedNodes(got) + Elements(m.cells) {
      if p in MergedNodes(got) {
        var d :| d in got && p in got[d].cells;
        assert d in got' && p in got'[d].cells;
      }
      if p in m.cells {
        assert c in got' && p in got'[c].cells;
      }
    }
  }

  lemma ValuesMore(a: set<(Cell, Blob)>, b: set<(Cell, Blob)>)
    requires Named(a + b)
    ensures NodeValues(a + b) == NodeValues(a) + NodeValues(b)
  {
    var both, one, two := NodeValues(a + b), NodeValues(a), NodeValues(b);
    forall c ensures c in both <==> c in one || c in two {
      ValueKeys(a, c);
      ValueKeys(b, c);
      ValueKeys(a + b, c);
    }
    forall c | c in both ensures both[c] == (if c in two then two[c] else one[c]) {
      ValueKeys(a, c);
      ValueKeys(b, c);
      ValueKeys(a + b, c);
    }
  }

  lemma ValueKeys(nodes: set<(Cell, Blob)>, c: Cell)
    ensures c in NodeValues(nodes) <==> exists p :: p in nodes && p.0 == c
    ensures c in NodeValues(nodes) ==> exists p :: p in nodes && p.0 == c && NodeValues(nodes)[c] == Bytes(p.1)
  {
    if c in NodeValues(nodes) {
      var p :| p in nodes && p.0 == c && BytesAt(nodes, c) == p.1;
    }
  }

  /** One more merge in an orderly salvage. */
  lemma LaidMore(writes: map<Cell, Value>, got: map<Cell, Merged>, c: Cell, m: Merged)
    requires c !in got && Orderly(got[c := m])
    ensures Orderly(got) && Named(Elements(m.cells))
    ensures Laid(writes, got)[c := PMap(m.root)] + NodeValues(Elements(m.cells)) == Laid(writes, got[c := m])
  {
    hide NodeValues, MergedNodes, MergedRoots;
    var got' := got[c := m];
    NodesMore(got, c, m);
    ValuesMore(MergedNodes(got), Elements(m.cells));
    RootsMore(got, c, m);
    ValueKeys(MergedNodes(got), c);
    var (w, rs, ns, ms) := (writes, MergedRoots(got), NodeValues(MergedNodes(got)), NodeValues(Elements(m.cells)));
    assert c !in ns;
    assert (w + rs + ns)[c := PMap(m.root)] + ms == w + rs[c := PMap(m.root)] + (ns + ms);
  }

  lemma RootsMore(got: map<Cell, Merged>, c: Cell, m: Merged)
    ensures MergedRoots(got[c := m]) == MergedRoots(got)[c := PMap(m.root)]
  {
  }

  lemma NothingLaid(writes: map<Cell, Value>)
    ensures Laid(writes, map[]) == writes
  {
    var none: map<Cell, Merged> := map[];
    assert MergedNodes(none) == {};
    forall c ensures c !in MergedRoots(none) && c !in NodeValues({}) {
      ValueKeys({}, c);
    }
  }

  class InMemoryKv {
    const typing: Typing
    var data: View

    constructor (typing: Typing, data: View)
      ensures this.typing == typing && this.data == data
    {
      this.typing := typing;
      this.data := data;
    }

    method Apply(writes: map<Cell, Value>)
      modifies this
      ensures data == Effective(typing.codec, old(data), writes)
    {
      data := Effective(typing.codec, data, writes);
    }

    /** Visit the recorded reads in any order; stop at the first that no longer holds. */
    method Validate(observed: map<Cell, Value>) returns (ok: bool)
      ensures ok <==> Validates(typing, observed, data)
    {
      var left := observed.Keys;
      while left != {}
        invariant left <= observed.Keys
        invariant forall c :: c in observed && c !in left ==> ReadMatches(typing.codec, data, c, observed[c])
        decreases |left|
      {
        var c :| c in left;
        if !ReadMatches(typing.codec, data, c, observed[c]) {
          return false;
        }
        left := left - {c};
      }
      return true;
    }

    /** Salvage a failed validation, when every mismatch is a persistent map that the transaction
        also wrote and that merges. */
    method TryMerge(e: Exec, snapshot: View) returns (adjusted: Option<map<Cell, Value>>)
      ensures adjusted.Some? <==> Salvageable(typing, e, data, snapshot)
      ensures adjusted.Some? ==> Salvaged(typing, e, data, snapshot, adjusted.value)
    {
      var cells := Mergeable(e);
      if cells.None? {
        return None;
      }
      adjusted := MergeAll(e, snapshot, cells.value);
    }

    /** The mismatched cells, unless one of them is beyond rescue. */
    method Mergeable(e: Exec) returns (cells: Option<set<Cell>>)
      ensures cells.None? <==> Hopeless(typing, e, data)
      ensures cells.Some? ==> cells.value == Mismatched(typing, e, data)
    {
      var left := e.observed.Keys;
      var found: set<Cell> := {};
      while left != {}
        invariant left <= e.observed.Keys
        invariant forall c :: c in found <==> c in e.observed && c !in left && !ReadMatches(typing.codec, data, c, e.observed[c])
        invariant forall c :: c in found ==> e.observed[c].PMap? && c in e.writes
        decreases |left|
      {
        var c :| c in left;
        if !ReadMatches(typing.codec, data, c, e.observed[c]) {
          if !e.observed[c].PMap? || c !in e.writes {
            return None;
          }
          found := found + {c};
        }
        left := left - {c};
      }
      return Some(found);
    }

    /** Merge the cells one after the other, in any order. */
    method MergeAll(e: Exec, snapshot: View, cells: set<Cell>) returns (adjusted: Option<map<Cell, Value>>)
      requires cells == Mismatched(typing, e, data) && !Hopeless(typing, e, data)
      ensures adjusted.Some? <==> Salvageable(typing, e, data, snapshot)
      ensures adjusted.Some? ==> Salvaged(typing, e, data, snapshot, adjusted.value)
    {
      hide MergeCell, Laid, Orderly, Hopeless, Mismatched, Named;
      var left := cells;
      var now := e.writes;
      ghost var got: map<Cell, Merged> := map[];
      NothingLaid(e.writes);
      while left != {}
        invariant left <= cells && got.Keys == cells - left
        invariant forall c :: c in got ==> MergeCell(typing.codec, e, data, snapshot, c) == Some(got[c])
        invariant Orderly(got) ==> now == Laid(e.writes, got)
        decreases |left|
      {
        var c :| c in left;
        var m := MergeCell(typing.codec, e, data, snapshot, c);
        if m.None? {
          return None;
        }
        if Orderly(got[c := m.value]) {
          LaidMore(e.writes, got, c, m.value);
        }
        now := InsertNodes(now[c := PMap(m.value.root)], m.value.cells);
        got := got[c := m.value];
        left := left - {c};
      }
      assert got == map c | c in Mismatched(typing, e, data) :: MergeCell(typing.codec, e, data, snapshot, c).value;
      return Some(now);
    }

    /** Phase one: every transaction against the same snapshot. One error fails them all. */
    method Speculate(txs: seq<Request>) returns (all: Option<seq<Exec>>)
      ensures all.Some? ==> |all.value| == |txs|
      ensures all.Some? ==> forall i :: 0 <= i < |txs| ==> Start(typing, txs[i].program, data, txs[i].fuelFirst) == Some(all.value[i])
      ensures all.None? ==> exists i :: 0 <= i < |txs| && Start(typing, txs[i].program, data, txs[i].fuelFirst) == None
    {
      var done: seq<Exec> := [];
      for i := 0 to |txs|
        invariant |done| == i
        invariant forall j :: 0 <= j < i ==> Start(typing, txs[j].program, data, txs[j].fuelFirst) == Some(done[j])
      {
        var e := Start(typing, txs[i].program, data, txs[i].fuelFirst);
        if e.None? {
          return None;
        }
        done := done + [e.value];
      }
      return Some(done);
    }

    /** Phase two for one transaction: keep the speculation, salvage it, or run again. */
    method Settle(tx: Request, spec: Exec, snapshot: View)
      returns (report: Option<Report>, merged: bool, ghost fix: Option<map<Cell, Value>>)
      requires Faithful(typing) && Start(typing, tx.program, snapshot, tx.fuelFirst) == Some(spec)
      modifies this
      ensures merged == fix.Some?
      ensures merged <==> !Validates(typing, spec.observed, old(data)) && Salvageable(typing, spec, old(data), snapshot)
      ensures merged ==> report == Some(Report(spec.result, false))
      ensures report.None? ==> data == old(data) && Start(typing, tx.program, data, tx.fuelRetry) == None
      ensures report.Some? ==> (report.value.reExecuted <==> !merged && !Validates(typing, spec.observed, old(data)))
      ensures report.Some? ==>
        Turn(typing, tx.program, snapshot, old(data), fix) == Some((data, report.value.result))
    {
      hide Execute, Effective, Validates, Salvageable, Salvaged, Faithful, Unlimited;
      merged, fix := false, None;
      var ok := Validate(spec.observed);
      if ok {
        Replays(typing, tx.program, snapshot, data, Fresh, tx.fuelFirst);
        UnlimitedIs(typing, tx.program, data, tx.fuelFirst);
        Apply(spec.writes);
        report := Some(Report(spec.result, false));
        return;
      }
      var adjusted := TryMerge(spec, snapshot);
      if adjusted.Some? {
        UnlimitedIs(typing, tx.program, snapshot, tx.fuelFirst);
        Apply(adjusted.value);
        return Some(Report(spec.result, false)), true, adjusted;
      }
      var again := Start(typing, tx.program, data, tx.fuelRetry);
      if again.None? {
        return None, false, None;
      }
      UnlimitedIs(typing, tx.program, data, tx.fuelRetry);
      Apply(again.value.writes);
      report := Some(Report(again.value.result, true));
    }

    /** Commit a batch. When it succeeds, the store and every result are those of taking the
        transactions in order, each run at its turn, or salvaged by a merge at its turn where
        `fixes` says so; with nothing salvaged, those of running them one after the other.
        `conflicts` counts exactly the re-executed ones, `merged` the salvaged. */
    method CommitBatch(txs: seq<Request>) returns (report: Option<BatchReport>, ghost fixes: seq<Option<map<Cell, Value>>>)
      requires Faithful(typing)
      modifies this
      ensures report.Some? ==> |report.value.txs| == |txs| && report.value.conflicts == |ReExecuted(report.value.txs)|
      ensures report.Some? ==> |fixes| == |txs| && report.value.merged == |Fixed(fixes)|
      ensures report.Some? ==> Mixed(typing, old(data), Programs(txs), fixes) == Some((data, Results(report.value.txs)))
      ensures report.Some? && report.value.merged == 0 ==>
        Sequential(typing, old(data), Programs(txs)) == Some((data, Results(report.value.txs)))
      ensures (exists i :: 0 <= i < |txs| && Start(typing, txs[i].program, old(data), txs[i].fuelFirst) == None) ==>
        report.None? && data == old(data)
    {
      hide *;
      var snapshot := data;
      fixes := [];
      var spec := Speculate(txs);
      if spec.None? {
        return None, [];
      }
      var rep := BatchReport([], 0, 0);
      ghost var ps := Programs(txs);
      ProgramsAre(txs);
      NoReports(typing, snapshot, ps[..0]);
      for i := 0 to |txs|
        invariant |rep.txs| == i == |fixes| && rep.conflicts == |ReExecuted(rep.txs)| && rep.merged == |Fixed(fixes)|
        invariant Mixed(typing, snapshot, ps[..i], fixes) == Some((data, Results(rep.txs)))
      {
        ghost var before := data;
        var one, merged;
        ghost var fix;
        one, merged, fix := Settle(txs[i], spec.value[i], snapshot);
        if one.None? {
          return None, fixes;
        }
        ReportMore(rep.txs, one.value);
        MixedNext(typing, snapshot, ps, i, before, Results(rep.txs), fixes, fix);
        FixedMore(fixes, fix);
        rep := BatchReport(
          rep.txs + [one.value],
          if one.value.reExecuted then rep.conflicts + 1 else rep.conflicts,
          if merged then rep.merged + 1 else rep.merged);
        fixes := fixes + [fix];
      }
      assert ps[..|ps|] == ps;
      if rep.merged == 0 {
        NoneFixed(fixes);
        MixedPlain(typing, snapshot, ps, fixes);
      }
      return Some(rep), fixes;
    }
  }

  lemma ProgramsAre(txs: seq<Request>)
    ensures |Programs(txs)| == |txs| && forall i :: 0 <= i < |txs| ==> Programs(txs)[i] == txs[i].program
  {
  }

  lemma NoReports(t: Typing, view: View, ps: seq<Program>)
    requires ps == []
    ensures |ReExecuted([])| == 0 && Results([]) == [] && Mixed(t, view, ps, []) == Some((view, [])) && |Fixed([])| == 0
  {
    assert ReExecuted([]) == {} && Fixed([]) == {};
  }

  lemma ReportMore(reports: seq<Report>, r: Report)
    ensures Results(reports + [r]) == Results(reports) + [r.result]
    ensures |ReExecuted(reports + [r])| == |ReExecuted(reports)| + if r.reExecuted then 1 else 0
  {
    var n := |reports|;
    assert ReExecuted(reports + [r]) == ReExecuted(reports) + if r.reExecuted then {n} else {};
  }

  // ---------- undisturbed transactions ----------

  /** The type at which each recorded cell was first read. */
  ghost function FirstReads(t: Typing, p: Program, view: View, tx: Tx, fuel: nat): map<Cell, Types>
    decreases fuel
  {
    if fuel == 0 then map[]
    else
      match p(tx.seen)
      case Read(c, ty) =>
        var rest := FirstReads(t, p, view, ReadStep(t, view, tx, c, ty), fuel - 1);
        if c in tx.writes || c in tx.observed then rest else rest[c := ty]
      case Write(c, v) => FirstReads(t, p, view, WriteStep(tx, c, v), fuel - 1)
      case UseMap(c, ty) => FirstReads(t, p, view, UseStep(tx, c, ty), fuel - 1)
      case _ => map[]
  }

  /** A read of `c` can be confirmed: the stored bytes are those of a value of the type, or the
      cell is missing and the type has a recognised default. */
  ghost predicate Confirmable(t: Typing, view: View, c: Cell, ty: Types) {
    if c in view then t.decode(view[c], ty).Some? && t.codec.ser(t.decode(view[c], ty).value) == view[c]
    else t.codec.isDefault(t.initial(ty))
  }

  lemma ConfirmableRead(t: Typing, view: View, c: Cell, ty: Types)
    requires Faithful(t)
    ensures ReadMatches(t.codec, view, c, Fetch(t, view, c, ty)) <==> Confirmable(t, view, c, ty)
  {
    assert t.decode(t.codec.ser(t.initial(ty)), ty).Some?;
  }

  lemma {:induction false} ObservedAre(t: Typing, p: Program, view: View, tx: Tx, fuel: nat)
    requires Execute(t, p, view, tx, fuel).Some?
    ensures var e := Execute(t, p, view, tx, fuel).value;
      var first := FirstReads(t, p, view, tx, fuel);
      && e.observed.Keys == tx.observed.Keys + first.Keys && tx.observed.Keys !! first.Keys
      && forall c :: c in first ==> e.observed[c] == Fetch(t, view, c, first[c])
    decreases fuel
  {
    hide Fetch;
    match p(tx.seen)
    case Read(c, ty) =>
      var next := ReadStep(t, view, tx, c, ty);
      ObservedAre(t, p, view, next, fuel - 1);
      ObservedKept(t, p, view, next, fuel - 1);
    case Write(c, v) => ObservedAre(t, p, view, WriteStep(tx, c, v), fuel - 1);
    case UseMap(c, ty) => ObservedAre(t, p, view, UseStep(tx, c, ty), fuel - 1);
    case _ =>
  }

  /** With nothing changed since it ran, a transaction validates if and only if each cell it first
      read can be confirmed. A missing cell of a type whose default is not recognised, a sorted
      map for one, is a conflict with no other transaction in sight. */
  lemma UndisturbedValidates(t: Typing, p: Program, view: View, fuel: nat)
    requires Faithful(t) && Start(t, p, view, fuel).Some?
    ensures var first := FirstReads(t, p, view, Fresh, fuel);
      Validates(t, Start(t, p, view, fuel).value.observed, view)
      <==> forall c :: c in first ==> Confirmable(t, view, c, first[c])
  {
    hide Faithful, Fetch, Confirmable, Execute, FirstReads, ReadMatches;
    ObservedAre(t, p, view, Fresh, fuel);
    var first := FirstReads(t, p, view, Fresh, fuel);
    forall c | c in first
      ensures ReadMatches(t.codec, view, c, Fetch(t, view, c, first[c])) <==> Confirmable(t, view, c, first[c])
    {
      ConfirmableRead(t, view, c, first[c]);
    }
  }

  /** A stored default and a missing cell are the same to every transaction that reads the cell at
      that type, and give the same verdict on its read. */
  lemma StoredDefaultIsMissing(t: Typing, view: View, c: Cell, ty: Types, v: Value)
    requires Faithful(t) && c !in view && t.hasType(v, ty) && t.codec.isDefault(t.initial(ty))
    ensures var stored := view[c := t.codec.ser(t.initial(ty))];
      && Fetch(t, stored, c, ty) == Fetch(t, view, c, ty)
      && (ReadMatches(t.codec, stored, c, v) <==> ReadMatches(t.codec, view, c, v))
  {
    assert t.decode(t.codec.ser(v), ty) == Some(v);
  }
}
