/** What a transaction sees of itself: its reads and writes, stated on the trace of its actions. */
module OccTrace {
  import opened Options
  import opened GroupCommit
  import opened Occ

  /** The action taken after the first `i` of the values seen. */
  function ActionAt(p: Program, seen: seq<Value>, i: nat): Action
    requires i <= |seen|
  {
    p(seen[..i])
  }

  /** The last write to `c` among the first `n` actions. */
  function LastWrite(p: Program, seen: seq<Value>, n: nat, c: Cell): Option<Value>
    requires n <= |seen|
  {
    if n == 0 then None
    else
      var a := ActionAt(p, seen, n - 1);
      if a.Write? && a.c == c then Some(a.v) else LastWrite(p, seen, n - 1, c)
  }

  /** What the first read of `c` among the first `n` actions returned, unless `c` was written first. */
  function FirstSeen(p: Program, seen: seq<Value>, n: nat, c: Cell): Option<Value>
    requires n <= |seen|
  {
    if n == 0 then None
    else
      var before := FirstSeen(p, seen, n - 1, c);
      var a := ActionAt(p, seen, n - 1);
      if before.Some? then before
      else if a.Read? && a.c == c && LastWrite(p, seen, n - 1, c).None? then Some(seen[n - 1])
      else None
  }

  /** The cell's value in the store, read at a type; the type's default when it does not decode. */
  function StoreValue(t: Typing, view: View, c: Cell, ty: Types): Value {
    if c in view && t.decode(view[c], ty).Some? then t.decode(view[c], ty).value else t.initial(ty)
  }

  /** Action `i` returned what it should: a read its own last write, else what it saw before, else
      the store's value; a write the value written. */
  ghost predicate Honest(t: Typing, p: Program, view: View, seen: seq<Value>, i: nat)
    requires i < |seen|
  {
    match ActionAt(p, seen, i)
    case Read(c, ty) =>
      var own, first := LastWrite(p, seen, i, c), FirstSeen(p, seen, i, c);
      seen[i] == (if own.Some? then own.value else if first.Some? then first.value else StoreValue(t, view, c, ty))
    case Write(_, v) => seen[i] == v
    case UseMap(_, _) => seen[i] == Plain(0)
    case _ => false
  }

  ghost predicate AllHonest(t: Typing, p: Program, view: View, seen: seq<Value>) {
    forall i :: 0 <= i < |seen| ==> Honest(t, p, view, seen, i)
  }

  /** Writes are the last writes, recorded reads the first values read from the store. */
  ghost predicate Recorded(p: Program, seen: seq<Value>, observed: map<Cell, Value>, writes: map<Cell, Value>) {
    && (forall c :: c in writes <==> LastWrite(p, seen, |seen|, c).Some?)
    && (forall c :: c in writes ==> LastWrite(p, seen, |seen|, c) == Some(writes[c]))
    && (forall c :: c in observed <==> FirstSeen(p, seen, |seen|, c).Some?)
    && (forall c :: c in observed ==> FirstSeen(p, seen, |seen|, c) == Some(observed[c]))
  }

  lemma {:induction false} PastFixed(p: Program, seen: seq<Value>, v: Value, n: nat, c: Cell)
    requires n <= |seen|
    ensures LastWrite(p, seen + [v], n, c) == LastWrite(p, seen, n, c)
    ensures FirstSeen(p, seen + [v], n, c) == FirstSeen(p, seen, n, c)
  {
    if n > 0 {
      PastFixed(p, seen, v, n - 1, c);
      assert (seen + [v])[..n - 1] == seen[..n - 1];
    }
  }

  lemma HonestMore(t: Typing, p: Program, view: View, seen: seq<Value>, v: Value)
    requires AllHonest(t, p, view, seen) && Honest(t, p, view, seen + [v], |seen|)
    ensures AllHonest(t, p, view, seen + [v])
  {
    hide LastWrite, FirstSeen, StoreValue;
    var more := seen + [v];
    forall i | 0 <= i < |more| ensures Honest(t, p, view, more, i) {
      if i < |seen| {
        assert Honest(t, p, view, seen, i);
        assert more[..i] == seen[..i];
        var a := ActionAt(p, seen, i);
        if a.Read? {
          PastFixed(p, seen, v, i, a.c);
        }
      }
    }
  }

  ghost predicate Traced(t: Typing, p: Program, view: View, tx: Tx) {
    AllHonest(t, p, view, tx.seen) && Recorded(p, tx.seen, tx.observed, tx.writes)
  }

  /** One more action on the trace. */
  lemma Extended(p: Program, seen: seq<Value>, v: Value, c: Cell)
    ensures var a, n := p(seen), |seen|;
      && LastWrite(p, seen + [v], n, c) == LastWrite(p, seen, n, c) && FirstSeen(p, seen + [v], n, c) == FirstSeen(p, seen, n, c)
      && LastWrite(p, seen + [v], n + 1, c) == (if a.Write? && a.c == c then Some(a.v) else LastWrite(p, seen, n, c))
      && FirstSeen(p, seen + [v], n + 1, c) ==
           (if FirstSeen(p, seen, n, c).Some? then FirstSeen(p, seen, n, c)
            else if a.Read? && a.c == c && LastWrite(p, seen, n, c).None? then Some(v)
            else None)
  {
    var n := |seen|;
    PastFixed(p, seen, v, n, c);
    assert (seen + [v])[..n] == seen && (seen + [v])[n] == v;
  }

  lemma ExtendedAll(p: Program, seen: seq<Value>, v: Value)
    ensures var a, n := p(seen), |seen|;
      && (forall c :: LastWrite(p, seen + [v], n + 1, c) == if a.Write? && a.c == c then Some(a.v) else LastWrite(p, seen, n, c))
      && (forall c :: FirstSeen(p, seen + [v], n + 1, c) ==
            if FirstSeen(p, seen, n, c).Some? then FirstSeen(p, seen, n, c)
            else if a.Read? && a.c == c && LastWrite(p, seen, n, c).None? then Some(v)
            else None)
  {
    hide LastWrite, FirstSeen;
    var a, n := p(seen), |seen|;
    var more, end := seen + [v], n + 1;
    forall c ensures LastWrite(p, more, end, c) == if a.Write? && a.c == c then Some(a.v) else LastWrite(p, seen, n, c) {
      Extended(p, seen, v, c);
    }
    forall c
      ensures FirstSeen(p, more, end, c) ==
        if FirstSeen(p, seen, n, c).Some? then FirstSeen(p, seen, n, c)
        else if a.Read? && a.c == c && LastWrite(p, seen, n, c).None? then Some(v)
        else None
    {
      Extended(p, seen, v, c);
    }
  }

  lemma ReadTraced(t: Typing, p: Program, view: View, tx: Tx, c: Cell, ty: Types)
    requires Traced(t, p, view, tx) && p(tx.seen) == Read(c, ty)
    ensures Traced(t, p, view, ReadStep(t, view, tx, c, ty))
  {
    hide AllHonest, LastWrite, FirstSeen;
    var tx', n := ReadStep(t, view, tx, c, ty), |tx.seen|;
    var v := tx'.seen[n];
    assert tx'.seen == tx.seen + [v] && tx'.seen[..n] == tx.seen;
    ExtendedAll(p, tx.seen, v);
    Extended(p, tx.seen, v, c);
    assert Honest(t, p, view, tx'.seen, n);
    HonestMore(t, p, view, tx.seen, v);
    assert Recorded(p, tx'.seen, tx'.observed, tx'.writes);
  }

  lemma WriteTraced(t: Typing, p: Program, view: View, tx: Tx, c: Cell, v: Value)
    requires Traced(t, p, view, tx) && p(tx.seen) == Write(c, v)
    ensures Traced(t, p, view, WriteStep(tx, c, v))
  {
    hide AllHonest, LastWrite, FirstSeen;
    var tx', n := WriteStep(tx, c, v), |tx.seen|;
    assert tx'.seen[..n] == tx.seen;
    ExtendedAll(p, tx.seen, v);
    assert Honest(t, p, view, tx'.seen, n);
    HonestMore(t, p, view, tx.seen, v);
    var seen', end := tx'.seen, n + 1;
    forall x ensures LastWrite(p, seen', end, x) == if x == c then Some(v) else LastWrite(p, tx.seen, n, x) {
      Extended(p, tx.seen, v, x);
    }
    assert Recorded(p, tx'.seen, tx'.observed, tx'.writes);
  }

  lemma UseTraced(t: Typing, p: Program, view: View, tx: Tx, c: Cell, ty: Types)
    requires Traced(t, p, view, tx) && p(tx.seen) == UseMap(c, ty)
    ensures Traced(t, p, view, UseStep(tx, c, ty))
  {
    hide AllHonest, LastWrite, FirstSeen;
    var tx', n := UseStep(tx, c, ty), |tx.seen|;
    assert tx'.seen[..n] == tx.seen;
    ExtendedAll(p, tx.seen, Plain(0));
    assert Honest(t, p, view, tx'.seen, n);
    HonestMore(t, p, view, tx.seen, Plain(0));
    assert Recorded(p, tx'.seen, tx'.observed, tx'.writes);
  }

  lemma {:induction false} RunTraced(t: Typing, p: Program, view: View, tx: Tx, fuel: nat) returns (seen: seq<Value>)
    requires Traced(t, p, view, tx) && Execute(t, p, view, tx, fuel).Some?
    ensures var e := Execute(t, p, view, tx, fuel).value;
      AllHonest(t, p, view, seen) && Recorded(p, seen, e.observed, e.writes) && p(seen) == Finish(e.result)
    decreases fuel
  {
    hide Traced, AllHonest, Recorded, ReadStep;
    match p(tx.seen)
    case Read(c, ty) =>
      ReadTraced(t, p, view, tx, c, ty);
      seen := RunTraced(t, p, view, ReadStep(t, view, tx, c, ty), fuel - 1);
    case Write(c, v) =>
      WriteTraced(t, p, view, tx, c, v);
      seen := RunTraced(t, p, view, WriteStep(tx, c, v), fuel - 1);
    case UseMap(c, ty) =>
      UseTraced(t, p, view, tx, c, ty);
      seen := RunTraced(t, p, view, UseStep(tx, c, ty), fuel - 1);
    case Finish(_) =>
      TracedParts(t, p, view, tx);
      seen := tx.seen;
  }

  lemma TracedParts(t: Typing, p: Program, view: View, tx: Tx)
    requires Traced(t, p, view, tx)
    ensures AllHonest(t, p, view, tx.seen) && Recorded(p, tx.seen, tx.observed, tx.writes)
  {
  }

  /** A finished transaction has a trace in which every read returns the transaction's own last
      write of the cell, else what it saw there first, else what the store holds; its result
      follows that trace, its writes are the last write of each cell, and its recorded reads are
      the values first read from the store. */
  lemma ReadsOwnWrites(t: Typing, p: Program, view: View, fuel: nat) returns (seen: seq<Value>)
    requires Start(t, p, view, fuel).Some?
    ensures var e := Start(t, p, view, fuel).value;
      AllHonest(t, p, view, seen) && Recorded(p, seen, e.observed, e.writes) && p(seen) == Finish(e.result)
  {
    assert Traced(t, p, view, Fresh);
    seen := RunTraced(t, p, view, Fresh, fuel);
  }

  /** There is only one such trace: it is what the transaction does. */
  lemma {:induction false} TraceUnique(t: Typing, p: Program, view: View, a: seq<Value>, b: seq<Value>, n: nat)
    requires AllHonest(t, p, view, a) && AllHonest(t, p, view, b) && n <= |a| && n <= |b|
    ensures a[..n] == b[..n]
    decreases n
  {
    hide LastWrite, FirstSeen, StoreValue;
    if n > 0 {
      var m := n - 1;
      TraceUnique(t, p, view, a, b, m);
      assert Honest(t, p, view, a, m) && Honest(t, p, view, b, m);
      var act := ActionAt(p, a, m);
      assert ActionAt(p, b, m) == act;
      if act.Read? {
        SamePast(p, a, b, m, act.c);
      }
      assert a[m] == b[m];
      assert a[..n] == a[..m] + [a[m]] && b[..n] == b[..m] + [b[m]];
    }
  }

  lemma {:induction false} SamePast(p: Program, a: seq<Value>, b: seq<Value>, n: nat, c: Cell)
    requires n <= |a| && n <= |b| && a[..n] == b[..n]
    ensures LastWrite(p, a, n, c) == LastWrite(p, b, n, c) && FirstSeen(p, a, n, c) == FirstSeen(p, b, n, c)
  {
    if n > 0 {
      assert a[..n - 1] == a[..n][..n - 1] && b[..n - 1] == b[..n][..n - 1];
      assert a[n - 1] == a[..n][n - 1] && b[n - 1] == b[..n][n - 1];
      SamePast(p, a, b, n - 1, c);
    }
  }

  /** Conversely, a trace that is honest and ends in a result is run to that result, given one unit
      of fuel for each action. */
  lemma TraceRuns(t: Typing, p: Program, view: View, seen: seq<Value>)
    requires AllHonest(t, p, view, seen) && p(seen).Finish?
    ensures var e := Start(t, p, view, |seen| + 1);
      e.Some? && e.value.result == p(seen).result && Recorded(p, seen, e.value.observed, e.value.writes)
  {
    assert Traced(t, p, view, Fresh);
    assert seen[..0] == [];
    RestRuns(t, p, view, seen, 0, Fresh);
  }

  lemma {:induction false} RestRuns(t: Typing, p: Program, view: View, seen: seq<Value>, i: nat, tx: Tx)
    requires AllHonest(t, p, view, seen) && p(seen).Finish?
    requires i <= |seen| && Traced(t, p, view, tx) && tx.seen == seen[..i]
    ensures var e := Execute(t, p, view, tx, |seen| - i + 1);
      e.Some? && e.value.result == p(seen).result && Recorded(p, seen, e.value.observed, e.value.writes)
    decreases |seen| - i
  {
    hide AllHonest, Recorded, Traced, Fetch;
    TracedParts(t, p, view, tx);
    if i == |seen| {
      assert seen[..i] == seen;
    } else {
      assert Honest(t, p, view, seen, i) by { HonestAt(t, p, view, seen, i); }
      match p(tx.seen)
      case Read(c, ty) =>
        ReadTraced(t, p, view, tx, c, ty);
        NextRuns(t, p, view, seen, i, tx, ReadStep(t, view, tx, c, ty));
      case Write(c, v) =>
        WriteTraced(t, p, view, tx, c, v);
        NextRuns(t, p, view, seen, i, tx, WriteStep(tx, c, v));
      case UseMap(c, ty) =>
        UseTraced(t, p, view, tx, c, ty);
        NextRuns(t, p, view, seen, i, tx, UseStep(tx, c, ty));
    }
  }

  lemma HonestAt(t: Typing, p: Program, view: View, seen: seq<Value>, i: nat)
    requires AllHonest(t, p, view, seen) && i < |seen|
    ensures Honest(t, p, view, seen, i)
  {
  }

  lemma {:induction false} NextRuns(t: Typing, p: Program, view: View, seen: seq<Value>, i: nat, tx: Tx, tx': Tx)
    requires AllHonest(t, p, view, seen) && p(seen).Finish? && i < |seen| && tx.seen == seen[..i]
    requires Traced(t, p, view, tx') && |tx'.seen| == i + 1 && tx'.seen[..i] == tx.seen
    ensures var e := Execute(t, p, view, tx', |seen| - i);
      e.Some? && e.value.result == p(seen).result && Recorded(p, seen, e.value.observed, e.value.writes)
    decreases |seen| - i, 0
  {
    hide AllHonest, Recorded, Execute, Traced;
    TracedParts(t, p, view, tx');
    TraceUnique(t, p, view, tx'.seen, seen, i + 1);
    assert tx'.seen[..i + 1] == tx'.seen;
    RestRuns(t, p, view, seen, i + 1, tx');
  }
}
