/** Per-address nonces advanced by concurrent optimistic attempts.

    An attempt reads the stored nonce and starts tracking its key, decides, and commits; the
    commit goes through only if the key was not written since. Attempts interleave freely. */
module Nonce {
  import opened Bytes

  type Address = int
  type Blob = seq<byte>

  datatype Outcome = Bumped | TooLow(stored: nat)

  datatype Phase =
    | Ready
    | Tracking(stored: nat, version: nat)
    | Done(outcome: Outcome)

  datatype Attempt = Attempt(address: Address, submitted: nat, phase: Phase)

  /** `versions` counts the writes to each key; `accepted` lists the commits in order. */
  datatype State = State(
    db: map<Address, Blob>,
    versions: map<Address, nat>,
    attempts: seq<Attempt>,
    accepted: seq<(Address, nat)>)

  datatype Action =
    | Submit(address: Address, submitted: nat)
    | Fetch(id: nat)
    | Finish(id: nat, busy: bool)

  const U64: nat := 0x1_0000_0000_0000_0000

  /** The first eight bytes as a number, short values padded on the right. */
  function Decode(b: Blob): nat {
    Num(if |b| >= 8 then b[..8] else b + seq(8 - |b|, _ => 0))
  }

  function Stored(db: map<Address, Blob>, a: Address): nat { if a in db then Decode(db[a]) else 0 }

  function Version(s: State, a: Address): nat { if a in s.versions then s.versions[a] else 0 }

  function SetPhase(s: State, id: nat, p: Phase): State
    requires id < |s.attempts|
  {
    s.(attempts := s.attempts[id := s.attempts[id].(phase := p)])
  }

  /** One step of one attempt. `busy` is the store reporting contention, justified or not. */
  function Step(s: State, act: Action): State {
    match act
    case Submit(a, n) => s.(attempts := s.attempts + [Attempt(a, n, Ready)])
    case Fetch(id) =>
      if id >= |s.attempts| || !s.attempts[id].phase.Ready? then s
      else
        var a := s.attempts[id].address;
        SetPhase(s, id, Tracking(Stored(s.db, a), Version(s, a)))
    case Finish(id, busy) =>
      if id >= |s.attempts| || !s.attempts[id].phase.Tracking? then s
      else
        var t := s.attempts[id];
        if t.submitted <= t.phase.stored then SetPhase(s, id, Done(TooLow(t.phase.stored)))
        else if busy || Version(s, t.address) != t.phase.version then SetPhase(s, id, Ready)
        else
          var s' := SetPhase(s, id, Done(Bumped));
          s'.(db := s.db[t.address := BE(t.submitted, 8)],
              versions := s.versions[t.address := Version(s, t.address) + 1],
              accepted := s.accepted + [(t.address, t.submitted)])
  }

  function Run(s: State, acts: seq<Action>): State
    decreases |acts|
  {
    if acts == [] then s else Step(Run(s, acts[..|acts| - 1]), acts[|acts| - 1])
  }

  function Initial(db: map<Address, Blob>): State { State(db, map[], [], []) }

  ghost predicate Submits64(acts: seq<Action>) {
    forall act :: act in acts && act.Submit? ==> act.submitted < U64
  }

  // ---------- the invariant ----------

  /** Accepted nonces of one address rise strictly, from above what was stored at first. */
  ghost predicate Rising(db0: map<Address, Blob>, accepted: seq<(Address, nat)>) {
    && (forall i, j :: 0 <= i < j < |accepted| && accepted[i].0 == accepted[j].0 ==> accepted[i].1 < accepted[j].1)
    && (forall i :: 0 <= i < |accepted| ==> Stored(db0, accepted[i].0) < accepted[i].1)
  }

  /** What an address holds: its last accepted nonce, or what was there at first. */
  ghost predicate Holds(db0: map<Address, Blob>, accepted: seq<(Address, nat)>, a: Address, v: nat) {
    && (v == Stored(db0, a) || (a, v) in accepted)
    && Stored(db0, a) <= v
    && forall n: nat :: (a, n) in accepted ==> n <= v
  }

  ghost predicate AttemptOk(db0: map<Address, Blob>, s: State, t: Attempt) {
    t.submitted < U64 &&
    match t.phase
    case Ready => true
    case Tracking(v, n) =>
      && v <= Stored(s.db, t.address) && n <= Version(s, t.address)
      && (n == Version(s, t.address) ==> v == Stored(s.db, t.address))
    case Done(Bumped) => (t.address, t.submitted) in s.accepted
    case Done(TooLow(v)) => t.submitted <= v <= Stored(s.db, t.address)
  }

  /** Commits and attempts that report one are in bijection. */
  ghost predicate Matched(s: State) {
    && (forall e :: e in s.accepted ==> Credited(s, e))
    && (forall i, j :: 0 <= i < j < |s.attempts| ==> !Twice(s.attempts[i], s.attempts[j]))
  }

  ghost predicate Credited(s: State, e: (Address, nat)) { exists id :: 0 <= id < |s.attempts| && Won(s.attempts[id], e) }

  ghost predicate Won(t: Attempt, e: (Address, nat)) { t.phase == Done(Bumped) && (t.address, t.submitted) == e }

  /** Two attempts that both claim the same commit. */
  ghost predicate Twice(t: Attempt, u: Attempt) {
    t.phase == Done(Bumped) && u.phase == Done(Bumped) && t.address == u.address && t.submitted == u.submitted
  }

  ghost predicate Invariant(db0: map<Address, Blob>, s: State) {
    && Rising(db0, s.accepted)
    && (forall a :: Holds(db0, s.accepted, a, Stored(s.db, a)))
    && (forall t :: t in s.attempts ==> AttemptOk(db0, s, t))
    && Matched(s)
  }

  lemma StoredBack(db: map<Address, Blob>, a: Address, n: nat)
    requires n < U64
    ensures forall b :: Stored(db[a := BE(n, 8)], b) == if b == a then n else Stored(db, b)
  {
    assert Pow256(4) == 0x1_0000_0000;
    assert Pow256(8) == U64;
    NumBE(n, 8);
    assert BE(n, 8)[..8] == BE(n, 8);
    assert Decode(BE(n, 8)) == n;
    var db' := db[a := BE(n, 8)];
    forall b ensures Stored(db', b) == if b == a then n else Stored(db, b) {
      if b == a {
        assert b in db' && db'[b] == BE(n, 8);
        assert Stored(db', b) == n;
      } else {
        assert b in db' <==> b in db;
        assert Stored(db', b) == Stored(db, b);
      }
    }
  }

  /** No winner is added or lost: commits and winners still match. */
  lemma MatchedKept(s: State, s': State)
    requires Matched(s) && s'.accepted == s.accepted && |s.attempts| <= |s'.attempts|
    requires forall i | 0 <= i < |s'.attempts| && s'.attempts[i].phase == Done(Bumped) :: i < |s.attempts| && s'.attempts[i] == s.attempts[i]
    requires forall i | 0 <= i < |s.attempts| && s.attempts[i].phase == Done(Bumped) :: s'.attempts[i] == s.attempts[i]
    ensures Matched(s')
  {
    forall i, j | 0 <= i < j < |s'.attempts| ensures !Twice(s'.attempts[i], s'.attempts[j]) {
      if s'.attempts[i].phase == Done(Bumped) && s'.attempts[j].phase == Done(Bumped) {
        assert !Twice(s.attempts[i], s.attempts[j]);
      }
    }
    forall e | e in s'.accepted ensures Credited(s', e) {
      assert Credited(s, e);
      var id :| 0 <= id < |s.attempts| && Won(s.attempts[id], e);
      assert Won(s'.attempts[id], e);
    }
  }

  lemma SubmitKeeps(db0: map<Address, Blob>, s: State, a: Address, n: nat)
    requires Invariant(db0, s) && n < U64
    ensures Invariant(db0, Step(s, Submit(a, n)))
  {
    hide Stored, Holds, Rising, Matched;
    var s' := Step(s, Submit(a, n));
    assert s'.db == s.db && s'.accepted == s.accepted;
    MatchedKept(s, s');
    forall t | t in s'.attempts ensures AttemptOk(db0, s', t) {
      if t in s.attempts {
        assert AttemptOk(db0, s, t);
      }
    }
  }

  /** Moving an attempt that is not done to a sound phase, with the store untouched. */
  lemma PhaseKeeps(db0: map<Address, Blob>, s: State, id: nat, p: Phase)
    requires Invariant(db0, s) && id < |s.attempts| && !s.attempts[id].phase.Done?
    requires p != Done(Bumped) && AttemptOk(db0, s, s.attempts[id].(phase := p))
    ensures Invariant(db0, SetPhase(s, id, p))
  {
    hide Stored, Holds, Rising, Matched;
    var s' := SetPhase(s, id, p);
    assert s'.db == s.db && s'.accepted == s.accepted;
    MatchedKept(s, s');
    forall t | t in s'.attempts ensures AttemptOk(db0, s', t) {
      if t in s.attempts {
        assert AttemptOk(db0, s, t);
      }
    }
  }

  lemma CommitKeeps(db0: map<Address, Blob>, s: State, id: nat)
    requires Invariant(db0, s) && id < |s.attempts| && s.attempts[id].phase.Tracking?
    requires var t := s.attempts[id]; t.phase.stored < t.submitted && Version(s, t.address) == t.phase.version
    ensures Invariant(db0, Step(s, Finish(id, false)))
  {
    hide Stored, Rising, Matched, Holds;
    var t := s.attempts[id];
    var s' := Step(s, Finish(id, false));
    assert AttemptOk(db0, s, t);
    StoredBack(s.db, t.address, t.submitted);
    AcceptMore(db0, s, t.address, t.submitted, s');
    CommitAttempts(db0, s, id, s');
    CommitMatched(db0, s, id, s');
  }

  lemma AcceptMore(db0: map<Address, Blob>, s: State, a: Address, n: nat, s': State)
    requires Rising(db0, s.accepted) && forall b :: Holds(db0, s.accepted, b, Stored(s.db, b))
    requires Stored(s.db, a) < n && s'.accepted == s.accepted + [(a, n)]
    requires forall b :: Stored(s'.db, b) == if b == a then n else Stored(s.db, b)
    ensures Rising(db0, s'.accepted) && forall b :: Holds(db0, s'.accepted, b, Stored(s'.db, b))
  {
    hide Stored;
    assert Holds(db0, s.accepted, a, Stored(s.db, a));
    forall i | 0 <= i < |s.accepted| && s.accepted[i].0 == a ensures s.accepted[i].1 < n {
      assert (a, s.accepted[i].1) in s.accepted;
    }
    forall b ensures Holds(db0, s'.accepted, b, Stored(s'.db, b)) {
      assert Holds(db0, s.accepted, b, Stored(s.db, b));
      assert (a, n) in s'.accepted;
    }
  }

  lemma CommitAttempts(db0: map<Address, Blob>, s: State, id: nat, s': State)
    requires id < |s.attempts| && s.attempts[id].submitted < U64 && forall t :: t in s.attempts ==> AttemptOk(db0, s, t)
    requires var t := s.attempts[id];
      && s' == SetPhase(s, id, Done(Bumped)).(db := s'.db, versions := s.versions[t.address := Version(s, t.address) + 1],
                                              accepted := s.accepted + [(t.address, t.submitted)])
      && Stored(s.db, t.address) < t.submitted
      && forall b :: Stored(s'.db, b) == if b == t.address then t.submitted else Stored(s.db, b)
    ensures forall t :: t in s'.attempts ==> AttemptOk(db0, s', t)
  {
    hide Stored;
    forall t | t in s'.attempts ensures AttemptOk(db0, s', t) {
      var i :| 0 <= i < |s'.attempts| && s'.attempts[i] == t;
      if i != id {
        assert t == s.attempts[i] && AttemptOk(db0, s, t);
      }
    }
  }

  lemma CommitMatched(db0: map<Address, Blob>, s: State, id: nat, s': State)
    requires Invariant(db0, s) && id < |s.attempts| && s.attempts[id].phase.Tracking?
    requires var t := s.attempts[id];
      && s'.attempts == SetPhase(s, id, Done(Bumped)).attempts && s'.accepted == s.accepted + [(t.address, t.submitted)]
      && Stored(s.db, t.address) < t.submitted
    ensures Matched(s')
  {
    hide Stored;
    var t := s.attempts[id];
    assert Holds(db0, s.accepted, t.address, Stored(s.db, t.address));
    assert (t.address, t.submitted) !in s.accepted;
    forall e | e in s'.accepted ensures Credited(s', e) {
      if e in s.accepted {
        assert Credited(s, e);
        var w :| 0 <= w < |s.attempts| && Won(s.attempts[w], e);
        assert Won(s'.attempts[w], e);
      } else {
        assert Won(s'.attempts[id], e);
      }
    }
    forall i, j | 0 <= i < j < |s'.attempts| ensures !Twice(s'.attempts[i], s'.attempts[j]) {
      assert AttemptOk(db0, s, s.attempts[i]) && AttemptOk(db0, s, s.attempts[j]);
      assert !Twice(s.attempts[i], s.attempts[j]);
    }
  }

  lemma StepKeeps(db0: map<Address, Blob>, s: State, act: Action)
    requires Invariant(db0, s) && (act.Submit? ==> act.submitted < U64)
    ensures Invariant(db0, Step(s, act))
  {
    hide Stored, Rising, Matched, Holds;
    match act
    case Submit(a, n) => SubmitKeeps(db0, s, a, n);
    case Fetch(id) =>
      if id < |s.attempts| && s.attempts[id].phase.Ready? {
        var a := s.attempts[id].address;
        assert AttemptOk(db0, s, s.attempts[id]);
        PhaseKeeps(db0, s, id, Tracking(Stored(s.db, a), Version(s, a)));
      }
    case Finish(id, busy) =>
      if id < |s.attempts| && s.attempts[id].phase.Tracking? {
        var t := s.attempts[id];
        assert AttemptOk(db0, s, t);
        if t.submitted <= t.phase.stored {
          PhaseKeeps(db0, s, id, Done(TooLow(t.phase.stored)));
        } else if busy || Version(s, t.address) != t.phase.version {
          PhaseKeeps(db0, s, id, Ready);
        } else {
          CommitKeeps(db0, s, id);
        }
      }
  }

  /** In every interleaving: the accepted nonces of an address strictly increase, so none is
      accepted twice; each commit belongs to exactly one attempt that reports it; the stored
      nonce is the last accepted; and an attempt is turned away as too low only when a value at
      least as large was stored. */
  lemma {:induction false} EveryRun(db0: map<Address, Blob>, acts: seq<Action>)
    requires Submits64(acts)
    ensures Invariant(db0, Run(Initial(db0), acts))
    decreases |acts|
  {
    hide Stored, Rising, Matched, Holds, AttemptOk;
    if acts == [] {
      InitialOk(db0);
    } else {
      var n := |acts| - 1;
      EveryRun(db0, acts[..n]);
      assert acts[n] in acts;
      StepKeeps(db0, Run(Initial(db0), acts[..n]), acts[n]);
    }
  }

  lemma InitialOk(db0: map<Address, Blob>)
    ensures Invariant(db0, Initial(db0))
  {
  }

  /** A step leaves every other address alone: its stored nonce, its versions, its attempts. */
  lemma AddressesApart(s: State, act: Action, a: Address)
    requires match act
             case Submit(b, _) => b != a
             case Fetch(id) => id < |s.attempts| ==> s.attempts[id].address != a
             case Finish(id, _) => id < |s.attempts| ==> s.attempts[id].address != a
    ensures Stored(Step(s, act).db, a) == Stored(s.db, a) && Version(Step(s, act), a) == Version(s, a)
    ensures forall id :: 0 <= id < |s.attempts| && s.attempts[id].address == a ==> Step(s, act).attempts[id] == s.attempts[id]
  {
  }

  /** A justified refusal means someone else advanced: the value read is stale and smaller. */
  lemma RetrySeesMore(db0: map<Address, Blob>, acts: seq<Action>, id: nat)
    requires Submits64(acts)
    requires var s := Run(Initial(db0), acts);
      id < |s.attempts| && s.attempts[id].phase.Tracking? && s.attempts[id].phase.version != Version(s, s.attempts[id].address)
    ensures var s := Run(Initial(db0), acts);
      s.attempts[id].phase.stored < Stored(s.db, s.attempts[id].address)
  {
    TrackedStrictly(db0, acts);
    var s := Run(Initial(db0), acts);
    assert Strict(s, s.attempts[id]);
  }

  ghost predicate Strict(s: State, t: Attempt) {
    t.phase.Tracking? ==>
      && t.phase.version <= Version(s, t.address) && t.phase.stored <= Stored(s.db, t.address)
      && (t.phase.version < Version(s, t.address) ==> t.phase.stored < Stored(s.db, t.address))
  }

  lemma {:induction false} TrackedStrictly(db0: map<Address, Blob>, acts: seq<Action>)
    requires Submits64(acts)
    ensures var s := Run(Initial(db0), acts);
      forall t :: t in s.attempts ==> Strict(s, t)
    decreases |acts|
  {
    hide Stored, Rising, Matched, Holds;
    if acts != [] {
      var n := |acts| - 1;
      TrackedStrictly(db0, acts[..n]);
      EveryRun(db0, acts[..n]);
      assert acts[n] in acts;
      StrictStep(db0, Run(Initial(db0), acts[..n]), acts[n]);
    }
  }

  lemma StrictStep(db0: map<Address, Blob>, s: State, act: Action)
    requires Invariant(db0, s) && (forall t :: t in s.attempts ==> Strict(s, t))
    ensures forall t :: t in Step(s, act).attempts ==> Strict(Step(s, act), t)
  {
    hide Stored, Rising, Matched, Holds;
    var s' := Step(s, act);
    forall t | t in s'.attempts ensures Strict(s', t) {
      var i :| 0 <= i < |s'.attempts| && s'.attempts[i] == t;
      if i < |s.attempts| {
        var t0 := s.attempts[i];
        assert Strict(s, t0);
        if act.Finish? && act.id < |s.attempts| && s'.accepted != s.accepted {
          var w := s.attempts[act.id];
          assert AttemptOk(db0, s, w);
          StoredBack(s.db, w.address, w.submitted);
        }
      }
    }
  }

  // ---------- what an attempt comes to ----------

  /** An attempt made from start to end with nothing in between: above the stored nonce it commits,
      stores its nonce and reports so; at or below it is turned away with the stored value and
      nothing changes. */
  lemma Undisturbed(s: State, a: Address, n: nat)
    requires n < U64
    ensures var id := |s.attempts|;
      var s' := Step(Step(Step(s, Submit(a, n)), Fetch(id)), Finish(id, false));
      && |s'.attempts| == id + 1 && s'.attempts[..id] == s.attempts
      && s'.attempts[id].address == a && s'.attempts[id].submitted == n
      && (forall b :: b != a ==> Stored(s'.db, b) == Stored(s.db, b))
      && (n > Stored(s.db, a) ==>
            s'.attempts[id].phase == Done(Bumped) && Stored(s'.db, a) == n && s'.accepted == s.accepted + [(a, n)])
      && (n <= Stored(s.db, a) ==>
            s'.attempts[id].phase == Done(TooLow(Stored(s.db, a))) && s'.db == s.db && s'.accepted == s.accepted)
  {
    hide Stored;
    var id := |s.attempts|;
    var s1 := Step(s, Submit(a, n));
    assert s1.attempts[..id] == s.attempts && s1.attempts[id] == Attempt(a, n, Ready);
    var s2 := Step(s1, Fetch(id));
    assert s2.attempts[id] == Attempt(a, n, Tracking(Stored(s.db, a), Version(s, a)));
    assert s2.attempts[..id] == s.attempts;
    StoredBack(s.db, a, n);
  }

  /** How an attempt that has read its nonce ends, in any run: too low if it was not above what it
      read; else it commits exactly when the store does not report contention and nobody committed
      to the address since; otherwise it starts over. */
  lemma FinishExactly(s: State, id: nat, busy: bool)
    requires id < |s.attempts| && s.attempts[id].phase.Tracking?
    ensures var t, s' := s.attempts[id], Step(s, Finish(id, busy));
      var end := s'.attempts[id].phase;
      && (end.Done? && end.outcome.TooLow? <==> t.submitted <= t.phase.stored)
      && (end == Done(Bumped) <==> t.submitted > t.phase.stored && !busy && Version(s, t.address) == t.phase.version)
      && (end == Ready <==> t.submitted > t.phase.stored && (busy || Version(s, t.address) != t.phase.version))
      && (end == Done(Bumped) <==> s'.accepted == s.accepted + [(t.address, t.submitted)])
      && (end != Done(Bumped) ==> s'.db == s.db && s'.accepted == s.accepted)
  {
  }

  /** Versions count the commits to an address: nobody committed since exactly when none is listed
      since. */
  lemma {:induction false} VersionCounts(db0: map<Address, Blob>, acts: seq<Action>, a: Address)
    ensures var s := Run(Initial(db0), acts); Version(s, a) == Commits(s.accepted, a)
    decreases |acts|
  {
    hide Step, Version, Commits;
    if acts == [] {
      NoCommits(db0, a);
    } else {
      var n := |acts| - 1;
      VersionCounts(db0, acts[..n], a);
      VersionStep(Run(Initial(db0), acts[..n]), acts[n], a);
    }
  }

  lemma NoCommits(db0: map<Address, Blob>, a: Address)
    ensures Version(Initial(db0), a) == 0 == Commits([], a)
  {
  }

  lemma VersionStep(s: State, act: Action, a: Address)
    requires Version(s, a) == Commits(s.accepted, a)
    ensures Version(Step(s, act), a) == Commits(Step(s, act).accepted, a)
  {
    hide Stored;
    var s' := Step(s, act);
    if act.Finish? && act.id < |s.attempts| && s.attempts[act.id].phase.Tracking? {
      var t := s.attempts[act.id];
      OneCommit(s.accepted, (t.address, t.submitted), a);
    }
  }

  lemma OneCommit(accepted: seq<(Address, nat)>, e: (Address, nat), a: Address)
    ensures Commits(accepted + [e], a) == Commits(accepted, a) + if e.0 == a then 1 else 0
  {
    assert (accepted + [e])[..|accepted|] == accepted;
  }

  /** How many of the listed commits are to `a`. */
  function Commits(accepted: seq<(Address, nat)>, a: Address): nat {
    if accepted == [] then 0
    else Commits(accepted[..|accepted| - 1], a) + if accepted[|accepted| - 1].0 == a then 1 else 0
  }
}
