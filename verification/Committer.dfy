/** One namespace's commit pipeline: drain the queue into batches, commit, answer each sender. */
module Committer {
  import opened Options
  import opened GroupCommit

  const MAX_BATCH: nat := 64

  datatype Request = Request(job: Job, sender: nat)
  datatype Reply = Reply(to: nat, outcome: Outcome)

  function Jobs(rx: seq<Request>): (jobs: seq<Job>)
    ensures |jobs| == |rx|
  {
    seq(|rx|, i requires 0 <= i < |rx| => rx[i].job)
  }

  function Outcomes(replies: seq<Reply>): (outs: seq<Outcome>)
    ensures |outs| == |replies|
  {
    seq(|replies|, i requires 0 <= i < |replies| => replies[i].outcome)
  }

  /** Replies go to the senders of the requests, in order, one each. */
  ghost predicate Paired(rx: seq<Request>, replies: seq<Reply>) {
    |replies| == |rx| && forall i :: 0 <= i < |rx| ==> replies[i].to == rx[i].sender
  }

  /** The bytes left by exactly the jobs answered `Committed`. */
  ghost function Replayed(k: Codec, view: View, jobs: seq<Job>, outs: seq<Outcome>): View
    requires |outs| == |jobs|
    decreases |jobs|
  {
    if jobs == [] then view
    else
      var n := |jobs| - 1;
      var before := Replayed(k, view, jobs[..n], outs[..n]);
      if outs[n] == Committed then Commit(k, before, jobs[n]).0 else before
  }

  /** Every job answered `Committed` was acceptable at its turn. */
  ghost predicate Justified(k: Codec, view: View, jobs: seq<Job>, outs: seq<Outcome>)
    requires |outs| == |jobs|
    decreases |jobs|
  {
    jobs == [] ||
      (var n := |jobs| - 1;
       && Justified(k, view, jobs[..n], outs[..n])
       && (outs[n] == Committed ==> Accepts(k, Replayed(k, view, jobs[..n], outs[..n]), jobs[n])))
  }

  lemma ReplayedNext(k: Codec, view: View, jobs: seq<Job>, outs: seq<Outcome>, job: Job, out: Outcome)
    requires |outs| == |jobs|
    ensures var before := Replayed(k, view, jobs, outs);
      && Replayed(k, view, jobs + [job], outs + [out]) == (if out == Committed then Commit(k, before, job).0 else before)
      && (Justified(k, view, jobs + [job], outs + [out])
          <==> Justified(k, view, jobs, outs) && (out == Committed ==> Accepts(k, before, job)))
  {
    assert (jobs + [job])[..|jobs|] == jobs && (outs + [out])[..|outs|] == outs;
  }

  /** Jobs run one at a time explain their own outcomes. */
  lemma {:induction false} SerialExplains(k: Codec, view: View, jobs: seq<Job>, outs: seq<Outcome>, more: seq<Job>)
    requires |outs| == |jobs| && Justified(k, view, jobs, outs)
    ensures var r := Serial(k, Replayed(k, view, jobs, outs), more);
      && Replayed(k, view, jobs + more, outs + r.1) == r.0
      && Justified(k, view, jobs + more, outs + r.1)
    decreases |more|
  {
    hide Serial, Replayed, Justified, Accepts, Promoted, Effective;
    var now := Replayed(k, view, jobs, outs);
    if more == [] {
      SerialNone(k, now, more);
      assert jobs + more == jobs && outs + [] == outs;
    } else {
      var n := |more| - 1;
      SerialExplains(k, view, jobs, outs, more[..n]);
      var r := Serial(k, now, more[..n]);
      SerialLast(k, now, more[..n], more[n]);
      var last := Commit(k, r.0, more[n]);
      ReplayedNext(k, view, jobs + more[..n], outs + r.1, more[n], last.1);
      assert more == more[..n] + [more[n]];
      assert jobs + more == jobs + more[..n] + [more[n]] && outs + (r.1 + [last.1]) == outs + r.1 + [last.1];
    }
  }

  /** A batch whose write failed changes nothing and is answered `Conflict` throughout. */
  lemma {:induction false} FailureExplains(k: Codec, view: View, jobs: seq<Job>, outs: seq<Outcome>, more: seq<Job>, bad: seq<Outcome>)
    requires |outs| == |jobs| && Justified(k, view, jobs, outs)
    requires |bad| == |more| && forall i :: 0 <= i < |bad| ==> bad[i] == Conflict
    ensures Replayed(k, view, jobs + more, outs + bad) == Replayed(k, view, jobs, outs)
    ensures Justified(k, view, jobs + more, outs + bad)
    decreases |more|
  {
    hide Replayed, Justified, Accepts, Commit;
    if more == [] {
      assert jobs + more == jobs && outs + bad == outs;
    } else {
      var n := |more| - 1;
      FailureExplains(k, view, jobs, outs, more[..n], bad[..n]);
      ReplayedNext(k, view, jobs + more[..n], outs + bad[..n], more[n], bad[n]);
      assert jobs + more == jobs + more[..n] + [more[n]] && outs + bad == outs + bad[..n] + [bad[n]];
    }
  }

  /** Take the first request, then what is ready, up to the batch limit. */
  method Drain(rx: seq<Request>, ready: nat) returns (batch: seq<Request>)
    requires rx != []
    ensures 1 <= |batch| <= 64 && |batch| <= |rx| && batch == rx[..|batch|]
    ensures |batch| < 64 && |batch| < |rx| ==> |batch| > ready
  {
    batch := [rx[0]];
    while |batch| < MAX_BATCH && |batch| <= ready && |batch| < |rx|
      invariant 1 <= |batch| <= MAX_BATCH && |batch| <= |rx| && batch == rx[..|batch|]
      decreases |rx| - |batch|
    {
      batch := batch + [rx[|batch|]];
    }
  }

  /** Commit a batch and answer its senders by position. */
  method ProcessBatch(kv: RocksKv, ns: Namespace, batch: seq<Request>, writeFails: bool) returns (replies: seq<Reply>)
    requires batch != []
    modifies kv
    ensures Paired(batch, replies)
    ensures if writeFails then kv.db == old(kv.db) && forall r :: r in replies ==> r.outcome == Conflict
            else CleanRun(kv.codec, Slice(old(kv.db), ns), Jobs(batch)) ==>
              (Slice(kv.db, ns), Outcomes(replies)) == Serial(kv.codec, Slice(old(kv.db), ns), Jobs(batch))
    ensures forall other :: other != ns ==> Slice(kv.db, other) == Slice(old(kv.db), other)
  {
    hide *;
    var jobs := Jobs(batch);
    JobsLength(batch);
    var res := kv.CommitBatch(ns, jobs, writeFails);
    replies := AnswerAll(batch, res);
  }

  method AnswerAll(batch: seq<Request>, res: Option<seq<Outcome>>) returns (replies: seq<Reply>)
    requires res.Some? ==> |res.value| == |batch|
    ensures Paired(batch, replies)
    ensures if res.Some? then Outcomes(replies) == res.value else forall r :: r in replies ==> r.outcome == Conflict
  {
    replies := [];
    for i := 0 to |batch|
      invariant |replies| == i
      invariant forall j :: 0 <= j < i ==> replies[j] == Reply(batch[j].sender, if res.Some? then res.value[j] else Conflict)
    {
      replies := replies + [Reply(batch[i].sender, if res.Some? then res.value[i] else Conflict)];
    }
  }

  lemma JobsLength(rx: seq<Request>)
    ensures |Jobs(rx)| == |rx|
  {
  }

  // ---------- whole runs of the pipeline ----------

  /** The jobs whose batch was written, in order. */
  ghost function Written(jobs: seq<Job>, lost: seq<bool>): seq<Job>
    requires |lost| == |jobs|
  {
    if jobs == [] then []
    else
      var n := |jobs| - 1;
      Written(jobs[..n], lost[..n]) + if lost[n] then [] else [jobs[n]]
  }

  lemma {:induction false} WrittenMore(a: seq<Job>, la: seq<bool>, b: seq<Job>, lb: seq<bool>)
    requires |la| == |a| && |lb| == |b| && forall i, j :: 0 <= i < |lb| && 0 <= j < |lb| ==> lb[i] == lb[j]
    ensures Written(a + b, la + lb) == Written(a, la) + if b == [] || lb[0] then [] else b
    decreases |b|
  {
    if b == [] {
      assert a + b == a && la + lb == la;
    } else {
      var n := |b| - 1;
      WrittenMore(a, la, b[..n], lb[..n]);
      assert (a + b)[..|a + b| - 1] == a + b[..n] && (la + lb)[..|la + lb| - 1] == la + lb[..n];
      assert b == b[..n] + [b[n]] && lb[n] == lb[0];
      if n == 0 {
        assert b[..0] == [];
      }
    }
  }

  lemma {:induction false} WrittenAll(jobs: seq<Job>, lost: seq<bool>)
    requires |lost| == |jobs| && forall i :: 0 <= i < |lost| ==> !lost[i]
    ensures Written(jobs, lost) == jobs
    decreases |jobs|
  {
    if jobs != [] {
      WrittenAll(jobs[..|jobs| - 1], lost[..|jobs| - 1]);
    }
  }

  /** Jobs of a batch that was lost are answered `Conflict`. */
  ghost predicate LostAnswered(replies: seq<Reply>, lost: seq<bool>) {
    |lost| == |replies| && forall i :: 0 <= i < |lost| && lost[i] ==> replies[i].outcome == Conflict
  }

  /** What the bytes and the answers are once the requests `rx` are answered. */
  ghost predicate Explained(k: Codec, before: View, rx: seq<Request>, replies: seq<Reply>, after: View, lost: seq<bool>)
    requires |replies| == |rx| == |lost|
  {
    && after == Serial(k, before, Written(Jobs(rx), lost)).0
    && after == Replayed(k, before, Jobs(rx), Outcomes(replies))
    && Justified(k, before, Jobs(rx), Outcomes(replies))
    && ((forall i :: 0 <= i < |lost| ==> !lost[i]) ==> (after, Outcomes(replies)) == Serial(k, before, Jobs(rx)))
  }

  lemma ExplainedNone(k: Codec, view: View, rx: seq<Request>)
    requires rx == []
    ensures Explained(k, view, rx, [], view, [])
  {
  }

  lemma ExplainedMore(k: Codec, before: View, rx: seq<Request>, replies: seq<Reply>, mid: View, lost: seq<bool>,
                      batch: seq<Request>, more: seq<Reply>, after: View, failed: bool)
    requires |replies| == |rx| == |lost| && Explained(k, before, rx, replies, mid, lost) && Paired(batch, more) && batch != []
    requires if failed then after == mid && forall r :: r in more ==> r.outcome == Conflict
             else (after, Outcomes(more)) == Serial(k, mid, Jobs(batch))
    ensures Explained(k, before, rx + batch, replies + more, after, lost + seq(|batch|, _ => failed))
  {
    hide Serial, Replayed, Justified, Written;
    var lb := seq(|batch|, _ => failed);
    assert Jobs(rx + batch) == Jobs(rx) + Jobs(batch);
    assert Outcomes(replies + more) == Outcomes(replies) + Outcomes(more);
    WrittenMore(Jobs(rx), lost, Jobs(batch), lb);
    var written := Written(Jobs(rx), lost);
    if failed {
      forall i | 0 <= i < |more| ensures Outcomes(more)[i] == Conflict {
        assert more[i] in more;
      }
      FailureExplains(k, before, Jobs(rx), Outcomes(replies), Jobs(batch), Outcomes(more));
      assert written + [] == written;
      assert (lost + lb)[|lost|];
    } else {
      SerialExplains(k, before, Jobs(rx), Outcomes(replies), Jobs(batch));
      SerialSplit(k, before, written, Jobs(batch));
      SerialSplit(k, before, Jobs(rx), Jobs(batch));
      if forall i :: 0 <= i < |lost + lb| ==> !(lost + lb)[i] {
        forall i | 0 <= i < |lost| ensures !lost[i] {
          assert (lost + lb)[i] == lost[i];
        }
      }
    }
  }

  /** The condition for one more batch, taken apart. */
  lemma CleanMore(k: Codec, before: View, rx: seq<Request>, lost: seq<bool>, batch: seq<Request>, failed: bool)
    requires |lost| == |rx| && batch != []
    requires CleanRun(k, before, Written(Jobs(rx + batch), lost + seq(|batch|, _ => failed)))
    ensures CleanRun(k, before, Written(Jobs(rx), lost))
    ensures !failed ==> CleanRun(k, Serial(k, before, Written(Jobs(rx), lost)).0, Jobs(batch))
  {
    hide Serial, CleanRun, Written;
    var lb := seq(|batch|, _ => failed);
    assert Jobs(rx + batch) == Jobs(rx) + Jobs(batch);
    WrittenMore(Jobs(rx), lost, Jobs(batch), lb);
    var written := Written(Jobs(rx), lost);
    if failed {
      assert written + [] == written;
    } else {
      CleanSplit(k, before, written, Jobs(batch));
    }
  }

  /** The pipeline until the channel closes. `ready(t)` bounds what is queued at the `t`-th drain
      and `fails(t)` says whether the `t`-th write fails. However the requests fall into batches,
      every sender gets the answer to its own job. The stored bytes are those of exactly the
      jobs answered `Committed`, each acceptable at its turn, and those of running the jobs
      whose batch was written one at a time; when no write fails, answers and bytes are those
      of running all of them one at a time. */
  method Run(kv: RocksKv, ns: Namespace, rx: seq<Request>, ready: nat -> nat, fails: nat -> bool)
    returns (replies: seq<Reply>, ghost lost: seq<bool>)
    modifies kv
    ensures Paired(rx, replies) && LostAnswered(replies, lost)
    ensures (forall t :: !fails(t)) ==> forall i :: 0 <= i < |lost| ==> !lost[i]
    ensures CleanRun(kv.codec, Slice(old(kv.db), ns), Written(Jobs(rx), lost)) ==>
      Explained(kv.codec, Slice(old(kv.db), ns), rx, replies, Slice(kv.db, ns), lost)
    ensures forall other :: other != ns ==> Slice(kv.db, other) == Slice(old(kv.db), other)
  {
    hide CleanRun, Explained, Written, Slice, Serial;
    ghost var before := Slice(kv.db, ns);
    ghost var k := kv.codec;
    replies, lost := [], [];
    var done, t := 0, 0;
    ExplainedNone(k, before, rx[..0]);
    while done < |rx|
      invariant 0 <= done <= |rx|
      invariant Paired(rx[..done], replies) && LostAnswered(replies, lost)
      invariant (forall t :: !fails(t)) ==> forall i :: 0 <= i < |lost| ==> !lost[i]
      invariant CleanRun(k, before, Written(Jobs(rx[..done]), lost)) ==>
        Explained(k, before, rx[..done], replies, Slice(kv.db, ns), lost)
      invariant forall other :: other != ns ==> Slice(kv.db, other) == Slice(old(kv.db), other)
      decreases |rx| - done
    {
      var batch := Drain(rx[done..], ready(t));
      ghost var mid := Slice(kv.db, ns);
      var more := ProcessBatch(kv, ns, batch, fails(t));
      assert rx[..done] + batch == rx[..done + |batch|];
      ghost var lost' := lost + seq(|batch|, _ => fails(t));
      if CleanRun(k, before, Written(Jobs(rx[..done] + batch), lost')) {
        CleanMore(k, before, rx[..done], lost, batch, fails(t));
        ExplainedMid(k, before, rx[..done], replies, mid, lost);
        ExplainedMore(k, before, rx[..done], replies, mid, lost, batch, more, Slice(kv.db, ns), fails(t));
      }
      RepliesMore(rx[..done], replies, lost, batch, more, fails(t));
      replies, lost := replies + more, lost';
      done, t := done + |batch|, t + 1;
    }
    assert rx[..|rx|] == rx;
  }

  lemma ExplainedMid(k: Codec, before: View, rx: seq<Request>, replies: seq<Reply>, mid: View, lost: seq<bool>)
    requires |replies| == |rx| == |lost| && Explained(k, before, rx, replies, mid, lost)
    ensures mid == Serial(k, before, Written(Jobs(rx), lost)).0
  {
  }

  lemma RepliesMore(rx: seq<Request>, replies: seq<Reply>, lost: seq<bool>, batch: seq<Request>, more: seq<Reply>, failed: bool)
    requires Paired(rx, replies) && LostAnswered(replies, lost) && Paired(batch, more)
    requires failed ==> forall r :: r in more ==> r.outcome == Conflict
    ensures Paired(rx + batch, replies + more) && LostAnswered(replies + more, lost + seq(|batch|, _ => failed))
  {
    forall i | 0 <= i < |batch| && failed ensures more[i].outcome == Conflict {
      assert more[i] in more;
    }
  }
}
