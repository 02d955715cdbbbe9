/** The read-clustering pass as it works: one walk over the code that keeps an open cluster,
    defers what sits between its reads, and patches the jumps at the end. */
module Optimizer {
  import opened Options
  import opened Machine
  import opened Clusters
  import opened OptimizeCorrect

  function Instrs(pending: seq<(nat, Instr)>): (r: seq<Instr>)
    ensures |r| == |pending| && forall i :: 0 <= i < |pending| ==> r[i] == pending[i].1
  {
    seq(|pending|, i requires 0 <= i < |pending| => pending[i].1)
  }

  /** The closed blocks so far, copied verbatim: jumps still carry their old offsets. */
  ghost predicate Copied(quiet: set<nat>, f: Function, g: Function, bounds: seq<nat>, starts: seq<nat>) {
    && |bounds| == |starts| > 0 && bounds[0] == 0 && starts[0] == 0
    && bounds[|bounds| - 1] <= |f.code| && starts[|starts| - 1] <= |g.code|
    && g.consts == f.consts && f.groups <= g.groups && (AllAlone(f.code, bounds) ==> g.groups == f.groups)
    && forall j :: 0 <= j < |bounds| - 1 ==> BlockCopied(quiet, f, g, bounds, starts, j)
  }

  ghost predicate BlockCopied(quiet: set<nat>, f: Function, g: Function, bounds: seq<nat>, starts: seq<nat>, j: nat)
    requires j < |bounds| - 1 && |bounds| == |starts|
  {
    && bounds[j] < |f.code| && bounds[j + 1] == BlockEnd(quiet, f.code, bounds[j])
    && bounds[j] < bounds[|bounds| - 1] && starts[j] < starts[j + 1] <= |g.code|
    && if IsRead(f.code[bounds[j]]) then ClusterAt(f, g, bounds[j], bounds[j + 1], starts[j], starts[j + 1])
       else starts[j + 1] == starts[j] + 1 && g.code[starts[j]] == f.code[bounds[j]]
  }

  /** Every position of the closed blocks is mapped to its image. */
  ghost predicate ImagesMapped(code: seq<Instr>, bounds: seq<nat>, starts: seq<nat>, idxMap: seq<Option<nat>>)
    requires |bounds| == |starts|
  {
    forall j, x | InBlock(bounds, j, x) :: MappedAt(code, bounds[j], x, starts[j], idxMap)
  }

  ghost predicate InBlock(bounds: seq<nat>, j: int, x: int) {
    0 <= j < |bounds| - 1 && bounds[j] <= x < bounds[j + 1]
  }

  ghost predicate Rises(bounds: seq<nat>, j: int, hi: nat) {
    0 <= j < |bounds| - 1 && bounds[j] < bounds[j + 1] <= hi
  }

  ghost predicate MappedAt(code: seq<Instr>, lo: nat, x: int, s: nat, idxMap: seq<Option<nat>>) {
    lo <= x < |code| == |idxMap| && idxMap[x] == Some(Image(code, lo, x, s))
  }

  /** The position maps cover every block, and every jump has its origin recorded. */
  ghost predicate Mapped(f: Function, code: seq<Instr>, bounds: seq<nat>, starts: seq<nat>,
                         idxMap: seq<Option<nat>>, jumpOld: map<nat, nat>)
    requires |bounds| == |starts| > 0
  {
    && |idxMap| == |f.code|
    && (forall j :: 0 <= j < |bounds| - 1 ==>
          && bounds[j] < |f.code| && idxMap[bounds[j]] == Some(starts[j])
          && (IsJump(f.code[bounds[j]]) ==> starts[j] in jumpOld && jumpOld[starts[j]] == bounds[j]))
    && (forall p :: 0 <= p < |code| && IsJump(code[p]) ==> p in jumpOld)
    && (forall p :: p in jumpOld ==> p < |code|)
    && ImagesMapped(f.code, bounds, starts, idxMap)
  }

  /** Closing a block after everything copied so far. */
  lemma CopyMore(quiet: set<nat>, f: Function, g: Function, g': Function, bounds: seq<nat>, starts: seq<nat>, hi: nat)
    requires Copied(quiet, f, g, bounds, starts)
    requires g.code <= g'.code && g.groups <= g'.groups && g'.consts == g.consts
    requires var lo, s := bounds[|bounds| - 1], starts[|starts| - 1];
      && s < |g'.code| && lo < |f.code| && hi == BlockEnd(quiet, f.code, lo)
      && if IsRead(f.code[lo]) then ClusterAt(f, g', lo, hi, s, |g'.code|)
         else |g'.code| == s + 1 && g'.code[s] == f.code[lo]
    requires var lo := bounds[|bounds| - 1];
      (IsRead(f.code[lo]) ==> |Reads(f.code[lo..hi])| == 1) ==> g'.groups == g.groups
    ensures Copied(quiet, f, g', bounds + [hi], starts + [|g'.code|])
  {
    var bounds', starts' := bounds + [hi], starts + [|g'.code|];
    if AllAlone(f.code, bounds') {
      assert Alone(f.code, bounds', |bounds| - 1);
      forall j | 0 <= j < |bounds| - 1 ensures Alone(f.code, bounds, j) {
        assert Alone(f.code, bounds', j);
      }
    }
    forall j | 0 <= j < |bounds'| - 1 ensures BlockCopied(quiet, f, g', bounds', starts', j) {
      if j < |bounds| - 1 {
        assert BlockCopied(quiet, f, g, bounds, starts, j);
        if IsRead(f.code[bounds[j]]) {
          ClusterKept(f, g, g', bounds[j], bounds[j + 1], starts[j], starts[j + 1]);
        }
      }
    }
  }

  lemma ClusterKept(f: Function, g: Function, g': Function, lo: nat, hi: nat, s: nat, e: nat)
    requires lo < hi <= |f.code| && ClusterAt(f, g, lo, hi, s, e)
    requires g.code <= g'.code && g.groups <= g'.groups
    ensures ClusterAt(f, g', lo, hi, s, e)
  {
    assert g'.code[s + 1..e] == g.code[s + 1..e];
  }

  class Pass {
    const quiet: set<nat>
    const f: Function
    var newCode: seq<Instr>
    var cluster: seq<ReadOp>
    var clusterOld: seq<nat>
    var clusterDsts: set<nat>
    var pending: seq<(nat, Instr)>
    var idxMap: seq<Option<nat>>
    var jumpOld: map<nat, nat>
    var groups: seq<seq<ReadOp>>
    ghost var bounds: seq<nat>
    ghost var starts: seq<nat>

    constructor (quiet: set<nat>, f: Function)
      ensures this.quiet == quiet && this.f == f && Valid(0) && cluster == []
    {
      this.quiet, this.f := quiet, f;
      newCode, cluster, clusterOld, clusterDsts, pending := [], [], [], {}, [];
      idxMap := seq(|f.code|, _ => None);
      jumpOld, groups := map[], f.groups;
      bounds, starts := [0], [0];
    }

    ghost function Out(): Function
      reads this
    {
      Function(newCode, f.consts, groups)
    }

    /** The open cluster holds exactly the instructions since its first read. */
    ghost predicate Open(i: nat)
      requires |bounds| > 0 && i <= |f.code|
      reads this
    {
      OpenAt(quiet, f.code, bounds[|bounds| - 1], i, cluster, clusterOld, clusterDsts, pending)
    }

    ghost predicate Valid(i: nat)
      reads this
    {
      && i <= |f.code| && |bounds| == |starts| > 0 && |idxMap| == |f.code|
      && Copied(quiet, f, Out(), bounds, starts)
      && starts[|starts| - 1] == |newCode|
      && Mapped(f, newCode, bounds, starts, idxMap, jumpOld)
      && Open(i)
    }

    /** Emit one instruction that was at `origin`. */
    method Push(origin: nat, instr: Instr)
      requires origin < |idxMap|
      modifies this`newCode, this`idxMap, this`jumpOld
      ensures newCode == old(newCode) + [instr]
      ensures idxMap == old(idxMap)[origin := Some(|old(newCode)|)]
      ensures jumpOld == if IsJump(instr) then old(jumpOld)[|old(newCode)| := origin] else old(jumpOld)
    {
      idxMap := idxMap[origin := Some(|newCode|)];
      if IsJump(instr) {
        jumpOld := jumpOld[|newCode| := origin];
      }
      newCode := newCode + [instr];
    }

    /** Emit the open cluster's reads, alone or as a batch, and map them to that place. */
    method EmitReads(ghost i: nat)
      requires Valid(i) && cluster != []
      modifies this`newCode, this`idxMap, this`groups
      ensures |newCode| == |old(newCode)| + 1 && old(newCode) <= newCode
      ensures old(groups) <= groups && !IsJump(newCode[|old(newCode)|])
      ensures |cluster| == 1 ==> groups == old(groups)
      ensures ReadsAt(Out(), |old(newCode)|, f.code[bounds[|bounds| - 1]..i])
      ensures |idxMap| == |old(idxMap)|
      ensures var lo := bounds[|bounds| - 1];
        && idxMap[lo] == Some(|old(newCode)|) && (forall x :: 0 <= x < lo ==> idxMap[x] == old(idxMap)[x])
        && forall x :: x in clusterOld ==> x < |idxMap| && idxMap[x] == Some(|old(newCode)|)
    {
      hide Copied, Mapped, Breaker, ClusterEnd, BlockEnd, Positions;
      ghost var lo := bounds[|bounds| - 1];
      ghost var c := f.code[lo..i];
      FirstRead(c);
      var at := |newCode|;
      if |cluster| == 1 {
        idxMap := idxMap[clusterOld[0] := Some(at)];
        var op := cluster[0];
        match op {
          case StateRead(dst, key) => newCode := newCode + [KvGet(dst, key)];
          case PathRead(dst, path) => newCode := newCode + [KvGetPath(dst, path)];
        }
      } else {
        newCode := newCode + [ReadBatch(|groups|)];
        groups := groups + [cluster];
        var k := 0;
        while k < |clusterOld|
          modifies this`idxMap
          invariant k <= |clusterOld| && |idxMap| == |old(idxMap)|
          invariant forall x :: 0 <= x < lo ==> idxMap[x] == old(idxMap)[x]
          invariant forall j :: 0 <= j < k ==> clusterOld[j] < |idxMap| && idxMap[clusterOld[j]] == Some(at)
        {
          idxMap := idxMap[clusterOld[k] := Some(at)];
          k := k + 1;
        }
      }
    }

    /** Close the open cluster: its reads, then everything it deferred, in order. */
    method Flush(ghost i: nat)
      requires Valid(i)
      requires cluster != [] ==> ClusterEnd(quiet, f.code, i, clusterDsts) == i
      modifies this
      ensures Valid(i) && cluster == []
    {
      hide Copied, Mapped, Breaker, ClusterEnd, BlockEnd, Reads, Rest;
      if cluster != [] {
        CloseCluster(i);
      }
    }

    method CloseCluster(ghost i: nat)
      requires Valid(i) && cluster != [] && ClusterEnd(quiet, f.code, i, clusterDsts) == i
      modifies this
      ensures Valid(i) && cluster == []
    {
      hide Copied, Mapped, Breaker, ClusterAt, BlockEnd, ClusterEnd, Reads, Rest, IsRead, IsJump;
      ghost var out, idxMap0 := Out(), idxMap;
      EmitCluster(i);
      Closed(quiet, f, out, Out(), bounds, starts, idxMap0, idxMap, jumpOld, i);
      bounds, starts := bounds + [i], starts + [|newCode|];
      cluster, clusterOld, clusterDsts := [], [], {};
    }

    method EmitCluster(ghost i: nat)
      requires Valid(i) && cluster != [] && ClusterEnd(quiet, f.code, i, clusterDsts) == i
      modifies this`newCode, this`idxMap, this`groups, this`jumpOld, this`pending
      ensures pending == [] && jumpOld == old(jumpOld)
      ensures old(newCode) <= newCode && old(groups) <= groups && |old(newCode)| < |newCode|
      ensures forall p :: |old(newCode)| <= p < |newCode| ==> !IsJump(newCode[p])
      ensures |cluster| == 1 ==> groups == old(groups)
      ensures var lo := bounds[|bounds| - 1];
        && ClusterAt(f, Out(), lo, i, |old(newCode)|, |newCode|)
        && |idxMap| == |old(idxMap)| && idxMap[lo] == Some(|old(newCode)|)
        && (forall x :: 0 <= x < lo ==> idxMap[x] == old(idxMap)[x])
        && forall x :: lo <= x < i ==> MappedAt(f.code, lo, x, |old(newCode)|, idxMap)
    {
      hide Copied, Mapped, Breaker, ClusterAt, BlockEnd, ClusterEnd, ReadsAt, Reads, Rest, IsJump, Positions, MappedAt;
      ghost var lo, s, old0, pending0 := bounds[|bounds| - 1], |newCode|, clusterOld, pending;
      NoJumpsDeferred(quiet, f.code, lo, pending);
      PendingApart(f.code, lo, i, clusterOld, pending);
      EmitReads(i);
      ghost var mid, idxMap1 := Out(), idxMap;
      EmitPending(lo);
      ClusterDone(f, mid, Out(), lo, i, s);
      ClusterMapped(f.code, lo, i, old0, pending0, s, idxMap1, idxMap);
    }

    method EmitPending(ghost lo: nat)
      requires lo < |idxMap|
      requires forall k :: 0 <= k < |pending| ==> lo < pending[k].0 < |idxMap| && !IsJump(pending[k].1)
      requires forall k, l :: 0 <= k < l < |pending| ==> pending[k].0 != pending[l].0
      modifies this`newCode, this`idxMap, this`jumpOld, this`pending
      ensures newCode == old(newCode) + Instrs(old(pending)) && jumpOld == old(jumpOld) && pending == []
      ensures Moved(old(pending), |old(pending)|, |old(newCode)|, old(idxMap), idxMap)
    {
      var k := 0;
      while k < |pending|
        invariant k <= |pending| && pending == old(pending)
        invariant newCode == old(newCode) + Instrs(pending)[..k] && jumpOld == old(jumpOld)
        invariant Moved(pending, k, |old(newCode)|, old(idxMap), idxMap)
      {
        Push(pending[k].0, pending[k].1);
        k := k + 1;
      }
      pending := [];
    }

    /** One instruction of the old code. */
    method Visit(i: nat)
      requires i < |f.code| && Valid(i)
      modifies this
      ensures Valid(i + 1)
    {
      var instr := f.code[i];
      if IsRead(instr) {
        VisitRead(i);
      } else {
        var mustFlush := Breaker(quiet, instr) || Sources(instr) * clusterDsts != {};
        if mustFlush {
          Flush(i);
          VisitPlain(i);
        } else if cluster != [] {
          Defer(i);
        } else {
          VisitPlain(i);
        }
      }
    }

    method VisitRead(i: nat)
      requires i < |f.code| && IsRead(f.code[i]) && Valid(i)
      modifies this`cluster, this`clusterOld, this`clusterDsts
      ensures Valid(i + 1)
    {
      hide Copied, Mapped, OpenAt;
      var instr := f.code[i];
      ReadJoins(quiet, f.code, bounds[|bounds| - 1], i, cluster, clusterOld, clusterDsts, pending);
      cluster := cluster + [AsReadOp(instr)];
      clusterOld := clusterOld + [i];
      clusterDsts := clusterDsts + {instr.dst};
    }

    method Defer(i: nat)
      requires i < |f.code| && !IsRead(f.code[i]) && Valid(i) && cluster != []
      requires !Breaker(quiet, f.code[i]) && Sources(f.code[i]) * clusterDsts == {}
      modifies this`pending
      ensures Valid(i + 1)
    {
      hide Copied, Mapped, Breaker, Sources, Reads, Rest, BlockEnd, Positions;
      ghost var lo := bounds[|bounds| - 1];
      Grow(f.code, lo, i);
      PositionsDefer(f.code, lo, i, clusterOld, pending);
      pending := pending + [(i, f.code[i])];
      assert Instrs(pending) == Instrs(old(pending)) + [f.code[i]];
    }

    method VisitPlain(i: nat)
      requires i < |f.code| && !IsRead(f.code[i]) && Valid(i) && cluster == []
      modifies this
      ensures Valid(i + 1)
    {
      hide Copied, Mapped, Breaker, ClusterAt;
      ghost var out, idxMap0, jumpOld0 := Out(), idxMap, jumpOld;
      CopiedBelow(quiet, f, out, bounds, starts);
      BoundsRise(quiet, f, out, bounds, starts);
      Push(i, f.code[i]);
      CopyMore(quiet, f, out, Out(), bounds, starts, i + 1);
      MapPlain(quiet, f, out.code, newCode, bounds, starts, idxMap0, idxMap, jumpOld0, jumpOld, i);
      bounds, starts := bounds + [i + 1], starts + [|newCode|];
    }
  }

  /** The first `n` pending instructions are mapped one after the other from `s`; nothing else moved. */
  ghost predicate Moved(pending: seq<(nat, Instr)>, n: nat, s: nat, idxMap: seq<Option<nat>>, idxMap': seq<Option<nat>>) {
    && n <= |pending| && |idxMap'| == |idxMap|
    && (forall k :: 0 <= k < n ==> pending[k].0 < |idxMap'| && idxMap'[pending[k].0] == Some(s + k))
    && (forall x :: 0 <= x < |idxMap| && (forall k :: 0 <= k < n ==> pending[k].0 != x) ==> idxMap'[x] == idxMap[x])
  }

  /** Where the open cluster's instructions came from: all its reads in `clusterOld`, the others in
      `pending`, in order. */
  ghost predicate Positions(code: seq<Instr>, lo: nat, i: nat, clusterOld: seq<nat>, pending: seq<(nat, Instr)>) {
    && lo <= i <= |code|
    && (forall x :: lo <= x < i && IsRead(code[x]) ==> x in clusterOld)
    && (forall x :: x in clusterOld ==> lo <= x < i && IsRead(code[x]))
    && (forall k :: 0 <= k < |pending| ==> PendingAt(code, lo, i, pending, k))
    && (forall x :: lo <= x < i && !IsRead(code[x]) ==> |Rest(code[lo..x])| < |pending| && pending[|Rest(code[lo..x])|].0 == x)
  }

  ghost predicate PendingAt(code: seq<Instr>, lo: nat, i: nat, pending: seq<(nat, Instr)>, k: nat)
    requires k < |pending| && lo <= i <= |code|
  {
    lo <= pending[k].0 < i && !IsRead(code[pending[k].0]) && |Rest(code[lo..pending[k].0])| == k
  }

  lemma PendingApart(code: seq<Instr>, lo: nat, i: nat, clusterOld: seq<nat>, pending: seq<(nat, Instr)>)
    requires Positions(code, lo, i, clusterOld, pending)
    ensures forall k, l :: 0 <= k < l < |pending| ==> pending[k].0 != pending[l].0
  {
    hide Rest;
    forall k, l | 0 <= k < l < |pending| ensures pending[k].0 != pending[l].0 {
      assert PendingAt(code, lo, i, pending, k) && PendingAt(code, lo, i, pending, l);
    }
  }

  lemma ClusterMapped(code: seq<Instr>, lo: nat, i: nat, clusterOld: seq<nat>, pending: seq<(nat, Instr)>, s: nat,
                      idxMap: seq<Option<nat>>, idxMap': seq<Option<nat>>)
    requires Positions(code, lo, i, clusterOld, pending) && lo < i && IsRead(code[lo]) && |idxMap| == |code|
    requires forall x :: x in clusterOld ==> x < |idxMap| && idxMap[x] == Some(s)
    requires Moved(pending, |pending|, s + 1, idxMap, idxMap')
    ensures forall x :: lo <= x < i ==> MappedAt(code, lo, x, s, idxMap')
    ensures idxMap'[lo] == Some(s) && forall x :: 0 <= x < lo ==> idxMap'[x] == idxMap[x]
  {
    hide Rest;
    forall x | 0 <= x < i && (x < lo || IsRead(code[x])) ensures idxMap'[x] == idxMap[x] {
      forall k | 0 <= k < |pending| ensures pending[k].0 != x {
        assert PendingAt(code, lo, i, pending, k);
      }
    }
  }

  lemma PositionsRead(code: seq<Instr>, lo: nat, i: nat, clusterOld: seq<nat>, pending: seq<(nat, Instr)>)
    requires Positions(code, lo, i, clusterOld, pending) && i < |code| && IsRead(code[i])
    ensures Positions(code, lo, i + 1, clusterOld + [i], pending)
  {
    hide Rest;
    var next := i + 1;
    forall k | 0 <= k < |pending| ensures PendingAt(code, lo, next, pending, k) {
      assert PendingAt(code, lo, i, pending, k);
    }
  }

  lemma PositionsDefer(code: seq<Instr>, lo: nat, i: nat, clusterOld: seq<nat>, pending: seq<(nat, Instr)>)
    requires Positions(code, lo, i, clusterOld, pending) && i < |code| && !IsRead(code[i]) && |pending| == |Rest(code[lo..i])|
    ensures Positions(code, lo, i + 1, clusterOld, pending + [(i, code[i])])
  {
    hide Rest;
    var pending' := pending + [(i, code[i])];
    var next := i + 1;
    forall k | 0 <= k < |pending'| ensures PendingAt(code, lo, next, pending', k) {
      if k < |pending| {
        assert PendingAt(code, lo, i, pending, k);
      }
    }
  }

  lemma PositionsNone(code: seq<Instr>, i: nat)
    requires i <= |code|
    ensures Positions(code, i, i, [], [])
  {
  }

  lemma NoJumpsDeferred(quiet: set<nat>, code: seq<Instr>, lo: nat, pending: seq<(nat, Instr)>)
    requires lo < |code| && IsRead(code[lo]) && Instrs(pending) == Rest(code[lo..BlockEnd(quiet, code, lo)])
    ensures forall k :: 0 <= k < |pending| ==> !IsJump(pending[k].1)
    ensures forall k :: 0 <= k < |Instrs(pending)| ==> !IsJump(Instrs(pending)[k])
  {
    var c := code[lo..BlockEnd(quiet, code, lo)];
    BlockQuiet(quiet, code, lo);
    RestQuiet(quiet, c);
    forall k | 0 <= k < |pending| ensures !IsJump(pending[k].1) {
      assert pending[k].1 == Rest(c)[k];
    }
  }

  lemma ClusterDone(f: Function, mid: Function, g: Function, lo: nat, hi: nat, s: nat)
    requires lo < hi <= |f.code| && ReadsAt(mid, s, f.code[lo..hi]) && |mid.code| == s + 1
    requires g.code == mid.code + Rest(f.code[lo..hi]) && g.groups == mid.groups
    ensures ClusterAt(f, g, lo, hi, s, |g.code|)
  {
    assert g.code[s + 1..|g.code|] == Rest(f.code[lo..hi]);
  }

  lemma CopiedBelow(quiet: set<nat>, f: Function, g: Function, bounds: seq<nat>, starts: seq<nat>)
    requires Copied(quiet, f, g, bounds, starts)
    ensures forall j :: 0 <= j < |bounds| - 1 ==> bounds[j] < bounds[|bounds| - 1] && starts[j] < |g.code|
  {
    forall j | 0 <= j < |bounds| - 1 ensures bounds[j] < bounds[|bounds| - 1] && starts[j] < |g.code| {
      assert BlockCopied(quiet, f, g, bounds, starts, j);
    }
  }

  /** The cluster being collected, up to but not including position `i`. */
  ghost predicate OpenAt(quiet: set<nat>, code: seq<Instr>, lo: nat, i: nat, cluster: seq<ReadOp>, clusterOld: seq<nat>,
                         clusterDsts: set<nat>, pending: seq<(nat, Instr)>)
    requires i <= |code|
  {
    if cluster == [] then pending == [] && clusterOld == [] && clusterDsts == {} && lo == i
    else
      && lo < i && IsRead(code[lo])
      && cluster == Reads(code[lo..i]) && Instrs(pending) == Rest(code[lo..i])
      && BlockEnd(quiet, code, lo) == ClusterEnd(quiet, code, i, clusterDsts)
      && |clusterOld| == |cluster| && clusterOld[0] == lo
      && (forall k :: 0 <= k < |clusterOld| ==> lo <= clusterOld[k] < i)
      && (forall k :: 0 <= k < |pending| ==> lo < pending[k].0 < i)
      && Positions(code, lo, i, clusterOld, pending)
  }

  lemma ReadJoins(quiet: set<nat>, code: seq<Instr>, lo: nat, i: nat, cluster: seq<ReadOp>, clusterOld: seq<nat>,
                  clusterDsts: set<nat>, pending: seq<(nat, Instr)>)
    requires i < |code| && IsRead(code[i]) && OpenAt(quiet, code, lo, i, cluster, clusterOld, clusterDsts, pending)
    ensures OpenAt(quiet, code, lo, i + 1, cluster + [AsReadOp(code[i])], clusterOld + [i], clusterDsts + {code[i].dst}, pending)
  {
    hide Breaker, Sources, Reads, Rest, ClusterEnd, Positions;
    Grow(code, lo, i);
    EndAtRead(quiet, code, i, clusterDsts);
    PositionsNone(code, i);
    PositionsRead(code, lo, i, clusterOld, pending);
    assert clusterDsts == {} ==> clusterDsts + {code[i].dst} == {code[i].dst};
  }

  lemma EndAtRead(quiet: set<nat>, code: seq<Instr>, i: nat, dsts: set<nat>)
    requires i < |code| && IsRead(code[i])
    ensures ClusterEnd(quiet, code, i, dsts) == ClusterEnd(quiet, code, i + 1, dsts + {code[i].dst})
    ensures Reads([]) == [] && Rest([]) == []
  {
    hide Breaker, Sources;
  }

  lemma Grow(code: seq<Instr>, lo: nat, i: nat)
    requires lo <= i < |code|
    ensures Reads(code[lo..i + 1]) == Reads(code[lo..i]) + if IsRead(code[i]) then [AsReadOp(code[i])] else []
    ensures Rest(code[lo..i + 1]) == Rest(code[lo..i]) + if IsRead(code[i]) then [] else [code[i]]
    ensures code[lo..i + 1] == code[lo..i] + [code[i]] && code[i..i] == []
  {
    assert code[lo..i + 1][..i - lo] == code[lo..i];
  }

  lemma Closed(quiet: set<nat>, f: Function, out: Function, g: Function, bounds: seq<nat>, starts: seq<nat>,
               idxMap: seq<Option<nat>>, idxMap': seq<Option<nat>>, jumpOld: map<nat, nat>, hi: nat)
    requires |bounds| == |starts| > 0 && Copied(quiet, f, out, bounds, starts)
    requires Mapped(f, out.code, bounds, starts, idxMap, jumpOld)
    requires out.code <= g.code && out.groups <= g.groups && g.consts == out.consts
    requires bounds[|bounds| - 1] <= hi <= |f.code| && |Reads(f.code[bounds[|bounds| - 1]..hi])| == 1 ==> g.groups == out.groups
    requires forall p :: |out.code| <= p < |g.code| ==> !IsJump(g.code[p])
    requires starts[|starts| - 1] == |out.code| < |g.code|
    requires var lo := bounds[|bounds| - 1];
      && lo < hi <= |f.code| && IsRead(f.code[lo]) && hi == BlockEnd(quiet, f.code, lo)
      && ClusterAt(f, g, lo, hi, |out.code|, |g.code|)
      && |idxMap'| == |idxMap| == |f.code| && idxMap'[lo] == Some(|out.code|)
      && (forall x :: 0 <= x < lo ==> idxMap'[x] == idxMap[x])
      && forall x :: lo <= x < hi ==> MappedAt(f.code, lo, x, |out.code|, idxMap')
    ensures Copied(quiet, f, g, bounds + [hi], starts + [|g.code|])
    ensures Mapped(f, g.code, bounds + [hi], starts + [|g.code|], idxMap', jumpOld)
  {
    hide Copied, Mapped, Breaker, ClusterAt, BlockEnd, IsJump;
    CopiedBelow(quiet, f, out, bounds, starts);
    CopyMore(quiet, f, out, g, bounds, starts, hi);
    BoundsRise(quiet, f, out, bounds, starts);
    MapCluster(quiet, f, out.code, g.code, bounds, starts, idxMap, idxMap', jumpOld, hi);
  }

  lemma MapCluster(quiet: set<nat>, f: Function, code: seq<Instr>, code': seq<Instr>, bounds: seq<nat>, starts: seq<nat>,
                   idxMap: seq<Option<nat>>, idxMap': seq<Option<nat>>, jumpOld: map<nat, nat>, hi: nat)
    requires |bounds| == |starts| > 0 && Mapped(f, code, bounds, starts, idxMap, jumpOld)
    requires code <= code' && forall p :: |code| <= p < |code'| ==> !IsJump(code'[p])
    requires |idxMap'| == |idxMap|
    requires var lo, s := bounds[|bounds| - 1], starts[|starts| - 1];
      && lo < |f.code| && IsRead(f.code[lo]) && idxMap'[lo] == Some(s)
      && (forall x :: 0 <= x < lo ==> idxMap'[x] == idxMap[x])
      && (forall j :: 0 <= j < |bounds| - 1 ==> Rises(bounds, j, lo))
      && (forall x :: lo <= x < hi ==> MappedAt(f.code, lo, x, s, idxMap'))
    ensures Mapped(f, code', bounds + [hi], starts + [|code'|], idxMap', jumpOld)
  {
    hide MappedAt;
    var bounds', starts' := bounds + [hi], starts + [|code'|];
    forall j | 0 <= j < |bounds| - 1 ensures bounds[j] < bounds[|bounds| - 1] {
      assert Rises(bounds, j, bounds[|bounds| - 1]);
    }
    forall j, x | InBlock(bounds', j, x)
      ensures MappedAt(f.code, bounds'[j], x, starts'[j], idxMap')
    {
      if j < |bounds| - 1 {
        assert InBlock(bounds, j, x) && MappedAt(f.code, bounds[j], x, starts[j], idxMap) && Rises(bounds, j, bounds[|bounds| - 1]);
        SameMapped(f.code, bounds[j], x, starts[j], idxMap, idxMap');
      }
    }
  }

  lemma SameMapped(code: seq<Instr>, lo: nat, x: nat, s: nat, idxMap: seq<Option<nat>>, idxMap': seq<Option<nat>>)
    requires MappedAt(code, lo, x, s, idxMap) && |idxMap'| == |idxMap| && idxMap'[x] == idxMap[x]
    ensures MappedAt(code, lo, x, s, idxMap')
  {
  }

  lemma BoundsRise(quiet: set<nat>, f: Function, g: Function, bounds: seq<nat>, starts: seq<nat>)
    requires Copied(quiet, f, g, bounds, starts)
    ensures var hi := bounds[|bounds| - 1]; forall j :: 0 <= j < |bounds| - 1 ==> Rises(bounds, j, hi)
  {
    hide BlockEnd, ClusterAt;
    var hi := bounds[|bounds| - 1];
    forall j | 0 <= j < |bounds| - 1 ensures Rises(bounds, j, hi) {
      assert BlockCopied(quiet, f, g, bounds, starts, j);
      if j + 1 < |bounds| - 1 {
        assert BlockCopied(quiet, f, g, bounds, starts, j + 1);
      }
    }
  }

  lemma MapPlain(quiet: set<nat>, f: Function, code: seq<Instr>, code': seq<Instr>, bounds: seq<nat>, starts: seq<nat>,
                 idxMap: seq<Option<nat>>, idxMap': seq<Option<nat>>, jumpOld: map<nat, nat>, jumpOld': map<nat, nat>, i: nat)
    requires |bounds| == |starts| > 0 && Mapped(f, code, bounds, starts, idxMap, jumpOld)
    requires i < |f.code| && bounds[|bounds| - 1] == i && starts[|starts| - 1] == |code|
    requires code' == code + [f.code[i]] && idxMap' == idxMap[i := Some(|code|)]
    requires jumpOld' == if IsJump(f.code[i]) then jumpOld[|code| := i] else jumpOld
    requires forall j :: 0 <= j < |bounds| - 1 ==> Rises(bounds, j, i) && starts[j] < |code|
    ensures Mapped(f, code', bounds + [i + 1], starts + [|code'|], idxMap', jumpOld')
  {
    var bounds', starts' := bounds + [i + 1], starts + [|code'|];
    forall j, x | InBlock(bounds', j, x)
      ensures MappedAt(f.code, bounds'[j], x, starts'[j], idxMap')
    {
      if j < |bounds| - 1 {
        assert InBlock(bounds, j, x) && MappedAt(f.code, bounds[j], x, starts[j], idxMap) && Rises(bounds, j, bounds[|bounds| - 1]);
      }
    }
  }

  /** New position of an old jump target: the next mapped position, or the end. */
  function MapOrEnd(idxMap: seq<Option<nat>>, newLen: nat, t: int): (r: nat)
    ensures t < 0 ==> r == 0
    ensures t >= |idxMap| ==> r == newLen
    ensures 0 <= t < |idxMap| && idxMap[t].Some? ==> r == idxMap[t].value
    decreases |idxMap| - t
  {
    if t < 0 then 0
    else if t >= |idxMap| then newLen
    else if idxMap[t].Some? then idxMap[t].value
    else MapOrEnd(idxMap, newLen, t + 1)
  }

  /** The instruction at new position `p` with its jump redirected. */
  function Redirect(idxMap: seq<Option<nat>>, jumpOld: map<nat, nat>, newLen: nat, i: Instr, p: nat): Instr
    requires IsJump(i) ==> p in jumpOld
  {
    if IsJump(i) then i.(offset := MapOrEnd(idxMap, newLen, Target(i, jumpOld[p])) - p - 1) else i
  }

  method PatchJumps(code: seq<Instr>, idxMap: seq<Option<nat>>, jumpOld: map<nat, nat>) returns (r: seq<Instr>)
    requires forall p :: 0 <= p < |code| && IsJump(code[p]) ==> p in jumpOld
    ensures |r| == |code|
    ensures forall p :: 0 <= p < |code| ==> r[p] == Redirect(idxMap, jumpOld, |code|, code[p], p)
  {
    r := code;
    var p := 0;
    while p < |code|
      invariant p <= |code| == |r|
      invariant forall q :: 0 <= q < p ==> r[q] == Redirect(idxMap, jumpOld, |code|, code[q], q)
      invariant forall q :: p <= q < |code| ==> r[q] == code[q]
    {
      r := r[p := Redirect(idxMap, jumpOld, |code|, code[p], p)];
      p := p + 1;
    }
  }

  lemma ClusterUnpatched(quiet: set<nat>, f: Function, g: Function, h: Function, lo: nat, s: nat, e: nat)
    requires lo < |f.code| && IsRead(f.code[lo]) && ClusterAt(f, g, lo, BlockEnd(quiet, f.code, lo), s, e)
    requires |h.code| == |g.code| && h.groups == g.groups
    requires forall p :: 0 <= p < |g.code| && !IsJump(g.code[p]) ==> h.code[p] == g.code[p]
    ensures ClusterAt(f, h, lo, BlockEnd(quiet, f.code, lo), s, e)
  {
    hide BlockEnd, Reads, Breaker;
    var c := f.code[lo..BlockEnd(quiet, f.code, lo)];
    BlockQuiet(quiet, f.code, lo);
    RestNoJumps(quiet, c);
    forall i | s + 1 <= i < e ensures h.code[i] == g.code[i] {
      assert g.code[s + 1..e][i - s - 1] == Rest(c)[i - s - 1];
    }
    assert h.code[s + 1..e] == g.code[s + 1..e];
  }

  lemma RestNoJumps(quiet: set<nat>, c: seq<Instr>)
    requires AllQuiet(quiet, c)
    ensures forall i :: 0 <= i < |Rest(c)| ==> !IsJump(Rest(c)[i])
  {
    RestQuiet(quiet, c);
    forall i | 0 <= i < |Rest(c)| ensures !IsJump(Rest(c)[i]) {
      assert !Breaker(quiet, Rest(c)[i]);
    }
  }

  /** Copying every block and redirecting every jump lays the function out anew. */
  lemma PatchedLayout(quiet: set<nat>, f: Function, g: Function, h: Function, bounds: seq<nat>, starts: seq<nat>,
                      idxMap: seq<Option<nat>>, jumpOld: map<nat, nat>)
    requires |bounds| == |starts| > 0 && Copied(quiet, f, g, bounds, starts)
    requires Mapped(f, g.code, bounds, starts, idxMap, jumpOld)
    requires bounds[|bounds| - 1] == |f.code| && starts[|starts| - 1] == |g.code|
    requires h.consts == g.consts && h.groups == g.groups && |h.code| == |g.code|
    requires forall p :: 0 <= p < |g.code| ==> h.code[p] == Redirect(idxMap, jumpOld, |g.code|, g.code[p], p)
    ensures Layout(quiet, f, h, bounds, starts)
  {
    hide ClusterAt, BlockEnd;
    forall j | 0 <= j < |bounds| - 1
      ensures bounds[j] < |f.code| && bounds[j + 1] == BlockEnd(quiet, f.code, bounds[j])
    {
      assert BlockCopied(quiet, f, g, bounds, starts, j);
    }
    assert IsBounds(quiet, f.code, bounds);
    forall j | 0 <= j < |bounds| - 1 ensures BlockLaid(f, h, bounds, starts, j) {
      assert BlockCopied(quiet, f, g, bounds, starts, j);
      var lo, s := bounds[j], starts[j];
      if IsRead(f.code[lo]) {
        ClusterUnpatched(quiet, f, g, h, lo, s, starts[j + 1]);
      } else if IsJump(f.code[lo]) {
        var t := Target(f.code[lo], lo);
        assert Target(h.code[s], s) == MapOrEnd(idxMap, |g.code|, t);
        forall m | 0 <= m < |bounds| && bounds[m] == t ensures MapOrEnd(idxMap, |g.code|, t) == starts[m] {
          if m < |bounds| - 1 {
            assert idxMap[bounds[m]] == Some(starts[m]);
          }
        }
        forall m | 0 <= m < |bounds| - 1 && bounds[m] <= t < bounds[m + 1] <= |f.code|
          ensures MapOrEnd(idxMap, |g.code|, t) == Image(f.code, bounds[m], t, starts[m])
        {
          assert MappedAt(f.code, bounds[m], t, starts[m], idxMap);
        }
      }
    }
  }

  /** The whole pass over one function. */
  method OptimizeFn(quiet: set<nat>, f: Function) returns (g: Function, ghost bounds: seq<nat>, ghost starts: seq<nat>)
    ensures Layout(quiet, f, g, bounds, starts)
  {
    hide Copied, Mapped, Layout, BlockEnd, ClusterEnd, Positions, Reads, Rest, Redirect, MapOrEnd, IsJump;
    var pass := new Pass(quiet, f);
    var i := 0;
    while i < |f.code|
      invariant i <= |f.code| && pass.quiet == quiet && pass.f == f && pass.Valid(i)
    {
      pass.Visit(i);
      i := i + 1;
    }
    assert pass.cluster != [] ==> ClusterEnd(quiet, f.code, i, pass.clusterDsts) == i by {
      EndIsEnd(quiet, f.code, pass.clusterDsts);
    }
    pass.Flush(i);
    JumpsMapped(f, pass.newCode, pass.bounds, pass.starts, pass.idxMap, pass.jumpOld);
    var code := PatchJumps(pass.newCode, pass.idxMap, pass.jumpOld);
    g := Function(code, f.consts, pass.groups);
    bounds, starts := pass.bounds, pass.starts;
    PatchedLayout(quiet, f, pass.Out(), g, bounds, starts, pass.idxMap, pass.jumpOld);
  }

  lemma EndIsEnd(quiet: set<nat>, code: seq<Instr>, dsts: set<nat>)
    ensures ClusterEnd(quiet, code, |code|, dsts) == |code|
  {
  }

  lemma JumpsMapped(f: Function, code: seq<Instr>, bounds: seq<nat>, starts: seq<nat>,
                    idxMap: seq<Option<nat>>, jumpOld: map<nat, nat>)
    requires |bounds| == |starts| > 0 && Mapped(f, code, bounds, starts, idxMap, jumpOld)
    ensures forall p :: 0 <= p < |code| && IsJump(code[p]) ==> p in jumpOld
  {
  }
}
