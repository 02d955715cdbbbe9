/** Optimizing twice is optimizing once. */
module OptimizeTwice {
  import opened Options
  import opened Machine
  import opened Clusters
  import opened OptimizeCorrect

  // ---------- what the pass leaves behind ----------

  /** Within a cluster that starts at `lo` there is no second read. */
  ghost predicate LoneRead(quiet: set<nat>, code: seq<Instr>, lo: nat)
    requires lo < |code|
  {
    forall q :: lo < q < BlockEnd(quiet, code, lo) ==> !IsRead(code[q])
  }

  /** No two reads left to batch, and every jump stays within the code. */
  ghost predicate Settled(quiet: set<nat>, code: seq<Instr>) {
    && (forall p :: 0 <= p < |code| && IsRead(code[p]) ==> LoneRead(quiet, code, p))
    && (forall p :: 0 <= p < |code| && IsJump(code[p]) ==> 0 <= Target(code[p], p) <= |code|)
  }

  lemma LaidBlock(quiet: set<nat>, f: Function, g: Function, bounds: seq<nat>, starts: seq<nat>, j: nat)
    requires Layout(quiet, f, g, bounds, starts) && j < |bounds| - 1
    ensures BlockLaid(f, g, bounds, starts, j) && starts[j] < starts[j + 1] <= |g.code|
    ensures bounds[j + 1] == BlockEnd(quiet, f.code, bounds[j])
  {
    hide BlockEnd, TargetOk, AllAlone;
    assert BlockLaid(f, g, bounds, starts, j);
  }

  lemma {:induction false} StartsRise(quiet: set<nat>, f: Function, g: Function, bounds: seq<nat>, starts: seq<nat>, i: nat, j: nat)
    requires Layout(quiet, f, g, bounds, starts) && i <= j < |bounds|
    ensures starts[i] + (j - i) <= starts[j] <= |g.code|
    decreases j
  {
    hide Layout, BlockLaid;
    LayoutSize(quiet, f, g, bounds, starts);
    if i < j {
      StartsRise(quiet, f, g, bounds, starts, i, j - 1);
      LaidBlock(quiet, f, g, bounds, starts, j - 1);
    } else {
      StartIn(quiet, f, g, bounds, starts, i);
    }
  }

  lemma StartIn(quiet: set<nat>, f: Function, g: Function, bounds: seq<nat>, starts: seq<nat>, i: nat)
    requires Layout(quiet, f, g, bounds, starts) && i < |bounds|
    ensures starts[i] <= |g.code|
  {
    hide BlockLaid, AllAlone;
    if i < |bounds| - 1 {
      LaidBlock(quiet, f, g, bounds, starts, i);
    }
  }

  /** Every position lies in some block. */
  lemma {:induction false} BlockOf(marks: seq<nat>, p: nat, n: nat) returns (j: nat)
    requires n < |marks| && marks[0] <= p < marks[n]
    ensures j < n && marks[j] <= p < marks[j + 1]
    decreases n
  {
    if marks[n - 1] <= p {
      j := n - 1;
    } else {
      j := BlockOf(marks, p, n - 1);
    }
  }

  lemma ClusterIs(f: Function, g: Function, bounds: seq<nat>, starts: seq<nat>, j: nat)
    requires j < |bounds| - 1 && |bounds| == |starts| && BlockLaid(f, g, bounds, starts, j)
    requires IsRead(f.code[bounds[j]]) && starts[j] < |g.code| && IsRead(g.code[starts[j]])
    ensures var (lo, hi, s, e) := (bounds[j], bounds[j + 1], starts[j], starts[j + 1]);
      var c := f.code[lo..hi];
      && |Reads(c)| == 1 && g.code[s] == f.code[lo] && e == s + 1 + |Rest(c)| <= |g.code| && g.code[s + 1..e] == Rest(c)
  {
    hide Reads, Rest;
  }

  /** A cluster of one read, laid out, ends where it ended: the same instruction closes it. */
  lemma LoneEnds(quiet: set<nat>, f: Function, g: Function, bounds: seq<nat>, starts: seq<nat>, j: nat)
    requires Layout(quiet, f, g, bounds, starts) && j < |bounds| - 1 && IsRead(f.code[bounds[j]])
    requires starts[j] < |g.code| && IsRead(g.code[starts[j]])
    ensures BlockEnd(quiet, g.code, starts[j]) == starts[j + 1]
    ensures forall q :: starts[j] < q < starts[j + 1] ==> !IsRead(g.code[q])
  {
    hide Breaker, Sources, AllAlone, TargetOk, SingleAt, Reads, Rest, ClusterEnd, IsBounds, BlockLaid;
    LaidBlock(quiet, f, g, bounds, starts, j);
    var (lo, hi, s, e) := (bounds[j], bounds[j + 1], starts[j], starts[j + 1]);
    var c := f.code[lo..hi];
    ClusterIs(f, g, bounds, starts, j);
    OneReadShape(c);
    forall q | s < q < e ensures g.code[q] == f.code[lo + (q - s)] && !IsRead(g.code[q]) {
      assert g.code[q] == g.code[s + 1..e][q - s - 1] == c[1..][q - s - 1];
      assert c[q - s] == f.code[lo + (q - s)];
    }
    assert e - s == hi - lo;
    assert Closes(quiet, g.code, e, {f.code[lo].dst}) by { CloserKept(quiet, f, g, bounds, starts, j); }
    var d := {f.code[lo].dst};
    ClusterScan(quiet, f.code, lo + 1, hi, d);
    forall q | s + 1 <= q < e ensures !Closes(quiet, g.code, q, d) && !IsRead(g.code[q]) {
      assert !Closes(quiet, f.code, lo + (q - s), d);
    }
    ScanEnds(quiet, g.code, s + 1, e, d);
  }

  /** The instruction at `i` ends a cluster with destinations `dsts`. */
  ghost predicate Closes(quiet: set<nat>, code: seq<Instr>, i: nat, dsts: set<nat>)
    requires i <= |code|
  {
    i == |code| || (!IsRead(code[i]) && (Breaker(quiet, code[i]) || Sources(code[i]) * dsts != {}))
  }

  lemma {:induction false} ScanEnds(quiet: set<nat>, code: seq<Instr>, i: nat, e: nat, dsts: set<nat>)
    requires i <= e <= |code| && Closes(quiet, code, e, dsts)
    requires forall q :: i <= q < e ==> !IsRead(code[q]) && !Closes(quiet, code, q, dsts)
    ensures ClusterEnd(quiet, code, i, dsts) == e
    decreases e - i
  {
    hide Breaker, Sources;
    if i < e {
      assert !Closes(quiet, code, i, dsts);
      ScanEnds(quiet, code, i + 1, e, dsts);
    }
  }

  /** The converse for a stretch without reads. */
  lemma {:induction false} ClusterScan(quiet: set<nat>, code: seq<Instr>, i: nat, e: nat, dsts: set<nat>)
    requires i <= e <= |code| && ClusterEnd(quiet, code, i, dsts) == e
    requires forall q :: i <= q < e ==> !IsRead(code[q])
    ensures Closes(quiet, code, e, dsts) && forall q :: i <= q < e ==> !Closes(quiet, code, q, dsts)
    decreases e - i
  {
    hide Breaker, Sources;
    if i < e {
      ClusterScan(quiet, code, i + 1, e, dsts);
    } else {
      EndsHere(quiet, code, i, dsts);
    }
  }

  lemma EndsHere(quiet: set<nat>, code: seq<Instr>, i: nat, dsts: set<nat>)
    requires i <= |code| && ClusterEnd(quiet, code, i, dsts) == i
    ensures Closes(quiet, code, i, dsts)
  {
    hide Breaker, Sources;
  }

  lemma Snoc(c: seq<Instr>)
    requires |c| > 0
    ensures var n := |c| - 1;
      && Reads(c) == Reads(c[..n]) + (if IsRead(c[n]) then [AsReadOp(c[n])] else [])
      && Rest(c) == Rest(c[..n]) + if IsRead(c[n]) then [] else [c[n]]
  {
  }

  /** A cluster with one read is that read and then the rest. */
  lemma {:induction false} OneReadShape(c: seq<Instr>)
    requires |c| > 0 && IsRead(c[0])
    ensures |Reads(c)| == 1 <==> forall i :: 1 <= i < |c| ==> !IsRead(c[i])
    ensures |Reads(c)| == 1 ==> Rest(c) == c[1..]
    decreases |c|
  {
    hide Reads, Rest, AsReadOp;
    var n := |c| - 1;
    Snoc(c);
    if n > 0 {
      FirstRead(c[..n]);
      OneReadShape(c[..n]);
      assert c[1..] == c[..n][1..] + [c[n]];
      assert forall i :: 1 <= i < n ==> c[..n][i] == c[i];
    } else {
      assert c[..0] == [] && Reads([]) == [] && Rest([]) == [] by { NoReads(); }
    }
  }

  lemma NoReads()
    ensures Reads([]) == [] && Rest([]) == []
  {
  }

  /** What closed a cluster in the original closes its image. */
  lemma CloserKept(quiet: set<nat>, f: Function, g: Function, bounds: seq<nat>, starts: seq<nat>, j: nat)
    requires Layout(quiet, f, g, bounds, starts) && j < |bounds| - 1 && IsRead(f.code[bounds[j]])
    requires forall q :: bounds[j] < q < bounds[j + 1] ==> !IsRead(f.code[q])
    ensures starts[j + 1] <= |g.code| && Closes(quiet, g.code, starts[j + 1], {f.code[bounds[j]].dst})
  {
    hide AllAlone, TargetOk, ClusterEnd, ClusterAt;
    LaidBlock(quiet, f, g, bounds, starts, j);
    var d := {f.code[bounds[j]].dst};
    ClusterScan(quiet, f.code, bounds[j] + 1, bounds[j + 1], d);
    if j + 1 < |bounds| - 1 {
      LaidBlock(quiet, f, g, bounds, starts, j + 1);
      var i, i' := f.code[bounds[j + 1]], g.code[starts[j + 1]];
      assert Sources(i') == Sources(i) && Breaker(quiet, i') == Breaker(quiet, i);
    }
  }

  /** A read in the output is the one read of a cluster. */
  lemma ReadsSettle(quiet: set<nat>, f: Function, g: Function, bounds: seq<nat>, starts: seq<nat>, p: nat)
    requires Layout(quiet, f, g, bounds, starts) && p < |g.code| && IsRead(g.code[p])
    ensures LoneRead(quiet, g.code, p)
  {
    hide Breaker, Sources, AllAlone, TargetOk, BlockEnd, Reads;
    var j := BlockOf(starts, p, |starts| - 1);
    LaidBlock(quiet, f, g, bounds, starts, j);
    var s, e := starts[j], starts[j + 1];
    if IsRead(f.code[bounds[j]]) {
      var c := f.code[bounds[j]..bounds[j + 1]];
      forall q | s < q < e ensures !IsRead(g.code[q]) {
        assert g.code[q] == g.code[s + 1..e][q - s - 1] == Rest(c)[q - s - 1];
      }
      LoneEnds(quiet, f, g, bounds, starts, j);
    }
  }

  /** A jump in the output stays within it. */
  lemma JumpsSettle(quiet: set<nat>, f: Function, g: Function, bounds: seq<nat>, starts: seq<nat>, p: nat)
    requires Layout(quiet, f, g, bounds, starts) && p < |g.code| && IsJump(g.code[p])
    ensures 0 <= Target(g.code[p], p) <= |g.code|
  {
    hide AllAlone, BlockEnd, Breaker;
    var j := BlockOf(starts, p, |starts| - 1);
    LaidBlock(quiet, f, g, bounds, starts, j);
    var s, e := starts[j], starts[j + 1];
    if IsRead(f.code[bounds[j]]) {
      var c := f.code[bounds[j]..bounds[j + 1]];
      BlockQuiet(quiet, f.code, bounds[j]);
      RestQuiet(quiet, c);
      forall q | s < q < e ensures !IsJump(g.code[q]) {
        assert g.code[q] == g.code[s + 1..e][q - s - 1] == Rest(c)[q - s - 1];
        JumpBreaks(quiet, g.code[q]);
      }
    } else {
      TargetIn(quiet, f, g, bounds, starts, Target(f.code[bounds[j]], bounds[j]), Target(g.code[p], p));
    }
  }

  lemma JumpBreaks(quiet: set<nat>, i: Instr)
    ensures IsJump(i) ==> Breaker(quiet, i)
  {
  }

  lemma TargetIn(quiet: set<nat>, f: Function, g: Function, bounds: seq<nat>, starts: seq<nat>, t: int, t': int)
    requires Layout(quiet, f, g, bounds, starts) && |bounds| == |starts| && TargetOk(f, g, bounds, starts, t, t')
    ensures 0 <= t' <= |g.code|
  {
    hide AllAlone, BlockEnd, Breaker, SingleAt;
    if 0 <= t < |f.code| {
      var m := BlockOf(bounds, t, |bounds| - 1);
      LaidBlock(quiet, f, g, bounds, starts, m);
      assert t' == Image(f.code, bounds[m], t, starts[m]);
      if IsRead(f.code[bounds[m]]) {
        RestPrefix(f.code, bounds[m], t, bounds[m + 1]);
      } else {
        PlainEnd(quiet, f.code, bounds[m]);
      }
    }
  }

  lemma PlainEnd(quiet: set<nat>, code: seq<Instr>, lo: nat)
    requires lo < |code| && !IsRead(code[lo])
    ensures BlockEnd(quiet, code, lo) == lo + 1
  {
  }

  lemma {:induction false} RestPrefix(code: seq<Instr>, lo: nat, t: nat, hi: nat)
    requires lo <= t <= hi <= |code|
    ensures |Rest(code[lo..t])| <= |Rest(code[lo..hi])|
    decreases hi
  {
    if t < hi {
      RestPrefix(code, lo, t, hi - 1);
      assert code[lo..hi][..hi - lo - 1] == code[lo..hi - 1];
    }
  }

  lemma OutputSettled(quiet: set<nat>, f: Function, g: Function, bounds: seq<nat>, starts: seq<nat>)
    requires Layout(quiet, f, g, bounds, starts)
    ensures Settled(quiet, g.code)
  {
    hide Layout, LoneRead, IsRead, IsJump;
    forall p | 0 <= p < |g.code| && IsRead(g.code[p]) ensures LoneRead(quiet, g.code, p) {
      ReadsSettle(quiet, f, g, bounds, starts, p);
    }
    forall p | 0 <= p < |g.code| && IsJump(g.code[p]) ensures 0 <= Target(g.code[p], p) <= |g.code| {
      JumpsSettle(quiet, f, g, bounds, starts, p);
    }
  }

  // ---------- settled code is left as it is ----------

  /** One block of settled code keeps its size and place. */
  lemma BlockKept(quiet: set<nat>, g: Function, h: Function, bounds: seq<nat>, starts: seq<nat>, j: nat)
    requires Layout(quiet, g, h, bounds, starts) && Settled(quiet, g.code) && j < |bounds| - 1
    ensures bounds[j] < bounds[j + 1] <= |g.code| && starts[j] < starts[j + 1] <= |h.code|
    ensures (starts[j + 1] as int) - starts[j] == (bounds[j + 1] as int) - bounds[j] && Alone(g.code, bounds, j)
    ensures IsRead(g.code[bounds[j]]) ==> h.code[starts[j]..starts[j + 1]] == g.code[bounds[j]..bounds[j + 1]]
  {
    hide AllAlone, TargetOk, ClusterEnd, Breaker, BlockEnd, Reads, Rest;
    LaidBlock(quiet, g, h, bounds, starts, j);
    if IsRead(g.code[bounds[j]]) {
      var (lo, hi, s, e) := (bounds[j], bounds[j + 1], starts[j], starts[j + 1]);
      var c := g.code[lo..hi];
      assert LoneRead(quiet, g.code, lo);
      OneReadShape(c);
      assert h.code[s..e] == [h.code[s]] + h.code[s + 1..e];
      assert c == [c[0]] + c[1..];
    } else {
      PlainEnd(quiet, g.code, bounds[j]);
    }
  }

  lemma {:induction false} SamePlaces(quiet: set<nat>, g: Function, h: Function, bounds: seq<nat>, starts: seq<nat>, n: nat)
    requires Layout(quiet, g, h, bounds, starts) && Settled(quiet, g.code) && n < |bounds|
    ensures |starts| == |bounds| && forall j :: 0 <= j <= n ==> starts[j] == bounds[j]
    decreases n
  {
    hide Layout, Settled;
    LayoutSize(quiet, g, h, bounds, starts);
    if n > 0 {
      SamePlaces(quiet, g, h, bounds, starts, n - 1);
      BlockKept(quiet, g, h, bounds, starts, n - 1);
    }
  }

  /** With every block in its place, every target is its own image. */
  lemma SameTarget(quiet: set<nat>, g: Function, h: Function, bounds: seq<nat>, t: int, t': int)
    requires Layout(quiet, g, h, bounds, bounds) && Settled(quiet, g.code)
    requires TargetOk(g, h, bounds, bounds, t, t') && 0 <= t <= |g.code|
    ensures t' == t
  {
    hide AllAlone, BlockEnd, BlockLaid;
    if t < |g.code| {
      var m := BlockOf(bounds, t, |bounds| - 1);
      LaidBlock(quiet, g, h, bounds, bounds, m);
      assert t' == Image(g.code, bounds[m], t, bounds[m]);
      if t > bounds[m] {
        assert IsRead(g.code[bounds[m]]) by {
          if !IsRead(g.code[bounds[m]]) {
            PlainEnd(quiet, g.code, bounds[m]);
          }
        }
        assert LoneRead(quiet, g.code, bounds[m]);
        OneReadShape(g.code[bounds[m]..t]);
      }
    }
  }

  lemma SameCode(quiet: set<nat>, g: Function, h: Function, bounds: seq<nat>, p: nat)
    requires Layout(quiet, g, h, bounds, bounds) && Settled(quiet, g.code) && p < |g.code|
    ensures p < |h.code| && h.code[p] == g.code[p]
  {
    hide AllAlone, BlockEnd, TargetOk, ClusterAt;
    var j := BlockOf(bounds, p, |bounds| - 1);
    LaidBlock(quiet, g, h, bounds, bounds, j);
    BlockKept(quiet, g, h, bounds, bounds, j);
    var lo, hi := bounds[j], bounds[j + 1];
    if IsRead(g.code[lo]) {
      assert h.code[p] == h.code[lo..hi][p - lo] && g.code[p] == g.code[lo..hi][p - lo];
    } else {
      PlainEnd(quiet, g.code, lo);
      if IsJump(g.code[lo]) {
        SameTarget(quiet, g, h, bounds, Target(g.code[lo], lo), Target(h.code[lo], lo));
      }
    }
  }

  /** A second run finds nothing to do: whatever the pass made of a function, the pass leaves it
      as it is, code, constants and batches. */
  lemma Idempotent(quiet: set<nat>, f: Function, g: Function, bounds: seq<nat>, starts: seq<nat>,
                   h: Function, bounds': seq<nat>, starts': seq<nat>)
    requires Layout(quiet, f, g, bounds, starts) && Layout(quiet, g, h, bounds', starts')
    ensures h == g
  {
    hide BlockLaid, Settled, AllAlone, IsBounds;
    OutputSettled(quiet, f, g, bounds, starts);
    LayoutSize(quiet, g, h, bounds', starts');
    SamePlaces(quiet, g, h, bounds', starts', |bounds'| - 1);
    assert starts' == bounds';
    assert |h.code| == |g.code| by { LastBound(quiet, g.code, bounds'); }
    forall p | 0 <= p < |g.code| ensures h.code[p] == g.code[p] {
      SameCode(quiet, g, h, bounds', p);
    }
    forall j | 0 <= j < |bounds'| - 1 ensures Alone(g.code, bounds', j) {
      BlockKept(quiet, g, h, bounds', starts', j);
    }
    assert AllAlone(g.code, bounds') by { AloneAll(g.code, bounds'); }
  }

  lemma LastBound(quiet: set<nat>, code: seq<Instr>, bounds: seq<nat>)
    requires IsBounds(quiet, code, bounds)
    ensures |bounds| > 0 && bounds[|bounds| - 1] == |code|
  {
  }

  lemma AloneAll(code: seq<Instr>, bounds: seq<nat>)
    requires forall j :: 0 <= j < |bounds| - 1 ==> Alone(code, bounds, j)
    ensures AllAlone(code, bounds)
  {
  }
}
