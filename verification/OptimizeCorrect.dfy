/** Code laid out by the optimizer, block by block, does what the original code does. */
module OptimizeCorrect {
  import opened Options
  import opened Machine
  import opened Clusters

  predicate IsJump(i: Instr) { i.Jump? || i.JumpIfFalse? }

  /** Where a jump at `pc` goes. */
  function Target(i: Instr, pc: int): int
    requires IsJump(i)
  {
    pc + 1 + i.offset
  }

  /** The block boundaries of `code`: uniquely determined, from 0 to the end. */
  ghost predicate IsBounds(quiet: set<nat>, code: seq<Instr>, bounds: seq<nat>) {
    && |bounds| > 0 && bounds[0] == 0 && bounds[|bounds| - 1] == |code|
    && forall j :: 0 <= j < |bounds| - 1 ==> bounds[j] < |code| && bounds[j + 1] == BlockEnd(quiet, code, bounds[j])
  }

  /** The block boundaries from `lo` on, computed from the code alone. */
  function BoundsFrom(quiet: set<nat>, code: seq<Instr>, lo: nat): (r: seq<nat>)
    requires lo <= |code|
    decreases |code| - lo
  {
    [lo] + if lo == |code| then [] else BoundsFrom(quiet, code, BlockEnd(quiet, code, lo))
  }

  function BoundsOf(quiet: set<nat>, code: seq<Instr>): seq<nat> { BoundsFrom(quiet, code, 0) }

  lemma {:induction false} BoundsUnique(quiet: set<nat>, code: seq<Instr>, bounds: seq<nat>, j: nat)
    requires IsBounds(quiet, code, bounds) && j < |bounds|
    ensures bounds[j] <= |code| && bounds[j..] == BoundsFrom(quiet, code, bounds[j])
    decreases |bounds| - j
  {
    if j < |bounds| - 1 {
      BoundsUnique(quiet, code, bounds, j + 1);
      assert bounds[j..] == [bounds[j]] + bounds[j + 1..];
    }
  }

  lemma {:induction false} BoundsFromOk(quiet: set<nat>, code: seq<Instr>, lo: nat)
    requires lo <= |code|
    ensures var r := BoundsFrom(quiet, code, lo);
      && |r| > 0 && r[0] == lo && r[|r| - 1] == |code|
      && forall j :: 0 <= j < |r| - 1 ==> r[j] < |code| && r[j + 1] == BlockEnd(quiet, code, r[j])
    decreases |code| - lo
  {
    hide BlockEnd;
    if lo < |code| {
      BoundsFromOk(quiet, code, BlockEnd(quiet, code, lo));
    }
  }

  /** There is one way to cut code into blocks, and it can be read off the code. */
  lemma BoundsDetermined(quiet: set<nat>, code: seq<Instr>, bounds: seq<nat>)
    ensures IsBounds(quiet, code, bounds) <==> bounds == BoundsOf(quiet, code)
  {
    hide BlockEnd, BoundsFrom;
    BoundsFromOk(quiet, code, 0);
    if IsBounds(quiet, code, bounds) {
      BoundsUnique(quiet, code, bounds, 0);
      assert bounds[0..] == bounds;
    }
  }

  /** `g` issues the reads of cluster `c` at `s`: alone, or as one batch. */
  ghost predicate ReadsAt(g: Function, s: nat, c: seq<Instr>) {
    && s < |g.code| && |c| > 0 && IsRead(c[0])
    && if |Reads(c)| == 1 then g.code[s] == c[0]
       else g.code[s].ReadBatch? && g.code[s].group < |g.groups| && g.groups[g.code[s].group] == Reads(c)
  }

  ghost predicate ClusterAt(f: Function, g: Function, lo: nat, hi: nat, s: nat, e: nat)
    requires lo < hi <= |f.code|
  {
    var c := f.code[lo..hi];
    ReadsAt(g, s, c) && e == s + 1 + |Rest(c)| <= |g.code| && g.code[s + 1..e] == Rest(c)
  }

  /** Where position `t` of the block that starts at `lo` goes when the block is laid out at `s`:
      every read of a cluster to the batch, a deferred instruction to its place after it. */
  ghost function Image(code: seq<Instr>, lo: nat, t: nat, s: nat): nat
    requires lo <= t < |code|
  {
    if t == lo || IsRead(code[t]) then s else s + 1 + |Rest(code[lo..t])|
  }

  /** The image of an old target: block starts map to block starts, past the end to the end, and
      a place inside a cluster to that instruction's own image. */
  ghost predicate TargetOk(f: Function, g: Function, bounds: seq<nat>, starts: seq<nat>, t: int, t': int)
    requires |bounds| == |starts|
  {
    && (t < 0 ==> t' == 0)
    && (t >= |f.code| ==> t' == |g.code|)
    && (forall m :: 0 <= m < |bounds| && bounds[m] == t ==> t' == starts[m])
    && (forall m :: 0 <= m < |bounds| - 1 && bounds[m] <= t < bounds[m + 1] <= |f.code| ==> t' == Image(f.code, bounds[m], t, starts[m]))
  }

  ghost predicate SingleAt(f: Function, g: Function, bounds: seq<nat>, starts: seq<nat>, lo: nat, s: nat)
    requires lo < |f.code| && |bounds| == |starts|
  {
    && s < |g.code|
    && var i, i' := f.code[lo], g.code[s];
       if IsJump(i) then
         && IsJump(i') && i'.(offset := i.offset) == i
         && TargetOk(f, g, bounds, starts, Target(i, lo), Target(i', s))
       else i' == i
  }

  /** Block `j` is one instruction, or a cluster of one read. */
  ghost predicate Alone(code: seq<Instr>, bounds: seq<nat>, j: int) {
    0 <= j < |bounds| - 1 && bounds[j] < bounds[j + 1] <= |code| && IsRead(code[bounds[j]]) ==>
      |Reads(code[bounds[j]..bounds[j + 1]])| == 1
  }

  /** Nothing to batch. */
  ghost predicate AllAlone(code: seq<Instr>, bounds: seq<nat>) {
    forall j :: 0 <= j < |bounds| - 1 ==> Alone(code, bounds, j)
  }

  /** `g` is `f` with every block of `bounds` laid out at the matching place of `starts`; batches
      are added only where there is something to batch. */
  ghost predicate Layout(quiet: set<nat>, f: Function, g: Function, bounds: seq<nat>, starts: seq<nat>) {
    && IsBounds(quiet, f.code, bounds) && |starts| == |bounds|
    && starts[0] == 0 && starts[|starts| - 1] == |g.code|
    && g.consts == f.consts && f.groups <= g.groups && (AllAlone(f.code, bounds) ==> g.groups == f.groups)
    && forall j :: 0 <= j < |bounds| - 1 ==> BlockLaid(f, g, bounds, starts, j)
  }

  ghost predicate BlockLaid(f: Function, g: Function, bounds: seq<nat>, starts: seq<nat>, j: nat)
    requires j < |bounds| - 1 && |bounds| == |starts|
  {
    && bounds[j] < bounds[j + 1] <= |f.code|
    && if IsRead(f.code[bounds[j]]) then ClusterAt(f, g, bounds[j], bounds[j + 1], starts[j], starts[j + 1])
       else SingleAt(f, g, bounds, starts, bounds[j], starts[j]) && starts[j + 1] == starts[j] + 1
  }

  /** What the pass needs of its input, all of it readable off the code: within a cluster no
      deferred instruction names the destination of a later read, every jump lands on a
      block boundary or past the end, and batches already present are well formed. */
  ghost predicate Safe(f: Function, bounds: seq<nat>) {
    && (forall j :: 0 <= j < |bounds| - 1 && bounds[j] < bounds[j + 1] <= |f.code| ==>
          HazardFree(f, f.code[bounds[j]..bounds[j + 1]]))
    && (forall p :: 0 <= p < |f.code| && IsJump(f.code[p]) ==>
          Target(f.code[p], p) >= |f.code| || Target(f.code[p], p) in bounds)
    && (forall p :: 0 <= p < |f.code| && f.code[p].ReadBatch? ==> f.code[p].group < |f.groups|)
  }

  ghost predicate Matched(bounds: seq<nat>, starts: seq<nat>, c: Config, c': Config)
    requires |bounds| == |starts|
  {
    if c.Running? then
      exists j :: 0 <= j < |bounds| && c.pc == bounds[j] && c' == Running(starts[j], c.regs, c.st)
    else c' == c
  }

  // ---------- one block ----------

  /** Straight-line code runs as its register effects, one after the other. */
  lemma {:induction false} RunQuiet(k: Kernel, f: Function, quiet: set<nat>, lo: nat, n: nat, regs: seq<Value>, st: State)
    requires EffectsSound(k, quiet) && lo + n <= |f.code| && AllQuiet(quiet, f.code[lo..lo + n])
    ensures Run(k, f, Running(lo, regs, st), n) ==
      match ApplyAll(k, f, f.code[lo..lo + n], regs, st) case Ok(r) => Running(lo + n, r, st) case Err(e) => Failed(e)
    decreases n
  {
    hide Step, Apply, Breaker;
    if n == 0 {
      assert f.code[lo..lo + n] == [];
    } else {
      var c := f.code[lo..lo + n];
      assert c[..n - 1] == f.code[lo..lo + n - 1];
      RunQuiet(k, f, quiet, lo, n - 1, regs, st);
      RunCompose(k, f, Running(lo, regs, st), n - 1, 1);
      var mid := Run(k, f, Running(lo, regs, st), n - 1);
      assert Run(k, f, mid, 1) == Step(k, f, mid) by { RunOne(k, f, mid); }
      if mid.Running? {
        assert f.code[lo + n - 1] == c[n - 1];
        QuietStep(k, f, quiet, lo + n - 1, mid.regs, st);
      } else {
        StepFailed(k, f, mid);
      }
    }
  }

  lemma RunOne(k: Kernel, f: Function, c: Config)
    ensures Run(k, f, c, 1) == Step(k, f, c)
  {
    assert Run(k, f, Step(k, f, c), 0) == Step(k, f, c);
  }

  lemma StepFailed(k: Kernel, f: Function, c: Config)
    requires !c.Running?
    ensures Step(k, f, c) == c
  {
  }

  /** Register effects depend on the constants and groups only, and adding groups changes nothing. */
  lemma {:induction false} ApplyAllSame(k: Kernel, f: Function, g: Function, c: seq<Instr>, regs: seq<Value>, st: State)
    requires g.consts == f.consts && f.groups <= g.groups
    requires forall i :: 0 <= i < |c| && c[i].ReadBatch? ==> c[i].group < |f.groups|
    ensures ApplyAll(k, g, c, regs, st) == ApplyAll(k, f, c, regs, st)
    decreases |c|
  {
    hide Apply;
    if c != [] {
      var n := |c| - 1;
      ApplyAllSame(k, f, g, c[..n], regs, st);
      var r := ApplyAll(k, f, c[..n], regs, st);
      if r.Ok? {
        ApplySame(k, f, g, c[n], r.value, st);
      }
    }
  }

  lemma ApplySame(k: Kernel, f: Function, g: Function, i: Instr, regs: seq<Value>, st: State)
    requires g.consts == f.consts && f.groups <= g.groups && (i.ReadBatch? ==> i.group < |f.groups|)
    ensures Apply(k, g, i, regs, st) == Apply(k, f, i, regs, st)
  {
  }

  lemma ClusterSim(k: Kernel, f: Function, g: Function, quiet: set<nat>, lo: nat, hi: nat, s: nat, e: nat,
                   regs: seq<Value>, st: State)
    requires EffectsSound(k, quiet) && lo < hi <= |f.code| && AllQuiet(quiet, f.code[lo..hi])
    requires ClusterAt(f, g, lo, hi, s, e) && HazardFree(f, f.code[lo..hi]) && InRange(f, f.code[lo..hi], |regs|)
    requires g.consts == f.consts && f.groups <= g.groups
    requires forall p :: lo <= p < hi && f.code[p].ReadBatch? ==> f.code[p].group < |f.groups|
    ensures var c := Run(k, f, Running(lo, regs, st), hi - lo);
      var c' := Run(k, g, Running(s, regs, st), e - s);
      if c.Running? then c.pc == hi && c.st == st && c' == Running(e, c.regs, st) else c' == c
  {
    hide Step, Apply, Breaker, Names, HazardFree, InRange, AllQuiet, Scatter;
    var c := f.code[lo..hi];
    RunQuiet(k, f, quiet, lo, hi - lo, regs, st);
    ReadsFirst(k, f, quiet, c, regs, st);
    var mid := Scatter(k, Reads(c), regs, st).value;
    ReadsStep(k, f, g, s, c, regs, st);
    var rest := Rest(c);
    RestQuiet(quiet, c);
    assert AllQuiet(quiet, rest) by { AllQuietIntro(quiet, rest); }
    RunQuiet(k, g, quiet, s + 1, |rest|, mid, st);
    assert forall i :: 0 <= i < |rest| && rest[i].ReadBatch? ==> rest[i].group < |f.groups| by {
      forall i | 0 <= i < |rest| && rest[i].ReadBatch? ensures rest[i].group < |f.groups| {
        var j :| 0 <= j < |c| && c[j] == rest[i];
        assert f.code[lo + j] == c[j];
      }
    }
    ApplyAllSame(k, f, g, rest, mid, st);
    RunCompose(k, g, Running(s, regs, st), 1, |rest|);
    RunOne(k, g, Running(s, regs, st));
  }

  lemma AllQuietIntro(quiet: set<nat>, c: seq<Instr>)
    requires forall i :: 0 <= i < |c| ==> !IsRead(c[i]) && !Breaker(quiet, c[i])
    ensures AllQuiet(quiet, c)
  {
  }

  lemma ReadsStep(k: Kernel, f: Function, g: Function, s: nat, c: seq<Instr>, regs: seq<Value>, st: State)
    requires ReadsAt(g, s, c) && Scatter(k, Reads(c), regs, st).Some?
    ensures Step(k, g, Running(s, regs, st)) == Running(s + 1, Scatter(k, Reads(c), regs, st).value, st)
  {
    if |Reads(c)| == 1 {
      FirstRead(c);
      ScatterOne(k, AsReadOp(c[0]), regs, st);
    }
  }

  lemma ScatterOne(k: Kernel, op: ReadOp, regs: seq<Value>, st: State)
    requires Scatter(k, [op], regs, st).Some?
    ensures op.dst < |regs| && Scatter(k, [op], regs, st) == Some(regs[op.dst := ReadValue(k, op, st)])
  {
    assert [op][0] == op && [op][1..] == [];
  }

  lemma {:induction false} FirstRead(c: seq<Instr>)
    requires |c| > 0 && IsRead(c[0])
    ensures |Reads(c)| > 0 && Reads(c)[0] == AsReadOp(c[0])
    decreases |c|
  {
    var n := |c| - 1;
    if n > 0 {
      FirstRead(c[..n]);
    } else {
      assert c[..0] == [];
    }
  }

  /** One block of the old code against its image. */
  lemma BlockSim(k: Kernel, f: Function, g: Function, quiet: set<nat>, bounds: seq<nat>, starts: seq<nat>, j: nat,
                 regs: seq<Value>, st: State)
    returns (n: nat, m: nat)
    requires EffectsSound(k, quiet) && Layout(quiet, f, g, bounds, starts) && Safe(f, bounds)
    requires InRange(f, f.code, |regs|) && j < |bounds|
    ensures n > 0 && m > 0
    ensures Matched(bounds, starts, Run(k, f, Running(bounds[j], regs, st), n), Run(k, g, Running(starts[j], regs, st), m))
    ensures var c := Run(k, f, Running(bounds[j], regs, st), n); c.Running? ==> |c.regs| == |regs|
  {
    hide Run, HazardFree, InRange, Names, Breaker;
    var lo, s := bounds[j], starts[j];
    if j == |bounds| - 1 {
      n, m := 1, 1;
      RunOne(k, f, Running(lo, regs, st));
      RunOne(k, g, Running(s, regs, st));
    } else if IsRead(f.code[lo]) {
      var hi, e := bounds[j + 1], starts[j + 1];
      assert BlockLaid(f, g, bounds, starts, j);
      n, m := hi - lo, e - s;
      BlockQuiet(quiet, f.code, lo);
      InRangePart(f, lo, hi, |regs|);
      ClusterSim(k, f, g, quiet, lo, hi, s, e, regs, st);
      var c := Run(k, f, Running(lo, regs, st), n);
      if c.Running? {
        assert c.pc == bounds[j + 1];
        RunSize(k, f, Running(lo, regs, st), n);
      }
    } else {
      n, m := SingleSim(k, f, g, quiet, bounds, starts, j, regs, st);
      RunSize(k, f, Running(lo, regs, st), n);
    }
  }

  lemma InRangePart(f: Function, lo: nat, hi: nat, n: nat)
    requires InRange(f, f.code, n) && lo <= hi <= |f.code|
    ensures InRange(f, f.code[lo..hi], n)
  {
    hide Names;
    var c := f.code[lo..hi];
    forall i, r | 0 <= i < |c| && r in Names(f, c[i]) ensures r < n {
      assert c[i] == f.code[lo + i];
    }
  }

  lemma BlockQuiet(quiet: set<nat>, code: seq<Instr>, lo: nat)
    requires lo < |code| && IsRead(code[lo])
    ensures AllQuiet(quiet, code[lo..BlockEnd(quiet, code, lo)])
  {
    hide Breaker;
    var hi := BlockEnd(quiet, code, lo);
    var c := code[lo..hi];
    forall i | 0 <= i < |c| ensures IsRead(c[i]) || !Breaker(quiet, c[i]) {
      assert c[i] == code[lo + i];
    }
  }

  lemma {:induction false} RunSize(k: Kernel, f: Function, c: Config, n: nat)
    requires c.Running?
    ensures Run(k, f, c, n).Running? ==> |Run(k, f, c, n).regs| == |c.regs|
    decreases n
  {
    if n > 0 {
      var d := Step(k, f, c);
      if d.Running? {
        RunSize(k, f, d, n - 1);
      } else {
        RunAbsorbing(k, f, d, n - 1);
      }
    }
  }

  lemma LayoutSingle(quiet: set<nat>, f: Function, g: Function, bounds: seq<nat>, starts: seq<nat>, j: nat)
    requires Layout(quiet, f, g, bounds, starts)
    requires j < |bounds| - 1 && !IsRead(f.code[bounds[j]])
    ensures SingleAt(f, g, bounds, starts, bounds[j], starts[j])
    ensures bounds[j + 1] == bounds[j] + 1 && starts[j + 1] == starts[j] + 1
  {
    assert BlockLaid(f, g, bounds, starts, j);
  }

  lemma SingleSim(k: Kernel, f: Function, g: Function, quiet: set<nat>, bounds: seq<nat>, starts: seq<nat>, j: nat,
                  regs: seq<Value>, st: State)
    returns (n: nat, m: nat)
    requires Layout(quiet, f, g, bounds, starts) && Safe(f, bounds)
    requires j < |bounds| - 1 && !IsRead(f.code[bounds[j]])
    ensures n > 0 && m > 0
    ensures Matched(bounds, starts, Run(k, f, Running(bounds[j], regs, st), n), Run(k, g, Running(starts[j], regs, st), m))
  {
    hide Run, HazardFree, ClusterAt;
    LayoutSingle(quiet, f, g, bounds, starts, j);
    var lo, s := bounds[j], starts[j];
    var i := f.code[lo];
    n, m := 1, 1;
    RunOne(k, f, Running(lo, regs, st));
    RunOne(k, g, Running(s, regs, st));
    if IsJump(i) {
      n, m := JumpSim(k, f, g, quiet, bounds, starts, j, regs, st);
    } else {
      PlainStep(k, f, g, lo, s, regs, st);
      var c := Step(k, f, Running(lo, regs, st));
      if c.Running? {
        assert c.pc == bounds[j + 1];
      }
    }
  }

  lemma PlainStep(k: Kernel, f: Function, g: Function, lo: nat, s: nat, regs: seq<Value>, st: State)
    requires lo < |f.code| && s < |g.code| && g.code[s] == f.code[lo] && !IsJump(f.code[lo])
    requires g.consts == f.consts && f.groups <= g.groups && (f.code[lo].ReadBatch? ==> f.code[lo].group < |f.groups|)
    ensures var c, c' := Step(k, f, Running(lo, regs, st)), Step(k, g, Running(s, regs, st));
      if c.Running? then c.pc == lo + 1 && c' == Running(s + 1, c.regs, c.st) else c' == c
  {
  }

  lemma JumpSim(k: Kernel, f: Function, g: Function, quiet: set<nat>, bounds: seq<nat>, starts: seq<nat>, j: nat,
                regs: seq<Value>, st: State)
    returns (n: nat, m: nat)
    requires Layout(quiet, f, g, bounds, starts) && Safe(f, bounds)
    requires j < |bounds| - 1 && IsJump(f.code[bounds[j]])
    ensures n > 0 && m > 0
    ensures Matched(bounds, starts, Run(k, f, Running(bounds[j], regs, st), n), Run(k, g, Running(starts[j], regs, st), m))
  {
    hide Run, HazardFree, ClusterAt, ReadsAt, BlockEnd;
    LayoutSingle(quiet, f, g, bounds, starts, j);
    var lo, s := bounds[j], starts[j];
    var i, i' := f.code[lo], g.code[s];
    var a, a' := Running(lo, regs, st), Running(s, regs, st);
    RunOne(k, f, a);
    RunOne(k, g, a');
    n, m := 1, 1;
    var t, t' := Target(i, lo), Target(i', s);
    var c, c' := Step(k, f, a), Step(k, g, a');
    if c.Running? {
      if c.pc == lo + 1 && c'.pc == s + 1 {
        assert c.pc == bounds[j + 1];
      } else if t > |f.code| {
        RunCompose(k, f, a, 1, 1);
        RunCompose(k, g, a', 1, 1);
        RunOne(k, f, c);
        RunOne(k, g, c');
        n, m := 2, 2;
      } else {
        if t == |f.code| {
          assert bounds[|bounds| - 1] == t;
        }
        var b :| 0 <= b < |bounds| && bounds[b] == t;
        assert c.pc == bounds[b] && c' == Running(starts[b], regs, st);
      }
    }
  }

  // ---------- whole runs ----------

  /** Every way the original code can end from a block boundary, the optimized code ends too. */
  lemma {:induction false} Forward(k: Kernel, f: Function, g: Function, quiet: set<nat>, bounds: seq<nat>, starts: seq<nat>,
                                   j: nat, regs: seq<Value>, st: State, ticks: nat)
    returns (ticks': nat)
    requires EffectsSound(k, quiet) && Layout(quiet, f, g, bounds, starts) && Safe(f, bounds)
    requires InRange(f, f.code, |regs|) && j < |bounds|
    requires !Run(k, f, Running(bounds[j], regs, st), ticks).Running?
    ensures Run(k, g, Running(starts[j], regs, st), ticks') == Run(k, f, Running(bounds[j], regs, st), ticks)
    decreases ticks
  {
    hide Run, Step, Layout, Safe, InRange, EffectsSound;
    assert |starts| == |bounds| by { LayoutSize(quiet, f, g, bounds, starts); }
    var a, a' := Running(bounds[j], regs, st), Running(starts[j], regs, st);
    var n, m := BlockSim(k, f, g, quiet, bounds, starts, j, regs, st);
    var c := Run(k, f, a, n);
    if c.Running? {
      var i :| 0 <= i < |bounds| && c.pc == bounds[i] && Run(k, g, a', m) == Running(starts[i], c.regs, c.st);
      if ticks <= n {
        RunPrefix(k, f, a, ticks, n);
        assert false;
      } else {
        RunCompose(k, f, a, n, ticks - n);
        var rest := Forward(k, f, g, quiet, bounds, starts, i, c.regs, c.st, ticks - n);
        RunCompose(k, g, a', m, rest);
        ticks' := m + rest;
      }
    } else {
      OneEnd(k, f, a, n, ticks);
      ticks' := m;
    }
  }

  /** And conversely: the optimized code ends no way the original does not. */
  lemma {:induction false} Backward(k: Kernel, f: Function, g: Function, quiet: set<nat>, bounds: seq<nat>, starts: seq<nat>,
                                    j: nat, regs: seq<Value>, st: State, ticks: nat)
    returns (ticks': nat)
    requires EffectsSound(k, quiet) && Layout(quiet, f, g, bounds, starts) && Safe(f, bounds)
    requires InRange(f, f.code, |regs|) && j < |bounds| == |starts|
    requires !Run(k, g, Running(starts[j], regs, st), ticks).Running?
    ensures Run(k, f, Running(bounds[j], regs, st), ticks') == Run(k, g, Running(starts[j], regs, st), ticks)
    decreases ticks
  {
    hide Run, Step, Layout, Safe, InRange, EffectsSound;
    var a, a' := Running(bounds[j], regs, st), Running(starts[j], regs, st);
    var n, m := BlockSim(k, f, g, quiet, bounds, starts, j, regs, st);
    var c := Run(k, f, a, n);
    if c.Running? {
      var i :| 0 <= i < |bounds| && c.pc == bounds[i] && Run(k, g, a', m) == Running(starts[i], c.regs, c.st);
      if ticks <= m {
        RunPrefix(k, g, a', ticks, m);
        assert false;
      } else {
        RunCompose(k, g, a', m, ticks - m);
        var rest := Backward(k, f, g, quiet, bounds, starts, i, c.regs, c.st, ticks - m);
        RunCompose(k, f, a, n, rest);
        ticks' := n + rest;
      }
    } else {
      OneEnd(k, g, a', m, ticks);
      ticks' := n;
    }
  }

  lemma LayoutSize(quiet: set<nat>, f: Function, g: Function, bounds: seq<nat>, starts: seq<nat>)
    requires Layout(quiet, f, g, bounds, starts)
    ensures |starts| == |bounds| > 0 && bounds[0] == 0 == starts[0]
  {
  }

  /** Read clustering preserves meaning: from any registers and state, optimized and original
      code finish with the same value and state, fail with the same error, or both run on. */
  lemma SameMeaning(k: Kernel, f: Function, g: Function, quiet: set<nat>, bounds: seq<nat>, starts: seq<nat>,
                    regs: seq<Value>, st: State)
    requires EffectsSound(k, quiet) && Layout(quiet, f, g, bounds, starts) && Safe(f, BoundsOf(quiet, f.code))
    requires InRange(f, f.code, |regs|)
    ensures forall c: Config | !c.Running? ::
              Halts(k, f, Running(0, regs, st), c) <==> Halts(k, g, Running(0, regs, st), c)
  {
    hide Run, Safe, InRange, EffectsSound, BoundsOf, BlockLaid;
    BoundsDetermined(quiet, f.code, bounds);
    forall c: Config | !c.Running?
      ensures Halts(k, f, Running(0, regs, st), c) <==> Halts(k, g, Running(0, regs, st), c)
    {
      if Halts(k, f, Running(0, regs, st), c) {
        var n: nat :| Run(k, f, Running(0, regs, st), n) == c;
        var m := Forward(k, f, g, quiet, bounds, starts, 0, regs, st, n);
      }
      if Halts(k, g, Running(0, regs, st), c) {
        var n: nat :| Run(k, g, Running(0, regs, st), n) == c;
        var m := Backward(k, f, g, quiet, bounds, starts, 0, regs, st, n);
      }
    }
  }
}
