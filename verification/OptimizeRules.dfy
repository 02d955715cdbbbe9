/** Where clusters end, spelled out on the instructions, and a compiled program to which the
    pass may be applied. */
module OptimizeRules {
  import opened Options
  import opened Machine
  import opened Interp
  import opened CodeGen
  import opened CompileFn
  import opened Clusters
  import opened OptimizeCorrect
  import opened OptimizeGaps
  import CondTypes
  import Pipeline

  // ---------- where clusters end ----------

  /** The instruction takes an operand from register `r`. */
  predicate TakesFrom(x: Instr, r: nat) {
    || (x.Move? && x.src == r)
    || (x.Bin? && (x.lhs == r || x.rhs == r))
    || (x.Un? && x.src == r)
    || (x.IncReg? && x.reg == r)
    || (x.JumpIfFalse? && x.cond == r)
    || (x.Call? && x.argsStart <= r < x.argsStart + x.nArgs)
    || (x.Return? && x.src == r)
    || (x.KvPut? && x.src == r)
    || (x.KvPutPath? && x.src == r)
  }

  /** It writes state, leaves the straight line, or calls a function that may write. */
  predicate Fences(quiet: set<nat>, x: Instr) {
    || x.KvPut? || x.KvPutPath?
    || x.Jump? || x.JumpIfFalse? || x.Return? || x.ReturnUnit?
    || (x.Call? && x.fnIdx !in quiet)
  }

  /** A read since `lo` fills a register that instruction `i` takes. */
  ghost predicate Depends(code: seq<Instr>, lo: nat, i: nat)
    requires lo <= i < |code|
  {
    exists j :: lo <= j < i && IsRead(code[j]) && TakesFrom(code[i], code[j].dst)
  }

  ghost predicate Stops(quiet: set<nat>, code: seq<Instr>, lo: nat, i: nat)
    requires lo <= i < |code|
  {
    !IsRead(code[i]) && (Fences(quiet, code[i]) || Depends(code, lo, i))
  }

  ghost predicate Filled(code: seq<Instr>, lo: nat, i: nat, dsts: set<nat>)
    requires lo <= i <= |code|
  {
    forall r :: r in dsts <==> exists j :: lo <= j < i && IsRead(code[j]) && code[j].dst == r
  }

  lemma SourcesAre(x: Instr, r: nat)
    ensures r in Sources(x) <==> TakesFrom(x, r)
  {
  }

  lemma FencesAre(quiet: set<nat>, x: Instr)
    ensures Breaker(quiet, x) <==> Fences(quiet, x)
  {
  }

  lemma DependsIs(code: seq<Instr>, lo: nat, i: nat, dsts: set<nat>)
    requires lo <= i < |code| && Filled(code, lo, i, dsts)
    ensures Sources(code[i]) * dsts != {} <==> Depends(code, lo, i)
  {
    hide Sources, TakesFrom;
    if Depends(code, lo, i) {
      var j :| lo <= j < i && IsRead(code[j]) && TakesFrom(code[i], code[j].dst);
      SourcesAre(code[i], code[j].dst);
      assert code[j].dst in Sources(code[i]) * dsts;
    }
    if Sources(code[i]) * dsts != {} {
      var r :| r in Sources(code[i]) * dsts;
      SourcesAre(code[i], r);
    }
  }

  lemma FilledMore(code: seq<Instr>, lo: nat, i: nat, dsts: set<nat>)
    requires lo <= i < |code| && Filled(code, lo, i, dsts)
    ensures Filled(code, lo, i + 1, if IsRead(code[i]) then dsts + {code[i].dst} else dsts)
  {
    var dsts' := if IsRead(code[i]) then dsts + {code[i].dst} else dsts;
    forall r ensures r in dsts' <==> exists j :: lo <= j < i + 1 && IsRead(code[j]) && code[j].dst == r {
      if IsRead(code[i]) && r == code[i].dst {
        assert lo <= i < i + 1 && code[i].dst == r;
      } else if r in dsts {
        var j :| lo <= j < i && IsRead(code[j]) && code[j].dst == r;
        assert lo <= j < i + 1;
      }
    }
  }

  lemma {:induction false} EndIs(quiet: set<nat>, code: seq<Instr>, lo: nat, i: nat, dsts: set<nat>)
    requires lo < i <= |code| && Filled(code, lo, i, dsts)
    ensures var e := ClusterEnd(quiet, code, i, dsts);
      && (e < |code| ==> Stops(quiet, code, lo, e))
      && forall q :: i <= q < e ==> !Stops(quiet, code, lo, q)
    decreases |code| - i
  {
    hide Breaker, Sources, Filled, Depends, Fences;
    if i < |code| {
      DependsIs(code, lo, i, dsts);
      FencesAre(quiet, code[i]);
      FilledMore(code, lo, i, dsts);
      if IsRead(code[i]) {
        EndIs(quiet, code, lo, i + 1, dsts + {code[i].dst});
      } else if !Breaker(quiet, code[i]) && Sources(code[i]) * dsts == {} {
        EndIs(quiet, code, lo, i + 1, dsts);
      }
    }
  }

  /** A cluster runs from a read to the first instruction that writes state, leaves the straight
      line, calls a function that may write, or takes what a read of the cluster fetched; every
      other block is one instruction. */
  lemma BlockEndsExactly(quiet: set<nat>, code: seq<Instr>, lo: nat)
    requires lo < |code|
    ensures var e := BlockEnd(quiet, code, lo);
      if IsRead(code[lo]) then
        && lo < e <= |code| && (e < |code| ==> Stops(quiet, code, lo, e))
        && forall q :: lo < q < e ==> !Stops(quiet, code, lo, q)
      else e == lo + 1
  {
    hide Stops, ClusterEnd;
    if IsRead(code[lo]) {
      assert Filled(code, lo, lo + 1, {code[lo].dst});
      EndIs(quiet, code, lo, lo + 1, {code[lo].dst});
    }
  }

  // ---------- a program the pass may be applied to ----------

  /** `let x = a; let y = b; return y;` */
  function TwoReads(): Stmts {
    Cons(Let("x", Ident("a")), Cons(Let("y", Ident("b")), Cons(ReturnStmt(Some(Ident("y"))), Nil)))
  }

  function TwoReadsCode(): seq<Instr> { [KvGet(0, 0), KvGet(1, 1), Move(2, 1), Return(2)] }

  lemma TwoReadsCompile()
    ensures Compile(Slots(), [], Block(TwoReads(), None)) == Some(Compiled(Function(TwoReadsCode(), [], []), 3))
  {
    hide GenStmts, GenExpr, GenStmt;
    var x: map<string, nat> := map["x" := 0];
    var xy: map<string, nat> := map["x" := 0, "y" := 1];
    var cs0, cs1, cs2 := At([], 0, 0, [map[], map[]]), At([], 1, 1, [map[], x]), At([], 2, 2, [map[], xy]);
    var cs3 := At([], 2, 3, [map[], xy]);
    EntryAt();
    var s := TwoReads();
    LetCode("x", "a", cs0, x);
    LetCode("y", "b", cs1, xy);
    ReturnCode("y", 1, cs2);
    NilCode(cs3, false);
    ConsCode(s.tail.tail.head, Nil, cs2, false);
    ConsCode(s.tail.head, s.tail.tail, cs1, false);
    ConsCode(s.head, s.tail, cs0, false);
    var seg := Ops([KvGet(0, 0)]) + (Ops([KvGet(1, 1)]) + (Ops([Move(2, 1), Return(2)]) + []));
    assert GenBody(Slots(), [], Block(s, None)) == Some((seg, cs3));
    assert Flat(seg) == TwoReadsCode();
  }

  lemma TwoReadsBounds()
    ensures IsBounds({}, TwoReadsCode(), [0, 2, 3, 4])
  {
    var code := TwoReadsCode();
    assert ClusterEnd({}, code, 2, {0} + {1}) == 2 by {
      assert 1 in Sources(code[2]) * ({0} + {1});
    }
    assert ClusterEnd({}, code, 1, {0}) == 2;
    assert BlockEnd({}, code, 0) == 2 && BlockEnd({}, code, 2) == 3 && BlockEnd({}, code, 3) == 4;
  }

  lemma TwoReadsSafe()
    ensures Safe(Function(TwoReadsCode(), [], []), BoundsOf({}, TwoReadsCode()))
  {
    hide BlockEnd, ClusterEnd, Breaker, BoundsOf, IsBounds;
    var code, bounds := TwoReadsCode(), [0, 2, 3, 4];
    TwoReadsBounds();
    BoundsDetermined({}, code, bounds);
    var f := Function(code, [], []);
    assert code[0..2] == [KvGet(0, 0), KvGet(1, 1)] && code[2..3] == [Move(2, 1)] && code[3..4] == [Return(2)];
    assert HazardFree(f, code[0..2]) && HazardFree(f, code[2..3]) && HazardFree(f, code[3..4]);
  }

  /** The end-to-end theorem applies to it: whatever the pass makes of its code, the call returns
      the state `b`, as the interpreter does. */
  lemma TwoReadsAgree(k: Kernel, st: State, g: Function, bounds: seq<nat>, starts: seq<nat>)
    requires Layout({}, Function(TwoReadsCode(), [], []), g, bounds, starts)
    ensures Halts(k, g, Running(0, Frame([], 3), st), Finished(k.get(1, st), st))
  {
    hide Compile, Safe, BoundsOf, Layout, Halts, CallFn;
    var env := Env(k, Slots(), true);
    var body := Block(TwoReads(), None);
    TwoReadsCompile();
    TwoReadsSafe();
    Pipeline.PipelineCorrect(env, {}, {}, [], body, [], st, g, bounds, starts);
    TwoReadsCall(env, st);
    assert CondTypes.ReturnsAtEnd(env.slots, [], body) by { TwoReadsLeave(); }
    assert CondTypes.Ends(env, [], body, [], st, Answer(k.get(1, st), st));
  }

  lemma TwoReadsLeave()
    ensures CondTypes.StmtsLeave(TwoReads())
  {
    assert CondTypes.StmtLeaves(ReturnStmt(Some(Ident("y"))));
    assert CondTypes.StmtsLeave(TwoReads().tail.tail);
    assert CondTypes.StmtsLeave(TwoReads().tail);
  }

  lemma TwoReadsCall(env: Env, st: State)
    requires env.slots == Slots()
    ensures CallFn(env, 0, [], Block(TwoReads(), None), [], st) == Answer(env.k.get(1, st), st)
  {
    var s := TwoReads();
    var a, b := env.k.get(0, st), env.k.get(1, st);
    var v0: Scopes := [Bind([], []), map[]];
    var x: map<string, Value> := map["x" := a];
    var xy: map<string, Value> := map["x" := a, "y" := b];
    var v1: Scopes, v2: Scopes := [map[], x], [map[], xy];
    assert Eval(env, Ident("a"), v0, st) == Ok(a);
    assert v0[1 := v0[1]["x" := a]] == v1;
    assert Exec(env, 0, s.head, v0, st) == Done(Normal, v1, st);
    assert Eval(env, Ident("b"), v1, st) == Ok(b) by { assert "b" !in v1[0] && "b" !in v1[1]; }
    assert v1[1 := v1[1]["y" := b]] == v2;
    assert Exec(env, 0, s.tail.head, v1, st) == Done(Normal, v2, st);
    assert Eval(env, Ident("y"), v2, st) == Ok(b) by { assert "y" in v2[1]; }
    assert Exec(env, 0, s.tail.tail.head, v2, st) == Done(Returns(b), v2, st);
    assert ExecStmts(env, 0, s.tail.tail, v2, st) == Done(Returns(b), v2, st);
    assert ExecStmts(env, 0, s.tail, v1, st) == Done(Returns(b), v2, st);
    assert ExecStmts(env, 0, s, v0, st) == Done(Returns(b), v2, st);
  }

  // ---------- a well-typed program with a loop ----------

  /** Comparisons and logic give bools; a slot holds what was put there, at first false. */
  function Decent(): Kernel {
    Kernel(
      (op: BinOp, x: Value, y: Value) => if CondTypes.BoolOp(op) then Ok(Bool(x == y)) else Ok(Int(0)),
      (op: UnOp, x: Value) => if op.Not? then Ok(Bool(x == Bool(false))) else Ok(x),
      x => Ok(x),
      (i, st) => if i in st then st[i] else Bool(false),
      (i, v, st) => st[i := v],
      (_, _) => Unit,
      (_, _, st) => st,
      (_, _, st) => Returned(Unit, st))
  }

  /** The counting loop of the other examples, with `b` declared bool, is well typed in every
      state that holds a bool in `b`. */
  lemma CountWellTyped(st: State)
    requires 1 in st ==> st[1].Bool?
    ensures CondTypes.WellTyped(Env(Decent(), Slots(), false), {"b"}, [], Block(CountStmts(), None), [], st)
  {
    var env, bools := Env(Decent(), Slots(), false), {"b"};
    assert CondTypes.KernelTyped(env.k);
    assert "b" in bools && env.slots["b"] == 1;
    forall i ensures CondTypes.BoolSlot(env, bools, i) <==> i == 1 {
      if i == 1 {
        assert "b" in bools && "b" in env.slots && env.slots["b"] == i;
      }
    }
    assert CondTypes.BoolStmts(bools, StepStmts()) by {
      assert "x" !in bools;
      assert CondTypes.BoolStmts(bools, Nil);
      assert CondTypes.BoolStmts(bools, StepStmts().tail);
    }
    assert CondTypes.BoolStmts(bools, CountStmts()) by {
      assert "x" !in bools;
      assert CondTypes.BoolStmts(bools, CountStmts().tail.tail);
      assert CondTypes.BoolBlock(bools, Block(StepStmts(), None));
      assert CondTypes.BoolStmts(bools, CountStmts().tail);
    }
  }

  // ---------- the condition of the pass ----------

  /** The instruction writes register `r`. */
  ghost predicate Fills(f: Function, x: Instr, r: nat) {
    || (x.LoadConst? && x.dst == r)
    || (x.Move? && x.dst == r)
    || (x.Bin? && x.dst == r)
    || (x.Un? && x.dst == r)
    || (x.IncReg? && x.reg == r)
    || (x.Call? && x.dst == r)
    || (x.KvGet? && x.dst == r)
    || (x.KvGetPath? && x.dst == r)
    || (x.ReadBatch? && x.group < |f.groups| && exists o :: o in f.groups[x.group] && o.dst == r)
  }

  lemma NamesAre(f: Function, x: Instr, r: nat)
    ensures r in Names(f, x) <==> TakesFrom(x, r) || Fills(f, x, r)
  {
    SourcesAre(x, r);
  }

  /** `p` comes before `q` in one block. */
  ghost predicate SameBlock(bounds: seq<nat>, p: int, q: int) {
    exists j, l :: 0 <= j && l == j + 1 && l < |bounds| && bounds[j] <= p < q < bounds[l]
  }

  /** A deferred instruction at `p` uses the register that the read at `q` fills. */
  ghost predicate InTheWay(f: Function, p: int, q: int) {
    && 0 <= p < |f.code| && 0 <= q < |f.code| && !IsRead(f.code[p]) && IsRead(f.code[q])
    && (TakesFrom(f.code[p], f.code[q].dst) || Fills(f, f.code[p], f.code[q].dst))
  }

  lemma BlockHazard(f: Function, lo: nat, hi: nat)
    requires lo <= hi <= |f.code|
    ensures HazardFree(f, f.code[lo..hi]) <==> forall p, q | lo <= p < q < hi :: !InTheWay(f, p, q)
  {
    hide Names, TakesFrom, Fills;
    var c := f.code[lo..hi];
    if HazardFree(f, c) {
      forall p, q | lo <= p < q < hi ensures !InTheWay(f, p, q) {
        assert c[p - lo] == f.code[p] && c[q - lo] == f.code[q];
        if IsRead(f.code[q]) {
          NamesAre(f, f.code[p], f.code[q].dst);
        }
      }
    }
    if forall p, q | lo <= p < q < hi :: !InTheWay(f, p, q) {
      forall i, j | 0 <= i < j < |c| && !IsRead(c[i]) && IsRead(c[j]) ensures c[j].dst !in Names(f, c[i]) {
        assert c[i] == f.code[lo + i] && c[j] == f.code[lo + j];
        assert !InTheWay(f, lo + i, lo + j);
        NamesAre(f, c[i], c[j].dst);
      }
    }
  }

  /** The condition under which the pass keeps the meaning, spelled out: in no block does an
      instruction before a read use the register the read fills; every jump lands on the start
      of a block or past the end; and batches already there are well formed. */
  lemma SafeExactly(f: Function, bounds: seq<nat>, quiet: set<nat>)
    requires IsBounds(quiet, f.code, bounds)
    ensures Safe(f, bounds) <==>
      && (forall p, q | SameBlock(bounds, p, q) :: !InTheWay(f, p, q))
      && (forall p :: 0 <= p < |f.code| && (f.code[p].Jump? || f.code[p].JumpIfFalse?) ==>
            p + 1 + f.code[p].offset >= |f.code| || p + 1 + f.code[p].offset in bounds)
      && (forall p :: 0 <= p < |f.code| && f.code[p].ReadBatch? ==> f.code[p].group < |f.groups|)
  {
    hide HazardFree, InTheWay;
    if forall p, q | SameBlock(bounds, p, q) :: !InTheWay(f, p, q) {
      forall j | 0 <= j < |bounds| - 1 ensures BlockSafe(f, bounds, j) {
        BlockHazard(f, bounds[j], bounds[j + 1]);
        var lo, hi, l := bounds[j], bounds[j + 1], j + 1;
        forall p, q | lo <= p < q < hi ensures !InTheWay(f, p, q) {
          assert bounds[j] <= p < q < bounds[l];
          assert SameBlock(bounds, p, q);
        }
      }
      forall j | 0 <= j < |bounds| - 1 && bounds[j] < bounds[j + 1] <= |f.code|
        ensures HazardFree(f, f.code[bounds[j]..bounds[j + 1]])
      {
        assert BlockSafe(f, bounds, j);
      }
    }
    if Safe(f, bounds) {
      forall p, q | SameBlock(bounds, p, q) ensures !InTheWay(f, p, q) {
        var j, l :| 0 <= j && l == j + 1 && l < |bounds| && bounds[j] <= p < q < bounds[l];
        BlockHazard(f, bounds[j], bounds[l]);
        assert HazardFree(f, f.code[bounds[j]..bounds[j + 1]]);
      }
    }
  }

  ghost predicate BlockSafe(f: Function, bounds: seq<nat>, j: int) {
    0 <= j < |bounds| - 1 && bounds[j] < bounds[j + 1] <= |f.code| ==> HazardFree(f, f.code[bounds[j]..bounds[j + 1]])
  }

  // ---------- instructions the compiler fragment does not emit ----------

  /** The last read of a batch into register `r`. */
  function LastInto(ops: seq<ReadOp>, r: nat): Option<ReadOp> {
    if ops == [] then None
    else if ops[|ops| - 1].dst == r then Some(ops[|ops| - 1])
    else LastInto(ops[..|ops| - 1], r)
  }

  function Fetched(k: Kernel, op: Option<ReadOp>, before: Value, st: State): Value {
    if op.None? then before
    else if op.value.StateRead? then k.get(op.value.key, st)
    else k.getPath(op.value.path, st)
  }

  /** A batch leaves in each register what the last of its reads into it fetched, and the other
      registers alone. */
  lemma {:induction false} BatchExactly(k: Kernel, ops: seq<ReadOp>, regs: seq<Value>, st: State, r: nat)
    requires r < |regs| && Scatter(k, ops, regs, st).Some?
    ensures Scatter(k, ops, regs, st).value[r] == Fetched(k, LastInto(ops, r), regs[r], st)
    decreases |ops|
  {
    if ops != [] {
      var n := |ops| - 1;
      var init, last := ops[..n], ops[n];
      assert ops == init + [last];
      assert forall i :: 0 <= i < n ==> init[i].dst == ops[i].dst;
      BatchExactly(k, init, regs, st, r);
      ScatterSnoc(k, init, last, regs, st);
    }
  }

  function AfterCall(r: CallResult, pc: nat, regs: seq<Value>, dst: nat): Config
    requires dst < |regs|
  {
    if r.Raised? then Failed(r.error) else Running(pc + 1, regs[dst := r.value], r.st)
  }

  function AfterOp(r: Result<Value>, pc: nat, regs: seq<Value>, st: State, dst: nat): Config
    requires dst < |regs|
  {
    if r.Err? then Failed(r.error) else Running(pc + 1, regs[dst := r.value], st)
  }

  /** A call passes its argument registers, keeps the state the callee left and puts the result in
      one register; an increment, and reads and writes of a path, do what they say. */
  lemma StepRules(k: Kernel, f: Function, pc: nat, regs: seq<Value>, st: State)
    requires pc < |f.code|
    ensures var x, next := f.code[pc], Step(k, f, Running(pc, regs, st));
      && (x.Call? && x.dst < |regs| && x.argsStart + x.nArgs <= |regs| ==>
            next == AfterCall(k.call(x.fnIdx, regs[x.argsStart..x.argsStart + x.nArgs], st), pc, regs, x.dst))
      && (x.IncReg? && x.reg < |regs| ==> next == AfterOp(k.inc(regs[x.reg]), pc, regs, st, x.reg))
      && (x.KvGetPath? && x.dst < |regs| ==> next == Running(pc + 1, regs[x.dst := k.getPath(x.path, st)], st))
      && (x.KvPutPath? && x.src < |regs| ==> next == Running(pc + 1, regs, k.putPath(x.path, regs[x.src], st)))
  {
  }
}
