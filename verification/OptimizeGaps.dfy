/** Ordinary compiled programs on which the read-clustering pass changes the answer, one for
    each half of the condition its correctness theorem needs. */
module OptimizeGaps {
  import opened Options
  import opened Machine
  import opened Interp
  import opened CodeGen
  import opened CompileFn
  import opened Clusters
  import opened OptimizeCorrect

  /** Two declared states: `a` in slot 0, `b` in slot 1. */
  function Slots(): map<string, nat> { map["a" := 0, "b" := 1] }

  function At(consts: seq<Value>, nextReg: nat, maxReg: nat, scopes: Registers): CState {
    CState(consts, nextReg, maxReg, scopes)
  }

  lemma EntryAt()
    ensures Entry([]) == At([], 0, 0, [map[], map[]])
  {
    assert Indices(0) == [];
  }

  lemma ConsCode(s: Stmt, rest: Stmts, cs: CState, inLoop: bool)
    requires |cs.scopes| > 0 && GenStmt(Slots(), s, cs, inLoop).Some?
    requires GenStmts(Slots(), rest, GenStmt(Slots(), s, cs, inLoop).value.1, inLoop).Some?
    ensures var (c, cs1) := GenStmt(Slots(), s, cs, inLoop).value;
      var (d, cs2) := GenStmts(Slots(), rest, cs1, inLoop).value;
      GenStmts(Slots(), Cons(s, rest), cs, inLoop) == Some((c + d, cs2))
  {
  }

  lemma ReadCode(x: string, dst: nat, cs: CState)
    requires x in Slots() && forall i :: 0 <= i < |cs.scopes| ==> x !in cs.scopes[i]
    ensures GenExpr(Slots(), Ident(x), dst, cs) == Some(([KvGet(dst, Slots()[x])], cs))
  {
  }

  lemma LocalCode(x: string, reg: nat, dst: nat, cs: CState)
    requires exists i :: 0 <= i < |cs.scopes| && x in cs.scopes[i]
    requires forall i :: 0 <= i < |cs.scopes| && x in cs.scopes[i] ==> cs.scopes[i][x] == reg
    requires dst != reg
    ensures GenExpr(Slots(), Ident(x), dst, cs) == Some(([Move(dst, reg)], cs))
  {
  }

  lemma LetCode(x: string, y: string, cs: CState, top: map<string, nat>)
    requires y in Slots() && |cs.scopes| == 2 && y !in cs.scopes[0] && y !in cs.scopes[1]
    requires top == cs.scopes[1][x := cs.nextReg]
    ensures GenStmt(Slots(), Let(x, Ident(y)), cs, false) ==
      Some((Ops([KvGet(cs.nextReg, Slots()[y])]), Alloc(cs).(scopes := [cs.scopes[0], top])))
  {
    hide GenStmt, GenExpr, Slots, Ops, Alloc;
    assert Alloc(cs).scopes == cs.scopes by { AllocScopes(cs); }
    ReadCode(y, cs.nextReg, Alloc(cs));
    LetOne(x, Ident(y), cs, [KvGet(cs.nextReg, Slots()[y])], top);
    TopScope(cs.scopes, top);
  }

  lemma AllocScopes(cs: CState)
    ensures Alloc(cs).scopes == cs.scopes
  {
  }

  lemma TopScope(scopes: Registers, top: map<string, nat>)
    requires |scopes| == 2
    ensures scopes[1 := top] == [scopes[0], top]
  {
  }

  lemma LetOne(x: string, e: Expr, cs: CState, c: seq<Instr>, top: map<string, nat>)
    requires |cs.scopes| == 2 && top == cs.scopes[1][x := cs.nextReg] && GenExpr(Slots(), e, cs.nextReg, Alloc(cs)) == Some((c, Alloc(cs)))
    ensures GenStmt(Slots(), Let(x, e), cs, false) ==
      Some((Ops(c), Alloc(cs).(scopes := cs.scopes[1 := top])))
  {
    hide GenExpr, Slots;
  }

  lemma ReturnCode(x: string, reg: nat, cs: CState)
    requires |cs.scopes| == 2 && x in cs.scopes[1] && x !in cs.scopes[0] && cs.scopes[1][x] == reg < cs.nextReg
    ensures GenStmt(Slots(), ReturnStmt(Some(Ident(x))), cs, false) ==
      Some((Ops([Move(cs.nextReg, reg), Return(cs.nextReg)]), Free(Alloc(cs), cs.nextReg)))
  {
    hide GenExpr, Slots;
    LocalCode(x, reg, cs.nextReg, Alloc(cs));
    assert [Move(cs.nextReg, reg)] + [Return(cs.nextReg)] == [Move(cs.nextReg, reg), Return(cs.nextReg)];
  }

  // ---------- a deferred instruction in the way of a read ----------

  /** `let x = a; 7; let y = b; return y;` */
  function ReuseStmts(): Stmts {
    Cons(Let("x", Ident("a")),
         Cons(ExprStmt(Lit(Int(7))), Cons(Let("y", Ident("b")), Cons(ReturnStmt(Some(Ident("y"))), Nil))))
  }

  function ReuseCode(): seq<Instr> { [KvGet(0, 0), LoadConst(1, 0), KvGet(1, 1), Move(2, 1), Return(2)] }

  function Reused(): Function { Function(ReuseCode(), [Int(7)], []) }

  lemma ReuseCompiles()
    ensures Compile(Slots(), [], Block(ReuseStmts(), None)) == Some(Compiled(Reused(), 3))
  {
    hide GenStmts, GenExpr, GenStmt;
    var x: map<string, nat> := map["x" := 0];
    var xy: map<string, nat> := map["x" := 0, "y" := 1];
    var cs0, cs1 := At([], 0, 0, [map[], map[]]), At([], 1, 1, [map[], x]);
    var cs2, cs3 := At([Int(7)], 1, 2, [map[], x]), At([Int(7)], 2, 2, [map[], xy]);
    var cs4 := At([Int(7)], 2, 3, [map[], xy]);
    EntryAt();
    var s := ReuseStmts();
    LetCode("x", "a", cs0, x);
    SevenStmt(cs1);
    LetCode("y", "b", cs2, xy);
    ReturnCode("y", 1, cs3);
    NilCode(cs4, false);
    ConsCode(s.tail.tail.tail.head, Nil, cs3, false);
    ConsCode(s.tail.tail.head, s.tail.tail.tail, cs2, false);
    ConsCode(s.tail.head, s.tail.tail, cs1, false);
    ConsCode(s.head, s.tail, cs0, false);
    var seg := Ops([KvGet(0, 0)]) + (Ops([LoadConst(1, 0)]) + (Ops([KvGet(1, 1)]) + (Ops([Move(2, 1), Return(2)]) + [])));
    assert GenBody(Slots(), [], Block(s, None)) == Some((seg, cs4));
    assert Flat(seg) == ReuseCode();
  }

  lemma NilCode(cs: CState, inLoop: bool)
    requires |cs.scopes| > 0
    ensures GenStmts(Slots(), Nil, cs, inLoop) == Some(([], cs))
  {
  }

  lemma SevenStmt(cs: CState)
    requires |cs.scopes| > 0 && cs == At([], 1, 1, cs.scopes)
    ensures GenStmt(Slots(), ExprStmt(Lit(Int(7))), cs, false) == Some((Ops([LoadConst(1, 0)]), At([Int(7)], 1, 2, cs.scopes)))
  {
    hide GenExpr, Slots;
    SevenCode(cs);
  }

  lemma SevenCode(cs: CState)
    requires cs == At([], 1, 1, cs.scopes)
    ensures GenExpr(Slots(), Lit(Int(7)), 1, Alloc(cs)) == Some(([LoadConst(1, 0)], At([Int(7)], 2, 2, cs.scopes)))
  {
    InternNew(Alloc(cs), Int(7));
    assert [] + [Int(7)] == [Int(7)];
  }

  lemma InternNew(cs: CState, v: Value)
    requires v !in cs.consts
    ensures ConstPos(cs.consts, v) == |cs.consts| && Intern(cs, v) == cs.(consts := cs.consts + [v])
  {
  }

  lemma ReuseBounds()
    ensures IsBounds({}, ReuseCode(), [0, 3, 4, 5])
  {
    var code := ReuseCode();
    assert ClusterEnd({}, code, 3, {0} + {1}) == 3 by {
      assert 1 in Sources(code[3]) * ({0} + {1});
    }
    assert ClusterEnd({}, code, 2, {0}) == 3;
    assert ClusterEnd({}, code, 1, {0}) == 3;
    assert BlockEnd({}, code, 0) == 3;
    assert BlockEnd({}, code, 3) == 4 && BlockEnd({}, code, 4) == 5;
  }

  /** As compiled, the discarded 7 sits in the register that the second read fills. Reads
      first, the 7 survives: `y` is 7 whatever `b` holds, in every layout of that code. */
  lemma DeferredOverwrites(k: Kernel, g: Function, bounds: seq<nat>, starts: seq<nat>, st: State)
    requires Layout({}, Reused(), g, bounds, starts)
    ensures Compile(Slots(), [], Block(ReuseStmts(), None)) == Some(Compiled(Reused(), 3))
    ensures !Safe(Reused(), BoundsOf({}, Reused().code))
    ensures Run(k, Reused(), Running(0, Frame([], 3), st), 5) == Finished(k.get(1, st), st)
    ensures Run(k, g, Running(0, Frame([], 3), st), 4) == Finished(Int(7), st)
  {
    hide Run, Safe, HazardFree, Compile, BlockEnd;
    ReuseCompiles();
    ReuseBounds();
    BoundsDetermined({}, ReuseCode(), [0, 3, 4, 5]);
    BoundsDetermined({}, ReuseCode(), bounds);
    ReusedUnsafe();
    assert Frame([], 3) == [Unit, Unit, Unit];
    ReusedRun(k, st);
    ReuseLaid(g, starts);
    ReorderedRun(k, g, st);
  }

  ghost predicate ReuseOut(g: Function) {
    && |g.code| == 4 && g.consts == [Int(7)]
    && g.code[0].ReadBatch? && g.code[1] == LoadConst(1, 0) && g.code[2] == Move(2, 1) && g.code[3] == Return(2)
    && g.code[0].group < |g.groups| && g.groups[g.code[0].group] == [StateRead(0, 0), StateRead(1, 1)]
  }

  lemma ReuseLaid(g: Function, starts: seq<nat>)
    requires Layout({}, Reused(), g, [0, 3, 4, 5], starts)
    ensures ReuseOut(g)
  {
    var f, bounds := Reused(), [0, 3, 4, 5];
    var c := f.code[0..3];
    assert c == [KvGet(0, 0), LoadConst(1, 0), KvGet(1, 1)];
    ClusterParts(c);
    assert BlockLaid(f, g, bounds, starts, 0) && BlockLaid(f, g, bounds, starts, 1) && BlockLaid(f, g, bounds, starts, 2);
    assert g.code[1..2] == [LoadConst(1, 0)] && starts[1] == 2;
    assert g.code[1] == g.code[1..2][0];
  }

  lemma ReusedUnsafe()
    ensures !Safe(Reused(), [0, 3, 4, 5])
  {
    var f, bounds := Reused(), [0, 3, 4, 5];
    var c := f.code[0..3];
    assert !HazardFree(f, c) by {
      assert c[2].dst in Names(f, c[1]);
    }
    assert c == f.code[bounds[0]..bounds[1]];
  }

  lemma ReusedRun(k: Kernel, st: State)
    ensures Run(k, Reused(), Running(0, [Unit, Unit, Unit], st), 5) == Finished(k.get(1, st), st)
  {
    hide Run;
    var f, a, b := Reused(), k.get(0, st), k.get(1, st);
    var c := Running(0, [Unit, Unit, Unit], st);
    RunNext(k, f, c, Running(1, [a, Unit, Unit], st), 4);
    RunNext(k, f, Running(1, [a, Unit, Unit], st), Running(2, [a, Int(7), Unit], st), 3);
    RunNext(k, f, Running(2, [a, Int(7), Unit], st), Running(3, [a, b, Unit], st), 2);
    RunNext(k, f, Running(3, [a, b, Unit], st), Running(4, [a, b, b], st), 1);
    RunOne(k, f, Running(4, [a, b, b], st));
  }

  lemma ReorderedRun(k: Kernel, g: Function, st: State)
    requires ReuseOut(g)
    ensures Run(k, g, Running(0, [Unit, Unit, Unit], st), 4) == Finished(Int(7), st)
  {
    hide Run, Scatter;
    var a, b := k.get(0, st), k.get(1, st);
    ReadsBoth(k, [Unit, Unit, Unit], st);
    RunNext(k, g, Running(0, [Unit, Unit, Unit], st), Running(1, [a, b, Unit], st), 3);
    RunNext(k, g, Running(1, [a, b, Unit], st), Running(2, [a, Int(7), Unit], st), 2);
    RunNext(k, g, Running(2, [a, Int(7), Unit], st), Running(3, [a, Int(7), Int(7)], st), 1);
    RunOne(k, g, Running(3, [a, Int(7), Int(7)], st));
  }

  lemma RunNext(k: Kernel, f: Function, c: Config, c': Config, n: nat)
    requires Step(k, f, c) == c'
    ensures Run(k, f, c, n + 1) == Run(k, f, c', n)
  {
  }

  lemma ClusterParts(c: seq<Instr>)
    requires c == [KvGet(0, 0), LoadConst(1, 0), KvGet(1, 1)]
    ensures Reads(c) == [StateRead(0, 0), StateRead(1, 1)] && Rest(c) == [LoadConst(1, 0)]
  {
    assert c[..2] == [KvGet(0, 0), LoadConst(1, 0)];
    assert c[..2][..1] == [KvGet(0, 0)];
    assert c[..2][..1][..0] == [];
    assert Reads(c[..2][..1]) == [StateRead(0, 0)] && Rest(c[..2][..1]) == [];
    assert Reads(c[..2]) == [StateRead(0, 0)] && Rest(c[..2]) == [LoadConst(1, 0)];
  }

  lemma ReadsBoth(k: Kernel, regs: seq<Value>, st: State)
    requires |regs| == 3
    ensures Scatter(k, [StateRead(0, 0), StateRead(1, 1)], regs, st) == Some([k.get(0, st), k.get(1, st), regs[2]])
  {
    var ops := [StateRead(0, 0), StateRead(1, 1)];
    assert ops[1..] == [StateRead(1, 1)];
    assert ops[1..][1..] == [];
    var a, b := k.get(0, st), k.get(1, st);
    assert Scatter(k, [], regs[0 := a][1 := b], st) == Some(regs[0 := a][1 := b]);
    assert regs[0 := a][1 := b] == [a, b, regs[2]];
  }

  // ---------- a jump into a cluster ----------

  /** `x = x + 1; b = false;` */
  function StepStmts(): Stmts {
    Cons(Assign("x", Binary(Add, Ident("x"), Lit(Int(1)))), Cons(Assign("b", Lit(Bool(false))), Nil))
  }

  /** `let x = a; while b { x = x + 1; b = false; } return x;` */
  function CountStmts(): Stmts {
    Cons(Let("x", Ident("a")),
         Cons(While(Ident("b"), Block(StepStmts(), None)), Cons(ReturnStmt(Some(Ident("x"))), Nil)))
  }

  function StepCode(): seq<Instr> {
    [Move(1, 0), LoadConst(2, 0), Bin(Add, 1, 1, 2), Move(0, 1), LoadConst(1, 1), KvPut(1, 1)]
  }

  function CountCode(): seq<Instr> {
    [KvGet(0, 0), KvGet(1, 1), JumpIfFalse(1, 7),
     Move(1, 0), LoadConst(2, 0), Bin(Add, 1, 1, 2), Move(0, 1), LoadConst(1, 1), KvPut(1, 1), Jump(-9),
     Move(1, 0), Return(1)]
  }

  function Count(): Function { Function(CountCode(), [Int(1), Bool(false)], []) }

  lemma StepCompiles(cs: CState)
    requires cs == At([], 1, 2, [map[], map["x" := 0], map[]])
    ensures GenStmts(Slots(), StepStmts(), cs, true) == Some((Ops(StepCode()), At([Int(1), Bool(false)], 1, 3, cs.scopes)))
  {
    hide GenStmts, GenExpr, GenStmt, Slots;
    var s := StepStmts();
    var cs1, cs2 := At([Int(1)], 1, 3, cs.scopes), At([Int(1), Bool(false)], 1, 3, cs.scopes);
    AssignLocal(cs);
    AssignState(cs1);
    NilCode(cs2, true);
    ConsCode(s.tail.head, Nil, cs1, true);
    ConsCode(s.head, s.tail, cs, true);
    assert Ops([Move(1, 0), LoadConst(2, 0), Bin(Add, 1, 1, 2), Move(0, 1)]) + (Ops([LoadConst(1, 1), KvPut(1, 1)]) + []) == Ops(StepCode());
  }

  lemma AssignLocal(cs: CState)
    requires cs == At([], 1, 2, [map[], map["x" := 0], map[]])
    ensures GenStmt(Slots(), StepStmts().head, cs, true) ==
      Some((Ops([Move(1, 0), LoadConst(2, 0), Bin(Add, 1, 1, 2), Move(0, 1)]), At([Int(1)], 1, 3, cs.scopes)))
  {
    hide GenExpr, Slots;
    AddCode(Alloc(cs));
    assert [Move(1, 0), LoadConst(2, 0), Bin(Add, 1, 1, 2)] + [Move(0, 1)] ==
      [Move(1, 0), LoadConst(2, 0), Bin(Add, 1, 1, 2), Move(0, 1)];
    assert "x" in cs.scopes[1] && "x" !in cs.scopes[0] && "x" !in cs.scopes[2];
  }

  lemma AssignState(cs: CState)
    requires cs == At([Int(1)], 1, 3, [map[], map["x" := 0], map[]])
    ensures GenStmt(Slots(), StepStmts().tail.head, cs, true) ==
      Some((Ops([LoadConst(1, 1), KvPut(1, 1)]), At([Int(1), Bool(false)], 1, 3, cs.scopes)))
  {
    hide GenExpr, Ops;
    FalseCode(cs);
    assert "b" !in cs.scopes[0] && "b" !in cs.scopes[1] && "b" !in cs.scopes[2];
    assert [LoadConst(1, 1)] + [KvPut(1, 1)] == [LoadConst(1, 1), KvPut(1, 1)];
  }

  lemma AddCode(cs: CState)
    requires cs == At([], 2, 2, [map[], map["x" := 0], map[]])
    ensures GenExpr(Slots(), Binary(Add, Ident("x"), Lit(Int(1))), 1, cs) ==
      Some(([Move(1, 0), LoadConst(2, 0), Bin(Add, 1, 1, 2)], At([Int(1)], 2, 3, cs.scopes)))
  {
    assert "x" in cs.scopes[1];
    LocalCode("x", 0, 1, cs);
    InternNew(Alloc(cs), Int(1));
    assert [] + [Int(1)] == [Int(1)];
    assert GenExpr(Slots(), Lit(Int(1)), 2, Alloc(cs)) == Some(([LoadConst(2, 0)], At([Int(1)], 3, 3, cs.scopes)));
    assert [Move(1, 0)] + [LoadConst(2, 0)] + [Bin(Add, 1, 1, 2)] == [Move(1, 0), LoadConst(2, 0), Bin(Add, 1, 1, 2)];
  }

  lemma FalseCode(cs: CState)
    requires cs == At([Int(1)], 1, 3, cs.scopes)
    ensures GenExpr(Slots(), Lit(Bool(false)), 1, Alloc(cs)) ==
      Some(([LoadConst(1, 1)], At([Int(1), Bool(false)], 2, 3, cs.scopes)))
  {
    InternNew(Alloc(cs), Bool(false));
    assert [Int(1)] + [Bool(false)] == [Int(1), Bool(false)];
  }

  lemma CountCompiles()
    ensures Compile(Slots(), [], Block(CountStmts(), None)) == Some(Compiled(Count(), 3))
  {
    hide GenStmts, GenExpr, GenStmt;
    var s := CountStmts();
    var x: map<string, nat> := map["x" := 0];
    var consts := [Int(1), Bool(false)];
    var cs0, cs1 := At([], 0, 0, [map[], map[]]), At([], 1, 1, [map[], x]);
    var cs2 := At(consts, 1, 3, [map[], x]);
    EntryAt();
    LetCode("x", "a", cs0, x);
    LoopCompiles(cs1);
    ReturnCode("x", 0, cs2);
    NilCode(cs2, false);
    ConsCode(s.tail.tail.head, Nil, cs2, false);
    ConsCode(s.tail.head, s.tail.tail, cs1, false);
    ConsCode(s.head, s.tail, cs0, false);
    var seg := Ops([KvGet(0, 0)]) + (Ops(CountCode()[1..10]) + (Ops([Move(1, 0), Return(1)]) + []));
    assert GenBody(Slots(), [], Block(s, None)) == Some((seg, cs2));
    assert Flat(seg) == CountCode();
  }

  lemma LoopCompiles(cs: CState)
    requires cs == At([], 1, 1, [map[], map["x" := 0]])
    ensures GenStmt(Slots(), CountStmts().tail.head, cs, false) ==
      Some((Ops(CountCode()[1..10]), At([Int(1), Bool(false)], 1, 3, cs.scopes)))
  {
    hide GenStmts, GenExpr;
    ReadCode("b", 1, Alloc(cs));
    var cs1 := At([], 1, 2, cs.scopes);
    var inner := At([], 1, 2, [map[], map["x" := 0], map[]]);
    assert cs.scopes + [map[]] == inner.scopes;
    StepCompiles(inner);
    assert Outer(inner.scopes) == cs.scopes;
    assert GenBlock(Slots(), Block(StepStmts(), None), cs1, true) ==
      Some((Ops(StepCode()), At([Int(1), Bool(false)], 1, 3, cs.scopes)));
    assert Fill(Ops(StepCode()), 2, 9, 0) == StepCode();
    assert Loop([KvGet(1, 1)], 1, Ops(StepCode())) == CountCode()[1..10];
  }

  function CountBounds(): seq<nat> { [0, 2, 3, 4, 5, 6, 7, 8, 9, 10, 11, 12] }

  lemma CountBoundsOk()
    ensures IsBounds({}, CountCode(), CountBounds())
  {
    var code := CountCode();
    assert ClusterEnd({}, code, 2, {0} + {1}) == 2;
    assert ClusterEnd({}, code, 1, {0}) == 2;
    assert BlockEnd({}, code, 0) == 2;
    var bounds := CountBounds();
    hide ClusterEnd, Breaker, Sources;
    forall j | 1 <= j < 11 ensures bounds[j] < |code| && bounds[j + 1] == BlockEnd({}, code, bounds[j]) {
      assert !IsRead(code[bounds[j]]) && bounds[j] == j + 1;
    }
  }

  lemma CountUnsafe()
    ensures !Safe(Count(), CountBounds())
  {
    var f := Count();
    assert IsJump(f.code[9]) && Target(f.code[9], 9) == 1 && 1 !in CountBounds();
  }

  ghost predicate CountOut(g: Function) {
    && |g.code| == 11 && g.consts == [Int(1), Bool(false)]
    && g.code[0].ReadBatch? && g.code[0].group < |g.groups| && g.groups[g.code[0].group] == [StateRead(0, 0), StateRead(1, 1)]
    && g.code[1] == JumpIfFalse(1, 7) && g.code[2..8] == StepCode() && g.code[8] == Jump(-9)
    && g.code[9] == Move(1, 0) && g.code[10] == Return(1)
  }

  lemma PairOfReads(c: seq<Instr>)
    requires c == [KvGet(0, 0), KvGet(1, 1)]
    ensures Reads(c) == [StateRead(0, 0), StateRead(1, 1)] && Rest(c) == []
  {
    assert c[..1] == [KvGet(0, 0)];
    assert c[..1][..0] == [];
    assert Reads(c[..1]) == [StateRead(0, 0)] && Rest(c[..1]) == [];
  }

  lemma CountStarts(g: Function, starts: seq<nat>)
    requires Layout({}, Count(), g, CountBounds(), starts)
    ensures starts == [0, 1, 2, 3, 4, 5, 6, 7, 8, 9, 10, 11]
    ensures g.code[0].ReadBatch? && g.code[0].group < |g.groups| && g.groups[g.code[0].group] == [StateRead(0, 0), StateRead(1, 1)]
  {
    hide BlockEnd, SingleAt, TargetOk, AllAlone;
    var f, bounds := Count(), CountBounds();
    var c := f.code[0..2];
    assert c == [KvGet(0, 0), KvGet(1, 1)];
    PairOfReads(c);
    assert BlockLaid(f, g, bounds, starts, 0);
    assert starts[1] == 1;
    var j := 1;
    while j < 11
      invariant 1 <= j <= 11 && forall i :: 0 <= i <= j ==> starts[i] == i
    {
      assert BlockLaid(f, g, bounds, starts, j);
      j := j + 1;
    }
  }

  lemma CountLaid(g: Function, starts: seq<nat>)
    requires Layout({}, Count(), g, CountBounds(), starts)
    ensures CountOut(g)
  {
    hide BlockEnd, ClusterAt, TargetOk, AllAlone;
    var f, bounds := Count(), CountBounds();
    CountStarts(g, starts);
    forall j | 1 <= j < 11 ensures SingleAt(f, g, bounds, starts, bounds[j], starts[j]) {
      assert BlockLaid(f, g, bounds, starts, j);
    }
    assert f.code[3..9] == StepCode();
    forall j | 0 <= j < 6 ensures g.code[2..8][j] == StepCode()[j] {
      assert bounds[2 + j] == 3 + j && starts[2 + j] == 2 + j;
      assert g.code[2 + j] == f.code[3 + j] == f.code[3..9][j];
    }
    assert g.code[2..8] == StepCode();
    assert bounds[1] == 2 && starts[1] == 1 && bounds[8] == 9 && starts[8] == 8;
    assert bounds[9] == 10 && starts[9] == 9 && bounds[10] == 11 && starts[10] == 10;
    ExitTarget(g, starts);
    BackTarget(g, starts);
  }

  lemma ExitTarget(g: Function, starts: seq<nat>)
    requires starts == [0, 1, 2, 3, 4, 5, 6, 7, 8, 9, 10, 11] && |g.code| > 1 && g.code[1].JumpIfFalse?
    requires TargetOk(Count(), g, CountBounds(), starts, 10, Target(g.code[1], 1))
    ensures g.code[1].offset == 7
  {
    assert CountBounds()[9] == 10;
  }

  /** The back edge goes to the second read, which is now part of the batch. */
  lemma BackTarget(g: Function, starts: seq<nat>)
    requires starts == [0, 1, 2, 3, 4, 5, 6, 7, 8, 9, 10, 11] && |g.code| > 8 && g.code[8].Jump?
    requires TargetOk(Count(), g, CountBounds(), starts, 1, Target(g.code[8], 8))
    ensures g.code[8].offset == -9
  {
    var bounds := CountBounds();
    assert bounds[0] <= 1 < bounds[1] <= |Count().code|;
  }

  /** What the loop's two runs need of the kernel: `b` is true and then false, writing `b`
      leaves `a`, and the value of `a` can be added to. */
  ghost predicate LoopsOnce(k: Kernel, st: State, a: Value, next: Value) {
    var st' := k.put(1, Bool(false), st);
    && k.get(0, st) == a && k.get(1, st) == Bool(true)
    && k.get(0, st') == a && k.get(1, st') == Bool(false)
    && k.bin(Add, a, Int(1)) == Ok(next)
  }

  lemma StepAt(f: Function, at: nat)
    requires at + 6 <= |f.code| && f.code[at..at + 6] == StepCode()
    ensures f.code[at] == Move(1, 0) && f.code[at + 1] == LoadConst(2, 0) && f.code[at + 2] == Bin(Add, 1, 1, 2)
    ensures f.code[at + 3] == Move(0, 1) && f.code[at + 4] == LoadConst(1, 1) && f.code[at + 5] == KvPut(1, 1)
  {
    var c := f.code[at..at + 6];
    assert f.code[at] == c[0] && f.code[at + 1] == c[1] && f.code[at + 2] == c[2];
    assert f.code[at + 3] == c[3] && f.code[at + 4] == c[4] && f.code[at + 5] == c[5];
  }

  lemma StepRun(k: Kernel, f: Function, at: nat, st: State, a: Value, next: Value, r1: Value, r2: Value)
    requires LoopsOnce(k, st, a, next) && at + 6 <= |f.code| && f.code[at..at + 6] == StepCode()
    requires f.consts == [Int(1), Bool(false)]
    ensures Run(k, f, Running(at, [a, r1, r2], st), 6) ==
      Running(at + 6, [next, Bool(false), Int(1)], k.put(1, Bool(false), st))
  {
    hide Run, StepCode;
    StepAt(f, at);
    var one := Int(1);
    RunNext(k, f, Running(at, [a, r1, r2], st), Running(at + 1, [a, a, r2], st), 5);
    RunNext(k, f, Running(at + 1, [a, a, r2], st), Running(at + 2, [a, a, one], st), 4);
    RunNext(k, f, Running(at + 2, [a, a, one], st), Running(at + 3, [a, next, one], st), 3);
    RunNext(k, f, Running(at + 3, [a, next, one], st), Running(at + 4, [next, next, one], st), 2);
    RunNext(k, f, Running(at + 4, [next, next, one], st), Running(at + 5, [next, Bool(false), one], st), 1);
    RunOne(k, f, Running(at + 5, [next, Bool(false), one], st));
  }

  lemma CountRun(k: Kernel, st: State, a: Value, next: Value)
    requires LoopsOnce(k, st, a, next)
    ensures Run(k, Count(), Running(0, [Unit, Unit, Unit], st), 14) == Finished(next, k.put(1, Bool(false), st))
  {
    hide Run;
    var f, t := Count(), Bool(true);
    RunNext(k, f, Running(0, [Unit, Unit, Unit], st), Running(1, [a, Unit, Unit], st), 13);
    RunNext(k, f, Running(1, [a, Unit, Unit], st), Running(2, [a, t, Unit], st), 12);
    RunNext(k, f, Running(2, [a, t, Unit], st), Running(3, [a, t, Unit], st), 11);
    assert f.code[3..9] == StepCode();
    StepRun(k, f, 3, st, a, next, t, Unit);
    RunCompose(k, f, Running(3, [a, t, Unit], st), 6, 5);
    CountExit(k, st, a, next);
  }

  lemma CountExit(k: Kernel, st: State, a: Value, next: Value)
    requires LoopsOnce(k, st, a, next)
    ensures var st' := k.put(1, Bool(false), st);
      Run(k, Count(), Running(9, [next, Bool(false), Int(1)], st'), 5) == Finished(next, st')
  {
    hide Run;
    var f, one := Count(), Int(1);
    var st' := k.put(1, Bool(false), st);
    var regs := [next, Bool(false), one];
    RunNext(k, f, Running(9, regs, st'), Running(1, regs, st'), 4);
    RunNext(k, f, Running(1, regs, st'), Running(2, regs, st'), 3);
    RunNext(k, f, Running(2, regs, st'), Running(10, regs, st'), 2);
    RunNext(k, f, Running(10, regs, st'), Running(11, [next, next, one], st'), 1);
    RunOne(k, f, Running(11, [next, next, one], st'));
  }

  lemma ReloadedRun(k: Kernel, g: Function, st: State, a: Value, next: Value)
    requires LoopsOnce(k, st, a, next) && CountOut(g)
    ensures Run(k, g, Running(0, [Unit, Unit, Unit], st), 13) == Finished(a, k.put(1, Bool(false), st))
  {
    hide Run, Scatter;
    var t, one := Bool(true), Int(1);
    ReadsBoth(k, [Unit, Unit, Unit], st);
    RunNext(k, g, Running(0, [Unit, Unit, Unit], st), Running(1, [a, t, Unit], st), 12);
    RunNext(k, g, Running(1, [a, t, Unit], st), Running(2, [a, t, Unit], st), 11);
    StepRun(k, g, 2, st, a, next, t, Unit);
    RunCompose(k, g, Running(2, [a, t, Unit], st), 6, 5);
    var st' := k.put(1, Bool(false), st);
    var regs, regs' := [next, Bool(false), one], [a, Bool(false), one];
    RunNext(k, g, Running(8, regs, st'), Running(0, regs, st'), 4);
    ReadsBoth(k, regs, st');
    RunNext(k, g, Running(0, regs, st'), Running(1, regs', st'), 3);
    RunNext(k, g, Running(1, regs', st'), Running(9, regs', st'), 2);
    RunNext(k, g, Running(9, regs', st'), Running(10, [a, a, one], st'), 1);
    RunOne(k, g, Running(10, [a, a, one], st'));
  }

  /** The loop header is the second read of a cluster, so the pass sends the back edge to the
      batch: every iteration loads `a` into the register of `x` again. Compiled, the call
      counts; in every layout of the compiled code it returns `a`. */
  lemma LoopReloads(k: Kernel, g: Function, bounds: seq<nat>, starts: seq<nat>, st: State, a: Value, next: Value)
    requires Layout({}, Count(), g, bounds, starts) && LoopsOnce(k, st, a, next)
    ensures Compile(Slots(), [], Block(CountStmts(), None)) == Some(Compiled(Count(), 3))
    ensures !Safe(Count(), BoundsOf({}, Count().code))
    ensures Run(k, Count(), Running(0, Frame([], 3), st), 14) == Finished(next, k.put(1, Bool(false), st))
    ensures Run(k, g, Running(0, Frame([], 3), st), 13) == Finished(a, k.put(1, Bool(false), st))
  {
    hide Run, Safe, Compile, BlockEnd, LoopsOnce, CountOut;
    CountCompiles();
    CountBoundsOk();
    BoundsDetermined({}, CountCode(), CountBounds());
    BoundsDetermined({}, CountCode(), bounds);
    CountUnsafe();
    assert Frame([], 3) == [Unit, Unit, Unit];
    CountRun(k, st, a, next);
    CountLaid(g, starts);
    ReloadedRun(k, g, st, a, next);
  }

  /** Slots are cells of the store and `+` adds. */
  function Plain(): Kernel {
    Kernel(
      (op: BinOp, x: Value, y: Value) => if op == Add && x.Int? && y.Int? then Ok(Int(x.n + y.n)) else Err(Panic),
      (_, x) => Ok(x),
      x => Ok(x),
      (i, st) => if i in st then st[i] else Unit,
      (i, v, st) => st[i := v],
      (_, _) => Unit,
      (_, _, st) => st,
      (_, _, st) => Returned(Unit, st))
  }

  /** With 5 in `a` and true in `b`: 6 as compiled, 5 once optimized. */
  lemma LoopReloadsFive(g: Function, bounds: seq<nat>, starts: seq<nat>)
    requires Layout({}, Count(), g, bounds, starts)
    ensures var st: State := map[0 := Int(5), 1 := Bool(true)];
      var st': State := map[0 := Int(5), 1 := Bool(false)];
      && Run(Plain(), Count(), Running(0, Frame([], 3), st), 14) == Finished(Int(6), st')
      && Run(Plain(), g, Running(0, Frame([], 3), st), 13) == Finished(Int(5), st')
  {
    hide Run, Layout, Frame;
    var st: State := map[0 := Int(5), 1 := Bool(true)];
    assert st[1 := Bool(false)] == map[0 := Int(5), 1 := Bool(false)];
    assert LoopsOnce(Plain(), st, Int(5), Int(6));
    LoopReloads(Plain(), g, bounds, starts, st, Int(5), Int(6));
  }
}
