/** Programs on which the compiled code and the interpreter disagree: the conditions of the
    agreement theorems cannot be dropped. */
module CompileGaps {
  import opened Options
  import opened Machine
  import opened Interp
  import opened CodeGen
  import opened CompileFn
  import CondTypes

  function OneStmt(s: Stmt): Block { Block(Cons(s, Nil), None) }

  /** `if true {} else { return; }` */
  function EarlyReturn(): IfStmt {
    IfStmt(Lit(Bool(true)), Block(Nil, None), ElseBlock(OneStmt(ReturnStmt(None))))
  }

  lemma EarlyReturnCode(slots: map<string, nat>)
    ensures Compile(slots, [], OneStmt(If(EarlyReturn()))) ==
      Some(Compiled(Function([LoadConst(0, 0), JumpIfFalse(0, 1), Jump(1), ReturnUnit], [Bool(true)], []), 1))
  {
    hide GenBody;
    EarlyReturnBody(slots);
  }

  lemma EarlyReturnBody(slots: map<string, nat>)
    ensures var g := GenBody(slots, [], OneStmt(If(EarlyReturn())));
      && g.Some? && Flat(g.value.0) == [LoadConst(0, 0), JumpIfFalse(0, 1), Jump(1), ReturnUnit]
      && g.value.1.consts == [Bool(true)] && g.value.1.maxReg == 1 && EndsInReturn(Flat(g.value.0))
  {
    var ifs := EarlyReturn();
    var cs0 := Entry([]);
    var cs1 := Intern(Alloc(cs0), Bool(true));
    assert GenExpr(slots, ifs.cond, 0, Alloc(cs0)) == Some(([LoadConst(0, 0)], cs1));
    var cs2 := Free(cs1, 0);
    EmptyBlock(slots, cs2);
    ReturnBlock(slots, cs2);
    var seg := Branch([LoadConst(0, 0)], 0, [], [Op(ReturnUnit)]);
    assert GenIf(slots, ifs, cs0, false) == Some((seg, cs2));
    assert GenStmts(slots, Nil, cs2, false) == Some(([], cs2));
    assert seg + [] == seg;
    assert GenStmts(slots, Cons(If(ifs), Nil), cs0, false) == Some((seg, cs2));
    assert Flat(seg) == [LoadConst(0, 0), JumpIfFalse(0, 1), Jump(1), ReturnUnit];
    assert cs2.consts == [Bool(true)] && cs2.maxReg == 1;
    assert GenBody(slots, [], OneStmt(If(ifs))) == Some((seg, cs2));
    assert EndsInReturn(Flat(seg));
  }

  lemma EarlyReturnRun(k: Kernel, f: Function, st: State)
    requires f == Function([LoadConst(0, 0), JumpIfFalse(0, 1), Jump(1), ReturnUnit], [Bool(true)], [])
    ensures Run(k, f, Running(0, [Unit], st), 4) == Failed(PcOutOfBounds)
  {
    var c1 := Running(1, [Bool(true)], st);
    assert Step(k, f, Running(0, [Unit], st)) == c1;
    assert Step(k, f, c1) == c1.(pc := 2);
    assert Step(k, f, c1.(pc := 2)) == c1.(pc := 4);
    assert Step(k, f, c1.(pc := 4)) == Failed(PcOutOfBounds);
    Four(k, f, Running(0, [Unit], st));
  }

  lemma EarlyReturnCall(env: Env, st: State)
    ensures CallFn(env, 0, [], OneStmt(If(EarlyReturn())), [], st) == Answer(Unit, st)
  {
    hide ExecStmts;
    EarlyReturnFalls(env, st);
  }

  lemma EarlyReturnFalls(env: Env, st: State)
    ensures var vars: Scopes := [Bind([], []), map[]];
      ExecStmts(env, 0, OneStmt(If(EarlyReturn())).stmts, vars, st) == Done(Normal, vars, st)
  {
    var vars: Scopes := [Bind([], []), map[]];
    var inner := vars + [map[]];
    assert ExecStmts(env, 0, Nil, inner, st) == Done(Normal, inner, st);
    assert Interp.Pop(inner) == vars;
    assert ExecBlock(env, 0, Block(Nil, None), vars, st) == Done(Normal, vars, st);
    assert ExecIf(env, 0, EarlyReturn(), vars, st) == Done(Normal, vars, st);
    assert Exec(env, 0, If(EarlyReturn()), vars, st) == Done(Normal, vars, st);
    assert ExecStmts(env, 0, Nil, vars, st) == Done(Normal, vars, st);
  }

  /** The last instruction emitted for that `if` is a return, so none is added, and the jump
      over the `else` branch leaves the code: the call fails where the interpreter returns. */
  lemma MissingReturn(env: Env, st: State)
    ensures var body := OneStmt(If(EarlyReturn()));
      && Compile(env.slots, [], body).Some?
      && CallFn(env, 0, [], body, [], st) == Answer(Unit, st)
      && !CondTypes.ReturnsAtEnd(env.slots, [], body) && CondTypes.RunsOff(env, [], body, [], st)
      && var Compiled(f, nRegs) := Compile(env.slots, [], body).value;
         Run(env.k, f, Running(0, Frame([], nRegs), st), 4) == Failed(PcOutOfBounds)
  {
    hide Compile, CallFn, Run;
    EarlyReturnCode(env.slots);
    EarlyReturnCall(env, st);
    var f := Compile(env.slots, [], OneStmt(If(EarlyReturn()))).value.f;
    EarlyReturnRun(env.k, f, st);
    assert Frame([], 1) == [Unit];
    EarlyReturnLost(env, st);
  }

  lemma EarlyReturnLost(env: Env, st: State)
    requires Compile(env.slots, [], OneStmt(If(EarlyReturn()))).Some?
    ensures var body := OneStmt(If(EarlyReturn()));
      !CondTypes.ReturnsAtEnd(env.slots, [], body) && CondTypes.Lost(env, 0, [], body, [], st)
  {
    var ifs := EarlyReturn();
    EarlyReturnBody(env.slots);
    assert CondTypes.StmtsLeave(ifs.thn.stmts) == false;
    assert !CondTypes.StmtLeaves(If(ifs)) && !CondTypes.StmtsLeave(Nil);
    EarlyReturnFalls(env, st);
  }

  lemma EmptyBlock(slots: map<string, nat>, cs: CState)
    ensures GenBlock(slots, Block(Nil, None), cs, false) == Some(([], cs))
  {
    assert Outer(cs.scopes + [map[]]) == cs.scopes;
  }

  lemma ReturnBlock(slots: map<string, nat>, cs: CState)
    ensures GenBlock(slots, OneStmt(ReturnStmt(None)), cs, false) == Some(([Op(ReturnUnit)], cs))
  {
    var inner: CState := cs.(scopes := cs.scopes + [map[]]);
    assert GenStmt(slots, ReturnStmt(None), inner, false) == Some(([Op(ReturnUnit)], inner));
    assert GenStmts(slots, Nil, inner, false) == Some(([], inner));
    assert [Op(ReturnUnit)] + [] == [Op(ReturnUnit)];
    assert Outer(cs.scopes + [map[]]) == cs.scopes;
  }

  lemma Four(k: Kernel, f: Function, c: Config)
    ensures Run(k, f, c, 4) == Step(k, f, Step(k, f, Step(k, f, Step(k, f, c))))
  {
    var c1 := Step(k, f, c);
    var c2 := Step(k, f, c1);
    var c3 := Step(k, f, c2);
    assert Run(k, f, c3, 1) == Run(k, f, Step(k, f, c3), 0);
    assert Run(k, f, c2, 2) == Run(k, f, c3, 1);
    assert Run(k, f, c1, 3) == Run(k, f, c2, 2);
  }

  /** `if 1 {}` */
  function OneIsTrue(): IfStmt { IfStmt(Lit(Int(1)), Block(Nil, None), NoElse) }

  lemma OneIsTrueCode(slots: map<string, nat>)
    ensures Compile(slots, [], OneStmt(If(OneIsTrue()))) ==
      Some(Compiled(Function([LoadConst(0, 0), JumpIfFalse(0, 1), Jump(0), ReturnUnit], [Int(1)], []), 1))
  {
    var ifs := OneIsTrue();
    var cs0 := Entry([]);
    var cs1 := Intern(Alloc(cs0), Int(1));
    assert GenExpr(slots, ifs.cond, 0, Alloc(cs0)) == Some(([LoadConst(0, 0)], cs1));
    var cs2 := Free(cs1, 0);
    EmptyBlock(slots, cs2);
    var seg := Branch([LoadConst(0, 0)], 0, [], []);
    assert GenIf(slots, ifs, cs0, false) == Some((seg, cs2));
    assert GenStmts(slots, Nil, cs2, false) == Some(([], cs2));
    assert seg + [] == seg;
    assert GenStmts(slots, Cons(If(ifs), Nil), cs0, false) == Some((seg, cs2));
    assert Flat(seg) == [LoadConst(0, 0), JumpIfFalse(0, 1), Jump(0)];
    assert cs2.consts == [Int(1)] && cs2.maxReg == 1;
    assert GenBody(slots, [], OneStmt(If(ifs))) == Some((seg, cs2));
    assert Flat(seg) + [ReturnUnit] == [LoadConst(0, 0), JumpIfFalse(0, 1), Jump(0), ReturnUnit];
  }

  lemma OneIsTrueRun(k: Kernel, f: Function, st: State)
    requires f == Function([LoadConst(0, 0), JumpIfFalse(0, 1), Jump(0), ReturnUnit], [Int(1)], [])
    ensures Run(k, f, Running(0, [Unit], st), 4) == Finished(Unit, st)
  {
    var c1 := Running(1, [Int(1)], st);
    assert Step(k, f, Running(0, [Unit], st)) == c1;
    assert Step(k, f, c1) == c1.(pc := 2);
    assert Step(k, f, c1.(pc := 2)) == c1.(pc := 3);
    Four(k, f, Running(0, [Unit], st));
  }

  /** A condition that is not a bool: the interpreter refuses the call at every fuel, the
      compiled function takes the branch and returns. */
  lemma NonBoolCondition(env: Env, st: State, fuel: nat)
    requires !env.lenient
    ensures var body := OneStmt(If(OneIsTrue()));
      && Compile(env.slots, [], body).Some?
      && CallFn(env, fuel, [], body, [], st) == Answer.Raised(CondNotBool)
      && var Compiled(f, nRegs) := Compile(env.slots, [], body).value;
         Run(env.k, f, Running(0, Frame([], nRegs), st), 4) == Finished(Unit, st)
  {
    hide Compile, Run;
    OneIsTrueCode(env.slots);
    var f := Compile(env.slots, [], OneStmt(If(OneIsTrue()))).value.f;
    OneIsTrueRun(env.k, f, st);
    assert Frame([], 1) == [Unit];
    var vars: Scopes := [Bind([], []), map[]];
    assert ExecIf(env, fuel, OneIsTrue(), vars, st) == Error(CondNotBool);
    assert Exec(env, fuel, If(OneIsTrue()), vars, st) == Error(CondNotBool);
    assert ExecStmts(env, fuel, OneStmt(If(OneIsTrue())).stmts, vars, st) == Error(CondNotBool);
  }
}
