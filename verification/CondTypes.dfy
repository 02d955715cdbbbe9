/** Where the interpreter and the machine can part: the interpreter rejects a condition that
    is not a bool, the machine takes any value but `false` as true. A program whose
    conditions are boolean by name and by operator never gets there. */
module CondTypes {
  import opened Options
  import opened Machine
  import opened Interp
  import opened CodeGen
  import opened CompileFn

  predicate BoolOp(op: BinOp) {
    op.Lt? || op.Gt? || op.LtEq? || op.GtEq? || op.Eq? || op.NotEq? || op.And? || op.Or?
  }

  /** `bools` are the names, local or state, declared bool. */
  predicate BoolExpr(bools: set<string>, e: Expr) {
    match e
    case Lit(v) => v.Bool?
    case Ident(x) => x in bools
    case Binary(op, _, _) => BoolOp(op)
    case Unary(op, _) => op.Not?
  }

  predicate BoolStmt(bools: set<string>, s: Stmt) {
    match s
    case Let(x, e) => x in bools ==> BoolExpr(bools, e)
    case Assign(x, e) => x in bools ==> BoolExpr(bools, e)
    case If(ifs) => BoolIf(bools, ifs)
    case While(c, b) => BoolExpr(bools, c) && BoolBlock(bools, b)
    case _ => true
  }

  predicate BoolIf(bools: set<string>, ifs: IfStmt) {
    BoolExpr(bools, ifs.cond) && BoolBlock(bools, ifs.thn)
    && match ifs.els
       case NoElse => true
       case ElseBlock(b) => BoolBlock(bools, b)
       case ElseIf(nested) => BoolIf(bools, nested)
  }

  predicate BoolStmts(bools: set<string>, ss: Stmts) {
    ss.Cons? ==> BoolStmt(bools, ss.head) && BoolStmts(bools, ss.tail)
  }

  predicate BoolBlock(bools: set<string>, b: Block) { BoolStmts(bools, b.stmts) }

  /** The kernel's typing: comparisons and logic give bools, its own errors are its own. */
  ghost predicate KernelTyped(k: Kernel) {
    && (forall op, l, r :: match k.bin(op, l, r) case Ok(v) => BoolOp(op) ==> v.Bool? case Err(e) => e != CondNotBool)
    && (forall op, v :: match k.un(op, v) case Ok(w) => op.Not? ==> w.Bool? case Err(e) => e != CondNotBool)
  }

  ghost predicate BoolSlot(env: Env, bools: set<string>, i: nat) {
    exists x :: x in bools && x in env.slots && env.slots[x] == i
  }

  ghost predicate BoolState(env: Env, bools: set<string>, st: State) {
    forall i :: BoolSlot(env, bools, i) ==> env.k.get(i, st).Bool?
  }

  /** The store's typing: a slot declared bool reads back as a bool if only bools are put there. */
  ghost predicate StoreTyped(env: Env, bools: set<string>) {
    && (forall x, i :: x in env.slots && env.slots[x] == i && BoolSlot(env, bools, i) ==> x in bools)
    && (forall j: nat, v: Value, st: State :: BoolState(env, bools, st) && (BoolSlot(env, bools, j) ==> v.Bool?) ==>
          BoolState(env, bools, env.k.put(j, v, st)))
  }

  ghost predicate BoolVars(bools: set<string>, vars: Scopes) {
    forall i, x :: 0 <= i < |vars| && x in vars[i] && x in bools ==> vars[i][x].Bool?
  }

  ghost predicate Typed(env: Env, bools: set<string>, vars: Scopes, st: State) {
    KernelTyped(env.k) && StoreTyped(env, bools) && BoolVars(bools, vars) && BoolState(env, bools, st)
  }

  lemma {:induction false} EvalTyped(env: Env, bools: set<string>, e: Expr, vars: Scopes, st: State)
    requires Typed(env, bools, vars, st)
    ensures match Eval(env, e, vars, st)
      case Ok(v) => BoolExpr(bools, e) ==> v.Bool?
      case Err(x) => x != CondNotBool
    decreases e
  {
    match e
    case Lit(_) =>
    case Ident(x) =>
      if x in bools && x in env.slots {
        assert BoolSlot(env, bools, env.slots[x]);
      }
    case Binary(op, l, r) =>
      EvalTyped(env, bools, l, vars, st);
      EvalTyped(env, bools, r, vars, st);
    case Unary(op, o) => EvalTyped(env, bools, o, vars, st);
  }

  ghost predicate Good(env: Env, bools: set<string>, out: Outcome) {
    match out
    case Timeout => true
    case Error(x) => x != CondNotBool
    case Done(_, vars, st) => Typed(env, bools, vars, st)
  }

  lemma {:induction false} ExecTyped(env: Env, bools: set<string>, fuel: nat, s: Stmt, vars: Scopes, st: State)
    requires |vars| > 0 && BoolStmt(bools, s) && Typed(env, bools, vars, st)
    ensures Good(env, bools, Exec(env, fuel, s, vars, st))
    decreases fuel, s
  {
    match s
    case If(ifs) => ExecIfTyped(env, bools, fuel, ifs, vars, st);
    case While(cond, body) =>
      EvalTyped(env, bools, cond, vars, st);
      var v := Eval(env, cond, vars, st);
      if fuel > 0 && v.Ok? && Taken(env, v.value) {
        ExecBlockTyped(env, bools, fuel - 1, body, vars, st);
        var out := ExecBlock(env, fuel - 1, body, vars, st);
        if out.Done? {
          ExecTyped(env, bools, fuel - 1, s, out.scopes, out.st);
        }
      }
    case Let(_, e) => EvalTyped(env, bools, e, vars, st);
    case Assign(_, e) => EvalTyped(env, bools, e, vars, st);
    case ReturnStmt(r) => if r.Some? { EvalTyped(env, bools, r.value, vars, st); }
    case ExprStmt(e) => EvalTyped(env, bools, e, vars, st);
    case _ =>
  }

  lemma {:induction false} ExecIfTyped(env: Env, bools: set<string>, fuel: nat, ifs: IfStmt, vars: Scopes, st: State)
    requires |vars| > 0 && BoolIf(bools, ifs) && Typed(env, bools, vars, st)
    ensures Good(env, bools, ExecIf(env, fuel, ifs, vars, st))
    decreases fuel, ifs
  {
    hide KernelTyped, StoreTyped, BoolVars, BoolState;
    EvalTyped(env, bools, ifs.cond, vars, st);
    ExecBlockTyped(env, bools, fuel, ifs.thn, vars, st);
    match ifs.els
    case NoElse =>
    case ElseBlock(b) => ExecBlockTyped(env, bools, fuel, b, vars, st);
    case ElseIf(nested) => ExecIfTyped(env, bools, fuel, nested, vars, st);
  }

  lemma {:induction false} ExecStmtsTyped(env: Env, bools: set<string>, fuel: nat, ss: Stmts, vars: Scopes, st: State)
    requires |vars| > 0 && BoolStmts(bools, ss) && Typed(env, bools, vars, st)
    ensures Good(env, bools, ExecStmts(env, fuel, ss, vars, st))
    decreases fuel, ss
  {
    hide KernelTyped, StoreTyped, BoolVars, BoolState;
    if ss.Cons? {
      ExecTyped(env, bools, fuel, ss.head, vars, st);
      var out := Exec(env, fuel, ss.head, vars, st);
      if out.Done? {
        ExecStmtsTyped(env, bools, fuel, ss.tail, out.scopes, out.st);
      }
    }
  }

  lemma {:induction false} ExecBlockTyped(env: Env, bools: set<string>, fuel: nat, b: Block, vars: Scopes, st: State)
    requires BoolBlock(bools, b) && Typed(env, bools, vars, st)
    ensures Good(env, bools, ExecBlock(env, fuel, b, vars, st))
    decreases fuel, b
  {
    hide KernelTyped, StoreTyped, BoolState;
    var inner := vars + [map[]];
    ExecStmtsTyped(env, bools, fuel, b.stmts, inner, st);
    var out := ExecStmts(env, fuel, b.stmts, inner, st);
    if out.Done? && b.tail.Some? {
      EvalTyped(env, bools, b.tail.value, out.scopes, out.st);
    }
  }

  /** A well-typed function: every condition is a bool and every bool name holds bools. */
  ghost predicate WellTyped(env: Env, bools: set<string>, params: seq<string>, body: Block, args: seq<Value>, st: State)
    requires |params| == |args|
  {
    BoolBlock(bools, body) && Typed(env, bools, [Bind(params, args), map[]], st)
  }

  lemma CallTyped(env: Env, bools: set<string>, params: seq<string>, body: Block, args: seq<Value>, st: State, fuel: nat)
    requires |params| == |args| && WellTyped(env, bools, params, body, args, st)
    ensures CallFn(env, fuel, params, body, args, st) != Answer.Raised(CondNotBool)
  {
    var vars := [Bind(params, args), map[]];
    ExecStmtsTyped(env, bools, fuel, body.stmts, vars, st);
    var out := ExecStmts(env, fuel, body.stmts, vars, st);
    if out.Done? && body.tail.Some? {
      EvalTyped(env, bools, body.tail.value, out.scopes, out.st);
    }
  }

  // ---------- statements that do not fall through ----------

  /** The statement never hands on to the next one: it returns, or leaves its loop, on every
      branch. */
  predicate StmtLeaves(s: Stmt) {
    match s
    case ReturnStmt(_) => true
    case Break => true
    case Continue => true
    case If(ifs) => IfLeaves(ifs)
    case _ => false
  }

  predicate IfLeaves(ifs: IfStmt) {
    StmtsLeave(ifs.thn.stmts)
    && match ifs.els
       case NoElse => false
       case ElseBlock(b) => StmtsLeave(b.stmts)
       case ElseIf(nested) => IfLeaves(nested)
  }

  predicate StmtsLeave(ss: Stmts) { ss.Cons? && (StmtLeaves(ss.head) || StmtsLeave(ss.tail)) }

  ghost predicate HandsOn(out: Outcome) { out.Done? && out.flow.Normal? }

  lemma {:induction false} StmtNeverHandsOn(env: Env, fuel: nat, s: Stmt, vars: Scopes, st: State)
    requires |vars| > 0 && StmtLeaves(s)
    ensures !HandsOn(Exec(env, fuel, s, vars, st))
    decreases s
  {
    if s.If? {
      IfNeverHandsOn(env, fuel, s.ifs, vars, st);
    }
  }

  lemma {:induction false} IfNeverHandsOn(env: Env, fuel: nat, ifs: IfStmt, vars: Scopes, st: State)
    requires |vars| > 0 && IfLeaves(ifs)
    ensures !HandsOn(ExecIf(env, fuel, ifs, vars, st))
    decreases ifs
  {
    StmtsNeverHandOn(env, fuel, ifs.thn.stmts, vars + [map[]], st);
    match ifs.els
    case NoElse =>
    case ElseBlock(b) => StmtsNeverHandOn(env, fuel, b.stmts, vars + [map[]], st);
    case ElseIf(nested) => IfNeverHandsOn(env, fuel, nested, vars, st);
  }

  lemma {:induction false} StmtsNeverHandOn(env: Env, fuel: nat, ss: Stmts, vars: Scopes, st: State)
    requires |vars| > 0 && StmtsLeave(ss)
    ensures !HandsOn(ExecStmts(env, fuel, ss, vars, st))
    decreases ss
  {
    if StmtLeaves(ss.head) {
      StmtNeverHandsOn(env, fuel, ss.head, vars, st);
    } else {
      var out := Exec(env, fuel, ss.head, vars, st);
      if out.Done? {
        StmtsNeverHandOn(env, fuel, ss.tail, out.scopes, out.st);
      }
    }
  }

  /** What can be seen before any call: the body has a tail, or leaves on every branch, or its
      code does not end in a return, so that one was added. */
  predicate ReturnsAtEnd(slots: map<string, nat>, params: seq<string>, body: Block)
    requires Compile(slots, params, body).Some?
  {
    body.tail.Some? || StmtsLeave(body.stmts) || !EndsInReturn(Flat(GenBody(slots, params, body).value.0))
  }

  // ---------- whole calls ----------

  /** With `fuel`, the call falls off the end of its body and finds no return there. */
  ghost predicate Lost(env: Env, fuel: nat, params: seq<string>, body: Block, args: seq<Value>, st: State)
    requires |params| == |args| && Compile(env.slots, params, body).Some?
  {
    FallsOff(env, fuel, params, body, args, st) && EndsInReturn(Flat(GenBody(env.slots, params, body).value.0))
  }

  /** The interpreter ends the call with `a`, and not by falling off code without a return. */
  ghost predicate Answers(env: Env, params: seq<string>, body: Block, args: seq<Value>, st: State, a: Answer)
    requires |params| == |args| && Compile(env.slots, params, body).Some?
  {
    exists fuel: nat :: CallFn(env, fuel, params, body, args, st) == a && !Lost(env, fuel, params, body, args, st)
  }

  ghost predicate RunsOff(env: Env, params: seq<string>, body: Block, args: seq<Value>, st: State)
    requires |params| == |args| && Compile(env.slots, params, body).Some?
  {
    exists fuel: nat :: Lost(env, fuel, params, body, args, st)
  }

  /** How a run of `f` on this call relates to the interpreter, for every function: the same
      values and states, the same errors, divergence together, and past the end of the code
      exactly when the interpreter falls off a body that got no return. */
  ghost predicate SameCall(env: Env, params: seq<string>, body: Block, args: seq<Value>, st: State, f: Function)
    requires |params| == |args| && Compile(env.slots, params, body).Some?
  {
    var start := Running(0, Frame(args, Compile(env.slots, params, body).value.nRegs), st);
    && (forall v, st' :: Halts(env.k, f, start, Finished(v, st')) <==> Answers(env, params, body, args, st, Answer(v, st')))
    && (forall x :: Halts(env.k, f, start, Failed(x)) <==>
          Answers(env, params, body, args, st, Answer.Raised(x))
          || (x == PcOutOfBounds && RunsOff(env, params, body, args, st)))
  }

  /** The same with no exception: exactly the interpreter's answers and errors. */
  ghost predicate ExactCall(env: Env, params: seq<string>, body: Block, args: seq<Value>, st: State, f: Function)
    requires |params| == |args| && Compile(env.slots, params, body).Some?
  {
    var start := Running(0, Frame(args, Compile(env.slots, params, body).value.nRegs), st);
    && (forall v, st' :: Halts(env.k, f, start, Finished(v, st')) <==> Ends(env, params, body, args, st, Answer(v, st')))
    && (forall x :: Halts(env.k, f, start, Failed(x)) <==> Ends(env, params, body, args, st, Answer.Raised(x)))
  }

  /** No call is stopped by a condition that is not a bool. */
  ghost predicate NeverStopped(env: Env, params: seq<string>, body: Block, args: seq<Value>, st: State)
    requires |params| == |args|
  {
    env.lenient || forall fuel: nat :: CallFn(env, fuel, params, body, args, st) != Answer.Raised(CondNotBool)
  }

  /** Where the machine ends a call that the interpreter ends with this fuel. */
  ghost function EndOf(env: Env, fuel: nat, params: seq<string>, body: Block, args: seq<Value>, st: State): Config
    requires |params| == |args| && Compile(env.slots, params, body).Some?
    requires !CallFn(env, fuel, params, body, args, st).Diverged?
  {
    if Lost(env, fuel, params, body, args, st) then Failed(PcOutOfBounds) else Image(CallFn(env, fuel, params, body, args, st))
  }

  lemma EndsTogether(env: Env, params: seq<string>, body: Block, args: seq<Value>, st: State, c: Config)
    requires |params| == |args| && NeverStopped(env, params, body, args, st) && !c.Running?
    requires Compile(env.slots, params, body).Some?
    ensures var Compiled(f, nRegs) := Compile(env.slots, params, body).value;
      Halts(env.k, f, Running(0, Frame(args, nRegs), st), c) <==>
      exists fuel: nat :: !CallFn(env, fuel, params, body, args, st).Diverged? && EndOf(env, fuel, params, body, args, st) == c
  {
    hide Compile, Run, GenBody, CallFn, FallsOff;
    var Compiled(f, nRegs) := Compile(env.slots, params, body).value;
    var start := Running(0, Frame(args, nRegs), st);
    if fuel: nat :| !CallFn(env, fuel, params, body, args, st).Diverged? && EndOf(env, fuel, params, body, args, st) == c {
      LostAnswers(env, fuel, params, body, args, st);
      var n := CallCorrect(env, params, body, args, st, fuel);
      assert Run(env.k, f, start, n) == c;
    }
    if Halts(env.k, f, start, c) {
      var ticks: nat :| Run(env.k, f, start, ticks) == c;
      HaltsTogether(env, params, body, args, st, ticks);
      LostAnswers(env, ticks + 1, params, body, args, st);
      var n := CallCorrect(env, params, body, args, st, ticks + 1);
      OneEnd(env.k, f, start, n, ticks);
      assert EndOf(env, ticks + 1, params, body, args, st) == c;
    }
  }

  lemma LostAnswers(env: Env, fuel: nat, params: seq<string>, body: Block, args: seq<Value>, st: State)
    requires |params| == |args| && Compile(env.slots, params, body).Some?
    ensures Lost(env, fuel, params, body, args, st) ==> CallFn(env, fuel, params, body, args, st).Answer?
  {
    hide GenBody, ExecStmts;
  }

  lemma UnstoppedAgree(env: Env, params: seq<string>, body: Block, args: seq<Value>, st: State)
    requires |params| == |args| && NeverStopped(env, params, body, args, st)
    requires Compile(env.slots, params, body).Some?
    ensures SameCall(env, params, body, args, st, Compile(env.slots, params, body).value.f)
  {
    hide Compile, CallFn, Run, GenBody, Halts, NeverStopped, Lost;
    var Compiled(f, nRegs) := Compile(env.slots, params, body).value;
    var start := Running(0, Frame(args, nRegs), st);
    forall v, st'
      ensures Halts(env.k, f, start, Finished(v, st')) <==> Answers(env, params, body, args, st, Answer(v, st'))
    {
      EndsTogether(env, params, body, args, st, Finished(v, st'));
    }
    forall x
      ensures Halts(env.k, f, start, Failed(x)) <==>
        Answers(env, params, body, args, st, Answer.Raised(x))
        || (x == PcOutOfBounds && RunsOff(env, params, body, args, st))
    {
      EndsTogether(env, params, body, args, st, Failed(x));
      if x == PcOutOfBounds && RunsOff(env, params, body, args, st) {
        var fuel: nat :| Lost(env, fuel, params, body, args, st);
        LostAnswers(env, fuel, params, body, args, st);
        assert EndOf(env, fuel, params, body, args, st) == Failed(x);
      }
    }
  }

  /** The condition that can be seen beforehand leaves no exception. */
  lemma NeverLost(env: Env, params: seq<string>, body: Block, args: seq<Value>, st: State, f: Function)
    requires |params| == |args| && Compile(env.slots, params, body).Some?
    requires ReturnsAtEnd(env.slots, params, body) && SameCall(env, params, body, args, st, f)
    ensures ExactCall(env, params, body, args, st, f) && !RunsOff(env, params, body, args, st)
  {
    hide Compile, CallFn, GenBody, Halts, ExecStmts;
    forall fuel: nat ensures !Lost(env, fuel, params, body, args, st) {
      if StmtsLeave(body.stmts) {
        StmtsNeverHandOn(env, fuel, body.stmts, [Bind(params, args), map[]], st);
      }
    }
    forall a ensures Answers(env, params, body, args, st, a) <==> Ends(env, params, body, args, st, a) {
      if fuel: nat :| CallFn(env, fuel, params, body, args, st) == a {
        assert !Lost(env, fuel, params, body, args, st);
      }
    }
  }

  /** Interpreter and machine agree on every call of a well-typed function, up to the missing
      return; and on every call of one whose body has a tail, leaves on every branch, or whose
      code does not end in a return, with no exception. */
  lemma WellTypedAgree(env: Env, bools: set<string>, params: seq<string>, body: Block, args: seq<Value>, st: State)
    requires |params| == |args| && WellTyped(env, bools, params, body, args, st)
    requires Compile(env.slots, params, body).Some?
    ensures var f := Compile(env.slots, params, body).value.f;
      && SameCall(env, params, body, args, st, f)
      && (ReturnsAtEnd(env.slots, params, body) ==> ExactCall(env, params, body, args, st, f))
  {
    hide Compile, CallFn, WellTyped, SameCall, ExactCall, ReturnsAtEnd, RunsOff;
    forall fuel: nat ensures CallFn(env, fuel, params, body, args, st) != Answer.Raised(CondNotBool) {
      CallTyped(env, bools, params, body, args, st, fuel);
    }
    UnstoppedAgree(env, params, body, args, st);
    if ReturnsAtEnd(env.slots, params, body) {
      NeverLost(env, params, body, args, st, Compile(env.slots, params, body).value.f);
    }
  }

  /** Well typed or not, the machine is the interpreter that tests conditions leniently. */
  lemma MachineIsLenient(env: Env, params: seq<string>, body: Block, args: seq<Value>, st: State)
    requires |params| == |args| && env.lenient
    requires Compile(env.slots, params, body).Some?
    ensures var f := Compile(env.slots, params, body).value.f;
      && SameCall(env, params, body, args, st, f)
      && (ReturnsAtEnd(env.slots, params, body) ==> ExactCall(env, params, body, args, st, f))
  {
    hide Compile, CallFn, SameCall, ExactCall, ReturnsAtEnd, RunsOff;
    UnstoppedAgree(env, params, body, args, st);
    if ReturnsAtEnd(env.slots, params, body) {
      NeverLost(env, params, body, args, st, Compile(env.slots, params, body).value.f);
    }
  }

  // ---------- the interpreter against its lenient form ----------

  /** `out` is what the interpreter makes of it, `out'` what its lenient form does. */
  ghost predicate Loosened(out: Outcome, out': Outcome) {
    out == Error(CondNotBool) || out' == out
  }

  lemma {:induction false} EvalLoosened(env: Env, e: Expr, vars: Scopes, st: State)
    ensures Eval(env.(lenient := true), e, vars, st) == Eval(env, e, vars, st)
    decreases e
  {
    match e
    case Binary(_, l, r) =>
      EvalLoosened(env, l, vars, st);
      EvalLoosened(env, r, vars, st);
    case Unary(_, o) => EvalLoosened(env, o, vars, st);
    case _ =>
  }

  lemma {:induction false} ExecLoosened(env: Env, fuel: nat, s: Stmt, vars: Scopes, st: State)
    requires |vars| > 0
    ensures Loosened(Exec(env, fuel, s, vars, st), Exec(env.(lenient := true), fuel, s, vars, st))
    decreases fuel, s
  {
    hide Eval;
    match s
    case If(ifs) => IfLoosened(env, fuel, ifs, vars, st);
    case While(cond, body) =>
      EvalLoosened(env, cond, vars, st);
      var v := Eval(env, cond, vars, st);
      if fuel > 0 && v.Ok? && Taken(env, v.value) {
        BlockLoosened(env, fuel - 1, body, vars, st);
        var out := ExecBlock(env, fuel - 1, body, vars, st);
        if out.Done? {
          ExecLoosened(env, fuel - 1, s, out.scopes, out.st);
        }
      }
    case Let(_, e) => EvalLoosened(env, e, vars, st);
    case Assign(_, e) => EvalLoosened(env, e, vars, st);
    case ReturnStmt(r) => if r.Some? { EvalLoosened(env, r.value, vars, st); }
    case ExprStmt(e) => EvalLoosened(env, e, vars, st);
    case _ =>
  }

  lemma {:induction false} IfLoosened(env: Env, fuel: nat, ifs: IfStmt, vars: Scopes, st: State)
    requires |vars| > 0
    ensures Loosened(ExecIf(env, fuel, ifs, vars, st), ExecIf(env.(lenient := true), fuel, ifs, vars, st))
    decreases fuel, ifs
  {
    hide Eval;
    EvalLoosened(env, ifs.cond, vars, st);
    BlockLoosened(env, fuel, ifs.thn, vars, st);
    match ifs.els
    case NoElse =>
    case ElseBlock(b) => BlockLoosened(env, fuel, b, vars, st);
    case ElseIf(nested) => IfLoosened(env, fuel, nested, vars, st);
  }

  lemma {:induction false} StmtsLoosened(env: Env, fuel: nat, ss: Stmts, vars: Scopes, st: State)
    requires |vars| > 0
    ensures Loosened(ExecStmts(env, fuel, ss, vars, st), ExecStmts(env.(lenient := true), fuel, ss, vars, st))
    decreases fuel, ss
  {
    if ss.Cons? {
      ExecLoosened(env, fuel, ss.head, vars, st);
      var out := Exec(env, fuel, ss.head, vars, st);
      if out.Done? {
        StmtsLoosened(env, fuel, ss.tail, out.scopes, out.st);
      }
    }
  }

  lemma {:induction false} BlockLoosened(env: Env, fuel: nat, b: Block, vars: Scopes, st: State)
    ensures Loosened(ExecBlock(env, fuel, b, vars, st), ExecBlock(env.(lenient := true), fuel, b, vars, st))
    decreases fuel, b
  {
    hide Eval;
    var inner := vars + [map[]];
    StmtsLoosened(env, fuel, b.stmts, inner, st);
    var out := ExecStmts(env, fuel, b.stmts, inner, st);
    if out.Done? && b.tail.Some? {
      EvalLoosened(env, b.tail.value, out.scopes, out.st);
    }
  }

  /** Testing conditions leniently changes no call that the interpreter does not stop at a
      condition: with the theorem above, this is what the machine does where it stops. */
  lemma CallLoosened(env: Env, params: seq<string>, body: Block, args: seq<Value>, st: State, fuel: nat)
    requires |params| == |args|
    ensures CallFn(env, fuel, params, body, args, st) == Answer.Raised(CondNotBool)
         || CallFn(env.(lenient := true), fuel, params, body, args, st) == CallFn(env, fuel, params, body, args, st)
  {
    hide Eval;
    var vars := [Bind(params, args), map[]];
    StmtsLoosened(env, fuel, body.stmts, vars, st);
    var out := ExecStmts(env, fuel, body.stmts, vars, st);
    if out.Done? && body.tail.Some? {
      EvalLoosened(env, body.tail.value, out.scopes, out.st);
    }
  }

  /** The interpreter ends the call with `a`. */
  ghost predicate Ends(env: Env, params: seq<string>, body: Block, args: seq<Value>, st: State, a: Answer)
    requires |params| == |args|
  {
    exists fuel: nat :: CallFn(env, fuel, params, body, args, st) == a
  }

  function Image(a: Answer): Config
    requires !a.Diverged?
  {
    match a
    case Raised(x) => Failed(x)
    case Answer(v, st) => Finished(v, st)
  }

  // ---------- what leaves, branch by branch ----------

  ghost predicate Among(s: Stmt, ss: Stmts) { ss.Cons? && (s == ss.head || Among(s, ss.tail)) }

  /** All the branches of an `if`, its `else if`s and its `else`. */
  function Branches(ifs: IfStmt): seq<Block> {
    [ifs.thn] + match ifs.els case NoElse => [] case ElseBlock(b) => [b] case ElseIf(nested) => Branches(nested)
  }

  predicate HasElse(ifs: IfStmt) {
    match ifs.els case NoElse => false case ElseBlock(_) => true case ElseIf(nested) => HasElse(nested)
  }

  ghost predicate SomeLeaves(ss: Stmts) { exists s :: Among(s, ss) && StmtLeaves(s) }

  /** A list leaves exactly when one of its statements does. */
  lemma {:induction false} ListLeavesExactly(ss: Stmts)
    ensures StmtsLeave(ss) <==> SomeLeaves(ss)
    decreases ss
  {
    if ss.Cons? {
      ListLeavesExactly(ss.tail);
      ListLeaves(ss);
      if StmtsLeave(ss) {
        var s: Stmt;
        if StmtLeaves(ss.head) {
          s := ss.head;
        } else {
          s :| Among(s, ss.tail) && StmtLeaves(s);
        }
        assert Among(s, ss) && StmtLeaves(s);
      }
      if s :| Among(s, ss) && StmtLeaves(s) {
        if s == ss.head {
          assert StmtLeaves(ss.head);
        } else {
          assert Among(s, ss.tail) && StmtLeaves(s);
          assert SomeLeaves(ss.tail);
        }
      }
    }
  }

  lemma ListLeaves(ss: Stmts)
    requires ss.Cons?
    ensures StmtsLeave(ss) <==> StmtLeaves(ss.head) || StmtsLeave(ss.tail)
  {
  }

  /** An `if` leaves exactly when it has an `else` and every branch leaves. */
  lemma {:induction false} IfLeavesExactly(ifs: IfStmt)
    ensures IfLeaves(ifs) <==> HasElse(ifs) && forall b :: b in Branches(ifs) ==> StmtsLeave(b.stmts)
    decreases ifs
  {
    hide StmtsLeave;
    assert ifs.thn in Branches(ifs);
    match ifs.els
    case NoElse =>
    case ElseBlock(b) =>
      assert Branches(ifs) == [ifs.thn, b];
      assert b in Branches(ifs);
      assert forall x :: x in Branches(ifs) ==> x == ifs.thn || x == b;
    case ElseIf(nested) =>
      IfLeavesExactly(nested);
      assert forall b :: b in Branches(ifs) <==> b == ifs.thn || b in Branches(nested);
  }

  /** A body that contains a `return` of its own, not inside an `if` or a loop, is covered. */
  lemma ReturnCovers(slots: map<string, nat>, params: seq<string>, body: Block, result: Option<Expr>)
    requires Compile(slots, params, body).Some? && Among(ReturnStmt(result), body.stmts)
    ensures ReturnsAtEnd(slots, params, body)
  {
    hide Compile, GenBody;
    ListLeavesExactly(body.stmts);
    assert StmtLeaves(ReturnStmt(result));
  }
}
