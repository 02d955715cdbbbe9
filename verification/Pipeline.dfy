/** The whole path of a function: compiled, then optimized, against the interpreter. */
module Pipeline {
  import opened Options
  import opened Machine
  import opened Interp
  import opened CodeGen
  import opened CompileCorrect
  import opened CompileFn
  import CondTypes
  import opened Clusters
  import opened OptimizeCorrect

  // ---------- compiled code stays within its register file ----------

  /** An instruction the compiler emits, naming registers below `n` only. */
  predicate Low(i: Instr, n: nat) {
    match i
    case LoadConst(d, _) => d < n
    case Move(d, s) => d < n && s < n
    case Bin(_, d, l, r) => d < n && l < n && r < n
    case Un(_, d, s) => d < n && s < n
    case Jump(_) => true
    case JumpIfFalse(c, _) => c < n
    case Return(s) => s < n
    case ReturnUnit => true
    case KvGet(d, _) => d < n
    case KvPut(s, _) => s < n
    case _ => false
  }

  ghost predicate AllLow(code: seq<Instr>, n: nat) { forall i :: 0 <= i < |code| ==> Low(code[i], n) }

  ghost predicate SlotsLow(seg: seq<Slot>, n: nat) { forall i :: 0 <= i < |seg| && seg[i].Op? ==> Low(seg[i].instr, n) }

  lemma LowNames(f: Function, i: Instr, n: nat)
    requires Low(i, n)
    ensures forall r :: r in Names(f, i) ==> r < n
  {
  }

  lemma LowMono(code: seq<Instr>, m: nat, n: nat)
    requires AllLow(code, m) && m <= n
    ensures AllLow(code, n)
  {
  }

  lemma SlotsLowMono(seg: seq<Slot>, m: nat, n: nat)
    requires SlotsLow(seg, m) && m <= n
    ensures SlotsLow(seg, n)
  {
  }

  lemma {:induction false} ExprLow(slots: map<string, nat>, e: Expr, dst: nat, cs: CState)
    requires Allocated(cs.scopes, cs.nextReg) && dst < cs.nextReg <= cs.maxReg && GenExpr(slots, e, dst, cs).Some?
    ensures AllLow(GenExpr(slots, e, dst, cs).value.0, GenExpr(slots, e, dst, cs).value.1.maxReg)
    decreases e
  {
    match e
    case Lit(_) =>
    case Ident(_) =>
    case Binary(op, l, r) =>
      var (lc, cs1) := GenExpr(slots, l, dst, cs).value;
      var rhs := cs1.nextReg;
      ExprLow(slots, l, dst, cs);
      ExprLow(slots, r, rhs, Alloc(cs1));
      var (rc, cs2) := GenExpr(slots, r, rhs, Alloc(cs1)).value;
      LowMono(lc, cs1.maxReg, cs2.maxReg);
    case Unary(op, o) => ExprLow(slots, o, dst, cs);
  }

  /** An expression compiled into a newly allocated register. */
  lemma FreshLow(slots: map<string, nat>, e: Expr, cs: CState)
    requires Allocated(cs.scopes, cs.nextReg) && GenExpr(slots, e, cs.nextReg, Alloc(cs)).Some?
    ensures var (c, cs1) := GenExpr(slots, e, cs.nextReg, Alloc(cs)).value;
      AllLow(c, cs1.maxReg) && cs.nextReg < cs1.maxReg
  {
    hide GenExpr;
    ExprLow(slots, e, cs.nextReg, Alloc(cs));
  }

  lemma {:induction false} StmtLow(slots: map<string, nat>, s: Stmt, cs: CState, inLoop: bool)
    requires |cs.scopes| > 0 && Allocated(cs.scopes, cs.nextReg) && cs.nextReg <= cs.maxReg
    requires GenStmt(slots, s, cs, inLoop).Some?
    ensures SlotsLow(GenStmt(slots, s, cs, inLoop).value.0, GenStmt(slots, s, cs, inLoop).value.1.maxReg)
    decreases s
  {
    hide GenExpr, GenBlock, GenIf;
    match s
    case If(ifs) => IfLow(slots, ifs, cs, inLoop);
    case While(cond, body) =>
      hide SlotsLow, AllLow, Allocated, Loop, Ops, Outer;
      FreshLow(slots, cond, cs);
      var (c, cs1) := GenExpr(slots, cond, cs.nextReg, Alloc(cs)).value;
      BlockLow(slots, body, Free(cs1, cs.nextReg), true);
      var (b, cs2) := GenBlock(slots, body, Free(cs1, cs.nextReg), true).value;
      LoopLow(c, cs.nextReg, b, cs1.maxReg, cs2.maxReg);
    case _ => PlainLow(slots, s, cs, inLoop);
  }

  /** Statements without statements inside. */
  lemma PlainLow(slots: map<string, nat>, s: Stmt, cs: CState, inLoop: bool)
    requires |cs.scopes| > 0 && Allocated(cs.scopes, cs.nextReg) && cs.nextReg <= cs.maxReg && !s.If? && !s.While?
    requires GenStmt(slots, s, cs, inLoop).Some?
    ensures SlotsLow(GenStmt(slots, s, cs, inLoop).value.0, GenStmt(slots, s, cs, inLoop).value.1.maxReg)
  {
    hide GenExpr;
    match s
    case Let(_, e) => FreshLow(slots, e, cs);
    case Assign(_, e) => FreshLow(slots, e, cs);
    case ReturnStmt(r) => if r.Some? { FreshLow(slots, r.value, cs); }
    case ExprStmt(e) => FreshLow(slots, e, cs);
    case _ =>
  }

  lemma LoopLow(c: seq<Instr>, r: nat, b: seq<Slot>, m: nat, n: nat)
    requires AllLow(c, m) && SlotsLow(b, n) && r < m <= n
    ensures SlotsLow(Ops(Loop(c, r, b)), n)
  {
    LowMono(c, m, n);
  }

  lemma BranchLow(c: seq<Instr>, r: nat, t: seq<Slot>, e: seq<Slot>, m: nat, n: nat)
    requires AllLow(c, m) && SlotsLow(t, n) && SlotsLow(e, n) && r < m <= n
    ensures SlotsLow(Branch(c, r, t, e), n)
  {
    LowMono(c, m, n);
  }

  lemma {:induction false} IfLow(slots: map<string, nat>, ifs: IfStmt, cs: CState, inLoop: bool)
    requires |cs.scopes| > 0 && Allocated(cs.scopes, cs.nextReg) && cs.nextReg <= cs.maxReg
    requires GenIf(slots, ifs, cs, inLoop).Some?
    ensures SlotsLow(GenIf(slots, ifs, cs, inLoop).value.0, GenIf(slots, ifs, cs, inLoop).value.1.maxReg)
    decreases ifs
  {
    hide GenExpr, GenBlock, Branch, Allocated, SlotsLow, AllLow, Outer;
    var r := cs.nextReg;
    FreshLow(slots, ifs.cond, cs);
    var (c, cs1) := GenExpr(slots, ifs.cond, r, Alloc(cs)).value;
    BlockLow(slots, ifs.thn, Free(cs1, r), inLoop);
    var (t, cs2) := GenBlock(slots, ifs.thn, Free(cs1, r), inLoop).value;
    match ifs.els
    case NoElse =>
      assert SlotsLow([], cs2.maxReg) by { NoneLow(cs2.maxReg); }
      BranchLow(c, r, t, [], cs1.maxReg, cs2.maxReg);
    case ElseBlock(b) =>
      BlockLow(slots, b, cs2, inLoop);
      var (e, cs3) := GenBlock(slots, b, cs2, inLoop).value;
      SlotsLowMono(t, cs2.maxReg, cs3.maxReg);
      BranchLow(c, r, t, e, cs1.maxReg, cs3.maxReg);
    case ElseIf(nested) =>
      IfLow(slots, nested, cs2, inLoop);
      var (e, cs3) := GenIf(slots, nested, cs2, inLoop).value;
      SlotsLowMono(t, cs2.maxReg, cs3.maxReg);
      BranchLow(c, r, t, e, cs1.maxReg, cs3.maxReg);
  }

  lemma NoneLow(n: nat)
    ensures SlotsLow([], n)
  {
  }

  lemma JoinLow(c: seq<Slot>, d: seq<Slot>, m: nat, n: nat)
    requires SlotsLow(c, m) && SlotsLow(d, n) && m <= n
    ensures SlotsLow(c + d, n)
  {
  }

  lemma OpsLow(c: seq<Instr>, n: nat)
    requires AllLow(c, n)
    ensures SlotsLow(Ops(c), n)
  {
  }

  lemma {:induction false} StmtsLow(slots: map<string, nat>, ss: Stmts, cs: CState, inLoop: bool)
    requires |cs.scopes| > 0 && Allocated(cs.scopes, cs.nextReg) && cs.nextReg <= cs.maxReg
    requires GenStmts(slots, ss, cs, inLoop).Some?
    ensures SlotsLow(GenStmts(slots, ss, cs, inLoop).value.0, GenStmts(slots, ss, cs, inLoop).value.1.maxReg)
    decreases ss
  {
    hide GenStmt, Allocated, Fresh, SlotsLow, Outer;
    match ss
    case Nil => NoneLow(cs.maxReg);
    case Cons(s, rest) =>
      StmtLow(slots, s, cs, inLoop);
      StmtAllocated(slots, s, cs, inLoop);
      var (c, cs1) := GenStmt(slots, s, cs, inLoop).value;
      StmtsLow(slots, rest, cs1, inLoop);
      var (d, cs2) := GenStmts(slots, rest, cs1, inLoop).value;
      JoinLow(c, d, cs1.maxReg, cs2.maxReg);
  }

  lemma {:induction false} BlockLow(slots: map<string, nat>, b: Block, cs: CState, inLoop: bool)
    requires Allocated(cs.scopes, cs.nextReg) && cs.nextReg <= cs.maxReg
    requires GenBlock(slots, b, cs, inLoop).Some?
    ensures SlotsLow(GenBlock(slots, b, cs, inLoop).value.0, GenBlock(slots, b, cs, inLoop).value.1.maxReg)
    decreases b
  {
    hide GenStmts, GenExpr, SlotsLow, AllLow;
    var inner := cs.(scopes := cs.scopes + [map[]]);
    assert Allocated(inner.scopes, inner.nextReg);
    StmtsLow(slots, b.stmts, inner, inLoop);
    StmtsAllocated(slots, b.stmts, inner, inLoop);
    var (c, cs1) := GenStmts(slots, b.stmts, inner, inLoop).value;
    if b.tail.Some? {
      FreshLow(slots, b.tail.value, cs1);
      var (d, cs2) := GenExpr(slots, b.tail.value, cs1.nextReg, Alloc(cs1)).value;
      OpsLow(d, cs2.maxReg);
      JoinLow(c, Ops(d), cs1.maxReg, cs2.maxReg);
    }
  }

  lemma EntryAllocated(params: seq<string>)
    ensures Allocated(Entry(params).scopes, |params|)
  {
    var args: seq<Value> := seq(|params|, _ => Unit);
    EntryReady(params, args, |params|);
  }

  lemma BodyLow(slots: map<string, nat>, params: seq<string>, body: Block)
    requires GenBody(slots, params, body).Some?
    ensures SlotsLow(GenBody(slots, params, body).value.0, GenBody(slots, params, body).value.1.maxReg)
  {
    hide GenStmts, GenExpr, Allocated, SlotsLow;
    var cs0 := Entry(params);
    EntryAllocated(params);
    StmtsLow(slots, body.stmts, cs0, false);
    StmtsAllocated(slots, body.stmts, cs0, false);
    var (c, cs1) := GenStmts(slots, body.stmts, cs0, false).value;
    if body.tail.Some? {
      FreshLow(slots, body.tail.value, cs1);
      var (d, cs2) := GenExpr(slots, body.tail.value, cs1.nextReg, Alloc(cs1)).value;
      OpsLow(d + [Machine.Return(cs1.nextReg)], cs2.maxReg);
      JoinLow(c, Ops(d + [Machine.Return(cs1.nextReg)]), cs1.maxReg, cs2.maxReg);
    }
  }

  /** Compiled code names no register outside the file it declares. */
  lemma CompiledInRange(slots: map<string, nat>, params: seq<string>, body: Block, args: seq<Value>)
    requires Compile(slots, params, body).Some?
    ensures var Compiled(f, nRegs) := Compile(slots, params, body).value;
      InRange(f, f.code, nRegs) && nRegs <= |Frame(args, nRegs)|
  {
    hide GenBody, Names;
    BodyLow(slots, params, body);
    var Compiled(f, nRegs) := Compile(slots, params, body).value;
    var seg := GenBody(slots, params, body).value.0;
    forall i, r | 0 <= i < |f.code| && r in Names(f, f.code[i]) ensures r < nRegs {
      if i < |seg| {
        assert f.code[i] == Flat(seg)[i];
      }
      LowNames(f, f.code[i], nRegs);
    }
  }

  // ---------- the theorem ----------

  /** From the interpreter to optimized code: a call of a function whose compiled code meets
      the optimizer's condition ends the same ways in the interpreter and on the machine
      after both passes, up to the missing return; and with no exception when the body has a
      tail, leaves on every branch, or its code does not end in a return. */
  lemma PipelineCorrect(env: Env, quiet: set<nat>, bools: set<string>, params: seq<string>, body: Block, args: seq<Value>,
                        st: State, g: Function, bounds: seq<nat>, starts: seq<nat>)
    requires |params| == |args| && (env.lenient || CondTypes.WellTyped(env, bools, params, body, args, st))
    requires Compile(env.slots, params, body).Some?
    requires var f := Compile(env.slots, params, body).value.f;
      EffectsSound(env.k, quiet) && Layout(quiet, f, g, bounds, starts) && Safe(f, BoundsOf(quiet, f.code))
    ensures CondTypes.SameCall(env, params, body, args, st, g)
    ensures CondTypes.ReturnsAtEnd(env.slots, params, body) ==> CondTypes.ExactCall(env, params, body, args, st, g)
  {
    hide Compile, Halts, Layout, Safe, BoundsOf, EffectsSound;
    hide CondTypes.WellTyped, CondTypes.ReturnsAtEnd, CondTypes.ExactCall, CondTypes.Answers, CondTypes.RunsOff;
    var Compiled(f, nRegs) := Compile(env.slots, params, body).value;
    var regs := Frame(args, nRegs);
    if env.lenient {
      CondTypes.MachineIsLenient(env, params, body, args, st);
    } else {
      CondTypes.WellTypedAgree(env, bools, params, body, args, st);
    }
    CompiledInRange(env.slots, params, body, args);
    SameMeaning(env.k, f, g, quiet, bounds, starts, regs, st);
    forall v, st'
      ensures Halts(env.k, f, Running(0, regs, st), Finished(v, st')) <==> Halts(env.k, g, Running(0, regs, st), Finished(v, st'))
    {
      var c := Finished(v, st');
    }
    forall x
      ensures Halts(env.k, f, Running(0, regs, st), Failed(x)) <==> Halts(env.k, g, Running(0, regs, st), Failed(x))
    {
      var c := Failed(x);
    }
    if CondTypes.ReturnsAtEnd(env.slots, params, body) {
      CondTypes.NeverLost(env, params, body, args, st, g);
    }
  }
}
