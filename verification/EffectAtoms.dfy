/** A function's class is the join of the classes of what its statements do, collected from the
    text with no order and no accumulator. */
module EffectAtoms {
  import opened Effects

  /** A state, possibly behind indexing and field access. */
  predicate StateTarget(e: Expr, states: set<string>) {
    match e
    case Ident(n) => n in states
    case Index(t, _) => StateTarget(t, states)
    case FieldOf(t) => StateTarget(t, states)
    case _ => false
  }

  /** Builtins first, then host imports, then the module's own functions; anything else is unknown. */
  function Callee(name: string, ctx: Ctx): Class {
    if name in ctx.pureBuiltins then Pure
    else if name in ctx.readBuiltins then ReadOnly
    else if name !in ctx.imports && name in ctx.locals then ctx.locals[name]
    else Impure
  }

  /** Binding an interface is pure, a known export has its class; anything else is unknown. */
  function ModuleCallee(mod: string, name: string, ctx: Ctx): Class {
    if mod in ctx.ifaces && name == "bind" then Pure
    else if mod + "::" + name in ctx.externals then ctx.externals[mod + "::" + name]
    else Impure
  }

  function ExprAtoms(e: Expr, ctx: Ctx): set<Class>
    decreases e
  {
    match e
    case Lit => {}
    case Ident(n) => if n in ctx.states then {ReadOnly} else {}
    case Parts(es) => ExprsAtoms(es, ctx)
    case Index(t, k) => ExprAtoms(t, ctx) + ExprAtoms(k, ctx)
    case FieldOf(t) => ExprAtoms(t, ctx)
    case Reserve(n) => {WriteOnly} + ExprAtoms(n, ctx)
    case Call(name, args) => {Callee(name, ctx)} + ExprsAtoms(args, ctx)
    case ModCall(mod, name, args) => {ModuleCallee(mod, name, ctx)} + ExprsAtoms(args, ctx)
    case DynCall(args, c) => {c} + ExprsAtoms(args, ctx)
    case BlockExpr(b) => StmtsAtoms(b.stmts, ctx) + ExprsAtoms(b.tail, ctx)
    case IfExpr(c, b, els) => ExprAtoms(c, ctx) + StmtsAtoms(b.stmts, ctx) + ExprsAtoms(b.tail, ctx) + ElseExprAtoms(els, ctx)
  }

  function ExprsAtoms(es: seq<Expr>, ctx: Ctx): set<Class>
    decreases es
  {
    if es == [] then {} else ExprAtoms(es[0], ctx) + ExprsAtoms(es[1..], ctx)
  }

  function ElseExprAtoms(els: Else, ctx: Ctx): set<Class>
    decreases els
  {
    match els
    case NoElse => {}
    case ElseBlock(b) => StmtsAtoms(b.stmts, ctx) + ExprsAtoms(b.tail, ctx)
    case ElseIf(c, b, rest) => ExprAtoms(c, ctx) + StmtsAtoms(b.stmts, ctx) + ElseAtoms(rest, ctx)
  }

  function ElseAtoms(els: Else, ctx: Ctx): set<Class>
    decreases els
  {
    match els
    case NoElse => {}
    case ElseBlock(b) => StmtsAtoms(b.stmts, ctx)
    case ElseIf(c, b, rest) => ExprAtoms(c, ctx) + StmtsAtoms(b.stmts, ctx) + ElseAtoms(rest, ctx)
  }

  /** Deleting, emitting and assigning to a state write; an assignment to a local does not, and
      neither does its target read. */
  function StmtAtoms(s: Stmt, ctx: Ctx): set<Class>
    decreases s
  {
    match s
    case Eval(e) => ExprAtoms(e, ctx)
    case Assign(t, v) => ExprAtoms(v, ctx) + if StateTarget(t, ctx.states) then {WriteOnly} else {}
    case IfStmt(c, b, els) => ExprAtoms(c, ctx) + StmtsAtoms(b.stmts, ctx) + ElseAtoms(els, ctx)
    case Loop(heads, b) => ExprsAtoms(heads, ctx) + StmtsAtoms(b.stmts, ctx)
    case Skip => {}
    case Delete(t) => {WriteOnly} + ExprAtoms(t, ctx)
    case Emit(v) => {WriteOnly} + ExprAtoms(v, ctx)
    case Parallel(ss) => StmtsAtoms(ss, ctx)
  }

  function StmtsAtoms(ss: seq<Stmt>, ctx: Ctx): set<Class>
    decreases ss
  {
    if ss == [] then {} else StmtAtoms(ss[0], ctx) + StmtsAtoms(ss[1..], ctx)
  }

  // ---------- sums ----------

  /** `r` reads, writes or is impure exactly when the start or one of the atoms is. */
  ghost predicate Sum(acc: Class, atoms: set<Class>, r: Class) {
    && (r.Impure? <==> acc.Impure? || Impure in atoms)
    && (Reads(r) <==> Reads(acc) || exists a :: a in atoms && Reads(a))
    && (Writes(r) <==> Writes(acc) || exists a :: a in atoms && Writes(a))
  }

  lemma SumNone(acc: Class)
    ensures Sum(acc, {}, acc)
  {
  }

  lemma SumOne(acc: Class, a: Class)
    ensures Sum(acc, {a}, Join(acc, a))
  {
    assert a in {a};
  }

  lemma SumThen(acc: Class, a: set<Class>, m: Class, b: set<Class>, r: Class)
    requires Sum(acc, a, m) && Sum(m, b, r)
    ensures Sum(acc, a + b, r)
  {
    assert forall x :: x in a + b <==> x in a || x in b;
  }

  lemma SumIs(acc: Class, atoms: set<Class>, r: Class, q: Class)
    requires Sum(acc, atoms, r) && Sum(acc, atoms, q)
    ensures r == q
  {
  }

  lemma SumSame(acc: Class, a: set<Class>, b: set<Class>, r: Class)
    requires Sum(acc, a, r) && a == b
    ensures Sum(acc, b, r)
  {
  }

  lemma {:induction false} TargetIs(t: Expr, ctx: Ctx)
    ensures RootIsState(t, ctx) == StateTarget(t, ctx.states)
    decreases t
  {
    if t.Index? || t.FieldOf? {
      TargetIs(t.target, ctx);
    }
  }

  // ---------- the classification is that sum ----------

  lemma {:induction false} ExprSum(e: Expr, acc: Class, ctx: Ctx)
    ensures Sum(acc, ExprAtoms(e, ctx), ClassifyExpr(e, acc, ctx))
    decreases e, 1
  {
    hide Sum, Join;
    match e
    case Lit => SumNone(acc);
    case Ident(_) =>
      SumNone(acc);
      SumOne(acc, ReadOnly);
    case Parts(es) => ExprsSum(es, acc, ctx);
    case Index(t, k) => IndexSum(t, k, acc, ctx);
    case FieldOf(t) => ExprSum(t, acc, ctx);
    case Reserve(n) =>
      SumOne(acc, WriteOnly);
      ExprSum(n, Join(acc, WriteOnly), ctx);
      SumThen(acc, {WriteOnly}, Join(acc, WriteOnly), ExprAtoms(n, ctx), ClassifyExpr(e, acc, ctx));
    case Call(name, args) => CallSum(args, Callee(name, ctx), acc, ctx);
    case ModCall(mod, name, args) => CallSum(args, ModuleCallee(mod, name, ctx), acc, ctx);
    case DynCall(args, c) => CallSum(args, c, acc, ctx);
    case BlockExpr(b) => BlockSum(b, acc, ctx);
    case IfExpr(c, b, els) => IfExprSum(c, b, els, acc, ctx);
  }

  lemma {:induction false} CallSum(args: seq<Expr>, c: Class, acc: Class, ctx: Ctx)
    ensures Sum(acc, {c} + ExprsAtoms(args, ctx), Join(ClassifyExprs(args, acc, ctx), c))
    decreases args, 1
  {
    hide Sum, Join;
    ExprsSum(args, acc, ctx);
    var m := ClassifyExprs(args, acc, ctx);
    SumOne(m, c);
    SumThen(acc, ExprsAtoms(args, ctx), m, {c}, Join(m, c));
    SumSame(acc, ExprsAtoms(args, ctx) + {c}, {c} + ExprsAtoms(args, ctx), Join(m, c));
  }

  lemma {:induction false} IndexSum(t: Expr, k: Expr, acc: Class, ctx: Ctx)
    ensures Sum(acc, ExprAtoms(t, ctx) + ExprAtoms(k, ctx), ClassifyExpr(Index(t, k), acc, ctx))
    decreases Index(t, k), 0
  {
    hide Sum, Join;
    var hit := t.Ident? && t.name in ctx.states;
    var start := if hit then Join(acc, ReadOnly) else acc;
    var m := ClassifyExpr(t, start, ctx);
    ExprSum(t, start, ctx);
    ExprSum(k, m, ctx);
    if hit {
      SumOne(acc, ReadOnly);
      SumThen(acc, {ReadOnly}, start, ExprAtoms(t, ctx), m);
      SumSame(acc, {ReadOnly} + ExprAtoms(t, ctx), ExprAtoms(t, ctx), m);
    }
    SumThen(acc, ExprAtoms(t, ctx), m, ExprAtoms(k, ctx), ClassifyExpr(Index(t, k), acc, ctx));
  }

  lemma {:induction false} BlockSum(b: Block, acc: Class, ctx: Ctx)
    ensures Sum(acc, StmtsAtoms(b.stmts, ctx) + ExprsAtoms(b.tail, ctx), ClassifyExprs(b.tail, ClassifyStmts(b.stmts, acc, ctx), ctx))
    decreases b, 0
  {
    hide Sum, Join;
    StmtsSum(b.stmts, acc, ctx);
    var m := ClassifyStmts(b.stmts, acc, ctx);
    ExprsSum(b.tail, m, ctx);
    SumThen(acc, StmtsAtoms(b.stmts, ctx), m, ExprsAtoms(b.tail, ctx), ClassifyExprs(b.tail, m, ctx));
  }

  lemma {:induction false} IfExprSum(c: Expr, b: Block, els: Else, acc: Class, ctx: Ctx)
    ensures Sum(acc, ExprAtoms(IfExpr(c, b, els), ctx), ClassifyExpr(IfExpr(c, b, els), acc, ctx))
    decreases IfExpr(c, b, els), 0
  {
    hide Sum, Join;
    ExprSum(c, acc, ctx);
    var m := ClassifyExpr(c, acc, ctx);
    BlockSum(b, m, ctx);
    var n := ClassifyExprs(b.tail, ClassifyStmts(b.stmts, m, ctx), ctx);
    ElseExprSum(els, n, ctx);
    var r := ClassifyElseExpr(els, n, ctx);
    var (x, y, z) := (ExprAtoms(c, ctx), StmtsAtoms(b.stmts, ctx) + ExprsAtoms(b.tail, ctx), ElseExprAtoms(els, ctx));
    SumThen(acc, x, m, y, n);
    SumThen(acc, x + y, n, z, r);
    SumSame(acc, x + y + z, ExprAtoms(IfExpr(c, b, els), ctx), r);
  }

  lemma {:induction false} ExprsSum(es: seq<Expr>, acc: Class, ctx: Ctx)
    ensures Sum(acc, ExprsAtoms(es, ctx), ClassifyExprs(es, acc, ctx))
    decreases es, 0
  {
    hide Sum, Join;
    if es == [] {
      SumNone(acc);
    } else {
      ExprSum(es[0], acc, ctx);
      var m := ClassifyExpr(es[0], acc, ctx);
      ExprsSum(es[1..], m, ctx);
      SumThen(acc, ExprAtoms(es[0], ctx), m, ExprsAtoms(es[1..], ctx), ClassifyExprs(es[1..], m, ctx));
    }
  }

  lemma {:induction false} ElseExprSum(els: Else, acc: Class, ctx: Ctx)
    ensures Sum(acc, ElseExprAtoms(els, ctx), ClassifyElseExpr(els, acc, ctx))
    decreases els, 1
  {
    hide Sum, Join;
    match els
    case NoElse => SumNone(acc);
    case ElseBlock(b) => BlockSum(b, acc, ctx);
    case ElseIf(c, b, rest) => ElseIfSum(c, b, rest, acc, ctx);
  }

  lemma {:induction false} ElseSum(els: Else, acc: Class, ctx: Ctx)
    ensures Sum(acc, ElseAtoms(els, ctx), ClassifyElse(els, acc, ctx))
    decreases els, 1
  {
    hide Sum, Join;
    match els
    case NoElse => SumNone(acc);
    case ElseBlock(b) => StmtsSum(b.stmts, acc, ctx);
    case ElseIf(c, b, rest) => ElseIfSum(c, b, rest, acc, ctx);
  }

  lemma {:induction false} ElseIfSum(c: Expr, b: Block, rest: Else, acc: Class, ctx: Ctx)
    ensures Sum(acc, ExprAtoms(c, ctx) + StmtsAtoms(b.stmts, ctx) + ElseAtoms(rest, ctx),
                ClassifyElse(rest, ClassifyStmts(b.stmts, ClassifyExpr(c, acc, ctx), ctx), ctx))
    decreases ElseIf(c, b, rest), 0
  {
    hide Sum, Join;
    ExprSum(c, acc, ctx);
    var m := ClassifyExpr(c, acc, ctx);
    StmtsSum(b.stmts, m, ctx);
    var n := ClassifyStmts(b.stmts, m, ctx);
    ElseSum(rest, n, ctx);
    SumThen(acc, ExprAtoms(c, ctx), m, StmtsAtoms(b.stmts, ctx), n);
    SumThen(acc, ExprAtoms(c, ctx) + StmtsAtoms(b.stmts, ctx), n, ElseAtoms(rest, ctx), ClassifyElse(rest, n, ctx));
  }

  lemma {:induction false} StmtSum(s: Stmt, acc: Class, ctx: Ctx)
    ensures Sum(acc, StmtAtoms(s, ctx), ClassifyStmt(s, acc, ctx))
    decreases s, 1
  {
    hide Sum, Join;
    match s
    case Eval(e) => ExprSum(e, acc, ctx);
    case Assign(t, v) =>
      TargetIs(t, ctx);
      if StateTarget(t, ctx.states) {
        WriteSum(v, acc, ctx);
        SumSame(acc, {WriteOnly} + ExprAtoms(v, ctx), StmtAtoms(s, ctx), ClassifyStmt(s, acc, ctx));
      } else {
        ExprSum(v, acc, ctx);
        SumSame(acc, ExprAtoms(v, ctx), StmtAtoms(s, ctx), ClassifyStmt(s, acc, ctx));
      }
    case IfStmt(c, b, els) => IfStmtSum(c, b, els, acc, ctx);
    case Loop(heads, b) =>
      ExprsSum(heads, acc, ctx);
      var m := ClassifyExprs(heads, acc, ctx);
      StmtsSum(b.stmts, m, ctx);
      SumThen(acc, ExprsAtoms(heads, ctx), m, StmtsAtoms(b.stmts, ctx), ClassifyStmts(b.stmts, m, ctx));
    case Skip => SumNone(acc);
    case Delete(t) => WriteSum(t, acc, ctx);
    case Emit(v) => WriteSum(v, acc, ctx);
    case Parallel(ss) => StmtsSum(ss, acc, ctx);
  }

  lemma {:induction false} IfStmtSum(c: Expr, b: Block, els: Else, acc: Class, ctx: Ctx)
    ensures Sum(acc, StmtAtoms(IfStmt(c, b, els), ctx), ClassifyStmt(IfStmt(c, b, els), acc, ctx))
    decreases IfStmt(c, b, els), 0
  {
    hide Sum, Join;
    ExprSum(c, acc, ctx);
    var m := ClassifyExpr(c, acc, ctx);
    StmtsSum(b.stmts, m, ctx);
    var n := ClassifyStmts(b.stmts, m, ctx);
    ElseSum(els, n, ctx);
    SumThen(acc, ExprAtoms(c, ctx), m, StmtsAtoms(b.stmts, ctx), n);
    SumThen(acc, ExprAtoms(c, ctx) + StmtsAtoms(b.stmts, ctx), n, ElseAtoms(els, ctx), ClassifyElse(els, n, ctx));
  }

  lemma {:induction false} WriteSum(e: Expr, acc: Class, ctx: Ctx)
    ensures Sum(acc, {WriteOnly} + ExprAtoms(e, ctx), ClassifyExpr(e, Join(acc, WriteOnly), ctx))
    decreases e, 2
  {
    hide Sum, Join;
    SumOne(acc, WriteOnly);
    var m := Join(acc, WriteOnly);
    ExprSum(e, m, ctx);
    SumThen(acc, {WriteOnly}, m, ExprAtoms(e, ctx), ClassifyExpr(e, m, ctx));
  }

  lemma {:induction false} StmtsSum(ss: seq<Stmt>, acc: Class, ctx: Ctx)
    ensures Sum(acc, StmtsAtoms(ss, ctx), ClassifyStmts(ss, acc, ctx))
    decreases ss, 0
  {
    hide Sum, Join;
    if ss == [] {
      SumNone(acc);
    } else {
      StmtSum(ss[0], acc, ctx);
      var m := ClassifyStmt(ss[0], acc, ctx);
      StmtsSum(ss[1..], m, ctx);
      SumThen(acc, StmtAtoms(ss[0], ctx), m, StmtsAtoms(ss[1..], ctx), ClassifyStmts(ss[1..], m, ctx));
    }
  }

  /** A function reads, writes or is impure if and only if something in its statements is. */
  lemma ClassExactly(f: Fn, ctx: Ctx)
    ensures var c, atoms := ClassifyFn(f, ctx), StmtsAtoms(f.body.stmts, ctx);
      && (Writes(c) <==> exists a :: a in atoms && Writes(a))
      && (Reads(c) <==> exists a :: a in atoms && Reads(a))
      && (c == Impure <==> Impure in atoms)
      && (c == Pure <==> atoms <= {Pure})
  {
    hide ClassifyStmts, StmtsAtoms;
    StmtsSum(f.body.stmts, Pure, ctx);
    var c, atoms := ClassifyFn(f, ctx), StmtsAtoms(f.body.stmts, ctx);
    if c == Pure {
      forall a | a in atoms ensures a == Pure {
      }
    }
  }

  lemma {:induction false} AtomsInside(ss: seq<Stmt>, s: Stmt, ctx: Ctx)
    requires s in ss
    ensures StmtAtoms(s, ctx) <= StmtsAtoms(ss, ctx)
    decreases |ss|
  {
    hide StmtAtoms;
    if s != ss[0] {
      assert s in ss[1..];
      AtomsInside(ss[1..], s, ctx);
    }
  }

  /** In every table that agrees with the bodies, a function that deletes, emits, reserves or
      assigns to a state in one of its statements is classed as writing. */
  lemma WritersWrite(fns: seq<Fn>, base: Ctx, t: map<string, Class>, f: Fn, s: Stmt)
    requires Solves(fns, base, t) && f in fns && s in f.body.stmts
    requires s.Delete? || s.Emit? || (s.Eval? && s.e.Reserve?) || (s.Assign? && StateTarget(s.target, base.states))
    ensures f.name in t && Writes(t[f.name])
  {
    hide ClassifyFn, StmtsAtoms;
    var ctx := base.(locals := t);
    assert f.name in NamesOf(fns);
    AtomsInside(f.body.stmts, s, ctx);
    assert WriteOnly in StmtAtoms(s, ctx);
    ClassExactly(f, ctx);
  }

  /** A call that is no builtin, and is a host import or no function of the module. */
  predicate Unknown(base: Ctx, t: map<string, Class>, e: Expr) {
    e.Call? && e.name !in base.pureBuiltins + base.readBuiltins && (e.name in base.imports || e.name !in t)
  }

  /** A state read in a statement is classed as reading, a call of an unknown or host function as
      impure. */
  lemma ReadersRead(fns: seq<Fn>, base: Ctx, t: map<string, Class>, f: Fn, s: Stmt)
    requires Solves(fns, base, t) && f in fns && s in f.body.stmts && s.Eval?
    ensures s.e.Ident? && s.e.name in base.states ==> f.name in t && Reads(t[f.name])
    ensures Unknown(base, t, s.e) ==> f.name in t && t[f.name] == Impure
  {
    hide ClassifyFn, StmtsAtoms;
    var ctx := base.(locals := t);
    assert f.name in NamesOf(fns);
    AtomsInside(f.body.stmts, s, ctx);
    ClassExactly(f, ctx);
    if s.e.Ident? && s.e.name in base.states {
      assert ReadOnly in StmtAtoms(s, ctx);
    }
  }
}
