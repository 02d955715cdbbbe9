/** Effect classes of functions, as the least solution of the call-graph equations. */
module Effects {

  datatype Class = Pure | ReadOnly | WriteOnly | ReadWrite | Impure

  predicate Reads(c: Class) { c.ReadOnly? || c.ReadWrite? || c.Impure? }

  predicate Writes(c: Class) { c.WriteOnly? || c.ReadWrite? || c.Impure? }

  function Join(a: Class, b: Class): Class {
    if a.Impure? || b.Impure? then Impure
    else if Reads(a) || Reads(b) then if Writes(a) || Writes(b) then ReadWrite else ReadOnly
    else if Writes(a) || Writes(b) then WriteOnly
    else Pure
  }

  ghost predicate Below(a: Class, b: Class) { Join(a, b) == b }

  function Rank(c: Class): nat {
    match c
    case Pure => 0
    case ReadOnly => 1
    case WriteOnly => 1
    case ReadWrite => 2
    case Impure => 3
  }

  lemma RankRises(a: Class, b: Class)
    requires Below(a, b) && a != b
    ensures Rank(a) < Rank(b) <= 3
  {
  }

  // ---------- syntax ----------

  datatype Expr =
    | Lit
    | Ident(name: string)
    | Parts(parts: seq<Expr>)                        // operators, literals, comprehensions
    | Index(target: Expr, key: Expr)
    | FieldOf(target: Expr)
    | Reserve(count: Expr)
    | Call(name: string, args: seq<Expr>)
    | ModCall(mod: string, name: string, args: seq<Expr>)
    | DynCall(args: seq<Expr>, declared: Class)       // the class its interface declares
    | BlockExpr(block: Block)
    | IfExpr(cond: Expr, body: Block, els: Else)

  datatype Stmt =
    | Eval(e: Expr)                                  // let, return, expression
    | Assign(target: Expr, value: Expr)
    | IfStmt(cond: Expr, body: Block, els: Else)
    | Loop(heads: seq<Expr>, body: Block)            // while, for, for over a range
    | Skip                                           // break, continue, bare return
    | Delete(target: Expr)
    | Emit(value: Expr)
    | Parallel(stmts: seq<Stmt>)

  datatype Else = NoElse | ElseBlock(block: Block) | ElseIf(cond: Expr, body: Block, els: Else)

  datatype Block = Block(stmts: seq<Stmt>, tail: seq<Expr>)

  datatype Fn = Fn(name: string, body: Block)

  datatype Ctx = Ctx(
    locals: map<string, Class>,
    externals: map<string, Class>,
    imports: set<string>,
    states: set<string>,
    ifaces: set<string>,
    pureBuiltins: set<string>,
    readBuiltins: set<string>)

  // ---------- one body ----------

  predicate RootIsState(target: Expr, ctx: Ctx) {
    match target
    case Ident(n) => n in ctx.states
    case Index(t, _) => RootIsState(t, ctx)
    case FieldOf(t) => RootIsState(t, ctx)
    case _ => false
  }

  function CallClass(name: string, ctx: Ctx): Class {
    if name in ctx.pureBuiltins then Pure
    else if name in ctx.readBuiltins then ReadOnly
    else if name in ctx.imports then Impure
    else if name in ctx.locals then ctx.locals[name]
    else Impure
  }

  function ModCallClass(mod: string, name: string, ctx: Ctx): Class {
    var key := mod + "::" + name;
    if name == "bind" && mod in ctx.ifaces then Pure
    else if key in ctx.externals then ctx.externals[key]
    else Impure
  }

  function ClassifyExpr(e: Expr, acc: Class, ctx: Ctx): Class
    decreases e
  {
    match e
    case Lit => acc
    case Ident(n) => if n in ctx.states then Join(acc, ReadOnly) else acc
    case Parts(es) => ClassifyExprs(es, acc, ctx)
    case Index(t, k) =>
      var start := if t.Ident? && t.name in ctx.states then Join(acc, ReadOnly) else acc;
      ClassifyExpr(k, ClassifyExpr(t, start, ctx), ctx)
    case FieldOf(t) => ClassifyExpr(t, acc, ctx)
    case Reserve(n) => ClassifyExpr(n, Join(acc, WriteOnly), ctx)
    case Call(name, args) => Join(ClassifyExprs(args, acc, ctx), CallClass(name, ctx))
    case ModCall(mod, name, args) => Join(ClassifyExprs(args, acc, ctx), ModCallClass(mod, name, ctx))
    case DynCall(args, c) => Join(ClassifyExprs(args, acc, ctx), c)
    case BlockExpr(b) => ClassifyExprs(b.tail, ClassifyStmts(b.stmts, acc, ctx), ctx)
    case IfExpr(c, b, els) =>
      ClassifyElseExpr(els, ClassifyExprs(b.tail, ClassifyStmts(b.stmts, ClassifyExpr(c, acc, ctx), ctx), ctx), ctx)
  }

  function ClassifyExprs(es: seq<Expr>, acc: Class, ctx: Ctx): Class
    decreases es
  {
    if es == [] then acc else ClassifyExprs(es[1..], ClassifyExpr(es[0], acc, ctx), ctx)
  }

  /** The `else` of an expression: a block's tail counts, an `else if` goes the statement way. */
  function ClassifyElseExpr(els: Else, acc: Class, ctx: Ctx): Class
    decreases els
  {
    match els
    case NoElse => acc
    case ElseBlock(b) => ClassifyExprs(b.tail, ClassifyStmts(b.stmts, acc, ctx), ctx)
    case ElseIf(c, b, rest) => ClassifyElse(rest, ClassifyStmts(b.stmts, ClassifyExpr(c, acc, ctx), ctx), ctx)
  }

  function ClassifyElse(els: Else, acc: Class, ctx: Ctx): Class
    decreases els
  {
    match els
    case NoElse => acc
    case ElseBlock(b) => ClassifyStmts(b.stmts, acc, ctx)
    case ElseIf(c, b, rest) => ClassifyElse(rest, ClassifyStmts(b.stmts, ClassifyExpr(c, acc, ctx), ctx), ctx)
  }

  function ClassifyStmt(s: Stmt, acc: Class, ctx: Ctx): Class
    decreases s
  {
    match s
    case Eval(e) => ClassifyExpr(e, acc, ctx)
    case Assign(t, v) => ClassifyExpr(v, if RootIsState(t, ctx) then Join(acc, WriteOnly) else acc, ctx)
    case IfStmt(c, b, els) => ClassifyElse(els, ClassifyStmts(b.stmts, ClassifyExpr(c, acc, ctx), ctx), ctx)
    case Loop(heads, b) => ClassifyStmts(b.stmts, ClassifyExprs(heads, acc, ctx), ctx)
    case Skip => acc
    case Delete(t) => ClassifyExpr(t, Join(acc, WriteOnly), ctx)
    case Emit(v) => ClassifyExpr(v, Join(acc, WriteOnly), ctx)
    case Parallel(ss) => ClassifyStmts(ss, acc, ctx)
  }

  function ClassifyStmts(ss: seq<Stmt>, acc: Class, ctx: Ctx): Class
    decreases ss
  {
    if ss == [] then acc else ClassifyStmts(ss[1..], ClassifyStmt(ss[0], acc, ctx), ctx)
  }

  function ClassifyFn(f: Fn, ctx: Ctx): Class { ClassifyStmts(f.body.stmts, Pure, ctx) }

  // ---------- monotonicity ----------

  /** Pointwise order of two class tables over the same names. */
  ghost predicate TableBelow(a: map<string, Class>, b: map<string, Class>) {
    a.Keys == b.Keys && forall n :: n in a ==> Below(a[n], b[n])
  }

  ghost predicate CtxBelow(a: Ctx, b: Ctx) { TableBelow(a.locals, b.locals) && a == b.(locals := a.locals) }

  lemma {:induction false} ExprMono(e: Expr, x: Class, y: Class, a: Ctx, b: Ctx)
    requires Below(x, y) && CtxBelow(a, b)
    ensures Below(ClassifyExpr(e, x, a), ClassifyExpr(e, y, b)) && Below(x, ClassifyExpr(e, x, a))
    decreases e, 1
  {
    hide Join, Below, CtxBelow;
    BelowRefl();
    SameCtx(a, b);
    match e
    case Lit =>
    case Ident(_) => JoinMono(x, y, ReadOnly, ReadOnly);
    case Parts(es) => ExprsMono(es, x, y, a, b);
    case Index(t, k) => IndexMono(t, k, x, y, a, b);
    case FieldOf(t) => ExprMono(t, x, y, a, b);
    case Reserve(n) =>
      JoinMono(x, y, WriteOnly, WriteOnly);
      ExprMono(n, Join(x, WriteOnly), Join(y, WriteOnly), a, b);
      BelowTrans(x, Join(x, WriteOnly), ClassifyExpr(e, x, a));
    case Call(name, args) =>
      CallMono(name, a, b);
      ArgsMono(args, CallClass(name, a), CallClass(name, b), x, y, a, b);
    case ModCall(mod, name, args) =>
      ArgsMono(args, ModCallClass(mod, name, a), ModCallClass(mod, name, b), x, y, a, b);
    case DynCall(args, c) => ArgsMono(args, c, c, x, y, a, b);
    case BlockExpr(bl) => BlockMono(bl, x, y, a, b);
    case IfExpr(c, bl, els) => IfExprMono(c, bl, els, x, y, a, b);
  }

  lemma JoinMono(x: Class, y: Class, p: Class, q: Class)
    requires Below(x, y) && Below(p, q)
    ensures Below(Join(x, p), Join(y, q)) && Below(x, Join(x, p))
  {
  }

  lemma SameCtx(a: Ctx, b: Ctx)
    requires CtxBelow(a, b)
    ensures a.states == b.states
    ensures forall mod, name :: ModCallClass(mod, name, a) == ModCallClass(mod, name, b)
  {
  }

  lemma CallMono(name: string, a: Ctx, b: Ctx)
    requires CtxBelow(a, b)
    ensures Below(CallClass(name, a), CallClass(name, b))
  {
  }

  lemma {:induction false} ArgsMono(args: seq<Expr>, p: Class, q: Class, x: Class, y: Class, a: Ctx, b: Ctx)
    requires Below(x, y) && CtxBelow(a, b) && Below(p, q)
    ensures Below(Join(ClassifyExprs(args, x, a), p), Join(ClassifyExprs(args, y, b), q))
    ensures Below(x, Join(ClassifyExprs(args, x, a), p))
    decreases args, 1
  {
    hide Join, Below, CtxBelow;
    ExprsMono(args, x, y, a, b);
    JoinMono(ClassifyExprs(args, x, a), ClassifyExprs(args, y, b), p, q);
    BelowTrans(x, ClassifyExprs(args, x, a), Join(ClassifyExprs(args, x, a), p));
  }

  lemma {:induction false} BlockMono(bl: Block, x: Class, y: Class, a: Ctx, b: Ctx)
    requires Below(x, y) && CtxBelow(a, b)
    ensures Below(ClassifyExprs(bl.tail, ClassifyStmts(bl.stmts, x, a), a), ClassifyExprs(bl.tail, ClassifyStmts(bl.stmts, y, b), b))
    ensures Below(x, ClassifyExprs(bl.tail, ClassifyStmts(bl.stmts, x, a), a))
    decreases bl, 0
  {
    hide Join, Below, CtxBelow;
    StmtsMono(bl.stmts, x, y, a, b);
    ExprsMono(bl.tail, ClassifyStmts(bl.stmts, x, a), ClassifyStmts(bl.stmts, y, b), a, b);
    BelowTrans(x, ClassifyStmts(bl.stmts, x, a), ClassifyExprs(bl.tail, ClassifyStmts(bl.stmts, x, a), a));
  }

  lemma {:induction false} IndexMono(t: Expr, k: Expr, x: Class, y: Class, a: Ctx, b: Ctx)
    requires Below(x, y) && CtxBelow(a, b)
    ensures Below(ClassifyExpr(Index(t, k), x, a), ClassifyExpr(Index(t, k), y, b)) && Below(x, ClassifyExpr(Index(t, k), x, a))
    decreases Index(t, k), 0
  {
    hide Join, Below, CtxBelow;
    BelowRefl();
    SameCtx(a, b);
    JoinMono(x, y, ReadOnly, ReadOnly);
    var hit := t.Ident? && t.name in a.states;
    var x', y' := if hit then Join(x, ReadOnly) else x, if hit then Join(y, ReadOnly) else y;
    ExprMono(t, x', y', a, b);
    ExprMono(k, ClassifyExpr(t, x', a), ClassifyExpr(t, y', b), a, b);
    BelowTrans(x, x', ClassifyExpr(t, x', a));
    BelowTrans(x, ClassifyExpr(t, x', a), ClassifyExpr(Index(t, k), x, a));
  }

  lemma {:induction false} IfExprMono(c: Expr, bl: Block, els: Else, x: Class, y: Class, a: Ctx, b: Ctx)
    requires Below(x, y) && CtxBelow(a, b)
    ensures Below(ClassifyExpr(IfExpr(c, bl, els), x, a), ClassifyExpr(IfExpr(c, bl, els), y, b))
    ensures Below(x, ClassifyExpr(IfExpr(c, bl, els), x, a))
    decreases IfExpr(c, bl, els), 0
  {
    hide Join, Below, CtxBelow;
    ExprMono(c, x, y, a, b);
    var x1, y1 := ClassifyExpr(c, x, a), ClassifyExpr(c, y, b);
    BlockMono(bl, x1, y1, a, b);
    var x2, y2 := ClassifyExprs(bl.tail, ClassifyStmts(bl.stmts, x1, a), a), ClassifyExprs(bl.tail, ClassifyStmts(bl.stmts, y1, b), b);
    ElseExprMono(els, x2, y2, a, b);
    BelowTrans(x, x1, x2);
    BelowTrans(x, x2, ClassifyElseExpr(els, x2, a));
  }

  lemma {:induction false} ExprsMono(es: seq<Expr>, x: Class, y: Class, a: Ctx, b: Ctx)
    requires Below(x, y) && CtxBelow(a, b)
    ensures Below(ClassifyExprs(es, x, a), ClassifyExprs(es, y, b)) && Below(x, ClassifyExprs(es, x, a))
    decreases es, 0
  {
    if es != [] {
      ExprMono(es[0], x, y, a, b);
      ExprsMono(es[1..], ClassifyExpr(es[0], x, a), ClassifyExpr(es[0], y, b), a, b);
    }
  }

  lemma {:induction false} ElseExprMono(els: Else, x: Class, y: Class, a: Ctx, b: Ctx)
    requires Below(x, y) && CtxBelow(a, b)
    ensures Below(ClassifyElseExpr(els, x, a), ClassifyElseExpr(els, y, b)) && Below(x, ClassifyElseExpr(els, x, a))
    decreases els
  {
    match els
    case NoElse =>
    case ElseBlock(bl) =>
      StmtsMono(bl.stmts, x, y, a, b);
      ExprsMono(bl.tail, ClassifyStmts(bl.stmts, x, a), ClassifyStmts(bl.stmts, y, b), a, b);
    case ElseIf(c, bl, rest) =>
      ExprMono(c, x, y, a, b);
      var x1, y1 := ClassifyExpr(c, x, a), ClassifyExpr(c, y, b);
      StmtsMono(bl.stmts, x1, y1, a, b);
      ElseMono(rest, ClassifyStmts(bl.stmts, x1, a), ClassifyStmts(bl.stmts, y1, b), a, b);
  }

  lemma {:induction false} ElseMono(els: Else, x: Class, y: Class, a: Ctx, b: Ctx)
    requires Below(x, y) && CtxBelow(a, b)
    ensures Below(ClassifyElse(els, x, a), ClassifyElse(els, y, b)) && Below(x, ClassifyElse(els, x, a))
    decreases els
  {
    match els
    case NoElse =>
    case ElseBlock(bl) => StmtsMono(bl.stmts, x, y, a, b);
    case ElseIf(c, bl, rest) =>
      ExprMono(c, x, y, a, b);
      var x1, y1 := ClassifyExpr(c, x, a), ClassifyExpr(c, y, b);
      StmtsMono(bl.stmts, x1, y1, a, b);
      ElseMono(rest, ClassifyStmts(bl.stmts, x1, a), ClassifyStmts(bl.stmts, y1, b), a, b);
  }

  lemma {:induction false} StmtMono(s: Stmt, x: Class, y: Class, a: Ctx, b: Ctx)
    requires Below(x, y) && CtxBelow(a, b)
    ensures Below(ClassifyStmt(s, x, a), ClassifyStmt(s, y, b)) && Below(x, ClassifyStmt(s, x, a))
    decreases s, 1
  {
    hide Join, Below, CtxBelow;
    BelowRefl();
    match s
    case Eval(e) => ExprMono(e, x, y, a, b);
    case Assign(t, v) =>
      SameRoot(t, a, b);
      if RootIsState(t, a) {
        WriteMono(v, x, y, a, b);
      } else {
        ExprMono(v, x, y, a, b);
      }
    case IfStmt(c, bl, els) => IfStmtMono(c, bl, els, x, y, a, b);
    case Loop(heads, bl) =>
      ExprsMono(heads, x, y, a, b);
      var x1, y1 := ClassifyExprs(heads, x, a), ClassifyExprs(heads, y, b);
      StmtsMono(bl.stmts, x1, y1, a, b);
      BelowTrans(x, x1, ClassifyStmts(bl.stmts, x1, a));
    case Skip =>
    case Delete(t) => WriteMono(t, x, y, a, b);
    case Emit(v) => WriteMono(v, x, y, a, b);
    case Parallel(ss) => StmtsMono(ss, x, y, a, b);
  }

  lemma {:induction false} WriteMono(e: Expr, x: Class, y: Class, a: Ctx, b: Ctx)
    requires Below(x, y) && CtxBelow(a, b)
    ensures Below(ClassifyExpr(e, Join(x, WriteOnly), a), ClassifyExpr(e, Join(y, WriteOnly), b))
    ensures Below(x, ClassifyExpr(e, Join(x, WriteOnly), a))
    decreases e, 2
  {
    hide Join, Below, CtxBelow;
    BelowRefl();
    JoinMono(x, y, WriteOnly, WriteOnly);
    ExprMono(e, Join(x, WriteOnly), Join(y, WriteOnly), a, b);
    BelowTrans(x, Join(x, WriteOnly), ClassifyExpr(e, Join(x, WriteOnly), a));
  }

  lemma {:induction false} IfStmtMono(c: Expr, bl: Block, els: Else, x: Class, y: Class, a: Ctx, b: Ctx)
    requires Below(x, y) && CtxBelow(a, b)
    ensures Below(ClassifyStmt(IfStmt(c, bl, els), x, a), ClassifyStmt(IfStmt(c, bl, els), y, b))
    ensures Below(x, ClassifyStmt(IfStmt(c, bl, els), x, a))
    decreases IfStmt(c, bl, els), 0
  {
    hide Join, Below, CtxBelow;
    ExprMono(c, x, y, a, b);
    var x1, y1 := ClassifyExpr(c, x, a), ClassifyExpr(c, y, b);
    StmtsMono(bl.stmts, x1, y1, a, b);
    var x2, y2 := ClassifyStmts(bl.stmts, x1, a), ClassifyStmts(bl.stmts, y1, b);
    ElseMono(els, x2, y2, a, b);
    BelowTrans(x, x1, x2);
    BelowTrans(x, x2, ClassifyElse(els, x2, a));
  }

  lemma {:induction false} SameRoot(t: Expr, a: Ctx, b: Ctx)
    requires CtxBelow(a, b)
    ensures RootIsState(t, a) == RootIsState(t, b)
    decreases t
  {
    if t.Index? || t.FieldOf? {
      SameRoot(t.target, a, b);
    }
  }

  lemma {:induction false} StmtsMono(ss: seq<Stmt>, x: Class, y: Class, a: Ctx, b: Ctx)
    requires Below(x, y) && CtxBelow(a, b)
    ensures Below(ClassifyStmts(ss, x, a), ClassifyStmts(ss, y, b)) && Below(x, ClassifyStmts(ss, x, a))
    decreases ss
  {
    if ss != [] {
      StmtMono(ss[0], x, y, a, b);
      StmtsMono(ss[1..], ClassifyStmt(ss[0], x, a), ClassifyStmt(ss[0], y, b), a, b);
    }
  }

  // ---------- the fixed point ----------

  ghost predicate Distinct(fns: seq<Fn>) { forall i, j :: 0 <= i < j < |fns| ==> fns[i].name != fns[j].name }

  /** Functions of one name classify alike under every table; so do functions of distinct names. */
  ghost predicate Alike(fns: seq<Fn>, base: Ctx) {
    forall f, g, t | f in fns && g in fns && f.name == g.name ::
      ClassifyFn(f, base.(locals := t)) == ClassifyFn(g, base.(locals := t))
  }

  lemma DistinctAlike(fns: seq<Fn>, base: Ctx)
    requires Distinct(fns)
    ensures Alike(fns, base)
  {
    hide ClassifyFn;
    forall f, g | f in fns && g in fns && f.name == g.name ensures f == g {
      var i :| 0 <= i < |fns| && fns[i] == f;
      var j :| 0 <= j < |fns| && fns[j] == g;
    }
  }

  function NamesOf(fns: seq<Fn>): set<string> { set f | f in fns :: f.name }

  /** A table that agrees with every body. */
  ghost predicate Solves(fns: seq<Fn>, base: Ctx, t: map<string, Class>) {
    t.Keys == NamesOf(fns) && forall f :: f in fns ==> t[f.name] == ClassifyFn(f, base.(locals := t))
  }

  /** A table no body asks to lower. */
  ghost predicate Ascending(fns: seq<Fn>, base: Ctx, t: map<string, Class>) {
    t.Keys == NamesOf(fns) && forall f :: f in fns ==> Below(t[f.name], ClassifyFn(f, base.(locals := t)))
  }

  ghost predicate UnderAll(fns: seq<Fn>, base: Ctx, t: map<string, Class>) {
    forall s :: Solves(fns, base, s) ==> TableBelow(t, s)
  }

  lemma FnMono(f: Fn, base: Ctx, t: map<string, Class>, t': map<string, Class>)
    requires TableBelow(t, t')
    ensures Below(ClassifyFn(f, base.(locals := t)), ClassifyFn(f, base.(locals := t')))
  {
    hide ClassifyStmts;
    StmtsMono(f.body.stmts, Pure, Pure, base.(locals := t), base.(locals := t'));
  }

  /** Replacing one function's class by what its body asks for keeps the table ascending and under
      every solution. */
  lemma UpdateKeeps(fns: seq<Fn>, base: Ctx, t: map<string, Class>, f: Fn)
    requires Alike(fns, base) && f in fns && Ascending(fns, base, t) && UnderAll(fns, base, t)
    ensures var t' := t[f.name := ClassifyFn(f, base.(locals := t))];
      Ascending(fns, base, t') && UnderAll(fns, base, t') && TableBelow(t, t')
  {
    hide ClassifyFn, Below;
    BelowRefl();
    var t' := t[f.name := ClassifyFn(f, base.(locals := t))];
    assert t'.Keys == t.Keys by { assert f.name in NamesOf(fns); }
    assert TableBelow(t, t');
    forall g | g in fns ensures Below(t'[g.name], ClassifyFn(g, base.(locals := t'))) {
      assert g.name in NamesOf(fns);
      FnMono(g, base, t, t');
      if g.name == f.name {
        assert ClassifyFn(g, base.(locals := t)) == ClassifyFn(f, base.(locals := t));
      } else {
        BelowTrans(t[g.name], ClassifyFn(g, base.(locals := t)), ClassifyFn(g, base.(locals := t')));
      }
    }
    forall s | Solves(fns, base, s) ensures TableBelow(t', s) {
      assert TableBelow(t, s);
      FnMono(f, base, t, s);
    }
  }

  lemma BelowRefl()
    ensures forall c :: Below(c, c)
  {
  }

  lemma BelowTrans(a: Class, b: Class, c: Class)
    requires Below(a, b) && Below(b, c)
    ensures Below(a, c)
  {
  }

  function Slack(fns: seq<Fn>, t: map<string, Class>): nat
    requires forall f :: f in fns ==> f.name in t
  {
    if fns == [] then 0
    else
      assert fns[0] in fns;
      3 - Rank(t[fns[0].name]) + Slack(fns[1..], t)
  }

  lemma {:induction false} SlackFalls(fns: seq<Fn>, t: map<string, Class>, f: Fn, c: Class)
    requires (forall g :: g in fns ==> g.name in t) && f.name in t && Below(t[f.name], c) && t[f.name] != c
    ensures Slack(fns, t[f.name := c]) <= Slack(fns, t)
    ensures f in fns ==> Slack(fns, t[f.name := c]) < Slack(fns, t)
  {
    if fns != [] {
      assert fns[0] in fns;
      assert f in fns ==> f == fns[0] || f in fns[1..];
      SlackFalls(fns[1..], t, f, c);
      RankRises(t[f.name], c);
    }
  }

  lemma PureStart(fns: seq<Fn>, base: Ctx, t: map<string, Class>)
    requires t == map n | n in NamesOf(fns) :: Pure
    ensures Ascending(fns, base, t) && UnderAll(fns, base, t)
  {
    hide ClassifyFn;
    forall f | f in fns ensures Below(t[f.name], ClassifyFn(f, base.(locals := t))) {
      assert f.name in NamesOf(fns);
    }
  }

  /** The in-place iteration: it terminates, each update strictly raises a class, and the table it
      returns is the least one that agrees with every body. A repeated name is no harm as long as
      its bodies classify alike. */
  method Classify(fns: seq<Fn>, base: Ctx) returns (t: map<string, Class>)
    requires Alike(fns, base)
    ensures Solves(fns, base, t) && UnderAll(fns, base, t)
  {
    hide ClassifyFn, Slack, UnderAll, Below, Alike;
    t := map n | n in NamesOf(fns) :: Pure;
    PureStart(fns, base, t);
    InTable(fns);
    var changed := true;
    while changed
      invariant Ascending(fns, base, t) && UnderAll(fns, base, t)
      invariant !changed ==> forall f :: f in fns ==> t[f.name] == ClassifyFn(f, base.(locals := t))
      decreases Slack(fns, t), changed
    {
      changed := false;
      ghost var start := t;
      for i := 0 to |fns|
        invariant Ascending(fns, base, t) && UnderAll(fns, base, t)
        invariant !changed ==> t == start && forall j :: 0 <= j < i ==> t[fns[j].name] == ClassifyFn(fns[j], base.(locals := t))
        invariant changed ==> Slack(fns, t) < Slack(fns, start)
      {
        var f := fns[i];
        assert f in fns;
        var c := ClassifyFn(f, base.(locals := t));
        if c != t[f.name] {
          UpdateKeeps(fns, base, t, f);
          SlackFalls(fns, t, f, c);
          t := t[f.name := c];
          changed := true;
        }
      }
    }
  }

  lemma InTable(fns: seq<Fn>)
    ensures forall f :: f in fns ==> f.name in NamesOf(fns)
  {
  }

  /** The order of the functions does not matter: there is only one least solution. */
  lemma OrderIndependent(fns: seq<Fn>, fns': seq<Fn>, base: Ctx, t: map<string, Class>, t': map<string, Class>)
    requires forall f :: f in fns <==> f in fns'
    requires Solves(fns, base, t) && UnderAll(fns, base, t) && Solves(fns', base, t') && UnderAll(fns', base, t')
    ensures t == t'
  {
    hide ClassifyFn, Below;
    assert NamesOf(fns) == NamesOf(fns');
    assert Solves(fns, base, t') && Solves(fns', base, t);
    forall n | n in t ensures t[n] == t'[n] {
      BelowBoth(t[n], t'[n]);
    }
  }

  lemma BelowBoth(a: Class, b: Class)
    ensures Below(a, b) && Below(b, a) ==> a == b
  {
  }

  // ---------- why names must differ ----------

  /** One sweep over the functions, in place. */
  function Pass(fns: seq<Fn>, base: Ctx, t: map<string, Class>): (map<string, Class>, bool)
    decreases |fns|
  {
    if fns == [] then (t, false)
    else
      var before := Pass(fns[..|fns| - 1], base, t);
      var f := fns[|fns| - 1];
      var c := ClassifyFn(f, base.(locals := before.0));
      if f.name in before.0 && before.0[f.name] == c then before else (before.0[f.name := c], true)
  }

  /** A sweep changes nothing exactly when the table agrees with every body. */
  lemma {:induction false} SweepSettles(fns: seq<Fn>, base: Ctx, t: map<string, Class>)
    ensures !Pass(fns, base, t).1 <==>
      forall f :: f in fns ==> f.name in t && t[f.name] == ClassifyFn(f, base.(locals := t))
    ensures !Pass(fns, base, t).1 ==> Pass(fns, base, t).0 == t
    decreases |fns|
  {
    hide ClassifyFn;
    if fns != [] {
      var n := |fns| - 1;
      SweepSettles(fns[..n], base, t);
      assert fns == fns[..n] + [fns[n]];
    }
  }

  /** Two functions of one name, calling nothing whose class is sought: some table makes a sweep
      settle if and only if they have one class. */
  lemma TwinsSettleExactly(base: Ctx, f: Fn, g: Fn, a: Class, b: Class)
    requires f.name == g.name
    requires forall t :: ClassifyFn(f, base.(locals := t)) == a && ClassifyFn(g, base.(locals := t)) == b
    ensures (exists t :: !Pass([f, g], base, t).1) <==> a == b
  {
    hide ClassifyFn, Pass;
    if t :| !Pass([f, g], base, t).1 {
      SweepSettles([f, g], base, t);
      assert f in [f, g] && g in [f, g];
    }
    if a == b {
      var t := map[f.name := a];
      SweepSettles([f, g], base, t);
    }
  }

  lemma OneCall(name: string, ctx: Ctx)
    ensures ClassifyStmts([Eval(Call(name, []))], Pure, ctx) == CallClass(name, ctx)
    ensures ClassifyStmts([], Pure, ctx) == Pure
  {
    var ss := [Eval(Call(name, []))];
    assert ss[1..] == [];
    assert ClassifyExprs([], Pure, ctx) == Pure;
    assert ClassifyStmt(ss[0], Pure, ctx) == Join(Pure, CallClass(name, ctx));
  }

  lemma OneRead(s: string, ctx: Ctx)
    requires s in ctx.states
    ensures ClassifyStmts([Eval(Ident(s))], Pure, ctx) == ReadOnly
  {
    assert [Eval(Ident(s))][1..] == [];
    assert ClassifyStmt(Eval(Ident(s)), Pure, ctx) == ReadOnly;
  }

  /** Two functions of one name whose bodies differ in class keep every sweep changing the table. */
  lemma TwinsNeverSettle(base: Ctx, s: string, t: map<string, Class>)
    requires s in base.states
    ensures var quiet, reader := Fn("f", Block([], [])), Fn("f", Block([Eval(Ident(s))], []));
      Pass([quiet, reader], base, t).1
  {
    hide Pass;
    var quiet, reader := Fn("f", Block([], [])), Fn("f", Block([Eval(Ident(s))], []));
    forall t': map<string, Class>
      ensures ClassifyFn(quiet, base.(locals := t')) == Pure && ClassifyFn(reader, base.(locals := t')) == ReadOnly
    {
      OneCall("f", base.(locals := t'));
      OneRead(s, base.(locals := t'));
    }
    TwinsSettleExactly(base, quiet, reader, Pure, ReadOnly);
  }

  ghost predicate Callable(base: Ctx, name: string) {
    name !in base.pureBuiltins && name !in base.readBuiltins && name !in base.imports
  }

  /** That a table agrees with every body is not enough: here one does, and from the all-pure
      table every sweep changes something and comes back to it. */
  lemma TwinsCycle(base: Ctx, s: string)
    requires s in base.states && Callable(base, "f") && Callable(base, "g")
    ensures var fns := [Fn("f", Block([Eval(Ident(s))], [])), Fn("f", Block([Eval(Call("g", []))], [])),
                        Fn("g", Block([Eval(Call("f", []))], []))];
      && Solves(fns, base, map["f" := ReadOnly, "g" := ReadOnly])
      && Pass(fns, base, map["f" := Pure, "g" := Pure]) == (map["f" := Pure, "g" := Pure], true)
  {
    hide ClassifyStmts;
    var f1, f2, g := Fn("f", Block([Eval(Ident(s))], [])), Fn("f", Block([Eval(Call("g", []))], [])), Fn("g", Block([Eval(Call("f", []))], []));
    var fns := [f1, f2, g];
    assert "f" != "g" by { assert "f"[0] != "g"[0]; }
    forall t: map<string, Class> | "f" in t && "g" in t
      ensures ClassifyFn(f1, base.(locals := t)) == ReadOnly
      ensures ClassifyFn(f2, base.(locals := t)) == t["g"] && ClassifyFn(g, base.(locals := t)) == t["f"]
    {
      OneRead(s, base.(locals := t));
      OneCall("g", base.(locals := t));
      OneCall("f", base.(locals := t));
    }
    var both: map<string, Class> := map["f" := ReadOnly, "g" := ReadOnly];
    assert f1 in fns && g in fns;
    assert both.Keys == {"f", "g"} && NamesOf(fns) == {"f", "g"};
    var t: map<string, Class> := map["f" := Pure, "g" := Pure];
    var mid: map<string, Class> := map["f" := ReadOnly, "g" := Pure];
    assert fns[..2] == [f1, f2] && [f1, f2][..1] == [f1] && [f1][..0] == [];
    assert Pass([], base, t) == (t, false);
    assert Pass([f1], base, t) == (mid, true) by { assert t["f" := ReadOnly] == mid; }
    assert Pass([f1, f2], base, t) == (t, true) by { assert mid["f" := Pure] == t; }
  }
}
