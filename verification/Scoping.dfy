/** Which programs compile, and what a parameter is bound to, said of the source text alone. */
module Scoping {
  import opened Options
  import opened Machine
  import opened Interp
  import opened CodeGen
  import opened CompileFn

  // ---------- parameters ----------

  /** Every parameter is bound, nothing else is, and each to its own argument; of two parameters
      with one name the later one counts. */
  lemma {:induction false} BindExactly<T>(params: seq<string>, args: seq<T>)
    requires |params| == |args|
    ensures forall x :: x in Bind(params, args) <==> x in params
    ensures forall i :: 0 <= i < |params| && (forall j :: i < j < |params| ==> params[j] != params[i]) ==>
              params[i] in Bind(params, args) && Bind(params, args)[params[i]] == args[i]
    decreases |params|
  {
    if params != [] {
      var n := |params| - 1;
      BindExactly(params[..n], args[..n]);
      assert params == params[..n] + [params[n]];
      forall i | 0 <= i < |params| && (forall j :: i < j < |params| ==> params[j] != params[i])
        ensures params[i] in Bind(params, args) && Bind(params, args)[params[i]] == args[i]
      {
        if i < n {
          assert params[n] != params[i];
          assert params[..n][i] == params[i] && args[..n][i] == args[i];
          assert forall j :: i < j < n ==> params[..n][j] != params[..n][i];
        }
      }
    }
  }

  /** A function that returns a parameter returns its argument, whatever the state holds. */
  lemma ParameterReturned(env: Env, fuel: nat, params: seq<string>, args: seq<Value>, st: State, i: nat)
    requires |params| == |args| && i < |params| && forall j :: i < j < |params| ==> params[j] != params[i]
    ensures CallFn(env, fuel, params, Block(Nil, Some(Ident(params[i]))), args, st) == Answer(args[i], st)
  {
    BindExactly(params, args);
    var vars: Scopes := [Bind(params, args), map[]];
    assert vars[0] == Bind(params, args) && params[i] in vars[0] && params[i] !in vars[1];
    assert Eval(env, Ident(params[i]), vars, st) == Ok(args[i]);
    assert ExecStmts(env, fuel, Nil, vars, st) == Done(Normal, vars, st);
  }

  // ---------- names in scope ----------

  predicate ExprScoped(names: set<string>, e: Expr) {
    match e
    case Lit(_) => true
    case Ident(x) => x in names
    case Binary(_, l, r) => ExprScoped(names, l) && ExprScoped(names, r)
    case Unary(_, o) => ExprScoped(names, o)
  }

  /** A `let` puts its name in scope for what follows. */
  function Declares(s: Stmt): set<string> { if s.Let? then {s.name} else {} }

  function DeclaresAll(ss: Stmts): set<string> { if ss.Nil? then {} else Declares(ss.head) + DeclaresAll(ss.tail) }

  /** Every name is in scope, and `break` and `continue` are inside a loop. */
  predicate StmtScoped(names: set<string>, s: Stmt, inLoop: bool)
    decreases s
  {
    match s
    case Let(_, e) => ExprScoped(names, e)
    case Assign(x, e) => x in names && ExprScoped(names, e)
    case ReturnStmt(r) => r.Some? ==> ExprScoped(names, r.value)
    case If(ifs) => IfScoped(names, ifs, inLoop)
    case While(cond, body) => ExprScoped(names, cond) && BlockScoped(names, body, true)
    case Break => inLoop
    case Continue => inLoop
    case ExprStmt(e) => ExprScoped(names, e)
  }

  predicate IfScoped(names: set<string>, ifs: IfStmt, inLoop: bool)
    decreases ifs
  {
    ExprScoped(names, ifs.cond) && BlockScoped(names, ifs.thn, inLoop)
    && match ifs.els
       case NoElse => true
       case ElseBlock(b) => BlockScoped(names, b, inLoop)
       case ElseIf(nested) => IfScoped(names, nested, inLoop)
  }

  predicate StmtsScoped(names: set<string>, ss: Stmts, inLoop: bool)
    decreases ss
  {
    ss.Cons? ==> StmtScoped(names, ss.head, inLoop) && StmtsScoped(names + Declares(ss.head), ss.tail, inLoop)
  }

  predicate BlockScoped(names: set<string>, b: Block, inLoop: bool)
    decreases b
  {
    StmtsScoped(names, b.stmts, inLoop) && (b.tail.Some? ==> ExprScoped(names + DeclaresAll(b.stmts), b.tail.value))
  }

  // ---------- what compiles ----------

  /** The names a compiler state resolves. */
  ghost predicate Sees(slots: map<string, nat>, scopes: Registers, names: set<string>) {
    forall x :: x in names <==> x in slots || Find(scopes, x).Some?
  }

  lemma FindAny(scopes: Registers, x: string)
    ensures Find(scopes, x).Some? <==> exists i :: 0 <= i < |scopes| && x in scopes[i]
  {
  }

  lemma SeesInner(slots: map<string, nat>, scopes: Registers, names: set<string>)
    requires Sees(slots, scopes, names)
    ensures Sees(slots, scopes + [map[]], names)
  {
    var inner := scopes + [map[]];
    forall x ensures Find(inner, x).Some? <==> Find(scopes, x).Some? {
      FindAny(scopes, x);
      FindAny(inner, x);
      if i :| 0 <= i < |scopes| && x in scopes[i] {
        assert x in inner[i];
      }
    }
  }

  lemma SeesMore(slots: map<string, nat>, scopes: Registers, names: set<string>, x: string, top: map<string, nat>, r: nat)
    requires Sees(slots, scopes, names) && |scopes| > 0 && top == scopes[|scopes| - 1][x := r]
    ensures Sees(slots, scopes[|scopes| - 1 := top], names + {x})
  {
    var n := |scopes| - 1;
    var scopes' := scopes[n := top];
    forall y ensures Find(scopes', y).Some? <==> Find(scopes, y).Some? || y == x {
      FindAny(scopes, y);
      FindAny(scopes', y);
      if i :| 0 <= i < |scopes| && y in scopes[i] {
        assert y in scopes'[i];
      }
      if y == x {
        assert y in scopes'[n];
      }
      if i :| 0 <= i < |scopes'| && y in scopes'[i] {
        assert y != x ==> y in scopes[i];
      }
    }
  }

  lemma {:induction false} ExprCompiles(slots: map<string, nat>, names: set<string>, e: Expr, dst: nat, cs: CState)
    requires Sees(slots, cs.scopes, names)
    ensures GenExpr(slots, e, dst, cs).Some? <==> ExprScoped(names, e)
    decreases e
  {
    match e
    case Lit(_) =>
    case Ident(_) =>
    case Binary(_, l, r) =>
      ExprCompiles(slots, names, l, dst, cs);
      if ExprScoped(names, l) {
        var cs1 := GenExpr(slots, l, dst, cs).value.1;
        ExprCompiles(slots, names, r, cs1.nextReg, Alloc(cs1));
      }
    case Unary(_, o) => ExprCompiles(slots, names, o, dst, cs);
  }

  lemma {:induction false} StmtCompiles(slots: map<string, nat>, names: set<string>, s: Stmt, cs: CState, inLoop: bool)
    requires |cs.scopes| > 0 && Sees(slots, cs.scopes, names)
    ensures GenStmt(slots, s, cs, inLoop).Some? <==> StmtScoped(names, s, inLoop)
    ensures GenStmt(slots, s, cs, inLoop).Some? ==>
              Sees(slots, GenStmt(slots, s, cs, inLoop).value.1.scopes, names + Declares(s))
    decreases s
  {
    hide GenExpr, GenBlock, GenIf, ExprScoped, BlockScoped, IfScoped;
    match s
    case Let(_, _) => LetCompiles(slots, names, s, cs, inLoop);
    case If(ifs) =>
      IfCompiles(slots, names, ifs, cs, inLoop);
      assert names + {} == names;
    case While(cond, body) =>
      ExprCompiles(slots, names, cond, cs.nextReg, Alloc(cs));
      if ExprScoped(names, cond) {
        var cs1 := GenExpr(slots, cond, cs.nextReg, Alloc(cs)).value.1;
        BlockCompiles(slots, names, body, Free(cs1, cs.nextReg), true);
      }
      assert names + {} == names;
    case _ => PlainCompiles(slots, names, s, cs, inLoop);
  }

  lemma LetCompiles(slots: map<string, nat>, names: set<string>, s: Stmt, cs: CState, inLoop: bool)
    requires s.Let? && |cs.scopes| > 0 && Sees(slots, cs.scopes, names)
    ensures GenStmt(slots, s, cs, inLoop).Some? <==> StmtScoped(names, s, inLoop)
    ensures GenStmt(slots, s, cs, inLoop).Some? ==>
              Sees(slots, GenStmt(slots, s, cs, inLoop).value.1.scopes, names + Declares(s))
  {
    hide GenExpr, ExprScoped, Sees;
    var x, e := s.name, s.value;
    ExprCompiles(slots, names, e, cs.nextReg, Alloc(cs));
    if ExprScoped(names, e) {
      var scopes := GenExpr(slots, e, cs.nextReg, Alloc(cs)).value.1.scopes;
      var top: map<string, nat> := scopes[|scopes| - 1][x := cs.nextReg];
      SeesMore(slots, scopes, names, x, top, cs.nextReg);
    }
  }

  lemma PlainCompiles(slots: map<string, nat>, names: set<string>, s: Stmt, cs: CState, inLoop: bool)
    requires !s.Let? && !s.If? && !s.While? && |cs.scopes| > 0 && Sees(slots, cs.scopes, names)
    ensures GenStmt(slots, s, cs, inLoop).Some? <==> StmtScoped(names, s, inLoop)
    ensures GenStmt(slots, s, cs, inLoop).Some? ==>
              Sees(slots, GenStmt(slots, s, cs, inLoop).value.1.scopes, names + Declares(s))
  {
    hide GenExpr, ExprScoped;
    assert names + {} == names;
    match s
    case Assign(_, e) => ExprCompiles(slots, names, e, cs.nextReg, Alloc(cs));
    case ReturnStmt(r) => if r.Some? { ExprCompiles(slots, names, r.value, cs.nextReg, Alloc(cs)); }
    case ExprStmt(e) => ExprCompiles(slots, names, e, cs.nextReg, Alloc(cs));
    case _ =>
  }

  lemma {:induction false} IfCompiles(slots: map<string, nat>, names: set<string>, ifs: IfStmt, cs: CState, inLoop: bool)
    requires |cs.scopes| > 0 && Sees(slots, cs.scopes, names)
    ensures GenIf(slots, ifs, cs, inLoop).Some? <==> IfScoped(names, ifs, inLoop)
    decreases ifs
  {
    hide GenExpr, GenBlock, ExprScoped, BlockScoped, Sees, Branch, Outer;
    var r := cs.nextReg;
    ExprCompiles(slots, names, ifs.cond, r, Alloc(cs));
    if ExprScoped(names, ifs.cond) {
      var cs1 := Free(GenExpr(slots, ifs.cond, r, Alloc(cs)).value.1, r);
      BlockCompiles(slots, names, ifs.thn, cs1, inLoop);
      if BlockScoped(names, ifs.thn, inLoop) {
        var cs2 := GenBlock(slots, ifs.thn, cs1, inLoop).value.1;
        match ifs.els
        case NoElse =>
        case ElseBlock(b) => BlockCompiles(slots, names, b, cs2, inLoop);
        case ElseIf(nested) => IfCompiles(slots, names, nested, cs2, inLoop);
      }
    }
  }

  lemma {:induction false} StmtsCompile(slots: map<string, nat>, names: set<string>, ss: Stmts, cs: CState, inLoop: bool)
    requires |cs.scopes| > 0 && Sees(slots, cs.scopes, names)
    ensures GenStmts(slots, ss, cs, inLoop).Some? <==> StmtsScoped(names, ss, inLoop)
    ensures GenStmts(slots, ss, cs, inLoop).Some? ==>
              Sees(slots, GenStmts(slots, ss, cs, inLoop).value.1.scopes, names + DeclaresAll(ss))
    decreases ss
  {
    hide GenStmt, StmtScoped, Sees, Outer;
    match ss
    case Nil => assert names + {} == names;
    case Cons(s, rest) =>
      StmtCompiles(slots, names, s, cs, inLoop);
      if StmtScoped(names, s, inLoop) {
        var cs1 := GenStmt(slots, s, cs, inLoop).value.1;
        StmtsCompile(slots, names + Declares(s), rest, cs1, inLoop);
        assert names + Declares(s) + DeclaresAll(rest) == names + DeclaresAll(ss);
      }
  }

  lemma {:induction false} BlockCompiles(slots: map<string, nat>, names: set<string>, b: Block, cs: CState, inLoop: bool)
    requires Sees(slots, cs.scopes, names)
    ensures GenBlock(slots, b, cs, inLoop).Some? <==> BlockScoped(names, b, inLoop)
    decreases b
  {
    hide GenStmts, GenExpr, StmtsScoped, ExprScoped, Sees;
    var inner := cs.(scopes := cs.scopes + [map[]]);
    SeesInner(slots, cs.scopes, names);
    StmtsCompile(slots, names, b.stmts, inner, inLoop);
    if StmtsScoped(names, b.stmts, inLoop) && b.tail.Some? {
      var cs1 := GenStmts(slots, b.stmts, inner, inLoop).value.1;
      ExprCompiles(slots, names + DeclaresAll(b.stmts), b.tail.value, cs1.nextReg, Alloc(cs1));
    }
  }

  lemma EntrySees(slots: map<string, nat>, params: seq<string>)
    ensures Sees(slots, Entry(params).scopes, (set x | x in params) + slots.Keys)
  {
    var scopes := Entry(params).scopes;
    BindExactly(params, Indices(|params|));
    assert scopes[0] == Bind(params, Indices(|params|)) && scopes[1] == map[];
    forall x ensures Find(scopes, x).Some? <==> x in params {
      FindAny(scopes, x);
      if x in params {
        assert x in scopes[0];
      }
    }
  }

  /** A function compiles if and only if every name in it is a parameter, a declared state or a
      `let` in scope, and every `break` and `continue` is inside a loop. */
  lemma CompilesExactly(slots: map<string, nat>, params: seq<string>, body: Block)
    ensures Compile(slots, params, body).Some? <==> BlockScoped((set x | x in params) + slots.Keys, body, false)
  {
    hide GenStmts, GenExpr, StmtsScoped, ExprScoped, Sees;
    var names := (set x | x in params) + slots.Keys;
    var cs0 := Entry(params);
    EntrySees(slots, params);
    StmtsCompile(slots, names, body.stmts, cs0, false);
    if StmtsScoped(names, body.stmts, false) && body.tail.Some? {
      var cs1 := GenStmts(slots, body.stmts, cs0, false).value.1;
      ExprCompiles(slots, names + DeclaresAll(body.stmts), body.tail.value, cs1.nextReg, Alloc(cs1));
    }
  }
}
