/** The tree-walking interpreter: the reference semantics of the source language. */
module Interp {
  import opened Options
  import opened Machine

  datatype Expr =
    | Lit(v: Value)
    | Ident(name: string)
    | Binary(bop: BinOp, lhs: Expr, rhs: Expr)
    | Unary(uop: UnOp, operand: Expr)

  datatype Stmt =
    | Let(name: string, value: Expr)
    | Assign(name: string, value: Expr)
    | ReturnStmt(result: Option<Expr>)
    | If(ifs: IfStmt)
    | While(cond: Expr, body: Block)
    | Break
    | Continue
    | ExprStmt(value: Expr)

  datatype IfStmt = IfStmt(cond: Expr, thn: Block, els: Else)

  datatype Else = NoElse | ElseBlock(b: Block) | ElseIf(nested: IfStmt)

  datatype Stmts = Nil | Cons(head: Stmt, tail: Stmts)

  datatype Block = Block(stmts: Stmts, tail: Option<Expr>)

  /** Innermost-first search of a scope stack. */
  function Find<T>(scopes: seq<map<string, T>>, name: string): (r: Option<nat>)
    ensures r.Some? ==> r.value < |scopes| && name in scopes[r.value]
                        && forall j :: r.value < j < |scopes| ==> name !in scopes[j]
    ensures r.None? ==> forall j :: 0 <= j < |scopes| ==> name !in scopes[j]
  {
    var n := |scopes|;
    if n == 0 then None
    else if name in scopes[n - 1] then Some(n - 1)
    else Find(scopes[..n - 1], name)
  }

  type Scopes = seq<map<string, Value>>

  datatype Flow = Normal | Returns(v: Value) | Breaks | Continues

  datatype Outcome = Timeout | Error(e: Machine.Error) | Done(flow: Flow, scopes: Scopes, st: State)

  /** The module a function runs in: the kernel, the declared state slots by name, and how a
      condition is tested. The interpreter is not lenient. */
  datatype Env = Env(k: Kernel, slots: map<string, nat>, lenient: bool)

  /** A condition that holds. Leniently, as the machine tests it, that is any value but `false`. */
  predicate Taken(env: Env, v: Value) {
    v == Bool(true) || (env.lenient && v != Bool(false))
  }

  function Eval(env: Env, e: Expr, scopes: Scopes, st: State): Result<Value> {
    match e
    case Lit(v) => Ok(v)
    case Ident(name) =>
      (match Find(scopes, name)
       case Some(i) => Ok(scopes[i][name])
       case None => if name in env.slots then Ok(env.k.get(env.slots[name], st)) else Err(Undefined(name)))
    case Binary(op, l, r) =>
      (match Eval(env, l, scopes, st)
       case Err(x) => Err(x)
       case Ok(lv) => match Eval(env, r, scopes, st)
                      case Err(x) => Err(x)
                      case Ok(rv) => env.k.bin(op, lv, rv))
    case Unary(op, o) =>
      (match Eval(env, o, scopes, st)
       case Err(x) => Err(x)
       case Ok(v) => env.k.un(op, v))
  }

  /** Execute one statement. `fuel` bounds the depth of loop iterations only, so that a
      diverging loop is a `Timeout` at every fuel. */
  function Exec(env: Env, fuel: nat, s: Stmt, scopes: Scopes, st: State): (r: Outcome)
    requires |scopes| > 0
    ensures r.Done? ==> |r.scopes| == |scopes|
    decreases fuel, s
  {
    match s
    case Let(name, value) =>
      (match Eval(env, value, scopes, st)
       case Err(x) => Error(x)
       case Ok(v) => var n := |scopes| - 1; Done(Normal, scopes[n := scopes[n][name := v]], st))
    case Assign(name, value) =>
      (match Eval(env, value, scopes, st)
       case Err(x) => Error(x)
       case Ok(v) =>
         match Find(scopes, name)
         case Some(i) => Done(Normal, scopes[i := scopes[i][name := v]], st)
         case None => if name in env.slots then Done(Normal, scopes, env.k.put(env.slots[name], v, st))
                      else Error(Undefined(name)))
    case ReturnStmt(None) => Done(Returns(Unit), scopes, st)
    case ReturnStmt(Some(e)) =>
      (match Eval(env, e, scopes, st)
       case Err(x) => Error(x)
       case Ok(v) => Done(Returns(v), scopes, st))
    case If(ifs) => ExecIf(env, fuel, ifs, scopes, st)
    case While(cond, body) =>
      if fuel == 0 then Timeout
      else (match Eval(env, cond, scopes, st)
            case Err(x) => Error(x)
            case Ok(v) =>
              if Taken(env, v) then
                (match ExecBlock(env, fuel - 1, body, scopes, st)
                 case Timeout => Timeout
                 case Error(x) => Error(x)
                 case Done(flow, scopes', st') =>
                   match flow
                   case Returns(_) => Done(flow, scopes', st')
                   case Breaks => Done(Normal, scopes', st')
                   case _ => Exec(env, fuel - 1, s, scopes', st'))
              else if v == Bool(false) then Done(Normal, scopes, st)
              else Error(CondNotBool))
    case Break => Done(Breaks, scopes, st)
    case Continue => Done(Continues, scopes, st)
    case ExprStmt(e) =>
      (match Eval(env, e, scopes, st)
       case Err(x) => Error(x)
       case Ok(_) => Done(Normal, scopes, st))
  }

  function ExecIf(env: Env, fuel: nat, ifs: IfStmt, scopes: Scopes, st: State): (r: Outcome)
    requires |scopes| > 0
    ensures r.Done? ==> |r.scopes| == |scopes|
    decreases fuel, ifs
  {
    match Eval(env, ifs.cond, scopes, st)
    case Err(x) => Error(x)
    case Ok(v) =>
      if Taken(env, v) then ExecBlock(env, fuel, ifs.thn, scopes, st)
      else if v == Bool(false) then
        (match ifs.els
         case NoElse => Done(Normal, scopes, st)
         case ElseBlock(b) => ExecBlock(env, fuel, b, scopes, st)
         case ElseIf(nested) => ExecIf(env, fuel, nested, scopes, st))
      else Error(CondNotBool)
  }

  function ExecStmts(env: Env, fuel: nat, ss: Stmts, scopes: Scopes, st: State): (r: Outcome)
    requires |scopes| > 0
    ensures r.Done? ==> |r.scopes| == |scopes|
    decreases fuel, ss
  {
    match ss
    case Nil => Done(Normal, scopes, st)
    case Cons(s, rest) =>
      match Exec(env, fuel, s, scopes, st)
      case Timeout => Timeout
      case Error(x) => Error(x)
      case Done(flow, scopes', st') =>
        if flow.Normal? then ExecStmts(env, fuel, rest, scopes', st') else Done(flow, scopes', st')
  }

  function Pop(scopes: Scopes): Scopes
    requires |scopes| > 0
  {
    scopes[..|scopes| - 1]
  }

  /** A block in statement position: its tail is evaluated and discarded. */
  function ExecBlock(env: Env, fuel: nat, b: Block, scopes: Scopes, st: State): (r: Outcome)
    ensures r.Done? ==> |r.scopes| == |scopes|
    decreases fuel, b
  {
    match ExecStmts(env, fuel, b.stmts, scopes + [map[]], st)
    case Timeout => Timeout
    case Error(x) => Error(x)
    case Done(flow, scopes', st') =>
      if !flow.Normal? || b.tail.None? then Done(flow, Pop(scopes'), st')
      else match Eval(env, b.tail.value, scopes', st')
           case Err(x) => Error(x)
           case Ok(_) => Done(Normal, Pop(scopes'), st')
  }

  datatype Answer = Diverged | Raised(e: Machine.Error) | Answer(v: Value, st: State)

  /** Bind the parameters left to right; a repeated name keeps the last argument. */
  function Bind<T>(params: seq<string>, args: seq<T>): map<string, T>
    requires |params| == |args|
  {
    if params == [] then map[]
    else Bind(params[..|params| - 1], args[..|args| - 1])[params[|params| - 1] := args[|args| - 1]]
  }

  /** A call: the body's tail, if any, is the implicit result. */
  function CallFn(env: Env, fuel: nat, params: seq<string>, body: Block, args: seq<Value>, st: State): Answer
    requires |params| == |args|
  {
    match ExecStmts(env, fuel, body.stmts, [Bind(params, args), map[]], st)
    case Timeout => Diverged
    case Error(x) => Answer.Raised(x)
    case Done(Returns(v), _, st') => Answer(v, st')
    case Done(Normal, scopes', st') =>
      (match body.tail
       case None => Answer(Unit, st')
       case Some(e) => match Eval(env, e, scopes', st')
                       case Err(x) => Answer.Raised(x)
                       case Ok(v) => Answer(v, st'))
    case Done(_, _, _) => Answer.Raised(Panic)
  }
}
