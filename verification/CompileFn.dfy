/** Whole functions: entry frame, implicit return, and when the machine agrees with a call. */
module CompileFn {
  import opened Options
  import opened Machine
  import opened Interp
  import opened CodeGen
  import opened CompileCorrect

  /** A compiled function with the size of its register file. */
  datatype Compiled = Compiled(f: Function, nRegs: nat)

  /** Holes as they are first emitted: jumps to nowhere, waiting to be patched. */
  function Flat(seg: seq<Slot>): (code: seq<Instr>)
    ensures |code| == |seg|
    ensures forall i :: 0 <= i < |seg| ==> code[i] == (if seg[i].Op? then seg[i].instr else Jump(0))
  {
    seq(|seg|, i requires 0 <= i < |seg| => if seg[i].Op? then seg[i].instr else Jump(0))
  }

  predicate EndsInReturn(code: seq<Instr>) {
    |code| > 0 && (code[|code| - 1].Return? || code[|code| - 1].ReturnUnit?)
  }

  function Indices(n: nat): (s: seq<nat>)
    ensures |s| == n && forall i :: 0 <= i < n ==> s[i] == i
  {
    seq(n, (i: nat) => i)
  }

  /** The frame on entry: parameter `i` in register `i`, then the body's own scope. */
  function Entry(params: seq<string>): CState {
    CState([], |params|, |params|, [Bind(params, Indices(|params|)), map[]])
  }

  /** The body's statements followed by its tail, which becomes the return value. */
  function GenBody(slots: map<string, nat>, params: seq<string>, body: Block): Gen {
    match GenStmts(slots, body.stmts, Entry(params), false)
    case None => None
    case Some((c, cs1)) =>
      match body.tail
      case None => Some((c, cs1))
      case Some(e) =>
        match GenExpr(slots, e, cs1.nextReg, Alloc(cs1))
        case None => None
        case Some((d, cs2)) => Some((c + Ops(d + [Machine.Return(cs1.nextReg)]), cs2))
  }

  function Compile(slots: map<string, nat>, params: seq<string>, body: Block): Option<Compiled> {
    match GenBody(slots, params, body)
    case None => None
    case Some((seg, cs)) =>
      var code := Flat(seg);
      Some(Compiled(Function(if EndsInReturn(code) then code else code + [ReturnUnit], cs.consts, []), cs.maxReg))
  }

  /** The register file of a call: arguments first, `Unit` elsewhere. */
  function Frame(args: seq<Value>, nRegs: nat): seq<Value> {
    args + seq(if nRegs > |args| then nRegs - |args| else 0, _ => Unit)
  }

  // ---------- a body outside any loop has no holes and never breaks out ----------

  ghost predicate NoHoles(seg: seq<Slot>) { forall i :: 0 <= i < |seg| ==> seg[i].Op? }

  lemma {:induction false} StmtNoHoles(slots: map<string, nat>, s: Stmt, cs: CState)
    requires |cs.scopes| > 0 && GenStmt(slots, s, cs, false).Some?
    ensures NoHoles(GenStmt(slots, s, cs, false).value.0)
    decreases s
  {
    if s.If? {
      IfNoHoles(slots, s.ifs, cs);
    }
  }

  lemma {:induction false} IfNoHoles(slots: map<string, nat>, ifs: IfStmt, cs: CState)
    requires |cs.scopes| > 0 && GenIf(slots, ifs, cs, false).Some?
    ensures NoHoles(GenIf(slots, ifs, cs, false).value.0)
    decreases ifs
  {
    var r := cs.nextReg;
    var cs1 := Free(GenExpr(slots, ifs.cond, r, Alloc(cs)).value.1, r);
    BlockNoHoles(slots, ifs.thn, cs1);
    var cs2 := GenBlock(slots, ifs.thn, cs1, false).value.1;
    match ifs.els
    case NoElse =>
    case ElseBlock(b) => BlockNoHoles(slots, b, cs2);
    case ElseIf(nested) => IfNoHoles(slots, nested, cs2);
  }

  lemma {:induction false} StmtsNoHoles(slots: map<string, nat>, ss: Stmts, cs: CState)
    requires |cs.scopes| > 0 && GenStmts(slots, ss, cs, false).Some?
    ensures NoHoles(GenStmts(slots, ss, cs, false).value.0)
    decreases ss
  {
    if ss.Cons? {
      StmtNoHoles(slots, ss.head, cs);
      StmtsNoHoles(slots, ss.tail, GenStmt(slots, ss.head, cs, false).value.1);
    }
  }

  lemma {:induction false} BlockNoHoles(slots: map<string, nat>, b: Block, cs: CState)
    requires GenBlock(slots, b, cs, false).Some?
    ensures NoHoles(GenBlock(slots, b, cs, false).value.0)
    decreases b
  {
    StmtsNoHoles(slots, b.stmts, cs.(scopes := cs.scopes + [map[]]));
  }

  ghost predicate Escapes(out: Outcome) { out.Done? && (out.flow.Breaks? || out.flow.Continues?) }

  lemma {:induction false} StmtStays(env: Env, s: Stmt, cs: CState, fuel: nat, vars: Scopes, st: State)
    requires |cs.scopes| > 0 && |vars| > 0 && GenStmt(env.slots, s, cs, false).Some?
    ensures !Escapes(Exec(env, fuel, s, vars, st))
    decreases fuel, s
  {
    match s
    case If(ifs) => IfStays(env, ifs, cs, fuel, vars, st);
    case While(cond, body) =>
      var v := Eval(env, cond, vars, st);
      if fuel > 0 && v.Ok? && Taken(env, v.value) {
        var out := ExecBlock(env, fuel - 1, body, vars, st);
        if out.Done? {
          StmtStays(env, s, cs, fuel - 1, out.scopes, out.st);
        }
      }
    case _ =>
  }

  lemma {:induction false} IfStays(env: Env, ifs: IfStmt, cs: CState, fuel: nat, vars: Scopes, st: State)
    requires |cs.scopes| > 0 && |vars| > 0 && GenIf(env.slots, ifs, cs, false).Some?
    ensures !Escapes(ExecIf(env, fuel, ifs, vars, st))
    decreases fuel, ifs
  {
    var r := cs.nextReg;
    var cs1 := Free(GenExpr(env.slots, ifs.cond, r, Alloc(cs)).value.1, r);
    BlockStays(env, ifs.thn, cs1, fuel, vars, st);
    var cs2 := GenBlock(env.slots, ifs.thn, cs1, false).value.1;
    match ifs.els
    case NoElse =>
    case ElseBlock(b) => BlockStays(env, b, cs2, fuel, vars, st);
    case ElseIf(nested) => IfStays(env, nested, cs2, fuel, vars, st);
  }

  lemma {:induction false} StmtsStay(env: Env, ss: Stmts, cs: CState, fuel: nat, vars: Scopes, st: State)
    requires |cs.scopes| > 0 && |vars| > 0 && GenStmts(env.slots, ss, cs, false).Some?
    ensures !Escapes(ExecStmts(env, fuel, ss, vars, st))
    decreases fuel, ss
  {
    if ss.Cons? {
      StmtStays(env, ss.head, cs, fuel, vars, st);
      var out := Exec(env, fuel, ss.head, vars, st);
      if out.Done? {
        StmtsStay(env, ss.tail, GenStmt(env.slots, ss.head, cs, false).value.1, fuel, out.scopes, out.st);
      }
    }
  }

  lemma {:induction false} BlockStays(env: Env, b: Block, cs: CState, fuel: nat, vars: Scopes, st: State)
    requires GenBlock(env.slots, b, cs, false).Some?
    ensures !Escapes(ExecBlock(env, fuel, b, vars, st))
    decreases fuel, b
  {
    StmtsStay(env, b.stmts, cs.(scopes := cs.scopes + [map[]]), fuel, vars + [map[]], st);
  }

  // ---------- the call theorem ----------

  lemma {:induction false} BindAgrees(params: seq<string>, regs: seq<nat>, args: seq<Value>, file: seq<Value>, n: nat)
    requires |params| == |args| == |regs| <= n && |file| >= |params|
    requires forall i :: 0 <= i < |regs| ==> regs[i] == i && file[i] == args[i]
    ensures forall x :: x in Bind(params, regs) <==> x in Bind(params, args)
    ensures forall x :: x in Bind(params, regs) ==>
              var i := Bind(params, regs)[x];
              i < |params| && params[i] == x && file[i] == Bind(params, args)[x]
    decreases |params|
  {
    if params != [] {
      var m := |params| - 1;
      BindAgrees(params[..m], regs[..m], args[..m], file, n);
    }
  }

  lemma EntryReady(params: seq<string>, args: seq<Value>, nRegs: nat)
    requires |params| == |args|
    ensures Ready(Entry(params), [Bind(params, args), map[]], Frame(args, nRegs))
  {
    var regs := Indices(|params|);
    BindAgrees(params, regs, args, Frame(args, nRegs), |params|);
    var cs := Entry(params);
    assert cs.scopes[0] == Bind(params, regs) && cs.scopes[1] == map[];
  }

  /** The call runs off the end of its body: no `return`, no tail. */
  ghost predicate FallsOff(env: Env, fuel: nat, params: seq<string>, body: Block, args: seq<Value>, st: State)
    requires |params| == |args|
  {
    var out := ExecStmts(env, fuel, body.stmts, [Bind(params, args), map[]], st);
    body.tail.None? && out.Done? && out.flow.Normal?
  }

  /** What the machine does with a call, for every outcome of the interpreter. It agrees,
      with one exception that can be read off the code: a run that falls off the end of a
      body whose last emitted instruction happens to be a return finds no code there. */
  lemma CallCorrect(env: Env, params: seq<string>, body: Block, args: seq<Value>, st: State, fuel: nat)
    returns (n: nat)
    requires |params| == |args| && Compile(env.slots, params, body).Some?
    ensures var Compiled(f, nRegs) := Compile(env.slots, params, body).value;
      var after := Run(env.k, f, Running(0, Frame(args, nRegs), st), n);
      match CallFn(env, fuel, params, body, args, st)
      case Diverged => n >= fuel && after.Running?
      case Raised(x) => (!env.lenient && x == CondNotBool) || after == Failed(x)
      case Answer(v, st') =>
        if FallsOff(env, fuel, params, body, args, st) && EndsInReturn(Flat(GenBody(env.slots, params, body).value.0))
        then after == Failed(PcOutOfBounds)
        else after == Finished(v, st')
  {
    hide Run, Ready, Agree, Allocated, Fresh, Untouched, Exec, ExecIf, ExecBlock, GenStmt, Eval, GenExpr;
    var Compiled(f, nRegs) := Compile(env.slots, params, body).value;
    var regs := Frame(args, nRegs);
    var vars := [Bind(params, args), map[]];
    var cs0 := Entry(params);
    EntryReady(params, args, nRegs);
    var (c, cs1) := GenStmts(env.slots, body.stmts, cs0, false).value;
    StmtsNoHoles(env.slots, body.stmts, cs0);
    var cx := Ctx(env, f, 0, 0);
    BodyPlaced(cx, params, body);
    var n1, regs1 := StmtsCorrect(cx, body.stmts, cs0, false, 0, vars, regs, st, fuel);
    n := n1;
    var out := ExecStmts(env, fuel, body.stmts, vars, st);
    StmtsStay(env, body.stmts, cs0, fuel, vars, st);
    if out.Done? && out.flow.Normal? {
      if body.tail.None? {
        Tick(env.k, f, Running(0, regs, st), n1);
        n := n1 + 1;
      } else {
        assert Allocated(cs0.scopes, cs0.nextReg) by { ReadyAllocated(cs0, vars, regs); }
        StmtsAllocated(env.slots, body.stmts, cs0, false);
        TailPlaced(cx, params, body);
        ReadyIntro(cs0, cs1, out.scopes, regs, regs1);
        var ret := Machine.Return(cs1.nextReg);
        var n2, regs2 := ExprThen(cx, body.tail.value, cs1, |c|, out.scopes, regs1, out.st, ret, []);
        RunCompose(env.k, f, Running(0, regs, st), n1, n2);
        n := n1 + n2;
      }
    }
  }

  lemma ReadyAllocated(cs: CState, vars: Scopes, regs: seq<Value>)
    requires Ready(cs, vars, regs)
    ensures cs.nextReg <= cs.maxReg && Allocated(cs.scopes, cs.nextReg)
  {
  }

  lemma ReadyIntro(cs0: CState, cs1: CState, vars: Scopes, regs: seq<Value>, regs1: seq<Value>)
    requires Grows(cs0, cs1) && cs0.nextReg <= cs0.maxReg && Allocated(cs1.scopes, cs1.nextReg)
    requires Untouched(cs0, regs, regs1) && Agree(cs1.scopes, vars, regs1)
    ensures Ready(cs1, vars, regs1) && |regs1| == |regs|
  {
  }

  lemma BodyPlaced(cx: Ctx, params: seq<string>, body: Block)
    requires Compile(cx.env.slots, params, body).Some?
    requires cx.f == Compile(cx.env.slots, params, body).value.f
    requires NoHoles(GenStmts(cx.env.slots, body.stmts, Entry(params), false).value.0)
    ensures var (c, cs1) := GenStmts(cx.env.slots, body.stmts, Entry(params), false).value;
      && Placed(cx.f.code, 0, c, cx.brk, cx.cont)
      && Fits(cx.f, cs1, Frame([], Compile(cx.env.slots, params, body).value.nRegs))
      && (body.tail.None? ==>
            var code := Flat(GenBody(cx.env.slots, params, body).value.0);
            |c| == |code| && cx.f.code == if EndsInReturn(code) then code else code + [ReturnUnit])
  {
    hide GenStmts, GenExpr, EndsInReturn;
    var (c, cs1) := GenStmts(cx.env.slots, body.stmts, Entry(params), false).value;
    var seg := GenBody(cx.env.slots, params, body).value.0;
    assert c <= seg;
    forall i | 0 <= i < |c| ensures cx.f.code[0 + i] == FillSlot(c[i], 0 + i, cx.brk, cx.cont) {
      assert seg[i] == c[i];
      assert cx.f.code[i] == Flat(seg)[i];
    }
  }

  lemma TailPlaced(cx: Ctx, params: seq<string>, body: Block)
    requires Compile(cx.env.slots, params, body).Some? && body.tail.Some?
    requires cx.f == Compile(cx.env.slots, params, body).value.f
    ensures var (c, cs1) := GenStmts(cx.env.slots, body.stmts, Entry(params), false).value;
      var (d, cs2) := GenExpr(cx.env.slots, body.tail.value, cs1.nextReg, Alloc(cs1)).value;
      && Placed(cx.f.code, |c|, Ops(d + [Machine.Return(cs1.nextReg)]) + [], cx.brk, cx.cont)
      && Fits(cx.f, cs2, Frame([], Compile(cx.env.slots, params, body).value.nRegs))
  {
    hide GenStmts, GenExpr, EndsInReturn;
    var (c, cs1) := GenStmts(cx.env.slots, body.stmts, Entry(params), false).value;
    var seg := GenBody(cx.env.slots, params, body).value.0;
    var d := GenExpr(cx.env.slots, body.tail.value, cs1.nextReg, Alloc(cs1)).value.0;
    var tail := d + [Machine.Return(cs1.nextReg)];
    assert seg == c + Ops(tail);
    OpsPlaced(cx.f.code, c, tail, cx.brk, cx.cont);
    assert Ops(tail) + [] == Ops(tail);
  }

  lemma OpsPlaced(code: seq<Instr>, c: seq<Slot>, tail: seq<Instr>, brk: int, cont: int)
    requires Flat(c + Ops(tail)) <= code
    ensures Placed(code, |c|, Ops(tail), brk, cont)
  {
    var seg := c + Ops(tail);
    forall i | 0 <= i < |tail| ensures code[|c| + i] == FillSlot(Ops(tail)[i], |c| + i, brk, cont) {
      assert seg[|c| + i] == Ops(tail)[i];
      assert code[|c| + i] == Flat(seg)[|c| + i];
    }
  }

  /** If the machine halts, so does the interpreter, within as many loop levels as ticks. */
  lemma HaltsTogether(env: Env, params: seq<string>, body: Block, args: seq<Value>, st: State, ticks: nat)
    requires |params| == |args| && Compile(env.slots, params, body).Some?
    requires var Compiled(f, nRegs) := Compile(env.slots, params, body).value;
      !Run(env.k, f, Running(0, Frame(args, nRegs), st), ticks).Running?
    ensures !CallFn(env, ticks + 1, params, body, args, st).Diverged?
  {
    hide Compile, CallFn, Run;
    var Compiled(f, nRegs) := Compile(env.slots, params, body).value;
    var n := CallCorrect(env, params, body, args, st, ticks + 1);
    if CallFn(env, ticks + 1, params, body, args, st).Diverged? {
      RunPrefix(env.k, f, Running(0, Frame(args, nRegs), st), ticks, n);
    }
  }
}
