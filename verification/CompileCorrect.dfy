/** Compiled code computes what the interpreter computes. */
module CompileCorrect {
  import opened Options
  import opened Machine
  import opened Interp
  import opened CodeGen

  // ---------- the simulation relation ----------

  ghost predicate Fresh(scopes: Registers, r: nat) {
    forall i, x :: 0 <= i < |scopes| && x in scopes[i] ==> scopes[i][x] != r
  }

  /** Every named local has its own register below the allocation mark. */
  ghost predicate Allocated(scopes: Registers, nextReg: nat) {
    && (forall i, x :: 0 <= i < |scopes| && x in scopes[i] ==> scopes[i][x] < nextReg)
    && (forall i, x, j, y | 0 <= i < |scopes| && 0 <= j < |scopes| && x in scopes[i] && y in scopes[j] ::
          scopes[i][x] == scopes[j][y] ==> i == j && x == y)
  }

  /** The register file holds the interpreter's variables. */
  ghost predicate Agree(scopes: Registers, vars: Scopes, regs: seq<Value>) {
    && |scopes| == |vars|
    && (forall i :: 0 <= i < |scopes| ==> scopes[i].Keys == vars[i].Keys)
    && (forall i, x :: 0 <= i < |scopes| && x in scopes[i] ==>
          scopes[i][x] < |regs| && regs[scopes[i][x]] == vars[i][x])
  }

  ghost predicate Same(regs: seq<Value>, regs': seq<Value>, below: nat, except: nat) {
    |regs| == |regs'| && forall r :: 0 <= r < below && r < |regs| && r != except ==> regs'[r] == regs[r]
  }

  ghost predicate PlacedCode(code: seq<Instr>, pos: nat, seg: seq<Instr>) {
    pos + |seg| <= |code| && forall i :: 0 <= i < |seg| ==> code[pos + i] == seg[i]
  }

  /** `seg` sits at `pos` with its holes filled by jumps to the absolute targets. */
  ghost predicate Placed(code: seq<Instr>, pos: nat, seg: seq<Slot>, brk: int, cont: int) {
    pos + |seg| <= |code| && forall i :: 0 <= i < |seg| ==> code[pos + i] == FillSlot(seg[i], pos + i, brk, cont)
  }

  lemma {:induction false} FindAgree(scopes: Registers, vars: Scopes, name: string)
    requires |scopes| == |vars| && forall i :: 0 <= i < |scopes| ==> scopes[i].Keys == vars[i].Keys
    ensures Find(scopes, name) == Find(vars, name)
    decreases |scopes|
  {
    var n := |scopes|;
    if n > 0 {
      assert name in scopes[n - 1].Keys <==> name in vars[n - 1].Keys;
      if name !in scopes[n - 1] {
        FindAgree(scopes[..n - 1], vars[..n - 1], name);
      }
    }
  }

  lemma AgreeKept(scopes: Registers, vars: Scopes, regs: seq<Value>, regs': seq<Value>, below: nat, dst: nat)
    requires Agree(scopes, vars, regs) && Allocated(scopes, below) && Fresh(scopes, dst)
    requires Same(regs, regs', below, dst)
    ensures Agree(scopes, vars, regs')
  {
  }

  /** Extend a run by one more tick. */
  lemma Tick(k: Kernel, f: Function, c: Config, n: nat)
    ensures Run(k, f, c, n + 1) == Step(k, f, Run(k, f, c, n))
  {
    RunCompose(k, f, c, n, 1);
    var c1 := Run(k, f, c, n);
    assert Run(k, f, Step(k, f, c1), 0) == Step(k, f, c1);
  }

  // ---------- expressions ----------

  ghost predicate ExprPre(
    env: Env, f: Function, e: Expr, dst: nat, cs: CState, pos: nat, vars: Scopes, regs: seq<Value>)
  {
    var g := GenExpr(env.slots, e, dst, cs);
    && g.Some? && PlacedCode(f.code, pos, g.value.0)
    && g.value.1.consts <= f.consts && g.value.1.maxReg <= |regs|
    && dst < cs.nextReg <= cs.maxReg
    && Allocated(cs.scopes, cs.nextReg) && Fresh(cs.scopes, dst) && Agree(cs.scopes, vars, regs)
  }

  /** `after` is where evaluating `e` into `dst` leads: past the segment with the value in
      `dst` and every other allocated register unchanged, or to the interpreter's error. */
  ghost predicate ExprPost(
    env: Env, e: Expr, dst: nat, cs: CState, pos: nat, vars: Scopes, regs: seq<Value>, st: State,
    after: Config, regs': seq<Value>)
    requires GenExpr(env.slots, e, dst, cs).Some?
  {
    match Eval(env, e, vars, st)
    case Err(x) => after == Failed(x)
    case Ok(v) =>
      && after == Running(pos + |GenExpr(env.slots, e, dst, cs).value.0|, regs', st)
      && Same(regs, regs', cs.nextReg, dst) && dst < |regs'| && regs'[dst] == v
  }

  lemma LeafCorrect(
    env: Env, f: Function, e: Expr, dst: nat, cs: CState, pos: nat, vars: Scopes, regs: seq<Value>, st: State)
    returns (n: nat, regs': seq<Value>)
    requires e.Lit? || e.Ident?
    requires ExprPre(env, f, e, dst, cs, pos, vars, regs)
    ensures ExprPost(env, e, dst, cs, pos, vars, regs, st, Run(env.k, f, Running(pos, regs, st), n), regs')
  {
    hide Run, Step, GenExpr, Eval, Agree, Allocated, Fresh, PlacedCode, Outer;
    if e.Lit? {
      LitStep(env, f, e, dst, cs, pos, vars, regs, st);
    } else {
      IdentStep(env, f, e, dst, cs, pos, vars, regs, st);
    }
    Tick(env.k, f, Running(pos, regs, st), 0);
    RunNone(env.k, f, Running(pos, regs, st));
    n, regs' := 1, regs[dst := Eval(env, e, vars, st).value];
  }

  lemma RunNone(k: Kernel, f: Function, c: Config)
    ensures Run(k, f, c, 0) == c
  {
  }

  /** One instruction puts the value of a leaf in place. */
  ghost predicate LeafStep(env: Env, f: Function, e: Expr, dst: nat, cs: CState, pos: nat, vars: Scopes, regs: seq<Value>,
                           st: State)
    requires GenExpr(env.slots, e, dst, cs).Some?
  {
    && |GenExpr(env.slots, e, dst, cs).value.0| == 1 && dst < |regs| && Eval(env, e, vars, st).Ok?
    && Step(env.k, f, Running(pos, regs, st)) == Running(pos + 1, regs[dst := Eval(env, e, vars, st).value], st)
  }

  lemma LitStep(env: Env, f: Function, e: Expr, dst: nat, cs: CState, pos: nat, vars: Scopes, regs: seq<Value>, st: State)
    requires e.Lit? && ExprPre(env, f, e, dst, cs, pos, vars, regs)
    ensures LeafStep(env, f, e, dst, cs, pos, vars, regs, st)
  {
    hide Agree, Allocated, Fresh, Outer;
    var seg := GenExpr(env.slots, e, dst, cs).value.0;
    assert |seg| == 1 && f.code[pos + 0] == seg[0];
  }

  lemma IdentStep(env: Env, f: Function, e: Expr, dst: nat, cs: CState, pos: nat, vars: Scopes, regs: seq<Value>, st: State)
    requires e.Ident? && ExprPre(env, f, e, dst, cs, pos, vars, regs)
    ensures LeafStep(env, f, e, dst, cs, pos, vars, regs, st)
  {
    hide Outer, Agree, Fresh, Allocated;
    AgreeShape(cs.scopes, vars, regs);
    FindAgree(cs.scopes, vars, e.name);
    var found := Find(cs.scopes, e.name);
    if found.Some? {
      LocalValue(cs, vars, regs, dst, found.value, e.name);
    }
    var seg := GenExpr(env.slots, e, dst, cs).value.0;
    assert |seg| == 1 && f.code[pos + 0] == seg[0];
  }

  lemma LocalValue(cs: CState, vars: Scopes, regs: seq<Value>, dst: nat, i: nat, name: string)
    requires Agree(cs.scopes, vars, regs) && Fresh(cs.scopes, dst) && i < |cs.scopes| && name in cs.scopes[i]
    ensures var r := cs.scopes[i][name];
      i < |vars| && name in vars[i] && r != dst && r < |regs| && regs[r] == vars[i][name]
  {
  }

  lemma UnaryCorrect(
    env: Env, f: Function, e: Expr, dst: nat, cs: CState, pos: nat, vars: Scopes, regs: seq<Value>, st: State,
    n1: nat, regs1: seq<Value>)
    returns (n: nat, regs': seq<Value>)
    requires e.Unary?
    requires ExprPre(env, f, e, dst, cs, pos, vars, regs)
    requires ExprPost(env, e.operand, dst, cs, pos, vars, regs, st, Run(env.k, f, Running(pos, regs, st), n1), regs1)
    ensures ExprPost(env, e, dst, cs, pos, vars, regs, st, Run(env.k, f, Running(pos, regs, st), n), regs')
  {
    hide Run, Agree, Allocated, Fresh, Outer;
    var seg := GenExpr(env.slots, e, dst, cs).value.0;
    var oc := GenExpr(env.slots, e.operand, dst, cs).value.0;
    n, regs' := n1, regs1;
    var v := Eval(env, e.operand, vars, st);
    if v.Ok? {
      assert f.code[pos + |oc|] == seg[|oc|] == Un(e.uop, dst, dst);
      Tick(env.k, f, Running(pos, regs, st), n1);
      n := n1 + 1;
      var w := env.k.un(e.uop, v.value);
      if w.Ok? {
        regs' := regs1[dst := w.value];
      }
    }
  }

  /** The last step of a binary operator, both operands evaluated. */
  lemma BinaryCorrect(
    env: Env, f: Function, e: Expr, dst: nat, cs: CState, pos: nat, vars: Scopes, regs: seq<Value>, st: State,
    rhs: nat, n2: nat, regs2: seq<Value>)
    returns (n: nat, regs': seq<Value>)
    requires e.Binary?
    requires ExprPre(env, f, e, dst, cs, pos, vars, regs)
    requires rhs == cs.nextReg && rhs < |regs| == |regs2|
    requires Eval(env, e.lhs, vars, st).Ok? && Eval(env, e.rhs, vars, st).Ok?
    requires Run(env.k, f, Running(pos, regs, st), n2)
             == Running(pos + |GenExpr(env.slots, e, dst, cs).value.0| - 1, regs2, st)
    requires Same(regs, regs2, cs.nextReg, dst)
    requires regs2[dst] == Eval(env, e.lhs, vars, st).value && regs2[rhs] == Eval(env, e.rhs, vars, st).value
    ensures ExprPost(env, e, dst, cs, pos, vars, regs, st, Run(env.k, f, Running(pos, regs, st), n), regs')
  {
    hide Run, Agree, Allocated, Fresh, Outer;
    var seg := GenExpr(env.slots, e, dst, cs).value.0;
    assert f.code[pos + (|seg| - 1)] == seg[|seg| - 1] == Bin(e.bop, dst, dst, rhs);
    Tick(env.k, f, Running(pos, regs, st), n2);
    n, regs' := n2 + 1, regs2;
    var w := env.k.bin(e.bop, regs2[dst], regs2[rhs]);
    if w.Ok? {
      regs' := regs2[dst := w.value];
    }
  }

  lemma {:induction false} ExprCorrect(
    env: Env, f: Function, e: Expr, dst: nat, cs: CState, pos: nat, vars: Scopes, regs: seq<Value>, st: State)
    returns (n: nat, regs': seq<Value>)
    requires ExprPre(env, f, e, dst, cs, pos, vars, regs)
    ensures ExprPost(env, e, dst, cs, pos, vars, regs, st, Run(env.k, f, Running(pos, regs, st), n), regs')
    decreases e, 1
  {
    hide Allocated, Agree, Fresh, Same, Step, Run, Outer;
    match e
    case Lit(v) => n, regs' := LeafCorrect(env, f, e, dst, cs, pos, vars, regs, st);
    case Ident(name) => n, regs' := LeafCorrect(env, f, e, dst, cs, pos, vars, regs, st);
    case Unary(op, o) =>
      SplitPlacement(f.code, pos, GenExpr(env.slots, o, dst, cs).value.0, [Un(op, dst, dst)]);
      var n1, regs1 := ExprCorrect(env, f, o, dst, cs, pos, vars, regs, st);
      n, regs' := UnaryCorrect(env, f, e, dst, cs, pos, vars, regs, st, n1, regs1);
    case Binary(op, l, r) => n, regs' := OperandsCorrect(env, f, e, dst, cs, pos, vars, regs, st);
  }

  lemma {:induction false} OperandsCorrect(
    env: Env, f: Function, e: Expr, dst: nat, cs: CState, pos: nat, vars: Scopes, regs: seq<Value>, st: State)
    returns (n: nat, regs': seq<Value>)
    requires e.Binary? && ExprPre(env, f, e, dst, cs, pos, vars, regs)
    ensures ExprPost(env, e, dst, cs, pos, vars, regs, st, Run(env.k, f, Running(pos, regs, st), n), regs')
    decreases e, 0
  {
    hide Allocated, Agree, Fresh, Same, Step, Run, GenExpr, Eval, PlacedCode, Outer;
    var l, r := e.lhs, e.rhs;
    BinaryGen(env.slots, e, dst, cs);
    BinaryPre(env, f, e, dst, cs, pos, vars, regs);
    EvalOperands(env, e, vars, st);
    var (lc, cs1) := GenExpr(env.slots, l, dst, cs).value;
    var n1, regs1 := ExprCorrect(env, f, l, dst, cs, pos, vars, regs, st);
    n, regs' := n1, regs1;
    if Eval(env, l, vars, st).Ok? {
      RhsPre(env, f, e, dst, cs, pos, vars, regs, regs1);
      var n2, regs2 := ExprCorrect(env, f, r, cs.nextReg, Alloc(cs1), pos + |lc|, vars, regs1, st);
      RunCompose(env.k, f, Running(pos, regs, st), n1, n2);
      n, regs' := n1 + n2, regs2;
      if Eval(env, r, vars, st).Ok? {
        SameTwice(regs, regs1, regs2, cs.nextReg, dst);
        n, regs' := BinaryCorrect(env, f, e, dst, cs, pos, vars, regs, st, cs.nextReg, n1 + n2, regs2);
      }
    }
  }

  /** Operands are evaluated left to right and the first error wins. */
  lemma EvalOperands(env: Env, e: Expr, vars: Scopes, st: State)
    requires e.Binary?
    ensures Eval(env, e.lhs, vars, st).Err? ==> Eval(env, e, vars, st) == Eval(env, e.lhs, vars, st)
    ensures Eval(env, e.lhs, vars, st).Ok? && Eval(env, e.rhs, vars, st).Err? ==>
              Eval(env, e, vars, st) == Eval(env, e.rhs, vars, st)
  {
  }

  lemma BinaryGen(slots: map<string, nat>, e: Expr, dst: nat, cs: CState)
    requires e.Binary? && GenExpr(slots, e, dst, cs).Some?
    ensures GenExpr(slots, e.lhs, dst, cs).Some?
    ensures var (lc, cs1) := GenExpr(slots, e.lhs, dst, cs).value;
      GenExpr(slots, e.rhs, cs.nextReg, Alloc(cs1)).Some?
    ensures var (lc, cs1) := GenExpr(slots, e.lhs, dst, cs).value;
      var (rc, cs2) := GenExpr(slots, e.rhs, cs.nextReg, Alloc(cs1)).value;
      && GenExpr(slots, e, dst, cs).value == (lc + rc + [Bin(e.bop, dst, dst, cs.nextReg)], Free(cs2, cs.nextReg))
      && cs1.consts <= cs2.consts && cs1.maxReg <= cs2.maxReg
      && Free(cs2, cs.nextReg).consts == cs2.consts && Free(cs2, cs.nextReg).maxReg == cs2.maxReg
  {
    hide Outer;
  }

  lemma BinaryPre(
    env: Env, f: Function, e: Expr, dst: nat, cs: CState, pos: nat, vars: Scopes, regs: seq<Value>)
    requires e.Binary? && ExprPre(env, f, e, dst, cs, pos, vars, regs)
    ensures ExprPre(env, f, e.lhs, dst, cs, pos, vars, regs)
    ensures RhsPlaced(env, f, e, dst, cs, pos)
  {
    BinaryGen(env.slots, e, dst, cs);
    hide GenExpr, PlacedCode, Agree, Allocated, Fresh, Outer, Grows, Alloc, Free;
    var (lc, cs1) := GenExpr(env.slots, e.lhs, dst, cs).value;
    var (rc, cs2) := GenExpr(env.slots, e.rhs, cs.nextReg, Alloc(cs1)).value;
    SplitThree(f.code, pos, lc, rc, [Bin(e.bop, dst, dst, cs.nextReg)]);
    ConstsGrow(cs1.consts, cs2.consts, f.consts);
  }

  ghost predicate RhsPlaced(env: Env, f: Function, e: Expr, dst: nat, cs: CState, pos: nat)
    requires e.Binary?
  {
    var l := GenExpr(env.slots, e.lhs, dst, cs);
    l.Some? &&
    var r := GenExpr(env.slots, e.rhs, cs.nextReg, Alloc(l.value.1));
    r.Some? && PlacedCode(f.code, pos + |l.value.0|, r.value.0)
  }

  lemma ConstsGrow(a: seq<Value>, b: seq<Value>, c: seq<Value>)
    requires a <= b && b <= c
    ensures a <= c
  {
  }

  lemma SplitThree(code: seq<Instr>, pos: nat, a: seq<Instr>, b: seq<Instr>, c: seq<Instr>)
    requires PlacedCode(code, pos, a + b + c)
    ensures PlacedCode(code, pos, a) && PlacedCode(code, pos + |a|, b)
  {
    hide PlacedCode;
    assert a + b + c == a + (b + c);
    SplitPlacement(code, pos, a, b + c);
    SplitPlacement(code, pos + |a|, b, c);
  }

  lemma RhsPre(
    env: Env, f: Function, e: Expr, dst: nat, cs: CState, pos: nat, vars: Scopes, regs: seq<Value>, regs1: seq<Value>)
    requires e.Binary? && ExprPre(env, f, e, dst, cs, pos, vars, regs)
    requires Same(regs, regs1, cs.nextReg, dst)
    ensures var (lc, cs1) := GenExpr(env.slots, e.lhs, dst, cs).value;
      ExprPre(env, f, e.rhs, cs.nextReg, Alloc(cs1), pos + |lc|, vars, regs1)
  {
    BinaryGen(env.slots, e, dst, cs);
    BinaryPre(env, f, e, dst, cs, pos, vars, regs);
    AgreeKept(cs.scopes, vars, regs, regs1, cs.nextReg, dst);
  }

  lemma SameTwice(regs: seq<Value>, regs1: seq<Value>, regs2: seq<Value>, below: nat, dst: nat)
    requires Same(regs, regs1, below, dst) && Same(regs1, regs2, below + 1, below) && dst < below <= |regs|
    ensures Same(regs, regs2, below, dst) && regs2[dst] == regs1[dst] && |regs2| == |regs|
  {
  }

  lemma SplitPlacement(code: seq<Instr>, pos: nat, a: seq<Instr>, b: seq<Instr>)
    requires PlacedCode(code, pos, a + b)
    ensures PlacedCode(code, pos, a) && PlacedCode(code, pos + |a|, b)
  {
    var seg := a + b;
    forall i | 0 <= i < |a| ensures code[pos + i] == a[i] {
      assert code[pos + i] == seg[i];
    }
    forall i | 0 <= i < |b| ensures code[pos + |a| + i] == b[i] {
      assert code[pos + (|a| + i)] == seg[|a| + i];
    }
  }

  // ---------- statements ----------

  /** A function being run, with the jump targets of the innermost enclosing loop. */
  datatype Ctx = Ctx(env: Env, f: Function, brk: int, cont: int)

  /** Allocated registers that hold no named local keep their contents. */
  ghost predicate Untouched(cs: CState, regs: seq<Value>, regs': seq<Value>) {
    && |regs| == |regs'|
    && forall r: nat :: r < cs.nextReg && r < |regs| && Fresh(cs.scopes, r) ==> regs'[r] == regs[r]
  }

  ghost predicate Ready(cs: CState, vars: Scopes, regs: seq<Value>) {
    cs.nextReg <= cs.maxReg && Allocated(cs.scopes, cs.nextReg) && Agree(cs.scopes, vars, regs)
  }

  ghost predicate Fits(f: Function, cs: CState, regs: seq<Value>) {
    cs.consts <= f.consts && cs.maxReg <= |regs|
  }

  ghost predicate Pre(cx: Ctx, g: Gen, cs: CState, pos: nat, vars: Scopes, regs: seq<Value>) {
    && g.Some? && Placed(cx.f.code, pos, g.value.0, cx.brk, cx.cont)
    && Fits(cx.f, g.value.1, regs) && Ready(cs, vars, regs)
  }

  /** At a jump out of a block the block's own scope is about to be popped. */
  ghost predicate JumpAgree(popped: bool, scopes: Registers, vars: Scopes, regs: seq<Value>) {
    if popped then Agree(scopes, vars, regs)
    else |scopes| > 0 && |vars| > 0 && Agree(Outer(scopes), Outer(vars), regs)
  }

  /** `after`, reached in `n` ticks, is the machine's image of the interpreter's outcome. */
  ghost predicate Post(
    cx: Ctx, seg: seq<Slot>, cs: CState, scopes': Registers, pos: nat, regs: seq<Value>, fuel: nat, out: Outcome,
    popped: bool, n: nat, after: Config, regs': seq<Value>)
  {
    match out
    case Timeout => n >= fuel && after.Running?
    case Error(x) => (!cx.env.lenient && x == CondNotBool) || after == Failed(x)
    case Done(flow, vars', st') =>
      && Untouched(cs, regs, regs')
      && match flow
         case Normal => after == Running(pos + |seg|, regs', st') && Agree(scopes', vars', regs')
         case Returns(v) => after == Finished(v, st')
         case Breaks => after == Running(cx.brk, regs', st') && JumpAgree(popped, cs.scopes, vars', regs')
         case Continues => after == Running(cx.cont, regs', st') && JumpAgree(popped, cs.scopes, vars', regs')
  }

  /** Evaluate an expression into a newly allocated register. */
  lemma FreshExpr(env: Env, f: Function, e: Expr, cs: CState, pos: nat, vars: Scopes, regs: seq<Value>, st: State)
    returns (n: nat, regs': seq<Value>)
    requires GenExpr(env.slots, e, cs.nextReg, Alloc(cs)).Some?
    requires PlacedCode(f.code, pos, GenExpr(env.slots, e, cs.nextReg, Alloc(cs)).value.0)
    requires Fits(f, GenExpr(env.slots, e, cs.nextReg, Alloc(cs)).value.1, regs)
    requires Ready(cs, vars, regs)
    ensures ExprPost(env, e, cs.nextReg, Alloc(cs), pos, vars, regs, st,
                     Run(env.k, f, Running(pos, regs, st), n), regs')
    ensures Eval(env, e, vars, st).Ok? ==> Agree(cs.scopes, vars, regs') && Untouched(cs, regs, regs')
  {
    hide Run, Step;
    var r := cs.nextReg;
    n, regs' := ExprCorrect(env, f, e, r, Alloc(cs), pos, vars, regs, st);
    if Eval(env, e, vars, st).Ok? {
      AgreeKept(cs.scopes, vars, regs, regs', r + 1, r);
    }
  }

  lemma PlacedOps(code: seq<Instr>, pos: nat, c: seq<Instr>, rest: seq<Slot>, brk: int, cont: int)
    requires Placed(code, pos, Ops(c) + rest, brk, cont)
    ensures PlacedCode(code, pos, c) && Placed(code, pos + |c|, rest, brk, cont)
  {
    PlacedSplit(code, pos, Ops(c), rest, brk, cont);
  }

  lemma PlacedSplit(code: seq<Instr>, pos: nat, a: seq<Slot>, b: seq<Slot>, brk: int, cont: int)
    requires Placed(code, pos, a + b, brk, cont)
    ensures Placed(code, pos, a, brk, cont) && Placed(code, pos + |a|, b, brk, cont)
  {
    var seg := a + b;
    forall i | 0 <= i < |a| ensures code[pos + i] == FillSlot(a[i], pos + i, brk, cont) {
      assert code[pos + i] == FillSlot(seg[i], pos + i, brk, cont);
    }
    forall i | 0 <= i < |b| ensures code[pos + |a| + i] == FillSlot(b[i], pos + |a| + i, brk, cont) {
      assert code[pos + (|a| + i)] == FillSlot(seg[|a| + i], pos + (|a| + i), brk, cont);
    }
  }

  lemma OpsConcat(a: seq<Instr>, b: seq<Instr>)
    ensures Ops(a + b) == Ops(a) + Ops(b)
  {
  }

  lemma LetCorrect(cx: Ctx, s: Stmt, cs: CState, inLoop: bool, pos: nat, vars: Scopes, regs: seq<Value>, st: State,
                   fuel: nat)
    returns (n: nat, regs': seq<Value>)
    requires s.Let? && |cs.scopes| == |vars| > 0
    requires Pre(cx, GenStmt(cx.env.slots, s, cs, inLoop), cs, pos, vars, regs)
    ensures var g := GenStmt(cx.env.slots, s, cs, inLoop).value;
      Post(cx, g.0, cs, g.1.scopes, pos, regs, fuel, Exec(cx.env, fuel, s, vars, st), false,
           n, Run(cx.env.k, cx.f, Running(pos, regs, st), n), regs')
  {
    hide Run, Step, Fresh;
    var (c, cs1) := GenExpr(cx.env.slots, s.value, cs.nextReg, Alloc(cs)).value;
    assert Ops(c) + [] == Ops(c);
    PlacedOps(cx.f.code, pos, c, [], cx.brk, cx.cont);
    n, regs' := FreshExpr(cx.env, cx.f, s.value, cs, pos, vars, regs, st);
  }

  /** Evaluate into a new register, then take the next instruction of the segment. */
  lemma ExprThen(cx: Ctx, e: Expr, cs: CState, pos: nat, vars: Scopes, regs: seq<Value>, st: State,
                 last: Instr, rest: seq<Slot>)
    returns (n: nat, regs': seq<Value>)
    requires GenExpr(cx.env.slots, e, cs.nextReg, Alloc(cs)).Some?
    requires var (c, cs1) := GenExpr(cx.env.slots, e, cs.nextReg, Alloc(cs)).value;
      Placed(cx.f.code, pos, Ops(c + [last]) + rest, cx.brk, cx.cont) && Fits(cx.f, cs1, regs)
    requires Ready(cs, vars, regs)
    ensures n > 0
    ensures var c := GenExpr(cx.env.slots, e, cs.nextReg, Alloc(cs)).value.0;
      && Placed(cx.f.code, pos + |c| + 1, rest, cx.brk, cx.cont)
      && var after := Run(cx.env.k, cx.f, Running(pos, regs, st), n);
         match Eval(cx.env, e, vars, st)
         case Err(x) => after == Failed(x)
         case Ok(v) =>
           && pos + |c| < |cx.f.code| && cx.f.code[pos + |c|] == last
           && after == Step(cx.env.k, cx.f, Running(pos + |c|, regs', st))
           && cs.nextReg < |regs'| && regs'[cs.nextReg] == v
           && Ready(cs, vars, regs') && Untouched(cs, regs, regs')
  {
    hide Run, Step, Agree, Fresh, Allocated;
    var c := GenExpr(cx.env.slots, e, cs.nextReg, Alloc(cs)).value.0;
    PlacedOps(cx.f.code, pos, c + [last], rest, cx.brk, cx.cont);
    SplitPlacement(cx.f.code, pos, c, [last]);
    n, regs' := FreshExpr(cx.env, cx.f, e, cs, pos, vars, regs, st);
    assert cx.f.code[pos + |c| + 0] == [last][0];
    Tick(cx.env.k, cx.f, Running(pos, regs, st), n);
    StepStops(cx.env.k, cx.f);
    n := n + 1;
  }

  lemma StepStops(k: Kernel, f: Function)
    ensures forall x :: Step(k, f, Failed(x)) == Failed(x)
  {
  }

  lemma AssignCorrect(cx: Ctx, s: Stmt, cs: CState, inLoop: bool, pos: nat, vars: Scopes, regs: seq<Value>, st: State,
                      fuel: nat)
    returns (n: nat, regs': seq<Value>)
    requires s.Assign? && |cs.scopes| == |vars| > 0
    requires Pre(cx, GenStmt(cx.env.slots, s, cs, inLoop), cs, pos, vars, regs)
    ensures var g := GenStmt(cx.env.slots, s, cs, inLoop).value;
      Post(cx, g.0, cs, g.1.scopes, pos, regs, fuel, Exec(cx.env, fuel, s, vars, st), false,
           n, Run(cx.env.k, cx.f, Running(pos, regs, st), n), regs')
  {
    hide Run, Agree, Fresh, Allocated, Untouched, GenExpr, Eval, Outer, Placed;
    var r := cs.nextReg;
    var (c, cs1) := GenExpr(cx.env.slots, s.value, r, Alloc(cs)).value;
    var found := Find(cs.scopes, s.name);
    LocalBelow(cs, vars, regs);
    var last := if found.Some? then Machine.Move(cs.scopes[found.value][s.name], r) else KvPut(r, cx.env.slots[s.name]);
    assert Ops(c + [last]) + [] == Ops(c + [last]);
    n, regs' := ExprThen(cx, s.value, cs, pos, vars, regs, st, last, []);
    AgreeShape(cs.scopes, vars, regs);
    FindAgree(cs.scopes, vars, s.name);
    var v := Eval(cx.env, s.value, vars, st);
    if v.Ok? && found.Some? {
      var i := found.value;
      LocalBelow(cs, vars, regs');
      AssignAgree(cs, vars, i, s.name, regs', v.value);
      AssignUntouched(cs, regs, regs', i, s.name, v.value);
      regs' := regs'[cs.scopes[i][s.name] := v.value];
    }
  }

  lemma LocalBelow(cs: CState, vars: Scopes, regs: seq<Value>)
    requires Ready(cs, vars, regs)
    ensures forall i, x :: 0 <= i < |cs.scopes| && x in cs.scopes[i] ==>
              cs.scopes[i][x] < cs.nextReg && cs.scopes[i][x] < |regs|
  {
  }

  lemma AgreeShape(scopes: Registers, vars: Scopes, regs: seq<Value>)
    requires Agree(scopes, vars, regs)
    ensures |scopes| == |vars| && forall i :: 0 <= i < |scopes| ==> scopes[i].Keys == vars[i].Keys
  {
  }

  lemma AssignUntouched(cs: CState, regs: seq<Value>, regs': seq<Value>, i: nat, name: string, v: Value)
    requires Untouched(cs, regs, regs') && i < |cs.scopes| && name in cs.scopes[i] && cs.scopes[i][name] < |regs'|
    ensures Untouched(cs, regs, regs'[cs.scopes[i][name] := v])
  {
  }

  lemma AssignAgree(cs: CState, vars: Scopes, i: nat, name: string, regs: seq<Value>, v: Value)
    requires Ready(cs, vars, regs) && i < |cs.scopes| && name in cs.scopes[i]
    ensures Agree(cs.scopes, vars[i := vars[i][name := v]], regs[cs.scopes[i][name] := v])
  {
  }

  lemma SimpleCorrect(cx: Ctx, s: Stmt, cs: CState, inLoop: bool, pos: nat, vars: Scopes, regs: seq<Value>, st: State,
                      fuel: nat)
    returns (n: nat, regs': seq<Value>)
    requires s.ReturnStmt? || s.ExprStmt? || s.Break? || s.Continue?
    requires |cs.scopes| == |vars| > 0
    requires Pre(cx, GenStmt(cx.env.slots, s, cs, inLoop), cs, pos, vars, regs)
    ensures var g := GenStmt(cx.env.slots, s, cs, inLoop).value;
      Post(cx, g.0, cs, g.1.scopes, pos, regs, fuel, Exec(cx.env, fuel, s, vars, st), false,
           n, Run(cx.env.k, cx.f, Running(pos, regs, st), n), regs')
  {
    hide Run, Agree, Fresh, Allocated, GenExpr, Eval, Outer;
    var r := cs.nextReg;
    if s.ExprStmt? {
      var c := GenExpr(cx.env.slots, s.value, r, Alloc(cs)).value.0;
      assert Ops(c) + [] == Ops(c);
      PlacedOps(cx.f.code, pos, c, [], cx.brk, cx.cont);
      n, regs' := FreshExpr(cx.env, cx.f, s.value, cs, pos, vars, regs, st);
    } else if s.ReturnStmt? && s.result.Some? {
      var c := GenExpr(cx.env.slots, s.result.value, r, Alloc(cs)).value.0;
      assert Ops(c + [Machine.Return(r)]) + [] == Ops(c + [Machine.Return(r)]);
      n, regs' := ExprThen(cx, s.result.value, cs, pos, vars, regs, st, Machine.Return(r), []);
    } else {
      n, regs' := JumpCorrect(cx, s, cs, inLoop, pos, vars, regs, st, fuel);
    }
  }

  /** Statements of a single instruction: a bare return, or a jump out of the loop body. */
  lemma JumpCorrect(cx: Ctx, s: Stmt, cs: CState, inLoop: bool, pos: nat, vars: Scopes, regs: seq<Value>, st: State,
                    fuel: nat)
    returns (n: nat, regs': seq<Value>)
    requires (s.ReturnStmt? && s.result.None?) || s.Break? || s.Continue?
    requires |cs.scopes| == |vars| > 0
    requires Pre(cx, GenStmt(cx.env.slots, s, cs, inLoop), cs, pos, vars, regs)
    ensures var g := GenStmt(cx.env.slots, s, cs, inLoop).value;
      Post(cx, g.0, cs, g.1.scopes, pos, regs, fuel, Exec(cx.env, fuel, s, vars, st), false,
           n, Run(cx.env.k, cx.f, Running(pos, regs, st), n), regs')
  {
    hide Run, Agree, Fresh, Allocated, Outer;
    var seg := GenStmt(cx.env.slots, s, cs, inLoop).value.0;
    assert cx.f.code[pos + 0] == FillSlot(seg[0], pos + 0, cx.brk, cx.cont);
    RunNone(cx.env.k, cx.f, Running(pos, regs, st));
    Tick(cx.env.k, cx.f, Running(pos, regs, st), 0);
    n, regs' := 1, regs;
    OuterAgree(cs.scopes, vars, regs);
  }

  lemma OuterAgree(scopes: Registers, vars: Scopes, regs: seq<Value>)
    requires Agree(scopes, vars, regs) && |scopes| > 0
    ensures Agree(Outer(scopes), Outer(vars), regs)
  {
  }

  /** Only `let` changes the scopes, and it binds a register nobody else has. */
  lemma StmtAllocated(slots: map<string, nat>, s: Stmt, cs: CState, inLoop: bool)
    requires |cs.scopes| > 0 && GenStmt(slots, s, cs, inLoop).Some?
    requires Allocated(cs.scopes, cs.nextReg)
    ensures var cs' := GenStmt(slots, s, cs, inLoop).value.1;
      && Allocated(cs'.scopes, cs'.nextReg)
      && forall r: nat :: r < cs.nextReg && Fresh(cs.scopes, r) ==> Fresh(cs'.scopes, r)
  {
    hide GenStmt, Fresh, Allocated;
    if s.Let? {
      LetAllocated(slots, s, cs, inLoop);
    } else {
      ScopesKept(slots, s, cs, inLoop);
    }
  }

  lemma ScopesKept(slots: map<string, nat>, s: Stmt, cs: CState, inLoop: bool)
    requires |cs.scopes| > 0 && GenStmt(slots, s, cs, inLoop).Some? && !s.Let?
    ensures GenStmt(slots, s, cs, inLoop).value.1.scopes == cs.scopes
    ensures GenStmt(slots, s, cs, inLoop).value.1.nextReg == cs.nextReg
  {
    hide GenExpr, GenIf, GenBlock, Ops, Loop;
  }

  lemma LetAllocated(slots: map<string, nat>, s: Stmt, cs: CState, inLoop: bool)
    requires |cs.scopes| > 0 && GenStmt(slots, s, cs, inLoop).Some? && s.Let?
    requires Allocated(cs.scopes, cs.nextReg)
    ensures var cs' := GenStmt(slots, s, cs, inLoop).value.1;
      && Allocated(cs'.scopes, cs'.nextReg)
      && forall r: nat :: r < cs.nextReg && Fresh(cs.scopes, r) ==> Fresh(cs'.scopes, r)
  {
    hide GenExpr, Ops;
  }

  /** What the first part of a segment establishes lets the rest take over. */
  lemma SeqPost(cx: Ctx, c: seq<Slot>, d: seq<Slot>, cs: CState, cs1: CState, scopes2: Registers, pos: nat,
                regs: seq<Value>, regs1: seq<Value>, regs2: seq<Value>, fuel: nat, out: Outcome,
                popped: bool, n1: nat, n2: nat, c0: Config, c1: Config)
    requires Untouched(cs, regs, regs1)
    requires cs.nextReg <= cs1.nextReg && Grows(cs, cs1)
    requires forall r: nat :: r < cs.nextReg && Fresh(cs.scopes, r) ==> Fresh(cs1.scopes, r)
    requires popped ==> cs1.scopes == cs.scopes
    requires Run(cx.env.k, cx.f, c0, n1) == c1
    requires Post(cx, d, cs1, scopes2, pos + |c|, regs1, fuel, out, popped,
                  n2, Run(cx.env.k, cx.f, c1, n2), regs2)
    ensures Post(cx, c + d, cs, scopes2, pos, regs, fuel, out, popped,
                 n1 + n2, Run(cx.env.k, cx.f, c0, n1 + n2), regs2)
  {
    hide Run, Agree, Fresh;
    RunCompose(cx.env.k, cx.f, c0, n1, n2);
  }

  lemma {:induction false} StmtsCorrect(cx: Ctx, ss: Stmts, cs: CState, inLoop: bool, pos: nat, vars: Scopes,
                                        regs: seq<Value>, st: State, fuel: nat)
    returns (n: nat, regs': seq<Value>)
    requires |cs.scopes| == |vars| > 0
    requires Pre(cx, GenStmts(cx.env.slots, ss, cs, inLoop), cs, pos, vars, regs)
    ensures var g := GenStmts(cx.env.slots, ss, cs, inLoop).value;
      Post(cx, g.0, cs, g.1.scopes, pos, regs, fuel, ExecStmts(cx.env, fuel, ss, vars, st), false,
           n, Run(cx.env.k, cx.f, Running(pos, regs, st), n), regs')
    decreases fuel, ss, 0
  {
    hide Run, Agree, Fresh, Allocated, Placed, GenStmt, Exec, Outer;
    if ss.Nil? {
      n, regs' := 0, regs;
      RunNone(cx.env.k, cx.f, Running(pos, regs, st));
    } else {
      var (c, cs1) := GenStmt(cx.env.slots, ss.head, cs, inLoop).value;
      var (d, cs2) := GenStmts(cx.env.slots, ss.tail, cs1, inLoop).value;
      PlacedSplit(cx.f.code, pos, c, d, cx.brk, cx.cont);
      var n1, regs1 := StmtCorrect(cx, ss.head, cs, inLoop, pos, vars, regs, st, fuel);
      n, regs' := n1, regs1;
      var out := Exec(cx.env, fuel, ss.head, vars, st);
      if out.Done? && out.flow.Normal? {
        StmtAllocated(cx.env.slots, ss.head, cs, inLoop);
        var n2, regs2 := StmtsCorrect(cx, ss.tail, cs1, inLoop, pos + |c|, out.scopes, regs1, out.st, fuel);
        n, regs' := n1 + n2, regs2;
        SeqPost(cx, c, d, cs, cs1, cs2.scopes, pos, regs, regs1, regs2, fuel,
                ExecStmts(cx.env, fuel, ss.tail, out.scopes, out.st), false, n1, n2,
                Running(pos, regs, st), Running(pos + |c|, regs1, out.st));
      }
    }
  }

  lemma {:induction false} StmtCorrect(cx: Ctx, s: Stmt, cs: CState, inLoop: bool, pos: nat, vars: Scopes,
                                       regs: seq<Value>, st: State, fuel: nat)
    returns (n: nat, regs': seq<Value>)
    requires |cs.scopes| == |vars| > 0
    requires Pre(cx, GenStmt(cx.env.slots, s, cs, inLoop), cs, pos, vars, regs)
    ensures var g := GenStmt(cx.env.slots, s, cs, inLoop).value;
      Post(cx, g.0, cs, g.1.scopes, pos, regs, fuel, Exec(cx.env, fuel, s, vars, st), false,
           n, Run(cx.env.k, cx.f, Running(pos, regs, st), n), regs')
    decreases fuel, s, 1
  {
    hide Run, Agree, Fresh, Allocated, Placed, Untouched, GenIf, ExecIf, GenExpr, GenBlock, Ops, Outer, Eval, ExecBlock;
    match s
    case Let(_, _) => n, regs' := LetCorrect(cx, s, cs, inLoop, pos, vars, regs, st, fuel);
    case Assign(_, _) => n, regs' := AssignCorrect(cx, s, cs, inLoop, pos, vars, regs, st, fuel);
    case If(ifs) =>
      n, regs' := IfCorrect(cx, ifs, cs, inLoop, pos, vars, regs, st, fuel);
      var out := ExecIf(cx.env, fuel, ifs, vars, st);
      if out.Done? && (out.flow.Breaks? || out.flow.Continues?) {
        OuterAgree(cs.scopes, out.scopes, regs');
      }
    case While(_, _) => n, regs' := WhileCorrect(cx, s, cs, inLoop, pos, vars, regs, st, fuel);
    case _ => n, regs' := SimpleCorrect(cx, s, cs, inLoop, pos, vars, regs, st, fuel);
  }

  lemma {:induction false} BlockCorrect(cx: Ctx, b: Block, cs: CState, inLoop: bool, pos: nat, vars: Scopes,
                                        regs: seq<Value>, st: State, fuel: nat)
    returns (n: nat, regs': seq<Value>)
    requires |cs.scopes| == |vars|
    requires Pre(cx, GenBlock(cx.env.slots, b, cs, inLoop), cs, pos, vars, regs)
    ensures var g := GenBlock(cx.env.slots, b, cs, inLoop).value;
      Post(cx, g.0, cs, cs.scopes, pos, regs, fuel, ExecBlock(cx.env, fuel, b, vars, st), true,
           n, Run(cx.env.k, cx.f, Running(pos, regs, st), n), regs')
    decreases fuel, b, 0
  {
    hide Run, Agree, Fresh, Allocated, Placed, Untouched, GenStmts, GenExpr, Ops, ExecStmts, Eval;
    var inner := cs.(scopes := cs.scopes + [map[]]);
    EnterBlock(cs, vars, regs);
    var (c, cs1) := GenStmts(cx.env.slots, b.stmts, inner, inLoop).value;
    var d := if b.tail.None? then [] else Ops(GenExpr(cx.env.slots, b.tail.value, cs1.nextReg, Alloc(cs1)).value.0);
    var g := GenBlock(cx.env.slots, b, cs, inLoop).value;
    assert g.0 == c + d;
    PlacedSplit(cx.f.code, pos, c, d, cx.brk, cx.cont);
    var n1, regs1 := StmtsCorrect(cx, b.stmts, inner, inLoop, pos, vars + [map[]], regs, st, fuel);
    n, regs' := n1, regs1;
    var out := ExecStmts(cx.env, fuel, b.stmts, vars + [map[]], st);
    if out.Done? {
      EnterUntouched(cs, regs, regs1);
      assert Outer(inner.scopes) == cs.scopes;
      if out.flow.Normal? {
        OuterAgree(cs1.scopes, out.scopes, regs1);
        if b.tail.Some? {
          StmtsAllocated(cx.env.slots, b.stmts, inner, inLoop);
          n, regs' := TailCorrect(cx, b.tail.value, cs, cs1, pos, |c|, out.scopes, regs, regs1, st, out.st, n1);
        }
      }
    }
  }

  lemma {:induction false} IfCorrect(cx: Ctx, ifs: IfStmt, cs: CState, inLoop: bool, pos: nat, vars: Scopes,
                                     regs: seq<Value>, st: State, fuel: nat)
    returns (n: nat, regs': seq<Value>)
    requires |cs.scopes| == |vars| > 0
    requires Pre(cx, GenIf(cx.env.slots, ifs, cs, inLoop), cs, pos, vars, regs)
    ensures var g := GenIf(cx.env.slots, ifs, cs, inLoop).value;
      Post(cx, g.0, cs, cs.scopes, pos, regs, fuel, ExecIf(cx.env, fuel, ifs, vars, st), true,
           n, Run(cx.env.k, cx.f, Running(pos, regs, st), n), regs')
    decreases fuel, ifs, 0
  {
    hide Run, Agree, Fresh, Allocated, Placed, Untouched, GenIf, GenBlock, GenExpr;
    var parts, n1, regs1 := TestCorrect(cx, ifs, cs, inLoop, pos, vars, regs, st);
    var IfParts(c, cs1, t, cs2, els) := parts;
    n, regs' := n1, regs1;
    var v := Eval(cx.env, ifs.cond, vars, st);
    if v.Ok? && Taken(cx.env, v.value) {
      var n2, regs2 := BlockCorrect(cx, ifs.thn, cs1, inLoop, pos + |c|, vars, regs1, st, fuel);
      n, regs' := ThenJoin(cx, c, t, els, cs, cs1, pos, regs, regs1, regs2, st, fuel,
                           ExecBlock(cx.env, fuel, ifs.thn, vars, st), n1, n2);
    } else if v.Ok? && v.value == Bool(false) {
      var at := pos + |c| + |t| + 1;
      var head := Ops(c) + t + [Op(Jump(|els|))];
      var n2, regs2 := ElseCorrect(cx, ifs, cs2, inLoop, at, vars, regs1, st, fuel);
      n, regs' := n1 + n2, regs2;
      ReadyMoves(cs, cs2, vars, regs, regs1);
      SeqPost(cx, head, els, cs, cs2, cs.scopes, pos, regs, regs1, regs2, fuel,
              ElseOutcome(cx.env, fuel, ifs.els, vars, st), true, n1, n2,
              Running(pos, regs, st), Running(at, regs1, st));
    }
  }

  /** The pieces of a compiled `if`: the test, and the state and code of each branch. */
  datatype IfParts = IfParts(c: seq<Instr>, cs1: CState, t: seq<Slot>, cs2: CState, els: seq<Slot>)

  /** Evaluate the condition and take the conditional jump. */
  lemma TestCorrect(cx: Ctx, ifs: IfStmt, cs: CState, inLoop: bool, pos: nat, vars: Scopes, regs: seq<Value>, st: State)
    returns (parts: IfParts, n: nat, regs': seq<Value>)
    requires |cs.scopes| == |vars| > 0
    requires Pre(cx, GenIf(cx.env.slots, ifs, cs, inLoop), cs, pos, vars, regs)
    ensures var IfParts(c, cs1, t, cs2, els) := parts;
      var after := Run(cx.env.k, cx.f, Running(pos, regs, st), n);
      && GenIf(cx.env.slots, ifs, cs, inLoop).value.0 == Ops(c) + t + [Op(Jump(|els|))] + els
      && cs1.nextReg == cs2.nextReg == cs.nextReg && cs1.scopes == cs2.scopes == cs.scopes && Grows(cs, cs2)
      && pos + |c| + |t| < |cx.f.code| && cx.f.code[pos + |c| + |t|] == Jump(|els|)
      && match Eval(cx.env, ifs.cond, vars, st)
         case Err(x) => after == Failed(x)
         case Ok(v) =>
           && Untouched(cs, regs, regs') && Ready(cs, vars, regs')
           && (v == Bool(false) ==> after == Running(pos + |c| + |t| + 1, regs', st))
           && (v != Bool(false) ==> after == Running(pos + |c|, regs', st))
           && Pre(cx, GenBlock(cx.env.slots, ifs.thn, cs1, inLoop), cs1, pos + |c|, vars, regs')
           && GenBlock(cx.env.slots, ifs.thn, cs1, inLoop).value == (t, cs2)
           && ElsePre(cx, ifs, cs2, inLoop, pos + |c| + |t| + 1, vars, regs')
           && els == ElseCode(cx.env.slots, ifs, cs2, inLoop)
  {
    hide Run, Agree, Fresh, Allocated, Placed, GenBlock, GenIf, GenExpr, Eval, Ops, Untouched, Outer;
    var ec;
    parts, ec := IfLayout(cx.env.slots, ifs, cs, inLoop);
    var IfParts(c, cs1, t, cs2, els) := parts;
    var test := JumpIfFalse(cs.nextReg, |t| + 1);
    var rest := t + ([Op(Jump(|els|))] + els);
    n, regs' := ExprThen(cx, ifs.cond, cs, pos, vars, regs, st, test, rest);
    PlacedSplit(cx.f.code, pos + |c|, t, [Op(Jump(|els|))] + els, cx.brk, cx.cont);
    PlacedHead(cx.f.code, pos + |c| + |t|, Jump(|els|), els, cx.brk, cx.cont);
    if Eval(cx.env, ifs.cond, vars, st).Ok? {
      ReadyMoves(cs, cs1, vars, regs, regs');
      ReadyMoves(cs, cs2, vars, regs, regs');
      SameLength(cs, regs, regs');
    }
  }

  lemma SameLength(cs: CState, regs: seq<Value>, regs': seq<Value>)
    requires Untouched(cs, regs, regs')
    ensures |regs'| == |regs|
  {
  }

  /** How a compiled `if` is put together. */
  ghost predicate IfShape(slots: map<string, nat>, ifs: IfStmt, cs: CState, inLoop: bool, parts: IfParts, ec: seq<Instr>)
    requires |cs.scopes| > 0 && GenIf(slots, ifs, cs, inLoop).Some?
  {
    var IfParts(c, cs1, t, cs2, els) := parts;
    var g := GenExpr(slots, ifs.cond, cs.nextReg, Alloc(cs));
    && g.Some? && g.value.0 == ec && c == ec + [JumpIfFalse(cs.nextReg, |t| + 1)]
    && cs1.nextReg == cs2.nextReg == cs.nextReg && cs1.scopes == cs2.scopes == cs.scopes && Grows(cs, cs1) && Grows(cs, cs2)
    && g.value.1.consts <= GenIf(slots, ifs, cs, inLoop).value.1.consts && g.value.1.maxReg <= GenIf(slots, ifs, cs, inLoop).value.1.maxReg
    && GenBlock(slots, ifs.thn, cs1, inLoop) == Some((t, cs2)) && Grows(cs2, GenIf(slots, ifs, cs, inLoop).value.1)
    && els == ElseCode(slots, ifs, cs2, inLoop)
    && (ifs.els.ElseBlock? ==> GenBlock(slots, ifs.els.b, cs2, inLoop) == Some((els, GenIf(slots, ifs, cs, inLoop).value.1)))
    && (ifs.els.ElseIf? ==> GenIf(slots, ifs.els.nested, cs2, inLoop) == Some((els, GenIf(slots, ifs, cs, inLoop).value.1)))
    && GenIf(slots, ifs, cs, inLoop).value.0 == Ops(ec + [JumpIfFalse(cs.nextReg, |t| + 1)]) + (t + ([Op(Jump(|els|))] + els))
    && GenIf(slots, ifs, cs, inLoop).value.0 == Ops(c) + t + [Op(Jump(|els|))] + els
  }

  lemma IfLayout(slots: map<string, nat>, ifs: IfStmt, cs: CState, inLoop: bool) returns (parts: IfParts, ec: seq<Instr>)
    requires |cs.scopes| > 0 && GenIf(slots, ifs, cs, inLoop).Some?
    ensures IfShape(slots, ifs, cs, inLoop, parts, ec)
  {
    hide Ops, GenExpr, GenBlock, Outer;
    var r := cs.nextReg;
    var g := GenExpr(slots, ifs.cond, r, Alloc(cs)).value;
    ec := g.0;
    var cs1 := Free(g.1, r);
    var (t, cs2) := GenBlock(slots, ifs.thn, cs1, inLoop).value;
    var els := ElseCode(slots, ifs, cs2, inLoop);
    var c := ec + [JumpIfFalse(r, |t| + 1)];
    parts := IfParts(c, cs1, t, cs2, els);
    assert Branch(ec, r, t, els) == Ops(c) + (t + ([Op(Jump(|els|))] + els));
  }

  function ElseCode(slots: map<string, nat>, ifs: IfStmt, cs: CState, inLoop: bool): seq<Slot>
    requires |cs.scopes| > 0
  {
    match ifs.els
    case NoElse => []
    case ElseBlock(b) => var g := GenBlock(slots, b, cs, inLoop); if g.Some? then g.value.0 else []
    case ElseIf(nested) => var g := GenIf(slots, nested, cs, inLoop); if g.Some? then g.value.0 else []
  }

  ghost predicate ElsePre(cx: Ctx, ifs: IfStmt, cs: CState, inLoop: bool, pos: nat, vars: Scopes, regs: seq<Value>) {
    && |cs.scopes| == |vars| > 0 && Ready(cs, vars, regs)
    && (ifs.els.ElseBlock? ==> Pre(cx, GenBlock(cx.env.slots, ifs.els.b, cs, inLoop), cs, pos, vars, regs))
    && (ifs.els.ElseIf? ==> Pre(cx, GenIf(cx.env.slots, ifs.els.nested, cs, inLoop), cs, pos, vars, regs))
  }

  lemma {:induction false} WhileCorrect(cx: Ctx, s: Stmt, cs: CState, inLoop: bool, pos: nat, vars: Scopes,
                                        regs: seq<Value>, st: State, fuel: nat)
    returns (n: nat, regs': seq<Value>)
    requires s.While? && |cs.scopes| == |vars| > 0
    requires Pre(cx, GenStmt(cx.env.slots, s, cs, inLoop), cs, pos, vars, regs)
    ensures var g := GenStmt(cx.env.slots, s, cs, inLoop).value;
      Post(cx, g.0, cs, g.1.scopes, pos, regs, fuel, Exec(cx.env, fuel, s, vars, st), false,
           n, Run(cx.env.k, cx.f, Running(pos, regs, st), n), regs')
    decreases fuel, s, 0
  {
    hide Run, Agree, Fresh, Allocated, Placed, Untouched, GenStmt, GenBlock;
    if fuel == 0 {
      n, regs' := 0, regs;
      RunNone(cx.env.k, cx.f, Running(pos, regs, st));
      return;
    }
    var cs1, c, b, n1, regs1 := LoopTest(cx, s, cs, inLoop, pos, vars, regs, st);
    var seg := GenStmt(cx.env.slots, s, cs, inLoop).value.0;
    n, regs' := n1, regs1;
    var v := Eval(cx.env, s.cond, vars, st);
    if v.Ok? && Taken(cx.env, v.value) {
      var cx' := cx.(brk := pos + |seg|, cont := pos);
      var n2, regs2 := BlockCorrect(cx', s.body, cs1, true, pos + |c|, vars, regs1, st, fuel - 1);
      RunCompose(cx.env.k, cx.f, Running(pos, regs, st), n1, n2);
      n, regs' := n1 + n2, regs2;
      var out := ExecBlock(cx.env, fuel - 1, s.body, vars, st);
      if out.Done? {
        UntouchedTrans(cs, cs1, regs, regs1, regs2);
        if out.flow.Normal? || out.flow.Continues? {
          var k := BackEdge(cx, pos, |seg|, regs, regs2, st, out.st, n1 + n2);
          var n3, regs3 := WhileCorrect(cx, s, cs, inLoop, pos, out.scopes, regs2, out.st, fuel - 1);
          n, regs' := k + n3, regs3;
          LoopPost(cx, seg, cs, pos, regs, regs2, regs3, fuel, Exec(cx.env, fuel - 1, s, out.scopes, out.st),
                   k, n3, Running(pos, regs, st), Running(pos, regs2, out.st));
        }
      }
    }
  }

  /** After the body, control is either at the loop's start already or at its back edge. */
  lemma BackEdge(cx: Ctx, pos: nat, len: nat, regs: seq<Value>, regs': seq<Value>, st: State, st': State, n: nat)
    returns (k: nat)
    requires len > 0 && pos + len <= |cx.f.code| && cx.f.code[pos + len - 1] == Jump(-(len as int))
    requires var after := Run(cx.env.k, cx.f, Running(pos, regs, st), n);
      after == Running(pos, regs', st') || after == Running(pos + len - 1, regs', st')
    ensures n <= k && Run(cx.env.k, cx.f, Running(pos, regs, st), k) == Running(pos, regs', st')
  {
    k := n;
    if Run(cx.env.k, cx.f, Running(pos, regs, st), n) != Running(pos, regs', st') {
      Tick(cx.env.k, cx.f, Running(pos, regs, st), n);
      k := n + 1;
    }
  }

  /** Evaluate a loop's condition and take its exit test. */
  lemma LoopTest(cx: Ctx, s: Stmt, cs: CState, inLoop: bool, pos: nat, vars: Scopes, regs: seq<Value>, st: State)
    returns (cs1: CState, c: seq<Instr>, b: seq<Slot>, n: nat, regs': seq<Value>)
    requires s.While? && |cs.scopes| == |vars| > 0
    requires Pre(cx, GenStmt(cx.env.slots, s, cs, inLoop), cs, pos, vars, regs)
    ensures n > 0
    ensures var (seg, cs2) := GenStmt(cx.env.slots, s, cs, inLoop).value;
      var after := Run(cx.env.k, cx.f, Running(pos, regs, st), n);
      && cs1.nextReg == cs.nextReg && cs1.scopes == cs.scopes == cs2.scopes
      && |seg| == |c| + |b| + 1 && pos + |seg| <= |cx.f.code| && cx.f.code[pos + |seg| - 1] == Jump(-|seg|)
      && match Eval(cx.env, s.cond, vars, st)
         case Err(x) => after == Failed(x)
         case Ok(v) =>
           && Untouched(cs, regs, regs') && Ready(cs, vars, regs') && Fits(cx.f, cs2, regs')
           && (v == Bool(false) ==> after == Running(pos + |seg|, regs', st))
           && (v != Bool(false) ==> after == Running(pos + |c|, regs', st))
           && Pre(cx.(brk := pos + |seg|, cont := pos), GenBlock(cx.env.slots, s.body, cs1, true), cs1,
                  pos + |c|, vars, regs')
           && GenBlock(cx.env.slots, s.body, cs1, true).value == (b, cs2)
  {
    hide Run, Agree, Fresh, Allocated, Placed, GenBlock, GenExpr, GenStmt, Ops, Eval, Untouched, Fill, Outer;
    var ec;
    cs1, ec, b := LoopLayout(cx.env.slots, s, cs, inLoop);
    var end := |ec| + |b| + 2;
    var test := JumpIfFalse(cs.nextReg, |b| + 1);
    c := ec + [test];
    var rest := Ops(Fill(b, |ec| + 1, end, 0) + [Jump(-end)]);
    n, regs' := ExprThen(cx, s.cond, cs, pos, vars, regs, st, test, rest);
    LoopBody(cx.f.code, pos, |ec|, b, cx.brk, cx.cont);
    if Eval(cx.env, s.cond, vars, st).Ok? {
      ReadyMoves(cs, cs1, vars, regs, regs');
      SameLength(cs, regs, regs');
    }
  }

  /** How a compiled `while` is put together. */
  lemma LoopLayout(slots: map<string, nat>, s: Stmt, cs: CState, inLoop: bool)
    returns (cs1: CState, ec: seq<Instr>, b: seq<Slot>)
    requires s.While? && |cs.scopes| > 0 && GenStmt(slots, s, cs, inLoop).Some?
    ensures var g := GenExpr(slots, s.cond, cs.nextReg, Alloc(cs));
      var (seg, cs2) := GenStmt(slots, s, cs, inLoop).value;
      var end := |ec| + |b| + 2;
      && g.Some? && g.value.0 == ec && g.value.1.consts <= cs2.consts && g.value.1.maxReg <= cs2.maxReg
      && cs1.nextReg == cs.nextReg && cs1.scopes == cs.scopes == cs2.scopes && Grows(cs, cs1)
      && GenBlock(slots, s.body, cs1, true) == Some((b, cs2))
      && seg == Ops(ec + [JumpIfFalse(cs.nextReg, |b| + 1)]) + Ops(Fill(b, |ec| + 1, end, 0) + [Jump(-end)])
      && |seg| == |ec| + |b| + 2
  {
    hide Fill, GenExpr, GenBlock, Outer;
    var r := cs.nextReg;
    var g := GenExpr(slots, s.cond, r, Alloc(cs)).value;
    ec := g.0;
    cs1 := Free(g.1, r);
    b := GenBlock(slots, s.body, cs1, true).value.0;
    var end := |ec| + |b| + 2;
    FillLength(b, |ec| + 1, end);
    assert Ops(Loop(ec, r, b)) == Ops(ec + [JumpIfFalse(r, |b| + 1)]) + Ops(Fill(b, |ec| + 1, end, 0) + [Jump(-end)]);
  }

  lemma FillLength(b: seq<Slot>, brk: nat, end: nat)
    ensures |Fill(b, brk, end, 0)| == |b|
  {
  }

  lemma EnterBlock(cs: CState, vars: Scopes, regs: seq<Value>)
    requires Ready(cs, vars, regs)
    ensures Ready(cs.(scopes := cs.scopes + [map[]]), vars + [map[]], regs)
  {
    var inner: Registers := cs.scopes + [map[]];
    var vars' := vars + [map[]];
    assert forall i :: 0 <= i < |inner| ==> inner[i] == (if i < |cs.scopes| then cs.scopes[i] else map[]);
    assert forall i :: 0 <= i < |inner| ==> vars'[i] == (if i < |vars| then vars[i] else map[]);
  }

  lemma EnterUntouched(cs: CState, regs: seq<Value>, regs': seq<Value>)
    requires Untouched(cs.(scopes := cs.scopes + [map[]]), regs, regs')
    ensures Untouched(cs, regs, regs')
  {
    var inner: Registers := cs.scopes + [map[]];
    forall r: nat | r < cs.nextReg && r < |regs| && Fresh(cs.scopes, r)
      ensures regs'[r] == regs[r]
    {
      assert Fresh(inner, r);
    }
  }

  lemma {:induction false} StmtsAllocated(slots: map<string, nat>, ss: Stmts, cs: CState, inLoop: bool)
    requires |cs.scopes| > 0 && GenStmts(slots, ss, cs, inLoop).Some?
    requires Allocated(cs.scopes, cs.nextReg)
    ensures var cs' := GenStmts(slots, ss, cs, inLoop).value.1; Allocated(cs'.scopes, cs'.nextReg)
    decreases ss
  {
    hide Allocated, Fresh;
    if ss.Cons? {
      StmtAllocated(slots, ss.head, cs, inLoop);
      StmtsAllocated(slots, ss.tail, GenStmt(slots, ss.head, cs, inLoop).value.1, inLoop);
    }
  }

  /** The discarded tail of a block. */
  lemma TailCorrect(cx: Ctx, e: Expr, cs: CState, cs1: CState, pos: nat, len: nat, vars1: Scopes,
                    regs: seq<Value>, regs1: seq<Value>, st: State, st1: State, n1: nat)
    returns (n: nat, regs': seq<Value>)
    requires GenExpr(cx.env.slots, e, cs1.nextReg, Alloc(cs1)).Some?
    requires var (d, cs2) := GenExpr(cx.env.slots, e, cs1.nextReg, Alloc(cs1)).value;
      Placed(cx.f.code, pos + len, Ops(d), cx.brk, cx.cont) && Fits(cx.f, cs2, regs1)
    requires Ready(cs1, vars1, regs1) && |cs1.scopes| > 0 && Outer(cs1.scopes) == cs.scopes
    requires cs.nextReg <= cs1.nextReg && Untouched(cs, regs, regs1)
    requires Run(cx.env.k, cx.f, Running(pos, regs, st), n1) == Running(pos + len, regs1, st1)
    ensures var after := Run(cx.env.k, cx.f, Running(pos, regs, st), n);
      var d := GenExpr(cx.env.slots, e, cs1.nextReg, Alloc(cs1)).value.0;
      match Eval(cx.env, e, vars1, st1)
      case Err(x) => after == Failed(x)
      case Ok(_) =>
        && after == Running(pos + len + |d|, regs', st1)
        && Agree(cs.scopes, Outer(vars1), regs') && Untouched(cs, regs, regs')
  {
    hide Run, Step, Agree, Allocated, Fresh, Placed;
    var d := GenExpr(cx.env.slots, e, cs1.nextReg, Alloc(cs1)).value.0;
    assert Ops(d) + [] == Ops(d);
    PlacedOps(cx.f.code, pos + len, d, [], cx.brk, cx.cont);
    var n2;
    n2, regs' := FreshExpr(cx.env, cx.f, e, cs1, pos + len, vars1, regs1, st1);
    RunCompose(cx.env.k, cx.f, Running(pos, regs, st), n1, n2);
    n := n1 + n2;
    if Eval(cx.env, e, vars1, st1).Ok? {
      OuterAgree(cs1.scopes, vars1, regs');
    }
  }

  lemma PlacedHead(code: seq<Instr>, pos: nat, i: Instr, rest: seq<Slot>, brk: int, cont: int)
    requires Placed(code, pos, [Op(i)] + rest, brk, cont)
    ensures pos < |code| && code[pos] == i && Placed(code, pos + 1, rest, brk, cont)
  {
    PlacedSplit(code, pos, [Op(i)], rest, brk, cont);
    assert code[pos + 0] == FillSlot([Op(i)][0], pos + 0, brk, cont);
  }

  lemma UntouchedTrans(cs: CState, cs1: CState, regs: seq<Value>, regs1: seq<Value>, regs2: seq<Value>)
    requires Untouched(cs, regs, regs1) && Untouched(cs1, regs1, regs2)
    requires cs.nextReg == cs1.nextReg && cs.scopes == cs1.scopes
    ensures Untouched(cs, regs, regs2)
  {
  }

  lemma ReadyMoves(cs: CState, cs1: CState, vars: Scopes, regs: seq<Value>, regs1: seq<Value>)
    requires Grows(cs, cs1) && cs1.nextReg == cs.nextReg && cs1.scopes == cs.scopes
    requires Ready(cs, vars, regs1)
    ensures Ready(cs1, vars, regs1)
    ensures forall r: nat :: r < cs.nextReg && Fresh(cs.scopes, r) ==> Fresh(cs1.scopes, r)
  {
  }

  /** The `then` branch, then the jump over the `else` branch. */
  lemma ThenJoin(cx: Ctx, c: seq<Instr>, t: seq<Slot>, els: seq<Slot>, cs: CState, cs1: CState, pos: nat,
                 regs: seq<Value>, regs1: seq<Value>, regs2: seq<Value>, st: State, fuel: nat, out: Outcome,
                 n1: nat, n2: nat)
    returns (n: nat, regs': seq<Value>)
    requires cs.nextReg == cs1.nextReg && cs.scopes == cs1.scopes
    requires Untouched(cs, regs, regs1)
    requires Run(cx.env.k, cx.f, Running(pos, regs, st), n1) == Running(pos + |c|, regs1, st)
    requires Post(cx, t, cs1, cs.scopes, pos + |c|, regs1, fuel, out, true,
                  n2, Run(cx.env.k, cx.f, Running(pos + |c|, regs1, st), n2), regs2)
    requires pos + |c| + |t| < |cx.f.code| && cx.f.code[pos + |c| + |t|] == Jump(|els|)
    ensures Post(cx, Ops(c) + t + [Op(Jump(|els|))] + els, cs, cs.scopes, pos, regs, fuel, out, true,
                 n, Run(cx.env.k, cx.f, Running(pos, regs, st), n), regs')
  {
    hide Run, Agree, Fresh;
    RunCompose(cx.env.k, cx.f, Running(pos, regs, st), n1, n2);
    n, regs' := n1 + n2, regs2;
    if out.Done? && out.flow.Normal? {
      Tick(cx.env.k, cx.f, Running(pos, regs, st), n1 + n2);
      n := n + 1;
    }
  }

  function ElseOutcome(env: Env, fuel: nat, els: Else, vars: Scopes, st: State): Outcome
    requires |vars| > 0
  {
    match els
    case NoElse => Done(Normal, vars, st)
    case ElseBlock(b) => ExecBlock(env, fuel, b, vars, st)
    case ElseIf(nested) => ExecIf(env, fuel, nested, vars, st)
  }

  lemma {:induction false} ElseCorrect(cx: Ctx, ifs: IfStmt, cs: CState, inLoop: bool, pos: nat, vars: Scopes,
                                       regs: seq<Value>, st: State, fuel: nat)
    returns (n: nat, regs': seq<Value>)
    requires ElsePre(cx, ifs, cs, inLoop, pos, vars, regs)
    ensures var els := ElseCode(cx.env.slots, ifs, cs, inLoop);
      Post(cx, els, cs, cs.scopes, pos, regs, fuel, ElseOutcome(cx.env, fuel, ifs.els, vars, st), true,
           n, Run(cx.env.k, cx.f, Running(pos, regs, st), n), regs')
    decreases fuel, ifs.els, 0
  {
    hide Run, Agree, Fresh, Allocated, Placed;
    match ifs.els
    case NoElse =>
      n, regs' := 0, regs;
      RunNone(cx.env.k, cx.f, Running(pos, regs, st));
    case ElseBlock(b) => n, regs' := BlockCorrect(cx, b, cs, inLoop, pos, vars, regs, st, fuel);
    case ElseIf(nested) => n, regs' := IfCorrect(cx, nested, cs, inLoop, pos, vars, regs, st, fuel);
  }

  /** Filling a loop body's holes places it with the loop's end and start as targets. */
  lemma LoopBody(code: seq<Instr>, pos: nat, len: nat, b: seq<Slot>, brk: int, cont: int)
    requires var end := len + |b| + 2;
      Placed(code, pos + len + 1, Ops(Fill(b, len + 1, end, 0) + [Jump(-end)]), brk, cont)
    ensures var end := len + |b| + 2;
      && Placed(code, pos + len + 1, b, pos + end, pos)
      && pos + len + 1 + |b| < |code| && code[pos + len + 1 + |b|] == Jump(-end)
  {
    var end := len + |b| + 2;
    var at := pos + len + 1;
    var filled := Fill(b, len + 1, end, 0);
    var all := filled + [Jump(-end)];
    forall i | 0 <= i < |b| ensures code[at + i] == FillSlot(b[i], at + i, pos + end, pos) {
      assert code[at + i] == FillSlot(Ops(all)[i], at + i, brk, cont);
      assert all[i] == filled[i] == FillSlot(b[i], len + 1 + i, end, 0);
    }
    assert code[at + |b|] == FillSlot(Ops(all)[|b|], at + |b|, brk, cont);
  }

  lemma LoopPost(cx: Ctx, seg: seq<Slot>, cs: CState, pos: nat, regs: seq<Value>, regs1: seq<Value>,
                 regs2: seq<Value>, fuel: nat, out: Outcome, k: nat, n: nat, c0: Config, c1: Config)
    requires fuel > 0 && k > 0 && Untouched(cs, regs, regs1)
    requires Run(cx.env.k, cx.f, c0, k) == c1
    requires Post(cx, seg, cs, cs.scopes, pos, regs1, fuel - 1, out, false, n, Run(cx.env.k, cx.f, c1, n), regs2)
    ensures Post(cx, seg, cs, cs.scopes, pos, regs, fuel, out, false, k + n, Run(cx.env.k, cx.f, c0, k + n), regs2)
  {
    hide Run, Agree, Fresh;
    RunCompose(cx.env.k, cx.f, c0, k, n);
  }
}
