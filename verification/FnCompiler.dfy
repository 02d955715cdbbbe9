/** The function compiler as it works: one mutable object that appends instructions,
    allocates registers in stack order and patches jumps once their targets are known. */
module FnCompiler {
  import opened Options
  import opened Machine
  import opened Interp
  import opened CodeGen
  import opened CompileFn

  /** Placeholder jumps emitted for the innermost loop, to be patched at its end. */
  datatype LoopFrame = LoopFrame(breaks: seq<nat>, continues: seq<nat>)

  /** Absolute positions of one kind of hole in a segment emitted at `base`. */
  ghost function Marks(seg: seq<Slot>, base: nat, kind: Slot): (m: seq<nat>)
    ensures forall x :: x in m <==> base <= x < base + |seg| && seg[x - base] == kind
  {
    if seg == [] then []
    else (if seg[0] == kind then [base] else []) + Marks(seg[1..], base + 1, kind)
  }

  lemma {:induction false} MarksConcat(a: seq<Slot>, b: seq<Slot>, base: nat, kind: Slot)
    ensures Marks(a + b, base, kind) == Marks(a, base, kind) + Marks(b, base + |a|, kind)
  {
    hide Marks;
    if a == [] {
      assert a + b == b;
      MarksNone(base, kind);
    } else {
      MarksStep(a, base, kind);
      MarksStep(a + b, base, kind);
      assert (a + b)[1..] == a[1..] + b;
      MarksConcat(a[1..], b, base + 1, kind);
      var head: seq<nat> := if a[0] == kind then [base] else [];
      assert head + (Marks(a[1..], base + 1, kind) + Marks(b, base + |a|, kind))
          == head + Marks(a[1..], base + 1, kind) + Marks(b, base + |a|, kind);
    }
  }

  lemma MarksNone(base: nat, kind: Slot)
    ensures Marks([], base, kind) == []
  {
  }

  lemma MarksStep(seg: seq<Slot>, base: nat, kind: Slot)
    requires seg != []
    ensures Marks(seg, base, kind) == (if seg[0] == kind then [base] else []) + Marks(seg[1..], base + 1, kind)
  {
  }

  lemma {:induction false} MarksOps(c: seq<Instr>, base: nat, kind: Slot)
    requires !kind.Op?
    ensures Marks(Ops(c), base, kind) == []
  {
    if c != [] {
      assert Ops(c)[1..] == Ops(c[1..]);
      MarksOps(c[1..], base + 1, kind);
    }
  }

  ghost function Recorded(stack: seq<LoopFrame>, seg: seq<Slot>, base: nat): seq<LoopFrame> {
    if stack == [] then []
    else
      var top := stack[|stack| - 1];
      stack[|stack| - 1 := LoopFrame(top.breaks + Marks(seg, base, BreakHole),
                                     top.continues + Marks(seg, base, ContinueHole))]
  }

  lemma RecordedNothing(stack: seq<LoopFrame>, c: seq<Instr>, base: nat)
    ensures Recorded(stack, Ops(c), base) == stack
  {
    MarksOps(c, base, BreakHole);
    MarksOps(c, base, ContinueHole);
    if stack != [] {
      var top := stack[|stack| - 1];
      assert top.breaks + [] == top.breaks && top.continues + [] == top.continues;
    }
  }

  lemma RecordedTwice(stack: seq<LoopFrame>, a: seq<Slot>, b: seq<Slot>, base: nat)
    ensures Recorded(Recorded(stack, a, base), b, base + |a|) == Recorded(stack, a + b, base)
  {
    MarksConcat(a, b, base, BreakHole);
    MarksConcat(a, b, base, ContinueHole);
    if stack != [] {
      var top := stack[|stack| - 1];
      assert top.breaks + Marks(a + b, base, BreakHole)
        == (top.breaks + Marks(a, base, BreakHole)) + Marks(b, base + |a|, BreakHole);
      assert top.continues + Marks(a + b, base, ContinueHole)
        == (top.continues + Marks(a, base, ContinueHole)) + Marks(b, base + |a|, ContinueHole);
    }
  }

  lemma OneMark(hole: Slot, base: nat, kind: Slot)
    ensures Marks([hole], base, kind) == if hole == kind then [base] else []
  {
    assert [hole][1..] == [];
  }

  /** A segment without holes records nothing. */
  lemma OnlyOps(stack: seq<LoopFrame>, c: seq<Instr>, base: nat)
    ensures Flat(Ops(c)) == c && Recorded(stack, Ops(c), base) == stack
  {
    FlatOps(c);
    RecordedNothing(stack, c, base);
  }

  lemma FlatConcat(a: seq<Slot>, b: seq<Slot>)
    ensures Flat(a + b) == Flat(a) + Flat(b)
  {
  }

  lemma FlatOps(c: seq<Instr>)
    ensures Flat(Ops(c)) == c
  {
  }

  ghost function Patched(code: seq<Instr>, positions: seq<nat>, target: int): (r: seq<Instr>)
    ensures |r| == |code|
  {
    seq(|code|, i requires 0 <= i < |code| =>
      if i in positions && code[i].Jump? then Jump(target - i - 1) else code[i])
  }

  lemma MarksInside(b: seq<Slot>, at: nat, i: nat)
    requires !(at <= i < at + |b|)
    ensures i !in Marks(b, at, BreakHole) && i !in Marks(b, at, ContinueHole)
  {
  }

  lemma MarksAt(b: seq<Slot>, at: nat, j: nat, kind: Slot)
    requires j < |b|
    ensures at + j in Marks(b, at, kind) <==> b[j] == kind
  {
  }

  /** The instruction at one place of the loop body, after both patches. */
  lemma PatchedHole(pre: seq<Instr>, c: seq<Instr>, r: nat, b: seq<Slot>, j: nat)
    requires j < |b|
    ensures var at := |pre| + |c| + 1;
      var end := at + |b| + 1;
      var raw := pre + c + [JumpIfFalse(r, 0)] + Flat(b) + [Jump(|pre| - end)];
      var p1 := Patched(raw, Marks(b, at, ContinueHole), |pre|);
      && |pre| + |c| < |p1|
      && var p2 := p1[|pre| + |c| := JumpIfFalse(r, end - (at - 1) - 1)];
         Patched(p2, Marks(b, at, BreakHole), end)[at + j] == (pre + Loop(c, r, b))[at + j]
  {
    var at := |pre| + |c| + 1;
    var end := at + |b| + 1;
    MarksAt(b, at, j, BreakHole);
    MarksAt(b, at, j, ContinueHole);
    hide Marks;
    var raw := pre + c + [JumpIfFalse(r, 0)] + Flat(b) + [Jump(|pre| - end)];
    assert raw[at + j] == Flat(b)[j];
    assert Loop(c, r, b)[|c| + 1 + j] == Fill(b, |c| + 1, |c| + |b| + 2, 0)[j];
  }

  /** Everything outside the body: nothing but the exit test changes. */
  lemma PatchedElsewhere(pre: seq<Instr>, c: seq<Instr>, r: nat, b: seq<Slot>, i: nat)
    requires i < |pre| + |c| + |b| + 2 && !(|pre| + |c| + 1 <= i < |pre| + |c| + 1 + |b|)
    ensures var at := |pre| + |c| + 1;
      var end := at + |b| + 1;
      var raw := pre + c + [JumpIfFalse(r, 0)] + Flat(b) + [Jump(|pre| - end)];
      var p1 := Patched(raw, Marks(b, at, ContinueHole), |pre|);
      && |pre| + |c| < |p1|
      && var p2 := p1[|pre| + |c| := JumpIfFalse(r, end - (at - 1) - 1)];
         Patched(p2, Marks(b, at, BreakHole), end)[i] == (pre + Loop(c, r, b))[i]
  {
    var at := |pre| + |c| + 1;
    var end := at + |b| + 1;
    MarksInside(b, at, i);
    hide Marks;
    var raw := pre + c + [JumpIfFalse(r, 0)] + Flat(b) + [Jump(|pre| - end)];
    if i == at + |b| {
      assert raw[i] == Jump(|pre| - end);
    }
  }

  lemma LoopLength(c: seq<Instr>, r: nat, b: seq<Slot>)
    ensures |Loop(c, r, b)| == |c| + |b| + 2
  {
  }

  /** Patching the recorded placeholders of a loop gives the loop with its holes filled. */
  lemma PatchedLoop(pre: seq<Instr>, c: seq<Instr>, r: nat, b: seq<Slot>)
    ensures var at := |pre| + |c| + 1;
      var end := at + |b| + 1;
      var raw := pre + c + [JumpIfFalse(r, 0)] + Flat(b) + [Jump(|pre| - end)];
      var p1 := Patched(raw, Marks(b, at, ContinueHole), |pre|);
      && |pre| + |c| < |p1|
      && var p2 := p1[|pre| + |c| := JumpIfFalse(r, end - (at - 1) - 1)];
         Patched(p2, Marks(b, at, BreakHole), end) == pre + Loop(c, r, b)
  {
    hide Marks, Patched, Loop;
    LoopLength(c, r, b);
    var at := |pre| + |c| + 1;
    var end := at + |b| + 1;
    var raw := pre + c + [JumpIfFalse(r, 0)] + Flat(b) + [Jump(|pre| - end)];
    var p1 := Patched(raw, Marks(b, at, ContinueHole), |pre|);
    var p2 := p1[|pre| + |c| := JumpIfFalse(r, end - (at - 1) - 1)];
    var p3 := Patched(p2, Marks(b, at, BreakHole), end);
    var loop := Loop(c, r, b);
    var all := pre + loop;
    assert |p3| == |all|;
    forall i | 0 <= i < |all| ensures p3[i] == all[i] {
      if at <= i < at + |b| {
        PatchedHole(pre, c, r, b, i - at);
      } else {
        PatchedElsewhere(pre, c, r, b, i);
      }
    }
  }

  class Compiler {
    const slots: map<string, nat>
    var code: seq<Instr>
    var consts: seq<Value>
    var nextReg: nat
    var maxReg: nat
    var scopes: Registers
    var loopStack: seq<LoopFrame>

    ghost function CS(): CState
      reads this
    {
      CState(consts, nextReg, maxReg, scopes)
    }

    constructor (slots: map<string, nat>, params: seq<string>)
      ensures this.slots == slots && code == [] && loopStack == []
      ensures CS() == Entry(params).(scopes := [Bind(params, Indices(|params|))])
    {
      this.slots, code, consts, loopStack := slots, [], [], [];
      nextReg, maxReg := |params|, |params|;
      scopes := [Bind(params, Indices(|params|))];
    }

    method AllocReg() returns (r: nat)
      modifies this`nextReg, this`maxReg
      ensures r == old(nextReg) && CS() == Alloc(old(CS()))
    {
      r := nextReg;
      nextReg := nextReg + 1;
      if nextReg > maxReg {
        maxReg := nextReg;
      }
    }

    method FreeReg(r: nat)
      modifies this`nextReg
      ensures CS() == Free(old(CS()), r)
    {
      if r + 1 == nextReg {
        nextReg := nextReg - 1;
      }
    }

    /** Linear search of the constant pool, appending on a miss. */
    method ConstIdx(c: Value) returns (i: nat)
      modifies this`consts
      ensures i == ConstPos(old(consts), c) && CS() == Intern(old(CS()), c)
    {
      i := 0;
      while i < |consts|
        invariant i <= |consts| && consts == old(consts)
        invariant ConstPos(consts, c) == i + ConstPos(consts[i..], c)
      {
        if consts[i] == c {
          return;
        }
        i := i + 1;
      }
      consts := consts + [c];
    }

    /** Innermost scope first. */
    method LookupLocal(name: string) returns (r: Option<nat>)
      ensures match Find(scopes, name)
        case Some(i) => r == Some(scopes[i][name])
        case None => r == None
    {
      var i := |scopes|;
      assert scopes[..i] == scopes;
      while i > 0
        invariant 0 <= i <= |scopes| && Find(scopes, name) == Find(scopes[..i], name)
      {
        assert scopes[..i][..i - 1] == scopes[..i - 1];
        if name in scopes[i - 1] {
          return Some(scopes[i - 1][name]);
        }
        i := i - 1;
      }
      assert scopes[..0] == [];
      return None;
    }

    method Emit(i: Instr)
      modifies this`code
      ensures code == old(code) + [i]
    {
      code := code + [i];
    }

    method CompileExprInto(e: Expr, dst: nat) returns (ok: bool)
      modifies this`code, this`consts, this`nextReg, this`maxReg
      ensures ok <==> GenExpr(slots, e, dst, old(CS())).Some?
      ensures ok ==> var g := GenExpr(slots, e, dst, old(CS())).value; code == old(code) + g.0 && CS() == g.1
      decreases e
    {
      ok := true;
      match e
      case Lit(v) =>
        var idx := ConstIdx(v);
        Emit(LoadConst(dst, idx));
      case Ident(name) =>
        var local := LookupLocal(name);
        if local.Some? {
          if local.value != dst {
            Emit(Machine.Move(dst, local.value));
          }
        } else if name in slots {
          Emit(KvGet(dst, slots[name]));
        } else {
          ok := false;
        }
      case Binary(op, l, r) =>
        ok := CompileExprInto(l, dst);
        if ok {
          var rhs := AllocReg();
          ok := CompileExprInto(r, rhs);
          if ok {
            Emit(Bin(op, dst, dst, rhs));
            FreeReg(rhs);
          }
        }
      case Unary(op, o) =>
        ok := CompileExprInto(o, dst);
        if ok {
          Emit(Un(op, dst, dst));
        }
    }

    /** Evaluate into a new register. */
    method CompileFresh(e: Expr) returns (ok: bool, r: nat)
      modifies this`code, this`consts, this`nextReg, this`maxReg
      ensures r == old(nextReg)
      ensures ok <==> GenExpr(slots, e, r, Alloc(old(CS()))).Some?
      ensures ok ==> var g := GenExpr(slots, e, r, Alloc(old(CS()))).value; code == old(code) + g.0 && CS() == g.1
    {
      r := AllocReg();
      ok := CompileExprInto(e, r);
    }

    method PatchAll(positions: seq<nat>, target: int)
      requires forall p :: p in positions ==> p < |code|
      modifies this`code
      ensures code == Patched(old(code), positions, target)
    {
      var k := 0;
      while k < |positions|
        invariant k <= |positions| && code == Patched(old(code), positions[..k], target)
      {
        var pos := positions[k];
        assert pos in positions;
        assert positions[..k + 1] == positions[..k] + [pos];
        if code[pos].Jump? {
          code := code[pos := Jump(target - pos - 1)];
        }
        k := k + 1;
      }
      assert positions[..k] == positions;
    }

    /** What a successful compilation of a statement or block does to the object. */
    twostate predicate Appended(g: Gen)
      reads this
    {
      && g.Some?
      && code == old(code) + Flat(g.value.0)
      && CS() == g.value.1
      && loopStack == Recorded(old(loopStack), g.value.0, |old(code)|)
    }

    method CompileStmt(s: Stmt) returns (ok: bool)
      requires |scopes| > 0
      modifies this
      ensures ok <==> GenStmt(slots, s, old(CS()), old(loopStack) != []).Some?
      ensures ok ==> Appended(GenStmt(slots, s, old(CS()), old(loopStack) != []))
      decreases s
    {
      hide Recorded, Flat, Ops;
      match s
      case Let(_, _) => ok := CompileLet(s);
      case Assign(_, _) => ok := CompileAssign(s);
      case ReturnStmt(_) => ok := CompileReturn(s);
      case If(ifs) => ok := CompileIf(ifs);
      case While(cond, body) => ok := CompileWhile(cond, body);
      case Break => ok := CompileEscape(s);
      case Continue => ok := CompileEscape(s);
      case ExprStmt(_) => ok := CompileDiscard(s);
    }

    method CompileLet(s: Stmt) returns (ok: bool)
      requires s.Let? && |scopes| > 0
      modifies this
      ensures ok <==> GenStmt(slots, s, old(CS()), old(loopStack) != []).Some?
      ensures ok ==> Appended(GenStmt(slots, s, old(CS()), old(loopStack) != []))
    {
      hide Recorded;
      ghost var base, g := |code|, GenExpr(slots, s.value, nextReg, Alloc(CS()));
      var r;
      ok, r := CompileFresh(s.value);
      if ok {
        var top: map<string, nat> := scopes[|scopes| - 1][s.name := r];
        scopes := scopes[|scopes| - 1 := top];
        OnlyOps(loopStack, g.value.0, base);
      }
    }

    method CompileDiscard(s: Stmt) returns (ok: bool)
      requires s.ExprStmt? && |scopes| > 0
      modifies this
      ensures ok <==> GenStmt(slots, s, old(CS()), old(loopStack) != []).Some?
      ensures ok ==> Appended(GenStmt(slots, s, old(CS()), old(loopStack) != []))
    {
      hide Recorded;
      ghost var base, g := |code|, GenExpr(slots, s.value, nextReg, Alloc(CS()));
      var r;
      ok, r := CompileFresh(s.value);
      if ok {
        FreeReg(r);
        OnlyOps(loopStack, g.value.0, base);
      }
    }

    method CompileReturn(s: Stmt) returns (ok: bool)
      requires s.ReturnStmt? && |scopes| > 0
      modifies this
      ensures ok <==> GenStmt(slots, s, old(CS()), old(loopStack) != []).Some?
      ensures ok ==> Appended(GenStmt(slots, s, old(CS()), old(loopStack) != []))
    {
      hide Recorded;
      ghost var base := |code|;
      if s.result.None? {
        Emit(ReturnUnit);
        assert [Op(ReturnUnit)] == Ops([ReturnUnit]);
        OnlyOps(loopStack, [ReturnUnit], base);
        return true;
      }
      ghost var g := GenExpr(slots, s.result.value, nextReg, Alloc(CS()));
      var r;
      ok, r := CompileFresh(s.result.value);
      if ok {
        Emit(Machine.Return(r));
        FreeReg(r);
        OnlyOps(loopStack, g.value.0 + [Machine.Return(r)], base);
      }
    }

    /** `break` and `continue`: a placeholder jump, recorded for the innermost loop. */
    method CompileEscape(s: Stmt) returns (ok: bool)
      requires (s.Break? || s.Continue?) && |scopes| > 0
      modifies this
      ensures ok <==> GenStmt(slots, s, old(CS()), old(loopStack) != []).Some?
      ensures ok ==> Appended(GenStmt(slots, s, old(CS()), old(loopStack) != []))
    {
      ok := loopStack != [];
      if ok {
        var top := loopStack[|loopStack| - 1];
        var top' := if s.Break? then top.(breaks := top.breaks + [|code|])
                    else top.(continues := top.continues + [|code|]);
        ghost var hole := if s.Break? then BreakHole else ContinueHole;
        loopStack := loopStack[|loopStack| - 1 := top'];
        OneMark(hole, |code|, BreakHole);
        OneMark(hole, |code|, ContinueHole);
        Emit(Jump(0));
        assert Flat([hole]) == [Jump(0)];
        assert top.breaks + [] == top.breaks && top.continues + [] == top.continues;
      }
    }

    method CompileAssign(s: Stmt) returns (ok: bool)
      requires s.Assign? && |scopes| > 0
      modifies this
      ensures ok <==> GenStmt(slots, s, old(CS()), old(loopStack) != []).Some?
      ensures ok ==> Appended(GenStmt(slots, s, old(CS()), old(loopStack) != []))
    {
      hide Recorded;
      ghost var base, g := |code|, GenExpr(slots, s.value, nextReg, Alloc(CS()));
      var r;
      ok, r := CompileFresh(s.value);
      if ok {
        var local := LookupLocal(s.name);
        ghost var tail: seq<Instr> := [];
        if local.Some? {
          if r != local.value {
            Emit(Machine.Move(local.value, r));
            tail := [Machine.Move(local.value, r)];
          }
        } else if s.name in slots {
          Emit(KvPut(r, slots[s.name]));
          tail := [KvPut(r, slots[s.name])];
        } else {
          return false;
        }
        FreeReg(r);
        OnlyOps(loopStack, g.value.0 + tail, base);
      }
    }

    method CompileStmts(ss: Stmts) returns (ok: bool)
      requires |scopes| > 0
      modifies this
      ensures ok <==> GenStmts(slots, ss, old(CS()), old(loopStack) != []).Some?
      ensures ok ==> Appended(GenStmts(slots, ss, old(CS()), old(loopStack) != []))
      decreases ss
    {
      hide Recorded, GenStmt, Flat;
      ghost var base, stack := |code|, loopStack;
      ok := true;
      if ss.Cons? {
        ghost var g := GenStmt(slots, ss.head, CS(), stack != []);
        ok := CompileStmt(ss.head);
        if ok {
          RecordedSame(stack, g.value.0, base);
          ghost var h := GenStmts(slots, ss.tail, CS(), stack != []);
          ok := CompileStmts(ss.tail);
          if ok {
            FlatConcat(g.value.0, h.value.0);
            RecordedTwice(stack, g.value.0, h.value.0, base);
          }
        }
      } else {
        OnlyOps(stack, [], base);
        assert Ops([]) == [];
      }
    }

    method CompileBlock(b: Block) returns (ok: bool)
      modifies this
      ensures ok <==> GenBlock(slots, b, old(CS()), old(loopStack) != []).Some?
      ensures ok ==> Appended(GenBlock(slots, b, old(CS()), old(loopStack) != []))
      decreases b, 0
    {
      hide Recorded, GenStmts, GenExpr, Flat;
      ghost var base, stack := |code|, loopStack;
      var saved := nextReg;
      scopes := scopes + [map[]];
      ghost var g := GenStmts(slots, b.stmts, CS(), stack != []);
      ok := CompileStmts(b.stmts);
      if ok {
        if b.tail.Some? {
          ghost var mid, d := |code|, GenExpr(slots, b.tail.value, nextReg, Alloc(CS()));
          var r;
          ok, r := CompileFresh(b.tail.value);
          if !ok {
            return;
          }
          FreeReg(r);
          FlatConcat(g.value.0, Ops(d.value.0));
          OnlyOps(loopStack, d.value.0, mid);
          RecordedTwice(stack, g.value.0, Ops(d.value.0), base);
        }
        scopes := scopes[..|scopes| - 1];
        nextReg := saved;
      }
    }

    method CompileWhile(cond: Expr, body: Block) returns (ok: bool)
      requires |scopes| > 0
      modifies this
      ensures ok <==> GenStmt(slots, While(cond, body), old(CS()), old(loopStack) != []).Some?
      ensures ok ==> Appended(GenStmt(slots, While(cond, body), old(CS()), old(loopStack) != []))
      decreases body, 1
    {
      hide GenBlock, GenExpr, Flat, Marks, Loop, Patched, Ops, Recorded, Outer, Grows;
      var loopStart := |code|;
      ghost var gc := GenExpr(slots, cond, nextReg, Alloc(CS()));
      var condReg;
      ok, condReg := CompileFresh(cond);
      if !ok {
        return;
      }
      ghost var c, stack := gc.value.0, loopStack;
      var jifPos := |code|;
      Emit(JumpIfFalse(condReg, 0));
      FreeReg(condReg);
      loopStack := loopStack + [LoopFrame([], [])];
      ghost var gb := GenBlock(slots, body, CS(), true);
      ok := CompileBlock(body);
      if !ok {
        return;
      }
      ghost var b := gb.value.0;
      RecordedFirst(stack, b, jifPos + 1);
      var frame := loopStack[|loopStack| - 1];
      loopStack := loopStack[..|loopStack| - 1];
      CloseLoop(loopStart, jifPos, condReg, frame, old(code), c, b);
      OnlyOps(stack, Loop(c, condReg, b), loopStart);
    }

    /** Emit the back edge, then patch the exit test and the recorded placeholders. */
    method CloseLoop(loopStart: nat, jifPos: nat, condReg: nat, frame: LoopFrame,
                     ghost pre: seq<Instr>, ghost c: seq<Instr>, ghost b: seq<Slot>)
      requires loopStart == |pre| && jifPos == |pre| + |c|
      requires code == pre + c + [JumpIfFalse(condReg, 0)] + Flat(b)
      requires frame == LoopFrame(Marks(b, jifPos + 1, BreakHole), Marks(b, jifPos + 1, ContinueHole))
      modifies this`code
      ensures code == pre + Loop(c, condReg, b)
    {
      hide Marks, Loop, Patched;
      var jmpPos := |code|;
      code := code + [Jump(loopStart - jmpPos - 1)];
      MarksBelow(b, jifPos + 1, |code|);
      PatchAll(frame.continues, loopStart);
      var endPos := |code|;
      code := code[jifPos := JumpIfFalse(condReg, endPos - jifPos - 1)];
      PatchAll(frame.breaks, endPos);
      PatchedLoop(pre, c, condReg, b);
    }

    method CompileIf(ifs: IfStmt) returns (ok: bool)
      requires |scopes| > 0
      modifies this
      ensures ok <==> GenIf(slots, ifs, old(CS()), old(loopStack) != []).Some?
      ensures ok ==> Appended(GenIf(slots, ifs, old(CS()), old(loopStack) != []))
      decreases ifs, 1
    {
      hide GenBlock, GenExpr, Flat, Recorded, Branch, Ops, Outer, GenIf, GenElse, Grows;
      IfGen(slots, ifs, CS(), loopStack != []);
      ghost var base, stack := |code|, loopStack;
      ghost var gc := GenExpr(slots, ifs.cond, nextReg, Alloc(CS()));
      var condReg;
      ok, condReg := CompileFresh(ifs.cond);
      if !ok {
        return;
      }
      ghost var c := gc.value.0;
      var jifPos := |code|;
      Emit(JumpIfFalse(condReg, 0));
      FreeReg(condReg);
      ghost var gt := GenBlock(slots, ifs.thn, CS(), stack != []);
      ok := CompileBlock(ifs.thn);
      if !ok {
        return;
      }
      ghost var t := gt.value.0;
      RecordedSame(stack, t, jifPos + 1);
      var jmpEndPos := |code|;
      CloseThen(jifPos, condReg, old(code), c, t);
      ghost var e;
      ok, e := CompileElse(ifs);
      if !ok {
        return;
      }
      var endPos := |code|;
      PatchAt(old(code) + c + [JumpIfFalse(condReg, |t| + 1)] + Flat(t), Jump(0), Jump(|e|), Flat(e), []);
      code := code[jmpEndPos := Jump(endPos - jmpEndPos - 1)];
      BranchCode(old(code), c, condReg, t, e);
      BranchMarks(stack, c, condReg, t, e, base);
    }

    /** Emit the jump over the `else` branch and patch the test to land after it. */
    method CloseThen(jifPos: nat, condReg: nat, ghost pre: seq<Instr>, ghost c: seq<Instr>, ghost t: seq<Slot>)
      requires jifPos == |pre| + |c| && code == pre + c + [JumpIfFalse(condReg, 0)] + Flat(t)
      modifies this`code
      ensures code == pre + c + [JumpIfFalse(condReg, |t| + 1)] + Flat(t) + [Jump(0)]
    {
      code := code + [Jump(0)];
      var elsePos := |code|;
      PatchAt(pre + c, JumpIfFalse(condReg, 0), JumpIfFalse(condReg, |t| + 1), Flat(t), [Jump(0)]);
      code := code[jifPos := JumpIfFalse(condReg, elsePos - jifPos - 1)];
    }

    method CompileElse(ifs: IfStmt) returns (ok: bool, ghost e: seq<Slot>)
      requires |scopes| > 0
      modifies this
      ensures var g := GenElse(slots, ifs.els, old(CS()), old(loopStack) != []);
        (ok <==> g.Some?) && (ok ==> e == g.value.0 && Appended(g))
      decreases ifs, 0
    {
      hide GenBlock, GenIf, Flat, Recorded, Ops;
      ghost var g := GenElse(slots, ifs.els, CS(), loopStack != []);
      match ifs.els {
        case NoElse =>
          ok := true;
          OnlyOps(loopStack, [], |code|);
          assert Ops([]) == [];
        case ElseBlock(b) => ok := CompileBlock(b);
        case ElseIf(nested) => ok := CompileIf(nested);
      }
      e := if g.Some? then g.value.0 else [];
    }
  }

  ghost function GenElse(slots: map<string, nat>, els: Else, cs: CState, inLoop: bool): Gen
    requires |cs.scopes| > 0
  {
    match els
    case NoElse => Some(([], cs))
    case ElseBlock(b) => GenBlock(slots, b, cs, inLoop)
    case ElseIf(nested) => GenIf(slots, nested, cs, inLoop)
  }

  /** A compiled `if` from its three parts. */
  ghost function Assembled(slots: map<string, nat>, ifs: IfStmt, cs: CState, inLoop: bool): Gen
    requires |cs.scopes| > 0
  {
    match GenExpr(slots, ifs.cond, cs.nextReg, Alloc(cs))
    case None => None
    case Some((c, cs1)) =>
      match GenBlock(slots, ifs.thn, Free(cs1, cs.nextReg), inLoop)
      case None => None
      case Some((t, cs2)) =>
        match GenElse(slots, ifs.els, cs2, inLoop)
        case None => None
        case Some((e, cs3)) => Some((Branch(c, cs.nextReg, t, e), cs3))
  }

  lemma IfGen(slots: map<string, nat>, ifs: IfStmt, cs: CState, inLoop: bool)
    requires |cs.scopes| > 0
    ensures GenIf(slots, ifs, cs, inLoop) == Assembled(slots, ifs, cs, inLoop)
  {
    hide GenExpr, GenBlock, Branch, Outer;
  }

  /** Overwriting one emitted instruction leaves what is around it. */
  lemma PatchAt(pre: seq<Instr>, x: Instr, y: Instr, a: seq<Instr>, b: seq<Instr>)
    ensures (pre + [x] + a + b)[|pre| := y] == pre + [y] + a + b
    ensures b == [] ==> (pre + [x] + a)[|pre| := y] == pre + [y] + a
  {
  }

  lemma RecordedSame(stack: seq<LoopFrame>, seg: seq<Slot>, base: nat)
    ensures |Recorded(stack, seg, base)| == |stack|
  {
  }

  /** What the loop's own new frame holds when its body has been emitted. */
  lemma RecordedFirst(stack: seq<LoopFrame>, seg: seq<Slot>, base: nat)
    ensures Recorded(stack + [LoopFrame([], [])], seg, base)
         == stack + [LoopFrame(Marks(seg, base, BreakHole), Marks(seg, base, ContinueHole))]
  {
    var m, n := Marks(seg, base, BreakHole), Marks(seg, base, ContinueHole);
    assert [] + m == m && [] + n == n;
  }

  lemma MarksBelow(seg: seq<Slot>, base: nat, bound: nat)
    requires base + |seg| <= bound
    ensures forall p :: p in Marks(seg, base, BreakHole) ==> p < bound
    ensures forall p :: p in Marks(seg, base, ContinueHole) ==> p < bound
  {
  }

  lemma BranchCode(pre: seq<Instr>, c: seq<Instr>, r: nat, t: seq<Slot>, e: seq<Slot>)
    ensures pre + c + [JumpIfFalse(r, |t| + 1)] + Flat(t) + [Jump(|e|)] + Flat(e) == pre + Flat(Branch(c, r, t, e))
  {
    var test := c + [JumpIfFalse(r, |t| + 1)];
    FlatOps(test);
    FlatConcat(Ops(test) + t + [Op(Jump(|e|))], e);
    FlatConcat(Ops(test) + t, [Op(Jump(|e|))]);
    FlatConcat(Ops(test), t);
    assert Flat([Op(Jump(|e|))]) == [Jump(|e|)];
  }

  lemma BranchMarks(stack: seq<LoopFrame>, c: seq<Instr>, r: nat, t: seq<Slot>, e: seq<Slot>, base: nat)
    ensures var at := base + |c| + 1;
      Recorded(Recorded(stack, t, at), e, at + |t| + 1) == Recorded(stack, Branch(c, r, t, e), base)
  {
    var test := c + [JumpIfFalse(r, |t| + 1)];
    var jump := [Op(Jump(|e|))];
    RecordedTwice(stack, Ops(test) + t + jump, e, base);
    RecordedTwice(stack, Ops(test) + t, jump, base);
    RecordedTwice(stack, Ops(test), t, base);
    RecordedNothing(stack, test, base);
    RecordedNothing(Recorded(stack, t, base + |test|), [Jump(|e|)], base + |test| + |t|);
    assert jump == Ops([Jump(|e|)]);
  }

  /** Compile a whole function. */
  method CompileFunction(slots: map<string, nat>, params: seq<string>, body: Block) returns (r: Option<Compiled>)
    ensures r == Compile(slots, params, body)
  {
    hide GenStmts, GenExpr, Flat, Ops;
    var comp := new Compiler(slots, params);
    comp.scopes := comp.scopes + [map[]];
    assert comp.CS() == Entry(params);
    ghost var g := GenStmts(slots, body.stmts, Entry(params), false);
    var ok := comp.CompileStmts(body.stmts);
    if !ok {
      return None;
    }
    if body.tail.Some? {
      ghost var d := GenExpr(slots, body.tail.value, comp.nextReg, Alloc(comp.CS()));
      var reg;
      ok, reg := comp.CompileFresh(body.tail.value);
      if !ok {
        return None;
      }
      comp.Emit(Machine.Return(reg));
      ghost var t := d.value.0 + [Machine.Return(reg)];
      FlatConcat(g.value.0, Ops(t));
      FlatOps(t);
    }
    assert GenBody(slots, params, body).Some?;
    assert comp.code == Flat(GenBody(slots, params, body).value.0);
    if !EndsInReturn(comp.code) {
      comp.Emit(ReturnUnit);
    }
    return Some(Compiled(Function(comp.code, comp.consts, []), comp.maxReg));
  }
}
