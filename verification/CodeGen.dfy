/** What the function compiler emits, as a function of the source.

    `break` and `continue` are lowered to jumps whose targets are not known until the end of
    the enclosing loop, so a segment of code may have holes; a loop fills the holes of its
    body. Positions inside a segment are relative to its start, which makes every segment
    position independent. */
module CodeGen {
  import opened Options
  import opened Machine
  import opened Interp

  datatype Slot = Op(instr: Instr) | BreakHole | ContinueHole

  type Registers = seq<map<string, nat>>

  /** The part of the compiler's state that shapes the code: the constant pool, the register
      allocator and the scope stack. */
  datatype CState = CState(consts: seq<Value>, nextReg: nat, maxReg: nat, scopes: Registers)

  function Max(a: nat, b: nat): nat { if a > b then a else b }

  function Alloc(cs: CState): CState {
    cs.(nextReg := cs.nextReg + 1, maxReg := Max(cs.maxReg, cs.nextReg + 1))
  }

  /** Registers are released in stack order: freeing any but the newest does nothing. */
  function Free(cs: CState, r: nat): CState {
    if r + 1 == cs.nextReg then cs.(nextReg := cs.nextReg - 1) else cs
  }

  /** Position of `c` in the pool, or one past the end. */
  function ConstPos(consts: seq<Value>, c: Value): (i: nat)
    ensures i <= |consts|
    ensures i < |consts| ==> consts[i] == c
    ensures i == |consts| ==> c !in consts
  {
    if consts == [] then 0 else if consts[0] == c then 0 else 1 + ConstPos(consts[1..], c)
  }

  function Intern(cs: CState, c: Value): CState {
    if ConstPos(cs.consts, c) < |cs.consts| then cs else cs.(consts := cs.consts + [c])
  }

  /** What compiling any piece of code does to the compiler's state: the constant pool and
      the register high-water mark only grow, the outer scopes are left alone. */
  ghost predicate Grows(cs: CState, cs': CState) {
    && cs.consts <= cs'.consts
    && cs.maxReg <= cs'.maxReg
    && cs.nextReg <= cs'.nextReg
    && (cs.nextReg <= cs.maxReg ==> cs'.nextReg <= cs'.maxReg)
    && |cs.scopes| == |cs'.scopes|
    && (|cs.scopes| > 0 ==> Outer(cs.scopes) == Outer(cs'.scopes))
  }

  function Outer<T>(scopes: seq<T>): seq<T>
    requires |scopes| > 0
  {
    scopes[..|scopes| - 1]
  }

  function GenExpr(slots: map<string, nat>, e: Expr, dst: nat, cs: CState)
    : (r: Option<(seq<Instr>, CState)>)
    ensures r.Some? ==> Grows(cs, r.value.1)
                        && r.value.1.scopes == cs.scopes && r.value.1.nextReg == cs.nextReg
  {
    match e
    case Lit(v) => Some(([LoadConst(dst, ConstPos(cs.consts, v))], Intern(cs, v)))
    case Ident(name) =>
      (match Find(cs.scopes, name)
       case Some(i) => Some((if cs.scopes[i][name] != dst then [Move(dst, cs.scopes[i][name])] else [], cs))
       case None => if name in slots then Some(([KvGet(dst, slots[name])], cs)) else None)
    case Binary(op, l, r) =>
      (match GenExpr(slots, l, dst, cs)
       case None => None
       case Some((lc, cs1)) =>
         var rhs := cs1.nextReg;
         match GenExpr(slots, r, rhs, Alloc(cs1))
         case None => None
         case Some((rc, cs2)) => Some((lc + rc + [Bin(op, dst, dst, rhs)], Free(cs2, rhs))))
    case Unary(op, o) =>
      (match GenExpr(slots, o, dst, cs)
       case None => None
       case Some((oc, cs1)) => Some((oc + [Un(op, dst, dst)], cs1)))
  }

  function Ops(code: seq<Instr>): (s: seq<Slot>)
    ensures |s| == |code| && forall i :: 0 <= i < |code| ==> s[i] == Op(code[i])
  {
    seq(|code|, i requires 0 <= i < |code| => Op(code[i]))
  }

  /** The instruction a slot stands for at relative position `at`, once the targets are known. */
  function FillSlot(s: Slot, at: int, brk: int, cont: int): Instr {
    match s
    case Op(i) => i
    case BreakHole => Jump(brk - at - 1)
    case ContinueHole => Jump(cont - at - 1)
  }

  function Fill(body: seq<Slot>, at: int, brk: int, cont: int): (code: seq<Instr>)
    ensures |code| == |body|
    ensures forall i :: 0 <= i < |body| ==> code[i] == FillSlot(body[i], at + i, brk, cont)
  {
    seq(|body|, i requires 0 <= i < |body| => FillSlot(body[i], at + i, brk, cont))
  }

  type Gen = Option<(seq<Slot>, CState)>

  function GenStmt(slots: map<string, nat>, s: Stmt, cs: CState, inLoop: bool): (r: Gen)
    requires |cs.scopes| > 0
    ensures r.Some? ==> Grows(cs, r.value.1)
    decreases s
  {
    match s
    case Let(name, value) =>
      var r := cs.nextReg;
      (match GenExpr(slots, value, r, Alloc(cs))
       case None => None
       case Some((c, cs1)) =>
         var n := |cs1.scopes| - 1;
         var top: map<string, nat> := cs1.scopes[n][name := r];
         Some((Ops(c), cs1.(scopes := cs1.scopes[n := top]))))
    case Assign(name, value) =>
      var r := cs.nextReg;
      (match GenExpr(slots, value, r, Alloc(cs))
       case None => None
       case Some((c, cs1)) =>
         match Find(cs1.scopes, name)
         case Some(i) =>
           var local := cs1.scopes[i][name];
           Some((Ops(c + if r != local then [Move(local, r)] else []), Free(cs1, r)))
         case None =>
           if name in slots then Some((Ops(c + [KvPut(r, slots[name])]), Free(cs1, r))) else None)
    case ReturnStmt(None) => Some(([Op(ReturnUnit)], cs))
    case ReturnStmt(Some(e)) =>
      var r := cs.nextReg;
      (match GenExpr(slots, e, r, Alloc(cs))
       case None => None
       case Some((c, cs1)) => Some((Ops(c + [Return(r)]), Free(cs1, r))))
    case If(ifs) => GenIf(slots, ifs, cs, inLoop)
    case While(cond, body) =>
      var r := cs.nextReg;
      (match GenExpr(slots, cond, r, Alloc(cs))
       case None => None
       case Some((c, cs1)) =>
         match GenBlock(slots, body, Free(cs1, r), true)
         case None => None
         case Some((b, cs2)) => Some((Ops(Loop(c, r, b)), cs2)))
    case Break => if inLoop then Some(([BreakHole], cs)) else None
    case Continue => if inLoop then Some(([ContinueHole], cs)) else None
    case ExprStmt(e) =>
      var r := cs.nextReg;
      (match GenExpr(slots, e, r, Alloc(cs))
       case None => None
       case Some((c, cs1)) => Some((Ops(c), Free(cs1, r))))
  }

  /** A loop: condition, exit test, body with its holes filled, back edge. */
  function Loop(cond: seq<Instr>, r: nat, body: seq<Slot>): seq<Instr> {
    var end := |cond| + |body| + 2;
    cond + [JumpIfFalse(r, |body| + 1)] + Fill(body, |cond| + 1, end, 0) + [Jump(-end)]
  }

  function Branch(cond: seq<Instr>, r: nat, thn: seq<Slot>, els: seq<Slot>): seq<Slot> {
    Ops(cond + [JumpIfFalse(r, |thn| + 1)]) + thn + [Op(Jump(|els|))] + els
  }

  function GenIf(slots: map<string, nat>, ifs: IfStmt, cs: CState, inLoop: bool): (r: Gen)
    requires |cs.scopes| > 0
    ensures r.Some? ==> Grows(cs, r.value.1)
                        && r.value.1.scopes == cs.scopes && r.value.1.nextReg == cs.nextReg
    decreases ifs
  {
    var r := cs.nextReg;
    match GenExpr(slots, ifs.cond, r, Alloc(cs))
    case None => None
    case Some((c, cs1)) =>
      match GenBlock(slots, ifs.thn, Free(cs1, r), inLoop)
      case None => None
      case Some((t, cs2)) =>
        match ifs.els
        case NoElse => Some((Branch(c, r, t, []), cs2))
        case ElseBlock(b) =>
          (match GenBlock(slots, b, cs2, inLoop)
           case None => None
           case Some((e, cs3)) => Some((Branch(c, r, t, e), cs3)))
        case ElseIf(nested) =>
          match GenIf(slots, nested, cs2, inLoop)
          case None => None
          case Some((e, cs3)) => Some((Branch(c, r, t, e), cs3))
  }

  function GenStmts(slots: map<string, nat>, ss: Stmts, cs: CState, inLoop: bool): (r: Gen)
    requires |cs.scopes| > 0
    ensures r.Some? ==> Grows(cs, r.value.1)
    decreases ss
  {
    match ss
    case Nil => Some(([], cs))
    case Cons(s, rest) =>
      match GenStmt(slots, s, cs, inLoop)
      case None => None
      case Some((c, cs1)) =>
        match GenStmts(slots, rest, cs1, inLoop)
        case None => None
        case Some((d, cs2)) => Some((c + d, cs2))
  }

  /** A block in statement position; registers and names it introduced are released at its end. */
  function GenBlock(slots: map<string, nat>, b: Block, cs: CState, inLoop: bool): (r: Gen)
    ensures r.Some? ==> Grows(cs, r.value.1)
                        && r.value.1.scopes == cs.scopes && r.value.1.nextReg == cs.nextReg
    decreases b
  {
    match GenStmts(slots, b.stmts, cs.(scopes := cs.scopes + [map[]]), inLoop)
    case None => None
    case Some((c, cs1)) =>
      match b.tail
      case None => Some((c, cs1.(nextReg := cs.nextReg, scopes := Outer(cs1.scopes))))
      case Some(e) =>
        var r := cs1.nextReg;
        match GenExpr(slots, e, r, Alloc(cs1))
        case None => None
        case Some((d, cs2)) => Some((c + Ops(d), cs2.(nextReg := cs.nextReg, scopes := Outer(cs2.scopes))))
  }
}
