/** The register machine that runs compiled functions.

    A function is a vector of instructions over a register file. Every jump is relative to
    the instruction after the jump. What the machine shares with the tree-walking
    interpreter (the arithmetic kernel, the typed state reads and writes, function calls) is
    a record of functions, so that every theorem about the machine holds for all of them. */
module Machine {
  import opened Options

  datatype Result<+T> = Ok(value: T) | Err(error: Error)

  datatype Error =
    | OpError(code: nat)           // raised by the shared kernel: overflow, division by zero, ...
    | CondNotBool                  // `if`/`while` condition is not a bool (interpreter only)
    | Undefined(name: string)
    | PcOutOfBounds                // instruction pointer past the end of the code
    | Panic                        // register, constant or group index out of range

  datatype Value = Unit | Bool(b: bool) | Int(n: int) | Str(s: string)

  datatype BinOp = Add | Sub | Mul | Div | Mod | Lt | Gt | LtEq | GtEq | Eq | NotEq | And | Or

  datatype UnOp = Neg | Not

  /** Everything a transaction can observe of the store. */
  type State = map<nat, Value>

  datatype CallResult = Returned(value: Value, st: State) | Raised(error: Error)

  /** The operations the interpreter and the machine share. `get`/`put` address a declared
      state slot, `getPath`/`putPath` a leaf cell beneath a struct state. */
  datatype Kernel = Kernel(
    bin: (BinOp, Value, Value) -> Result<Value>,
    un: (UnOp, Value) -> Result<Value>,
    inc: Value -> Result<Value>,
    get: (nat, State) -> Value,
    put: (nat, Value, State) -> State,
    getPath: (nat, State) -> Value,
    putPath: (nat, Value, State) -> State,
    call: (nat, seq<Value>, State) -> CallResult)

  datatype Instr =
    | LoadConst(dst: nat, idx: nat)
    | Move(dst: nat, src: nat)
    | Bin(bop: BinOp, dst: nat, lhs: nat, rhs: nat)
    | Un(uop: UnOp, dst: nat, src: nat)
    | IncReg(reg: nat)
    | Jump(offset: int)
    | JumpIfFalse(cond: nat, offset: int)
    | Call(dst: nat, fnIdx: nat, argsStart: nat, nArgs: nat)
    | Return(src: nat)
    | ReturnUnit
    | KvGet(dst: nat, key: nat)
    | KvPut(src: nat, key: nat)
    | KvGetPath(dst: nat, path: nat)
    | KvPutPath(src: nat, path: nat)
    | ReadBatch(group: nat)

  /** One read of a batch. */
  datatype ReadOp = StateRead(dst: nat, key: nat) | PathRead(dst: nat, path: nat)

  datatype Function = Function(code: seq<Instr>, consts: seq<Value>, groups: seq<seq<ReadOp>>)

  datatype Config =
    | Running(pc: int, regs: seq<Value>, st: State)
    | Finished(value: Value, st: State)
    | Failed(error: Error)

  function ReadValue(k: Kernel, op: ReadOp, st: State): Value {
    match op
    case StateRead(_, key) => k.get(key, st)
    case PathRead(_, path) => k.getPath(path, st)
  }

  /** `ReadBatch`: all the values are fetched, then scattered in order. */
  function Scatter(k: Kernel, ops: seq<ReadOp>, regs: seq<Value>, st: State): (r: Option<seq<Value>>)
    ensures r.Some? ==> |r.value| == |regs|
    ensures r.Some? <==> forall i :: 0 <= i < |ops| ==> ops[i].dst < |regs|
  {
    if ops == [] then Some(regs)
    else if ops[0].dst >= |regs| then None
    else Scatter(k, ops[1..], regs[ops[0].dst := ReadValue(k, ops[0], st)], st)
  }

  function Write(pc: int, regs: seq<Value>, st: State, dst: nat, v: Result<Value>): Config {
    match v
    case Err(e) => Failed(e)
    case Ok(x) => if dst < |regs| then Running(pc + 1, regs[dst := x], st) else Failed(Panic)
  }

  /** One iteration of the dispatch loop. */
  function Step(k: Kernel, f: Function, c: Config): Config {
    if !c.Running? then c
    else if !(0 <= c.pc < |f.code|) then Failed(PcOutOfBounds)
    else
      var Running(pc, regs, st) := c;
      match f.code[pc]
      case LoadConst(dst, idx) =>
        if idx < |f.consts| then Write(pc, regs, st, dst, Ok(f.consts[idx])) else Failed(Panic)
      case Move(dst, src) =>
        if src < |regs| then Write(pc, regs, st, dst, Ok(regs[src])) else Failed(Panic)
      case Bin(op, dst, lhs, rhs) =>
        if lhs < |regs| && rhs < |regs| then Write(pc, regs, st, dst, k.bin(op, regs[lhs], regs[rhs]))
        else Failed(Panic)
      case Un(op, dst, src) =>
        if src < |regs| then Write(pc, regs, st, dst, k.un(op, regs[src])) else Failed(Panic)
      case IncReg(r) =>
        if r < |regs| then Write(pc, regs, st, r, k.inc(regs[r])) else Failed(Panic)
      case Jump(offset) => Running(pc + 1 + offset, regs, st)
      case JumpIfFalse(cond, offset) =>
        if cond >= |regs| then Failed(Panic)
        else if regs[cond] == Bool(false) then Running(pc + 1 + offset, regs, st)
        else Running(pc + 1, regs, st)
      case Call(dst, fnIdx, argsStart, nArgs) =>
        if argsStart + nArgs > |regs| then Failed(Panic)
        else (match k.call(fnIdx, regs[argsStart..argsStart + nArgs], st)
              case Raised(e) => Failed(e)
              case Returned(v, st') => Write(pc, regs, st', dst, Ok(v)))
      case Return(src) => if src < |regs| then Finished(regs[src], st) else Failed(Panic)
      case ReturnUnit => Finished(Unit, st)
      case KvGet(dst, key) => Write(pc, regs, st, dst, Ok(k.get(key, st)))
      case KvPut(src, key) =>
        if src < |regs| then Running(pc + 1, regs, k.put(key, regs[src], st)) else Failed(Panic)
      case KvGetPath(dst, path) => Write(pc, regs, st, dst, Ok(k.getPath(path, st)))
      case KvPutPath(src, path) =>
        if src < |regs| then Running(pc + 1, regs, k.putPath(path, regs[src], st)) else Failed(Panic)
      case ReadBatch(group) =>
        if group >= |f.groups| then Failed(Panic)
        else (match Scatter(k, f.groups[group], regs, st)
              case None => Failed(Panic)
              case Some(regs') => Running(pc + 1, regs', st))
  }

  /** The dispatch loop given `fuel` ticks. */
  function Run(k: Kernel, f: Function, c: Config, fuel: nat): Config
    decreases fuel
  {
    if fuel == 0 then c else Run(k, f, Step(k, f, c), fuel - 1)
  }

  lemma {:induction false} RunCompose(k: Kernel, f: Function, c: Config, m: nat, n: nat)
    ensures Run(k, f, c, m + n) == Run(k, f, Run(k, f, c, m), n)
    decreases m
  {
    if m > 0 {
      RunCompose(k, f, Step(k, f, c), m - 1, n);
    }
  }

  lemma {:induction false} RunAbsorbing(k: Kernel, f: Function, c: Config, n: nat)
    requires !c.Running?
    ensures Run(k, f, c, n) == c
  {
    if n > 0 {
      RunAbsorbing(k, f, c, n - 1);
    }
  }

  /** A run that is still going after `n` ticks was still going after fewer. */
  lemma RunPrefix(k: Kernel, f: Function, c: Config, m: nat, n: nat)
    requires m <= n && Run(k, f, c, n).Running?
    ensures Run(k, f, c, m).Running?
  {
    RunCompose(k, f, c, m, n - m);
    if !Run(k, f, c, m).Running? {
      RunAbsorbing(k, f, Run(k, f, c, m), n - m);
    }
  }

  /** The machine, started at `start`, comes to configuration `c`. */
  ghost predicate Halts(k: Kernel, f: Function, start: Config, c: Config) {
    exists n: nat :: Run(k, f, start, n) == c
  }

  /** A run ends in one way only. */
  lemma OneEnd(k: Kernel, f: Function, c: Config, m: nat, n: nat)
    requires !Run(k, f, c, m).Running? && !Run(k, f, c, n).Running?
    ensures Run(k, f, c, m) == Run(k, f, c, n)
  {
    if m <= n {
      RunCompose(k, f, c, m, n - m);
      RunAbsorbing(k, f, Run(k, f, c, m), n - m);
    } else {
      OneEnd(k, f, c, n, m);
    }
  }
}
