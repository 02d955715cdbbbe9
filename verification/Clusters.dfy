/** Read clusters: which instructions a batched read may be moved across, and why.

    The optimizer cuts a function's code into blocks. A block that starts with a state read
    runs on until an instruction that breaks the cluster; in it, all the reads are issued
    first, as one batch, and the other instructions follow in their order. Every other block
    is one instruction. */
module Clusters {
  import opened Options
  import opened Machine

  predicate IsRead(i: Instr) { i.KvGet? || i.KvGetPath? }

  function AsReadOp(i: Instr): ReadOp
    requires IsRead(i)
  {
    if i.KvGet? then StateRead(i.dst, i.key) else PathRead(i.dst, i.path)
  }

  function Span(start: nat, n: nat): (s: set<nat>)
    ensures forall r :: r in s <==> start <= r < start + n
  {
    if n == 0 then {} else Span(start, n - 1) + {start + n - 1}
  }

  /** Registers an instruction takes its operands from, as the dependency check sees them. */
  function Sources(i: Instr): set<nat> {
    match i
    case Move(_, src) => {src}
    case Bin(_, _, lhs, rhs) => {lhs, rhs}
    case Un(_, _, src) => {src}
    case IncReg(r) => {r}
    case JumpIfFalse(cond, _) => {cond}
    case Call(_, _, start, n) => Span(start, n)
    case Return(src) => {src}
    case KvPut(src, _) => {src}
    case KvPutPath(src, _) => {src}
    case _ => {}
  }

  /** Registers an instruction writes. */
  function Targets(f: Function, i: Instr): set<nat> {
    match i
    case LoadConst(d, _) => {d}
    case Move(d, _) => {d}
    case Bin(_, d, _, _) => {d}
    case Un(_, d, _) => {d}
    case IncReg(r) => {r}
    case Call(d, _, _, _) => {d}
    case KvGet(d, _) => {d}
    case KvGetPath(d, _) => {d}
    case ReadBatch(g) => if g < |f.groups| then set o | o in f.groups[g] :: o.dst else {}
    case _ => {}
  }

  function Names(f: Function, i: Instr): set<nat> { Sources(i) + Targets(f, i) }

  /** Instructions that end a cluster. `quiet` are the functions classified as writing nothing. */
  predicate Breaker(quiet: set<nat>, i: Instr) {
    match i
    case KvPut(_, _) => true
    case KvPutPath(_, _) => true
    case Call(_, fnIdx, _, _) => fnIdx !in quiet
    case Jump(_) => true
    case JumpIfFalse(_, _) => true
    case Return(_) => true
    case ReturnUnit => true
    case _ => false
  }

  /** Where a cluster that has reached `i` with pending destinations `dsts` ends. */
  function ClusterEnd(quiet: set<nat>, code: seq<Instr>, i: nat, dsts: set<nat>): (e: nat)
    requires i <= |code|
    ensures i <= e <= |code|
    ensures forall k :: i <= k < e ==> IsRead(code[k]) || !Breaker(quiet, code[k])
    decreases |code| - i
  {
    if i == |code| then i
    else if IsRead(code[i]) then ClusterEnd(quiet, code, i + 1, dsts + {code[i].dst})
    else if Breaker(quiet, code[i]) || Sources(code[i]) * dsts != {} then i
    else ClusterEnd(quiet, code, i + 1, dsts)
  }

  /** End of the block that starts at `lo`. */
  function BlockEnd(quiet: set<nat>, code: seq<Instr>, lo: nat): (e: nat)
    requires lo < |code|
    ensures lo < e <= |code|
  {
    if IsRead(code[lo]) then ClusterEnd(quiet, code, lo + 1, {code[lo].dst}) else lo + 1
  }

  function Reads(c: seq<Instr>): (r: seq<ReadOp>)
    ensures |r| <= |c|
  {
    if c == [] then []
    else
      var n := |c| - 1;
      Reads(c[..n]) + if IsRead(c[n]) then [AsReadOp(c[n])] else []
  }

  function Rest(c: seq<Instr>): (r: seq<Instr>)
    ensures |r| + |Reads(c)| == |c|
    ensures forall i :: 0 <= i < |r| ==> r[i] in c && !IsRead(r[i])
  {
    if c == [] then []
    else
      var n := |c| - 1;
      Rest(c[..n]) + if IsRead(c[n]) then [] else [c[n]]
  }

  // ---------- straight-line code ----------

  /** The effect on the registers of an instruction that neither jumps nor writes state. */
  function Apply(k: Kernel, f: Function, i: Instr, regs: seq<Value>, st: State): Result<seq<Value>> {
    match Step(k, f.(code := [i]), Running(0, regs, st))
    case Running(_, regs', _) => Ok(regs')
    case Failed(e) => Err(e)
    case Finished(_, _) => Err(Panic)
  }

  function ApplyAll(k: Kernel, f: Function, c: seq<Instr>, regs: seq<Value>, st: State): Result<seq<Value>> {
    if c == [] then Ok(regs)
    else match ApplyAll(k, f, c[..|c| - 1], regs, st)
         case Err(e) => Err(e)
         case Ok(regs') => Apply(k, f, c[|c| - 1], regs', st)
  }

  ghost predicate Quiet(k: Kernel, quiet: set<nat>, i: Instr) {
    IsRead(i) || !Breaker(quiet, i)
  }

  /** The classification is sound: a quiet function leaves the state as it found it. */
  ghost predicate EffectsSound(k: Kernel, quiet: set<nat>) {
    forall fnIdx, args, st :: fnIdx in quiet ==>
      match k.call(fnIdx, args, st) case Returned(_, st') => st' == st case Raised(_) => true
  }

  ghost predicate InRange(f: Function, c: seq<Instr>, n: nat) {
    forall i, r :: 0 <= i < |c| && r in Names(f, c[i]) ==> r < n
  }

  lemma QuietStep(k: Kernel, f: Function, quiet: set<nat>, pc: nat, regs: seq<Value>, st: State)
    requires pc < |f.code| && Quiet(k, quiet, f.code[pc]) && EffectsSound(k, quiet)
    ensures Step(k, f, Running(pc, regs, st)) ==
      match Apply(k, f, f.code[pc], regs, st) case Ok(regs') => Running(pc + 1, regs', st) case Err(e) => Failed(e)
    ensures Apply(k, f, f.code[pc], regs, st).Ok? ==> |Apply(k, f, f.code[pc], regs, st).value| == |regs|
  {
  }

  lemma {:induction false} ApplySize(k: Kernel, f: Function, quiet: set<nat>, c: seq<Instr>, regs: seq<Value>, st: State)
    requires EffectsSound(k, quiet) && forall i :: 0 <= i < |c| ==> Quiet(k, quiet, c[i])
    ensures ApplyAll(k, f, c, regs, st).Ok? ==> |ApplyAll(k, f, c, regs, st).value| == |regs|
    decreases |c|
  {
    hide Step;
    if c != [] {
      var n := |c| - 1;
      ApplySize(k, f, quiet, c[..n], regs, st);
      if ApplyAll(k, f, c[..n], regs, st).Ok? {
        QuietStep(k, f.(code := [c[n]]), quiet, 0, ApplyAll(k, f, c[..n], regs, st).value, st);
      }
    }
  }

  /** A register an instruction does not name can be written before it or after it. */
  lemma WriteCommutes(k: Kernel, f: Function, quiet: set<nat>, i: Instr, regs: seq<Value>, st: State, d: nat, v: Value)
    requires !IsRead(i) && !Breaker(quiet, i) && d !in Names(f, i) && d < |regs|
    ensures Commutes(k, f, i, regs, st, d, v)
  {
    if i.ReadBatch? {
      if i.group < |f.groups| {
        ScatterFrame(k, f.groups[i.group], regs, st, d, v);
      }
    } else if i.Call? {
      var a, b := i.argsStart, i.argsStart + i.nArgs;
      if b <= |regs| {
        assert regs[d := v][a..b] == regs[a..b];
        FrameWrite(regs, i.dst, d, v);
      }
    } else {
      FrameWrite(regs, if i.IncReg? then i.reg else i.dst, d, v);
    }
  }

  /** Writing `v` to register `d` before `i` and after it come to the same. */
  ghost predicate Commutes(k: Kernel, f: Function, i: Instr, regs: seq<Value>, st: State, d: nat, v: Value)
    requires d < |regs|
  {
    Apply(k, f, i, regs[d := v], st) ==
      match Apply(k, f, i, regs, st) case Err(e) => Err(e) case Ok(regs') => Ok(if d < |regs'| then regs'[d := v] else regs')
  }

  /** The instruction is not stopped by an index that is out of range whatever the registers hold. */
  predicate Runs(f: Function, i: Instr, n: nat) {
    match i
    case LoadConst(_, idx) => idx < |f.consts|
    case Call(_, _, start, nArgs) => start + nArgs <= n
    case ReadBatch(g) => g < |f.groups|
    case _ => true
  }

  /** A kernel that accepts nothing but `Unit`: it notices every operand that was changed. */
  ghost function Picky(): Kernel {
    Kernel(
      (_, a, b) => if a == Unit && b == Unit then Ok(Unit) else Err(Panic),
      (_, a) => if a == Unit then Ok(Unit) else Err(Panic),
      a => if a == Unit then Ok(Unit) else Err(Panic),
      (_, _) => Unit,
      (_, _, st) => st,
      (_, _) => Unit,
      (_, _, st) => st,
      (_, args, st) => if forall x :: x in args ==> x == Unit then Returned(Unit, st) else Raised(Panic))
  }

  lemma {:induction false} ScatterUnits(ops: seq<ReadOp>, regs: seq<Value>, st: State, d: nat)
    requires d < |regs| && Scatter(Picky(), ops, regs, st).Some?
    requires regs[d] == Unit || exists o :: o in ops && o.dst == d
    ensures Scatter(Picky(), ops, regs, st).value[d] == Unit
    decreases |ops|
  {
    if ops != [] {
      var x := ReadValue(Picky(), ops[0], st);
      assert x == Unit;
      ScatterUnits(ops[1..], regs[ops[0].dst := x], st, d);
    }
  }

  function Units(n: nat): (r: seq<Value>)
    ensures |r| == n && forall x :: x in r ==> x == Unit
  {
    seq(n, _ => Unit)
  }

  lemma NamedBatch(f: Function, g: nat, n: nat, st: State, d: nat)
    requires g < |f.groups| && d < n && (exists o :: o in f.groups[g] && o.dst == d)
    requires forall j :: 0 <= j < |f.groups[g]| ==> f.groups[g][j].dst < n
    ensures !Commutes(Picky(), f, ReadBatch(g), Units(n), st, d, Bool(true))
  {
    var i, regs, k := ReadBatch(g), Units(n), Picky();
    ScatterUnits(f.groups[g], regs[d := Bool(true)], st, d);
    assert Apply(k, f, i, regs[d := Bool(true)], st).value[d] == Unit;
    assert Apply(k, f, i, regs, st).Ok?;
  }

  lemma NamedCall(f: Function, i: Instr, n: nat, st: State, d: nat)
    requires i.Call? && d < n && i.dst < n && i.argsStart + i.nArgs <= n
    requires d == i.dst || i.argsStart <= d < i.argsStart + i.nArgs
    ensures !Commutes(Picky(), f, i, Units(n), st, d, Bool(true))
  {
    var regs, k := Units(n), Picky();
    var a, b := i.argsStart, i.argsStart + i.nArgs;
    var args, args' := regs[a..b], regs[d := Bool(true)][a..b];
    assert forall x :: x in args ==> x == Unit;
    assert Apply(k, f, i, regs, st) == Ok(regs[i.dst := Unit]);
    if a <= d < b {
      assert args'[d - a] == Bool(true);
      assert Bool(true) in args';
      assert Apply(k, f, i, regs[d := Bool(true)], st).Err?;
    } else {
      assert args' == args;
      assert Apply(k, f, i, regs[d := Bool(true)], st).value[d] == Unit;
    }
  }

  /** An instruction that puts something other than `v` in `d`. */
  lemma NamedTarget(k: Kernel, f: Function, i: Instr, regs: seq<Value>, st: State, d: nat, v: Value)
    requires d < |regs| && Apply(k, f, i, regs[d := v], st).Ok?
    requires d < |Apply(k, f, i, regs[d := v], st).value| && Apply(k, f, i, regs[d := v], st).value[d] != v
    ensures !Commutes(k, f, i, regs, st, d, v)
  {
    hide Apply;
  }

  lemma NamedOther(f: Function, i: Instr, n: nat, st: State, d: nat, v: Value)
    requires i.Bin? || i.Un? || i.IncReg? || i.Move? || i.LoadConst?
    requires Sources(i) + Targets(f, i) <= Span(0, n) && Runs(f, i, n) && d in Names(f, i) && i != Move(d, d)
    requires v != Unit && (i.LoadConst? ==> f.consts[i.idx] != v)
    ensures d < n && !Commutes(Picky(), f, i, Units(n), st, d, v)
  {
    hide Commutes;
    var regs, k := Units(n), Picky();
    assert forall r :: r in Names(f, i) ==> r in Span(0, n);
    if d in Sources(i) {
      NamedSource(f, i, n, st, d, v);
    } else {
      NamedTarget(k, f, i, regs, st, d, v);
    }
  }

  lemma NamedSource(f: Function, i: Instr, n: nat, st: State, d: nat, v: Value)
    requires i.Bin? || i.Un? || i.IncReg? || i.Move?
    requires forall r :: r in Names(f, i) ==> r < n
    requires d in Sources(i) && v != Unit && d < n && i != Move(d, d)
    ensures !Commutes(Picky(), f, i, Units(n), st, d, v)
  {
    var regs, k := Units(n), Picky();
    if i.Move? {
      assert i.dst in Names(f, i);
      assert Apply(k, f, i, regs[d := v], st) == Ok(regs[d := v][i.dst := v]);
      assert Apply(k, f, i, regs, st) == Ok(regs[i.dst := Unit]);
      assert regs[d := v][i.dst := v][i.dst] != regs[i.dst := Unit][d := v][i.dst];
    } else {
      assert Apply(k, f, i, regs[d := v], st) == Err(Panic);
      assert (if i.IncReg? then i.reg else i.dst) in Names(f, i);
      assert Apply(k, f, i, regs, st).Ok?;
    }
  }

  /** Naming the register is what stands in the way: the picky kernel, registers all `Unit`. */
  lemma NamedDoesNotCommute(f: Function, quiet: set<nat>, i: Instr, n: nat, st: State, d: nat) returns (v: Value)
    requires !IsRead(i) && !Breaker(quiet, i)
    requires InRange(f, [i], n) && Runs(f, i, n) && d < n && d in Names(f, i) && i != Move(d, d)
    ensures !Commutes(Picky(), f, i, Units(n), st, d, v)
  {
    hide Commutes;
    v := if i.LoadConst? && f.consts[i.idx] == Bool(true) then Int(0) else Bool(true);
    forall r | r in Names(f, i) ensures r < n {
      assert [i][0] == i;
    }
    if i.ReadBatch? {
      var ops := f.groups[i.group];
      forall j | 0 <= j < |ops| ensures ops[j].dst < n {
        assert ops[j].dst in Names(f, i);
      }
      NamedBatch(f, i.group, n, st, d);
    } else if i.Call? {
      assert i.dst in Names(f, i);
      NamedCall(f, i, n, st, d);
    } else {
      NamedOther(f, i, n, st, d, v);
    }
  }

  /** When a read may move up across a deferred instruction, for every kernel, register file
      and state: exactly when the instruction does not name the read's destination, apart
      from a move of that register onto itself and an instruction that can only panic. */
  lemma CommutesExactly(f: Function, quiet: set<nat>, i: Instr, n: nat, d: nat)
    requires !IsRead(i) && !Breaker(quiet, i) && InRange(f, [i], n) && d < n
    ensures (forall k: Kernel, regs: seq<Value>, st: State, v: Value | EffectsSound(k, quiet) && |regs| == n ::
               Commutes(k, f, i, regs, st, d, v))
      <==> (d !in Names(f, i) || i == Move(d, d) || !Runs(f, i, n))
  {
    if d in Names(f, i) && i != Move(d, d) && Runs(f, i, n) {
      var v := NamedDoesNotCommute(f, quiet, i, n, map[], d);
      assert EffectsSound(Picky(), quiet);
    } else {
      forall k: Kernel, regs: seq<Value>, st: State, v: Value | EffectsSound(k, quiet) && |regs| == n
        ensures Commutes(k, f, i, regs, st, d, v)
      {
        if d !in Names(f, i) {
          WriteCommutes(k, f, quiet, i, regs, st, d, v);
        } else if Runs(f, i, n) {
          assert regs[d := v][d := v] == regs[d := v] && regs[d := regs[d]] == regs;
        }
      }
    }
  }

  lemma FrameWrite(regs: seq<Value>, dst: nat, d: nat, v: Value)
    requires d < |regs| && dst != d
    ensures dst < |regs| ==> forall x {:trigger regs[dst := x]} :: regs[d := v][dst := x] == regs[dst := x][d := v]
  {
  }

  lemma {:induction false} ScatterFrame(k: Kernel, ops: seq<ReadOp>, regs: seq<Value>, st: State, d: nat, v: Value)
    requires d < |regs| && forall o :: o in ops ==> o.dst != d
    ensures Scatter(k, ops, regs[d := v], st) ==
      match Scatter(k, ops, regs, st) case None => None case Some(r) => Some(r[d := v])
    decreases |ops|
  {
    if ops != [] && ops[0].dst < |regs| {
      var x := ReadValue(k, ops[0], st);
      assert regs[d := v][ops[0].dst := x] == regs[ops[0].dst := x][d := v];
      ScatterFrame(k, ops[1..], regs[ops[0].dst := x], st, d, v);
    }
  }

  lemma {:induction false} FrameAll(
    k: Kernel, f: Function, quiet: set<nat>, c: seq<Instr>, regs: seq<Value>, st: State, d: nat, v: Value)
    requires EffectsSound(k, quiet) && d < |regs|
    requires forall i :: 0 <= i < |c| ==> !IsRead(c[i]) && !Breaker(quiet, c[i]) && d !in Names(f, c[i])
    ensures ApplyAll(k, f, c, regs[d := v], st) ==
      match ApplyAll(k, f, c, regs, st) case Err(e) => Err(e) case Ok(r) => Ok(if d < |r| then r[d := v] else r)
    decreases |c|
  {
    hide Apply, Names;
    if c != [] {
      var n := |c| - 1;
      FrameAll(k, f, quiet, c[..n], regs, st, d, v);
      ApplySize(k, f, quiet, c[..n], regs, st);
      var r := ApplyAll(k, f, c[..n], regs, st);
      if r.Ok? {
        WriteCommutes(k, f, quiet, c[n], r.value, st, d, v);
      }
    }
  }

  lemma {:induction false} ScatterSnoc(k: Kernel, ops: seq<ReadOp>, op: ReadOp, regs: seq<Value>, st: State)
    requires Scatter(k, ops, regs, st).Some? && op.dst < |regs|
    ensures Scatter(k, ops + [op], regs, st) == Some(Scatter(k, ops, regs, st).value[op.dst := ReadValue(k, op, st)])
    decreases |ops|
  {
    if ops == [] {
      assert ops + [op] == [op];
      assert [op][1..] == [];
    } else {
      assert (ops + [op])[1..] == ops[1..] + [op];
      ScatterSnoc(k, ops[1..], op, regs[ops[0].dst := ReadValue(k, ops[0], st)], st);
    }
  }

  /** No deferred instruction names a register that a later read of the cluster writes. */
  ghost predicate HazardFree(f: Function, c: seq<Instr>) {
    forall i, j :: 0 <= i < j < |c| && !IsRead(c[i]) && IsRead(c[j]) ==> c[j].dst !in Names(f, c[i])
  }

  ghost predicate AllQuiet(quiet: set<nat>, c: seq<Instr>) {
    forall i :: 0 <= i < |c| ==> IsRead(c[i]) || !Breaker(quiet, c[i])
  }

  /** Issuing all the reads of a cluster first and the rest after gives the same registers,
      or the same error. */
  lemma {:induction false} ReadsFirst(k: Kernel, f: Function, quiet: set<nat>, c: seq<Instr>, regs: seq<Value>, st: State)
    requires EffectsSound(k, quiet) && AllQuiet(quiet, c) && HazardFree(f, c) && InRange(f, c, |regs|)
    ensures Scatter(k, Reads(c), regs, st).Some?
    ensures ApplyAll(k, f, c, regs, st) == ApplyAll(k, f, Rest(c), Scatter(k, Reads(c), regs, st).value, st)
    decreases |c|
  {
    hide Apply, Names, Breaker, Scatter;
    if c == [] {
      assert Scatter(k, [], regs, st) == Some(regs) by { ScatterNil(k, regs, st); }
    } else {
      var n := |c| - 1;
      var x := c[n];
      ReadsFirst(k, f, quiet, c[..n], regs, st);
      var mid := Scatter(k, Reads(c[..n]), regs, st).value;
      if IsRead(x) {
        ReadMovesUp(k, f, quiet, c, regs, st);
      } else {
        var rest := Rest(c[..n]);
        assert Reads(c) == Reads(c[..n]) && Rest(c) == rest + [x];
        assert (rest + [x])[..|rest|] == rest && (rest + [x])[|rest|] == x;
      }
    }
  }

  /** A last read can be issued before the deferred instructions. */
  lemma ReadMovesUp(k: Kernel, f: Function, quiet: set<nat>, c: seq<Instr>, regs: seq<Value>, st: State)
    requires EffectsSound(k, quiet) && AllQuiet(quiet, c) && HazardFree(f, c) && InRange(f, c, |regs|)
    requires c != [] && IsRead(c[|c| - 1])
    requires var d := c[..|c| - 1];
      && Scatter(k, Reads(d), regs, st).Some?
      && ApplyAll(k, f, d, regs, st) == ApplyAll(k, f, Rest(d), Scatter(k, Reads(d), regs, st).value, st)
    ensures Scatter(k, Reads(c), regs, st).Some?
    ensures ApplyAll(k, f, c, regs, st) == ApplyAll(k, f, Rest(c), Scatter(k, Reads(c), regs, st).value, st)
  {
    hide Apply, Names, Breaker, Scatter;
    var n := |c| - 1;
    var x, d := c[n], c[..n];
    var mid := Scatter(k, Reads(d), regs, st).value;
    ReadTouches(f, x);
    assert Reads(c) == Reads(d) + [AsReadOp(x)] && Rest(c) == Rest(d);
    assert x.dst in Names(f, c[n]);
    ScatterSnoc(k, Reads(d), AsReadOp(x), regs, st);
    ScatterSize(k, Reads(d), regs, st);
    RestNames(f, d, x.dst);
    RestQuiet(quiet, d);
    FrameAll(k, f, quiet, Rest(d), mid, st, x.dst, ReadValue(k, AsReadOp(x), st));
    var r := ApplyAll(k, f, Rest(d), mid, st);
    if r.Ok? {
      ApplySize(k, f, quiet, Rest(d), mid, st);
      ApplyRead(k, f, x, r.value, st);
    }
  }

  lemma ScatterNil(k: Kernel, regs: seq<Value>, st: State)
    ensures Scatter(k, [], regs, st) == Some(regs)
  {
  }

  lemma ScatterSize(k: Kernel, ops: seq<ReadOp>, regs: seq<Value>, st: State)
    ensures Scatter(k, ops, regs, st).Some? ==> |Scatter(k, ops, regs, st).value| == |regs|
  {
  }

  lemma ReadTouches(f: Function, x: Instr)
    requires IsRead(x)
    ensures x.dst in Names(f, x)
  {
  }

  lemma ApplyRead(k: Kernel, f: Function, x: Instr, regs: seq<Value>, st: State)
    requires IsRead(x) && x.dst < |regs|
    ensures Apply(k, f, x, regs, st) == Ok(regs[x.dst := ReadValue(k, AsReadOp(x), st)])
  {
  }

  lemma {:induction false} RestNames(f: Function, c: seq<Instr>, d: nat)
    requires forall i :: 0 <= i < |c| && !IsRead(c[i]) ==> d !in Names(f, c[i])
    ensures forall i :: 0 <= i < |Rest(c)| ==> d !in Names(f, Rest(c)[i])
  {
    hide Names;
    forall i | 0 <= i < |Rest(c)| ensures d !in Names(f, Rest(c)[i]) {
      var j :| 0 <= j < |c| && c[j] == Rest(c)[i];
    }
  }

  lemma RestQuiet(quiet: set<nat>, c: seq<Instr>)
    requires AllQuiet(quiet, c)
    ensures forall i :: 0 <= i < |Rest(c)| ==> !IsRead(Rest(c)[i]) && !Breaker(quiet, Rest(c)[i])
  {
    forall i | 0 <= i < |Rest(c)| ensures !Breaker(quiet, Rest(c)[i]) {
      var j :| 0 <= j < |c| && c[j] == Rest(c)[i];
    }
  }
}
