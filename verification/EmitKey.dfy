/** Bytecode for index keys, checked against the interpreter's projection. */
module EmitKey {
  import opened Options
  import opened Bytes
  import opened IndexKeys

  datatype Builtin = ToBe | Not | Concat

  datatype Instr =
    | FieldGet(dst: nat, src: nat, name: string)
    | Move(dst: nat, src: nat)
    | Call(dst: nat, op: Builtin, args: nat, count: nat)

  type Regs = map<nat, Value>

  function Reg(regs: Regs, r: nat): Value { if r in regs then regs[r] else Opaque(0) }

  function Apply(op: Builtin, regs: Regs, args: nat, count: nat): Option<Value> {
    match op
    case ToBe =>
      var b := ToBeBytes(Reg(regs, args));
      if count == 1 && b.Some? then Some(Raw(b.value)) else None
    case Not => if count == 1 && Reg(regs, args).Raw? then Some(Raw(BitNot(Reg(regs, args).bytes))) else None
    case Concat =>
      if count == 2 && Reg(regs, args).Raw? && Reg(regs, args + 1).Raw?
      then Some(Raw(Reg(regs, args).bytes + Reg(regs, args + 1).bytes)) else None
  }

  function Step(i: Instr, regs: Regs): Option<Regs> {
    var v :=
      match i
      case FieldGet(_, src, name) => GetField(Reg(regs, src), name)
      case Move(_, src) => Some(Reg(regs, src))
      case Call(_, op, args, count) => Apply(op, regs, args, count);
    if v.Some? then Some(regs[i.dst := v.value]) else None
  }

  /** Straight-line code; `None` is a runtime error. */
  function Run(code: seq<Instr>, regs: Regs): Option<Regs>
    decreases |code|
  {
    if code == [] then Some(regs)
    else
      match Run(code[..|code| - 1], regs)
      case None => None
      case Some(r) => Step(code[|code| - 1], r)
  }

  lemma {:induction false} RunConcat(a: seq<Instr>, b: seq<Instr>, regs: Regs)
    ensures Run(a + b, regs) == match Run(a, regs) case None => None case Some(r) => Run(b, r)
    decreases |b|
  {
    if b == [] {
      assert a + b == a;
    } else {
      var n := |b| - 1;
      assert (a + b)[..|a + b| - 1] == a + b[..n];
      RunConcat(a, b[..n], regs);
    }
  }

  lemma RunOne(i: Instr, regs: Regs)
    ensures Run([i], regs) == Step(i, regs)
  {
    assert [i][..0] == [];
  }

  // ---------- what emitted code promises ----------

  /** Registers below `floor` survive. */
  ghost predicate Spares(before: Regs, after: Regs, floor: nat) {
    forall r: nat :: r < floor ==> Reg(after, r) == Reg(before, r)
  }

  /** The code fails exactly when there is no value, and otherwise leaves it in `res`. */
  ghost predicate Leaves(code: seq<Instr>, regs: Regs, want: Option<Value>, res: nat, floor: nat) {
    match want
    case None => Run(code, regs) == None
    case Some(v) => Run(code, regs).Some? && Reg(Run(code, regs).value, res) == v && Spares(regs, Run(code, regs).value, floor)
  }

  ghost predicate WalkCode(code: seq<Instr>, path: seq<string>, src: nat, res: nat, floor: nat) {
    forall regs :: Leaves(code, regs, Walk(path, Reg(regs, src)), res, floor)
  }

  function AsValue(b: Option<seq<byte>>): Option<Value> {
    match b
    case None => None
    case Some(s) => Some(Raw(s))
  }

  ghost predicate PartCode(code: seq<Instr>, f: Field, src: nat, res: nat, floor: nat) {
    forall regs :: Leaves(code, regs, AsValue(Part(f, Reg(regs, src))), res, floor)
  }

  ghost predicate PackCode(code: seq<Instr>, fields: seq<Field>, src: nat, res: nat, floor: nat) {
    forall regs :: Leaves(code, regs, AsValue(Pack(fields, Reg(regs, src))), res, floor)
  }

  ghost predicate KeyCode(code: seq<Instr>, fields: seq<Field>, src: nat, res: nat, floor: nat) {
    forall regs :: Leaves(code, regs, Key(fields, Reg(regs, src)), res, floor)
  }

  // ---------- the emitter ----------

  class Emitter {
    var code: seq<Instr>
    var next: nat

    constructor (next: nat)
      ensures code == [] && this.next == next
    {
      code := [];
      this.next := next;
    }

    method Alloc() returns (r: nat)
      modifies this
      ensures r == old(next) && next == r + 1 && code == old(code)
    {
      r := next;
      next := next + 1;
    }

    /** Only the topmost register can be given back. */
    method Free(r: nat)
      modifies this
      ensures next == (if r + 1 == old(next) then r else old(next)) && code == old(code)
    {
      if r + 1 == next {
        next := next - 1;
      }
    }

    method Push(i: Instr)
      modifies this
      ensures code == old(code) + [i] && next == old(next)
    {
      code := code + [i];
    }

    method EmitFieldPath(path: seq<string>, src: nat) returns (res: nat, ghost seg: seq<Instr>)
      requires src < next
      modifies this
      ensures code == old(code) + seg && WalkCode(seg, path, src, res, old(next))
      ensures res < next && old(next) <= next && (res == src || res >= old(next))
    {
      hide Walk, Run, Leaves;
      res, seg := src, [];
      var owned := false;
      NoSteps(src, next);
      for i := 0 to |path|
        invariant code == old(code) + seg && WalkCode(seg, path[..i], src, res, old(next))
        invariant old(next) <= next && res < next && (res == src || res >= old(next))
      {
        var r := Alloc();
        Push(FieldGet(r, res, path[i]));
        StepDeeper(seg, path, i, src, res, r, old(next));
        seg := seg + [FieldGet(r, res, path[i])];
        if owned {
          Free(res);
        }
        res, owned := r, true;
      }
      assert path[..|path|] == path;
    }

    /** Project one field and encode it. */
    method EmitPart(f: Field, src: nat) returns (part: nat, ghost seg: seq<Instr>)
      requires src < next
      modifies this
      ensures code == old(code) + seg && PartCode(seg, f, src, part, old(next))
      ensures old(next) <= part < next
    {
      hide Walk, Run, Leaves, Step;
      var projected;
      projected, seg := EmitFieldPath(f.path, src);
      part := Alloc();
      Push(Move(part, projected));
      Free(projected);
      Push(Call(part, ToBe, part, 1));
      ghost var encode := [Move(part, projected), Call(part, ToBe, part, 1)];
      if f.direction == Desc {
        Push(Call(part, Not, part, 1));
        encode := encode + [Call(part, Not, part, 1)];
      }
      Encoded(seg, f, src, projected, part, old(next));
      seg := seg + encode;
    }

    /** Append one more part to the packed bytes. */
    method EmitConcat(prev: nat, part: nat) returns (args: nat, ghost seg: seq<Instr>)
      requires prev < part < next
      modifies this
      ensures code == old(code) + seg && args == old(next) && args < next
      ensures seg == [Move(args, prev), Move(args + 1, part), Call(args, Concat, args, 2)]
    {
      args := Alloc();
      var second := Alloc();
      Push(Move(args, prev));
      Push(Move(args + 1, part));
      Free(prev);
      Free(part);
      Push(Call(args, Concat, args, 2));
      Free(args + 1);
      seg := [Move(args, prev), Move(args + 1, part), Call(args, Concat, args, 2)];
    }

    /** The emitted code computes the interpreter's key for every record, fails exactly when the
        interpreter fails, and leaves every register that was live alone. */
    method EmitIndexKey(fields: seq<Field>, src: nat) returns (res: nat, ghost seg: seq<Instr>)
      requires src < next && fields != []
      modifies this
      ensures code == old(code) + seg && KeyCode(seg, fields, src, res, old(next)) && res < next
    {
      hide Walk, Run, Leaves, Pack, Part;
      if Direct(fields) {
        res, seg := EmitFieldPath(fields[0].path, src);
        return;
      }
      res, seg := EmitPart(fields[0], src);
      FirstPart(seg, fields, src, res, old(next));
      for i := 1 to |fields|
        invariant code == old(code) + seg && PackCode(seg, fields[..i], src, res, old(next))
        invariant old(next) <= res < next
      {
        ghost var floor := next;
        var part, more := EmitPart(fields[i], src);
        var args, join := EmitConcat(res, part);
        Joined(seg, fields, i, src, res, more, part, floor, join, args, old(next));
        seg := seg + more + join;
        res := args;
      }
      assert fields[..|fields|] == fields;
    }
  }

  lemma NoSteps(src: nat, floor: nat)
    ensures WalkCode([], [], src, src, floor)
  {
  }

  lemma StepDeeper(seg: seq<Instr>, path: seq<string>, i: nat, src: nat, res: nat, r: nat, floor: nat)
    requires i < |path| && WalkCode(seg, path[..i], src, res, floor) && r >= floor
    ensures WalkCode(seg + [FieldGet(r, res, path[i])], path[..i + 1], src, r, floor)
  {
    var get := FieldGet(r, res, path[i]);
    assert path[..i + 1][..i] == path[..i];
    forall regs ensures Leaves(seg + [get], regs, Walk(path[..i + 1], Reg(regs, src)), r, floor) {
      assert Leaves(seg, regs, Walk(path[..i], Reg(regs, src)), res, floor);
      RunConcat(seg, [get], regs);
      if Run(seg, regs).Some? {
        RunOne(get, Run(seg, regs).value);
      }
    }
  }

  /** `Move`, encode, and invert if descending. */
  function Encoder(f: Field, projected: nat, part: nat): seq<Instr> {
    [Move(part, projected), Call(part, ToBe, part, 1)] + if f.direction == Desc then [Call(part, Not, part, 1)] else []
  }

  lemma EncoderRun(f: Field, regs: Regs, projected: nat, part: nat)
    ensures var b := ToBeBytes(Reg(regs, projected));
      var r := Run(Encoder(f, projected, part), regs);
      if b.None? then r == None
      else r.Some? && Reg(r.value, part) == Raw(if f.direction == Desc then BitNot(b.value) else b.value)
           && Spares(regs, r.value, part)
  {
    var move, enc, inv := Move(part, projected), Call(part, ToBe, part, 1), Call(part, Not, part, 1);
    RunOne(move, regs);
    RunConcat([move], [enc], regs);
    assert [move] + [enc] == [move, enc];
    RunOne(enc, Step(move, regs).value);
    RunConcat([move, enc], [inv], regs);
    if Run([move, enc], regs).Some? {
      RunOne(inv, Run([move, enc], regs).value);
    }
    assert [move, enc] + [] == [move, enc];
  }

  lemma Encoded(seg: seq<Instr>, f: Field, src: nat, projected: nat, part: nat, floor: nat)
    requires WalkCode(seg, f.path, src, projected, floor) && part >= floor
    ensures PartCode(seg + Encoder(f, projected, part), f, src, part, floor)
    ensures Encoder(f, projected, part) ==
      if f.direction == Desc then [Move(part, projected), Call(part, ToBe, part, 1)] + [Call(part, Not, part, 1)]
      else [Move(part, projected), Call(part, ToBe, part, 1)]
  {
    hide Walk, Run, Encoder, ToBeBytes, BitNot;
    forall regs ensures Leaves(seg + Encoder(f, projected, part), regs, AsValue(Part(f, Reg(regs, src))), part, floor) {
      assert Leaves(seg, regs, Walk(f.path, Reg(regs, src)), projected, floor);
      RunConcat(seg, Encoder(f, projected, part), regs);
      if Run(seg, regs).Some? {
        EncoderRun(f, Run(seg, regs).value, projected, part);
      }
    }
    EncoderIs(f, projected, part);
  }

  lemma EncoderIs(f: Field, projected: nat, part: nat)
    ensures Encoder(f, projected, part) ==
      if f.direction == Desc then [Move(part, projected), Call(part, ToBe, part, 1)] + [Call(part, Not, part, 1)]
      else [Move(part, projected), Call(part, ToBe, part, 1)]
  {
  }

  lemma FirstPart(seg: seq<Instr>, fields: seq<Field>, src: nat, res: nat, floor: nat)
    requires fields != [] && PartCode(seg, fields[0], src, res, floor)
    ensures PackCode(seg, fields[..1], src, res, floor)
  {
    hide Part, Leaves;
    forall regs ensures Leaves(seg, regs, AsValue(Pack(fields[..1], Reg(regs, src))), res, floor) {
      assert Leaves(seg, regs, AsValue(Part(fields[0], Reg(regs, src))), res, floor);
      PackOne(fields, Reg(regs, src));
    }
  }

  lemma PackOne(fields: seq<Field>, v: Value)
    requires fields != []
    ensures Pack(fields[..1], v) == Part(fields[0], v)
  {
    assert fields[..1][1..] == [];
    match Part(fields[0], v)
    case None =>
    case Some(b) => assert b + [] == b;
  }

  lemma JoinRun(regs: Regs, prev: nat, part: nat, args: nat)
    requires prev < args && part < args && Reg(regs, prev).Raw? && Reg(regs, part).Raw?
    ensures var r := Run([Move(args, prev), Move(args + 1, part), Call(args, Concat, args, 2)], regs);
      r.Some? && Reg(r.value, args) == Raw(Reg(regs, prev).bytes + Reg(regs, part).bytes)
      && Spares(regs, r.value, args)
  {
    var a, b, c := Move(args, prev), Move(args + 1, part), Call(args, Concat, args, 2);
    RunOne(a, regs);
    RunConcat([a], [b], regs);
    assert [a] + [b] == [a, b] && [a, b] + [c] == [a, b, c];
    var r1 := Step(a, regs).value;
    RunOne(b, r1);
    RunConcat([a, b], [c], regs);
    RunOne(c, Step(b, r1).value);
  }

  lemma Joined(seg: seq<Instr>, fields: seq<Field>, i: nat, src: nat, res: nat, more: seq<Instr>, part: nat, top: nat,
               join: seq<Instr>, args: nat, floor: nat)
    requires i < |fields| && src < floor <= res < top <= part < args
    requires PackCode(seg, fields[..i], src, res, floor) && PartCode(more, fields[i], src, part, top)
    requires join == [Move(args, res), Move(args + 1, part), Call(args, Concat, args, 2)]
    ensures PackCode(seg + more + join, fields[..i + 1], src, args, floor)
  {
    assert fields[..i + 1] == fields[..i] + [fields[i]];
    forall regs ensures Leaves(seg + more + join, regs, AsValue(Pack(fields[..i + 1], Reg(regs, src))), args, floor) {
      JoinedOne(seg, fields, i, src, res, more, part, top, join, args, floor, regs);
    }
  }

  lemma JoinedOne(seg: seq<Instr>, fields: seq<Field>, i: nat, src: nat, res: nat, more: seq<Instr>, part: nat, top: nat,
                  join: seq<Instr>, args: nat, floor: nat, regs: Regs)
    requires i < |fields| && src < floor <= res < top <= part < args
    requires PackCode(seg, fields[..i], src, res, floor) && PartCode(more, fields[i], src, part, top)
    requires join == [Move(args, res), Move(args + 1, part), Call(args, Concat, args, 2)]
    requires fields[..i + 1] == fields[..i] + [fields[i]]
    ensures Leaves(seg + more + join, regs, AsValue(Pack(fields[..i + 1], Reg(regs, src))), args, floor)
  {
    hide *;
    var v := Reg(regs, src);
    PackSnoc(fields[..i], fields[i], v);
    RunConcat(seg, more, regs);
    RunConcat(seg + more, join, regs);
    PackCodeAt(seg, fields[..i], src, res, floor, regs);
    if Pack(fields[..i], v).Some? {
      var r := Run(seg, regs).value;
      PartCodeAt(more, fields[i], src, part, top, r);
      if Part(fields[i], v).Some? {
        var r' := Run(more, r).value;
        Spared(r, r', top, res);
        JoinRun(r', res, part, args);
        SparesThree(regs, r, r', Run(join, r').value, floor, top, args);
      }
    }
    LeavesIs(seg + more + join, regs, AsValue(Pack(fields[..i + 1], v)), args, floor);
    AsValueIs(Pack(fields[..i + 1], v));
  }

  lemma AsValueIs(b: Option<seq<byte>>)
    ensures AsValue(b) == match b case None => None case Some(s) => Some(Raw(s))
  {
  }

  lemma LeavesIs(code: seq<Instr>, regs: Regs, want: Option<Value>, res: nat, floor: nat)
    ensures Leaves(code, regs, want, res, floor) <==>
      match want
      case None => Run(code, regs) == None
      case Some(v) => Run(code, regs).Some? && Reg(Run(code, regs).value, res) == v && Spares(regs, Run(code, regs).value, floor)
  {
  }

  lemma PackCodeAt(seg: seq<Instr>, fields: seq<Field>, src: nat, res: nat, floor: nat, regs: Regs)
    requires PackCode(seg, fields, src, res, floor) && src < floor
    ensures match Pack(fields, Reg(regs, src))
            case None => Run(seg, regs) == None
            case Some(b) =>
              && Run(seg, regs).Some? && Reg(Run(seg, regs).value, res) == Raw(b)
              && Spares(regs, Run(seg, regs).value, floor)
              && Reg(Run(seg, regs).value, src) == Reg(regs, src)
  {
    hide Pack, Run;
    assert Leaves(seg, regs, AsValue(Pack(fields, Reg(regs, src))), res, floor);
  }

  lemma PartCodeAt(seg: seq<Instr>, f: Field, src: nat, res: nat, floor: nat, regs: Regs)
    requires PartCode(seg, f, src, res, floor)
    ensures match Part(f, Reg(regs, src))
            case None => Run(seg, regs) == None
            case Some(b) =>
              Run(seg, regs).Some? && Reg(Run(seg, regs).value, res) == Raw(b) && Spares(regs, Run(seg, regs).value, floor)
  {
    hide Part, Run;
    assert Leaves(seg, regs, AsValue(Part(f, Reg(regs, src))), res, floor);
  }

  lemma Spared(before: Regs, after: Regs, floor: nat, r: nat)
    requires Spares(before, after, floor) && r < floor
    ensures Reg(after, r) == Reg(before, r)
  {
  }

  lemma SparesThree(a: Regs, b: Regs, c: Regs, d: Regs, floor: nat, top: nat, args: nat)
    requires Spares(a, b, floor) && Spares(b, c, top) && Spares(c, d, args) && floor <= top <= args
    ensures Spares(a, d, floor)
  {
  }
}
