/** Instructions on the wire: an opcode byte and its operands, at fixed widths and in a fixed order. */
module Instrs {
  import opened Options
  import opened Bytes
  import opened Wire

  datatype Width = Word8 | Word16 | Word32 | Signed32 | OneBit | BinCode | UnCode | Opt16

  type Layout = seq<(Name, Width)>

  datatype BinOp =
    | Add | Sub | Mul | Div | Mod | Eq | NotEq | Lt | Gt | LtEq | GtEq | And | Or
    | BitAnd | BitOr | BitXor | Shl | Shr

  datatype UnOp = Neg | Not

  /** Registers, indexes and offsets are numbers, an absent optional register -1. */
  datatype Operand = Number(n: int) | Infix(bop: BinOp) | Prefix(uop: UnOp)

  /** An instruction is an opcode with named operands. */
  datatype Instr = Plain(op: Op, args: map<Name, Operand>) | ParallelBegin(ranges: seq<Range>, afterPc: nat)

  datatype Range = Range(start: nat, end: nat, dst: int)

  datatype Op =
    | LoadConst | Move | Bin | Un | Jump | JumpIfFalse | Call | CallHost | CallExternal | Return | ReturnUnit
    | BuiltinResource | BuiltinUnwrap | BuiltinAddress | BuiltinLen | Convert | MakeArray | ArrayGet
    | ArrayAppend | MakeSet | MakeDict | BuiltinCall | MakeStruct | FieldGet | FieldSet | KvGet | KvPut
    | KvGetPath | KvPutPath | ReadBatch | PrefetchMap | Emit | ParallelYield | ParallelForBegin | ArrayAlloc
    | Reserve | ParallelForSkip | Context | MakeTuple | TupleGet | MakeEnum | EnumTag | EnumPayload | MapGet
    | MapPut | PMapGet | PMapPut | PMapContains | PVecGet | PVecSet | PVecPush | PVecLen | IncReg
    | CallExternalDyn | MakeInterface | PMapEntries | PMapKeys | PMapValues | PVecToArray | PMapAppendUnique
    | PMapPutUnique | PMapWalkInit | PMapWalkNext | PBTreeGet | PBTreePut | PBTreeContains | PBTreeRange
    | PBTreeWalkInit | PBTreeWalkNext | PBTreePutUnique | PBTreeAppendUnique | PMapDelete | PBTreeDelete
    | PMapRemoveUnique | PMapRemoveFromList | PBTreeRemoveUnique | PBTreeRemoveFromList

  datatype Name =
    | AfterPc | ArgsStart | Arr | ArrReg | BodyEnd | BodyStart | Bop | Cond | CountReg | CursorReg
    | DefaultReg | Dst | Elem | ElemReg | EndOffset | ExpectedReg | FnIdx | FnNameIdx | GroupIdx | HiReg
    | IdReg | Idx | IdxReg | IfaceNameIdx | ImportIdx | Index | IsPure | IsView | KeyIdx | KeyReg | Kind
    | LenReg | Lhs | LoReg | ModuleNameIdx | N | NArgs | NPairs | NameIdx | Offset | OutputReg | PathIdx
    | Reg | Rhs | ShapeIdx | SourceReg | Src | StateIdx | Target | TargetReg | Uop | Val | Value | ValueReg
    | VariantIdx

  /** Opcode bytes. */
  function Tag(op: Op): byte {
    match op
    case LoadConst => 0x01
    case Move => 0x02
    case Bin => 0x03
    case Un => 0x04
    case Jump => 0x05
    case JumpIfFalse => 0x06
    case Call => 0x07
    case CallHost => 0x08
    case CallExternal => 0x09
    case Return => 0x0a
    case ReturnUnit => 0x0b
    case BuiltinResource => 0x0c
    case BuiltinUnwrap => 0x0d
    case BuiltinAddress => 0x0e
    case BuiltinLen => 0x0f
    case Convert => 0x10
    case MakeArray => 0x11
    case ArrayGet => 0x12
    case ArrayAppend => 0x13
    case MakeSet => 0x14
    case MakeDict => 0x15
    case BuiltinCall => 0x16
    case MakeStruct => 0x17
    case FieldGet => 0x18
    case FieldSet => 0x19
    case KvGet => 0x1a
    case KvPut => 0x1b
    case KvGetPath => 0x1c
    case KvPutPath => 0x1d
    case ReadBatch => 0x1e
    case PrefetchMap => 0x1f
    case Emit => 0x20
    case ParallelYield => 0x4a
    case ParallelForBegin => 0x4b
    case ArrayAlloc => 0x4c
    case Reserve => 0x4d
    case ParallelForSkip => 0x4e
    case Context => 0x21
    case MakeTuple => 0x22
    case TupleGet => 0x23
    case MakeEnum => 0x24
    case EnumTag => 0x25
    case EnumPayload => 0x26
    case MapGet => 0x27
    case MapPut => 0x28
    case PMapGet => 0x29
    case PMapPut => 0x2a
    case PMapContains => 0x2b
    case PVecGet => 0x2c
    case PVecSet => 0x2d
    case PVecPush => 0x2e
    case PVecLen => 0x2f
    case IncReg => 0x30
    case CallExternalDyn => 0x31
    case MakeInterface => 0x32
    case PMapEntries => 0x33
    case PMapKeys => 0x34
    case PMapValues => 0x35
    case PVecToArray => 0x36
    case PMapAppendUnique => 0x37
    case PMapPutUnique => 0x38
    case PMapWalkInit => 0x39
    case PMapWalkNext => 0x3a
    case PBTreeGet => 0x3b
    case PBTreePut => 0x3c
    case PBTreeContains => 0x3d
    case PBTreeRange => 0x3e
    case PBTreeWalkInit => 0x3f
    case PBTreeWalkNext => 0x40
    case PBTreePutUnique => 0x41
    case PBTreeAppendUnique => 0x42
    case PMapDelete => 0x43
    case PBTreeDelete => 0x44
    case PMapRemoveUnique => 0x45
    case PMapRemoveFromList => 0x46
    case PBTreeRemoveUnique => 0x47
    case PBTreeRemoveFromList => 0x48
  }

  /** Operands in the order they are written, arm by arm from the writer's match
      (crates/rend/src/artifact.rs:919-1198). */
  function Written(op: Op): Layout {
    match op
    case LoadConst =>
      [(Dst, Word16), (Idx, Word16)]
    case Move | BuiltinResource | BuiltinUnwrap | BuiltinAddress | BuiltinLen | EnumTag =>
      [(Dst, Word16), (Src, Word16)]
    case Bin =>
      [(Bop, BinCode), (Dst, Word16), (Lhs, Word16), (Rhs, Word16)]
    case Un =>
      [(Uop, UnCode), (Dst, Word16), (Src, Word16)]
    case Jump =>
      [(Offset, Signed32)]
    case JumpIfFalse =>
      [(Cond, Word16), (Offset, Signed32)]
    case Call =>
      [(Dst, Word16), (FnIdx, Word16), (ArgsStart, Word16), (NArgs, Word8)]
    case CallHost =>
      [(Dst, Word16), (ImportIdx, Word16), (ArgsStart, Word16), (NArgs, Word8)]
    case CallExternal =>
      [(Dst, Word16), (ModuleNameIdx, Word16), (FnNameIdx, Word16), (ArgsStart, Word16), (NArgs, Word8), (IsView, OneBit), (IsPure, OneBit)]
    case Return =>
      [(Src, Word16)]
    case ReturnUnit | ParallelForSkip =>
      []
    case Convert =>
      [(Dst, Word16), (Src, Word16), (Target, Word8)]
    case MakeArray | MakeSet | MakeTuple =>
      [(Dst, Word16), (ArgsStart, Word16), (N, Word16)]
    case ArrayGet =>
      [(Dst, Word16), (Arr, Word16), (Idx, Word16)]
    case ArrayAppend =>
      [(Dst, Word16), (Arr, Word16), (Elem, Word16)]
    case MakeDict =>
      [(Dst, Word16), (ArgsStart, Word16), (NPairs, Word16)]
    case BuiltinCall =>
      [(Dst, Word16), (NameIdx, Word16), (ArgsStart, Word16), (NArgs, Word8)]
    case MakeStruct =>
      [(Dst, Word16), (ShapeIdx, Word16), (ArgsStart, Word16), (N, Word16)]
    case FieldGet =>
      [(Dst, Word16), (Src, Word16), (NameIdx, Word16)]
    case FieldSet =>
      [(Dst, Word16), (NameIdx, Word16), (Val, Word16)]
    case KvGet =>
      [(Dst, Word16), (KeyIdx, Word16)]
    case KvPut =>
      [(Src, Word16), (KeyIdx, Word16)]
    case KvGetPath =>
      [(Dst, Word16), (PathIdx, Word16)]
    case KvPutPath =>
      [(Src, Word16), (PathIdx, Word16)]
    case ReadBatch =>
      [(GroupIdx, Word16)]
    case PrefetchMap =>
      [(ArrReg, Word16), (StateIdx, Word16)]
    case Emit =>
      [(Value, Word16)]
    case ParallelYield =>
      [(Value, Opt16)]
    case ParallelForBegin =>
      [(BodyStart, Word32), (BodyEnd, Word32), (SourceReg, Word16), (OutputReg, Word16), (IdReg, Word16), (IdxReg, Word16), (AfterPc, Word32)]
    case ArrayAlloc =>
      [(Dst, Word16), (LenReg, Word16), (DefaultReg, Word16)]
    case Reserve =>
      [(Dst, Word16), (StateIdx, Word16), (CountReg, Word16)]
    case Context =>
      [(Dst, Word16), (Kind, Word8)]
    case TupleGet | EnumPayload =>
      [(Dst, Word16), (Src, Word16), (Index, Word16)]
    case MakeEnum =>
      [(Dst, Word16), (ShapeIdx, Word16), (VariantIdx, Word16), (ArgsStart, Word16), (N, Word16)]
    case MapGet | PMapGet | PMapContains | PBTreeGet | PBTreeContains =>
      [(Dst, Word16), (StateIdx, Word16), (KeyReg, Word16)]
    case MapPut | PMapPut | PMapPutUnique | PBTreePut | PBTreePutUnique =>
      [(StateIdx, Word16), (KeyReg, Word16), (Src, Word16)]
    case PVecGet =>
      [(Dst, Word16), (StateIdx, Word16), (IdxReg, Word16)]
    case PVecSet =>
      [(StateIdx, Word16), (IdxReg, Word16), (Src, Word16)]
    case PVecPush =>
      [(Dst, Word16), (StateIdx, Word16), (Src, Word16)]
    case PVecLen | PMapEntries | PMapKeys | PMapValues | PVecToArray | PMapWalkInit | PBTreeWalkInit =>
      [(Dst, Word16), (StateIdx, Word16)]
    case IncReg =>
      [(Reg, Word16)]
    case CallExternalDyn =>
      [(Dst, Word16), (TargetReg, Word16), (FnNameIdx, Word16), (ArgsStart, Word16), (NArgs, Word8), (IsView, OneBit), (IsPure, OneBit)]
    case MakeInterface =>
      [(Dst, Word16), (IfaceNameIdx, Word16), (TargetReg, Word16)]
    case PMapAppendUnique | PBTreeAppendUnique | PMapRemoveFromList | PBTreeRemoveFromList =>
      [(StateIdx, Word16), (KeyReg, Word16), (ElemReg, Word16)]
    case PMapWalkNext | PBTreeWalkNext =>
      [(CursorReg, Word16), (ValueReg, Word16), (EndOffset, Signed32)]
    case PBTreeRange =>
      [(Dst, Word16), (StateIdx, Word16), (LoReg, Word16), (HiReg, Word16)]
    case PMapDelete | PBTreeDelete =>
      [(StateIdx, Word16), (KeyReg, Word16)]
    case PMapRemoveUnique | PBTreeRemoveUnique =>
      [(StateIdx, Word16), (KeyReg, Word16), (ExpectedReg, Word16)]
  }

  /** The opcode of a byte. */
  function OpOf(tag: byte): Option<Op> {
    if tag < 0x14 then OpOf0(tag) else if tag < 0x28 then OpOf1(tag) else if tag < 0x3c then OpOf2(tag) else OpOf3(tag)
  }

  function OpOf0(tag: byte): Option<Op> {
    match tag
    case 0x01 => Some(LoadConst)
    case 0x02 => Some(Move)
    case 0x03 => Some(Bin)
    case 0x04 => Some(Un)
    case 0x05 => Some(Jump)
    case 0x06 => Some(JumpIfFalse)
    case 0x07 => Some(Call)
    case 0x08 => Some(CallHost)
    case 0x09 => Some(CallExternal)
    case 0x0a => Some(Return)
    case 0x0b => Some(ReturnUnit)
    case 0x0c => Some(BuiltinResource)
    case 0x0d => Some(BuiltinUnwrap)
    case 0x0e => Some(BuiltinAddress)
    case 0x0f => Some(BuiltinLen)
    case 0x10 => Some(Convert)
    case 0x11 => Some(MakeArray)
    case 0x12 => Some(ArrayGet)
    case 0x13 => Some(ArrayAppend)
    case _ => None
  }

  function OpOf1(tag: byte): Option<Op> {
    match tag
    case 0x14 => Some(MakeSet)
    case 0x15 => Some(MakeDict)
    case 0x16 => Some(BuiltinCall)
    case 0x17 => Some(MakeStruct)
    case 0x18 => Some(FieldGet)
    case 0x19 => Some(FieldSet)
    case 0x1a => Some(KvGet)
    case 0x1b => Some(KvPut)
    case 0x1c => Some(KvGetPath)
    case 0x1d => Some(KvPutPath)
    case 0x1e => Some(ReadBatch)
    case 0x1f => Some(PrefetchMap)
    case 0x20 => Some(Emit)
    case 0x21 => Some(Context)
    case 0x22 => Some(MakeTuple)
    case 0x23 => Some(TupleGet)
    case 0x24 => Some(MakeEnum)
    case 0x25 => Some(EnumTag)
    case 0x26 => Some(EnumPayload)
    case 0x27 => Some(MapGet)
    case _ => None
  }

  function OpOf2(tag: byte): Option<Op> {
    match tag
    case 0x28 => Some(MapPut)
    case 0x29 => Some(PMapGet)
    case 0x2a => Some(PMapPut)
    case 0x2b => Some(PMapContains)
    case 0x2c => Some(PVecGet)
    case 0x2d => Some(PVecSet)
    case 0x2e => Some(PVecPush)
    case 0x2f => Some(PVecLen)
    case 0x30 => Some(IncReg)
    case 0x31 => Some(CallExternalDyn)
    case 0x32 => Some(MakeInterface)
    case 0x33 => Some(PMapEntries)
    case 0x34 => Some(PMapKeys)
    case 0x35 => Some(PMapValues)
    case 0x36 => Some(PVecToArray)
    case 0x37 => Some(PMapAppendUnique)
    case 0x38 => Some(PMapPutUnique)
    case 0x39 => Some(PMapWalkInit)
    case 0x3a => Some(PMapWalkNext)
    case 0x3b => Some(PBTreeGet)
    case _ => None
  }

  function OpOf3(tag: byte): Option<Op> {
    match tag
    case 0x3c => Some(PBTreePut)
    case 0x3d => Some(PBTreeContains)
    case 0x3e => Some(PBTreeRange)
    case 0x3f => Some(PBTreeWalkInit)
    case 0x40 => Some(PBTreeWalkNext)
    case 0x41 => Some(PBTreePutUnique)
    case 0x42 => Some(PBTreeAppendUnique)
    case 0x43 => Some(PMapDelete)
    case 0x44 => Some(PBTreeDelete)
    case 0x45 => Some(PMapRemoveUnique)
    case 0x46 => Some(PMapRemoveFromList)
    case 0x47 => Some(PBTreeRemoveUnique)
    case 0x48 => Some(PBTreeRemoveFromList)
    case 0x4a => Some(ParallelYield)
    case 0x4b => Some(ParallelForBegin)
    case 0x4c => Some(ArrayAlloc)
    case 0x4d => Some(Reserve)
    case 0x4e => Some(ParallelForSkip)
    case _ => None
  }

  /** Operands in the order the reader takes them, arm by arm from the reader's match
      (crates/rend/src/artifact.rs:1200-1382). It is kept apart from the writer's table: that the
      two agree is a fact about the format, proved below. */
  function Taken(op: Op): Layout {
    match op
    case LoadConst =>
      [(Dst, Word16), (Idx, Word16)]
    case Move | BuiltinResource | BuiltinUnwrap | BuiltinAddress | BuiltinLen | EnumTag =>
      [(Dst, Word16), (Src, Word16)]
    case Bin =>
      [(Bop, BinCode), (Dst, Word16), (Lhs, Word16), (Rhs, Word16)]
    case Un =>
      [(Uop, UnCode), (Dst, Word16), (Src, Word16)]
    case Jump =>
      [(Offset, Signed32)]
    case JumpIfFalse =>
      [(Cond, Word16), (Offset, Signed32)]
    case Call =>
      [(Dst, Word16), (FnIdx, Word16), (ArgsStart, Word16), (NArgs, Word8)]
    case CallHost =>
      [(Dst, Word16), (ImportIdx, Word16), (ArgsStart, Word16), (NArgs, Word8)]
    case CallExternal =>
      [(Dst, Word16), (ModuleNameIdx, Word16), (FnNameIdx, Word16), (ArgsStart, Word16), (NArgs, Word8), (IsView, OneBit), (IsPure, OneBit)]
    case Return =>
      [(Src, Word16)]
    case ReturnUnit | ParallelForSkip =>
      []
    case Convert =>
      [(Dst, Word16), (Src, Word16), (Target, Word8)]
    case MakeArray | MakeSet | MakeTuple =>
      [(Dst, Word16), (ArgsStart, Word16), (N, Word16)]
    case ArrayGet =>
      [(Dst, Word16), (Arr, Word16), (Idx, Word16)]
    case ArrayAppend =>
      [(Dst, Word16), (Arr, Word16), (Elem, Word16)]
    case MakeDict =>
      [(Dst, Word16), (ArgsStart, Word16), (NPairs, Word16)]
    case BuiltinCall =>
      [(Dst, Word16), (NameIdx, Word16), (ArgsStart, Word16), (NArgs, Word8)]
    case MakeStruct =>
      [(Dst, Word16), (ShapeIdx, Word16), (ArgsStart, Word16), (N, Word16)]
    case FieldGet =>
      [(Dst, Word16), (Src, Word16), (NameIdx, Word16)]
    case FieldSet =>
      [(Dst, Word16), (NameIdx, Word16), (Val, Word16)]
    case KvGet =>
      [(Dst, Word16), (KeyIdx, Word16)]
    case KvPut =>
      [(Src, Word16), (KeyIdx, Word16)]
    case KvGetPath =>
      [(Dst, Word16), (PathIdx, Word16)]
    case KvPutPath =>
      [(Src, Word16), (PathIdx, Word16)]
    case ReadBatch =>
      [(GroupIdx, Word16)]
    case PrefetchMap =>
      [(ArrReg, Word16), (StateIdx, Word16)]
    case Emit =>
      [(Value, Word16)]
    case ParallelYield =>
      [(Value, Opt16)]
    case ParallelForBegin =>
      [(BodyStart, Word32), (BodyEnd, Word32), (SourceReg, Word16), (OutputReg, Word16), (IdReg, Word16), (IdxReg, Word16), (AfterPc, Word32)]
    case ArrayAlloc =>
      [(Dst, Word16), (LenReg, Word16), (DefaultReg, Word16)]
    case Reserve =>
      [(Dst, Word16), (StateIdx, Word16), (CountReg, Word16)]
    case Context =>
      [(Dst, Word16), (Kind, Word8)]
    case TupleGet | EnumPayload =>
      [(Dst, Word16), (Src, Word16), (Index, Word16)]
    case MakeEnum =>
      [(Dst, Word16), (ShapeIdx, Word16), (VariantIdx, Word16), (ArgsStart, Word16), (N, Word16)]
    case MapGet | PMapGet | PMapContains | PBTreeGet | PBTreeContains =>
      [(Dst, Word16), (StateIdx, Word16), (KeyReg, Word16)]
    case MapPut | PMapPut | PMapPutUnique | PBTreePut | PBTreePutUnique =>
      [(StateIdx, Word16), (KeyReg, Word16), (Src, Word16)]
    case PVecGet =>
      [(Dst, Word16), (StateIdx, Word16), (IdxReg, Word16)]
    case PVecSet =>
      [(StateIdx, Word16), (IdxReg, Word16), (Src, Word16)]
    case PVecPush =>
      [(Dst, Word16), (StateIdx, Word16), (Src, Word16)]
    case PVecLen | PMapEntries | PMapKeys | PMapValues | PVecToArray | PMapWalkInit | PBTreeWalkInit =>
      [(Dst, Word16), (StateIdx, Word16)]
    case IncReg =>
      [(Reg, Word16)]
    case CallExternalDyn =>
      [(Dst, Word16), (TargetReg, Word16), (FnNameIdx, Word16), (ArgsStart, Word16), (NArgs, Word8), (IsView, OneBit), (IsPure, OneBit)]
    case MakeInterface =>
      [(Dst, Word16), (IfaceNameIdx, Word16), (TargetReg, Word16)]
    case PMapAppendUnique | PBTreeAppendUnique | PMapRemoveFromList | PBTreeRemoveFromList =>
      [(StateIdx, Word16), (KeyReg, Word16), (ElemReg, Word16)]
    case PMapWalkNext | PBTreeWalkNext =>
      [(CursorReg, Word16), (ValueReg, Word16), (EndOffset, Signed32)]
    case PBTreeRange =>
      [(Dst, Word16), (StateIdx, Word16), (LoReg, Word16), (HiReg, Word16)]
    case PMapDelete | PBTreeDelete =>
      [(StateIdx, Word16), (KeyReg, Word16)]
    case PMapRemoveUnique | PBTreeRemoveUnique =>
      [(StateIdx, Word16), (KeyReg, Word16), (ExpectedReg, Word16)]
  }

  // ---------- operands ----------

  function BinByte(op: BinOp): byte {
    match op
    case Add => 0x01
    case Sub => 0x02
    case Mul => 0x03
    case Div => 0x04
    case Mod => 0x05
    case Eq => 0x06
    case NotEq => 0x07
    case Lt => 0x08
    case Gt => 0x09
    case LtEq => 0x0a
    case GtEq => 0x0b
    case And => 0x0c
    case Or => 0x0d
    case BitAnd => 0x0e
    case BitOr => 0x0f
    case BitXor => 0x10
    case Shl => 0x11
    case Shr => 0x12
  }

  function BinOf(b: byte): Option<BinOp> {
    match b
    case 0x01 => Some(Add)
    case 0x02 => Some(Sub)
    case 0x03 => Some(Mul)
    case 0x04 => Some(Div)
    case 0x05 => Some(Mod)
    case 0x06 => Some(Eq)
    case 0x07 => Some(NotEq)
    case 0x08 => Some(Lt)
    case 0x09 => Some(Gt)
    case 0x0a => Some(LtEq)
    case 0x0b => Some(GtEq)
    case 0x0c => Some(And)
    case 0x0d => Some(Or)
    case 0x0e => Some(BitAnd)
    case 0x0f => Some(BitOr)
    case 0x10 => Some(BitXor)
    case 0x11 => Some(Shl)
    case 0x12 => Some(Shr)
    case _ => None
  }

  function UnByte(op: UnOp): byte { match op case Neg => 0x01 case Not => 0x02 }

  function UnOf(b: byte): Option<UnOp> {
    match b
    case 0x01 => Some(Neg)
    case 0x02 => Some(Not)
    case _ => None
  }

  /** A byte stands for an operator exactly when the operator is written as that byte. */
  lemma OperatorsBack(b: byte, op: BinOp, u: UnOp)
    ensures BinOf(b) == Some(op) <==> BinByte(op) == b
    ensures UnOf(b) == Some(u) <==> UnByte(u) == b
  {
  }

  predicate Holds(w: Width, v: Operand) {
    match w
    case BinCode => v.Infix?
    case UnCode => v.Prefix?
    case Word8 => v.Number? && 0 <= v.n < 256
    case Word16 => v.Number? && 0 <= v.n < 65536
    case Word32 => v.Number? && 0 <= v.n < TWO32
    case Signed32 => v.Number? && -0x8000_0000 <= v.n < 0x8000_0000
    case OneBit => v.Number? && 0 <= v.n <= 1
    case Opt16 => v.Number? && -1 <= v.n < 65536
  }

  function WriteOperand(w: Width, v: Operand): Data
    requires Holds(w, v)
  {
    match w
    case Word8 => [v.n]
    case Word16 => BE(v.n, 2)
    case Word32 => BE(v.n, 4)
    case Signed32 => WriteI32(v.n)
    case OneBit => [v.n]
    case BinCode => [BinByte(v.bop)]
    case UnCode => [UnByte(v.uop)]
    case Opt16 => if v.n < 0 then [0] else [1] + BE(v.n, 2)
  }

  function Numbered(r: Option<(int, Data)>): Option<(Operand, Data)> {
    match r
    case None => None
    case Some((n, rest)) => Some((Number(n), rest))
  }

  function ReadOperand(w: Width, s: Data): Option<(Operand, Data)> {
    match w
    case Word8 => if s == [] then None else Some((Number(s[0]), s[1..]))
    case Word16 => Numbered(ReadU(2, s))
    case Word32 => Numbered(ReadU(4, s))
    case Signed32 => Numbered(ReadI32(s))
    case OneBit => if s == [] then None else Some((Number(if s[0] != 0 then 1 else 0), s[1..]))
    case BinCode => if s == [] || BinOf(s[0]).None? then None else Some((Infix(BinOf(s[0]).value), s[1..]))
    case UnCode => if s == [] || UnOf(s[0]).None? then None else Some((Prefix(UnOf(s[0]).value), s[1..]))
    case Opt16 =>
      if s == [] then None
      else if s[0] == 0 then Some((Number(-1), s[1..]))
      else Numbered(ReadU(2, s[1..]))
  }

  lemma OperandBack(w: Width, v: Operand, rest: Data)
    requires Holds(w, v)
    ensures ReadOperand(w, WriteOperand(w, v) + rest) == Some((v, rest))
  {
    hide BE, ReadU, ReadI32, WriteI32, BinByte, BinOf, UnByte, UnOf;
    Powers();
    var s := WriteOperand(w, v) + rest;
    match w
    case Word16 => ReadUWrite(2, v.n, rest);
    case Word32 => ReadUWrite(4, v.n, rest);
    case Signed32 => ReadI32Write(v.n, rest);
    case Opt16 =>
      if v.n >= 0 {
        ReadUWrite(2, v.n, rest);
        assert s[1..] == BE(v.n, 2) + rest;
      } else {
        assert s[1..] == rest;
      }
    case BinCode =>
      OperatorsBack(s[0], v.bop, Neg);
      assert s[1..] == rest;
    case UnCode =>
      OperatorsBack(s[0], Add, v.uop);
      assert s[1..] == rest;
    case _ => assert s[1..] == rest;
  }

  // ---------- whole instructions ----------

  function NamesOf(l: Layout): set<Name> { if l == [] then {} else {l[0].0} + NamesOf(l[1..]) }

  predicate Distinct(l: Layout) { l == [] || (l[0].0 !in NamesOf(l[1..]) && Distinct(l[1..])) }

  predicate HasAll(l: Layout, args: map<Name, Operand>) {
    l == [] || (l[0].0 in args && Holds(l[0].1, args[l[0].0]) && HasAll(l[1..], args))
  }

  function WriteArgs(l: Layout, args: map<Name, Operand>): Data
    requires HasAll(l, args)
  {
    if l == [] then [] else WriteOperand(l[0].1, args[l[0].0]) + WriteArgs(l[1..], args)
  }

  function ReadArgs(l: Layout, s: Data): Option<(map<Name, Operand>, Data)> {
    if l == [] then Some((map[], s))
    else
      match ReadOperand(l[0].1, s)
      case None => None
      case Some((v, rest)) =>
        match ReadArgs(l[1..], rest)
        case None => None
        case Some((args, after)) => Some((args[l[0].0 := v], after))
  }

  function Only(args: map<Name, Operand>, names: set<Name>): map<Name, Operand> { map n | n in args && n in names :: args[n] }

  lemma {:induction false} ArgsBack(l: Layout, args: map<Name, Operand>, rest: Data)
    requires HasAll(l, args) && Distinct(l)
    ensures ReadArgs(l, WriteArgs(l, args) + rest) == Some((Only(args, NamesOf(l)), rest))
    decreases |l|
  {
    hide WriteOperand, ReadOperand;
    if l == [] {
      assert WriteArgs(l, args) + rest == rest;
    } else {
      var (n, w) := l[0];
      var more := WriteArgs(l[1..], args) + rest;
      assert WriteArgs(l, args) + rest == WriteOperand(w, args[n]) + more;
      OperandBack(w, args[n], more);
      ArgsBack(l[1..], args, rest);
      assert Only(args, NamesOf(l[1..]))[n := args[n]] == Only(args, NamesOf(l));
    }
  }

  /** Operands exactly as the opcode has them, and in range. */
  predicate Proper(i: Instr) {
    match i
    case Plain(op, args) => HasAll(Written(op), args) && args.Keys == NamesOf(Written(op))
    case ParallelBegin(ranges, after) =>
      |ranges| < TWO32 && after < TWO32 && forall r :: r in ranges ==> ProperRange(r)
  }

  predicate ProperRange(r: Range) { r.start < TWO32 && r.end < TWO32 && Holds(Opt16, Number(r.dst)) }

  /** A range that the writer can be given; others do not occur. */
  function WriteRange(r: Range): Data {
    if ProperRange(r) then BE(r.start, 4) + BE(r.end, 4) + WriteOperand(Opt16, Number(r.dst)) else []
  }

  function ReadRange(s: Data): Option<(Range, Data)> {
    match ReadU(4, s)
    case None => None
    case Some((start, s1)) =>
      match ReadU(4, s1)
      case None => None
      case Some((end, s2)) =>
        match ReadOperand(Opt16, s2)
        case None => None
        case Some((dst, rest)) => Some((Range(start, end, dst.n), rest))
  }

  function WriteInstr(i: Instr): Data
    requires Proper(i)
  {
    match i
    case Plain(op, args) => [Tag(op)] + WriteArgs(Written(op), args)
    case ParallelBegin(ranges, after) => [0x49] + (WriteList(ranges, WriteRange) + BE(after, 4))
  }

  function ReadInstr(s: Data): Option<(Instr, Data)> {
    if s == [] then None
    else if s[0] == 0x49 then
      match ReadList(s[1..], ReadRange)
      case None => None
      case Some((ranges, rest)) =>
        match ReadU(4, rest)
        case None => None
        case Some((after, tail)) => Some((ParallelBegin(ranges, after), tail))
    else
      match OpOf(s[0])
      case None => None
      case Some(op) =>
        match ReadArgs(Taken(op), s[1..])
        case None => None
        case Some((args, rest)) => Some((Plain(op, args), rest))
  }

  /** Writer and reader agree on every opcode byte. */
  lemma TagBack(op: Op)
    ensures Tag(op) != 0x49 && OpOf(Tag(op)) == Some(op)
  {
    hide Tag, OpOf0, OpOf1, OpOf2, OpOf3;
    if Tag(op) < 0x14 {
      TagBack0(op);
    } else if Tag(op) < 0x28 {
      TagBack1(op);
    } else if Tag(op) < 0x3c {
      TagBack2(op);
    } else {
      TagBack3(op);
    }
  }

  lemma TagBack0(op: Op)
    requires Tag(op) < 0x14
    ensures OpOf0(Tag(op)) == Some(op)
  {
  }

  lemma TagBack1(op: Op)
    requires 0x14 <= Tag(op) < 0x28
    ensures OpOf1(Tag(op)) == Some(op)
  {
  }

  lemma TagBack2(op: Op)
    requires 0x28 <= Tag(op) < 0x3c
    ensures OpOf2(Tag(op)) == Some(op)
  {
  }

  lemma TagBack3(op: Op)
    requires 0x3c <= Tag(op)
    ensures OpOf3(Tag(op)) == Some(op) && Tag(op) != 0x49
  {
  }

  /** And on every opcode's operands: names, widths and order. */
  lemma LayoutsAgree(op: Op)
    ensures Written(op) == Taken(op)
  {
  }

  lemma LayoutDistinct(op: Op)
    ensures Distinct(Written(op))
  {
    hide Tag, Written, Distinct;
    var t := Tag(op);
    if t < 0x0a {
      Distinct0(op);
    } else if t < 0x14 {
      Distinct1(op);
    } else if t < 0x1e {
      Distinct2(op);
    } else if t < 0x28 {
      Distinct3(op);
    } else if t < 0x32 {
      Distinct4(op);
    } else if t < 0x3c {
      Distinct5(op);
    } else if t < 0x46 {
      Distinct6(op);
    } else {
      Distinct7(op);
    }
  }

  lemma Distinct0(op: Op)
    requires Tag(op) < 0x0a
    ensures Distinct(Written(op))
  {
    Unrolled(Written(op));
    hide Distinct, NamesOf;
  }

  lemma Distinct1(op: Op)
    requires 0x0a <= Tag(op) < 0x14
    ensures Distinct(Written(op))
  {
    Unrolled(Written(op));
    hide Distinct, NamesOf;
  }

  lemma Distinct2(op: Op)
    requires 0x14 <= Tag(op) < 0x1e
    ensures Distinct(Written(op))
  {
    Unrolled(Written(op));
    hide Distinct, NamesOf;
  }

  lemma Distinct3(op: Op)
    requires 0x1e <= Tag(op) < 0x28
    ensures Distinct(Written(op))
  {
    Unrolled(Written(op));
    hide Distinct, NamesOf;
  }

  lemma Distinct4(op: Op)
    requires 0x28 <= Tag(op) < 0x32
    ensures Distinct(Written(op))
  {
    Unrolled(Written(op));
    hide Distinct, NamesOf;
  }

  lemma Distinct5(op: Op)
    requires 0x32 <= Tag(op) < 0x3c
    ensures Distinct(Written(op))
  {
    Unrolled(Written(op));
    hide Distinct, NamesOf;
  }

  lemma Distinct6(op: Op)
    requires 0x3c <= Tag(op) < 0x46
    ensures Distinct(Written(op))
  {
    Unrolled(Written(op));
    hide Distinct, NamesOf;
  }

  lemma Distinct7(op: Op)
    requires 0x46 <= Tag(op)
    ensures Distinct(Written(op))
  {
    Unrolled(Written(op));
    hide Distinct, NamesOf;
  }

  lemma {:induction false} Unrolled(l: Layout)
    ensures Distinct(l) <==> forall i, j :: 0 <= i < j < |l| ==> l[i].0 != l[j].0
    ensures forall n :: n in NamesOf(l) <==> exists i :: 0 <= i < |l| && l[i].0 == n
  {
    if l != [] {
      Unrolled(l[1..]);
    }
  }

  lemma RangeBack(r: Range, rest: Data)
    requires ProperRange(r)
    ensures ReadRange(WriteRange(r) + rest) == Some((r, rest))
  {
    hide BE, ReadU, WriteOperand, ReadOperand;
    Powers();
    var tail := WriteOperand(Opt16, Number(r.dst)) + rest;
    assert WriteRange(r) + rest == BE(r.start, 4) + (BE(r.end, 4) + tail);
    ReadUWrite(4, r.start, BE(r.end, 4) + tail);
    ReadUWrite(4, r.end, tail);
    OperandBack(Opt16, Number(r.dst), rest);
  }

  function Same(r: Range): Range { r }

  lemma {:induction false} MapSame(xs: seq<Range>)
    ensures MapAll(xs, Same) == xs
  {
    if xs != [] {
      MapSame(xs[1..]);
    }
  }

  /** Reading a written instruction returns it and exactly what followed. */
  lemma InstrRoundTrip(i: Instr, rest: Data)
    requires Proper(i)
    ensures ReadInstr(WriteInstr(i) + rest) == Some((i, rest))
  {
    match i
    case Plain(op, args) => PlainRoundTrip(op, args, rest);
    case ParallelBegin(ranges, after) => ParallelRoundTrip(ranges, after, rest);
  }

  lemma PlainRoundTrip(op: Op, args: map<Name, Operand>, rest: Data)
    requires Proper(Plain(op, args))
    ensures ReadInstr(WriteInstr(Plain(op, args)) + rest) == Some((Plain(op, args), rest))
  {
    hide Tag, Written, OpOf, Taken, WriteArgs, ReadArgs, HasAll, NamesOf;
    var s := WriteInstr(Plain(op, args)) + rest;
    TagBack(op);
    LayoutsAgree(op);
    LayoutDistinct(op);
    assert s[1..] == WriteArgs(Written(op), args) + rest;
    ArgsBack(Written(op), args, rest);
    assert Only(args, NamesOf(Written(op))) == args;
  }

  lemma ParallelRoundTrip(ranges: seq<Range>, after: nat, rest: Data)
    requires Proper(ParallelBegin(ranges, after))
    ensures ReadInstr(WriteInstr(ParallelBegin(ranges, after)) + rest) == Some((ParallelBegin(ranges, after), rest))
  {
    hide WriteList, ReadList, BE, ReadU, ReadRange, WriteRange;
    var s := WriteInstr(ParallelBegin(ranges, after)) + rest;
    var list, tail := WriteList(ranges, WriteRange), BE(after, 4) + rest;
    assert s[1..] == list + tail;
    forall r, more | r in ranges ensures ReadRange(WriteRange(r) + more) == Some((r, more)) {
      RangeBack(r, more);
    }
    ReadListWrite(ranges, WriteRange, ReadRange, Same, tail);
    MapSame(ranges);
    Powers();
    ReadUWrite(4, after, rest);
  }
}
