/** Functions, modules and whole artifacts on the wire.

    A function or module is a record whose fields follow a fixed shape; one reader and one
    writer serve every shape, and the round trip is proved once for all of them. */
module Artifact {
  import opened Options
  import opened Bytes
  import opened Wire
  import AT = ArtifactTypes
  import AR = ArtifactRoundTrip
  import I = Instrs

  /** Constants of a function. Floats travel as their bits. */
  datatype Const =
    | Int(n: int) | UInt(n: int) | Float(bits: nat) | I32(i: int) | U32(n32: nat) | U64(n64: nat) | U128(n128: nat)
    | Bool(b: bool) | Str(s: Str)

  /** What a field may be on the wire. `Word(w)` is an unsigned integer of `w` bytes. */
  datatype Shape =
    | Word(w: nat) | Bit | Text | Type | Constant | Code | ReadOp | Blob
    | Opt(of: Shape) | List(of: Shape) | Rec(fields: seq<Shape>)

  datatype Val =
    | VWord(n: nat) | VBit(b: bool) | VText(s: Str) | VType(t: AT.Type) | VConst(c: Const) | VCode(i: I.Instr)
    | VRead(isPath: bool, dst: nat, idx: nat) | VBlob(d: Data)
    | VNone | VSome(v: Val) | VList(vs: seq<Val>) | VRec(vs: seq<Val>)

  /** A compiled function: name, parameter and register counts, four flags, parameter types,
      return type, constants, code, read groups. */
  const FnShape: Shape :=
    Rec([Text, Word(2), Word(2), Bit, Bit, Bit, Bit, List(Type), Type, List(Constant), List(Code), List(List(ReadOp))])

  /** A module: name, imports, state roots, types, defaults and names, struct shapes, functions,
      path specs, enum shapes, interfaces, event handlers. */
  const ModuleShape: Shape :=
    Rec([Text, List(Text), List(Word(16)), List(Type), List(Blob), List(Text),
         List(Rec([Text, List(Rec([Text, Type, Opt(Text)])), Bit])),
         List(FnShape),
         List(Rec([Word(16), Type, Bit])),
         List(Rec([Text, List(Text)])),
         List(Rec([Text, List(Rec([Text, Bit, Bit, List(Rec([Text, Type])), Type]))])),
         HandlersShape])

  const HandlersShape: Shape := List(Rec([Text, List(Word(2))]))

  // ---------- constants ----------

  /** Shortest two's-complement big-endian bytes. */
  function Signed(n: int): (d: Data)
    ensures d != []
    decreases if n < 0 then -n else n
  {
    if -128 <= n < 128 then [n % 256] else Signed(n / 256) + [n % 256]
  }

  function FromSigned(d: Data): int {
    if d == [] then 0
    else if |d| == 1 then if d[0] >= 128 then (d[0] as int) - 256 else d[0]
    else 256 * FromSigned(d[..|d| - 1]) + d[|d| - 1]
  }

  lemma {:induction false} SignedBack(n: int)
    ensures FromSigned(Signed(n)) == n
    decreases if n < 0 then -n else n
  {
    if !(-128 <= n < 128) {
      SignedBack(n / 256);
      assert Signed(n)[..|Signed(n)| - 1] == Signed(n / 256);
    }
  }

  predicate ConstFits(c: Const) {
    match c
    case Int(n) => |Signed(n)| < TWO32
    case UInt(n) => |Signed(n)| < TWO32
    case Float(bits) => bits < Pow256(8)
    case I32(i) => -0x8000_0000 <= i < 0x8000_0000
    case U32(n) => n < Pow256(4)
    case U64(n) => n < Pow256(8)
    case U128(n) => n < Pow256(16)
    case Bool(_) => true
    case Str(s) => SmallStr(s)
  }

  function WriteBlob(d: Data): Data { BE(|d|, 4) + d }

  function ReadBlob(s: Data): (r: Option<(Data, Data)>)
    ensures r.Some? ==> |r.value.1| < |s|
  {
    match ReadU(4, s)
    case None => None
    case Some((n, rest)) => if |rest| < n then None else Some((rest[..n], rest[n..]))
  }

  lemma BlobBack(d: Data, rest: Data)
    requires |d| < TWO32
    ensures ReadBlob(WriteBlob(d) + rest) == Some((d, rest))
  {
    hide BE, ReadU;
    assert WriteBlob(d) + rest == BE(|d|, 4) + (d + rest);
    AR.CountBack(|d|, d + rest);
    assert (d + rest)[..|d|] == d && (d + rest)[|d|..] == rest;
  }

  function WriteConst(c: Const): Data
    requires ConstFits(c)
  {
    match c
    case Int(n) => [0x01] + WriteBlob(Signed(n))
    case I32(i) => [0x02] + WriteI32(i)
    case U32(n) => [0x03] + BE(n, 4)
    case U64(n) => [0x04] + BE(n, 8)
    case U128(n) => [0x05] + BE(n, 16)
    case Bool(b) => [0x06] + Flag(b)
    case Str(s) => [0x07] + WriteStr(s)
    case UInt(n) => [0x08] + WriteBlob(Signed(n))
    case Float(bits) => [0x09] + BE(bits, 8)
  }

  function ReadConst(s: Data): Option<(Const, Data)> {
    if s == [] then None
    else
      var rest := s[1..];
      match s[0]
      case 0x01 => (match ReadBlob(rest) case None => None case Some((d, t)) => Some((Int(FromSigned(d)), t)))
      case 0x02 => (match ReadI32(rest) case None => None case Some((i, t)) => Some((I32(i), t)))
      case 0x03 => (match ReadU(4, rest) case None => None case Some((n, t)) => Some((U32(n), t)))
      case 0x04 => (match ReadU(8, rest) case None => None case Some((n, t)) => Some((U64(n), t)))
      case 0x05 => (match ReadU(16, rest) case None => None case Some((n, t)) => Some((U128(n), t)))
      case 0x06 => (match ReadFlag(rest) case None => None case Some((b, t)) => Some((Bool(b), t)))
      case 0x07 => (match ReadStr(rest) case None => None case Some((str, t)) => Some((Str(str), t)))
      case 0x08 => (match ReadBlob(rest) case None => None case Some((d, t)) => Some((UInt(FromSigned(d)), t)))
      case 0x09 => (match ReadU(8, rest) case None => None case Some((n, t)) => Some((Float(n), t)))
      case _ => None
  }

  lemma ConstRoundTrip(c: Const, rest: Data)
    requires ConstFits(c)
    ensures ReadConst(WriteConst(c) + rest) == Some((c, rest))
  {
    hide BE, ReadU, WriteBlob, ReadBlob, WriteI32, ReadI32, WriteStr, ReadStr, Flag, ReadFlag, Signed, FromSigned, Pow256;
    var s := WriteConst(c) + rest;
    assert s[1..] == WriteConst(c)[1..] + rest;
    match c
    case Int(n) =>
      BlobBack(Signed(n), rest);
      SignedBack(n);
    case UInt(n) =>
      BlobBack(Signed(n), rest);
      SignedBack(n);
    case Float(bits) => ReadUWrite(8, bits, rest);
    case I32(i) => ReadI32Write(i, rest);
    case U32(n) => ReadUWrite(4, n, rest);
    case U64(n) => ReadUWrite(8, n, rest);
    case U128(n) => ReadUWrite(16, n, rest);
    case Bool(b) => ReadFlagWrite(b, rest);
    case Str(str) => ReadStrWrite(str, rest);
  }

  // ---------- values of a shape ----------

  /** The value has the shape, every number is in range and every length fits its count. */
  predicate Fits(sh: Shape, v: Val)
    decreases v
  {
    match sh
    case Word(w) => v.VWord? && v.n < Pow256(w)
    case Bit => v.VBit?
    case Text => v.VText? && SmallStr(v.s)
    case Type => v.VType? && AT.Small(v.t)
    case Constant => v.VConst? && ConstFits(v.c)
    case Code => v.VCode? && I.Proper(v.i)
    case ReadOp => v.VRead? && v.dst < 65536 && v.idx < 65536
    case Blob => v.VBlob? && |v.d| < TWO32
    case Opt(of) => v.VNone? || (v.VSome? && Fits(of, v.v))
    case List(of) => v.VList? && |v.vs| < TWO32 && AllFit(of, v.vs)
    case Rec(fields) => v.VRec? && EachFits(fields, v.vs)
  }

  predicate AllFit(sh: Shape, vs: seq<Val>)
    decreases vs
  {
    vs == [] || (Fits(sh, vs[0]) && AllFit(sh, vs[1..]))
  }

  predicate EachFits(shs: seq<Shape>, vs: seq<Val>)
    decreases vs
  {
    |shs| == |vs| && (vs == [] || (Fits(shs[0], vs[0]) && EachFits(shs[1..], vs[1..])))
  }

  function Write(sh: Shape, v: Val): Data
    requires Fits(sh, v)
    decreases v
  {
    match sh
    case Word(w) => BE(v.n, w)
    case Bit => Flag(v.b)
    case Text => WriteStr(v.s)
    case Type => AT.WriteType(v.t)
    case Constant => WriteConst(v.c)
    case Code => I.WriteInstr(v.i)
    case ReadOp => [if v.isPath then 2 else 1] + (BE(v.dst, 2) + BE(v.idx, 2))
    case Blob => WriteBlob(v.d)
    case Opt(of) => if v.VNone? then [0] else [1] + Write(of, v.v)
    case List(of) => BE(|v.vs|, 4) + WriteVals(of, v.vs)
    case Rec(fields) => WriteEach(fields, v.vs)
  }

  function WriteVals(sh: Shape, vs: seq<Val>): Data
    requires AllFit(sh, vs)
    decreases vs
  {
    if vs == [] then [] else Write(sh, vs[0]) + WriteVals(sh, vs[1..])
  }

  function WriteEach(shs: seq<Shape>, vs: seq<Val>): Data
    requires EachFits(shs, vs)
    decreases vs
  {
    if vs == [] then [] else Write(shs[0], vs[0]) + WriteEach(shs[1..], vs[1..])
  }

  function ReadReadOp(s: Data): Option<(Val, Data)> {
    if s == [] || !(1 <= s[0] <= 2) then None
    else
      match ReadU(2, s[1..])
      case None => None
      case Some((dst, mid)) =>
        match ReadU(2, mid)
        case None => None
        case Some((idx, rest)) => Some((VRead(s[0] == 2, dst, idx), rest))
  }

  function Read(sh: Shape, s: Data): Option<(Val, Data)>
    decreases sh, 0
  {
    match sh
    case Word(w) => (match ReadU(w, s) case None => None case Some((n, t)) => Some((VWord(n), t)))
    case Bit => (match ReadFlag(s) case None => None case Some((b, t)) => Some((VBit(b), t)))
    case Text => (match ReadStr(s) case None => None case Some((str, t)) => Some((VText(str), t)))
    case Type => (match AT.ReadType(s) case None => None case Some((ty, t)) => Some((VType(ty), t)))
    case Constant => (match ReadConst(s) case None => None case Some((c, t)) => Some((VConst(c), t)))
    case Code => (match I.ReadInstr(s) case None => None case Some((i, t)) => Some((VCode(i), t)))
    case ReadOp => ReadReadOp(s)
    case Blob => (match ReadBlob(s) case None => None case Some((d, t)) => Some((VBlob(d), t)))
    case Opt(of) =>
      if s == [] then None
      else if s[0] == 0 then Some((VNone, s[1..]))
      else (match Read(of, s[1..]) case None => None case Some((v, t)) => Some((VSome(v), t)))
    case List(of) =>
      (match ReadU(4, s)
       case None => None
       case Some((n, rest)) =>
         match ReadVals(of, n, rest)
         case None => None
         case Some((vs, t)) => Some((VList(vs), t)))
    case Rec(fields) => (match ReadEach(fields, s) case None => None case Some((vs, t)) => Some((VRec(vs), t)))
  }

  function ReadVals(sh: Shape, n: nat, s: Data): Option<(seq<Val>, Data)>
    decreases sh, n + 1
  {
    if n == 0 then Some(([], s))
    else
      match Read(sh, s)
      case None => None
      case Some((v, rest)) =>
        match ReadVals(sh, n - 1, rest)
        case None => None
        case Some((vs, t)) => Some(([v] + vs, t))
  }

  function ReadEach(shs: seq<Shape>, s: Data): Option<(seq<Val>, Data)>
    decreases shs, 0
  {
    if shs == [] then Some(([], s))
    else
      match Read(shs[0], s)
      case None => None
      case Some((v, rest)) =>
        match ReadEach(shs[1..], rest)
        case None => None
        case Some((vs, t)) => Some(([v] + vs, t))
  }

  /** The value with every type in normal form. */
  function Normal(v: Val): Val
    decreases v
  {
    match v
    case VType(t) => VType(AT.Normal(t))
    case VSome(w) => VSome(Normal(w))
    case VList(vs) => VList(NormalAll(vs))
    case VRec(vs) => VRec(NormalAll(vs))
    case _ => v
  }

  function NormalAll(vs: seq<Val>): seq<Val>
    decreases vs
  {
    if vs == [] then [] else [Normal(vs[0])] + NormalAll(vs[1..])
  }

  // ---------- the round trip ----------

  lemma ReadOpBack(v: Val, rest: Data)
    requires Fits(ReadOp, v)
    ensures ReadReadOp(Write(ReadOp, v) + rest) == Some((v, rest))
  {
    hide BE, ReadU;
    var s := Write(ReadOp, v) + rest;
    Powers();
    assert s[1..] == BE(v.dst, 2) + (BE(v.idx, 2) + rest);
    ReadUWrite(2, v.dst, BE(v.idx, 2) + rest);
    ReadUWrite(2, v.idx, rest);
  }

  /** For every shape: reading a written value returns its normal form and what followed. */
  lemma {:induction false} RoundTrip(sh: Shape, v: Val, rest: Data)
    requires Fits(sh, v)
    ensures Read(sh, Write(sh, v) + rest) == Some((Normal(v), rest))
    decreases v, 1
  {
    if sh.Opt? || sh.List? || sh.Rec? {
      NestedRoundTrip(sh, v, rest);
    } else {
      LeafRoundTrip(sh, v, rest);
    }
  }

  lemma LeafRoundTrip(sh: Shape, v: Val, rest: Data)
    requires Fits(sh, v) && !sh.Opt? && !sh.List? && !sh.Rec?
    ensures Read(sh, Write(sh, v) + rest) == Some((Normal(v), rest))
  {
    hide BE, ReadU, WriteBlob, ReadBlob, WriteStr, ReadStr, Flag, ReadFlag, ReadReadOp, WriteConst, ReadConst, ConstFits, Pow256,
      AT.WriteType, AT.ReadType, AT.Small, AT.Normal, I.WriteInstr, I.ReadInstr, I.Proper;
    match sh
    case Word(w) => ReadUWrite(w, v.n, rest);
    case Bit => ReadFlagWrite(v.b, rest);
    case Text => ReadStrWrite(v.s, rest);
    case Type => AR.TypeRoundTrip(v.t, rest);
    case Constant => ConstRoundTrip(v.c, rest);
    case Code => I.InstrRoundTrip(v.i, rest);
    case ReadOp => ReadOpBack(v, rest);
    case Blob => BlobBack(v.d, rest);
  }

  lemma {:induction false} NestedRoundTrip(sh: Shape, v: Val, rest: Data)
    requires Fits(sh, v) && (sh.Opt? || sh.List? || sh.Rec?)
    ensures Read(sh, Write(sh, v) + rest) == Some((Normal(v), rest))
    decreases v, 0
  {
    match sh
    case Opt(of) =>
      if v.VNone? {
        AR.TagHead(0, rest);
      } else {
        AR.Cat3([1], Write(of, v.v), rest);
        AR.TagHead(1, Write(of, v.v) + rest);
        RoundTrip(of, v.v, rest);
      }
    case List(of) =>
      AR.Cat3(BE(|v.vs|, 4), WriteVals(of, v.vs), rest);
      AR.CountBack(|v.vs|, WriteVals(of, v.vs) + rest);
      ValsRoundTrip(of, v.vs, rest);
    case Rec(fields) => EachRoundTrip(fields, v.vs, rest);
  }

  lemma {:induction false} ValsRoundTrip(sh: Shape, vs: seq<Val>, rest: Data)
    requires AllFit(sh, vs)
    ensures ReadVals(sh, |vs|, WriteVals(sh, vs) + rest) == Some((NormalAll(vs), rest))
    decreases vs, 0
  {
    hide Fits, Write, Read, Normal;
    if vs == [] {
      assert WriteVals(sh, vs) + rest == rest;
    } else {
      AR.Cat3(Write(sh, vs[0]), WriteVals(sh, vs[1..]), rest);
      RoundTrip(sh, vs[0], WriteVals(sh, vs[1..]) + rest);
      ValsRoundTrip(sh, vs[1..], rest);
    }
  }

  lemma {:induction false} EachRoundTrip(shs: seq<Shape>, vs: seq<Val>, rest: Data)
    requires EachFits(shs, vs)
    ensures ReadEach(shs, WriteEach(shs, vs) + rest) == Some((NormalAll(vs), rest))
    decreases vs, 0
  {
    hide Fits, Write, Read, Normal;
    if vs == [] {
      assert WriteEach(shs, vs) + rest == rest;
    } else {
      AR.Cat3(Write(shs[0], vs[0]), WriteEach(shs[1..], vs[1..]), rest);
      RoundTrip(shs[0], vs[0], WriteEach(shs[1..], vs[1..]) + rest);
      EachRoundTrip(shs[1..], vs[1..], rest);
    }
  }

  /** No encoding of a shape is a proper prefix of another. */
  lemma PrefixFree(sh: Shape, v: Val, w: Val, rest: Data)
    requires Fits(sh, v) && Fits(sh, w) && Write(sh, v) + rest == Write(sh, w)
    ensures rest == [] && Normal(v) == Normal(w)
  {
    hide Fits, Write, Read, Normal;
    RoundTrip(sh, v, rest);
    RoundTrip(sh, w, []);
    assert Write(sh, w) + [] == Write(sh, w);
  }

  // ---------- whole artifacts ----------

  const MAGIC: Data := [0x52, 0x45, 0x4E, 0x44, 0x2D, 0x42, 0x43, 0x30]
  const VERSION_MAJOR: byte := 0
  const VERSION_MINOR: byte := 17

  function Frame(body: Data): Data { MAGIC + ([VERSION_MAJOR, VERSION_MINOR] + body) }

  function Encode(modules: seq<Val>): Data
    requires |modules| < TWO32 && AllFit(ModuleShape, modules)
  {
    Frame(Write(List(ModuleShape), VList(modules)))
  }

  /** The minor version is read and ignored; nothing may follow the last module. */
  function Decode(d: Data): Option<seq<Val>> {
    if |d| < 10 || d[..8] != MAGIC || d[8] != VERSION_MAJOR then None
    else
      match Read(List(ModuleShape), d[10..])
      case Some((VList(ms), rest)) => if rest == [] then Some(ms) else None
      case _ => None
  }

  lemma DecodeFrame(body: Data, ms: seq<Val>, rest: Data)
    requires Read(List(ModuleShape), body) == Some((VList(ms), rest))
    ensures Decode(Frame(body)) == if rest == [] then Some(ms) else None
  {
    hide Read;
    var d := Frame(body);
    assert d[..8] == MAGIC && d[8] == VERSION_MAJOR && d[10..] == body;
  }

  lemma ModulesBack(modules: seq<Val>, rest: Data)
    requires |modules| < TWO32 && AllFit(ModuleShape, modules)
    ensures Read(List(ModuleShape), Write(List(ModuleShape), VList(modules)) + rest) == Some((VList(NormalAll(modules)), rest))
  {
    RoundTrip(List(ModuleShape), VList(modules), rest);
  }

  /** Decoding inverts encoding, up to the normal form of types. */
  lemma DecodeEncode(modules: seq<Val>)
    requires |modules| < TWO32 && AllFit(ModuleShape, modules)
    ensures Decode(Encode(modules)) == Some(NormalAll(modules))
  {
    hide Read, Write, Decode, Frame, Normal, AllFit;
    ModulesBack(modules, []);
    var body := Write(List(ModuleShape), VList(modules));
    assert body + [] == body;
    DecodeFrame(body, NormalAll(modules), []);
  }

  /** Bytes after the last module are refused. */
  lemma TrailingRefused(modules: seq<Val>, extra: Data)
    requires |modules| < TWO32 && AllFit(ModuleShape, modules) && extra != []
    ensures Decode(Encode(modules) + extra) == None
  {
    hide Read, Write, Decode, Normal, AllFit;
    ModulesBack(modules, extra);
    var body := Write(List(ModuleShape), VList(modules));
    assert Encode(modules) + extra == Frame(body + extra);
    DecodeFrame(body + extra, NormalAll(modules), extra);
  }

  // ---------- event handlers ----------

  type Handlers = map<Str, seq<nat>>

  /** Strings compare by their bytes. */
  predicate Less(a: Str, b: Str) { Lex(Utf8All(a), Utf8All(b)) }

  ghost predicate Ascending(keys: seq<Str>) { forall i, j :: 0 <= i < j < |keys| ==> Less(keys[i], keys[j]) }

  ghost predicate Lists(keys: seq<Str>, all: set<Str>) { forall k :: k in keys <==> k in all }

  lemma {:induction false} LexTotal(a: Data, b: Data)
    ensures a == b || Lex(a, b) || Lex(b, a)
  {
    if a != [] && b != [] {
      LexTotal(a[1..], b[1..]);
      assert a == [a[0]] + a[1..] && b == [b[0]] + b[1..];
    }
  }

  lemma {:induction false} LexTransitive(a: Data, b: Data, c: Data)
    requires Lex(a, b) && Lex(b, c)
    ensures Lex(a, c)
  {
    if a != [] && a[0] == b[0] == c[0] {
      LexTransitive(a[1..], b[1..], c[1..]);
    }
  }

  lemma LessTotal(a: Str, b: Str)
    ensures a == b || Less(a, b) || Less(b, a)
  {
    hide Utf8All, Lex;
    LexTotal(Utf8All(a), Utf8All(b));
    Utf8Back(a);
    Utf8Back(b);
  }

  lemma LessStrict(a: Str, b: Str)
    requires Less(a, b)
    ensures a != b && !Less(b, a)
  {
    hide Utf8All;
    LexIrreflexive(Utf8All(a));
    if Less(b, a) {
      LexTransitive(Utf8All(a), Utf8All(b), Utf8All(a));
    }
  }

  lemma LessTransitive(a: Str, b: Str, c: Str)
    requires Less(a, b) && Less(b, c)
    ensures Less(a, c)
  {
    hide Utf8All;
    LexTransitive(Utf8All(a), Utf8All(b), Utf8All(c));
  }

  /** A set of keys has only one ascending listing. */
  lemma {:induction false} AscendingUnique(a: seq<Str>, b: seq<Str>)
    requires Ascending(a) && Ascending(b) && forall k :: k in a <==> k in b
    ensures a == b
    decreases |a|
  {
    hide Less;
    assert b != [] ==> b[0] in b;
    if a != [] {
      assert a[0] in b;
      var j :| 0 <= j < |b| && b[j] == a[0];
      assert b[0] in a;
      var i :| 0 <= i < |a| && a[i] == b[0];
      FirstSame(a, b, i, j);
      TailSame(a, b);
      AscendingUnique(a[1..], b[1..]);
      assert a == [a[0]] + a[1..] && b == [b[0]] + b[1..];
    }
  }

  lemma FirstSame(a: seq<Str>, b: seq<Str>, i: nat, j: nat)
    requires Ascending(a) && Ascending(b) && i < |a| && j < |b| && b[j] == a[0] && a[i] == b[0]
    ensures a[0] == b[0]
  {
    hide Less;
    if i > 0 && j > 0 {
      LessStrict(a[0], a[i]);
    }
  }

  lemma TailSame(a: seq<Str>, b: seq<Str>)
    requires Ascending(a) && Ascending(b) && a != [] && b != [] && a[0] == b[0] && forall k :: k in a <==> k in b
    ensures forall k :: k in a[1..] <==> k in b[1..]
  {
    hide Less;
    forall k ensures k in a[1..] <==> k in b[1..] {
      NotFirst(a, k);
      NotFirst(b, k);
    }
  }

  lemma NotFirst(a: seq<Str>, k: Str)
    requires Ascending(a) && a != []
    ensures k in a[1..] <==> k in a && k != a[0]
  {
    hide Less;
    if k in a[1..] {
      var i :| 1 <= i < |a| && a[i] == k;
      LessStrict(a[0], a[i]);
    }
  }

  /** Put one key in its place. */
  function Insert(keys: seq<Str>, k: Str): (r: seq<Str>)
    ensures forall x :: x in r <==> x in keys || x == k
  {
    if keys == [] then [k]
    else
      assert keys == [keys[0]] + keys[1..];
      if Less(k, keys[0]) then [k] + keys
      else if k == keys[0] then keys
      else [keys[0]] + Insert(keys[1..], k)
  }

  lemma {:induction false} InsertAscending(keys: seq<Str>, k: Str)
    requires Ascending(keys)
    ensures Ascending(Insert(keys, k))
  {
    hide Less;
    if keys != [] {
      LessTotal(k, keys[0]);
      if Less(k, keys[0]) {
        forall i | 1 <= i < |keys| ensures Less(k, keys[i]) {
          LessTransitive(k, keys[0], keys[i]);
        }
      } else if k != keys[0] {
        InsertAscending(keys[1..], k);
        var r := Insert(keys[1..], k);
        forall i | 0 <= i < |r| ensures Less(keys[0], r[i]) {
          assert r[i] in r;
        }
      }
    }
  }

  /** The handler table in ascending key order, whatever order the map yields its keys in. */
  method SortKeys(order: seq<Str>, all: set<Str>) returns (keys: seq<Str>)
    requires Lists(order, all)
    ensures Ascending(keys) && Lists(keys, all)
  {
    keys := [];
    for i := 0 to |order|
      invariant Ascending(keys) && forall k :: k in keys <==> k in order[..i]
    {
      InsertAscending(keys, order[i]);
      keys := Insert(keys, order[i]);
      assert order[..i + 1] == order[..i] + [order[i]];
    }
    assert order[..|order|] == order;
  }

  predicate SmallHandlers(h: Handlers) {
    |h| < TWO32 && forall k :: k in h ==> SmallStr(k) && |h[k]| < TWO32 && forall i :: 0 <= i < |h[k]| ==> h[k][i] < 65536
  }

  function Words(ns: seq<nat>): seq<Val> { if ns == [] then [] else [VWord(ns[0])] + Words(ns[1..]) }

  function Entry(k: Str, idxs: seq<nat>): Val { VRec([VText(k), VList(Words(idxs))]) }

  function Entries(h: Handlers, keys: seq<Str>): seq<Val>
    requires forall k :: k in keys ==> k in h
  {
    if keys == [] then [] else [Entry(keys[0], h[keys[0]])] + Entries(h, keys[1..])
  }

  /** The value written for a handler table. */
  method HandlersValue(h: Handlers, order: seq<Str>) returns (v: Val)
    requires Lists(order, h.Keys)
    ensures exists keys :: Ascending(keys) && Lists(keys, h.Keys) && v == VList(Entries(h, keys))
  {
    var keys := SortKeys(order, h.Keys);
    v := VList(Entries(h, keys));
  }

  /** Two enumerations of one table give the same value, so the encoding does not depend on the
      order of the map. */
  lemma HandlerOrderIrrelevant(h: Handlers, keys: seq<Str>, keys': seq<Str>)
    requires Ascending(keys) && Lists(keys, h.Keys) && Ascending(keys') && Lists(keys', h.Keys)
    ensures Entries(h, keys) == Entries(h, keys')
  {
    AscendingUnique(keys, keys');
  }

  function Numbers(vs: seq<Val>): seq<nat> { if vs == [] then [] else [if vs[0].VWord? then vs[0].n else 0] + Numbers(vs[1..]) }

  predicate IsEntry(v: Val) { v.VRec? && |v.vs| == 2 && v.vs[0].VText? && v.vs[1].VList? }

  /** Rebuild the table from the entries read, in order. */
  function Table(vs: seq<Val>): Handlers {
    if vs == [] then map[]
    else
      var n := |vs| - 1;
      var before := Table(vs[..n]);
      if IsEntry(vs[n]) then before[vs[n].vs[0].s := Numbers(vs[n].vs[1].vs)] else before
  }

  lemma {:induction false} NumbersBack(ns: seq<nat>)
    ensures Numbers(Words(ns)) == ns
  {
    if ns != [] {
      NumbersBack(ns[1..]);
    }
  }

  lemma {:induction false} EntriesSnoc(h: Handlers, keys: seq<Str>)
    requires keys != [] && forall k :: k in keys ==> k in h
    ensures var n := |keys| - 1;
      |Entries(h, keys)| == |keys| && Entries(h, keys)[..n] == Entries(h, keys[..n])
      && Entries(h, keys)[n] == Entry(keys[n], h[keys[n]])
  {
    hide Entry;
    if |keys| > 1 {
      EntriesSnoc(h, keys[1..]);
      assert keys[1..][..|keys| - 2] == keys[..|keys| - 1][1..];
    }
  }

  lemma NoEntries(h: Handlers)
    ensures Entries(h, []) == []
  {
  }

  /** Reading the entries back rebuilds the table. */
  lemma {:induction false} TableBack(h: Handlers, keys: seq<Str>)
    requires forall k :: k in keys ==> k in h
    ensures Table(Entries(h, keys)) == map k | k in h && k in keys :: h[k]
    decreases |keys|
  {
    hide Entries, Numbers, Words;
    if keys != [] {
      var n := |keys| - 1;
      EntriesSnoc(h, keys);
      TableBack(h, keys[..n]);
      NumbersBack(h[keys[n]]);
      assert keys == keys[..n] + [keys[n]];
    } else {
      NoEntries(h);
    }
  }

  /** The whole trip of a handler table: sort, write, read, rebuild. */
  lemma HandlersRoundTrip(h: Handlers, keys: seq<Str>, rest: Data)
    requires SmallHandlers(h) && Lists(keys, h.Keys) && |keys| < TWO32
    ensures Fits(HandlersShape, VList(Entries(h, keys)))
    ensures var r := Read(HandlersShape, Write(HandlersShape, VList(Entries(h, keys))) + rest);
      r.Some? && r.value.0.VList? && Table(r.value.0.vs) == h && r.value.1 == rest
  {
    hide Read, Write, Fits, Table;
    HandlersFit(h, keys);
    RoundTrip(HandlersShape, VList(Entries(h, keys)), rest);
    EntriesNormal(h, keys);
    TableBack(h, keys);
    assert (map k | k in h && k in keys :: h[k]) == h;
  }

  lemma HandlersFit(h: Handlers, keys: seq<Str>)
    requires SmallHandlers(h) && Lists(keys, h.Keys) && |keys| < TWO32
    ensures Fits(HandlersShape, VList(Entries(h, keys)))
  {
    EntriesFit(h, keys);
  }

  lemma {:induction false} EntriesFit(h: Handlers, keys: seq<Str>)
    requires SmallHandlers(h) && forall k :: k in keys ==> k in h
    ensures |Entries(h, keys)| == |keys| && AllFit(Rec([Text, List(Word(2))]), Entries(h, keys))
  {
    if keys != [] {
      EntriesFit(h, keys[1..]);
      assert keys[0] in keys;
      EntryFits(keys[0], h[keys[0]]);
    }
  }

  lemma EntryFits(k: Str, idxs: seq<nat>)
    requires SmallStr(k) && |idxs| < TWO32 && forall i :: 0 <= i < |idxs| ==> idxs[i] < 65536
    ensures Fits(Rec([Text, List(Word(2))]), Entry(k, idxs))
  {
    WordsFit(idxs);
    var shs, vs := [Text, List(Word(2))], [VText(k), VList(Words(idxs))];
    assert shs[1..] == [List(Word(2))] && vs[1..] == [VList(Words(idxs))] && shs[1..][1..] == [] && vs[1..][1..] == [];
    assert Fits(Text, VText(k)) && Fits(List(Word(2)), VList(Words(idxs)));
    assert EachFits(shs[1..][1..], vs[1..][1..]);
    assert EachFits(shs[1..], vs[1..]);
    assert EachFits(shs, vs);
  }

  lemma {:induction false} WordsFit(ns: seq<nat>)
    requires forall i :: 0 <= i < |ns| ==> ns[i] < 65536
    ensures |Words(ns)| == |ns| && AllFit(Word(2), Words(ns))
  {
    Powers();
    if ns != [] {
      WordsFit(ns[1..]);
    }
  }

  lemma {:induction false} EntriesNormal(h: Handlers, keys: seq<Str>)
    requires forall k :: k in keys ==> k in h
    ensures NormalAll(Entries(h, keys)) == Entries(h, keys)
    ensures Normal(VList(Entries(h, keys))) == VList(Entries(h, keys))
  {
    if keys != [] {
      EntriesNormal(h, keys[1..]);
      EntryNormal(keys[0], h[keys[0]]);
    }
  }

  lemma EntryNormal(k: Str, idxs: seq<nat>)
    ensures Normal(Entry(k, idxs)) == Entry(k, idxs)
  {
    WordsNormal(idxs);
    var fields := [VText(k), VList(Words(idxs))];
    assert fields[1..] == [VList(Words(idxs))] && fields[1..][1..] == [];
    assert NormalAll(fields[1..]) == [VList(Words(idxs))];
    assert Normal(fields[0]) == fields[0];
    assert NormalAll(fields) == fields;
  }

  lemma {:induction false} WordsNormal(ns: seq<nat>)
    ensures NormalAll(Words(ns)) == Words(ns)
  {
    if ns != [] {
      WordsNormal(ns[1..]);
    }
  }

  // ---------- what fits ----------

  lemma {:induction false} AllFitExactly(sh: Shape, vs: seq<Val>)
    ensures AllFit(sh, vs) <==> forall v :: v in vs ==> Fits(sh, v)
    decreases |vs|
  {
    hide Fits;
    if vs != [] {
      AllFitExactly(sh, vs[1..]);
      assert vs == [vs[0]] + vs[1..] && vs[0] in vs;
      if AllFit(sh, vs) {
        forall v | v in vs ensures Fits(sh, v) {
          assert v == vs[0] || v in vs[1..];
        }
      }
      if forall v :: v in vs ==> Fits(sh, v) {
        forall v | v in vs[1..] ensures Fits(sh, v) {
          assert v in vs;
        }
      }
    }
  }

  lemma {:induction false} EachFitsExactly(shs: seq<Shape>, vs: seq<Val>)
    ensures EachFits(shs, vs) <==> |shs| == |vs| && forall i :: 0 <= i < |vs| ==> Fits(shs[i], vs[i])
    decreases |vs|
  {
    hide Fits;
    if |shs| == |vs| && vs != [] {
      EachFitsExactly(shs[1..], vs[1..]);
      if forall i :: 0 <= i < |vs| ==> Fits(shs[i], vs[i]) {
        forall i | 0 <= i < |vs| - 1 ensures Fits(shs[1..][i], vs[1..][i]) {
          assert shs[1..][i] == shs[i + 1] && vs[1..][i] == vs[i + 1];
        }
      }
      if EachFits(shs, vs) {
        forall i | 0 <= i < |vs| ensures Fits(shs[i], vs[i]) {
          if i > 0 {
            assert shs[i] == shs[1..][i - 1] && vs[i] == vs[1..][i - 1];
          }
        }
      }
    }
  }

  /** A list fits when it has fewer than 2^32 members and they all fit; a record when each field
      fits its shape; an optional value when it is absent or fits. */
  lemma FitsExactly(of: Shape, shs: seq<Shape>, v: Val, vs: seq<Val>)
    ensures Fits(List(of), VList(vs)) <==> |vs| < 0x1_0000_0000 && forall x :: x in vs ==> Fits(of, x)
    ensures Fits(Rec(shs), VRec(vs)) <==> |shs| == |vs| && forall i :: 0 <= i < |vs| ==> Fits(shs[i], vs[i])
    ensures Fits(Opt(of), VNone) && (Fits(Opt(of), VSome(v)) <==> Fits(of, v))
  {
    hide AllFit, EachFits;
    AllFitExactly(of, vs);
    EachFitsExactly(shs, vs);
  }

  /** Constants in their machine ranges; integers and strings of fewer than 2^32 bytes. */
  lemma ConstFitsExactly(c: Const)
    ensures ConstFits(c) <==>
      match c
      case Int(n) => |Signed(n)| < 0x1_0000_0000
      case UInt(n) => |Signed(n)| < 0x1_0000_0000
      case Float(bits) => bits < 0x1_0000_0000_0000_0000
      case I32(i) => -0x8000_0000 <= i <= 0x7FFF_FFFF
      case U32(n) => n <= 0xFFFF_FFFF
      case U64(n) => n < 0x1_0000_0000_0000_0000
      case U128(n) => n < 0x1_0000_0000_0000_0000_0000_0000_0000_0000
      case Bool(_) => true
      case Str(s) => |Utf8All(s)| < 0x1_0000_0000
  {
    assert Pow256(4) == 0x1_0000_0000;
    assert Pow256(8) == 0x1_0000_0000_0000_0000;
    assert Pow256(12) == 0x1_0000_0000_0000_0000_0000_0000;
    assert Pow256(16) == 0x1_0000_0000_0000_0000_0000_0000_0000_0000;
  }
}
