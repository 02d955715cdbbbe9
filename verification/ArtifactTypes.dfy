/** Types on the wire: written, read back up to normalization, self-delimiting. */
module ArtifactTypes {
  import opened Options
  import opened Bytes
  import opened Wire

  datatype Prim = Int | UInt | Float | I32 | U32 | U64 | U128 | Bool | Unit | Resource | String | Address | Blob | JsonTy

  datatype One = Array | Set | PVec

  datatype Two = Dict | Map | PMap | PBTree

  datatype Type =
    | Basic(p: Prim)
    | Of(one: One, elem: Type)
    | Pair(two: Two, key: Type, val: Type)
    | Explicit(inner: Type)
    | Struct(name: Str, fields: seq<Field>, groups: seq<Option<Str>>)
    | Tuple(elems: seq<Type>)
    | Enum(name: Str, variants: seq<Variant>)
    | Cap(name: Str, fields: seq<Field>, owner: Str)
    | Interface(name: Str, methods: seq<Sig>)

  datatype Field = Field(name: Str, ty: Type)

  datatype Variant = Variant(name: Str, payload: seq<Type>)

  datatype Sig = Sig(name: Str, params: seq<Type>, ret: Type, isView: bool, isPure: bool)

  // ---------- tags ----------

  function PrimTag(p: Prim): byte {
    match p
    case Int => 0x01
    case I32 => 0x02
    case U32 => 0x03
    case U64 => 0x04
    case U128 => 0x05
    case Bool => 0x06
    case Unit => 0x07
    case Resource => 0x08
    case String => 0x09
    case Address => 0x0a
    case Blob => 0x0b
    case JsonTy => 0x1c
    case UInt => 0x1d
    case Float => 0x1e
  }

  function PrimOf(b: byte): Option<Prim> {
    match b
    case 0x01 => Some(Int)
    case 0x02 => Some(I32)
    case 0x03 => Some(U32)
    case 0x04 => Some(U64)
    case 0x05 => Some(U128)
    case 0x06 => Some(Bool)
    case 0x07 => Some(Unit)
    case 0x08 => Some(Resource)
    case 0x09 => Some(String)
    case 0x0a => Some(Address)
    case 0x0b => Some(Blob)
    case 0x1c => Some(JsonTy)
    case 0x1d => Some(UInt)
    case 0x1e => Some(Float)
    case _ => None
  }

  function OneTag(o: One): byte { match o case Array => 0x10 case Set => 0x11 case PVec => 0x18 }

  function OneOf(b: byte): Option<One> {
    if b == 0x10 then Some(Array) else if b == 0x11 then Some(Set) else if b == 0x18 then Some(PVec) else None
  }

  function TwoTag(t: Two): byte { match t case Dict => 0x12 case Map => 0x13 case PMap => 0x17 case PBTree => 0x1b }

  function TwoOf(b: byte): Option<Two> {
    if b == 0x12 then Some(Dict) else if b == 0x13 then Some(Map) else if b == 0x17 then Some(PMap)
    else if b == 0x1b then Some(PBTree) else None
  }

  // ---------- writing ----------

  function WriteType(t: Type): (d: Data)
    decreases t
  {
    match t
    case Basic(p) => [PrimTag(p)]
    case Of(o, e) => [OneTag(o)] + WriteType(e)
    case Pair(p, k, v) => [TwoTag(p)] + WriteType(k) + WriteType(v)
    case Explicit(inner) => WriteType(inner)
    case Struct(name, fields, groups) => [0x14] + WriteStr(name) + BE(|fields|, 4) + WriteMembers(fields, groups)
    case Tuple(es) => [0x15] + BE(|es|, 4) + WriteTypes(es)
    case Enum(name, vs) => [0x16] + WriteStr(name) + BE(|vs|, 4) + WriteVariants(vs)
    case Cap(name, fields, owner) => [0x19] + WriteStr(name) + WriteStr(owner) + BE(|fields|, 4) + WriteFields(fields)
    case Interface(name, ms) => [0x1a] + WriteStr(name) + BE(|ms|, 4) + WriteSigs(ms)
  }

  function WriteTypes(ts: seq<Type>): Data
    decreases ts
  {
    if ts == [] then [] else WriteType(ts[0]) + WriteTypes(ts[1..])
  }

  function WriteGroup(g: Option<Str>): Data { if g.Some? then [1] + WriteStr(g.value) else [0] }

  function Head(groups: seq<Option<Str>>): Option<Str> { if groups == [] then None else groups[0] }

  function Tail(groups: seq<Option<Str>>): seq<Option<Str>> { if groups == [] then [] else groups[1..] }

  /** Struct fields with their groups; a field past the end of `groups` has none. */
  function WriteMembers(fields: seq<Field>, groups: seq<Option<Str>>): Data
    decreases fields
  {
    if fields == [] then []
    else
      WriteStr(fields[0].name) + WriteType(fields[0].ty) + WriteGroup(Head(groups)) + WriteMembers(fields[1..], Tail(groups))
  }

  function WriteFields(fields: seq<Field>): Data
    decreases fields
  {
    if fields == [] then [] else WriteStr(fields[0].name) + WriteType(fields[0].ty) + WriteFields(fields[1..])
  }

  function WriteVariants(vs: seq<Variant>): Data
    decreases vs
  {
    if vs == [] then []
    else WriteStr(vs[0].name) + BE(|vs[0].payload|, 4) + WriteTypes(vs[0].payload) + WriteVariants(vs[1..])
  }

  function WriteSigs(ms: seq<Sig>): Data
    decreases ms
  {
    if ms == [] then []
    else
      WriteStr(ms[0].name) + Flag(ms[0].isView) + Flag(ms[0].isPure) + BE(|ms[0].params|, 4) + WriteTypes(ms[0].params)
      + WriteType(ms[0].ret) + WriteSigs(ms[1..])
  }

  // ---------- reading ----------

  function ReadType(s: Data): (r: Option<(Type, Data)>)
    ensures r.Some? ==> |r.value.1| < |s|
    decreases |s|, 0
  {
    if s == [] then None
    else
      var tag, rest := s[0], s[1..];
      if PrimOf(tag).Some? then Some((Basic(PrimOf(tag).value), rest))
      else if OneOf(tag).Some? then
        match ReadType(rest)
        case None => None
        case Some((e, after)) => Some((Of(OneOf(tag).value, e), after))
      else if TwoOf(tag).Some? then
        match ReadType(rest)
        case None => None
        case Some((k, mid)) =>
          match ReadType(mid)
          case None => None
          case Some((v, after)) => Some((Pair(TwoOf(tag).value, k, v), after))
      else if tag == 0x15 then
        match ReadU(4, rest)
        case None => None
        case Some((n, body)) =>
          match ReadTypes(n, body)
          case None => None
          case Some((es, after)) => Some((Tuple(es), after))
      else
        match ReadStr(rest)
        case None => None
        case Some((name, body)) => ReadNamed(tag, name, body)
  }

  /** The types that carry a name, after it. */
  function ReadNamed(tag: byte, name: Str, s: Data): (r: Option<(Type, Data)>)
    ensures r.Some? ==> |r.value.1| <= |s|
    decreases |s|, 2
  {
    if tag == 0x19 then
      match ReadStr(s)
      case None => None
      case Some((owner, body)) =>
        match ReadU(4, body)
        case None => None
        case Some((n, rest)) =>
          match ReadFields(n, rest)
          case None => None
          case Some((fields, after)) => Some((Cap(name, fields, owner), after))
    else
      match ReadU(4, s)
      case None => None
      case Some((n, rest)) =>
        if tag == 0x14 then
          match ReadMembers(n, rest)
          case None => None
          case Some((fields, groups, after)) => Some((Struct(name, fields, Squash(groups)), after))
        else if tag == 0x16 then
          match ReadVariants(n, rest)
          case None => None
          case Some((vs, after)) => Some((Enum(name, vs), after))
        else if tag == 0x1a then
          match ReadSigs(n, rest)
          case None => None
          case Some((ms, after)) => Some((Interface(name, ms), after))
        else None
  }

  /** All-absent groups are dropped. */
  function Squash(groups: seq<Option<Str>>): seq<Option<Str>> {
    if forall i :: 0 <= i < |groups| ==> groups[i] == None then [] else groups
  }

  function ReadTypes(n: nat, s: Data): (r: Option<(seq<Type>, Data)>)
    ensures r.Some? ==> |r.value.1| <= |s|
    decreases |s|, 1
  {
    if n == 0 then Some(([], s))
    else
      match ReadType(s)
      case None => None
      case Some((t, rest)) =>
        match ReadTypes(n - 1, rest)
        case None => None
        case Some((ts, after)) => Some(([t] + ts, after))
  }

  function ReadGroup(s: Data): (r: Option<(Option<Str>, Data)>)
    ensures r.Some? ==> |r.value.1| < |s|
  {
    if s == [] then None
    else if s[0] == 0 then Some((None, s[1..]))
    else
      match ReadStr(s[1..])
      case None => None
      case Some((g, after)) => Some((Some(g), after))
  }

  function ReadField(s: Data): (r: Option<(Field, Data)>)
    ensures r.Some? ==> |r.value.1| < |s|
    decreases |s|, 1
  {
    match ReadStr(s)
    case None => None
    case Some((name, rest)) =>
      match ReadType(rest)
      case None => None
      case Some((ty, after)) => Some((Field(name, ty), after))
  }

  function ReadMembers(n: nat, s: Data): (r: Option<(seq<Field>, seq<Option<Str>>, Data)>)
    ensures r.Some? ==> |r.value.2| <= |s|
    decreases |s|, 2
  {
    if n == 0 then Some(([], [], s))
    else
      match ReadField(s)
      case None => None
      case Some((f, mid)) =>
        match ReadGroup(mid)
        case None => None
        case Some((g, rest)) =>
          match ReadMembers(n - 1, rest)
          case None => None
          case Some((fs, gs, after)) => Some(([f] + fs, [g] + gs, after))
  }

  function ReadFields(n: nat, s: Data): (r: Option<(seq<Field>, Data)>)
    ensures r.Some? ==> |r.value.1| <= |s|
    decreases |s|, 2
  {
    if n == 0 then Some(([], s))
    else
      match ReadField(s)
      case None => None
      case Some((f, rest)) =>
        match ReadFields(n - 1, rest)
        case None => None
        case Some((fs, after)) => Some(([f] + fs, after))
  }

  function ReadVariant(s: Data): (r: Option<(Variant, Data)>)
    ensures r.Some? ==> |r.value.1| < |s|
    decreases |s|, 1
  {
    match ReadStr(s)
    case None => None
    case Some((name, mid)) =>
      match ReadU(4, mid)
      case None => None
      case Some((n, rest)) =>
        match ReadTypes(n, rest)
        case None => None
        case Some((payload, after)) => Some((Variant(name, payload), after))
  }

  function ReadVariants(n: nat, s: Data): (r: Option<(seq<Variant>, Data)>)
    ensures r.Some? ==> |r.value.1| <= |s|
    decreases |s|, 2
  {
    if n == 0 then Some(([], s))
    else
      match ReadVariant(s)
      case None => None
      case Some((v, rest)) =>
        match ReadVariants(n - 1, rest)
        case None => None
        case Some((vs, after)) => Some(([v] + vs, after))
  }

  function ReadSig(s: Data): (r: Option<(Sig, Data)>)
    ensures r.Some? ==> |r.value.1| < |s|
    decreases |s|, 1
  {
    match ReadStr(s)
    case None => None
    case Some((name, s1)) =>
      match ReadFlag(s1)
      case None => None
      case Some((isView, s2)) =>
        match ReadFlag(s2)
        case None => None
        case Some((isPure, s3)) =>
          match ReadU(4, s3)
          case None => None
          case Some((n, s4)) =>
            match ReadTypes(n, s4)
            case None => None
            case Some((params, s5)) =>
              match ReadType(s5)
              case None => None
              case Some((ret, after)) => Some((Sig(name, params, ret, isView, isPure), after))
  }

  function ReadSigs(n: nat, s: Data): (r: Option<(seq<Sig>, Data)>)
    ensures r.Some? ==> |r.value.1| <= |s|
    decreases |s|, 2
  {
    if n == 0 then Some(([], s))
    else
      match ReadSig(s)
      case None => None
      case Some((m, rest)) =>
        match ReadSigs(n - 1, rest)
        case None => None
        case Some((ms, after)) => Some(([m] + ms, after))
  }

  // ---------- normal form ----------

  /** What survives the wire: literal wrappers go, absent groups are dropped. */
  function Normal(t: Type): Type
    decreases t
  {
    match t
    case Basic(_) => t
    case Of(o, e) => Of(o, Normal(e))
    case Pair(p, k, v) => Pair(p, Normal(k), Normal(v))
    case Explicit(inner) => Normal(inner)
    case Struct(name, fields, groups) => Struct(name, NormalFields(fields), Squash(Aligned(groups, |fields|)))
    case Tuple(es) => Tuple(NormalTypes(es))
    case Enum(name, vs) => Enum(name, NormalVariants(vs))
    case Cap(name, fields, owner) => Cap(name, NormalFields(fields), owner)
    case Interface(name, ms) => Interface(name, NormalSigs(ms))
  }

  /** One group per field. */
  function Aligned(groups: seq<Option<Str>>, n: nat): (r: seq<Option<Str>>)
    ensures |r| == n
    decreases n
  {
    if n == 0 then [] else [Head(groups)] + Aligned(Tail(groups), n - 1)
  }

  function NormalTypes(ts: seq<Type>): seq<Type>
    decreases ts
  {
    if ts == [] then [] else [Normal(ts[0])] + NormalTypes(ts[1..])
  }

  function NormalFields(fs: seq<Field>): seq<Field>
    decreases fs
  {
    if fs == [] then [] else [Field(fs[0].name, Normal(fs[0].ty))] + NormalFields(fs[1..])
  }

  function NormalVariants(vs: seq<Variant>): seq<Variant>
    decreases vs
  {
    if vs == [] then [] else [Variant(vs[0].name, NormalTypes(vs[0].payload))] + NormalVariants(vs[1..])
  }

  function NormalSigs(ms: seq<Sig>): seq<Sig>
    decreases ms
  {
    if ms == [] then []
    else
      var m := ms[0];
      [Sig(m.name, NormalTypes(m.params), Normal(m.ret), m.isView, m.isPure)] + NormalSigs(ms[1..])
  }

  /** Every length fits its 32-bit count. */
  predicate Small(t: Type)
    decreases t
  {
    match t
    case Basic(_) => true
    case Of(_, e) => Small(e)
    case Pair(_, k, v) => Small(k) && Small(v)
    case Explicit(inner) => Small(inner)
    case Struct(name, fields, groups) =>
      SmallStr(name) && |fields| < TWO32 && SmallFields(fields) && forall i :: 0 <= i < |groups| ==> SmallGroup(groups[i])
    case Tuple(es) => |es| < TWO32 && SmallTypes(es)
    case Enum(name, vs) => SmallStr(name) && |vs| < TWO32 && SmallVariants(vs)
    case Cap(name, fields, owner) => SmallStr(name) && SmallStr(owner) && |fields| < TWO32 && SmallFields(fields)
    case Interface(name, ms) => SmallStr(name) && |ms| < TWO32 && SmallSigs(ms)
  }

  predicate SmallGroup(g: Option<Str>) { g.Some? ==> SmallStr(g.value) }

  predicate SmallTypes(ts: seq<Type>)
    decreases ts
  {
    ts == [] || (Small(ts[0]) && SmallTypes(ts[1..]))
  }

  predicate SmallFields(fs: seq<Field>)
    decreases fs
  {
    fs == [] || (SmallStr(fs[0].name) && Small(fs[0].ty) && SmallFields(fs[1..]))
  }

  predicate SmallVariants(vs: seq<Variant>)
    decreases vs
  {
    vs == [] ||
      (SmallStr(vs[0].name) && |vs[0].payload| < TWO32 && SmallTypes(vs[0].payload) && SmallVariants(vs[1..]))
  }

  predicate SmallSigs(ms: seq<Sig>)
    decreases ms
  {
    ms == [] ||
      (SmallStr(ms[0].name) && |ms[0].params| < TWO32 && SmallTypes(ms[0].params) && Small(ms[0].ret) && SmallSigs(ms[1..]))
  }

  // ---------- what is small ----------

  /** Lists of types, fields, variants and methods are small when their members are. */
  lemma {:induction false} SmallTypesExactly(ts: seq<Type>)
    ensures SmallTypes(ts) <==> forall i :: 0 <= i < |ts| ==> Small(ts[i])
    decreases |ts|
  {
    hide Small;
    if ts != [] {
      SmallTypesExactly(ts[1..]);
      assert forall i :: 1 <= i < |ts| ==> ts[i] == ts[1..][i - 1];
      if forall i :: 0 <= i < |ts| ==> Small(ts[i]) {
        assert forall i :: 0 <= i < |ts| - 1 ==> ts[1..][i] == ts[i + 1];
      }
    }
  }

  lemma {:induction false} SmallFieldsExactly(fs: seq<Field>)
    ensures SmallFields(fs) <==> forall i :: 0 <= i < |fs| ==> SmallStr(fs[i].name) && Small(fs[i].ty)
    decreases |fs|
  {
    hide Small, SmallStr;
    if fs != [] {
      SmallFieldsExactly(fs[1..]);
      assert forall i :: 1 <= i < |fs| ==> fs[i] == fs[1..][i - 1];
      if forall i :: 0 <= i < |fs| ==> SmallStr(fs[i].name) && Small(fs[i].ty) {
        assert forall i :: 0 <= i < |fs| - 1 ==> fs[1..][i] == fs[i + 1];
      }
    }
  }
}
