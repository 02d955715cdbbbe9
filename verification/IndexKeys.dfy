/** Composite index keys: fixed-width fields packed big-endian, inverted where descending. */
module IndexKeys {
  import opened Options
  import opened Bytes

  datatype Value =
    | U32(u32: nat)
    | U64(u64: nat)
    | U128(u128: nat)
    | I32(i32: int)
    | Raw(bytes: seq<byte>)
    | Struct(fields: seq<(string, Value)>)
    | Opaque(id: int)

  datatype Direction = Asc | Desc

  datatype Field = Field(path: seq<string>, direction: Direction)

  const TWO31: nat := 0x8000_0000
  const TWO32: nat := 0x1_0000_0000

  /** The values the machine integers can take. */
  predicate Fits(v: Value) {
    match v
    case U32(n) => n < Pow256(4)
    case U64(n) => n < Pow256(8)
    case U128(n) => n < Pow256(16)
    case I32(n) => -(TWO31 as int) <= n < TWO31
    case _ => true
  }

  // ---------- the byte builtins ----------

  /** A signed word as unsigned bits, with the sign bit flipped. */
  function Flipped(n: int): nat {
    var bits := if n < 0 then n + TWO32 else n;
    if 0 <= bits < TWO31 then bits + TWO31 else if TWO31 <= bits then bits - TWO31 else 0
  }

  function ToBeBytes(v: Value): Option<seq<byte>> {
    match v
    case U32(n) => Some(BE(n, 4))
    case U64(n) => Some(BE(n, 8))
    case U128(n) => Some(BE(n, 16))
    case I32(n) => Some(BE(Flipped(n), 4))
    case _ => None
  }

  function BitNot(s: seq<byte>): (r: seq<byte>)
    ensures |r| == |s| && forall i :: 0 <= i < |s| ==> r[i] == 255 - s[i]
  {
    seq(|s|, i requires 0 <= i < |s| => 255 - s[i])
  }

  function Lookup(fields: seq<(string, Value)>, name: string): Option<Value> {
    if fields == [] then None
    else if fields[0].0 == name then Some(fields[0].1)
    else Lookup(fields[1..], name)
  }

  function GetField(v: Value, name: string): Option<Value> {
    if v.Struct? then Lookup(v.fields, name) else None
  }

  function Walk(path: seq<string>, v: Value): Option<Value>
    decreases |path|
  {
    if path == [] then Some(v)
    else
      match Walk(path[..|path| - 1], v)
      case None => None
      case Some(w) => GetField(w, path[|path| - 1])
  }

  // ---------- packing ----------

  /** The bytes one field contributes. */
  function Part(f: Field, v: Value): Option<seq<byte>> {
    match Walk(f.path, v)
    case None => None
    case Some(w) =>
      match ToBeBytes(w)
      case None => None
      case Some(b) => Some(if f.direction == Desc then BitNot(b) else b)
  }

  /** All the fields, first one most significant. */
  function Pack(fields: seq<Field>, v: Value): Option<seq<byte>>
    decreases |fields|
  {
    if fields == [] then Some([])
    else
      match Part(fields[0], v)
      case None => None
      case Some(b) =>
        match Pack(fields[1..], v)
        case None => None
        case Some(rest) => Some(b + rest)
  }

  predicate Direct(fields: seq<Field>) { |fields| == 1 && fields[0].direction == Asc }

  /** The key of a record: the field itself for a single ascending field, packed bytes otherwise. */
  function Key(fields: seq<Field>, v: Value): Option<Value> {
    if Direct(fields) then Walk(fields[0].path, v)
    else
      match Pack(fields, v)
      case None => None
      case Some(b) => Some(Raw(b))
  }

  method WalkFieldPath(path: seq<string>, v: Value) returns (r: Option<Value>)
    ensures r == Walk(path, v)
  {
    var cur := v;
    for i := 0 to |path|
      invariant Walk(path[..i], v) == Some(cur)
      invariant forall j :: 0 <= j <= i ==> Walk(path[..j], v).Some?
    {
      assert path[..i + 1][..i] == path[..i];
      var next := GetField(cur, path[i]);
      if next.None? {
        WalkStops(path, i + 1, v);
        return None;
      }
      cur := next.value;
    }
    assert path[..|path|] == path;
    return Some(cur);
  }

  lemma {:induction false} WalkStops(path: seq<string>, i: nat, v: Value)
    requires i <= |path| && Walk(path[..i], v) == None
    ensures Walk(path, v) == None
    decreases |path|
  {
    if i < |path| {
      var n := |path| - 1;
      assert path[..n][..i] == path[..i];
      WalkStops(path[..n], i, v);
    } else {
      assert path[..i] == path;
    }
  }

  lemma {:induction false} PackSnoc(fields: seq<Field>, f: Field, v: Value)
    ensures Pack(fields + [f], v) ==
      match Pack(fields, v)
      case None => None
      case Some(b) =>
        match Part(f, v)
        case None => None
        case Some(c) => Some(b + c)
    decreases |fields|
  {
    hide Part;
    var all := fields + [f];
    if fields == [] {
      assert all[1..] == [];
      match Part(f, v)
      case None =>
      case Some(c) => assert c + [] == c && [] + c == c;
    } else {
      assert all[0] == fields[0] && all[1..] == fields[1..] + [f];
      PackSnoc(fields[1..], f, v);
      match Part(fields[0], v)
      case None =>
      case Some(a) =>
        match Pack(fields[1..], v)
        case None =>
        case Some(b) =>
          match Part(f, v)
          case None =>
          case Some(c) => assert a + (b + c) == a + b + c;
    }
  }

  lemma {:induction false} PackStops(fields: seq<Field>, i: nat, v: Value)
    requires i <= |fields| && Pack(fields[..i], v) == None
    ensures Pack(fields, v) == None
    decreases |fields|
  {
    if i < |fields| {
      var n := |fields| - 1;
      assert fields[..n][..i] == fields[..i];
      PackStops(fields[..n], i, v);
      assert fields == fields[..n] + [fields[n]];
      PackSnoc(fields[..n], fields[n], v);
    } else {
      assert fields[..i] == fields;
    }
  }

  method ProjectIndexKey(fields: seq<Field>, v: Value) returns (r: Option<Value>)
    ensures r == Key(fields, v)
  {
    if Direct(fields) {
      r := WalkFieldPath(fields[0].path, v);
      return;
    }
    var packed: seq<byte> := [];
    for i := 0 to |fields|
      invariant Pack(fields[..i], v) == Some(packed)
    {
      var f := fields[i];
      PackSnoc(fields[..i], f, v);
      assert fields[..i + 1] == fields[..i] + [f];
      var w := WalkFieldPath(f.path, v);
      var be := if w.None? then None else ToBeBytes(w.value);
      if be.None? {
        PackStops(fields, i + 1, v);
        return None;
      }
      var part := if f.direction == Desc then BitNot(be.value) else be.value;
      packed := packed + part;
    }
    assert fields[..|fields|] == fields;
    return Some(Raw(packed));
  }

  // ---------- order ----------

  /** Two values of one fixed-width integer type. */
  ghost predicate SameKind(v: Value, w: Value) {
    || (v.U32? && w.U32?) || (v.U64? && w.U64?) || (v.U128? && w.U128?) || (v.I32? && w.I32?)
  }

  ghost function Number(v: Value): int {
    match v
    case U32(n) => n
    case U64(n) => n
    case U128(n) => n
    case I32(n) => n
    case _ => 0
  }

  /** Both records have the column, at the same type. */
  ghost predicate Comparable(f: Field, v: Value, w: Value) {
    && Walk(f.path, v).Some? && Walk(f.path, w).Some?
    && SameKind(Walk(f.path, v).value, Walk(f.path, w).value)
    && Fits(Walk(f.path, v).value) && Fits(Walk(f.path, w).value)
  }

  ghost function Column(f: Field, v: Value): int
    requires Walk(f.path, v).Some?
  {
    Number(Walk(f.path, v).value)
  }

  /** Field-by-field priority: the first field that differs decides, by its direction. */
  ghost predicate Before(fields: seq<Field>, v: Value, w: Value)
    requires forall f :: f in fields ==> Comparable(f, v, w)
  {
    fields != [] &&
      assert Comparable(fields[0], v, w);
      var a, b := Column(fields[0], v), Column(fields[0], w);
      if a == b then Before(fields[1..], v, w) else if fields[0].direction == Asc then a < b else b < a
  }

  lemma {:induction false} NotReverses(a: seq<byte>, b: seq<byte>)
    requires |a| == |b|
    ensures Lex(BitNot(a), BitNot(b)) <==> Lex(b, a)
  {
    if a != [] {
      NotReverses(a[1..], b[1..]);
      assert BitNot(a)[1..] == BitNot(a[1..]);
      assert BitNot(b)[1..] == BitNot(b[1..]);
    }
  }

  lemma NotInjective(a: seq<byte>, b: seq<byte>)
    requires BitNot(a) == BitNot(b)
    ensures a == b
  {
    forall i | 0 <= i < |a| ensures a[i] == b[i] {
      assert BitNot(a)[i] == BitNot(b)[i];
    }
  }

  /** One field's bytes: equal width, equal exactly for equal values, ordered by its direction. */
  lemma PartOrder(f: Field, v: Value, w: Value)
    requires Comparable(f, v, w)
    ensures Part(f, v).Some? && Part(f, w).Some?
    ensures var p, q := Part(f, v).value, Part(f, w).value;
      && |p| == |q| && (p == q <==> Column(f, v) == Column(f, w))
      && (Lex(p, q) <==> if f.direction == Asc then Column(f, v) < Column(f, w) else Column(f, w) < Column(f, v))
  {
    var x, y := Walk(f.path, v).value, Walk(f.path, w).value;
    ToBeOrder(x, y);
    hide ToBeBytes, Lex, Number;
    var p, q := ToBeBytes(x).value, ToBeBytes(y).value;
    NotReverses(p, q);
    if BitNot(p) == BitNot(q) {
      NotInjective(p, q);
    }
  }

  lemma ToBeOrder(x: Value, y: Value)
    requires SameKind(x, y) && Fits(x) && Fits(y)
    ensures ToBeBytes(x).Some? && ToBeBytes(y).Some?
    ensures var p, q := ToBeBytes(x).value, ToBeBytes(y).value;
      && |p| == |q| && (p == q <==> Number(x) == Number(y))
      && (Lex(p, q) <==> Number(x) < Number(y)) && (Lex(q, p) <==> Number(y) < Number(x))
  {
    var w, a, b := if x.U64? then 8 else if x.U128? then 16 else 4,
      if x.I32? then Flipped(x.i32) else Number(x), if y.I32? then Flipped(y.i32) else Number(y);
    assert Pow256(4) == TWO32;
    hide BE, Lex, Pow256;
    BEOrder(a, b, w);
    BEOrder(b, a, w);
    if BE(a, w) == BE(b, w) {
      BEInjective(a, b, w);
    }
  }

  /** Packed keys embed the requested order: byte order is field priority with descending fields
      reversed, and equal keys mean equal fields. */
  lemma {:induction false} KeyOrder(fields: seq<Field>, v: Value, w: Value)
    requires forall f :: f in fields ==> Comparable(f, v, w)
    ensures Pack(fields, v).Some? && Pack(fields, w).Some?
    ensures Lex(Pack(fields, v).value, Pack(fields, w).value) <==> Before(fields, v, w)
    ensures Pack(fields, v) == Pack(fields, w) <==> forall f :: f in fields ==> Column(f, v) == Column(f, w)
    decreases |fields|
  {
    hide Part, Comparable;
    if fields != [] {
      var f, rest := fields[0], fields[1..];
      assert forall g :: g in fields <==> g == f || g in rest;
      KeyOrder(rest, v, w);
      PartOrder(f, v, w);
      PackCons(fields, v);
      PackCons(fields, w);
      var p, q := Part(f, v).value, Part(f, w).value;
      var s, t := Pack(rest, v).value, Pack(rest, w).value;
      if p == q {
        LexTail(p, s, t);
        assert p + s == p + t <==> s == t by { assert (p + s)[|p|..] == s && (p + t)[|p|..] == t; }
      } else {
        LexHead(p, q, s, t);
        assert p + s != q + t by { assert (p + s)[..|p|] == p && (q + t)[..|p|] == q; }
      }
    }
  }

  lemma PackCons(fields: seq<Field>, v: Value)
    requires fields != [] && Part(fields[0], v).Some? && Pack(fields[1..], v).Some?
    ensures Pack(fields, v) == Some(Part(fields[0], v).value + Pack(fields[1..], v).value)
  {
  }

  // ---------- bytes and fields ----------

  /** An integer becomes its own bytes, at its own width, most significant first; a signed one
      is shifted so that the least is zero. */
  lemma ToBeExactly(v: Value)
    requires Fits(v)
    ensures ToBeBytes(v).Some? <==> v.U32? || v.U64? || v.U128? || v.I32?
    ensures v.U32? ==> |ToBeBytes(v).value| == 4 && Num(ToBeBytes(v).value) == v.u32
    ensures v.U64? ==> |ToBeBytes(v).value| == 8 && Num(ToBeBytes(v).value) == v.u64
    ensures v.U128? ==> |ToBeBytes(v).value| == 16 && Num(ToBeBytes(v).value) == v.u128
    ensures v.I32? ==> |ToBeBytes(v).value| == 4 && Num(ToBeBytes(v).value) == v.i32 + 0x8000_0000
  {
    assert Pow256(4) == TWO32;
    match v
    case U32(n) => NumBE(n, 4);
    case U64(n) => NumBE(n, 8);
    case U128(n) => NumBE(n, 16);
    case I32(n) => NumBE(Flipped(n), 4);
    case _ =>
  }

  /** Field access gives the first field of that name. */
  lemma {:induction false} LookupExactly(fields: seq<(string, Value)>, name: string)
    ensures Lookup(fields, name).None? <==> forall i :: 0 <= i < |fields| ==> fields[i].0 != name
    ensures forall i :: 0 <= i < |fields| && fields[i].0 == name && (forall j :: 0 <= j < i ==> fields[j].0 != name) ==>
              Lookup(fields, name) == Some(fields[i].1)
    decreases |fields|
  {
    if fields != [] {
      LookupExactly(fields[1..], name);
      assert forall i :: 1 <= i < |fields| ==> fields[1..][i - 1] == fields[i];
      if fields[0].0 != name {
        forall i | 0 <= i < |fields| && fields[i].0 == name && (forall j :: 0 <= j < i ==> fields[j].0 != name)
          ensures Lookup(fields, name) == Some(fields[i].1)
        {
          assert fields[1..][i - 1] == fields[i];
          assert forall j :: 0 <= j < i - 1 ==> fields[1..][j] == fields[j + 1];
        }
        if forall i :: 0 <= i < |fields| ==> fields[i].0 != name {
          forall i | 0 <= i < |fields| - 1 ensures fields[1..][i].0 != name {
            assert fields[1..][i] == fields[i + 1];
          }
        }
      }
    }
  }

  /** Records with the same 64-bit or signed column compare, whatever else they hold. */
  lemma ColumnsCompare(name: string, x: nat, y: nat, i: int, j: int, dir: Direction)
    requires x < 0x1_0000_0000_0000_0000 && y < 0x1_0000_0000_0000_0000
    requires -0x8000_0000 <= i < 0x8000_0000 && -0x8000_0000 <= j < 0x8000_0000
    ensures var f := Field([name], dir);
      && Comparable(f, Struct([(name, U64(x))]), Struct([(name, U64(y))])) && Column(f, Struct([(name, U64(x))])) == x
      && Comparable(f, Struct([(name, I32(i))]), Struct([(name, I32(j))])) && Column(f, Struct([(name, I32(i))])) == i
  {
    assert Pow256(4) == 0x1_0000_0000;
    assert Pow256(8) == 0x1_0000_0000_0000_0000;
    forall v: Value ensures Walk([name], Struct([(name, v)])) == Some(v) {
      assert [name][..0] == [];
      assert Walk([], Struct([(name, v)])) == Some(Struct([(name, v)]));
    }
  }
}
