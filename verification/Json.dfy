/** Canonical JSON text: printing, parsing, and their round trip, on UTF-8 bytes. */
module Json {
  import opened Options
  import opened Bytes

  type Text = seq<byte>

  /** A Unicode scalar value. */
  type Code = c: int | 0 <= c < 0x11_0000 && !(0xD800 <= c < 0xE000)

  type Str = seq<Code>

  /** `Float` keeps the text of the literal; its numeric reading is not modelled. */
  datatype Value =
    | Null
    | Bool(b: bool)
    | Int(n: int)
    | Float(literal: Text)
    | Str(s: Str)
    | Array(items: seq<Value>)
    | Object(fields: seq<Field>)

  datatype Field = Field(key: Str, value: Value)

  // ---------- UTF-8 ----------

  function Utf8(c: Code): (s: Text)
    ensures 1 <= |s| <= 4
  {
    if c < 0x80 then [c]
    else if c < 0x800 then [0xC0 + c / 64, 0x80 + c % 64]
    else if c < 0x1_0000 then [0xE0 + c / 4096, 0x80 + c / 64 % 64, 0x80 + c % 64]
    else [0xF0 + c / 262144, 0x80 + c / 4096 % 64, 0x80 + c / 64 % 64, 0x80 + c % 64]
  }

  function Utf8Len(first: byte): nat {
    if first < 0xC0 then 1 else if first < 0xE0 then 2 else if first < 0xF0 then 3 else 4
  }

  /** The scalar a group of bytes stands for, if it is its one valid encoding. */
  function FromUtf8(s: Text): Option<Code>
    requires 1 <= |s| <= 4
  {
    var a: int := s[0];
    var b: int := if |s| >= 2 then s[1] else 0x80;
    var c: int := if |s| >= 3 then s[2] else 0x80;
    var d: int := if |s| >= 4 then s[3] else 0x80;
    var raw :=
      if |s| == 1 then a
      else if |s| == 2 then (a - 0xC0) * 64 + (b - 0x80)
      else if |s| == 3 then (a - 0xE0) * 4096 + (b - 0x80) * 64 + (c - 0x80)
      else (a - 0xF0) * 262144 + (b - 0x80) * 4096 + (c - 0x80) * 64 + (d - 0x80);
    if 0 <= raw < 0x11_0000 && !(0xD800 <= raw < 0xE000) && Utf8(raw) == s then Some(raw) else None
  }

  lemma Utf8RoundTrip(c: Code)
    ensures |Utf8(c)| == Utf8Len(Utf8(c)[0]) && FromUtf8(Utf8(c)) == Some(c)
    ensures c >= 0x80 ==> Utf8(c)[0] >= 0x80
  {
    if 0x800 <= c < 0x1_0000 {
      ThreeBytes(c);
    } else if c >= 0x1_0000 {
      FourBytes(c);
    }
  }

  lemma ThreeBytes(c: Code)
    requires 0x800 <= c < 0x1_0000
    ensures c == c / 4096 * 4096 + c / 64 % 64 * 64 + c % 64
  {
  }

  lemma FourBytes(c: Code)
    requires c >= 0x1_0000
    ensures c == c / 262144 * 262144 + c / 4096 % 64 * 4096 + c / 64 % 64 * 64 + c % 64
  {
    assert c / 4096 == c / 262144 * 64 + c / 4096 % 64;
  }

  // ---------- printing ----------

  const QUOTE: byte := 0x22
  const BACKSLASH: byte := 0x5C
  const COMMA: byte := 0x2C
  const COLON: byte := 0x3A

  function Hex(d: nat): byte
    requires d < 16
  {
    if d < 10 then 0x30 + d else 0x61 + d - 10
  }

  /** One character of a string literal. */
  function Escape(c: Code): (s: Text)
    ensures s != []
  {
    if c == 0x22 then [BACKSLASH, QUOTE]
    else if c == 0x5C then [BACKSLASH, BACKSLASH]
    else if c == 0x0A then [BACKSLASH, 0x6E]
    else if c == 0x0D then [BACKSLASH, 0x72]
    else if c == 0x09 then [BACKSLASH, 0x74]
    else if c < 0x20 then [BACKSLASH, 0x75, 0x30, 0x30, Hex(c / 16), Hex(c % 16)]
    else Utf8(c)
  }

  function PrintChars(s: Str): Text {
    if s == [] then [] else Escape(s[0]) + PrintChars(s[1..])
  }

  function PrintStr(s: Str): Text { [QUOTE] + PrintChars(s) + [QUOTE] }

  function Digits(n: nat): (d: Text)
    ensures d != [] && forall i :: 0 <= i < |d| ==> 0x30 <= d[i] <= 0x39
  {
    if n < 10 then [0x30 + n] else Digits(n / 10) + [0x30 + n % 10]
  }

  function PrintInt(n: int): Text { if n < 0 then [0x2D] + Digits(-n) else Digits(n) }

  function Print(v: Value): Text
    decreases v
  {
    match v
    case Null => [0x6E, 0x75, 0x6C, 0x6C]
    case Bool(b) => if b then [0x74, 0x72, 0x75, 0x65] else [0x66, 0x61, 0x6C, 0x73, 0x65]
    case Int(n) => PrintInt(n)
    case Float(t) => t
    case Str(s) => PrintStr(s)
    case Array(items) => [0x5B] + PrintItems(items) + [0x5D]
    case Object(fields) => [0x7B] + PrintFields(fields) + [0x7D]
  }

  function PrintItems(items: seq<Value>): Text
    decreases items
  {
    if items == [] then []
    else if |items| == 1 then Print(items[0])
    else Print(items[0]) + [COMMA] + PrintItems(items[1..])
  }

  function PrintFields(fields: seq<Field>): Text
    decreases fields
  {
    if fields == [] then []
    else
      var one := PrintStr(fields[0].key) + [COLON] + Print(fields[0].value);
      if |fields| == 1 then one else one + [COMMA] + PrintFields(fields[1..])
  }

  // ---------- parsing: what is left after each piece ----------

  predicate IsWs(b: byte) { b == 0x20 || b == 0x09 || b == 0x0A || b == 0x0D }

  predicate IsDigit(b: byte) { 0x30 <= b <= 0x39 }

  function SkipWs(s: Text): (r: Text)
    ensures |r| <= |s|
  {
    if s != [] && IsWs(s[0]) then SkipWs(s[1..]) else s
  }

  predicate Starts(s: Text, b: byte) { s != [] && s[0] == b }

  function ParseLit(s: Text, lit: Text): (r: Option<Text>)
    ensures r.Some? ==> |r.value| == |s| - |lit|
  {
    if |lit| <= |s| && s[..|lit|] == lit then Some(s[|lit|..]) else None
  }

  function HexValue(b: byte): Option<nat> {
    if 0x30 <= b <= 0x39 then Some(b - 0x30)
    else if 0x61 <= b <= 0x66 then Some(b - 0x61 + 10)
    else if 0x41 <= b <= 0x46 then Some(b - 0x41 + 10)
    else None
  }

  /** Four hexadecimal digits naming a scalar value; surrogates are refused. */
  function ParseHex(s: Text): Option<Code>
    requires |s| == 4
  {
    var a, b, c, d := HexValue(s[0]), HexValue(s[1]), HexValue(s[2]), HexValue(s[3]);
    if a.None? || b.None? || c.None? || d.None? then None
    else
      var x := ((a.value * 16 + b.value) * 16 + c.value) * 16 + d.value;
      if 0 <= x < 0x11_0000 && !(0xD800 <= x < 0xE000) then Some(x) else None
  }

  /** The part of an escape after the backslash. */
  function ParseEscape(s: Text): (r: Option<(Code, Text)>)
    ensures r.Some? ==> |r.value.1| < |s|
  {
    if s == [] then None
    else if s[0] == QUOTE || s[0] == BACKSLASH || s[0] == 0x2F then Some((s[0], s[1..]))
    else if s[0] == 0x6E then Some((0x0A, s[1..]))
    else if s[0] == 0x72 then Some((0x0D, s[1..]))
    else if s[0] == 0x74 then Some((0x09, s[1..]))
    else if s[0] == 0x62 then Some((0x08, s[1..]))
    else if s[0] == 0x66 then Some((0x0C, s[1..]))
    else if s[0] == 0x75 && |s| >= 5 then
      var c := ParseHex(s[1..5]);
      if c.Some? then Some((c.value, s[5..])) else None
    else None
  }

  /** One character of a string, which is not its closing quote. */
  function ParseChar(s: Text): (r: Option<(Code, Text)>)
    ensures r.Some? ==> |r.value.1| < |s|
  {
    if s == [] then None
    else if s[0] == BACKSLASH then ParseEscape(s[1..])
    else if s[0] < 0x20 then None
    else
      var n := Utf8Len(s[0]);
      if |s| < n then None
      else
        var c := FromUtf8(s[..n]);
        if c.Some? then Some((c.value, s[n..])) else None
  }

  /** The rest of a string after its opening quote. */
  function ParseChars(s: Text, acc: Str): (r: Option<(Str, Text)>)
    ensures r.Some? ==> |r.value.1| < |s|
    decreases |s|
  {
    if Starts(s, QUOTE) then Some((acc, s[1..]))
    else
      match ParseChar(s)
      case None => None
      case Some((c, rest)) => ParseChars(rest, acc + [c])
  }

  function ParseStr(s: Text): (r: Option<(Str, Text)>)
    ensures r.Some? ==> |r.value.1| < |s|
  {
    if Starts(s, QUOTE) then ParseChars(s[1..], []) else None
  }

  /** How many digits a text starts with. */
  function Span(s: Text): (n: nat)
    ensures n <= |s|
  {
    if s != [] && IsDigit(s[0]) then 1 + Span(s[1..]) else 0
  }

  function Decimal(d: Text): nat
    requires forall i :: 0 <= i < |d| ==> IsDigit(d[i])
  {
    if d == [] then 0
    else
      assert IsDigit(d[|d| - 1]);
      Decimal(d[..|d| - 1]) * 10 + ((d[|d| - 1] as int) - 0x30)
  }

  lemma {:induction false} SpanDigits(s: Text)
    ensures forall i :: 0 <= i < Span(s) ==> IsDigit(s[i])
    ensures Span(s) < |s| ==> !IsDigit(s[Span(s)])
  {
    if s != [] && IsDigit(s[0]) {
      SpanDigits(s[1..]);
    }
  }

  /** After the integer part: how far a fraction reaches; `None` for a point without digits. */
  function FracEnd(s: Text, i: nat): (r: Option<nat>)
    requires i <= |s|
    ensures r.Some? ==> i <= r.value <= |s|
  {
    if i < |s| && s[i] == 0x2E then
      var n := Span(s[i + 1..]);
      if n == 0 then None else Some(i + 1 + n)
    else Some(i)
  }

  function ExpEnd(s: Text, i: nat): (r: Option<nat>)
    requires i <= |s|
    ensures r.Some? ==> i <= r.value <= |s|
  {
    if i < |s| && (s[i] == 0x65 || s[i] == 0x45) then
      var j := if i + 1 < |s| && (s[i + 1] == 0x2B || s[i + 1] == 0x2D) then i + 2 else i + 1;
      var n := Span(s[j..]);
      if n == 0 then None else Some(j + n)
    else Some(i)
  }

  function ParseNumber(s: Text): (r: Option<(Value, Text)>)
    ensures r.Some? ==> |r.value.1| < |s|
  {
    var sign := if Starts(s, 0x2D) then 1 else 0;
    var n := Span(s[sign..]);
    if n == 0 then None
    else
      var i := sign + n;
      match FracEnd(s, i)
      case None => None
      case Some(f) =>
        match ExpEnd(s, f)
        case None => None
        case Some(e) =>
          if e > i then Some((Float(s[..e]), s[e..]))
          else
            SpanDigits(s[sign..]);
            var d: int := Decimal(s[sign..][..n]);
            Some((Int(if sign == 1 then -d else d), s[i..]))
  }

  /** Insert into an insertion-ordered map: an existing key keeps its place. */
  function Insert(fields: seq<Field>, k: Str, v: Value): seq<Field> {
    if fields == [] then [Field(k, v)]
    else if fields[0].key == k then [Field(k, v)] + fields[1..]
    else [fields[0]] + Insert(fields[1..], k, v)
  }

  function ParseValue(t: Text): (r: Option<(Value, Text)>)
    ensures r.Some? ==> |r.value.1| < |t|
    decreases |t|, 1
  {
    var s := SkipWs(t);
    if s == [] then None
    else if s[0] == 0x6E then With(Null, ParseLit(s, [0x6E, 0x75, 0x6C, 0x6C]))
    else if s[0] == 0x74 then With(Bool(true), ParseLit(s, [0x74, 0x72, 0x75, 0x65]))
    else if s[0] == 0x66 then With(Bool(false), ParseLit(s, [0x66, 0x61, 0x6C, 0x73, 0x65]))
    else if s[0] == QUOTE then
      (match ParseStr(s)
       case None => None
       case Some((str, rest)) => Some((Str(str), rest)))
    else if s[0] == 0x5B then
      var u := SkipWs(s[1..]);
      if Starts(u, 0x5D) then Some((Array([]), u[1..])) else ParseItems(u, [])
    else if s[0] == 0x7B then
      var u := SkipWs(s[1..]);
      if Starts(u, 0x7D) then Some((Object([]), u[1..])) else ParseFields(u, [])
    else if s[0] == 0x2D || IsDigit(s[0]) then ParseNumber(s)
    else None
  }

  function With(v: Value, rest: Option<Text>): Option<(Value, Text)> {
    if rest.Some? then Some((v, rest.value)) else None
  }

  function ParseItems(t: Text, acc: seq<Value>): (r: Option<(Value, Text)>)
    ensures r.Some? ==> |r.value.1| < |t|
    decreases |t|, 2
  {
    match ParseValue(t)
    case None => None
    case Some((v, rest)) =>
      var s := SkipWs(rest);
      if Starts(s, COMMA) then ParseItems(SkipWs(s[1..]), acc + [v])
      else if Starts(s, 0x5D) then Some((Array(acc + [v]), s[1..]))
      else None
  }

  function ParseFields(t: Text, acc: seq<Field>): (r: Option<(Value, Text)>)
    ensures r.Some? ==> |r.value.1| < |t|
    decreases |t|, 2
  {
    match ParseField(t)
    case None => None
    case Some((f, after)) =>
      var u := SkipWs(after);
      if Starts(u, COMMA) then ParseFields(u[1..], Insert(acc, f.key, f.value))
      else if Starts(u, 0x7D) then Some((Object(Insert(acc, f.key, f.value)), u[1..]))
      else None
  }

  function ParseField(t: Text): (r: Option<(Field, Text)>)
    ensures r.Some? ==> |r.value.1| < |t|
    decreases |t|, 0
  {
    match ParseStr(SkipWs(t))
    case None => None
    case Some((k, rest)) =>
      var s := SkipWs(rest);
      if !Starts(s, COLON) then None
      else
        match ParseValue(SkipWs(s[1..]))
        case None => None
        case Some((v, after)) => Some((Field(k, v), after))
  }

  /** A whole document: one value and nothing but white space around it. */
  function Parse(t: Text): Option<Value> {
    match ParseValue(SkipWs(t))
    case None => None
    case Some((v, rest)) => if SkipWs(rest) == [] then Some(v) else None
  }
}
