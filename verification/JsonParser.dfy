/** The parser and the writer at work: a cursor over bytes, and a growing output. */
module JsonParser {
  import opened Options
  import opened Bytes
  import opened Json
  import opened JsonRoundTrip

  class Parser {
    const bytes: Text
    var pos: nat

    ghost predicate Valid()
      reads this
    {
      pos <= |bytes|
    }

    ghost function Rest(): Text
      requires Valid()
      reads this
    {
      bytes[pos..]
    }

    constructor (bytes: Text)
      ensures Valid() && this.bytes == bytes && Rest() == bytes
    {
      this.bytes := bytes;
      pos := 0;
    }

    function Peek(): Option<byte>
      requires Valid()
      reads this
      ensures Peek() == if Rest() == [] then None else Some(Rest()[0])
    {
      if pos < |bytes| then Some(bytes[pos]) else None
    }

    method Advance() returns (b: Option<byte>)
      requires Valid()
      modifies this
      ensures Valid() && b == old(Peek()) && Rest() == if b.Some? then old(Rest())[1..] else old(Rest())
      ensures pos == if b.Some? then old(pos) + 1 else old(pos)
    {
      b := Peek();
      if b.Some? {
        pos := pos + 1;
      }
    }

    method SkipBlanks()
      requires Valid()
      modifies this
      ensures Valid() && Rest() == SkipWs(old(Rest())) && pos >= old(pos)
    {
      while pos < |bytes| && IsWs(bytes[pos])
        invariant Valid() && pos >= old(pos) && SkipWs(Rest()) == SkipWs(old(Rest()))
        decreases |bytes| - pos
      {
        assert Rest()[1..] == bytes[pos + 1..];
        pos := pos + 1;
      }
    }

    method ParseLiteral(lit: Text, v: Value) returns (r: Option<Value>)
      requires Valid()
      modifies this
      ensures Valid() && pos >= old(pos) && Agrees(With(v, ParseLit(old(Rest()), lit)), r, Rest())
    {
      ghost var s := Rest();
      for i := 0 to |lit|
        invariant Valid() && pos == old(pos) + i
        invariant forall j :: 0 <= j < i ==> s[j] == lit[j]
      {
        assert Rest() == s[i..];
        var b := Advance();
        if b != Some(lit[i]) {
          LitFails(s, lit, i);
          return None;
        }
      }
      assert s[..|lit|] == lit && s[|lit|..] == Rest();
      return Some(v);
    }

    method ParseHexDigits() returns (r: Option<Code>)
      requires Valid()
      modifies this
      ensures Valid() && pos >= old(pos)
      ensures var s := old(Rest());
        if |s| < 4 || ParseHex(s[..4]).None? then r.None? else r == ParseHex(s[..4]) && Rest() == s[4..]
    {
      ghost var s := Rest();
      var hex := 0;
      for i := 0 to 4
        invariant Valid() && pos == old(pos) + i
        invariant HexPrefix(s[..i]) == Some(hex)
      {
        assert Rest() == s[i..];
        var b := Advance();
        if b.None? {
          return None;
        }
        assert s[..i + 1][..i] == s[..i];
        var d := HexValue(b.value);
        if d.None? {
          HexStops(s, i);
          return None;
        }
        hex := hex * 16 + d.value;
      }
      HexIs(s[..4]);
      assert Rest() == s[4..];
      if 0 <= hex < 0x11_0000 && !(0xD800 <= hex < 0xE000) {
        return Some(hex);
      }
      return None;
    }

    method ParseEscaped() returns (r: Option<Code>)
      requires Valid()
      modifies this
      ensures Valid() && pos >= old(pos) && Agrees(ParseEscape(old(Rest())), r, Rest())
    {
      hide ParseHex;
      ghost var s := Rest();
      var b := Advance();
      match b {
        case None => return None;
        case Some(x) =>
          if x == QUOTE || x == BACKSLASH || x == 0x2F {
            return Some(x);
          } else if x == 0x6E {
            return Some(0x0A);
          } else if x == 0x72 {
            return Some(0x0D);
          } else if x == 0x74 {
            return Some(0x09);
          } else if x == 0x62 {
            return Some(0x08);
          } else if x == 0x66 {
            return Some(0x0C);
          } else if x == 0x75 {
            r := ParseHexDigits();
            assert |s| >= 5 ==> s[1..][..4] == s[1..5] && s[1..][4..] == s[5..];
          } else {
            return None;
          }
      }
    }

    /** One character, escaped or plain. */
    method ParseOne() returns (r: Option<Code>)
      requires Valid()
      modifies this
      ensures Valid() && pos >= old(pos) && Agrees(ParseChar(old(Rest())), r, Rest())
    {
      hide ParseEscape, FromUtf8;
      ghost var s := Rest();
      var start := pos;
      var b := Advance();
      if b.None? {
        return None;
      }
      if b.value == BACKSLASH {
        r := ParseEscaped();
        return;
      }
      if b.value < 0x20 {
        return None;
      }
      var n := Utf8Len(b.value);
      for i := 1 to n
        invariant Valid() && pos == start + i
      {
        var more := Advance();
        if more.None? {
          return None;
        }
      }
      assert s[..n] == bytes[start..pos] && s[n..] == Rest();
      r := FromUtf8(bytes[start..pos]);
    }

    method ParseString() returns (r: Option<Str>)
      requires Valid()
      modifies this
      ensures Valid() && pos >= old(pos) && Agrees(ParseStr(old(Rest())), r, Rest())
    {
      hide ParseChar;
      var open := Advance();
      if open != Some(QUOTE) {
        return None;
      }
      ghost var s := Rest();
      var out: Str := [];
      while true
        invariant Valid() && pos >= old(pos) && ParseChars(Rest(), out) == ParseChars(s, [])
        decreases |bytes| - pos
      {
        if Peek() == Some(QUOTE) {
          var close := Advance();
          return Some(out);
        }
        ghost var here := Rest();
        var c := ParseOne();
        Progress(here);
        if c.None? {
          return None;
        }
        out := out + [c.value];
      }
    }

    method SkipDigits()
      requires Valid()
      modifies this
      ensures Valid() && pos == old(pos) + Span(old(Rest()))
    {
      while pos < |bytes| && IsDigit(bytes[pos])
        invariant Valid() && pos + Span(Rest()) == old(pos) + Span(old(Rest()))
        decreases |bytes| - pos
      {
        assert Rest()[1..] == bytes[pos + 1..];
        pos := pos + 1;
      }
    }

    /** An optional fraction; `false` when its point has no digits. */
    method SkipFraction() returns (ok: bool)
      requires Valid()
      modifies this
      ensures Valid() && pos >= old(pos)
      ensures var e := FracEnd(bytes, old(pos)); if e.None? then !ok else ok && pos == e.value
    {
      ok := true;
      if Peek() == Some(0x2E) {
        var dot := Advance();
        var at := pos;
        SkipDigits();
        ok := pos != at;
      }
    }

    method SkipExponent() returns (ok: bool)
      requires Valid()
      modifies this
      ensures Valid() && pos >= old(pos)
      ensures var e := ExpEnd(bytes, old(pos)); if e.None? then !ok else ok && pos == e.value
    {
      ok := true;
      if Peek() == Some(0x65) || Peek() == Some(0x45) {
        var mark := Advance();
        if Peek() == Some(0x2B) || Peek() == Some(0x2D) {
          var sign := Advance();
        }
        var at := pos;
        SkipDigits();
        ok := pos != at;
      }
    }

    method ParseNum() returns (r: Option<Value>)
      requires Valid()
      modifies this
      ensures Valid() && pos >= old(pos) && Agrees(ParseNumber(old(Rest())), r, Rest())
    {
      hide Span, Decimal, FracEnd, ExpEnd, ParseNumber;
      var start := pos;
      var negative := Peek() == Some(0x2D);
      if negative {
        var minus := Advance();
      }
      var intStart := pos;
      SkipDigits();
      SpanBounds(bytes[intStart..]);
      if pos == intStart {
        NoDigits(bytes, start, intStart);
        return None;
      }
      var intEnd := pos;
      var ok := SkipFraction();
      if !ok {
        NumberCut(bytes, start, intStart, intEnd);
        return None;
      }
      var fracEnd := pos;
      ok := SkipExponent();
      NumberCut(bytes, start, intStart, intEnd);
      if !ok {
        return None;
      }
      if pos > intEnd {
        return Some(Float(bytes[start..pos]));
      }
      assert forall i :: 0 <= i < pos - intStart ==> IsDigit(bytes[intStart..pos][i]) by {
        Digital(bytes, intStart, pos);
      }
      var d: int := Decimal(bytes[intStart..pos]);
      return Some(Int(if negative then -d else d));
    }

    method ParseAny() returns (r: Option<Value>)
      requires Valid()
      modifies this
      ensures Valid() && pos >= old(pos) && Agrees(ParseValue(old(Rest())), r, Rest())
      decreases |bytes| - pos, 1
    {
      hide ParseItems, ParseFields, ParseNumber, ParseStr, SkipWs;
      SkipBlanks();
      var b := Peek();
      match b {
        case None => return None;
        case Some(x) =>
          if x == 0x6E {
            r := ParseLiteral([0x6E, 0x75, 0x6C, 0x6C], Null);
          } else if x == 0x74 {
            r := ParseLiteral([0x74, 0x72, 0x75, 0x65], Bool(true));
          } else if x == 0x66 {
            r := ParseLiteral([0x66, 0x61, 0x6C, 0x73, 0x65], Bool(false));
          } else if x == QUOTE {
            var str := ParseString();
            if str.None? {
              return None;
            }
            return Some(Str(str.value));
          } else if x == 0x5B {
            r := ParseArray();
          } else if x == 0x7B {
            r := ParseObject();
          } else if x == 0x2D || IsDigit(x) {
            r := ParseNum();
          } else {
            return None;
          }
      }
    }

    method ParseArray() returns (r: Option<Value>)
      requires Valid() && Starts(Rest(), 0x5B)
      modifies this
      ensures Valid() && pos >= old(pos)
      ensures var u := SkipWs(old(Rest())[1..]);
        Agrees(if Starts(u, 0x5D) then Some((Array([]), u[1..])) else ParseItems(u, []), r, Rest())
      decreases |bytes| - pos, 0
    {
      hide ParseValue, SkipWs;
      var open := Advance();
      var items: seq<Value> := [];
      SkipBlanks();
      if Peek() == Some(0x5D) {
        var close := Advance();
        return Some(Array(items));
      }
      ghost var u := Rest();
      while true
        invariant Valid() && pos > old(pos) && ParseItems(Rest(), items) == ParseItems(u, [])
        decreases |bytes| - pos
      {
        ghost var here := Rest();
        var v := ParseAny();
        ValueProgress(here);
        if v.None? {
          return None;
        }
        SkipBlanks();
        var b := Advance();
        if b == Some(COMMA) {
          SkipBlanks();
          items := items + [v.value];
        } else if b == Some(0x5D) {
          return Some(Array(items + [v.value]));
        } else {
          return None;
        }
      }
    }

    method ParseObject() returns (r: Option<Value>)
      requires Valid() && Starts(Rest(), 0x7B)
      modifies this
      ensures Valid() && pos >= old(pos)
      ensures var u := SkipWs(old(Rest())[1..]);
        Agrees(if Starts(u, 0x7D) then Some((Object([]), u[1..])) else ParseFields(u, []), r, Rest())
      decreases |bytes| - pos, 0
    {
      hide ParseField, SkipWs, Insert;
      var open := Advance();
      var fields: seq<Field> := [];
      SkipBlanks();
      if Peek() == Some(0x7D) {
        var close := Advance();
        return Some(Object(fields));
      }
      ghost var u := Rest();
      while true
        invariant Valid() && pos > old(pos) && ParseFields(Rest(), fields) == ParseFields(u, [])
        decreases |bytes| - pos
      {
        ghost var here := Rest();
        var f := ParseMember();
        FieldProgress(here);
        if f.None? {
          return None;
        }
        SkipBlanks();
        var b := Advance();
        if b == Some(COMMA) {
          fields := Insert(fields, f.value.key, f.value.value);
        } else if b == Some(0x7D) {
          return Some(Object(Insert(fields, f.value.key, f.value.value)));
        } else {
          return None;
        }
      }
    }

    /** One `"key": value`. */
    method ParseMember() returns (r: Option<Field>)
      requires Valid()
      modifies this
      ensures Valid() && pos >= old(pos) && Agrees(ParseField(old(Rest())), r, Rest())
      decreases |bytes| - pos, 2
    {
      hide ParseValue, SkipWs, ParseStr;
      SkipBlanks();
      ghost var here := Rest();
      var k := ParseString();
      StrProgress(here);
      if k.None? {
        return None;
      }
      SkipBlanks();
      var colon := Advance();
      if colon != Some(COLON) {
        return None;
      }
      SkipBlanks();
      var v := ParseAny();
      if v.None? {
        return None;
      }
      return Some(Field(k.value, v.value));
    }
  }

  /** The number written by some hexadecimal digits. */
  function HexPrefix(s: Text): Option<nat> {
    if s == [] then Some(0)
    else
      match HexPrefix(s[..|s| - 1])
      case None => None
      case Some(n) =>
        match HexValue(s[|s| - 1])
        case None => None
        case Some(d) => Some(n * 16 + d)
  }

  lemma HexIs(s: Text)
    requires |s| == 4 && HexPrefix(s).Some?
    ensures var x := HexPrefix(s).value;
      ParseHex(s) == if 0 <= x < 0x11_0000 && !(0xD800 <= x < 0xE000) then Some(x) else None
  {
    assert s[..3][..2] == s[..2] && s[..2][..1] == s[..1] && s[..1][..0] == [];
    assert HexPrefix(s[..0]) == Some(0);
    assert HexPrefix(s[..1]) == HexValue(s[0]);
    assert HexPrefix(s[..2]).Some? && HexPrefix(s[..3]).Some?;
    assert HexPrefix(s[..2]).value == HexValue(s[0]).value * 16 + HexValue(s[1]).value;
    assert HexPrefix(s[..3]).value == HexPrefix(s[..2]).value * 16 + HexValue(s[2]).value;
  }

  lemma HexStops(s: Text, i: nat)
    requires i < 4 && i < |s| && HexValue(s[i]).None?
    ensures |s| >= 4 ==> ParseHex(s[..4]) == None
  {
    hide HexValue;
    if |s| >= 4 {
      assert s[..4][i] == s[i];
    }
  }

  lemma LitFails(s: Text, lit: Text, i: nat)
    requires i < |lit| && (i >= |s| || s[i] != lit[i])
    ensures ParseLit(s, lit) == None
  {
    if |lit| <= |s| {
      assert s[..|lit|][i] == s[i];
    }
  }

  lemma Progress(s: Text)
    ensures ParseChar(s).Some? ==> |ParseChar(s).value.1| < |s|
  {
  }

  lemma ValueProgress(s: Text)
    ensures ParseValue(s).Some? ==> |ParseValue(s).value.1| < |s|
  {
  }

  lemma FieldProgress(s: Text)
    ensures ParseField(s).Some? ==> |ParseField(s).value.1| < |s|
  {
  }

  lemma StrProgress(s: Text)
    ensures ParseStr(s).Some? ==> |ParseStr(s).value.1| < |s|
  {
  }

  lemma SpanBounds(s: Text)
    ensures Span(s) <= |s| && forall i :: 0 <= i < Span(s) ==> IsDigit(s[i])
  {
    SpanDigits(s);
  }

  /** Looking for a fraction or an exponent in a suffix, or in the whole text further on. */
  lemma Shifted(bytes: Text, start: nat, i: nat)
    requires start + i <= |bytes|
    ensures FracEnd(bytes, start + i) == ShiftBy(FracEnd(bytes[start..], i), start)
    ensures ExpEnd(bytes, start + i) == ShiftBy(ExpEnd(bytes[start..], i), start)
  {
    var s := bytes[start..];
    if i < |s| {
      assert s[i] == bytes[start + i];
      assert s[i + 1..] == bytes[start + i + 1..];
      if i + 1 < |s| {
        assert s[i + 1] == bytes[start + i + 1];
        assert s[i + 2..] == bytes[start + i + 2..];
      }
    }
  }

  ghost predicate IntPart(bytes: Text, start: nat, intStart: nat) {
    && start <= intStart <= |bytes|
    && intStart == start + if Starts(bytes[start..], 0x2D) then 1 else 0
  }

  lemma NoDigits(bytes: Text, start: nat, intStart: nat)
    requires IntPart(bytes, start, intStart) && Span(bytes[intStart..]) == 0
    ensures ParseNumber(bytes[start..]) == None
  {
    assert bytes[intStart..] == bytes[start..][intStart - start..];
  }

  lemma Digital(bytes: Text, a: nat, b: nat)
    requires a <= |bytes| && b == a + Span(bytes[a..])
    ensures b <= |bytes| && forall i :: 0 <= i < b - a ==> IsDigit(bytes[a..b][i])
  {
    SpanDigits(bytes[a..]);
    assert bytes[a..b] == bytes[a..][..b - a];
  }

  /** The number at `start`, from the ends of its parts in the whole text. */
  ghost function NumberAt(bytes: Text, start: nat, intStart: nat, intEnd: nat): Option<(Value, Text)>
    requires IntPart(bytes, start, intStart) && intEnd == intStart + Span(bytes[intStart..])
  {
    match FracEnd(bytes, intEnd)
    case None => None
    case Some(f) =>
      match ExpEnd(bytes, f)
      case None => None
      case Some(e) => Some((NumberOf(bytes, start, intStart, intEnd, e), bytes[e..]))
  }

  lemma NumberCut(bytes: Text, start: nat, intStart: nat, intEnd: nat)
    requires IntPart(bytes, start, intStart) && Span(bytes[intStart..]) > 0 && intEnd == intStart + Span(bytes[intStart..])
    ensures ParseNumber(bytes[start..]) == NumberAt(bytes, start, intStart, intEnd)
  {
    hide Span, FracEnd, ExpEnd, Decimal, ParseNumber, IsDigit, NumberOf;
    match FracEnd(bytes, intEnd)
    case None => CutEarly(bytes, start, intStart, intEnd);
    case Some(f) =>
      match ExpEnd(bytes, f)
      case None => CutEarly(bytes, start, intStart, intEnd);
      case Some(e) => CutAt(bytes, start, intStart, intEnd, f, e);
  }

  /** The sign and digits of the suffix are those of the whole text, further on. */
  lemma SamePart(bytes: Text, start: nat, intStart: nat)
    requires IntPart(bytes, start, intStart)
    ensures bytes[start..][intStart - start..] == bytes[intStart..]
    ensures intStart + Span(bytes[intStart..]) <= |bytes|
  {
    SpanBounds(bytes[intStart..]);
  }

  lemma CutEarly(bytes: Text, start: nat, intStart: nat, intEnd: nat)
    requires IntPart(bytes, start, intStart) && Span(bytes[intStart..]) > 0 && intEnd == intStart + Span(bytes[intStart..])
    requires match FracEnd(bytes, intEnd) case None => true case Some(f) => ExpEnd(bytes, f) == None
    ensures ParseNumber(bytes[start..]) == None
  {
    hide Span, FracEnd, ExpEnd, Decimal, ParseNumber, IsDigit;
    SamePart(bytes, start, intStart);
    Shifted(bytes, start, intEnd - start);
    NumberParts(bytes[start..], intStart - start);
    if FracEnd(bytes, intEnd).Some? {
      Shifted(bytes, start, FracEnd(bytes, intEnd).value - start);
    }
  }

  lemma CutAt(bytes: Text, start: nat, intStart: nat, intEnd: nat, f: nat, e: nat)
    requires IntPart(bytes, start, intStart) && Span(bytes[intStart..]) > 0 && intEnd == intStart + Span(bytes[intStart..])
    requires intEnd <= f <= e <= |bytes| && FracEnd(bytes, intEnd) == Some(f) && ExpEnd(bytes, f) == Some(e)
    ensures ParseNumber(bytes[start..]) == Some((NumberOf(bytes, start, intStart, intEnd, e), bytes[e..]))
  {
    hide Span, FracEnd, ExpEnd, Decimal, ParseNumber, IsDigit;
    SamePart(bytes, start, intStart);
    Shifted(bytes, start, intEnd - start);
    Shifted(bytes, start, f - start);
    var s := bytes[start..];
    assert FracEnd(s, intEnd - start) == Some(f - start) && ExpEnd(s, f - start) == Some(e - start);
    SlicesShift(bytes, start, intStart, intEnd, e);
    NumberParts(s, intStart - start);
  }

  lemma SlicesShift(bytes: Text, start: nat, a: nat, b: nat, e: nat)
    requires start <= a <= b <= e <= |bytes|
    ensures var s := bytes[start..];
      s[..e - start] == bytes[start..e] && s[e - start..] == bytes[e..] && s[a - start..b - start] == bytes[a..b]
  {
  }

  lemma NumberParts(s: Text, sign: nat)
    requires sign == (if Starts(s, 0x2D) then 1 else 0) && Span(s[sign..]) > 0
    ensures var i := sign + Span(s[sign..]);
      && i <= |s| && (forall j :: 0 <= j < i - sign ==> IsDigit(s[sign..i][j]))
      && ParseNumber(s) ==
           match FracEnd(s, i)
           case None => None
           case Some(f) =>
             match ExpEnd(s, f)
             case None => None
             case Some(e) =>
               var d: int := Decimal(s[sign..i]);
               Some((if e > i then Float(s[..e]) else Int(if sign == 1 then -d else d), s[e..]))
  {
    hide Span, FracEnd, ExpEnd, Decimal;
    var i := sign + Span(s[sign..]);
    SpanBounds(s[sign..]);
    assert s[sign..][..i - sign] == s[sign..i];
  }

  function NumberOf(bytes: Text, start: nat, intStart: nat, intEnd: nat, e: nat): Value
    requires IntPart(bytes, start, intStart) && intEnd == intStart + Span(bytes[intStart..]) && start <= e <= |bytes|
  {
    Digital(bytes, intStart, intEnd);
    var d: int := Decimal(bytes[intStart..intEnd]);
    if e > intEnd then Float(bytes[start..e]) else Int(if intStart > start then -d else d)
  }

  function ShiftBy(e: Option<nat>, n: nat): Option<nat> { if e.Some? then Some(e.value + n) else None }

  method ParseDocument(text: Text) returns (r: Option<Value>)
    ensures r == Parse(text)
  {
    hide ParseValue, SkipWs;
    var p := new Parser(text);
    p.SkipBlanks();
    r := p.ParseAny();
    if r.Some? {
      p.SkipBlanks();
      if p.pos != |text| {
        return None;
      }
    }
  }

  // ---------- the writer ----------

  method WriteString(s: Str, out: Text) returns (out': Text)
    ensures out' == out + PrintStr(s)
  {
    hide Escape, PrintChars;
    out' := out + [QUOTE];
    NoChars();
    for i := 0 to |s|
      invariant out' == out + [QUOTE] + PrintChars(s[..i])
    {
      CharsSnoc(s, i);
      out' := out' + Escape(s[i]);
    }
    assert s[..|s|] == s;
    out' := out' + [QUOTE];
  }

  lemma NoChars()
    ensures PrintChars([]) == []
  {
  }

  lemma {:induction false} CharsSnoc(s: Str, i: nat)
    requires i < |s|
    ensures PrintChars(s[..i + 1]) == PrintChars(s[..i]) + Escape(s[i])
    decreases i
  {
    hide Escape;
    if i > 0 {
      CharsSnoc(s[1..], i - 1);
      assert s[..i + 1][1..] == s[1..][..i] && s[..i][1..] == s[1..][..i - 1];
    } else {
      assert s[..1][1..] == [];
    }
  }

  method WriteValue(v: Value, out: Text) returns (out': Text)
    ensures out' == out + Print(v)
    decreases v
  {
    hide PrintItems, PrintFields, PrintStr, PrintInt;
    match v {
      case Null => out' := out + [0x6E, 0x75, 0x6C, 0x6C];
      case Bool(b) => out' := out + if b then [0x74, 0x72, 0x75, 0x65] else [0x66, 0x61, 0x6C, 0x73, 0x65];
      case Int(n) => out' := out + PrintInt(n);
      case Float(t) => out' := out + t;
      case Str(s) => out' := WriteString(s, out);
      case Array(items) =>
        out' := WriteItems(items, out + [0x5B]);
        out' := out' + [0x5D];
      case Object(fields) =>
        out' := WriteFields(fields, out + [0x7B]);
        out' := out' + [0x7D];
    }
  }

  method WriteItems(items: seq<Value>, out: Text) returns (out': Text)
    ensures out' == out + PrintItems(items)
    decreases items
  {
    hide Print, PrintItems;
    out' := out;
    NoItems();
    for i := 0 to |items|
      invariant out' == out + PrintItems(items[..i])
    {
      ItemsSnoc(items, i);
      if i > 0 {
        out' := out' + [COMMA];
      }
      out' := WriteValue(items[i], out');
    }
    assert items[..|items|] == items;
  }

  method WriteFields(fields: seq<Field>, out: Text) returns (out': Text)
    ensures out' == out + PrintFields(fields)
    decreases fields
  {
    hide Print, PrintFields, PrintStr;
    out' := out;
    NoItems();
    for i := 0 to |fields|
      invariant out' == out + PrintFields(fields[..i])
    {
      FieldsSnoc(fields, i);
      if i > 0 {
        out' := out' + [COMMA];
      }
      out' := WriteString(fields[i].key, out');
      out' := out' + [COLON];
      out' := WriteValue(fields[i].value, out');
    }
    assert fields[..|fields|] == fields;
  }

  lemma {:induction false} ItemsSnoc(items: seq<Value>, i: nat)
    requires i < |items|
    ensures PrintItems(items[..i + 1]) == PrintItems(items[..i]) + (if i > 0 then [COMMA] else []) + Print(items[i])
    decreases i
  {
    hide Print;
    if i > 0 {
      ItemsSnoc(items[1..], i - 1);
      assert items[..i + 1][1..] == items[1..][..i] && items[..i][1..] == items[1..][..i - 1];
    }
  }

  lemma {:induction false} FieldsSnoc(fields: seq<Field>, i: nat)
    requires i < |fields|
    ensures PrintFields(fields[..i + 1]) ==
      PrintFields(fields[..i]) + (if i > 0 then [COMMA] else []) + PrintStr(fields[i].key) + [COLON] + Print(fields[i].value)
    decreases i
  {
    hide Print, PrintStr;
    if i > 0 {
      FieldsSnoc(fields[1..], i - 1);
      assert fields[..i + 1][1..] == fields[1..][..i] && fields[..i][1..] == fields[1..][..i - 1];
    }
  }
}
