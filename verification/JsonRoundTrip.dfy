/** Parsing canonical text gives back the value that was printed, and consumes exactly its text. */
module JsonRoundTrip {
  import opened Options
  import opened Bytes
  import opened Json

  /** No floats, and objects without repeated keys, all the way down. */
  ghost predicate Printable(v: Value)
    decreases v
  {
    match v
    case Float(_) => false
    case Array(items) => forall x :: x in items ==> Printable(x)
    case Object(fields) => DistinctKeys(fields) && forall f :: f in fields ==> Printable(f.value)
    case _ => true
  }

  ghost predicate DistinctKeys(fields: seq<Field>) {
    forall i, j :: 0 <= i < j < |fields| ==> fields[i].key != fields[j].key
  }

  // ---------- strings ----------

  lemma HexDigit(d: nat)
    requires d < 16
    ensures HexValue(Hex(d)) == Some(d)
  {
  }

  lemma ControlParses(c: Code, more: Text)
    requires c < 0x20
    ensures ParseEscape([0x75, 0x30, 0x30, Hex(c / 16), Hex(c % 16)] + more) == Some((c, more))
  {
    var s := [0x75, 0x30, 0x30, Hex(c / 16), Hex(c % 16)] + more;
    HexDigit(c / 16);
    HexDigit(c % 16);
    assert s[1..5] == [0x30, 0x30, Hex(c / 16), Hex(c % 16)] && s[5..] == more;
  }

  lemma CharParses(c: Code, more: Text)
    ensures !Starts(Escape(c) + more, QUOTE) && ParseChar(Escape(c) + more) == Some((c, more))
  {
    hide ParseEscape, FromUtf8;
    var s := Escape(c) + more;
    if c == 0x22 || c == 0x5C || c == 0x0A || c == 0x0D || c == 0x09 {
      ShortParses(c, more);
      assert s[1..] == [Escape(c)[1]] + more;
    } else if c < 0x20 {
      ControlParses(c, more);
      assert s[1..] == [0x75, 0x30, 0x30, Hex(c / 16), Hex(c % 16)] + more;
    } else {
      Utf8RoundTrip(c);
      var n := |Utf8(c)|;
      assert s[..n] == Utf8(c) && s[n..] == more;
    }
  }

  lemma ShortParses(c: Code, more: Text)
    requires c == 0x22 || c == 0x5C || c == 0x0A || c == 0x0D || c == 0x09
    ensures |Escape(c)| == 2 && Escape(c)[0] == BACKSLASH && ParseEscape([Escape(c)[1]] + more) == Some((c, more))
  {
    assert ([Escape(c)[1]] + more)[1..] == more;
  }

  lemma {:induction false} CharsParse(t: Str, more: Text, acc: Str)
    ensures ParseChars(PrintChars(t) + [QUOTE] + more, acc) == Some((acc + t, more))
    decreases |t|
  {
    hide ParseChar, Escape;
    var s := PrintChars(t) + [QUOTE] + more;
    if t == [] {
      assert s[1..] == more && acc + t == acc;
    } else {
      var tail := PrintChars(t[1..]) + [QUOTE] + more;
      assert s == Escape(t[0]) + tail;
      CharParses(t[0], tail);
      CharsParse(t[1..], more, acc + [t[0]]);
      assert acc + [t[0]] + t[1..] == acc + t;
    }
  }

  lemma StrParses(t: Str, more: Text)
    ensures ParseStr(PrintStr(t) + more) == Some((t, more))
  {
    hide ParseChars, PrintChars;
    var s := PrintStr(t) + more;
    assert s[1..] == PrintChars(t) + [QUOTE] + more;
    CharsParse(t, more, []);
    assert [] + t == t;
  }

  // ---------- numbers ----------

  /** Nothing that would extend a number. */
  predicate Ends(rest: Text) {
    rest == [] || !(IsDigit(rest[0]) || rest[0] == 0x2E || rest[0] == 0x65 || rest[0] == 0x45)
  }

  lemma {:induction false} SpanExact(d: Text, rest: Text)
    requires (forall i :: 0 <= i < |d| ==> IsDigit(d[i])) && (rest == [] || !IsDigit(rest[0]))
    ensures Span(d + rest) == |d|
    decreases |d|
  {
    if d == [] {
      assert d + rest == rest;
    } else {
      assert (d + rest)[1..] == d[1..] + rest;
      SpanExact(d[1..], rest);
    }
  }

  lemma {:induction false} DecimalDigits(n: nat)
    ensures Decimal(Digits(n)) == n
  {
    if n >= 10 {
      DecimalDigits(n / 10);
      assert Digits(n)[..|Digits(n)| - 1] == Digits(n / 10);
    }
  }

  lemma IntParses(n: int, rest: Text)
    requires Ends(rest)
    ensures ParseNumber(PrintInt(n) + rest) == Some((Int(n), rest))
  {
    var m := if n < 0 then -n else n;
    var d := Digits(m);
    var sign: Text := if n < 0 then [0x2D] else [];
    var s := PrintInt(n) + rest;
    DigitBytes(m);
    DecimalDigits(m);
    SpanExact(d, rest);
    PrintIntIs(n);
    hide *;
    Sliced(sign, d, rest);
    assert s == sign + d + rest;
    NumberEnds(s, |sign| + |d|);
    NumberIs(s, |sign|, |d|);
    assert Starts(s, 0x2D) <==> n < 0 by { SignByte(sign, d, rest); }
  }

  lemma PrintIntIs(n: int)
    ensures PrintInt(n) == (if n < 0 then [0x2D] else []) + Digits(if n < 0 then -n else n)
  {
  }

  lemma Sliced(sign: Text, d: Text, rest: Text)
    ensures var s := sign + d + rest;
      s[|sign|..] == d + rest && s[|sign|..][..|d|] == d && s[|sign| + |d|..] == rest
  {
  }

  lemma SignByte(sign: Text, d: Text, rest: Text)
    requires sign in {[0x2D], []} && d != [] && !Starts(d, 0x2D)
    ensures Starts(sign + d + rest, 0x2D) <==> sign == [0x2D]
  {
  }

  lemma NumberIs(s: Text, sign: nat, n: nat)
    requires sign == (if Starts(s, 0x2D) then 1 else 0) && n > 0 && sign + n <= |s| && Span(s[sign..]) == n
    requires FracEnd(s, sign + n) == Some(sign + n) && ExpEnd(s, sign + n) == Some(sign + n)
    requires forall i :: 0 <= i < n ==> IsDigit(s[sign..][..n][i])
    ensures var d: int := Decimal(s[sign..][..n]);
      ParseNumber(s) == Some((Int(if sign == 1 then -d else d), s[sign + n..]))
  {
    hide Span, Decimal, FracEnd, ExpEnd;
  }

  lemma DigitBytes(n: nat)
    ensures Digits(n) != [] && forall i :: 0 <= i < |Digits(n)| ==> IsDigit(Digits(n)[i])
    ensures !Starts(Digits(n), 0x2D)
  {
  }

  lemma NumberEnds(s: Text, i: nat)
    requires i <= |s| && Ends(s[i..])
    ensures FracEnd(s, i) == Some(i) && ExpEnd(s, i) == Some(i)
  {
    assert i < |s| ==> s[i..][0] == s[i];
  }

  // ---------- first bytes ----------

  lemma FirstByte(v: Value)
    requires Printable(v)
    ensures Print(v) != [] && !IsWs(Print(v)[0]) && Print(v)[0] != 0x5D && Print(v)[0] != 0x7D
  {
  }

  lemma NoSkip(v: Value, rest: Text)
    requires Printable(v)
    ensures SkipWs(Print(v) + rest) == Print(v) + rest
  {
    FirstByte(v);
  }

  // ---------- values ----------

  lemma {:induction false} ValueParses(v: Value, rest: Text)
    requires Printable(v) && (v.Int? ==> Ends(rest))
    ensures ParseValue(Print(v) + rest) == Some((v, rest))
    decreases v, 1
  {
    var s := Print(v) + rest;
    NoSkip(v, rest);
    match v
    case Null => assert s[..4] == Print(v) && s[4..] == rest;
    case Bool(b) => assert s[..|Print(v)|] == Print(v) && s[|Print(v)|..] == rest;
    case Int(n) => IntValue(n, rest);
    case Str(t) => StrParses(t, rest);
    case Array(items) => ArrayParses(items, rest);
    case Object(fields) => ObjectParses(fields, rest);
  }

  lemma IntValue(n: int, rest: Text)
    requires Ends(rest)
    ensures ParseValue(PrintInt(n) + rest) == Some((Int(n), rest))
  {
    hide ParseNumber;
    NoSkip(Int(n), rest);
    IntParses(n, rest);
  }

  lemma {:induction false} ArrayParses(items: seq<Value>, rest: Text)
    requires Printable(Array(items))
    ensures ParseValue(Print(Array(items)) + rest) == Some((Array(items), rest))
    decreases Array(items), 0
  {
    hide ParseItems, PrintItems;
    var s := Print(Array(items)) + rest;
    NoSkip(Array(items), rest);
    var inner := PrintItems(items) + [0x5D] + rest;
    assert s[1..] == inner;
    if items == [] {
      NoItems();
      assert inner == [0x5D] + rest;
      assert SkipWs(inner) == inner && inner[1..] == rest;
    } else {
      ItemsStart(items, [0x5D] + rest);
      assert inner == PrintItems(items) + ([0x5D] + rest);
      ItemsParse(items, rest, []);
      assert [] + items == items;
    }
  }

  lemma NoItems()
    ensures PrintItems([]) == [] && PrintFields([]) == []
  {
  }

  lemma ItemsStart(items: seq<Value>, rest: Text)
    requires items != [] && forall x :: x in items ==> Printable(x)
    ensures SkipWs(PrintItems(items) + rest) == PrintItems(items) + rest
    ensures !Starts(PrintItems(items) + rest, 0x5D)
  {
    assert items[0] in items;
    FirstByte(items[0]);
    assert PrintItems(items) != [] && PrintItems(items)[0] == Print(items[0])[0];
  }

  lemma {:induction false} ItemsParse(items: seq<Value>, rest: Text, acc: seq<Value>)
    requires items != [] && forall x :: x in items ==> Printable(x)
    ensures ParseItems(PrintItems(items) + ([0x5D] + rest), acc) == Some((Array(acc + items), rest))
    decreases items, 0
  {
    hide ParseValue, Print, Printable;
    var v := items[0];
    assert v in items;
    if |items| == 1 {
      ValueParses(v, [0x5D] + rest);
      assert SkipWs([0x5D] + rest) == [0x5D] + rest && ([0x5D] + rest)[1..] == rest;
      assert items == [v];
    } else {
      var tail := PrintItems(items[1..]) + ([0x5D] + rest);
      ValueParses(v, [COMMA] + tail);
      assert PrintItems(items) + ([0x5D] + rest) == Print(v) + ([COMMA] + tail);
      assert SkipWs([COMMA] + tail) == [COMMA] + tail && ([COMMA] + tail)[1..] == tail;
      ItemsStart(items[1..], [0x5D] + rest);
      ItemsParse(items[1..], rest, acc + [v]);
      assert acc + [v] + items[1..] == acc + items;
    }
  }

  lemma {:induction false} InsertNew(fields: seq<Field>, k: Str, v: Value)
    requires forall f :: f in fields ==> f.key != k
    ensures Insert(fields, k, v) == fields + [Field(k, v)]
  {
    if fields != [] {
      InsertNew(fields[1..], k, v);
    }
  }

  lemma {:induction false} ObjectParses(fields: seq<Field>, rest: Text)
    requires Printable(Object(fields))
    ensures ParseValue(Print(Object(fields)) + rest) == Some((Object(fields), rest))
    decreases Object(fields), 0
  {
    hide ParseFields, PrintFields;
    var s := Print(Object(fields)) + rest;
    NoSkip(Object(fields), rest);
    var inner := PrintFields(fields) + [0x7D] + rest;
    assert s[1..] == inner;
    if fields == [] {
      NoItems();
      assert inner == [0x7D] + rest;
      assert SkipWs(inner) == inner && inner[1..] == rest;
    } else {
      FieldsStart(fields, [0x7D] + rest);
      assert inner == PrintFields(fields) + ([0x7D] + rest);
      FieldsParse(fields, rest, []);
      assert [] + fields == fields;
    }
  }

  lemma FieldsStart(fields: seq<Field>, rest: Text)
    requires fields != []
    ensures Starts(PrintFields(fields) + rest, QUOTE)
    ensures SkipWs(PrintFields(fields) + rest) == PrintFields(fields) + rest
  {
    assert PrintFields(fields) != [] && PrintFields(fields)[0] == PrintStr(fields[0].key)[0] == QUOTE;
  }

  lemma {:induction false} FieldsParse(fields: seq<Field>, rest: Text, acc: seq<Field>)
    requires fields != [] && DistinctKeys(acc + fields) && forall f :: f in fields ==> Printable(f.value)
    ensures ParseFields(PrintFields(fields) + ([0x7D] + rest), acc) == Some((Object(acc + fields), rest))
    decreases fields, 0
  {
    hide ParseValue, Print, Printable, ParseStr, PrintStr;
    var k, v := fields[0].key, fields[0].value;
    assert fields[0] in fields;
    forall f | f in acc ensures f.key != k {
      var i :| 0 <= i < |acc| && acc[i] == f;
      assert (acc + fields)[i] == f && (acc + fields)[|acc|] == fields[0];
    }
    InsertNew(acc, k, v);
    if |fields| == 1 {
      OneField(k, v, [0x7D] + rest, acc);
      assert SkipWs([0x7D] + rest) == [0x7D] + rest && ([0x7D] + rest)[1..] == rest;
      FieldsOne(fields, [0x7D] + rest);
      assert fields == [Field(k, v)];
    } else {
      var tail := PrintFields(fields[1..]) + ([0x7D] + rest);
      OneField(k, v, [COMMA] + tail, acc);
      FieldsMany(fields, [0x7D] + rest);
      SkipComma(tail);
      assert acc + [Field(k, v)] + fields[1..] == acc + fields;
      FieldsParse(fields[1..], rest, acc + [Field(k, v)]);
    }
  }

  lemma SkipComma(tail: Text)
    ensures SkipWs([COMMA] + tail) == [COMMA] + tail && ([COMMA] + tail)[1..] == tail
  {
  }

  /** The text of one field in front of `more`. */
  function FieldText(k: Str, v: Value, more: Text): Text { PrintStr(k) + ([COLON] + (Print(v) + more)) }

  lemma {:induction false} OneField(k: Str, v: Value, more: Text, acc: seq<Field>)
    requires Printable(v) && more != [] && Ends(more)
    ensures var u := SkipWs(more);
      ParseFields(FieldText(k, v, more), acc) ==
      if Starts(u, COMMA) then ParseFields(u[1..], Insert(acc, k, v))
      else if Starts(u, 0x7D) then Some((Object(Insert(acc, k, v)), u[1..]))
      else None
    decreases v, 3
  {
    hide ParseValue, Print, Printable, ParseStr, Insert;
    var t := FieldText(k, v, more);
    FieldParses(k, v, more);
  }

  lemma {:induction false} FieldParses(k: Str, v: Value, more: Text)
    requires Printable(v) && more != [] && Ends(more)
    ensures ParseField(FieldText(k, v, more)) == Some((Field(k, v), more))
    decreases v, 2
  {
    hide ParseValue, Print, Printable, ParseStr;
    var after := [COLON] + (Print(v) + more);
    StrStart(k, after);
    StrParses(k, after);
    assert SkipWs(after) == after && after[1..] == Print(v) + more;
    NoSkip(v, more);
    ValueParses(v, more);
  }

  lemma StrStart(k: Str, more: Text)
    ensures SkipWs(PrintStr(k) + more) == PrintStr(k) + more
  {
  }

  lemma FieldsOne(fields: seq<Field>, more: Text)
    requires |fields| == 1
    ensures PrintFields(fields) + more == FieldText(fields[0].key, fields[0].value, more)
  {
  }

  lemma FieldsMany(fields: seq<Field>, more: Text)
    requires |fields| > 1
    ensures PrintFields(fields) + more
         == FieldText(fields[0].key, fields[0].value, [COMMA] + (PrintFields(fields[1..]) + more))
  {
    FieldsUnfold(fields);
    hide PrintFields, PrintStr, Print;
    Regroup(PrintStr(fields[0].key), [COLON], Print(fields[0].value), [COMMA], PrintFields(fields[1..]), more);
  }

  lemma FieldsUnfold(fields: seq<Field>)
    requires |fields| > 1
    ensures PrintFields(fields) == PrintStr(fields[0].key) + [COLON] + Print(fields[0].value) + [COMMA] + PrintFields(fields[1..])
  {
  }

  lemma Regroup(a: Text, b: Text, c: Text, d: Text, e: Text, f: Text)
    ensures a + b + c + d + e + f == a + (b + (c + (d + (e + f))))
  {
  }

  /** The round trip of a whole document. */
  lemma DocumentRoundTrip(v: Value)
    requires Printable(v)
    ensures Parse(Print(v)) == Some(v)
  {
    assert Print(v) + [] == Print(v);
    NoSkip(v, []);
    ValueParses(v, []);
  }

  /** Different values print differently, and no printed value other than a number is a proper
      prefix of another. */
  lemma PrintInjective(v: Value, w: Value, rest: Text)
    requires Printable(v) && Printable(w) && Print(v) + rest == Print(w) && (v.Int? ==> Ends(rest))
    ensures v == w && rest == []
  {
    ValueParses(v, rest);
    ValueParses(w, []);
    assert Print(w) + [] == Print(w);
  }

  // ---------- what is printable ----------

  /** `u` is `v` or a value somewhere inside it. */
  ghost predicate Inside(u: Value, v: Value)
    decreases v
  {
    u == v || match v
              case Array(items) => exists x :: x in items && Inside(u, x)
              case Object(fields) => exists f :: f in fields && Inside(u, f.value)
              case _ => false
  }

  /** Printable values are exactly those with no float and no repeated key anywhere inside. */
  lemma {:induction false} PrintableExactly(v: Value)
    ensures Printable(v) <==> forall u :: Inside(u, v) ==> !u.Float? && (u.Object? ==> DistinctKeys(u.fields))
    decreases v
  {
    assert Inside(v, v);
    match v
    case Array(items) =>
      forall x | x in items
        ensures Printable(x) <==> forall u :: Inside(u, x) ==> !u.Float? && (u.Object? ==> DistinctKeys(u.fields))
      {
        PrintableExactly(x);
      }
    case Object(fields) =>
      forall f | f in fields
        ensures Printable(f.value) <==> forall u :: Inside(u, f.value) ==> !u.Float? && (u.Object? ==> DistinctKeys(u.fields))
      {
        PrintableExactly(f.value);
      }
    case _ =>
  }
}
