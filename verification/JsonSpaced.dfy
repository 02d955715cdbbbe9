/** Texts of a value other than the canonical one: white space between tokens, any escape for a
    character. They all parse to the value. */
module JsonSpaced {
  import opened Options
  import opened Bytes
  import opened Json
  import opened JsonRoundTrip

  // ---------- the texts of a value ----------

  /** Spaces, tabs and line ends only. */
  ghost predicate Blank(w: Text) { forall i :: 0 <= i < |w| ==> w[i] in {0x20, 0x09, 0x0A, 0x0D} }

  /** The value of a hexadecimal digit of either case. */
  ghost predicate HexDigitIs(b: byte, d: nat) {
    (d < 10 && b == 0x30 + d) || (10 <= d < 16 && (b == 0x41 + d - 10 || b == 0x61 + d - 10))
  }

  /** What may stand after a backslash for the character `c`. */
  ghost predicate EscapeText(c: Code, s: Text) {
    || (s == [0x22] && c == 0x22)      // "
    || (s == [0x5C] && c == 0x5C)      // \
    || (s == [0x2F] && c == 0x2F)      // /
    || (s == [0x62] && c == 0x08)      // b
    || (s == [0x66] && c == 0x0C)      // f
    || (s == [0x6E] && c == 0x0A)      // n
    || (s == [0x72] && c == 0x0D)      // r
    || (s == [0x74] && c == 0x09)      // t
    || (|s| == 5 && s[0] == 0x75 && FourHex(c, s))
  }

  ghost predicate FourHex(c: Code, s: Text)
    requires |s| == 5
  {
    exists p: nat, q: nat, r: nat, t: nat ::
      HexDigitIs(s[1], p) && HexDigitIs(s[2], q) && HexDigitIs(s[3], r) && HexDigitIs(s[4], t) && c == 4096 * p + 256 * q + 16 * r + t
  }

  /** A character of a string: itself, unless it must be escaped, or any escape that denotes it. */
  ghost predicate CharText(c: Code, s: Text) {
    || (c >= 0x20 && c != 0x22 && c != 0x5C && s == Utf8(c))
    || (|s| > 0 && s[0] == 0x5C && EscapeText(c, s[1..]))
  }

  ghost predicate CharsText(t: Str, s: Text) {
    if t == [] then s == [] else exists a, b :: CharText(t[0], a) && CharsText(t[1..], b) && s == a + b
  }

  ghost predicate StrText(t: Str, s: Text) { |s| >= 2 && s[0] == 0x22 && s[|s| - 1] == 0x22 && CharsText(t, s[1..|s| - 1]) }

  /** `s` is a text of `v`. */
  ghost predicate Spells(v: Value, s: Text)
    decreases v, 0
  {
    match v
    case Str(t) => StrText(t, s)
    case Array(items) => |s| >= 2 && s[0] == 0x5B && s[|s| - 1] == 0x5D && (if items == [] then Blank(s[1..|s| - 1]) else Items(items, s[1..|s| - 1]))
    case Object(fields) => |s| >= 2 && s[0] == 0x7B && s[|s| - 1] == 0x7D && (if fields == [] then Blank(s[1..|s| - 1]) else Fields(fields, s[1..|s| - 1]))
    case _ => s == Print(v)
  }

  /** A text of `v` with white space around it. */
  ghost predicate Padded(v: Value, s: Text)
    decreases v, 1
  {
    exists w, t, u :: Blank(w) && Spells(v, t) && Blank(u) && s == w + t + u
  }

  ghost predicate Items(items: seq<Value>, s: Text)
    requires items != []
    decreases items, 0
  {
    if |items| == 1 then Padded(items[0], s)
    else exists a, b :: Padded(items[0], a) && Items(items[1..], b) && s == a + [0x2C] + b
  }

  ghost predicate KeyText(k: Str, s: Text) { exists w, t, u :: Blank(w) && StrText(k, t) && Blank(u) && s == w + t + u }

  ghost predicate FieldSpelled(f: Field, s: Text)
    decreases f, 0
  {
    exists a, b :: KeyText(f.key, a) && Padded(f.value, b) && s == a + [0x3A] + b
  }

  ghost predicate Fields(fields: seq<Field>, s: Text)
    requires fields != []
    decreases fields, 0
  {
    if |fields| == 1 then FieldSpelled(fields[0], s)
    else exists a, b :: FieldSpelled(fields[0], a) && Fields(fields[1..], b) && s == a + [0x2C] + b
  }

  // ---------- white space ----------

  lemma {:induction false} SkipBlank(w: Text, s: Text)
    requires Blank(w) && (s == [] || !IsWs(s[0]))
    ensures SkipWs(w + s) == s
    decreases |w|
  {
    if w == [] {
      assert w + s == s;
    } else {
      assert (w + s)[0] == w[0] && (w + s)[1..] == w[1..] + s;
      SkipBlank(w[1..], s);
    }
  }

  lemma {:induction false} OnlyBlank(w: Text)
    requires Blank(w)
    ensures SkipWs(w) == []
  {
    SkipBlank(w, []);
    assert w + [] == w;
  }

  /** White space before a value does not matter. */
  lemma LeadingBlank(w: Text, s: Text)
    requires Blank(w) && s != [] && !IsWs(s[0])
    ensures ParseValue(w + s) == ParseValue(s)
  {
    SkipBlank(w, s);
    assert SkipWs(s) == s;
  }

  // ---------- strings ----------

  lemma HexIs(b: byte, d: nat)
    requires HexDigitIs(b, d)
    ensures HexValue(b) == Some(d)
  {
  }

  lemma HexDenotes(c: Code, s: Text)
    requires |s| == 5 && FourHex(c, s)
    ensures ParseHex(s[1..5]) == Some(c)
  {
    hide HexValue, HexDigitIs;
    var p: nat, q: nat, r: nat, t: nat :|
      HexDigitIs(s[1], p) && HexDigitIs(s[2], q) && HexDigitIs(s[3], r) && HexDigitIs(s[4], t) && c == 4096 * p + 256 * q + 16 * r + t;
    HexIs(s[1], p);
    HexIs(s[2], q);
    HexIs(s[3], r);
    HexIs(s[4], t);
  }

  /** What each escape denotes. */
  lemma EscapeDenotes(c: Code, s: Text, more: Text)
    requires EscapeText(c, s)
    ensures ParseEscape(s + more) == Some((c, more))
  {
    hide ParseHex, FourHex;
    if |s| == 5 {
      HexDenotes(c, s);
      assert (s + more)[1..5] == s[1..5] && (s + more)[5..] == more;
    } else {
      assert (s + more)[1..] == more;
    }
  }

  lemma CharTextParses(c: Code, s: Text, more: Text)
    requires CharText(c, s)
    ensures !Starts(s + more, QUOTE) && ParseChar(s + more) == Some((c, more)) && s != []
  {
    hide ParseEscape, EscapeText;
    if c >= 0x20 && c != 0x22 && c != 0x5C && s == Utf8(c) {
      CharParses(c, more);
    } else {
      EscapeDenotes(c, s[1..], more);
      assert (s + more)[1..] == s[1..] + more;
    }
  }

  lemma {:induction false} CharsTextParse(t: Str, s: Text, more: Text, acc: Str)
    requires CharsText(t, s)
    ensures ParseChars(s + [QUOTE] + more, acc) == Some((acc + t, more))
    decreases |t|
  {
    hide ParseChar, CharText;
    if t == [] {
      assert s + [QUOTE] + more == [QUOTE] + more && ([QUOTE] + more)[1..] == more && acc + t == acc;
    } else {
      var a, b :| CharText(t[0], a) && CharsText(t[1..], b) && s == a + b;
      var tail := b + [QUOTE] + more;
      assert s + [QUOTE] + more == a + tail;
      CharTextParses(t[0], a, tail);
      CharsTextParse(t[1..], b, more, acc + [t[0]]);
      assert acc + [t[0]] + t[1..] == acc + t;
    }
  }

  lemma StrTextParses(t: Str, s: Text, more: Text)
    requires StrText(t, s)
    ensures ParseStr(s + more) == Some((t, more))
  {
    hide ParseChars, CharsText;
    var inner := s[1..|s| - 1];
    assert (s + more)[1..] == inner + [QUOTE] + more;
    CharsTextParse(t, inner, more, []);
    assert [] + t == t;
  }

  // ---------- values ----------

  lemma SpelledHead(v: Value, s: Text)
    requires Spells(v, s) && Printable(v)
    ensures s != [] && !IsWs(s[0]) && s[0] != 0x5D && s[0] != 0x7D
  {
    hide StrText, Items, Fields;
    match v
    case Str(t) => StrHead(t, s);
    case Array(_) =>
    case Object(_) =>
    case _ => FirstByte(v);
  }

  lemma StrHead(t: Str, s: Text)
    requires StrText(t, s)
    ensures s != [] && s[0] == QUOTE
  {
  }

  /** What can follow a value inside an array or object does not extend a number. */
  lemma BlankEnds(u: Text, b: byte, rest: Text)
    requires Blank(u) && b in {0x2C, 0x5D, 0x7D}
    ensures Ends(u + [b] + rest) && SkipWs(u + [b] + rest) == [b] + rest
  {
    assert u + [b] + rest == u + ([b] + rest);
    SkipBlank(u, [b] + rest);
  }

  lemma {:induction false} SpelledParses(v: Value, s: Text, rest: Text)
    requires Spells(v, s) && Printable(v) && (v.Int? ==> Ends(rest))
    ensures ParseValue(s + rest) == Some((v, rest))
    decreases v, 1
  {
    hide StrText, Items, Fields, ParseValue;
    match v
    case Str(t) => StrValue(t, s, rest);
    case Array(items) => ArrayTextParses(items, s, rest);
    case Object(fields) => ObjectTextParses(fields, s, rest);
    case _ => ValueParses(v, rest);
  }

  lemma StrValue(t: Str, s: Text, rest: Text)
    requires StrText(t, s)
    ensures ParseValue(s + rest) == Some((Str(t), rest))
  {
    hide ParseStr, StrText;
    StrHead(t, s);
    StrTextParses(t, s, rest);
    assert SkipWs(s + rest) == s + rest;
  }

  lemma {:induction false} ArrayTextParses(items: seq<Value>, s: Text, rest: Text)
    requires Spells(Array(items), s) && Printable(Array(items))
    ensures ParseValue(s + rest) == Some((Array(items), rest))
    decreases Array(items), 0
  {
    hide ParseItems, Items;
    var inner := s[1..|s| - 1];
    assert (s + rest)[1..] == inner + [0x5D] + rest;
    assert SkipWs(s + rest) == s + rest;
    var u := SkipWs(inner + [0x5D] + rest);
    if items == [] {
      BlankEnds(inner, 0x5D, rest);
      assert ([0x5D] + rest)[1..] == rest;
    } else {
      ItemsHead(items, inner, [0x5D] + rest);
      assert inner + [0x5D] + rest == inner + ([0x5D] + rest);
      ItemsTextParse(items, inner, rest, []);
      assert [] + items == items;
    }
  }

  lemma PaddedHead(v: Value, s: Text, more: Text)
    requires Padded(v, s) && Printable(v)
    ensures SkipWs(s + more) != [] && SkipWs(s + more)[0] != 0x5D && SkipWs(s + more)[0] != 0x7D
  {
    hide Spells, SkipWs, Blank, Printable;
    var w, t, u :| Blank(w) && Spells(v, t) && Blank(u) && s == w + t + u;
    SpelledHead(v, t);
    var rest := t + (u + more);
    assert rest[0] == t[0];
    Regrouped(w, t, u, more);
    SkipBlank(w, rest);
  }

  lemma Regrouped(w: Text, t: Text, u: Text, more: Text)
    ensures w + t + u + more == w + (t + (u + more))
  {
  }

  lemma ItemsHead(items: seq<Value>, s: Text, more: Text)
    requires items != [] && Items(items, s) && forall x :: x in items ==> Printable(x)
    ensures !Starts(SkipWs(s + more), 0x5D)
  {
    hide Padded;
    assert items[0] in items;
    if |items| == 1 {
      PaddedHead(items[0], s, more);
    } else {
      var a, b :| Padded(items[0], a) && Items(items[1..], b) && s == a + [0x2C] + b;
      assert s + more == a + ([0x2C] + b + more);
      PaddedHead(items[0], a, [0x2C] + b + more);
    }
  }

  /** A padded value in front of a separator. */
  lemma {:induction false} PaddedParses(v: Value, s: Text, b: byte, rest: Text)
    requires Padded(v, s) && Printable(v) && b in {0x2C, 0x5D, 0x7D}
    ensures var r := ParseValue(SkipWs(s + [b] + rest));
      r.Some? && r.value.0 == v && SkipWs(r.value.1) == [b] + rest
    ensures ParseValue(s + [b] + rest) == ParseValue(SkipWs(s + [b] + rest))
    decreases v, 2
  {
    hide Spells, ParseValue;
    var w, t, u :| Blank(w) && Spells(v, t) && Blank(u) && s == w + t + u;
    SpelledHead(v, t);
    var more := u + [b] + rest;
    assert s + [b] + rest == w + (t + more);
    SkipBlank(w, t + more);
    BlankEnds(u, b, rest);
    SpelledParses(v, t, more);
    LeadingBlank(w, t + more);
  }

  lemma {:induction false} ItemsTextParse(items: seq<Value>, s: Text, rest: Text, acc: seq<Value>)
    requires items != [] && Items(items, s) && forall x :: x in items ==> Printable(x)
    ensures ParseItems(SkipWs(s + [0x5D] + rest), acc) == Some((Array(acc + items), rest))
    decreases items, 0
  {
    hide ParseValue, Printable, Padded, SkipWs;
    var v := items[0];
    assert v in items;
    if |items| == 1 {
      PaddedParses(v, s, 0x5D, rest);
      assert ([0x5D] + rest)[1..] == rest && items == [v];
    } else {
      var a, b :| Padded(v, a) && Items(items[1..], b) && s == a + [0x2C] + b;
      var tail := b + [0x5D] + rest;
      assert s + [0x5D] + rest == a + [0x2C] + tail;
      PaddedParses(v, a, 0x2C, tail);
      assert ([0x2C] + tail)[1..] == tail;
      ItemsTextParse(items[1..], b, rest, acc + [v]);
      assert acc + [v] + items[1..] == acc + items;
    }
  }

  lemma {:induction false} ObjectTextParses(fields: seq<Field>, s: Text, rest: Text)
    requires Spells(Object(fields), s) && Printable(Object(fields))
    ensures ParseValue(s + rest) == Some((Object(fields), rest))
    decreases Object(fields), 0
  {
    hide ParseFields, Fields;
    var inner := s[1..|s| - 1];
    assert (s + rest)[1..] == inner + [0x7D] + rest;
    assert SkipWs(s + rest) == s + rest;
    if fields == [] {
      BlankEnds(inner, 0x7D, rest);
      assert ([0x7D] + rest)[1..] == rest;
    } else {
      FieldsHead(fields, inner, [0x7D] + rest);
      assert inner + [0x7D] + rest == inner + ([0x7D] + rest);
      SkipTwice(inner + [0x7D] + rest);
      FieldsTextParse(fields, inner, rest, [], SkipWs(inner + [0x7D] + rest));
      assert [] + fields == fields;
    }
  }

  lemma {:induction false} SkipTwice(s: Text)
    ensures SkipWs(SkipWs(s)) == SkipWs(s)
  {
    if s != [] && IsWs(s[0]) {
      SkipTwice(s[1..]);
    }
  }

  lemma KeyParses(k: Str, s: Text, more: Text)
    requires KeyText(k, s)
    ensures var r := ParseStr(SkipWs(s + [0x3A] + more));
      r.Some? && r.value.0 == k && SkipWs(r.value.1) == [0x3A] + more
    ensures Starts(SkipWs(s + [0x3A] + more), QUOTE)
  {
    hide StrText, ParseStr;
    var w, t, u :| Blank(w) && StrText(k, t) && Blank(u) && s == w + t + u;
    StrHead(k, t);
    var rest := u + ([0x3A] + more);
    assert s + [0x3A] + more == w + (t + rest);
    SkipBlank(w, t + rest);
    StrTextParses(k, t, rest);
    SkipBlank(u, [0x3A] + more);
  }

  lemma FieldsHead(fields: seq<Field>, s: Text, more: Text)
    requires fields != [] && Fields(fields, s)
    ensures !Starts(SkipWs(s + more), 0x7D)
  {
    hide Padded, KeyText, SkipWs;
    var one, after := FirstField(fields, s);
    var a, b :| KeyText(fields[0].key, a) && Padded(fields[0].value, b) && one == a + [0x3A] + b;
    assert s + more == a + [0x3A] + (b + after + more);
    KeyParses(fields[0].key, a, b + after + more);
  }

  lemma FirstField(fields: seq<Field>, s: Text) returns (one: Text, after: Text)
    requires fields != [] && Fields(fields, s)
    ensures s == one + after && FieldSpelled(fields[0], one)
  {
    hide FieldSpelled;
    if |fields| == 1 {
      one, after := s, [];
    } else {
      var a, b :| FieldSpelled(fields[0], a) && Fields(fields[1..], b) && s == a + [0x2C] + b;
      one, after := a, [0x2C] + b;
    }
  }

  /** One field in front of a separator. */
  lemma {:induction false} FieldSpelledParses(f: Field, s: Text, b: byte, rest: Text, t: Text)
    requires FieldSpelled(f, s) && Printable(f.value) && b in {0x2C, 0x7D} && SkipWs(t) == SkipWs(s + [b] + rest)
    ensures var r := ParseField(t); r.Some? && r.value.0 == f && SkipWs(r.value.1) == [b] + rest
    decreases f, 1
  {
    hide Padded, KeyText, ParseValue, ParseStr, SkipWs;
    var x, y :| KeyText(f.key, x) && Padded(f.value, y) && s == x + [0x3A] + y;
    var more := y + [b] + rest;
    assert s + [b] + rest == x + [0x3A] + more;
    KeyParses(f.key, x, more);
    assert ([0x3A] + more)[1..] == more;
    PaddedParses(f.value, y, b, rest);
  }

  lemma {:induction false} FieldsTextParse(fields: seq<Field>, s: Text, rest: Text, acc: seq<Field>, t: Text)
    requires fields != [] && Fields(fields, s) && DistinctKeys(acc + fields) && forall f :: f in fields ==> Printable(f.value)
    requires SkipWs(t) == SkipWs(s + [0x7D] + rest)
    ensures ParseFields(t, acc) == Some((Object(acc + fields), rest))
    decreases fields, 0
  {
    hide ParseField, Printable, FieldSpelled, SkipWs;
    var f := fields[0];
    assert f in fields;
    forall g | g in acc ensures g.key != f.key {
      var i :| 0 <= i < |acc| && acc[i] == g;
      assert (acc + fields)[i] == g && (acc + fields)[|acc|] == f;
    }
    InsertNew(acc, f.key, f.value);
    if |fields| == 1 {
      FieldSpelledParses(f, s, 0x7D, rest, t);
      assert ([0x7D] + rest)[1..] == rest && fields == [f];
    } else {
      var a, b :| FieldSpelled(f, a) && Fields(fields[1..], b) && s == a + [0x2C] + b;
      var tail := b + [0x7D] + rest;
      assert s + [0x7D] + rest == a + [0x2C] + tail;
      FieldSpelledParses(f, a, 0x2C, tail, t);
      assert ([0x2C] + tail)[1..] == tail;
      assert acc + [f] + fields[1..] == acc + fields;
      FieldsTextParse(fields[1..], b, rest, acc + [f], tail);
    }
  }

  /** However it is spaced and escaped, a document is read as the value it spells. */
  lemma SpacedDocument(v: Value, w: Text, s: Text, u: Text)
    requires Printable(v) && Blank(w) && Spells(v, s) && Blank(u)
    ensures Parse(w + s + u) == Some(v)
  {
    hide Spells, ParseValue;
    SpelledHead(v, s);
    assert w + s + u == w + (s + u);
    SkipBlank(w, s + u);
    assert v.Int? ==> Ends(u) by {
      if u != [] {
        assert u[0] in {0x20, 0x09, 0x0A, 0x0D};
      }
    }
    SpelledParses(v, s, u);
    OnlyBlank(u);
  }

  // ---------- numbers ----------

  ghost predicate AllDigits(d: Text) { d != [] && forall i :: 0 <= i < |d| ==> 0x30 <= d[i] <= 0x39 }

  /** An integer literal, leading zeros and all, is read as the number its digits make. */
  lemma IntTextParses(neg: bool, d: Text, rest: Text)
    requires AllDigits(d) && Ends(rest)
    ensures var s, n: int := (if neg then [0x2D] else []) + d, Decimal(d);
      ParseNumber(s + rest) == Some((Int(if neg then -n else n), rest))
  {
    var sign: Text := if neg then [0x2D] else [];
    var s := sign + d + rest;
    SpanExact(d, rest);
    hide *;
    Sliced(sign, d, rest);
    NumberEnds(s, |sign| + |d|);
    assert Starts(s, 0x2D) <==> neg by { SignFirst(sign, d, rest); }
    NumberIs(s, |sign|, |d|);
  }

  lemma SignFirst(sign: Text, d: Text, rest: Text)
    requires sign in {[0x2D], []} && AllDigits(d)
    ensures Starts(sign + d + rest, 0x2D) <==> sign == [0x2D]
  {
  }

  /** Ten times what came before and the last digit; a leading zero adds nothing. */
  lemma {:induction false} DecimalExactly(d: Text, b: byte)
    requires AllDigits(d) && 0x30 <= b <= 0x39
    ensures Decimal(d + [b]) == 10 * Decimal(d) + ((b as int) - 0x30)
    ensures Decimal([b]) == (b as int) - 0x30 && Decimal([0x30] + d) == Decimal(d)
    decreases |d|
  {
    assert (d + [b])[..|d|] == d && [b][..0] == [];
    assert Decimal([]) == 0;
    var n := |d| - 1;
    assert ([0x30] + d)[..n + 1] == [0x30] + d[..n];
    if n > 0 {
      DecimalExactly(d[..n], b);
    } else {
      assert d[..0] == [] && [0x30] + d[..0] == [0x30] && [0x30][..0] == [];
    }
  }

  ghost predicate FracText(f: Text) { f == [] || (f[0] == 0x2E && AllDigits(f[1..])) }

  ghost predicate ExpText(e: Text) {
    e == [] || ((e[0] == 0x65 || e[0] == 0x45) && (AllDigits(e[1..]) || (|e| > 2 && (e[1] == 0x2B || e[1] == 0x2D) && AllDigits(e[2..]))))
  }

  lemma After(p: Text, e: Text, more: Text, n: nat)
    requires n <= |e|
    ensures (p + e + more)[|p| + n..] == e[n..] + more
  {
  }

  lemma FracIs(p: Text, f: Text, more: Text)
    requires FracText(f) && (more == [] || !(0x30 <= more[0] <= 0x39)) && (f == [] ==> more == [] || more[0] != 0x2E)
    ensures FracEnd(p + f + more, |p|) == Some(|p| + |f|)
  {
    var s := p + f + more;
    if f != [] {
      assert s[|p|] == f[0];
      After(p, f, more, 1);
      SpanExact(f[1..], more);
    } else {
      assert |p| < |s| ==> s[|p|] == more[0];
    }
  }

  lemma ExpIs(p: Text, e: Text, more: Text)
    requires ExpText(e) && (more == [] || !(0x30 <= more[0] <= 0x39)) && (e == [] ==> more == [] || (more[0] != 0x65 && more[0] != 0x45))
    ensures ExpEnd(p + e + more, |p|) == Some(|p| + |e|)
  {
    var s := p + e + more;
    if e != [] {
      assert |e| >= 2 && s[|p|] == e[0] && s[|p| + 1] == e[1];
      if AllDigits(e[1..]) {
        assert e[1..][0] == e[1];
        After(p, e, more, 1);
        SpanExact(e[1..], more);
      } else {
        After(p, e, more, 2);
        SpanExact(e[2..], more);
      }
    } else {
      assert |p| < |s| ==> s[|p|] == more[0];
    }
  }

  /** A literal with a point or an exponent is a float, which keeps its text. */
  lemma FloatTextParses(neg: bool, d: Text, f: Text, e: Text, rest: Text)
    requires AllDigits(d) && FracText(f) && ExpText(e) && f + e != [] && Ends(rest)
    ensures var s := (if neg then [0x2D] else []) + d + f + e;
      ParseNumber(s + rest) == Some((Float(s), rest))
  {
    var sign: Text := if neg then [0x2D] else [];
    FloatAfter(sign, d, f, e, rest);
  }

  lemma FloatAfter(sign: Text, d: Text, f: Text, e: Text, rest: Text)
    requires sign in {[0x2D], []} && AllDigits(d) && FracText(f) && ExpText(e) && f + e != [] && Ends(rest)
    ensures var s := sign + d + f + e;
      ParseNumber(s + rest) == Some((Float(s), rest))
  {
    hide Span, FracEnd, ExpEnd, ParseNumber, FracText, ExpText, AllDigits, Starts;
    var s := sign + d + f + e;
    var t, n := s + rest, |sign| + |d|;
    FloatSpan(sign, d, f, e, rest);
    FracHere(sign + d, f, e, rest);
    ExpIs(sign + d + f, e, rest);
    assert FracEnd(t, n) == Some(n + |f|);
    assert ExpEnd(t, n + |f|) == Some(|s|);
    Cut(s, rest);
    Longer(f, e);
    FloatIs(t, |sign|, |d|, n + |f|, |s|);
  }

  lemma FloatSpan(sign: Text, d: Text, f: Text, e: Text, rest: Text)
    requires sign in {[0x2D], []} && AllDigits(d) && FracText(f) && ExpText(e) && f + e != []
    ensures var t := sign + d + f + e + rest;
      Span(t[|sign|..]) == |d| > 0 && |sign| == (if Starts(t, 0x2D) then 1 else 0)
  {
    hide Span, FracText, ExpText;
    var tail := f + e + rest;
    TailHead(f, e, rest);
    SpanExact(d, tail);
    Joined(sign, d, f, e, rest);
    Sliced(sign, d, tail);
    SignFirst(sign, d, tail);
  }

  lemma Cut(s: Text, rest: Text)
    ensures (s + rest)[..|s|] == s && (s + rest)[|s|..] == rest
  {
  }

  lemma Longer(f: Text, e: Text)
    requires f + e != []
    ensures |f| + |e| > 0
  {
  }

  /** Starts with a digit. */
  predicate DigitFirst(t: Text) { t != [] && IsDigit(t[0]) }

  lemma TailHead(f: Text, e: Text, rest: Text)
    requires FracText(f) && ExpText(e) && f + e != []
    ensures !DigitFirst(f + e + rest)
  {
    if f == [] {
      assert (f + e + rest)[0] == e[0];
    } else {
      assert (f + e + rest)[0] == f[0];
    }
  }

  lemma FracHere(p: Text, f: Text, e: Text, rest: Text)
    requires FracText(f) && ExpText(e) && f + e != [] && Ends(rest)
    ensures FracEnd(p + f + e + rest, |p|) == Some(|p| + |f|)
  {
    var more := e + rest;
    assert more != [] && e != [] ==> more[0] == e[0];
    assert e == [] ==> more == rest;
    FracIs(p, f, more);
    assert p + f + more == p + f + e + rest;
  }

  lemma Joined(a: Text, b: Text, c: Text, d: Text, e: Text)
    ensures a + b + c + d + e == a + b + (c + d + e)
  {
  }

  lemma FloatIs(t: Text, sign: nat, n: nat, j: nat, k: nat)
    requires sign == (if Starts(t, 0x2D) then 1 else 0) && sign + n <= |t| && n > 0 && Span(t[sign..]) == n
    requires j <= |t| && FracEnd(t, sign + n) == Some(j) && ExpEnd(t, j) == Some(k) && k > sign + n
    ensures ParseNumber(t) == Some((Float(t[..k]), t[k..]))
  {
    hide Span, FracEnd, ExpEnd;
  }

  // ---------- repeated keys ----------

  /** A repeated key keeps its place and takes the new value. */
  lemma {:induction false} RepeatedKey(fields: seq<Field>, k: Str, v: Value, i: nat)
    requires i < |fields| && fields[i].key == k && forall j :: 0 <= j < i ==> fields[j].key != k
    ensures Insert(fields, k, v) == fields[i := Field(k, v)]
    decreases i
  {
    var f := Field(k, v);
    if i == 0 {
      assert [f] + fields[1..] == fields[0 := f];
    } else {
      var rest := fields[1..];
      forall j | 0 <= j < i - 1 ensures rest[j].key != k {
        assert rest[j] == fields[j + 1];
      }
      RepeatedKey(rest, k, v, i - 1);
      assert [fields[0]] + rest[i - 1 := f] == fields[i := f];
    }
  }

  // ---------- what is refused ----------

  /** Anything but white space after a document refuses it. */
  lemma TrailingRefused(v: Value, s: Text, u: Text, b: byte, more: Text)
    requires Printable(v) && Spells(v, s) && Blank(u) && b !in {0x20, 0x09, 0x0A, 0x0D}
    requires v.Int? ==> Ends(u + [b] + more)
    ensures Parse(s + (u + [b] + more)) == None
  {
    hide Spells, ParseValue;
    var rest := u + [b] + more;
    SpelledHead(v, s);
    SkipBlank([], s + rest);
    assert [] + (s + rest) == s + rest;
    SpelledParses(v, s, rest);
    assert rest == u + ([b] + more);
    SkipBlank(u, [b] + more);
  }

  /** A control character inside a string must be escaped. */
  lemma ControlRefused(t: Str, s: Text, b: byte, more: Text, acc: Str)
    requires CharsText(t, s) && b < 0x20
    ensures ParseChars(s + ([b] + more), acc) == None
    decreases |t|
  {
    hide CharText;
    if t == [] {
      assert s + ([b] + more) == [b] + more;
    } else {
      var x, y :| CharText(t[0], x) && CharsText(t[1..], y) && s == x + y;
      assert s + ([b] + more) == x + (y + ([b] + more));
      CharTextParses(t[0], x, y + ([b] + more));
      ControlRefused(t[1..], y, b, more, acc + [t[0]]);
    }
  }
}
