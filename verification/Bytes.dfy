/** Big-endian byte strings and their lexicographic order. */
module Bytes {

  type byte = b: int | 0 <= b < 256

  function Pow256(w: nat): (p: nat)
    ensures p > 0
  {
    if w == 0 then 1 else 256 * Pow256(w - 1)
  }

  /** The low `w` bytes of `x`, most significant first. */
  function BE(x: nat, w: nat): (s: seq<byte>)
    ensures |s| == w
  {
    if w == 0 then [] else BE(x / 256, w - 1) + [x % 256]
  }

  function Num(s: seq<byte>): nat {
    if s == [] then 0 else 256 * Num(s[..|s| - 1]) + s[|s| - 1]
  }

  lemma {:induction false} NumBE(x: nat, w: nat)
    requires x < Pow256(w)
    ensures Num(BE(x, w)) == x
  {
    if w > 0 {
      NumBE(x / 256, w - 1);
      assert BE(x, w)[..w - 1] == BE(x / 256, w - 1);
    }
  }

  lemma {:induction false} BENum(s: seq<byte>)
    ensures Num(s) < Pow256(|s|) && BE(Num(s), |s|) == s
  {
    if s != [] {
      BENum(s[..|s| - 1]);
      assert s == s[..|s| - 1] + [s[|s| - 1]];
    }
  }

  /** Fixed-width encodings of different numbers differ. */
  lemma BEInjective(x: nat, y: nat, w: nat)
    requires x < Pow256(w) && y < Pow256(w) && BE(x, w) == BE(y, w)
    ensures x == y
  {
    NumBE(x, w);
    NumBE(y, w);
  }

  /** Lexicographic order, a proper prefix coming first. */
  predicate Lex(a: seq<byte>, b: seq<byte>) {
    b != [] && (a == [] || a[0] < b[0] || (a[0] == b[0] && Lex(a[1..], b[1..])))
  }

  /** A difference in the heads of equal length decides. */
  lemma {:induction false} LexHead(a: seq<byte>, b: seq<byte>, a': seq<byte>, b': seq<byte>)
    requires |a| == |b| && a != b
    ensures Lex(a + a', b + b') <==> Lex(a, b)
    decreases |a|
  {
    var s, t := a + a', b + b';
    assert s[0] == a[0] && t[0] == b[0] && s[1..] == a[1..] + a' && t[1..] == b[1..] + b';
    if a[0] == b[0] {
      assert a == [a[0]] + a[1..] && b == [b[0]] + b[1..];
      LexHead(a[1..], b[1..], a', b');
    }
  }

  /** Equal heads leave it to the tails. */
  lemma {:induction false} LexTail(a: seq<byte>, s: seq<byte>, t: seq<byte>)
    ensures Lex(a + s, a + t) <==> Lex(s, t)
    decreases |a|
  {
    if a == [] {
      assert a + s == s && a + t == t;
    } else {
      assert (a + s)[1..] == a[1..] + s && (a + t)[1..] == a[1..] + t;
      LexTail(a[1..], s, t);
    }
  }

  lemma {:induction false} LexIrreflexive(s: seq<byte>)
    ensures !Lex(s, s)
  {
    if s != [] {
      LexIrreflexive(s[1..]);
    }
  }

  /** At one width, numeric order is lexicographic order. */
  lemma {:induction false} BEOrder(x: nat, y: nat, w: nat)
    requires x < Pow256(w) && y < Pow256(w)
    ensures Lex(BE(x, w), BE(y, w)) <==> x < y
  {
    if w > 0 {
      var a, b := BE(x / 256, w - 1), BE(y / 256, w - 1);
      BEOrder(x / 256, y / 256, w - 1);
      if a == b {
        BEInjective(x / 256, y / 256, w - 1);
        LexTail(a, [x % 256], [y % 256]);
      } else {
        LexHead(a, b, [x % 256], [y % 256]);
      }
    }
  }
}
