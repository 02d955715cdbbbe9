/** Primitives of the artifact format: fixed-width integers, strings, counted lists. */
module Wire {
  import opened Options
  import opened Bytes
  import Json

  type Data = seq<byte>
  type Str = seq<Json.Code>

  const TWO32: nat := 0x1_0000_0000

  // ---------- integers ----------

  function ReadU(w: nat, s: Data): (r: Option<(nat, Data)>)
    ensures r.Some? ==> |r.value.1| == |s| - w
  {
    if |s| < w then None else Some((Num(s[..w]), s[w..]))
  }

  lemma ReadUWrite(w: nat, n: nat, rest: Data)
    requires n < Pow256(w)
    ensures ReadU(w, BE(n, w) + rest) == Some((n, rest))
  {
    var s := BE(n, w) + rest;
    assert s[..w] == BE(n, w) && s[w..] == rest;
    NumBE(n, w);
  }

  lemma Powers()
    ensures Pow256(1) == 256 && Pow256(2) == 65536 && Pow256(4) == TWO32
    ensures Pow256(8) == TWO32 * TWO32 && Pow256(16) == TWO32 * TWO32 * TWO32 * TWO32
  {
    assert Pow256(12) == TWO32 * TWO32 * TWO32;
  }

  /** Two's complement at 32 bits. */
  function WriteI32(n: int): Data
    requires -0x8000_0000 <= n < 0x8000_0000
  {
    BE(if n < 0 then n + TWO32 else n, 4)
  }

  function ReadI32(s: Data): (r: Option<(int, Data)>)
    ensures r.Some? ==> |r.value.1| == |s| - 4
  {
    match ReadU(4, s)
    case None => None
    case Some((n, rest)) => Some((if n >= 0x8000_0000 then n - TWO32 else n, rest))
  }

  lemma ReadI32Write(n: int, rest: Data)
    requires -0x8000_0000 <= n < 0x8000_0000
    ensures ReadI32(WriteI32(n) + rest) == Some((n, rest))
  {
    Powers();
    ReadUWrite(4, if n < 0 then n + TWO32 else n, rest);
  }

  function Flag(b: bool): Data { [if b then 1 else 0] }

  function ReadFlag(s: Data): (r: Option<(bool, Data)>)
    ensures r.Some? ==> |r.value.1| < |s|
  {
    if s == [] then None else Some((s[0] != 0, s[1..]))
  }

  lemma ReadFlagWrite(b: bool, rest: Data)
    ensures ReadFlag(Flag(b) + rest) == Some((b, rest))
  {
    assert (Flag(b) + rest)[1..] == rest;
  }

  // ---------- strings ----------

  function Utf8All(s: Str): Data { if s == [] then [] else Json.Utf8(s[0]) + Utf8All(s[1..]) }

  function FromUtf8All(d: Data): Option<Str> {
    if d == [] then Some([])
    else
      var n := Json.Utf8Len(d[0]);
      if |d| < n then None
      else
        match Json.FromUtf8(d[..n])
        case None => None
        case Some(c) =>
          match FromUtf8All(d[n..])
          case None => None
          case Some(rest) => Some([c] + rest)
  }

  lemma {:induction false} Utf8Back(s: Str)
    ensures FromUtf8All(Utf8All(s)) == Some(s)
  {
    hide Json.Utf8, Json.FromUtf8, Json.Utf8Len;
    if s != [] {
      Json.Utf8RoundTrip(s[0]);
      Utf8Back(s[1..]);
      var d, n := Utf8All(s), |Json.Utf8(s[0])|;
      assert d[..n] == Json.Utf8(s[0]) && d[n..] == Utf8All(s[1..]);
      assert d[0] == Json.Utf8(s[0])[0] && s == [s[0]] + s[1..];
    }
  }

  predicate SmallStr(s: Str) { |Utf8All(s)| < TWO32 }

  function WriteStr(s: Str): Data { BE(|Utf8All(s)|, 4) + Utf8All(s) }

  function ReadStr(s: Data): (r: Option<(Str, Data)>)
    ensures r.Some? ==> |r.value.1| < |s|
  {
    match ReadU(4, s)
    case None => None
    case Some((n, rest)) =>
      if |rest| < n then None
      else
        match FromUtf8All(rest[..n])
        case None => None
        case Some(str) => Some((str, rest[n..]))
  }

  lemma ReadStrWrite(str: Str, rest: Data)
    requires SmallStr(str)
    ensures ReadStr(WriteStr(str) + rest) == Some((str, rest))
  {
    hide Utf8All, FromUtf8All;
    var d := Utf8All(str);
    Powers();
    assert WriteStr(str) + rest == BE(|d|, 4) + (d + rest);
    ReadUWrite(4, |d|, d + rest);
    assert (d + rest)[..|d|] == d && (d + rest)[|d|..] == rest;
    Utf8Back(str);
  }

  // ---------- lists ----------

  function WriteAll<T>(xs: seq<T>, w: T -> Data): Data {
    if xs == [] then [] else w(xs[0]) + WriteAll(xs[1..], w)
  }

  function ReadAll<T>(n: nat, s: Data, rd: Data -> Option<(T, Data)>): Option<(seq<T>, Data)> {
    if n == 0 then Some(([], s))
    else
      match rd(s)
      case None => None
      case Some((x, rest)) =>
        match ReadAll(n - 1, rest, rd)
        case None => None
        case Some((xs, after)) => Some(([x] + xs, after))
  }

  function MapAll<T>(xs: seq<T>, f: T -> T): (r: seq<T>)
    ensures |r| == |xs|
  {
    if xs == [] then [] else [f(xs[0])] + MapAll(xs[1..], f)
  }

  /** If each element reads back as its image under `f`, so does a list of known length. */
  lemma {:induction false} ReadAllWrite<T>(xs: seq<T>, w: T -> Data, rd: Data -> Option<(T, Data)>, f: T -> T, rest: Data)
    requires forall x, more :: x in xs ==> rd(w(x) + more) == Some((f(x), more))
    ensures ReadAll(|xs|, WriteAll(xs, w) + rest, rd) == Some((MapAll(xs, f), rest))
    decreases |xs|
  {
    if xs == [] {
      assert WriteAll(xs, w) + rest == rest;
    } else {
      assert xs[0] in xs;
      var tail := WriteAll(xs[1..], w) + rest;
      assert WriteAll(xs, w) + rest == w(xs[0]) + tail;
      ReadAllWrite(xs[1..], w, rd, f, rest);
    }
  }

  function WriteList<T>(xs: seq<T>, w: T -> Data): Data { BE(|xs|, 4) + WriteAll(xs, w) }

  function ReadList<T>(s: Data, rd: Data -> Option<(T, Data)>): Option<(seq<T>, Data)> {
    match ReadU(4, s)
    case None => None
    case Some((n, rest)) => ReadAll(n, rest, rd)
  }

  lemma ReadListWrite<T>(xs: seq<T>, w: T -> Data, rd: Data -> Option<(T, Data)>, f: T -> T, rest: Data)
    requires |xs| < TWO32 && forall x, more :: x in xs ==> rd(w(x) + more) == Some((f(x), more))
    ensures ReadList(WriteList(xs, w) + rest, rd) == Some((MapAll(xs, f), rest))
  {
    hide WriteAll, ReadAll, ReadU, MapAll, BE, Pow256;
    Powers();
    assert WriteList(xs, w) + rest == BE(|xs|, 4) + (WriteAll(xs, w) + rest);
    ReadUWrite(4, |xs|, WriteAll(xs, w) + rest);
    ReadAllWrite(xs, w, rd, f, rest);
  }
}
