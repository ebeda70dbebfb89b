/**
 * The Borsh binary format, restricted to the shapes that the ledger's
 * host/guest memory types are built from: a u32 length prefix in little-endian
 * order, byte vectors, strings, vectors of strings, optional byte vectors and
 * booleans.
 *
 * Every encoder is a function from a value to bytes. Every parser takes a
 * byte buffer and either fails or returns the decoded value together with the
 * bytes it did not consume, so that struct fields can be parsed one after the
 * other. `Complete` turns a parser into a decoder of a whole buffer, as
 * `try_from_slice` does: bytes left over after the value are an error.
 */
module Borsh {

  type byte = x: int | 0 <= x < 256

  /** Rust `String`, as the UTF-8 bytes that Borsh puts on the wire. */
  type String = seq<byte>

  /** Lengths are written as a u32, so every length must stay below this. */
  const U32_LIMIT: nat := 0x1_0000_0000

  /** The ways a Borsh decode can fail on the shapes modelled here. */
  datatype DecodeError =
    | UnexpectedEndOfInput            // fewer bytes than the value needs
    | InvalidBool(tag: byte)          // a bool byte other than 0 or 1
    | InvalidOptionTag(tag: byte)     // an Option discriminant other than 0 or 1
    | NotAllBytesRead                 // bytes left over after a whole-buffer decode

  datatype Result<+T> = Ok(value: T) | Err(error: DecodeError) {
    predicate IsFailure() { Err? }

    function PropagateFailure<U>(): Result<U>
      requires Err?
    {
      Err(error)
    }

    function Extract(): T
      requires Ok?
    {
      value
    }
  }

  /** A decoded value and the bytes that follow it. */
  datatype Parsed<+T> = Parsed(value: T, rest: seq<byte>)

  /** A byte sequence whose length fits the u32 length prefix. */
  predicate Fits(s: seq<byte>) {
    |s| < U32_LIMIT
  }

  /** A `Vec<String>` that can be encoded: its count and each element fit. */
  predicate FitsAll(ks: seq<String>) {
    |ks| < U32_LIMIT && forall i :: 0 <= i < |ks| ==> Fits(ks[i])
  }

  // ---------------------------------------------------------------------------
  // u32, little-endian

  /** The value of four bytes read as a little-endian u32. */
  function U32Value(b: seq<byte>): (n: nat)
    requires |b| == 4
    ensures n < U32_LIMIT
  {
    b[0] as int + 256 * (b[1] as int + 256 * (b[2] as int + 256 * b[3] as int))
  }

  /** The four little-endian bytes of a u32. */
  function LE32(n: nat): (r: seq<byte>)
    requires n < U32_LIMIT
    ensures |r| == 4 && U32Value(r) == n
  {
    var n1 := n / 256;
    var n2 := n1 / 256;
    assert n2 < 65536;
    [n % 256, n1 % 256, n2 % 256, n2 / 256]
  }

  /** The two u32 codings are mutually inverse: every 4-byte group is the LE32 of its value. */
  lemma LE32OfU32Value(b: seq<byte>)
    requires |b| == 4
    ensures LE32(U32Value(b)) == b
  {
    var n2: int := b[2] as int + 256 * b[3] as int;
    var n1: int := b[1] as int + 256 * n2;
    var n: int := b[0] as int + 256 * n1;
    assert n % 256 == b[0] && n / 256 == n1;
    assert n1 % 256 == b[1] && n1 / 256 == n2;
    assert n2 % 256 == b[2] && n2 / 256 == b[3];
  }

  /** Distinct u32 values have distinct encodings. */
  lemma LE32Injective(m: nat, n: nat)
    requires m < U32_LIMIT && n < U32_LIMIT
    requires LE32(m) == LE32(n)
    ensures m == n
  {
    assert U32Value(LE32(m)) == m;
  }

  function ParseU32(s: seq<byte>): (r: Result<Parsed<nat>>)
    ensures r.Err? <==> |s| < 4
    ensures r.Err? ==> r.error == UnexpectedEndOfInput
    ensures r.Ok? ==> r.value.value < U32_LIMIT && s == LE32(r.value.value) + r.value.rest
  {
    if |s| < 4 then Err(UnexpectedEndOfInput)
    else
      LE32OfU32Value(s[..4]);
      Ok(Parsed(U32Value(s[..4]), s[4..]))
  }

  lemma ParseU32RoundTrip(n: nat, rest: seq<byte>)
    requires n < U32_LIMIT
    ensures ParseU32(LE32(n) + rest) == Ok(Parsed(n, rest))
  {
    var s := LE32(n) + rest;
    assert s[..4] == LE32(n) && s[4..] == rest;
  }

  // ---------------------------------------------------------------------------
  // Vec<u8> and String: a u32 count, then the bytes

  function EncBytes(b: seq<byte>): (r: seq<byte>)
    requires Fits(b)
    ensures |r| == 4 + |b| && r[4..] == b
    ensures U32Value(r[..4]) == |b|
  {
    LE32(|b|) + b
  }

  function ParseBytes(s: seq<byte>): (r: Result<Parsed<seq<byte>>>)
    ensures r.Ok? <==> |s| >= 4 && |s| - 4 >= U32Value(s[..4])
    ensures r.Err? ==> r.error == UnexpectedEndOfInput
    ensures r.Ok? ==> Fits(r.value.value) && s == EncBytes(r.value.value) + r.value.rest
  {
    var len :- ParseU32(s);
    var body := len.rest;
    if |body| < len.value then Err(UnexpectedEndOfInput)
    else
      assert body == body[..len.value] + body[len.value..];
      Ok(Parsed(body[..len.value], body[len.value..]))
  }

  lemma ParseBytesRoundTrip(b: seq<byte>, rest: seq<byte>)
    requires Fits(b)
    ensures ParseBytes(EncBytes(b) + rest) == Ok(Parsed(b, rest))
  {
    var s := EncBytes(b) + rest;
    assert s == LE32(|b|) + (b + rest);
    ParseU32RoundTrip(|b|, b + rest);
    assert (b + rest)[..|b|] == b && (b + rest)[|b|..] == rest;
  }

  /** A `String` is written exactly like the `Vec<u8>` of its UTF-8 bytes. */
  function EncStr(s: String): (r: seq<byte>)
    requires Fits(s)
    ensures |r| == 4 + |s| && r[4..] == s
  {
    EncBytes(s)
  }

  function ParseStr(s: seq<byte>): (r: Result<Parsed<String>>)
    ensures r.Ok? ==> Fits(r.value.value) && s == EncStr(r.value.value) + r.value.rest
  {
    ParseBytes(s)
  }

  // ---------------------------------------------------------------------------
  // Vec<String>: a u32 count, then each string in order

  /** The number of bytes that the strings take on the wire: each one's u32 prefix and its bytes. */
  function StrSeqSize(ks: seq<String>): nat {
    if ks == [] then 0 else 4 + |ks[0]| + StrSeqSize(ks[1..])
  }

  /** The strings encoded one after the other, with no separator. */
  function EncStrSeq(ks: seq<String>): (r: seq<byte>)
    requires forall i :: 0 <= i < |ks| ==> Fits(ks[i])
    ensures |r| == StrSeqSize(ks)
    ensures ks != [] ==> r[..4 + |ks[0]|] == EncStr(ks[0])
  {
    if ks == [] then [] else EncStr(ks[0]) + EncStrSeq(ks[1..])
  }

  /** Parses exactly `n` strings, one after the other. */
  function ParseStrSeq(s: seq<byte>, n: nat): (r: Result<Parsed<seq<String>>>)
    ensures r.Ok? ==> |r.value.value| == n
    ensures r.Ok? ==> (forall i :: 0 <= i < n ==> Fits(r.value.value[i]))
    ensures r.Ok? ==> s == EncStrSeq(r.value.value) + r.value.rest
    decreases n
  {
    if n == 0 then Ok(Parsed([], s))
    else
      var head :- ParseStr(s);
      var tail :- ParseStrSeq(head.rest, n - 1);
      var ks := [head.value] + tail.value;
      assert ks[1..] == tail.value;
      Ok(Parsed(ks, tail.rest))
  }

  lemma {:induction false} ParseStrSeqRoundTrip(ks: seq<String>, rest: seq<byte>)
    requires forall i :: 0 <= i < |ks| ==> Fits(ks[i])
    ensures ParseStrSeq(EncStrSeq(ks) + rest, |ks|) == Ok(Parsed(ks, rest))
  {
    if ks != [] {
      var tailBytes := EncStrSeq(ks[1..]) + rest;
      assert EncStrSeq(ks) + rest == EncStr(ks[0]) + tailBytes;
      ParseBytesRoundTrip(ks[0], tailBytes);
      assert ParseStr(EncStr(ks[0]) + tailBytes) == Ok(Parsed(ks[0], tailBytes));
      ParseStrSeqRoundTrip(ks[1..], rest);
      assert |ks[1..]| == |ks| - 1;
      assert [ks[0]] + ks[1..] == ks;
      var s := EncStrSeq(ks) + rest;
      assert ParseStr(s) == Ok(Parsed(ks[0], tailBytes));
      assert ParseStrSeq(tailBytes, |ks| - 1) == Ok(Parsed(ks[1..], rest));
    } else {
      assert EncStrSeq(ks) + rest == rest;
    }
  }

  function EncStrVec(ks: seq<String>): (r: seq<byte>)
    requires FitsAll(ks)
    ensures |r| == 4 + StrSeqSize(ks) && U32Value(r[..4]) == |ks|
  {
    LE32(|ks|) + EncStrSeq(ks)
  }

  function ParseStrVec(s: seq<byte>): (r: Result<Parsed<seq<String>>>)
    ensures r.Ok? ==> FitsAll(r.value.value) && s == EncStrVec(r.value.value) + r.value.rest
  {
    var count :- ParseU32(s);
    ParseStrSeq(count.rest, count.value)
  }

  lemma ParseStrVecRoundTrip(ks: seq<String>, rest: seq<byte>)
    requires FitsAll(ks)
    ensures ParseStrVec(EncStrVec(ks) + rest) == Ok(Parsed(ks, rest))
  {
    assert EncStrVec(ks) + rest == LE32(|ks|) + (EncStrSeq(ks) + rest);
    ParseU32RoundTrip(|ks|, EncStrSeq(ks) + rest);
    ParseStrSeqRoundTrip(ks, rest);
  }

  // ---------------------------------------------------------------------------
  // Option<Vec<u8>>: a discriminant byte, then the bytes when present

  function EncOptBytes(o: Option<seq<byte>>): (r: seq<byte>)
    requires o.Some? ==> Fits(o.value)
    ensures o.None? ==> r == [0]
    ensures o.Some? ==> |r| == 5 + |o.value| && r[0] == 1 && r[1..] == EncBytes(o.value)
  {
    match o
    case None => [0]
    case Some(b) => [1] + EncBytes(b)
  }

  datatype Option<+T> = None | Some(value: T)

  function ParseOptBytes(s: seq<byte>): (r: Result<Parsed<Option<seq<byte>>>>)
    ensures r.Ok? <==> |s| > 0 && (s[0] == 0 || (s[0] == 1 && ParseBytes(s[1..]).Ok?))
    ensures |s| == 0 ==> r == Err(UnexpectedEndOfInput)
    ensures |s| > 0 && s[0] > 1 ==> r == Err(InvalidOptionTag(s[0]))
    ensures r.Ok? ==> (r.value.value.Some? ==> Fits(r.value.value.value))
    ensures r.Ok? ==> s == EncOptBytes(r.value.value) + r.value.rest
  {
    if |s| == 0 then Err(UnexpectedEndOfInput)
    else if s[0] == 0 then
      assert s == [0] + s[1..];
      Ok(Parsed(None, s[1..]))
    else if s[0] == 1 then
      var b :- ParseBytes(s[1..]);
      assert s == [1] + s[1..];
      Ok(Parsed(Some(b.value), b.rest))
    else Err(InvalidOptionTag(s[0]))
  }

  lemma ParseOptBytesRoundTrip(o: Option<seq<byte>>, rest: seq<byte>)
    requires o.Some? ==> Fits(o.value)
    ensures ParseOptBytes(EncOptBytes(o) + rest) == Ok(Parsed(o, rest))
  {
    var s := EncOptBytes(o) + rest;
    assert s[1..] == EncOptBytes(o)[1..] + rest;
    if o.Some? {
      ParseBytesRoundTrip(o.value, rest);
    }
  }

  // ---------------------------------------------------------------------------
  // bool: one byte, 0 or 1

  function EncBool(b: bool): (r: seq<byte>)
    ensures |r| == 1 && r[0] <= 1
    ensures b <==> r[0] == 1
  {
    if b then [1] else [0]
  }

  function ParseBool(s: seq<byte>): (r: Result<Parsed<bool>>)
    ensures r.Ok? <==> |s| > 0 && s[0] <= 1
    ensures |s| == 0 ==> r == Err(UnexpectedEndOfInput)
    ensures |s| > 0 && s[0] > 1 ==> r == Err(InvalidBool(s[0]))
    ensures r.Ok? ==> s == EncBool(r.value.value) + r.value.rest
  {
    if |s| == 0 then Err(UnexpectedEndOfInput)
    else if s[0] == 0 then
      assert s == [0] + s[1..];
      Ok(Parsed(false, s[1..]))
    else if s[0] == 1 then
      assert s == [1] + s[1..];
      Ok(Parsed(true, s[1..]))
    else Err(InvalidBool(s[0]))
  }

  lemma ParseBoolRoundTrip(b: bool, rest: seq<byte>)
    ensures ParseBool(EncBool(b) + rest) == Ok(Parsed(b, rest))
  {
    assert (EncBool(b) + rest)[1..] == rest;
  }

  /** Regrouping the fields of a struct that were parsed one after the other. */
  lemma ConcatAssoc(a: seq<byte>, b: seq<byte>, c: seq<byte>, d: seq<byte>)
    ensures a + (b + (c + d)) == a + b + c + d
  {
  }

  // ---------------------------------------------------------------------------
  // Whole-buffer decoding

  /** Accepts a parse only when it consumed every byte of the buffer. */
  function Complete<T>(r: Result<Parsed<T>>): (d: Result<T>)
    ensures d.Ok? <==> r.Ok? && r.value.rest == []
    ensures d.Ok? ==> d.value == r.value.value
    ensures r.Err? ==> d == Err(r.error)
    ensures r.Ok? && r.value.rest != [] ==> d == Err(NotAllBytesRead)
  {
    match r
    case Err(e) => Err(e)
    case Ok(p) => if p.rest == [] then Ok(p.value) else Err(NotAllBytesRead)
  }
}
