/** UTF-8 (RFC 3629) between Unicode scalar values and octets, as Python's
    `str.encode("utf-8")` and the strict `bytes.decode("utf-8")` apply it. A
    Dafny `char` is a Unicode scalar value, so every string can be encoded. */
module Utf8 {
  import opened Wrappers

  /** A continuation octet `10xxxxxx`. */
  predicate IsContinuation(b: byte) {
    0x80 <= b <= 0xBF
  }

  /** The encoding of one scalar value: one octet below U+0080, then two,
      three or four octets carrying 6 bits in each continuation octet. */
  function EncodeScalar(c: char): (b: seq<byte>)
    ensures 1 <= |b| <= 4
    ensures (c as int < 0x80) == (|b| == 1)
  {
    var cp := c as int;
    var q1 := cp / 64;
    var q2 := q1 / 64;
    var q3 := q2 / 64;
    if cp < 0x80 then [cp]
    else if cp < 0x800 then [0xC0 + q1, 0x80 + cp % 64]
    else if cp < 0x1_0000 then [0xE0 + q2, 0x80 + q1 % 64, 0x80 + cp % 64]
    else [0xF0 + q3, 0x80 + q2 % 64, 0x80 + q1 % 64, 0x80 + cp % 64]
  }

  /** Six low bits split off and put back. */
  lemma Split64(q: int, r: int)
    requires 0 <= r < 64
    ensures (q * 64 + r) / 64 == q && (q * 64 + r) % 64 == r
  {
  }

  /** `str.encode("utf-8")`. */
  function Encode(s: string): (b: seq<byte>)
    ensures |s| <= |b| <= 4 * |s|
  {
    if |s| == 0 then [] else EncodeScalar(s[0]) + Encode(s[1..])
  }

  /** The range the second octet of a multi-octet sequence must lie in, after
      lead octet `b0` (Table 3-7 of the Unicode Standard): it excludes overlong
      forms, the surrogates U+D800..U+DFFF, and values beyond U+10FFFF. */
  predicate SecondOctetFits(b0: byte, b1: byte) {
    if b0 == 0xE0 then 0xA0 <= b1 <= 0xBF
    else if b0 == 0xED then 0x80 <= b1 <= 0x9F
    else if b0 == 0xF0 then 0x90 <= b1 <= 0xBF
    else if b0 == 0xF4 then 0x80 <= b1 <= 0x8F
    else IsContinuation(b1)
  }

  /** The scalar value of a two-octet sequence. */
  function DecodeTwo(b0: byte, b1: byte): (c: char)
    requires 0xC2 <= b0 <= 0xDF && IsContinuation(b1)
    ensures EncodeScalar(c) == [b0, b1]
  {
    var x0, x1 := b0 as int - 0xC0, b1 as int - 0x80;
    Split64(x0, x1);
    (x0 * 64 + x1) as char
  }

  /** The scalar value of a three-octet sequence. */
  function DecodeThree(b0: byte, b1: byte, b2: byte): (c: char)
    requires 0xE0 <= b0 <= 0xEF && SecondOctetFits(b0, b1) && IsContinuation(b2)
    ensures EncodeScalar(c) == [b0, b1, b2]
  {
    var x0, x1, x2 := b0 as int - 0xE0, b1 as int - 0x80, b2 as int - 0x80;
    Split64(x0 * 64 + x1, x2);
    Split64(x0, x1);
    ((x0 * 64 + x1) * 64 + x2) as char
  }

  /** The scalar value of a four-octet sequence. */
  function DecodeFour(b0: byte, b1: byte, b2: byte, b3: byte): (c: char)
    requires 0xF0 <= b0 <= 0xF4 && SecondOctetFits(b0, b1) && IsContinuation(b2) && IsContinuation(b3)
    ensures EncodeScalar(c) == [b0, b1, b2, b3]
  {
    var x0, x1, x2, x3 := b0 as int - 0xF0, b1 as int - 0x80, b2 as int - 0x80, b3 as int - 0x80;
    Split64((x0 * 64 + x1) * 64 + x2, x3);
    Split64(x0 * 64 + x1, x2);
    Split64(x0, x1);
    (((x0 * 64 + x1) * 64 + x2) * 64 + x3) as char
  }

  /** Decodes the scalar value at the head of `b` and the number of octets it
      takes; `None` when the head is not a well-formed UTF-8 sequence. */
  function DecodeScalar(b: seq<byte>): (r: Option<(char, nat)>)
    ensures r.Some? ==> 1 <= r.value.1 <= |b| && EncodeScalar(r.value.0) == b[..r.value.1]
  {
    if |b| == 0 then None
    else if b[0] < 0x80 then
      assert b[..1] == [b[0]];
      Some((b[0] as char, 1))
    else if 0xC2 <= b[0] <= 0xDF then
      if |b| >= 2 && IsContinuation(b[1]) then
        assert b[..2] == [b[0], b[1]];
        Some((DecodeTwo(b[0], b[1]), 2))
      else None
    else if 0xE0 <= b[0] <= 0xEF then
      if |b| >= 3 && SecondOctetFits(b[0], b[1]) && IsContinuation(b[2]) then
        assert b[..3] == [b[0], b[1], b[2]];
        Some((DecodeThree(b[0], b[1], b[2]), 3))
      else None
    else if 0xF0 <= b[0] <= 0xF4 then
      if |b| >= 4 && SecondOctetFits(b[0], b[1]) && IsContinuation(b[2]) && IsContinuation(b[3]) then
        assert b[..4] == [b[0], b[1], b[2], b[3]];
        Some((DecodeFour(b[0], b[1], b[2], b[3]), 4))
      else None
    else None
  }

  /** Encoding works scalar by scalar. */
  lemma EncodeCons(c: char, s: string)
    ensures Encode([c] + s) == EncodeScalar(c) + Encode(s)
  {
    assert ([c] + s)[0] == c && ([c] + s)[1..] == s;
  }

  /** One decoded scalar value followed by a string that encodes to the
      remaining octets encodes to all of them. */
  lemma DecodeStep(b: seq<byte>, c: char, n: nat, rest: string)
    requires n <= |b| && EncodeScalar(c) == b[..n] && Encode(rest) == b[n..]
    ensures Encode([c] + rest) == b
  {
    EncodeCons(c, rest);
    assert b == b[..n] + b[n..];
  }

  /** `bytes.decode("utf-8")`: `None` stands for the `UnicodeDecodeError` it
      raises on ill-formed input. A decoded string encodes back to exactly the
      input octets, so decoding is injective. */
  function Decode(b: seq<byte>): (r: Option<string>)
    ensures r.Some? ==> Encode(r.value) == b
    decreases |b|
  {
    if |b| == 0 then Some([])
    else
      match DecodeScalar(b)
      case None => None
      case Some((c, n)) =>
        match Decode(b[n..])
        case None => None
        case Some(rest) =>
          DecodeStep(b, c, n, rest);
          Some([c] + rest)
  }

  /** The decoder reads back the two octets of a scalar in U+0080..U+07FF. */
  lemma DecodeScalarEncodeTwo(c: char, rest: seq<byte>)
    requires 0x80 <= c as int < 0x800
    ensures DecodeScalar(EncodeScalar(c) + rest) == Some((c, 2))
  {
    var cp := c as int;
    var b := EncodeScalar(c) + rest;
    assert b[0] == 0xC0 + cp / 64 && b[1] == 0x80 + cp % 64;
  }

  /** The decoder reads back the three octets of a scalar in U+0800..U+FFFF. */
  lemma DecodeScalarEncodeThree(c: char, rest: seq<byte>)
    requires 0x800 <= c as int < 0x1_0000
    ensures DecodeScalar(EncodeScalar(c) + rest) == Some((c, 3))
  {
    var cp := c as int;
    var q1 := cp / 64;
    var q2 := q1 / 64;
    var b := EncodeScalar(c) + rest;
    assert b[0] == 0xE0 + q2 && b[1] == 0x80 + q1 % 64 && b[2] == 0x80 + cp % 64;
    assert cp == (q2 * 64 + q1 % 64) * 64 + cp % 64;
  }

  /** The decoder reads back the four octets of a scalar from U+10000 on. */
  lemma DecodeScalarEncodeFour(c: char, rest: seq<byte>)
    requires 0x1_0000 <= c as int
    ensures DecodeScalar(EncodeScalar(c) + rest) == Some((c, 4))
  {
    var cp := c as int;
    var q1 := cp / 64;
    var q2 := q1 / 64;
    var q3 := q2 / 64;
    var b := EncodeScalar(c) + rest;
    assert b[0] == 0xF0 + q3 && b[1] == 0x80 + q2 % 64;
    assert b[2] == 0x80 + q1 % 64 && b[3] == 0x80 + cp % 64;
    assert cp == ((q3 * 64 + q2 % 64) * 64 + q1 % 64) * 64 + cp % 64;
  }

  /** The decoder reads back the octets the encoder writes for one scalar
      value, whatever follows them. */
  lemma DecodeScalarEncode(c: char, rest: seq<byte>)
    ensures DecodeScalar(EncodeScalar(c) + rest) == Some((c, |EncodeScalar(c)|))
  {
    var cp := c as int;
    if cp < 0x80 {
    } else if cp < 0x800 {
      DecodeScalarEncodeTwo(c, rest);
    } else if cp < 0x1_0000 {
      DecodeScalarEncodeThree(c, rest);
    } else {
      DecodeScalarEncodeFour(c, rest);
    }
  }

  /** Round trip: decoding the UTF-8 encoding of any string gives it back. */
  lemma {:induction false} DecodeEncode(s: string)
    ensures Decode(Encode(s)) == Some(s)
  {
    if |s| > 0 {
      var e := EncodeScalar(s[0]);
      DecodeScalarEncode(s[0], Encode(s[1..]));
      DecodeEncode(s[1..]);
      assert (e + Encode(s[1..]))[|e|..] == Encode(s[1..]);
      assert [s[0]] + s[1..] == s;
    }
  }
}
