/** The base64 encoding of section 4 of RFC 4648 (standard alphabet, `=`
    padding), as Python's `base64.b64encode` and `base64.b64decode` apply it to
    the relay global IDs. */
module Base64 {
  import opened Wrappers

  /** The 64 characters of the standard alphabet (Table 1 of RFC 4648). */
  predicate IsAlphabetChar(c: char) {
    ('A' <= c <= 'Z') || ('a' <= c <= 'z') || ('0' <= c <= '9') || c == '+' || c == '/'
  }

  /** The value a character of the alphabet stands for. */
  function CharValue(c: char): (v: int)
    requires IsAlphabetChar(c)
    ensures 0 <= v < 64
  {
    if 'A' <= c <= 'Z' then c as int - 'A' as int
    else if 'a' <= c <= 'z' then c as int - 'a' as int + 26
    else if '0' <= c <= '9' then c as int - '0' as int + 52
    else if c == '+' then 62
    else 63
  }

  /** The character of the alphabet that stands for the 6-bit value `v`. */
  function ValueChar(v: int): (c: char)
    requires 0 <= v < 64
    ensures IsAlphabetChar(c) && CharValue(c) == v
  {
    if v < 26 then ('A' as int + v) as char
    else if v < 52 then ('a' as int + (v - 26)) as char
    else if v < 62 then ('0' as int + (v - 52)) as char
    else if v == 62 then '+'
    else '/'
  }

  /** Length of the encoding of `n` octets: one 4-character quantum per
      started 24-bit group. */
  function EncodedLength(n: nat): nat {
    4 * ((n + 2) / 3)
  }

  /** One more group adds one more quantum. */
  lemma EncodedLengthStep(n: nat)
    ensures EncodedLength(n + 3) == EncodedLength(n) + 4
  {
    assert (n + 3 + 2) / 3 == (n + 2) / 3 + 1;
  }

  /** Encoding of one full 24-bit group as four characters. */
  function EncodeGroup(b0: byte, b1: byte, b2: byte): string {
    [ValueChar(b0 / 4), ValueChar((b0 % 4) * 16 + b1 / 16),
     ValueChar((b1 % 16) * 4 + b2 / 64), ValueChar(b2 % 64)]
  }

  /** `b64encode`: full groups, then a final quantum padded with `=` when the
      input length is not a multiple of three (section 4, cases (2) and (3)). */
  function Encode(b: seq<byte>): (s: string)
    ensures |s| == EncodedLength(|b|)
    ensures forall i :: 0 <= i < |s| ==> IsAlphabetChar(s[i]) || s[i] == '='
    decreases |b|
  {
    if |b| == 0 then ""
    else if |b| == 1 then
      [ValueChar(b[0] / 4), ValueChar((b[0] % 4) * 16), '=', '=']
    else if |b| == 2 then
      [ValueChar(b[0] / 4), ValueChar((b[0] % 4) * 16 + b[1] / 16), ValueChar((b[1] % 16) * 4), '=']
    else
      EncodeGroup(b[0], b[1], b[2]) + Encode(b[3..])
  }

  /** The canonical form of section 3.5 of RFC 4648: an encoding of `n`
      octets whose final partial quantum sets its pad bits to zero, so that
      the encoding of a given octet string is unique. */
  predicate PadBitsZero(n: nat, s: string) {
    && |s| == EncodedLength(n)
    && (n % 3 == 1 ==> && |s| >= 4 && s[|s| - 2] == '=' && s[|s| - 1] == '='
                       && IsAlphabetChar(s[|s| - 3]) && CharValue(s[|s| - 3]) % 16 == 0)
    && (n % 3 == 2 ==> && |s| >= 4 && s[|s| - 1] == '='
                       && IsAlphabetChar(s[|s| - 2]) && CharValue(s[|s| - 2]) % 4 == 0)
  }

  /** A quantum in front keeps the padding at the end canonical. */
  lemma PadBitsZeroPrepend(g: string, n: nat, t: string)
    requires |g| == 4 && PadBitsZero(n, t)
    ensures PadBitsZero(n + 3, g + t)
  {
    EncodedLengthStep(n);
    var s := g + t;
    if |t| >= 4 {
      assert s[|s| - 1] == t[|t| - 1] && s[|s| - 2] == t[|t| - 2] && s[|s| - 3] == t[|t| - 3];
    }
  }

  /** `b64encode` writes the canonical encoding: zero pad bits. */
  lemma {:induction false} EncodeCanonical(b: seq<byte>)
    ensures PadBitsZero(|b|, Encode(b))
    decreases |b|
  {
    if |b| == 1 {
      assert CharValue(ValueChar((b[0] % 4) * 16)) == (b[0] % 4) * 16;
    } else if |b| == 2 {
      assert CharValue(ValueChar((b[1] % 16) * 4)) == (b[1] % 16) * 4;
    } else if |b| >= 3 {
      EncodeCanonical(b[3..]);
      EncodeFullGroup(b);
      PadBitsZeroPrepend(EncodeGroup(b[0], b[1], b[2]), |b[3..]|, Encode(b[3..]));
    }
  }

  /** The three octets carried by four characters of the alphabet. */
  function DecodeGroup(c0: char, c1: char, c2: char, c3: char): (b: seq<byte>)
    requires IsAlphabetChar(c0) && IsAlphabetChar(c1) && IsAlphabetChar(c2) && IsAlphabetChar(c3)
    ensures |b| == 3
  {
    var v0, v1, v2, v3 := CharValue(c0), CharValue(c1), CharValue(c2), CharValue(c3);
    [v0 * 4 + v1 / 16, (v1 % 16) * 16 + v2 / 4, (v2 % 4) * 64 + v3]
  }

  /** The final quantum: four data characters, three and one `=`, or two and
      `==`. Bits left over below the last octet are ignored, as CPython's
      decoder ignores them. */
  function DecodeFinal(c0: char, c1: char, c2: char, c3: char): (r: Option<seq<byte>>)
    ensures r.Some? <==> && IsAlphabetChar(c0) && IsAlphabetChar(c1)
                         && (IsAlphabetChar(c2) || (c2 == '=' && c3 == '='))
                         && (IsAlphabetChar(c3) || c3 == '=')
    ensures r.Some? ==> |r.value| == (if c2 == '=' then 1 else if c3 == '=' then 2 else 3)
    ensures r.Some? ==> EncodedLength(|r.value|) == 4
  {
    if IsAlphabetChar(c0) && IsAlphabetChar(c1) && IsAlphabetChar(c2) && IsAlphabetChar(c3) then
      Some(DecodeGroup(c0, c1, c2, c3))
    else if IsAlphabetChar(c0) && IsAlphabetChar(c1) && IsAlphabetChar(c2) && c3 == '=' then
      var v0, v1, v2 := CharValue(c0), CharValue(c1), CharValue(c2);
      Some([v0 * 4 + v1 / 16, (v1 % 16) * 16 + v2 / 4])
    else if IsAlphabetChar(c0) && IsAlphabetChar(c1) && c2 == '=' && c3 == '=' then
      var v0, v1 := CharValue(c0), CharValue(c1);
      Some([v0 * 4 + v1 / 16])
    else
      None
  }

  /** A token `b64decode` accepts: whole quanta, data characters only before
      the last quantum, and a last quantum `DecodeFinal` accepts. Padding can
      therefore stand only at the very end. */
  predicate WellFormed(s: string) {
    && |s| % 4 == 0
    && (|s| > 0 ==> (forall i :: 0 <= i < |s| - 4 ==> IsAlphabetChar(s[i]))
                    && DecodeFinal(s[|s| - 4], s[|s| - 3], s[|s| - 2], s[|s| - 1]).Some?)
  }

  /** A token longer than one quantum is well formed exactly when its first
      quantum is data and the rest is well formed. */
  lemma WellFormedStep(s: string)
    requires |s| > 4
    ensures WellFormed(s) <==> IsAlphabetChar(s[0]) && IsAlphabetChar(s[1]) && IsAlphabetChar(s[2])
                               && IsAlphabetChar(s[3]) && WellFormed(s[4..])
  {
    var t := s[4..];
    assert forall i :: 4 <= i < |s| ==> s[i] == t[i - 4];
  }

  /** `b64decode`: `None` stands for the `binascii.Error` it raises on a
      length that is not a multiple of four, a character outside the
      alphabet, or misplaced padding. */
  function Decode(s: string): (r: Option<seq<byte>>)
    ensures r.Some? ==> |s| % 4 == 0 && |s| == EncodedLength(|r.value|)
    ensures r.Some? ==> forall i :: 0 <= i < |s| ==> IsAlphabetChar(s[i]) || s[i] == '='
    ensures r.Some? <==> WellFormed(s)
    decreases |s|
  {
    if |s| == 0 then Some([])
    else if |s| < 4 then None
    else if |s| == 4 then DecodeFinal(s[0], s[1], s[2], s[3])
    else if IsAlphabetChar(s[0]) && IsAlphabetChar(s[1]) && IsAlphabetChar(s[2]) && IsAlphabetChar(s[3]) then
      WellFormedStep(s);
      match Decode(s[4..])
      case None => None
      case Some(rest) =>
        EncodedLengthStep(|rest|);
        assert forall i :: 4 <= i < |s| ==> s[i] == s[4..][i - 4];
        Some(DecodeGroup(s[0], s[1], s[2], s[3]) + rest)
    else
      WellFormedStep(s);
      None
  }

  /** Decoding the four characters of a full group gives back its octets. */
  lemma GroupRoundTrip(b0: byte, b1: byte, b2: byte)
    ensures var e := EncodeGroup(b0, b1, b2);
            && |e| == 4
            && IsAlphabetChar(e[0]) && IsAlphabetChar(e[1]) && IsAlphabetChar(e[2]) && IsAlphabetChar(e[3])
            && DecodeGroup(e[0], e[1], e[2], e[3]) == [b0, b1, b2]
  {
    var v1 := (b0 % 4) * 16 + b1 / 16;
    var v2 := (b1 % 16) * 4 + b2 / 64;
    assert v1 / 16 == b0 % 4 && v1 % 16 == b1 / 16;
    assert v2 / 4 == b1 % 16 && v2 % 4 == b2 / 64;
  }

  /** Decoding the padded quantum of one final octet gives it back. */
  lemma OneOctetRoundTrip(b0: byte)
    ensures Decode(Encode([b0])) == Some([b0])
  {
    var v1 := (b0 % 4) * 16;
    assert v1 / 16 == b0 % 4;
    var e := Encode([b0]);
    assert e == [ValueChar(b0 / 4), ValueChar(v1), '=', '='];
    assert Decode(e) == DecodeFinal(e[0], e[1], e[2], e[3]);
  }

  /** Decoding the padded quantum of two final octets gives them back. */
  lemma TwoOctetsRoundTrip(b0: byte, b1: byte)
    ensures Decode(Encode([b0, b1])) == Some([b0, b1])
  {
    var v1 := (b0 % 4) * 16 + b1 / 16;
    var v2 := (b1 % 16) * 4;
    assert v1 / 16 == b0 % 4 && v1 % 16 == b1 / 16;
    assert v2 / 4 == b1 % 16;
    var e := Encode([b0, b1]);
    assert e == [ValueChar(b0 / 4), ValueChar(v1), ValueChar(v2), '='];
    assert Decode(e) == DecodeFinal(e[0], e[1], e[2], e[3]);
  }

  /** Round trip: `b64decode(b64encode(b)) == b` for every octet string. */
  lemma {:induction false} DecodeEncode(b: seq<byte>)
    ensures Decode(Encode(b)) == Some(b)
    decreases |b|
  {
    if |b| == 0 {
    } else if |b| == 1 {
      OneOctetRoundTrip(b[0]);
      assert b == [b[0]];
    } else if |b| == 2 {
      TwoOctetsRoundTrip(b[0], b[1]);
      assert b == [b[0], b[1]];
    } else {
      DecodeEncode(b[3..]);
      FullGroupRoundTrip(b);
    }
  }

  /** The encoding of three or more octets starts with their first group. */
  lemma EncodeFullGroup(b: seq<byte>)
    requires |b| >= 3
    ensures Encode(b) == EncodeGroup(b[0], b[1], b[2]) + Encode(b[3..])
  {
  }

  /** Four data characters in front of a decodable string decode to their
      group in front of what that string decodes to. */
  lemma DecodeFullGroup(g: string, t: string, rest: seq<byte>)
    requires |g| == 4 && IsAlphabetChar(g[0]) && IsAlphabetChar(g[1]) && IsAlphabetChar(g[2]) && IsAlphabetChar(g[3])
    requires Decode(t) == Some(rest)
    ensures Decode(g + t) == Some(DecodeGroup(g[0], g[1], g[2], g[3]) + rest)
  {
    var s := g + t;
    assert s[..4] == g && s[4..] == t;
    if |t| == 0 {
      assert rest == [] && s == g;
      assert Decode(s) == DecodeFinal(g[0], g[1], g[2], g[3]);
      assert DecodeGroup(g[0], g[1], g[2], g[3]) + rest == DecodeGroup(g[0], g[1], g[2], g[3]);
    }
  }

  /** Three octets in front of the rest make up the whole. */
  lemma SplitFirstGroup(b: seq<byte>)
    requires |b| >= 3
    ensures [b[0], b[1], b[2]] + b[3..] == b
  {
  }

  /** A full group in front of octets that round-trip round-trips too. */
  lemma FullGroupRoundTrip(b: seq<byte>)
    requires |b| >= 3 && Decode(Encode(b[3..])) == Some(b[3..])
    ensures Decode(Encode(b)) == Some(b)
  {
    SplitFirstGroup(b);
    var g := EncodeGroup(b[0], b[1], b[2]);
    var t := Encode(b[3..]);
    EncodeFullGroup(b);
    GroupRoundTrip(b[0], b[1], b[2]);
    DecodeFullGroup(g, t, b[3..]);
  }
}
