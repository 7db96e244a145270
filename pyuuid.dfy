/** Python's `uuid.UUID(hex)` constructor on strings, which the ID validation
    uses as its second acceptance test, and `str(UUID)`, which writes the
    canonical form. */
module PyUuid {
  import opened Wrappers
  import PyInt

  /** `pat` occurs in `s` at index `k`. */
  predicate OccursAt(s: string, pat: string, k: int) {
    0 <= k && k + |pat| <= |s| && s[k..k + |pat|] == pat
  }

  /** `s.replace(pat, "")`: occurrences of `pat` are found left to right and
      do not overlap. */
  function RemoveAll(s: string, pat: string): (r: string)
    requires |pat| > 0
    ensures |r| <= |s|
    ensures |pat| == 1 ==> pat[0] !in r
    decreases |s|
  {
    if |s| < |pat| then s
    else if s[..|pat|] == pat then RemoveAll(s[|pat|..], pat)
    else [s[0]] + RemoveAll(s[1..], pat)
  }

  predicate IsBrace(c: char) {
    c == '{' || c == '}'
  }

  /** `s.strip("{}")`: every brace at either end goes. */
  function StripBraces(s: string): (r: string)
    ensures |r| <= |s|
    ensures |r| > 0 ==> !IsBrace(r[0]) && !IsBrace(r[|r| - 1])
    decreases |s|
  {
    if |s| > 0 && IsBrace(s[0]) then StripBraces(s[1..])
    else if |s| > 0 && IsBrace(s[|s| - 1]) then StripBraces(s[..|s| - 1])
    else s
  }

  function Pow16(k: nat): (p: nat)
    ensures p > 0
  {
    if k == 0 then 1 else 16 * Pow16(k - 1)
  }

  /** `1 << 128`, which is 16 to the 32nd: UUIDs are 128-bit numbers. */
  const UuidBound: nat := Pow16(32)

  /** The string `UUID(s)` passes to `int(_, 16)`: `urn:` and `uuid:` removed,
      braces stripped, hyphens removed. */
  function HexPart(s: string): (h: string)
    ensures |h| <= |s| && '-' !in h
  {
    RemoveAll(StripBraces(RemoveAll(RemoveAll(s, "urn:"), "uuid:")), "-")
  }

  /** `UUID(s).int`: `None` stands for the `ValueError` it raises when the hex
      part is not 32 characters long, when `int(_, 16)` refuses it, or when the
      number does not fit in 128 bits. */
  function ParseUuid(s: string): (r: Option<nat>)
    ensures r.Some? <==> && |HexPart(s)| == 32
                         && PyInt.ParseInt(HexPart(s), 16).Some?
                         && 0 <= PyInt.ParseInt(HexPart(s), 16).value < UuidBound
    ensures r.Some? ==> PyInt.ParseInt(HexPart(s), 16) == Some(r.value as int)
  {
    var h := HexPart(s);
    if |h| != 32 then None
    else
      match PyInt.ParseInt(h, 16)
      case None => None
      case Some(v) => if 0 <= v < UuidBound then Some(v) else None
  }

  predicate IsUpperHex(c: char) {
    'A' <= c <= 'F'
  }

  /** The lower-case hex digit of `d`. */
  function HexChar(d: nat): (c: char)
    requires d < 16
    ensures PyInt.IsDigit(c, 16) && PyInt.DigitValue(c) == d && !IsUpperHex(c)
  {
    if d < 10 then ('0' as int + d) as char else ('a' as int + (d - 10)) as char
  }

  /** `'%0*x' % (k, v)`: the last `k` hex digits of `v`, most significant first. */
  function HexDigits(v: nat, k: nat): (s: string)
    ensures |s| == k && forall i :: 0 <= i < k ==> PyInt.IsDigit(s[i], 16) && !IsUpperHex(s[i])
  {
    if k == 0 then "" else HexDigits(v / 16, k - 1) + [HexChar(v % 16)]
  }

  /** The places of the four hyphens in the canonical form. */
  predicate IsHyphenPosition(i: int) {
    i == 8 || i == 13 || i == 18 || i == 23
  }

  /** 32 hex digits in groups of 8, 4, 4, 4 and 12 joined by hyphens. */
  function Hyphenate(h: string): (s: string)
    requires |h| == 32
    ensures |s| == 36
  {
    h[..8] + "-" + h[8..12] + "-" + h[12..16] + "-" + h[16..20] + "-" + h[20..]
  }

  /** The hyphenated form holds a hyphen at the four hyphen positions and a
      character of `h` everywhere else. */
  lemma HyphenateLayout(h: string)
    requires |h| == 32
    ensures forall i :: 0 <= i < 36 ==>
              if IsHyphenPosition(i) then Hyphenate(h)[i] == '-' else Hyphenate(h)[i] in h
  {
    var s := Hyphenate(h);
    forall i | 0 <= i < 36
      ensures if IsHyphenPosition(i) then s[i] == '-' else s[i] in h
    {
      if i < 8 { assert s[i] == h[i]; }
      else if 8 < i < 13 { assert s[i] == h[i - 1]; }
      else if 13 < i < 18 { assert s[i] == h[i - 2]; }
      else if 18 < i < 23 { assert s[i] == h[i - 3]; }
      else if 23 < i { assert s[i] == h[i - 4]; }
    }
  }

  /** `str(UUID(int=v))`: the number's 32 lower-case hex digits, hyphenated. */
  function UuidString(v: nat): (s: string)
    requires v < UuidBound
    ensures |s| == 36
    ensures forall i :: 0 <= i < 36 ==>
              if IsHyphenPosition(i) then s[i] == '-' else PyInt.IsDigit(s[i], 16) && !IsUpperHex(s[i])
  {
    HyphenateLayout(HexDigits(v, 32));
    Hyphenate(HexDigits(v, 32))
  }

  /** Fixed-width hex digits read back as the number, when it fits. */
  lemma {:induction false} HexDigitsValue(v: nat, k: nat)
    requires v < Pow16(k)
    ensures PyInt.RunValue(HexDigits(v, k), 16) == v
  {
    if k > 0 {
      var s := HexDigits(v, k);
      var q := v / 16;
      assert v == q * 16 + v % 16;
      assert q < Pow16(k - 1);
      HexDigitsValue(q, k - 1);
      assert s[..|s| - 1] == HexDigits(q, k - 1);
    }
  }

  /** A pattern whose first character is not in `s` does not occur in it. */
  lemma FirstCharAbsent(s: string, pat: string)
    requires |pat| > 0 && pat[0] !in s
    ensures forall k :: !OccursAt(s, pat, k)
  {
    forall k
      ensures !OccursAt(s, pat, k)
    {
      if 0 <= k && k + |pat| <= |s| {
        assert s[k..k + |pat|][0] == s[k];
      }
    }
  }

  /** An occurrence in `s[1..]` is an occurrence in `s`, one place further on. */
  lemma OccursAtTail(s: string, pat: string, k: int)
    requires |s| > 0 && OccursAt(s[1..], pat, k)
    ensures OccursAt(s, pat, k + 1)
  {
    assert s[1..][k..k + |pat|] == s[k + 1..k + 1 + |pat|];
  }

  /** Removing a pattern that does not occur changes nothing. */
  lemma {:induction false} RemoveAllAbsent(s: string, pat: string)
    requires |pat| > 0
    requires forall k :: !OccursAt(s, pat, k)
    ensures RemoveAll(s, pat) == s
    decreases |s|
  {
    if |s| >= |pat| {
      assert !OccursAt(s, pat, 0);
      forall k | OccursAt(s[1..], pat, k)
        ensures OccursAt(s, pat, k + 1)
      {
        OccursAtTail(s, pat, k);
      }
      RemoveAllAbsent(s[1..], pat);
      assert [s[0]] + s[1..] == s;
    }
  }

  /** `replace` keeps the text before the leftmost occurrence of the pattern,
      drops that occurrence and goes on with the text after it. */
  lemma {:induction false} RemoveAllLeftmost(a: string, pat: string, b: string)
    requires |pat| > 0
    requires forall k :: 0 <= k < |a| ==> !OccursAt(a + pat + b, pat, k)
    ensures RemoveAll(a + pat + b, pat) == a + RemoveAll(b, pat)
    decreases |a|
  {
    var s := a + pat + b;
    if |a| == 0 {
      assert s[..|pat|] == pat && s[|pat|..] == b;
    } else {
      assert !OccursAt(s, pat, 0);
      assert s[1..] == a[1..] + pat + b;
      forall k | 0 <= k < |a| - 1 && OccursAt(s[1..], pat, k)
        ensures OccursAt(s, pat, k + 1)
      {
        OccursAtTail(s, pat, k);
      }
      RemoveAllLeftmost(a[1..], pat, b);
      assert a + RemoveAll(b, pat) == [a[0]] + (a[1..] + RemoveAll(b, pat));
    }
  }

  /** Removing hyphens from a hyphen-free group, a hyphen and a rest keeps
      the group and removes the hyphens of the rest. */
  lemma RemoveHyphenAfter(a: string, b: string)
    requires '-' !in a
    ensures RemoveAll(a + "-" + b, "-") == a + RemoveAll(b, "-")
  {
    forall k | 0 <= k < |a|
      ensures !OccursAt(a + "-" + b, "-", k)
    {
      assert (a + "-" + b)[k..k + 1][0] == a[k];
    }
    RemoveAllLeftmost(a, "-", b);
  }

  /** `strip("{}")` returns the middle of any split of `s` into braces, a part
      that neither starts nor ends with a brace, and braces. */
  lemma {:induction false} StripBracesSlice(s: string, i: int, j: int)
    requires 0 <= i <= j <= |s|
    requires forall k :: 0 <= k < i ==> IsBrace(s[k])
    requires forall k :: j <= k < |s| ==> IsBrace(s[k])
    requires i < j ==> !IsBrace(s[i]) && !IsBrace(s[j - 1])
    ensures StripBraces(s) == s[i..j]
    decreases |s|
  {
    if |s| > 0 && IsBrace(s[0]) {
      var t := s[1..];
      if i > 0 {
        StripBracesSlice(t, i - 1, j - 1);
        assert t[i - 1..j - 1] == s[i..j];
      } else {
        StripBracesSlice(t, 0, 0);
      }
    } else if |s| > 0 && IsBrace(s[|s| - 1]) {
      var t := s[..|s| - 1];
      StripBracesSlice(t, i, j);
      assert t[i..j] == s[i..j];
    } else {
      assert s[i..j] == s;
    }
  }

  /** The hex part of a string with no `u`, brace or hyphen is the string. */
  lemma HexPartPlain(s: string)
    requires forall i :: 0 <= i < |s| ==> s[i] != 'u' && !IsBrace(s[i]) && s[i] != '-'
    ensures HexPart(s) == s
  {
    NoUrnPrefixes(s);
    StripBracesSlice(s, 0, |s|);
    assert s[0..|s|] == s;
    FirstCharAbsent(s, "-");
    RemoveAllAbsent(s, "-");
  }

  /** Removing the hyphens from hyphen-free groups joined by hyphens gives
      back the groups, concatenated. */
  lemma RemoveHyphensParts(p0: string, p1: string, p2: string, p3: string, p4: string)
    requires '-' !in p0 && '-' !in p1 && '-' !in p2 && '-' !in p3 && '-' !in p4
    ensures RemoveAll(p0 + "-" + (p1 + "-" + (p2 + "-" + (p3 + "-" + p4))), "-")
            == p0 + (p1 + (p2 + (p3 + p4)))
  {
    FirstCharAbsent(p4, "-");
    RemoveAllAbsent(p4, "-");
    RemoveHyphenAfter(p3, p4);
    RemoveHyphenAfter(p2, p3 + "-" + p4);
    RemoveHyphenAfter(p1, p2 + "-" + (p3 + "-" + p4));
    RemoveHyphenAfter(p0, p1 + "-" + (p2 + "-" + (p3 + "-" + p4)));
  }

  /** Removing the hyphens from a hyphenated string gives back its digits. */
  lemma RemoveHyphens(h: string)
    requires |h| == 32 && '-' !in h
    ensures RemoveAll(Hyphenate(h), "-") == h
  {
    var p0, p1, p2, p3, p4 := h[..8], h[8..12], h[12..16], h[16..20], h[20..];
    assert Hyphenate(h) == p0 + "-" + (p1 + "-" + (p2 + "-" + (p3 + "-" + p4)));
    assert p0 + (p1 + (p2 + (p3 + p4))) == h;
    RemoveHyphensParts(p0, p1, p2, p3, p4);
  }

  /** The hex part of a hyphenated string of hex digits is those digits. */
  lemma HyphenatedHexPart(h: string)
    requires |h| == 32 && forall i :: 0 <= i < 32 ==> PyInt.IsDigit(h[i], 16)
    ensures HexPart(Hyphenate(h)) == h
  {
    HyphenatedChars(h);
    HexPartOfHexAndHyphens(Hyphenate(h));
    assert '-' !in h;
    RemoveHyphens(h);
  }

  /** A hyphenated string of hex digits holds only hyphens and hex digits. */
  lemma HyphenatedChars(h: string)
    requires |h| == 32 && forall i :: 0 <= i < 32 ==> PyInt.IsDigit(h[i], 16)
    ensures forall i :: 0 <= i < 36 ==> Hyphenate(h)[i] == '-' || PyInt.IsDigit(Hyphenate(h)[i], 16)
  {
    HyphenateLayout(h);
  }

  /** In a string of hex digits and hyphens, only the hyphens are removed. */
  lemma HexPartOfHexAndHyphens(s: string)
    requires forall i :: 0 <= i < |s| ==> s[i] == '-' || PyInt.IsDigit(s[i], 16)
    ensures HexPart(s) == RemoveAll(s, "-")
  {
    NoUrnPrefixes(s);
    StripBracesSlice(s, 0, |s|);
    assert s[0..|s|] == s;
  }

  /** Neither `urn:` nor `uuid:` occurs in a string with no `u`. */
  lemma NoUrnPrefixes(s: string)
    requires forall i :: 0 <= i < |s| ==> s[i] != 'u'
    ensures RemoveAll(RemoveAll(s, "urn:"), "uuid:") == s
  {
    FirstCharAbsent(s, "urn:");
    RemoveAllAbsent(s, "urn:");
    FirstCharAbsent(s, "uuid:");
    RemoveAllAbsent(s, "uuid:");
  }

  /** `UUID(str(u)) == u`: the canonical string parses back to the same number. */
  lemma UuidStringRoundTrip(v: nat)
    requires v < UuidBound
    ensures ParseUuid(UuidString(v)) == Some(v)
  {
    var h := HexDigits(v, 32);
    HyphenatedHexPart(h);
    HexDigitsParse(v);
  }

  /** The 32 hex digits of a UUID read back as its number. */
  lemma HexDigitsParse(v: nat)
    requires v < UuidBound
    ensures PyInt.ParseInt(HexDigits(v, 32), 16) == Some(v)
  {
    var h := HexDigits(v, 32);
    HexDigitsValue(v, 32);
    assert PyInt.Unsigned(h) == h;
    assert PyInt.DigitsAfterPrefix(h, 16) == h;
  }
}
