/** Python's `int(s, base)` on strings, for the bases 10 and 16 that the ID
    validation uses, and `str(n)` for integers. */
module PyInt {
  import opened Wrappers

  /** Bases the model covers: `int(s)` and `int(s, 16)`. */
  predicate IsSupportedBase(base: int) {
    base == 10 || base == 16
  }

  predicate IsHexChar(c: char) {
    ('0' <= c <= '9') || ('a' <= c <= 'f') || ('A' <= c <= 'F')
  }

  /** The value of a hexadecimal digit character, in either case. */
  function DigitValue(c: char): (v: nat)
    requires IsHexChar(c)
    ensures v < 16
  {
    if '0' <= c <= '9' then c as int - '0' as int
    else if 'a' <= c <= 'f' then c as int - 'a' as int + 10
    else c as int - 'A' as int + 10
  }

  /** An ASCII digit of `base`. */
  predicate IsDigit(c: char, base: int) {
    IsHexChar(c) && DigitValue(c) < base
  }

  /** What `int` accepts after the sign and prefix: digits of `base`, with
      single underscores allowed between two digits. */
  predicate IsDigitRun(s: string, base: int) {
    && |s| > 0
    && IsDigit(s[0], base)
    && IsDigit(s[|s| - 1], base)
    && (forall i :: 0 <= i < |s| ==> IsDigit(s[i], base) || s[i] == '_')
    && (forall i :: 0 < i < |s| && s[i] == '_' ==> s[i - 1] != '_')
  }

  /** The number the digits of `s` denote in `base`; underscores are skipped. */
  function RunValue(s: string, base: int): nat
    requires IsSupportedBase(base)
    requires forall i :: 0 <= i < |s| ==> IsDigit(s[i], base) || s[i] == '_'
  {
    if |s| == 0 then 0
    else if s[|s| - 1] == '_' then RunValue(s[..|s| - 1], base)
    else
      assert IsDigit(s[|s| - 1], base);
      RunValue(s[..|s| - 1], base) * base + DigitValue(s[|s| - 1])
  }

  /** The number of decimal digits `int()` reads and `str()` writes before it
      raises `ValueError` (`sys.int_info.default_max_str_digits`, from Python
      3.10.7 and 3.11 on). Bases that are powers of two have no limit. */
  const MaxStrDigits: nat := 4300

  /** The number of digits of a run; underscores do not count. */
  function DigitCount(s: string): (n: nat)
    ensures n <= |s|
    ensures (forall i :: 0 <= i < |s| ==> s[i] != '_') ==> n == |s|
    ensures n == |s| - multiset(s)['_']
  {
    if |s| == 0 then 0
    else
      assert s == s[..|s| - 1] + [s[|s| - 1]];
      assert multiset(s) == multiset(s[..|s| - 1]) + multiset{s[|s| - 1]};
      DigitCount(s[..|s| - 1]) + (if s[|s| - 1] == '_' then 0 else 1)
  }

  /** The digits that remain once an optional `+` or `-` is taken off. */
  function Unsigned(s: string): string {
    if |s| > 0 && (s[0] == '+' || s[0] == '-') then s[1..] else s
  }

  /** In base 16, a `0x` or `0X` prefix may precede the digits, followed by at
      most one underscore. */
  function DigitsAfterPrefix(u: string, base: int): string {
    if base == 16 && |u| >= 2 && u[0] == '0' && (u[1] == 'x' || u[1] == 'X') then
      if |u| > 2 && u[2] == '_' then u[3..] else u[2..]
    else u
  }

  /** `int(s, base)`: `None` stands for the `ValueError` it raises, on a
      malformed string or on more than `MaxStrDigits` decimal digits. */
  function ParseInt(s: string, base: int): (r: Option<int>)
    requires IsSupportedBase(base)
    ensures r.Some? <==> && IsDigitRun(DigitsAfterPrefix(Unsigned(s), base), base)
                         && (base == 10 ==> DigitCount(DigitsAfterPrefix(Unsigned(s), base)) <= MaxStrDigits)
    ensures r.Some? && |s| > 0 && s[0] == '-' ==> r.value <= 0
    ensures r.Some? && (|s| == 0 || s[0] != '-') ==> r.value >= 0
  {
    var digits := DigitsAfterPrefix(Unsigned(s), base);
    if IsDigitRun(digits, base) && (base == 10 ==> DigitCount(digits) <= MaxStrDigits) then
      var v: int := RunValue(digits, base);
      Some(if |s| > 0 && s[0] == '-' then -v else v)
    else None
  }

  /** The character of a decimal digit. */
  function DecimalChar(d: nat): (c: char)
    requires d < 10
    ensures IsDigit(c, 10) && DigitValue(c) == d
  {
    ('0' as int + d) as char
  }

  /** `str(n)` for `n >= 0`: the decimal digits, most significant first, with
      no leading zero. */
  function DecimalDigits(n: nat): (s: string)
    ensures |s| > 0 && forall i :: 0 <= i < |s| ==> IsDigit(s[i], 10)
    ensures |s| > 1 ==> s[0] != '0'
  {
    if n < 10 then [DecimalChar(n)]
    else DecimalDigits(n / 10) + [DecimalChar(n % 10)]
  }

  /** The decimal form `str(n)` writes: a minus sign for a negative number,
      then its digits. */
  function IntToString(n: int): (s: string)
    ensures |s| > 0 && (s[0] == '-' <==> n < 0)
    ensures forall i :: (if n < 0 then 1 else 0) <= i < |s| ==> IsDigit(s[i], 10)
    ensures |s| > (if n < 0 then 2 else 1) ==> s[if n < 0 then 1 else 0] != '0'
  {
    if n < 0 then "-" + DecimalDigits(-n) else DecimalDigits(n)
  }

  /** A string of decimal digits reads back as the number whose digits they are. */
  lemma {:induction false} DecimalDigitsValue(n: nat)
    ensures IsDigitRun(DecimalDigits(n), 10)
    ensures RunValue(DecimalDigits(n), 10) == n
  {
    var s := DecimalDigits(n);
    if n >= 10 {
      DecimalDigitsValue(n / 10);
      assert s[..|s| - 1] == DecimalDigits(n / 10);
    }
  }

  /** The number of decimal digits of `n`, its sign not counted. */
  function DecimalLength(n: int): nat {
    |DecimalDigits(if n < 0 then -n else n)|
  }

  /** `int(str(n)) == n` for every integer whose digits `int()` reads. */
  lemma IntToStringRoundTrip(n: int)
    requires DecimalLength(n) <= MaxStrDigits
    ensures ParseInt(IntToString(n), 10) == Some(n)
  {
    DecimalDigitsValue(if n < 0 then -n else n);
    if n < 0 {
      assert Unsigned(IntToString(n)) == DecimalDigits(-n);
    }
  }

  /** `str(n)`: `None` stands for the `ValueError` it raises on a number of
      more than `MaxStrDigits` digits; any string it writes reads back as `n`. */
  function Str(n: int): (r: Option<string>)
    ensures r.Some? <==> DecimalLength(n) <= MaxStrDigits
    ensures r.Some? ==> r.value == IntToString(n) && ParseInt(r.value, 10) == Some(n)
  {
    if DecimalLength(n) <= MaxStrDigits then
      IntToStringRoundTrip(n);
      Some(IntToString(n))
    else None
  }
}
