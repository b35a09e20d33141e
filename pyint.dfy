/**
 * Python's built-in `int(s)` on a string, base 10: surrounding whitespace is
 * stripped, an optional sign may follow, then decimal digits, optionally grouped
 * by single underscores. Anything else raises `ValueError`, modelled as `None`.
 */
module PyInt {
  import opened Wrappers
  import opened Text

  /**
   * The whitespace `int()` strips around its digits. CPython first maps each non-ASCII
   * whitespace character to ' ' and leaves ASCII characters alone, then skips only the
   * ASCII spaces '\t', '\n', '\v', '\f', '\r' and ' '. So the ASCII separators
   * U+001C..U+001F, which `str.isspace` accepts, make `int()` raise.
   */
  predicate IsIntSpace(c: char)
  {
    || '\t' <= c <= '\r'
    || c == ' '
    || c == '\U{85}' || c == '\U{A0}' || c == '\U{1680}'
    || '\U{2000}' <= c <= '\U{200A}'
    || c == '\U{2028}' || c == '\U{2029}' || c == '\U{202F}' || c == '\U{205F}' || c == '\U{3000}'
  }

  function StripStart(s: string): (t: string)
    ensures t == [] || !IsIntSpace(t[0])
  {
    if s != [] && IsIntSpace(s[0]) then StripStart(s[1..]) else s
  }

  function StripEnd(s: string): (t: string)
    ensures t == [] || !IsIntSpace(t[|t| - 1])
  {
    if s != [] && IsIntSpace(s[|s| - 1]) then StripEnd(s[..|s| - 1]) else s
  }

  /** Python's `s.strip()`. */
  function Strip(s: string): string
  {
    StripEnd(StripStart(s))
  }

  /** One or more decimal digits, where single underscores may separate two digits. */
  predicate IsDigitGroups(s: string)
  {
    && |s| >= 1
    && IsDigit(s[0])
    && IsDigit(s[|s| - 1])
    && (forall i :: 0 <= i < |s| ==> IsDigit(s[i]) || s[i] == '_')
    && (forall i :: 0 <= i < |s| - 1 ==> s[i] == '_' ==> s[i + 1] != '_')
  }

  /** s with every '_' dropped: what is left of digit groups is a plain run of digits. */
  function RemoveUnderscores(s: string): (r: string)
    ensures '_' !in r
    ensures (forall i :: 0 <= i < |s| ==> IsDigit(s[i]) || s[i] == '_') ==> AllDigits(r)
  {
    if s == [] then [] else (if s[0] == '_' then [] else [s[0]]) + RemoveUnderscores(s[1..])
  }

  /**
   * CPython's default `sys.int_info.default_max_str_digits`. Since Python 3.11 (and the
   * 3.7.14, 3.8.14, 3.9.14 and 3.10.7 releases) `int()` raises `ValueError` on decimal text
   * with more digits than this, and `str()` raises `ValueError` on a number that needs more.
   */
  const MAX_STR_DIGITS: nat := 4300

  /**
   * The integers a C `Py_ssize_t` holds on a 64-bit build. A count outside this range,
   * such as the `k` of `random.choices`, raises `OverflowError` when CPython converts it.
   */
  predicate FitsSsize(n: int)
  {
    -0x8000_0000_0000_0000 <= n < 0x8000_0000_0000_0000
  }

  function Magnitude(n: int): nat
  {
    if n < 0 then -n else n
  }

  /** The decimal digits of n fit the limit, so `str(n)` returns. */
  predicate WithinDigitLimit(n: int)
  {
    |NatToString(Magnitude(n))| <= MAX_STR_DIGITS
  }

  /** Python's `str(n)`: `None` when it raises `ValueError` because n has too many digits. */
  function Str(n: int): Option<string>
  {
    if WithinDigitLimit(n) then Some(IntToString(n)) else None
  }

  /** `int(s)`: `Some(value)` when Python returns a value, `None` when it raises `ValueError`. */
  function Parse(s: string): Option<int>
  {
    ParseSigned(Strip(s))
  }

  /**
   * `int` of an already stripped string: an optional sign, then digit groups holding at
   * most `MAX_STR_DIGITS` digits (underscores are not counted, leading zeros are).
   */
  function ParseSigned(t: string): Option<int>
  {
    var body := if |t| > 0 && (t[0] == '+' || t[0] == '-') then t[1..] else t;
    if IsDigitGroups(body) && |RemoveUnderscores(body)| <= MAX_STR_DIGITS then
      Some(Signed(|t| > 0 && t[0] == '-', DigitsValue(RemoveUnderscores(body))))
    else None
  }

  function Signed(negative: bool, magnitude: nat): int
  {
    if negative then -(magnitude as int) else magnitude as int
  }

  lemma {:induction false} RemoveUnderscoresOfDigits(s: string)
    requires AllDigits(s)
    ensures RemoveUnderscores(s) == s
  {
    if s != [] {
      RemoveUnderscoresOfDigits(s[1..]);
      assert [s[0]] + s[1..] == s;
    }
  }

  /** A string that neither starts nor ends with whitespace is left unchanged by `strip`. */
  lemma StripUnchanged(s: string)
    requires s != [] && !IsIntSpace(s[0]) && !IsIntSpace(s[|s| - 1])
    ensures Strip(s) == s
  {
  }

  /** A plain run of digits is a well-formed digit-group string. */
  lemma DigitsAreGroups(digits: string)
    requires 1 <= |digits| && AllDigits(digits)
    ensures IsDigitGroups(digits)
  {
  }

  /** `int` of a sign followed by plain digits, once stripped: the value, unless there are too many digits. */
  lemma ParseSignedDigits(t: string, digits: string)
    requires 1 <= |digits| && AllDigits(digits)
    requires |t| > 0 && digits == if t[0] == '+' || t[0] == '-' then t[1..] else t
    ensures |digits| <= MAX_STR_DIGITS ==>
      ParseSigned(t) == Some(if t[0] == '-' then -(DigitsValue(digits) as int) else DigitsValue(digits) as int)
    ensures |digits| > MAX_STR_DIGITS ==> ParseSigned(t) == None
  {
    DigitsAreGroups(digits);
    RemoveUnderscoresOfDigits(digits);
    if |digits| <= MAX_STR_DIGITS {
      ParseSignedShort(t, digits);
    }
  }

  lemma {:induction false} ParseSignedShort(t: string, digits: string)
    requires 1 <= |digits| <= MAX_STR_DIGITS && AllDigits(digits)
    requires |t| > 0 && digits == if t[0] == '+' || t[0] == '-' then t[1..] else t
    requires IsDigitGroups(digits) && RemoveUnderscores(digits) == digits
    ensures ParseSigned(t) == Some(if t[0] == '-' then -(DigitsValue(digits) as int) else DigitsValue(digits) as int)
  {
  }

  /**
   * `int` of a plain run of digits, with or without a leading '-', is its decimal value
   * when there are at most `MAX_STR_DIGITS` digits, and raises otherwise.
   */
  lemma ParseDigits(digits: string, negative: bool)
    requires 1 <= |digits| && AllDigits(digits)
    ensures |digits| <= MAX_STR_DIGITS ==>
      Parse(if negative then "-" + digits else digits)
      == Some(if negative then -(DigitsValue(digits) as int) else DigitsValue(digits) as int)
    ensures |digits| > MAX_STR_DIGITS ==> Parse(if negative then "-" + digits else digits) == None
  {
    if negative {
      var s := "-" + digits;
      assert s[|s| - 1] == digits[|digits| - 1];
      StripUnchanged(s);
      assert s[1..] == digits;
      ParseSignedDigits(s, digits);
    } else {
      StripUnchanged(digits);
      ParseSignedDigits(digits, digits);
    }
  }

  /** `int(str(n)) == n` for every n that `str` can print; for the others `int` raises too. */
  lemma ParseIntToString(n: int)
    ensures WithinDigitLimit(n) ==> Parse(IntToString(n)) == Some(n)
    ensures !WithinDigitLimit(n) ==> Parse(IntToString(n)) == None
  {
    var m: nat := if n < 0 then -n else n;
    ParseDigits(NatToString(m), n < 0);
    NatToStringValue(m);
  }

  /** What `str` prints, `int` reads back. */
  lemma StrRoundTrip(n: int)
    requires Str(n).Some?
    ensures Parse(Str(n).value) == Some(n)
  {
    ParseIntToString(n);
  }

  /** Every number `int` returns can be printed by `str`: it has no more digits than the text it was read from. */
  lemma {:induction false} ParseWithinLimit(s: string)
    requires Parse(s).Some?
    ensures WithinDigitLimit(Parse(s).value)
  {
    var t := Strip(s);
    var body := if |t| > 0 && (t[0] == '+' || t[0] == '-') then t[1..] else t;
    assert IsDigitGroups(body);
    var digits := RemoveUnderscores(body);
    assert digits == [body[0]] + RemoveUnderscores(body[1..]);
    var v := DigitsValue(digits);
    assert Parse(s) == Some(Signed(|t| > 0 && t[0] == '-', v));
    assert Magnitude(Parse(s).value) == v;
    DigitsValueLength(digits);
  }

  /** A number between two printable numbers is printable. */
  lemma WithinLimitBetween(a: int, n: int, b: int)
    requires a <= n <= b && WithinDigitLimit(a) && WithinDigitLimit(b)
    ensures WithinDigitLimit(n)
  {
    if n >= 0 {
      NatToStringLengthMonotone(n, b);
    } else {
      NatToStringLengthMonotone(-n, -a);
    }
  }

  /** An ASCII information separator before the digits is not stripped: `int("\x1c5")` raises. */
  lemma SeparatorNotStripped()
    ensures Parse("\U{1C}5") == None
  {
    var s := "\U{1C}5";
    assert !IsIntSpace(s[0]) && !IsIntSpace(s[1]);
    StripUnchanged(s);
    assert !IsDigit(s[0]);
  }

  /** Numbers of at most three digits are printable. */
  lemma SmallWithinLimit(n: int)
    requires -1000 < n < 1000
    ensures WithinDigitLimit(n)
  {
    NatToStringShort(Magnitude(n));
  }
}
