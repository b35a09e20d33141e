/**
 * The form checks of static/js/app.js, without their DOM effects: the displayed user
 * count, the partial-IP check, the start/end range check, the password and e-mail
 * checks, and the conjunction `validateForm` computes. Each check's result is what the
 * JavaScript function returns; `undefined` is a constructor of its own.
 */
module Client {
  import opened Wrappers
  import opened Text
  import opened Generator

  /** ECMAScript WhiteSpace and LineTerminator: what `trim`, `parseInt` and the regex class `\s` skip. */
  predicate IsJsSpace(c: char)
  {
    || c == '\t' || c == '\n' || c == '\U{B}' || c == '\U{C}' || c == '\r' || c == ' '
    || c == '\U{A0}' || c == '\U{1680}' || '\U{2000}' <= c <= '\U{200A}'
    || c == '\U{2028}' || c == '\U{2029}' || c == '\U{202F}' || c == '\U{205F}' || c == '\U{3000}'
    || c == '\U{FEFF}'
  }

  function TrimStart(s: string): (t: string)
    ensures t == [] || !IsJsSpace(t[0])
  {
    if s != [] && IsJsSpace(s[0]) then TrimStart(s[1..]) else s
  }

  function TrimEnd(s: string): (t: string)
    ensures t == [] || !IsJsSpace(t[|t| - 1])
  {
    if s != [] && IsJsSpace(s[|s| - 1]) then TrimEnd(s[..|s| - 1]) else s
  }

  /** `String.prototype.trim`. */
  function Trim(s: string): string
  {
    TrimEnd(TrimStart(s))
  }

  /** Trimming removes only whitespace, so it keeps every other character's count. */
  lemma {:induction false} TrimStartOccurrences(s: string, c: char)
    requires !IsJsSpace(c)
    ensures Occurrences(TrimStart(s), c) == Occurrences(s, c)
  {
    if s != [] && IsJsSpace(s[0]) {
      TrimStartOccurrences(s[1..], c);
    }
  }

  lemma {:induction false} TrimEndOccurrences(s: string, c: char)
    requires !IsJsSpace(c)
    ensures Occurrences(TrimEnd(s), c) == Occurrences(s, c)
  {
    if s != [] && IsJsSpace(s[|s| - 1]) {
      var init := s[..|s| - 1];
      TrimEndOccurrences(init, c);
      assert s == init + [s[|s| - 1]];
      OccurrencesConcat(init, [s[|s| - 1]], c);
    }
  }

  lemma TrimOccurrences(s: string, c: char)
    requires !IsJsSpace(c)
    ensures Occurrences(Trim(s), c) == Occurrences(s, c)
  {
    TrimStartOccurrences(s, c);
    TrimEndOccurrences(TrimStart(s), c);
  }

  predicate IsHexDigit(c: char)
  {
    '0' <= c <= '9' || 'a' <= c <= 'f' || 'A' <= c <= 'F'
  }

  function HexDigitValue(c: char): (d: nat)
    requires IsHexDigit(c)
    ensures d < 16
  {
    if '0' <= c <= '9' then c as int - '0' as int
    else if 'a' <= c <= 'f' then c as int - 'a' as int + 10
    else c as int - 'A' as int + 10
  }

  /** The value of a string of hexadecimal digits, most significant first. */
  function HexValue(s: string): nat
    requires forall k :: 0 <= k < |s| ==> IsHexDigit(s[k])
  {
    if s == [] then 0 else 16 * HexValue(s[..|s| - 1]) + HexDigitValue(s[|s| - 1])
  }

  /** The longest prefix of s made of decimal digits. */
  function DecimalPrefix(s: string): (p: string)
    ensures |p| <= |s| && p == s[..|p|] && AllDigits(p)
    ensures |p| < |s| ==> !IsDigit(s[|p|])
  {
    if s != [] && IsDigit(s[0]) then [s[0]] + DecimalPrefix(s[1..]) else ""
  }

  /** The longest prefix of s made of hexadecimal digits. */
  function HexPrefix(s: string): (p: string)
    ensures |p| <= |s| && p == s[..|p|] && forall k :: 0 <= k < |p| ==> IsHexDigit(p[k])
    ensures |p| < |s| ==> !IsHexDigit(s[|p|])
  {
    if s != [] && IsHexDigit(s[0]) then [s[0]] + HexPrefix(s[1..]) else ""
  }

  /**
   * `parseInt(s)` without a radix, as ECMAScript specifies it: skip leading whitespace,
   * take one sign, read "0x"/"0X" as base 16 and otherwise base 10, and read the longest
   * run of digits; `None` is NaN.
   */
  function ParseIntJs(s: string): Option<int>
  {
    var t := TrimStart(s);
    var negative := |t| > 0 && t[0] == '-';
    var u := if |t| > 0 && (t[0] == '+' || t[0] == '-') then t[1..] else t;
    var digits := if |u| >= 2 && u[0] == '0' && (u[1] == 'x' || u[1] == 'X') then HexPrefix(u[2..]) else DecimalPrefix(u);
    if digits == [] then None
    else
      var magnitude: int := if |u| >= 2 && u[0] == '0' && (u[1] == 'x' || u[1] == 'X') then HexValue(digits) else DigitsValue(digits);
      Some(if negative then -magnitude else magnitude)
  }

  /** A run of decimal digits is read whole. */
  lemma {:induction false} DecimalPrefixOfDigits(s: string)
    requires AllDigits(s)
    ensures DecimalPrefix(s) == s
  {
    if s != [] {
      DecimalPrefixOfDigits(s[1..]);
      assert [s[0]] + s[1..] == s;
    }
  }

  /** After the sign, `parseInt` of a run of digits reads them whole, in base 10. */
  lemma ParseIntJsBody(t: string, digits: string)
    requires 1 <= |digits| && AllDigits(digits)
    requires |t| > 0 && !IsJsSpace(t[0])
    requires digits == if t[0] == '+' || t[0] == '-' then t[1..] else t
    ensures ParseIntJs(t) == Some(if t[0] == '-' then -(DigitsValue(digits) as int) else DigitsValue(digits) as int)
  {
    assert TrimStart(t) == t;
    assert !(|digits| >= 2 && (digits[1] == 'x' || digits[1] == 'X')) by {
      if |digits| >= 2 {
        assert IsDigit(digits[1]);
      }
    }
    DecimalPrefixOfDigits(digits);
  }

  /** `parseInt` of a non-empty run of digits, with or without a leading '-', is its decimal value. */
  lemma ParseIntJsDigits(digits: string, negative: bool)
    requires 1 <= |digits| && AllDigits(digits)
    ensures ParseIntJs(if negative then "-" + digits else digits)
         == Some(if negative then -(DigitsValue(digits) as int) else DigitsValue(digits) as int)
  {
    var s := if negative then "-" + digits else digits;
    assert (if s[0] == '+' || s[0] == '-' then s[1..] else s) == digits;
    ParseIntJsBody(s, digits);
  }

  /** `parseInt(String(n)) === n`: what the page would print, `parseInt` reads back. */
  lemma ParseIntJsIntToString(n: int)
    ensures ParseIntJs(IntToString(n)) == Some(n)
  {
    var m: nat := if n < 0 then -n else n;
    ParseIntJsDigits(NatToString(m), n < 0);
    NatToStringValue(m);
  }

  /** JavaScript truthiness of a `parseInt` result: NaN and 0 are falsy. */
  predicate Truthy(n: Option<int>)
  {
    n.Some? && n.value != 0
  }

  /** `parseInt(v) || 1`. */
  function OrOne(n: Option<int>): (r: int)
    ensures r != 0
    ensures Truthy(n) ==> r == n.value
    ensures !Truthy(n) ==> r == 1
  {
    if Truthy(n) then n.value else 1
  }

  /** The count shown by `updateUserCount` (static/js/app.js:63-66). */
  function UserCount(startValue: string, endValue: string): (count: int)
  {
    var start := OrOne(ParseIntJs(startValue));
    var end := OrOne(ParseIntJs(endValue));
    if end - start + 1 > 0 then end - start + 1 else 0
  }

  /** The count is never negative; it is the size of the inclusive range when that is non-empty, else 0. */
  lemma UserCountRange(startValue: string, endValue: string)
    ensures var start, end := OrOne(ParseIntJs(startValue)), OrOne(ParseIntJs(endValue));
      && UserCount(startValue, endValue) >= 0
      && (start <= end ==> UserCount(startValue, endValue) == end - start + 1)
      && (start > end ==> UserCount(startValue, endValue) == 0)
  {
  }

  /** A start or an end that `parseInt` reads as NaN or 0 is counted as if the field held "1". */
  lemma FalsyCountsAsOne(startValue: string, endValue: string)
    ensures !Truthy(ParseIntJs(startValue)) ==> UserCount(startValue, endValue) == UserCount("1", endValue)
    ensures !Truthy(ParseIntJs(endValue)) ==> UserCount(startValue, endValue) == UserCount(startValue, "1")
  {
    ParseIntJsDigits("1", false);
    assert DigitsValue("1") == 1;
  }

  datatype CountBand = Warning | Info | Primary

  /** The class of the count badge (static/js/app.js:69-75). */
  function Band(count: int): CountBand
  {
    if count > 100 then Warning else if count > 50 then Info else Primary
  }

  function BandClass(b: CountBand): string
  {
    match b
    case Warning => "text-warning fw-bold"
    case Info => "text-info fw-bold"
    case Primary => "text-primary fw-bold"
  }

  /** The bands split the counts at 50 and 100, and a larger count never gets a lower band. */
  lemma BandThresholds(count: int, other: int)
    ensures Band(count) == Warning <==> count > 100
    ensures Band(count) == Info <==> 50 < count <= 100
    ensures Band(count) == Primary <==> count <= 50
    ensures count <= other ==> BandRank(Band(count)) <= BandRank(Band(other))
  {
  }

  function BandRank(b: CountBand): nat
  {
    match b
    case Primary => 0
    case Info => 1
    case Warning => 2
  }

  /** One to three ASCII digits: the group `\d{1,3}` of the partial-IP pattern. */
  predicate DigitGroup(g: string)
  {
    1 <= |g| <= 3 && AllDigits(g)
  }

  /** `/^(\d{1,3}\.){2}\d{1,3}$/.test(v)`: three digit groups joined by two dots, and nothing else. */
  predicate PartialIpPattern(v: string)
  {
    exists i, j :: 0 < i < j < |v| && v[i] == '.' && v[j] == '.'
      && DigitGroup(v[..i]) && DigitGroup(v[i + 1..j]) && DigitGroup(v[j + 1..])
  }

  /** Three digit groups joined by dots split back into the three groups. */
  lemma PatternToSplit(v: string, i: int, j: int)
    requires 0 < i < j < |v| && v[i] == '.' && v[j] == '.'
    requires DigitGroup(v[..i]) && DigitGroup(v[i + 1..j]) && DigitGroup(v[j + 1..])
    ensures Split(v, '.') == [v[..i], v[i + 1..j], v[j + 1..]]
  {
    DigitGroupWithoutDot(v[..i]);
    DigitGroupWithoutDot(v[i + 1..j]);
    DigitGroupWithoutDot(v[j + 1..]);
    CutAtTwo(v, i, j);
    SplitThree(v[..i], v[i + 1..j], v[j + 1..], '.');
  }

  /** v is its three pieces around the positions i and j, with the characters at i and j between them. */
  lemma CutAtTwo(v: string, i: int, j: int)
    requires 0 < i < j < |v|
    ensures v == v[..i] + [v[i]] + (v[i + 1..j] + [v[j]] + v[j + 1..])
  {
    var rest := v[i + 1..];
    assert rest == v[i + 1..j] + [v[j]] + v[j + 1..] by {
      assert rest == rest[..j - i - 1] + [rest[j - i - 1]] + rest[j - i..];
    }
    assert v == v[..i] + [v[i]] + rest;
  }

  lemma DigitGroupWithoutDot(g: string)
    requires DigitGroup(g)
    ensures '.' !in g
  {
  }

  /** A string whose three dot-separated pieces are a, b and c is a + "." + b + "." + c. */
  lemma JoinThree(v: string)
    requires |Split(v, '.')| == 3
    ensures var parts := Split(v, '.');
      v == parts[0] + ['.'] + parts[1] + ['.'] + parts[2]
  {
    var parts := Split(v, '.');
    JoinSplit(v, '.');
    assert Join(parts[1..][1..], ".") == parts[2];
    assert Join(parts[1..], ".") == parts[1] + "." + parts[2];
  }

  /** The pattern holds exactly when splitting at '.' gives three digit groups. */
  lemma PartialIpPatternSplit(v: string)
    ensures PartialIpPattern(v) <==> |Split(v, '.')| == 3 && forall k :: 0 <= k < 3 ==> DigitGroup(Split(v, '.')[k])
  {
    var parts := Split(v, '.');
    if PartialIpPattern(v) {
      var i, j :| 0 < i < j < |v| && v[i] == '.' && v[j] == '.'
        && DigitGroup(v[..i]) && DigitGroup(v[i + 1..j]) && DigitGroup(v[j + 1..]);
      PatternToSplit(v, i, j);
    }
    if |parts| == 3 && forall k :: 0 <= k < 3 ==> DigitGroup(parts[k]) {
      SplitToPattern(v);
    }
  }

  /** Three digit groups, however they were found, make the pattern hold. */
  lemma SplitToPattern(v: string)
    requires |Split(v, '.')| == 3 && forall k :: 0 <= k < 3 ==> DigitGroup(Split(v, '.')[k])
    ensures PartialIpPattern(v)
  {
    var parts := Split(v, '.');
    var a, b, c := parts[0], parts[1], parts[2];
    JoinThree(v);
    var i, j := |a|, |a| + 1 + |b|;
    assert v[..i] == a && v[i + 1..j] == b && v[j + 1..] == c;
    assert v[i] == '.' && v[j] == '.';
  }

  /** What `validateIPAddress` returns: `undefined` for an empty field, `false` twice over, or `true`. */
  datatype IpResult = Skipped | BadFormat | OctetOutOfRange | Accepted

  /** `num < 0 || num > 255` for `num = parseInt(octet)`; NaN compares false both ways. */
  predicate OctetOutside(octet: string)
  {
    var num := ParseIntJs(octet);
    num.Some? && (num.value < 0 || num.value > 255)
  }

  /** The result of `validateIPAddress` for the field's raw value. */
  function IpCheck(raw: string): IpResult
  {
    var v := Trim(raw);
    if v == [] then Skipped
    else if !PartialIpPattern(v) then BadFormat
    else if exists k :: 0 <= k < |Split(v, '.')| && OctetOutside(Split(v, '.')[k]) then OctetOutOfRange
    else Accepted
  }

  /** The body of `validateIPAddress` (static/js/app.js:180-205), the octet loop returning at the first bad octet. */
  method ValidateIpAddress(raw: string) returns (result: IpResult)
    ensures result == IpCheck(raw)
  {
    var value := Trim(raw);
    if value == [] {
      return Skipped;
    }
    if !PartialIpPattern(value) {
      return BadFormat;
    }
    var octets := Split(value, '.');
    for k := 0 to |octets|
      invariant forall m :: 0 <= m < k ==> !OctetOutside(octets[m])
    {
      var num := ParseIntJs(octets[k]);
      if num.Some? && (num.value < 0 || num.value > 255) {
        assert OctetOutside(octets[k]);
        return OctetOutOfRange;
      }
    }
    return Accepted;
  }

  /** `parseInt` of a digit group is its decimal value. */
  lemma ParseIntJsGroup(g: string)
    requires DigitGroup(g)
    ensures ParseIntJs(g) == Some(DigitsValue(g) as int)
  {
    ParseIntJsDigits(g, false);
  }

  /**
   * The field is accepted exactly when its trimmed value is three dot-separated groups
   * of one to three digits, each at most 255; leading zeros such as "010" pass.
   */
  lemma IpAccepted(raw: string)
    ensures IpCheck(raw) == Accepted <==>
      var parts := Split(Trim(raw), '.');
      |parts| == 3 && forall k :: 0 <= k < 3 ==> DigitGroup(parts[k]) && DigitsValue(parts[k]) <= 255
  {
    var v := Trim(raw);
    var parts := Split(v, '.');
    PartialIpPatternSplit(v);
    if |parts| == 3 && forall k :: 0 <= k < 3 ==> DigitGroup(parts[k]) {
      assert v != [] by {
        assert Split([], '.') == [""];
      }
      forall k | 0 <= k < 3
        ensures OctetOutside(parts[k]) <==> DigitsValue(parts[k]) > 255
      {
        ParseIntJsGroup(parts[k]);
      }
    }
  }

  /** A trimmed value with four dot-separated parts, which the server would accept, fails the format check. */
  lemma FourPartsRejected(raw: string)
    requires |Split(Trim(raw), '.')| == 4
    ensures IpCheck(raw) == BadFormat
  {
    PartialIpPatternSplit(Trim(raw));
  }

  /** An accepted field also splits into three parts before trimming, as the server splits it. */
  lemma AcceptedSplitsInThree(raw: string)
    requires IpCheck(raw) == Accepted
    ensures |Split(raw, '.')| == 3
  {
    PartialIpPatternSplit(Trim(raw));
    TrimOccurrences(raw, '.');
    SplitLength(raw, '.');
    SplitLength(Trim(raw), '.');
  }

  /** What `validateNumberRange` returns: `undefined` when a field is missing, else `false` or `true`. */
  datatype RangeResult = NoInputs | RangeFails | RangePasses

  /** The range check of static/js/app.js:207-224; `None` is a field that is not on the page. */
  function RangeCheck(startValue: Option<string>, endValue: Option<string>): RangeResult
  {
    if startValue.None? || endValue.None? then NoInputs
    else
      var start, end := ParseIntJs(startValue.value), ParseIntJs(endValue.value);
      if Truthy(start) && Truthy(end) && start.value > end.value then RangeFails else RangePasses
  }

  /** The check fails only for two non-zero numbers in the wrong order; NaN or 0 on either side skips it. */
  lemma RangeCheckFails(startValue: string, endValue: string)
    ensures RangeCheck(Some(startValue), Some(endValue)) == RangeFails
        <==> Truthy(ParseIntJs(startValue)) && Truthy(ParseIntJs(endValue))
             && ParseIntJs(startValue).value > ParseIntJs(endValue).value
    ensures !Truthy(ParseIntJs(startValue)) || !Truthy(ParseIntJs(endValue))
        ==> RangeCheck(Some(startValue), Some(endValue)) == RangePasses
  {
  }

  /** The number of UTF-16 code units of s: JavaScript's `length`. */
  function Utf16Length(s: string): (n: nat)
    ensures |s| <= n <= 2 * |s|
  {
    if s == [] then 0 else (if s[0] as int >= 0x10000 then 2 else 1) + Utf16Length(s[1..])
  }

  /** `validatePasswordStrength` (static/js/app.js:249-260). */
  predicate PasswordStrong(password: string)
  {
    Utf16Length(password) >= 6
  }

  /** Six characters always suffice, three never do, whatever the characters. */
  lemma PasswordStrengthBounds(password: string)
    ensures |password| >= 6 ==> PasswordStrong(password)
    ensures |password| < 3 ==> !PasswordStrong(password)
    ensures (forall k :: 0 <= k < |password| ==> password[k] as int < 0x10000)
        ==> (PasswordStrong(password) <==> |password| >= 6)
  {
    if forall k :: 0 <= k < |password| ==> password[k] as int < 0x10000 {
      Utf16LengthBmp(password);
    }
  }

  lemma {:induction false} Utf16LengthBmp(s: string)
    requires forall k :: 0 <= k < |s| ==> s[k] as int < 0x10000
    ensures Utf16Length(s) == |s|
  {
    if s != [] {
      assert forall k :: 0 <= k < |s[1..]| ==> s[1..][k] == s[k + 1];
      Utf16LengthBmp(s[1..]);
    }
  }

  /** `validatePasswordMatch` (static/js/app.js:262-270): `!==` on strings is inequality of contents. */
  predicate PasswordsMatch(password: string, confirmation: string)
  {
    password == confirmation
  }

  /** The confirmation passes exactly when it has the password's length and the same character at every position. */
  lemma PasswordsMatchExact(password: string, confirmation: string)
    ensures PasswordsMatch(password, confirmation)
        <==> |password| == |confirmation| && forall k :: 0 <= k < |password| ==> password[k] == confirmation[k]
  {
  }

  /** A character the class `[^\s@]` accepts. */
  predicate EmailChar(c: char)
  {
    !IsJsSpace(c) && c != '@'
  }

  /** `/^[^\s@]+@[^\s@]+\.[^\s@]+$/.test(email)`, read position by position. */
  predicate IsValidEmail(email: string)
  {
    exists i, j :: 0 < i && i + 1 < j && j + 1 < |email| && email[i] == '@' && email[j] == '.'
      && forall k :: 0 <= k < |email| && k != i ==> EmailChar(email[k])
  }

  /** The position of the first c in s. */
  function IndexOf(s: string, c: char): (i: nat)
    requires c in s
    ensures i < |s| && s[i] == c && c !in s[..i]
  {
    if s[0] == c then 0
    else
      assert c in s[1..];
      var i := IndexOf(s[1..], c) + 1;
      assert s[..i] == [s[0]] + s[1..][..i - 1];
      i
  }

  /**
   * The address holds no whitespace and exactly one '@', which is not first, and after it
   * there is a '.' with at least one character on each side.
   */
  predicate EmailShape(email: string)
  {
    && (forall k :: 0 <= k < |email| ==> !IsJsSpace(email[k]))
    && '@' in email && Occurrences(email, '@') == 1
    && var i := IndexOf(email, '@');
       0 < i && i + 2 <= |email| - 1 && '.' in email[i + 2..|email| - 1]
  }

  /** A string with exactly one c at position i has none before or after it. */
  lemma SingleOccurrence(s: string, i: nat, c: char)
    requires i < |s| && s[i] == c
    ensures Occurrences(s, c) == 1 <==> c !in s[..i] && c !in s[i + 1..]
  {
    assert s == s[..i] + [c] + s[i + 1..];
    OccurrencesConcat(s[..i] + [c], s[i + 1..], c);
    OccurrencesConcat(s[..i], [c], c);
    OccurrencesAbsent(s[..i], c);
    OccurrencesAbsent(s[i + 1..], c);
  }

  lemma PatternToShape(email: string, i: nat, j: nat)
    requires 0 < i && i + 1 < j && j + 1 < |email| && email[i] == '@' && email[j] == '.'
    requires forall k :: 0 <= k < |email| && k != i ==> EmailChar(email[k])
    ensures EmailShape(email)
  {
    var before, after := email[..i], email[i + 1..];
    assert '@' !in before && '@' !in after by {
      assert forall k :: 0 <= k < |before| ==> before[k] == email[k];
      assert forall k :: 0 <= k < |after| ==> after[k] == email[i + 1 + k];
    }
    SingleOccurrence(email, i, '@');
    assert IndexOf(email, '@') == i;
    assert email[i + 2..|email| - 1][j - i - 2] == '.';
  }

  lemma ShapeToPattern(email: string)
    requires EmailShape(email)
    ensures IsValidEmail(email)
  {
    var i := IndexOf(email, '@');
    var middle := email[i + 2..|email| - 1];
    var m :| 0 <= m < |middle| && middle[m] == '.';
    var j := i + 2 + m;
    assert email[j] == '.';
    SingleOccurrence(email, i, '@');
    forall k | 0 <= k < |email| && k != i
      ensures EmailChar(email[k])
    {
      if k < i {
        assert email[k] == email[..i][k];
      } else {
        assert email[k] == email[i + 1..][k - i - 1];
      }
    }
  }

  /** The pattern and the plain description accept the same strings. */
  lemma EmailPatternShape(email: string)
    ensures IsValidEmail(email) <==> EmailShape(email)
  {
    if IsValidEmail(email) {
      var i, j :| 0 < i && i + 1 < j && j + 1 < |email| && email[i] == '@' && email[j] == '.'
        && forall k :: 0 <= k < |email| && k != i ==> EmailChar(email[k]);
      PatternToShape(email, i, j);
    }
    if EmailShape(email) {
      ShapeToPattern(email);
    }
  }

  /** The `type` of an input element, as far as `validateField` distinguishes it. */
  datatype FieldKind = EmailField | NumberField | OtherField

  /**
   * An input: its type, whether it has the `required` attribute, its raw value, and its
   * `min` and `max` attributes (`None` when absent, where `getAttribute` gives null).
   */
  datatype Field = Field(kind: FieldKind, required: bool, value: string, minAttr: Option<string>, maxAttr: Option<string>)

  /** `parseInt(field.getAttribute(name))`: `parseInt(null)` reads the string "null", which is NaN. */
  function AttributeNumber(attr: Option<string>): Option<int>
  {
    if attr.None? then None else ParseIntJs(attr.value)
  }

  /** `a < b` on two `parseInt` results: false when either is NaN. */
  predicate Less(a: Option<int>, b: Option<int>)
  {
    a.Some? && b.Some? && a.value < b.value
  }

  /** What `validateField` (static/js/app.js:146-178) returns for one input. */
  predicate FieldValid(f: Field)
  {
    var value := Trim(f.value);
    && !(f.required && value == [])
    && !(f.kind == EmailField && value != [] && !IsValidEmail(value))
    && !(f.kind == NumberField
         && (Less(ParseIntJs(value), AttributeNumber(f.minAttr)) || Less(AttributeNumber(f.maxAttr), ParseIntJs(value))))
  }

  /**
   * A required field fails when it is blank after trimming; a filled e-mail field fails
   * unless it matches the address pattern; a number field fails outside its numeric
   * bounds, and a bound or value that is NaN never fails it.
   */
  lemma FieldValidCases(f: Field)
    ensures f.required && Trim(f.value) == [] ==> !FieldValid(f)
    ensures f.kind == OtherField ==> (FieldValid(f) <==> !f.required || Trim(f.value) != [])
    ensures f.kind == EmailField && Trim(f.value) != [] ==> (FieldValid(f) <==> EmailShape(Trim(f.value)))
    ensures f.kind == NumberField && ParseIntJs(Trim(f.value)).None? ==> (FieldValid(f) <==> !f.required || Trim(f.value) != [])
    ensures f.kind == NumberField && f.minAttr.None? && f.maxAttr.None? ==> (FieldValid(f) <==> !f.required || Trim(f.value) != [])
  {
    if f.kind == EmailField && Trim(f.value) != [] {
      EmailPatternShape(Trim(f.value));
    }
  }

  /** The generator form, as `validateForm` sees it. */
  datatype Form = Form(
    requiredFields: seq<Field>,   // the `input[required]` elements, in document order
    checked: set<CharClass>,      // the ticked character-type boxes
    startValue: Option<string>,   // `#start_number`'s value, `None` when the element is missing
    endValue: Option<string>)     // `#end_number`'s value, likewise

  /** `validateCharacterTypes`: some box is ticked. */
  predicate CharacterTypesValid(checked: set<CharClass>)
  {
    checked != {}
  }

  /** The indices, in order, of the first n required fields that `validateField` rejects. */
  function FailingFields(fields: seq<Field>, n: nat): seq<nat>
    requires n <= |fields|
  {
    if n == 0 then [] else FailingFields(fields, n - 1) + (if FieldValid(fields[n - 1]) then [] else [n - 1])
  }

  /** A field is flagged exactly when it fails. */
  lemma FailingFieldsExact(fields: seq<Field>, n: nat)
    requires n <= |fields|
    ensures forall k: nat :: k in FailingFields(fields, n) <==> k < n && !FieldValid(fields[k])
  {
    forall k: nat
      ensures k in FailingFields(fields, n) <==> k < n && !FieldValid(fields[k])
    {
      FailingFieldMember(fields, n, k);
    }
  }

  /** Index k is among the flagged indices of the first n fields exactly when k < n and field k fails. */
  lemma {:induction false} FailingFieldMember(fields: seq<Field>, n: nat, k: nat)
    requires n <= |fields|
    ensures k in FailingFields(fields, n) <==> k < n && !FieldValid(fields[k])
  {
    if n > 0 {
      FailingFieldMember(fields, n - 1, k);
      var prefix := FailingFields(fields, n - 1);
      var failed := !FieldValid(fields[n - 1]);
      var last: seq<nat> := if failed then [n - 1] else [];
      assert FailingFields(fields, n) == prefix + last;
      assert k in prefix + last <==> k in prefix || k in last;
      assert k in last <==> k == n - 1 && failed;
    }
  }

  /** The flagged fields are listed in document order, each once. */
  lemma {:induction false} FailingFieldsOrdered(fields: seq<Field>, n: nat)
    requires n <= |fields|
    ensures forall a, b :: 0 <= a < b < |FailingFields(fields, n)| ==> FailingFields(fields, n)[a] < FailingFields(fields, n)[b]
  {
    if n > 0 {
      FailingFieldsOrdered(fields, n - 1);
      FailingFieldsExact(fields, n - 1);
      var prefix := FailingFields(fields, n - 1);
      var last: seq<nat> := if FieldValid(fields[n - 1]) then [] else [n - 1];
      var all := prefix + last;
      assert FailingFields(fields, n) == all;
      forall a, b | 0 <= a < b < |all| ensures all[a] < all[b] {
        if b >= |prefix| {
          assert all[a] == prefix[a];
          assert prefix[a] in prefix;
        }
      }
    }
  }

  /** What `validateForm` returns: true without a form, else the conjunction of all its checks. */
  predicate FormValid(form: Option<Form>)
  {
    form.None? ||
    ( && (forall k :: 0 <= k < |form.value.requiredFields| ==> FieldValid(form.value.requiredFields[k]))
      && CharacterTypesValid(form.value.checked)
      && RangeCheck(form.value.startValue, form.value.endValue) == RangePasses)
  }

  /**
   * The body of `validateForm` (static/js/app.js:272-297): every required field is checked
   * (`flagged` lists those that get an error message), then the character types, then the range.
   */
  method ValidateForm(form: Option<Form>) returns (isValid: bool, flagged: seq<nat>)
    ensures isValid == FormValid(form)
    ensures form.Some? ==> flagged == FailingFields(form.value.requiredFields, |form.value.requiredFields|)
    ensures form.None? ==> flagged == []
  {
    flagged := [];
    if form.None? {
      return true, flagged;
    }
    var fields := form.value.requiredFields;
    isValid := true;
    for i := 0 to |fields|
      invariant flagged == FailingFields(fields, i)
      invariant isValid <==> forall k :: 0 <= k < i ==> FieldValid(fields[k])
    {
      if !FieldValid(fields[i]) {
        flagged := flagged + [i];
        isValid := false;
      }
    }
    if !CharacterTypesValid(form.value.checked) {
      isValid := false;
    }
    if RangeCheck(form.value.startValue, form.value.endValue) != RangePasses {
      isValid := false;
    }
  }

  /** The form passes exactly when no required field is flagged and the two other checks pass. */
  lemma FormValidFlagged(form: Form)
    ensures FormValid(Some(form)) <==>
      && FailingFields(form.requiredFields, |form.requiredFields|) == []
      && form.checked != {}
      && RangeCheck(form.startValue, form.endValue) == RangePasses
  {
    var fields := form.requiredFields;
    FailingFieldsExact(fields, |fields|);
    if FailingFields(fields, |fields|) != [] {
      assert FailingFields(fields, |fields|)[0] in FailingFields(fields, |fields|);
    }
  }
}
