/** The pieces of Python's str.strip, int(str) and str.split that the sources rely on. */
module PythonText {
  import opened Powers
  import opened Wrappers

  /** The characters that str.strip removes, str.isspace. */
  predicate IsSpace(c: char) {
    var n := c as int;
    || 9 <= n <= 13 || 28 <= n <= 32 || n == 0x85 || n == 0xA0 || n == 0x1680 || 0x2000 <= n <= 0x200A
    || n == 0x2028 || n == 0x2029 || n == 0x202F || n == 0x205F || n == 0x3000
  }

  /** Those that int() skips at both ends of an ASCII text. */
  predicate IsBlank(c: char) {
    c == ' ' || 9 as char <= c <= 13 as char
  }

  predicate IsDigit(c: char) { '0' <= c <= '9' }

  function DigitValue(c: char): (d: nat)
    requires IsDigit(c)
    ensures d < 10
  {
    c as int - '0' as int
  }

  function StripLeft(s: string, space: char -> bool): string {
    if |s| > 0 && space(s[0]) then StripLeft(s[1..], space) else s
  }

  function StripRight(s: string, space: char -> bool): string {
    if |s| > 0 && space(s[|s| - 1]) then StripRight(s[..|s| - 1], space) else s
  }

  function Strip(s: string, space: char -> bool): string { StripRight(StripLeft(s, space), space) }

  /** Digits, with single underscores between them. */
  function ParseDigits(s: string): Option<nat> {
    if |s| == 0 || !IsDigit(s[|s| - 1]) then None
    else
      var k := |s| - 1;
      var last := DigitValue(s[k]);
      if k == 0 then Some(last)
      else
        var rest := if s[k - 1] == '_' then s[..k - 1] else s[..k];
        match ParseDigits(rest)
        case None => None
        case Some(n) => Some(10 * n + last)
  }

  /** A numeral behind an optional sign. */
  function ParseSigned(t: string): Option<int> {
    if |t| > 0 && (t[0] == '+' || t[0] == '-') then
      var n: Option<int> := ParseDigits(t[1..]);
      if n.None? then None else if t[0] == '-' then Some(-n.value) else n
    else ParseDigits(t)
  }

  /** int(s), None for a ValueError. */
  function ParseInt(s: string): Option<int> { ParseSigned(Strip(s, IsBlank)) }

  function DigitChar(d: nat): (c: char)
    requires d < 10
    ensures IsDigit(c) && DigitValue(c) == d
  {
    ('0' as int + d) as char
  }

  /** str(n) of a natural number. */
  function Decimal(n: nat): (s: string)
    ensures |s| > 0 && forall c :: c in s ==> IsDigit(c)
  {
    if n < 10 then [DigitChar(n)] else Decimal(n / 10) + [DigitChar(n % 10)]
  }

  lemma {:induction false} ParseDecimal(n: nat)
    ensures ParseDigits(Decimal(n)) == Some(n)
  {
    if n < 10 {
    } else {
      var front := Decimal(n / 10);
      ParseDecimal(n / 10);
      assert Decimal(n)[..|front|] == front;
      assert IsDigit(front[|front| - 1]);
    }
  }

  /** int(str(n)) gives the number back. */
  lemma IntOfDecimal(n: nat)
    ensures ParseInt(Decimal(n)) == Some(n)
  {
    var s := Decimal(n);
    ParseDecimal(n);
    assert IsDigit(s[0]) && IsDigit(s[|s| - 1]);
    assert Strip(s, IsBlank) == s;
  }

  /** A number has at most k digits exactly when it is below ten to the k. */
  lemma {:induction false} DecimalLength(n: nat, k: nat)
    requires k > 0
    ensures |Decimal(n)| <= k <==> n < Power(10, k)
  {
    PowerIsPositive(10, k - 1);
    if k == 1 {
      assert Power(10, 1) == 10 * Power(10, 0);
    }
    if n >= 10 {
      if k > 1 {
        DecimalLength(n / 10, k - 1);
        assert Power(10, k) == 10 * Power(10, k - 1);
      }
    } else {
      assert Power(10, k) >= 10;
    }
  }

  /** The second field of s.split("_"), None for an IndexError. */
  function SecondField(s: string): Option<string> {
    var i := Find(s, '_');
    if i == |s| then None
    else
      var rest := s[i + 1..];
      Some(rest[..Find(rest, '_')])
  }

  /** The first position of c, or the length. */
  function Find(s: string, c: char): (i: nat)
    ensures i <= |s|
    ensures i < |s| ==> s[i] == c
    ensures forall j :: 0 <= j < i ==> s[j] != c
  {
    if |s| == 0 || s[0] == c then 0 else 1 + Find(s[1..], c)
  }

  // ---- What strip leaves ----

  predicate All(s: string, space: char -> bool) { forall c :: c in s ==> space(c) }

  /** Nothing to be stripped at either end. */
  predicate IsTrimmed(s: string, space: char -> bool) {
    |s| > 0 ==> !space(s[0]) && !space(s[|s| - 1])
  }

  lemma {:induction false} LeftIsStripped(a: string, t: string, space: char -> bool)
    requires All(a, space) && (|t| > 0 ==> !space(t[0]))
    ensures StripLeft(a + t, space) == t
  {
    if |a| == 0 {
      assert a + t == t;
    } else {
      assert a[0] in a && forall c :: c in a[1..] ==> c in a;
      assert (a + t)[1..] == a[1..] + t;
      LeftIsStripped(a[1..], t, space);
    }
  }

  lemma {:induction false} RightIsStripped(t: string, b: string, space: char -> bool)
    requires All(b, space) && (|t| > 0 ==> !space(t[|t| - 1]))
    ensures StripRight(t + b, space) == t
  {
    if |b| == 0 {
      assert t + b == t;
    } else {
      var k := |b| - 1;
      assert b[k] in b && forall c :: c in b[..k] ==> c in b;
      assert (t + b)[..|t| + k] == t + b[..k];
      RightIsStripped(t, b[..k], space);
    }
  }

  lemma {:induction false} AllAreStripped(a: string, space: char -> bool)
    requires All(a, space)
    ensures StripLeft(a, space) == ""
  {
    LeftIsStripped(a, "", space);
    assert a + "" == a;
  }

  /** Whatever stands between spaces is what strip leaves. */
  lemma StripBetween(a: string, t: string, b: string, space: char -> bool)
    requires All(a, space) && All(b, space) && IsTrimmed(t, space)
    ensures Strip(a + t + b, space) == t
  {
    assert a + t + b == a + (t + b);
    if |t| == 0 {
      assert a + (t + b) == a + b;
      AllAreStripped(a + b, space);
    } else {
      LeftIsStripped(a, t + b, space);
      RightIsStripped(t, b, space);
    }
  }

  lemma {:induction false} LeftParts(s: string, space: char -> bool) returns (a: string)
    ensures s == a + StripLeft(s, space) && All(a, space)
    ensures |StripLeft(s, space)| > 0 ==> !space(StripLeft(s, space)[0])
  {
    if |s| > 0 && space(s[0]) {
      var rest := LeftParts(s[1..], space);
      a := [s[0]] + rest;
      assert s == [s[0]] + s[1..];
    } else {
      a := "";
      assert a + s == s;
    }
  }

  lemma {:induction false} RightParts(s: string, space: char -> bool) returns (b: string)
    ensures s == StripRight(s, space) + b && All(b, space)
    ensures |StripRight(s, space)| > 0 ==> !space(StripRight(s, space)[|StripRight(s, space)| - 1])
  {
    if |s| > 0 && space(s[|s| - 1]) {
      var k := |s| - 1;
      var rest := RightParts(s[..k], space);
      b := rest + [s[k]];
      assert s == s[..k] + [s[k]];
    } else {
      b := "";
      assert s + b == s;
    }
  }

  /** And what strip leaves stands between spaces. */
  lemma StripParts(s: string, space: char -> bool) returns (a: string, b: string)
    ensures s == a + Strip(s, space) + b && All(a, space) && All(b, space) && IsTrimmed(Strip(s, space), space)
  {
    a := LeftParts(s, space);
    var t := StripLeft(s, space);
    b := RightParts(t, space);
    var u := StripRight(t, space);
    assert t == u + b;
    if |u| > 0 {
      assert u[0] == t[0];
    }
    assert a + (u + b) == a + u + b;
    hide StripLeft, StripRight;
  }

  // ---- What int() reads ----

  /** Digits with single underscores between them. */
  predicate IsNumeral(s: string) {
    && |s| > 0 && IsDigit(s[0]) && IsDigit(s[|s| - 1])
    && (forall i :: 0 <= i < |s| ==> IsDigit(s[i]) || s[i] == '_')
    && (forall i :: 0 <= i < |s| - 1 ==> s[i] != '_' || s[i + 1] != '_')
  }

  function DigitCount(s: string): nat {
    if |s| == 0 then 0 else (if s[0] == '_' then 0 else 1) + DigitCount(s[1..])
  }

  /** Every digit counts by its place: times ten for each digit behind it. */
  function PlaceValue(s: string): nat
    requires forall i :: 0 <= i < |s| ==> IsDigit(s[i]) || s[i] == '_'
  {
    if |s| == 0 then 0
    else if s[0] == '_' then PlaceValue(s[1..])
    else
      assert IsDigit(s[0]);
      var digit: nat := s[0] as int - '0' as int;
      digit * Power(10, DigitCount(s[1..])) + PlaceValue(s[1..])
  }

  lemma {:induction false} DigitCountAppends(s: string, c: char)
    ensures DigitCount(s + [c]) == DigitCount(s) + if c == '_' then 0 else 1
  {
    if |s| > 0 {
      assert (s + [c])[1..] == s[1..] + [c];
      DigitCountAppends(s[1..], c);
    } else {
      assert [c][1..] == "";
      assert s + [c] == [c];
      assert DigitCount([c]) == (if c == '_' then 0 else 1) + DigitCount("");
    }
  }

  lemma {:induction false} PlaceValueAppends(s: string, c: char)
    requires forall i :: 0 <= i < |s| ==> IsDigit(s[i]) || s[i] == '_'
    requires IsDigit(c) || c == '_'
    ensures PlaceValue(s + [c]) == if c == '_' then PlaceValue(s) else 10 * PlaceValue(s) + (c as int - '0' as int)
  {
    if |s| == 0 {
      assert s + [c] == [c] && [c][1..] == "";
      assert Power(10, 0) == 1;
    } else {
      assert (s + [c])[1..] == s[1..] + [c];
      PlaceValueAppends(s[1..], c);
      DigitCountAppends(s[1..], c);
      TenTimes(s[0] as int - '0' as int, DigitCount(s[1..]));
      hide DigitCount, Power;
    }
  }

  lemma TenTimes(d: int, n: nat)
    ensures d * Power(10, n + 1) == 10 * (d * Power(10, n))
  {
    assert Power(10, n + 1) == 10 * Power(10, n);
  }

  lemma {:induction false} DigitsMeaning(s: string)
    ensures ParseDigits(s) == if IsNumeral(s) then Some(PlaceValue(s)) else None
  {
    if |s| > 0 && IsDigit(s[|s| - 1]) {
      var k := |s| - 1;
      assert s == s[..k] + [s[k]];
      if k == 0 {
        assert s[..k] == "";
      } else if s[k - 1] == '_' {
        var rest := s[..k - 1];
        DigitsMeaning(rest);
        assert s[..k] == rest + [s[k - 1]];
        if IsNumeral(s) {
          assert k >= 2 && s[k - 2] != '_';
          PlaceValueAppends(rest, '_');
        }
        if IsNumeral(rest) {
          assert forall i :: 0 <= i < k - 1 ==> rest[i] == s[i];
        }
      } else {
        DigitsMeaning(s[..k]);
      }
      if IsNumeral(s) {
        PlaceValueAppends(s[..k], s[k]);
      }
      hide PlaceValue;
    }
  }

  function Signed(sign: string, n: int): int { if sign == "-" then -n else n }

  /** The number a text stands for: blanks, a sign, a numeral, blanks. */
  ghost predicate Denotes(s: string, n: int) {
    exists lead: string, sign: string, digits: string, trail: string ::
      HasParts(s, lead, sign, digits, trail) && n == Signed(sign, PlaceValue(digits))
  }

  ghost predicate HasParts(s: string, lead: string, sign: string, digits: string, trail: string) {
    && s == lead + (sign + digits) + trail
    && All(lead, IsBlank) && All(trail, IsBlank)
    && (sign == "" || sign == "+" || sign == "-") && IsNumeral(digits)
  }

  lemma SignedIsTrimmed(sign: string, digits: string)
    requires (sign == "" || sign == "+" || sign == "-") && IsNumeral(digits)
    ensures IsTrimmed(sign + digits, IsBlank)
  {
    var t := sign + digits;
    assert t[|t| - 1] == digits[|digits| - 1];
    assert t[0] == if sign == "" then digits[0] else sign[0];
  }

  lemma SignedMeaning(sign: string, digits: string)
    requires (sign == "" || sign == "+" || sign == "-") && IsNumeral(digits)
    ensures ParseSigned(sign + digits) == Some(Signed(sign, PlaceValue(digits)))
  {
    DigitsMeaning(digits);
    NumeralHasNoSign(digits);
    hide IsNumeral, PlaceValue, ParseDigits;
    if sign == "" {
      assert sign + digits == digits;
    } else {
      assert (sign + digits)[1..] == digits && (sign + digits)[0] == sign[0];
      assert "-"[0] == '-' && "+"[0] == '+';
    }
  }

  lemma SignedParts(t: string, n: int) returns (sign: string, digits: string)
    requires ParseSigned(t) == Some(n)
    ensures t == sign + digits && (sign == "" || sign == "+" || sign == "-") && IsNumeral(digits)
    ensures n == Signed(sign, PlaceValue(digits))
  {
    hide IsNumeral, PlaceValue;
    if |t| > 0 && (t[0] == '+' || t[0] == '-') {
      sign, digits := [t[0]], t[1..];
      assert t == [t[0]] + t[1..];
      assert "-"[0] == '-' && "+"[0] == '+';
    } else {
      sign, digits := "", t;
      assert "" + t == t;
    }
    DigitsMeaning(digits);
  }

  lemma NumeralHasNoSign(digits: string)
    requires IsNumeral(digits)
    ensures |digits| > 0 && digits[0] != '+' && digits[0] != '-'
  {
  }

  /** int(s) is the number that s stands for, and raises exactly when there is none. */
  lemma ParseIntMeaning(s: string, n: int)
    ensures ParseInt(s) == Some(n) <==> Denotes(s, n)
  {
    hide ParseSigned, Strip, PlaceValue, Signed;
    if Denotes(s, n) {
      var lead: string, sign: string, digits: string, trail: string :|
        HasParts(s, lead, sign, digits, trail) && n == Signed(sign, PlaceValue(digits));
      SignedIsTrimmed(sign, digits);
      hide IsNumeral;
      StripBetween(lead, sign + digits, trail, IsBlank);
      SignedMeaning(sign, digits);
    }
    if ParseInt(s) == Some(n) {
      var lead, trail := StripParts(s, IsBlank);
      var sign, digits := SignedParts(Strip(s, IsBlank), n);
      hide IsNumeral;
      assert HasParts(s, lead, sign, digits, trail);
    }
  }
}
