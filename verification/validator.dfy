/**
 * The rule predicates the HIT validation uses (`notNull`, `isAlphanumeric`,
 * `isInt`, `len`). The validator inspects the string form of a value, with
 * `undefined` rendered as the empty string.
 */
module Validator {
  import opened Wrappers

  /** The string a rule inspects for a string attribute. */
  function Subject(o: Option<string>): string {
    if o.Some? then o.value else ""
  }

  /** The string a rule inspects for an integer attribute: the text JavaScript gives the number. */
  function IntSubject(o: Option<int>): string {
    if o.Some? then NumberText(o.value) else ""
  }

  predicate IsDigit(c: char) {
    '0' <= c <= '9'
  }

  predicate IsAlphanumericChar(c: char) {
    IsDigit(c) || 'a' <= c <= 'z' || 'A' <= c <= 'Z'
  }

  /** `notNull`: the subject is not empty. */
  predicate NotNull(s: string) {
    s != ""
  }

  /** `isAlphanumeric`: one or more ASCII letters and digits. */
  predicate IsAlphanumeric(s: string) {
    |s| > 0 && forall i :: 0 <= i < |s| ==> IsAlphanumericChar(s[i])
  }

  /** Digits with no leading zero, or the single digit zero. */
  predicate IsUnsigned(s: string) {
    && |s| > 0
    && (forall i :: 0 <= i < |s| ==> IsDigit(s[i]))
    && (s[0] == '0' ==> |s| == 1)
  }

  /** `isInt`: an optional minus sign followed by an unsigned integer. */
  predicate IsInt(s: string) {
    if |s| > 0 && s[0] == '-' then IsUnsigned(s[1..]) else IsUnsigned(s)
  }

  /**
   * A string's JavaScript `length`: its count of UTF-16 code units, where a
   * character outside the Basic Multilingual Plane takes two.
   */
  function Utf16Length(s: string): nat
    decreases |s|
  {
    if |s| == 0 then 0
    else Utf16Length(s[..|s| - 1]) + (if s[|s| - 1] as int > 0xFFFF then 2 else 1)
  }

  /** A string has at least as many code units as characters, and at most twice as many. */
  lemma {:induction false} Utf16LengthBounds(s: string)
    ensures |s| <= Utf16Length(s) <= 2 * |s|
    ensures Utf16Length(s) == |s| <==> forall i :: 0 <= i < |s| ==> s[i] as int <= 0xFFFF
    decreases |s|
  {
    if |s| > 0 {
      var init := s[..|s| - 1];
      Utf16LengthBounds(init);
      assert forall i :: 0 <= i < |init| ==> init[i] == s[i];
    }
  }

  /** `len(min, max)`: the subject's JavaScript length lies in [min, max]. */
  predicate Len(s: string, min: nat, max: nat) {
    min <= Utf16Length(s) <= max
  }

  function DigitChar(d: nat): (c: char)
    requires d < 10
    ensures IsDigit(c)
    ensures c == '0' <==> d == 0
  {
    (d + '0' as int) as char
  }

  /** The decimal digits of a natural number, most significant first. */
  function Digits(n: nat): string
    decreases n
  {
    if n < 10 then [DigitChar(n)] else Digits(n / 10) + [DigitChar(n % 10)]
  }

  /** The plain decimal form of an integer. */
  function DecimalText(n: int): string {
    if n < 0 then "-" + Digits(-n) else Digits(n)
  }

  /** From 10^21 in magnitude on, JavaScript renders a number in exponent form (ECMA-262, Number::toString). */
  const ExponentThreshold: int := 1_000_000_000_000_000_000_000

  predicate InDecimalRange(n: int) {
    -ExponentThreshold < n < ExponentThreshold
  }

  function TrimTrailingZeros(s: string): string
    decreases |s|
  {
    if |s| > 0 && s[|s| - 1] == '0' then TrimTrailingZeros(s[..|s| - 1]) else s
  }

  /** `d[.ddd]e+k`: the exponent form of a magnitude of at least 10^21. */
  function ExponentText(m: nat): (s: string)
    requires m >= ExponentThreshold
    ensures 'e' in s
  {
    DigitsAreUnsigned(m);
    var digits := Digits(m);
    var fraction := TrimTrailingZeros(digits[1..]);
    var mantissa := [digits[0]] + (if fraction == "" then "" else "." + fraction);
    var s := mantissa + "e+" + Digits(|digits| - 1);
    assert s[|mantissa|] == 'e';
    s
  }

  /** The text JavaScript gives an integer: plain decimal below 10^21 in magnitude, exponent form from there on. */
  function NumberText(n: int): string {
    if InDecimalRange(n) then DecimalText(n)
    else if n < 0 then "-" + ExponentText(-n)
    else ExponentText(n)
  }

  /** Text with an exponent marker is not an integer. */
  lemma ExponentIsNotInt(s: string)
    requires 'e' in s
    ensures !IsInt(s)
  {
    var i :| 0 <= i < |s| && s[i] == 'e';
    if |s| > 0 && s[0] == '-' {
      assert s[1..][i - 1] == 'e';
    }
  }

  /** The digits of `n` are an unsigned integer, with a leading zero only for zero. */
  lemma {:induction false} DigitsAreUnsigned(n: nat)
    ensures IsUnsigned(Digits(n))
    ensures Digits(n)[0] == '0' <==> n == 0
  {
    if n >= 10 {
      DigitsAreUnsigned(n / 10);
      var s := Digits(n / 10) + [DigitChar(n % 10)];
      assert s[0] == Digits(n / 10)[0];
      forall i | 0 <= i < |s|
        ensures IsDigit(s[i])
      {
        if i < |Digits(n / 10)| {
          assert s[i] == Digits(n / 10)[i];
        }
      }
    }
  }

  /** The plain decimal form of every integer passes `isInt`. */
  lemma DecimalTextIsInt(n: int)
    ensures IsInt(DecimalText(n))
  {
    if n < 0 {
      DigitsAreUnsigned(-n);
      assert DecimalText(n)[1..] == Digits(-n);
    } else {
      DigitsAreUnsigned(n);
    }
  }

  /** An integer attribute passes `isInt` exactly when it is present and below 10^21 in magnitude. */
  lemma IntSubjectIsInt(o: Option<int>)
    ensures IsInt(IntSubject(o)) <==> o.Some? && InDecimalRange(o.value)
  {
    if o.Some? {
      var n := o.value;
      if InDecimalRange(n) {
        DecimalTextIsInt(n);
      } else if n < 0 {
        var e := ExponentText(-n);
        assert ("-" + e)[1..] == e;
        ExponentIsNotInt("-" + e);
      } else {
        ExponentIsNotInt(ExponentText(n));
      }
    }
  }
}
