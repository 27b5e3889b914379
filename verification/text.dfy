/**
 * The two string conversions the manifest parser applies to attribute text:
 * `str.lower()` on the digest and `int(...)` on the size.
 */
module Text {
  import opened Wrappers

  predicate IsUpper(c: char) {
    'A' <= c <= 'Z'
  }

  /** No upper-case ASCII letter anywhere in `s`. */
  predicate IsLowerCase(s: string) {
    forall i :: 0 <= i < |s| ==> !IsUpper(s[i])
  }

  function LowerChar(c: char): char {
    if IsUpper(c) then (c as int - 'A' as int + 'a' as int) as char else c
  }

  /** `s.lower()`, restricted to ASCII letters. */
  function Lower(s: string): (r: string)
    ensures |r| == |s|
    ensures IsLowerCase(r)
    ensures forall i :: 0 <= i < |s| && !IsUpper(s[i]) ==> r[i] == s[i]
    ensures forall i :: 0 <= i < |s| && IsUpper(s[i]) ==> r[i] as int == s[i] as int + 32
  {
    if s == [] then [] else [LowerChar(s[0])] + Lower(s[1..])
  }

  predicate IsDigit(c: char) {
    '0' <= c <= '9'
  }

  /** The white space `int()` strips around its argument (ASCII part; 11 and 12 are the vertical tab and the form feed). */
  predicate IsSpace(c: char) {
    c == ' ' || c == '\t' || c == '\n' || c == '\r' || c as int == 11 || c as int == 12
  }

  function StripLeft(s: string): string {
    if s != [] && IsSpace(s[0]) then StripLeft(s[1..]) else s
  }

  function StripRight(s: string): string {
    if s != [] && IsSpace(s[|s| - 1]) then StripRight(s[..|s| - 1]) else s
  }

  /**
   * Decimal digits, with single underscores allowed between two digits:
   * the digit part `int()` accepts.
   */
  predicate WellFormedDigits(s: string) {
    && |s| > 0
    && IsDigit(s[0])
    && forall i :: 0 <= i < |s| ==> IsDigit(s[i]) || (s[i] == '_' && i + 1 < |s| && IsDigit(s[i + 1]))
  }

  /** The value of a digit string, underscores skipped. */
  function DigitsValue(s: string): nat {
    if s == [] then 0
    else if IsDigit(s[|s| - 1]) then 10 * DigitsValue(s[..|s| - 1]) + (s[|s| - 1] as int - '0' as int)
    else DigitsValue(s[..|s| - 1])
  }

  /**
   * `int(text)` for a string argument: surrounding white space, an optional
   * sign, then digits; None where Python raises ValueError.
   */
  function ParseInt(text: string): Option<int> {
    ParseSigned(StripRight(StripLeft(text)))
  }

  /** An optional sign followed by digits, nothing else. */
  function ParseSigned(t: string): Option<int> {
    if |t| > 0 && (t[0] == '-' || t[0] == '+') then
      if WellFormedDigits(t[1..]) then
        var magnitude: int := DigitsValue(t[1..]);
        Some(if t[0] == '-' then -magnitude else magnitude)
      else None
    else if WellFormedDigits(t) then Some(DigitsValue(t))
    else None
  }

  function DigitChar(d: nat): char
    requires d < 10
  {
    ('0' as int + d) as char
  }

  /** Decimal rendering of a natural number, `str(n)`. */
  function ShowNat(n: nat): (s: string)
    ensures |s| > 0 && forall i :: 0 <= i < |s| ==> IsDigit(s[i])
  {
    if n < 10 then [DigitChar(n)] else ShowNat(n / 10) + [DigitChar(n % 10)]
  }

  /** Decimal rendering of an integer, `str(i)`. */
  function ShowInt(i: int): string {
    if i < 0 then "-" + ShowNat(-i) else ShowNat(i)
  }

  lemma {:induction false} DigitsValueShowNat(n: nat)
    ensures DigitsValue(ShowNat(n)) == n
  {
    if n >= 10 {
      DigitsValueShowNat(n / 10);
      var s := ShowNat(n);
      assert s[..|s| - 1] == ShowNat(n / 10);
    }
  }

  /** Text without surrounding white space is left alone by the stripping step. */
  lemma StripNothing(s: string)
    requires s != [] && !IsSpace(s[0]) && !IsSpace(s[|s| - 1])
    ensures StripRight(StripLeft(s)) == s
  {
  }

  lemma ParseSignedNegative(n: nat)
    requires n > 0
    ensures ParseSigned("-" + ShowNat(n)) == Some(-(n as int))
  {
    var digits := ShowNat(n);
    assert ("-" + digits)[1..] == digits;
    DigitsValueShowNat(n);
  }

  lemma ParseSignedNatural(n: nat)
    ensures ParseSigned(ShowNat(n)) == Some(n)
  {
    DigitsValueShowNat(n);
  }

  /** `int()` reads back every integer `str()` writes. */
  lemma ParseShowRoundTrip(i: int)
    ensures ParseInt(ShowInt(i)) == Some(i)
  {
    StripNothing(ShowInt(i));
    if i < 0 {
      ParseSignedNegative(-i);
    } else {
      ParseSignedNatural(i);
    }
  }
}
