/** The number literals of a JSON text (section 6 of RFC 8259): where one ends, and which of
    them denote floating-point numbers. */
module Numerals {

  predicate IsDigit(c: char) {
    '0' <= c <= '9'
  }

  /** The length of the leading run of digits. */
  function Digits(s: string): (n: nat)
    ensures n <= |s| && forall i :: 0 <= i < n ==> IsDigit(s[i])
    ensures n < |s| ==> !IsDigit(s[n])
  {
    if s != "" && IsDigit(s[0]) then 1 + Digits(s[1..]) else 0
  }

  /** The length of the leading integer, sign included; zero when there is none. A leading
      zero ends the integer. */
  function IntegerLength(s: string): (n: nat)
    ensures n <= |s|
  {
    var sign := if s != "" && s[0] == '-' then 1 else 0;
    var t := s[sign..];
    if t == "" || !IsDigit(t[0]) then 0
    else if t[0] == '0' then sign + 1
    else sign + Digits(t)
  }

  function FractionLength(s: string): (n: nat)
    ensures n <= |s|
  {
    if |s| >= 2 && s[0] == '.' && IsDigit(s[1]) then 1 + Digits(s[1..]) else 0
  }

  function ExponentLength(s: string): (n: nat)
    ensures n <= |s|
  {
    if s == "" || (s[0] != 'e' && s[0] != 'E') then 0
    else
      var sign := if |s| >= 2 && (s[1] == '+' || s[1] == '-') then 1 else 0;
      var digits := Digits(s[1 + sign..]);
      if digits == 0 then 0 else 1 + sign + digits
  }

  /** The length of a fraction and an exponent, either of which may be missing. */
  function TailLength(s: string): (n: nat)
    ensures n <= |s|
  {
    FractionLength(s) + ExponentLength(s[FractionLength(s)..])
  }

  /** The length of the leading number with a fraction or an exponent; zero when there is none. */
  function FloatLength(s: string): (n: nat)
    ensures n <= |s|
  {
    var i := IntegerLength(s);
    var n := TailLength(s[i..]);
    if i == 0 || n == 0 then 0 else i + n
  }

  /** The words Python reads and writes for the values that are not finite. */
  predicate IsFloatWord(s: string) {
    s == "NaN" || s == "Infinity" || s == "-Infinity"
  }

  predicate IsFloatText(s: string) {
    IsFloatWord(s) || 0 < FloatLength(s) == |s|
  }

  type FloatText = s: string | IsFloatText(s) witness "NaN"

  /** What may follow a number without becoming part of it. */
  predicate EndsNumber(rest: string) {
    rest == "" || !(IsDigit(rest[0]) || rest[0] == '.' || rest[0] == 'e' || rest[0] == 'E')
  }

  // ---------------------------------------------------------------- what follows a number does not change it

  lemma {:induction false} DigitsBefore(t: string, rest: string)
    requires Digits(t) < |t| || rest == "" || !IsDigit(rest[0])
    ensures Digits(t + rest) == Digits(t)
  {
    if t == "" {
      assert t + rest == rest;
    } else {
      assert (t + rest)[1..] == t[1..] + rest;
      if IsDigit(t[0]) {
        DigitsBefore(t[1..], rest);
      }
    }
  }

  lemma {:induction false} DigitsPrefix(s: string, n: nat)
    requires Digits(s) <= n <= |s|
    ensures Digits(s[..n]) == Digits(s)
  {
    if s != "" && IsDigit(s[0]) {
      assert s[..n][1..] == s[1..][..n - 1];
      DigitsPrefix(s[1..], n - 1);
    }
  }

  lemma {:induction false} IntegerBefore(t: string, rest: string)
    requires 0 < IntegerLength(t) && EndsNumber(rest)
    ensures IntegerLength(t + rest) == IntegerLength(t)
  {
    var sign := if t[0] == '-' then 1 else 0;
    assert (t + rest)[sign..] == t[sign..] + rest;
    DigitsBefore(t[sign..], rest);
  }

  lemma {:induction false} FractionBefore(t: string, rest: string)
    requires EndsNumber(rest) && (t == "" || 0 < FractionLength(t) || |t| >= 2)
    ensures FractionLength(t + rest) == FractionLength(t)
  {
    if t == "" {
      assert t + rest == rest;
    } else {
      assert (t + rest)[1..] == t[1..] + rest;
      DigitsBefore(t[1..], rest);
    }
  }

  lemma {:induction false} ExponentBefore(t: string, rest: string)
    requires EndsNumber(rest) && (t == "" || 0 < ExponentLength(t))
    ensures ExponentLength(t + rest) == ExponentLength(t)
  {
    if t == "" {
      assert t + rest == rest;
    } else {
      var sign := if |t| >= 2 && (t[1] == '+' || t[1] == '-') then 1 else 0;
      assert (t + rest)[1 + sign..] == t[1 + sign..] + rest;
      DigitsBefore(t[1 + sign..], rest);
    }
  }

  lemma {:induction false} TailBefore(t: string, rest: string)
    requires 0 < TailLength(t) == |t| && EndsNumber(rest)
    ensures TailLength(t + rest) == |t|
  {
    var f := FractionLength(t);
    FractionBefore(t, rest);
    assert (t + rest)[f..] == t[f..] + rest;
    ExponentBefore(t[f..], rest);
  }

  /** A floating-point literal is read whole, whatever legitimately follows it. */
  lemma {:induction false} FloatBefore(t: string, rest: string)
    requires 0 < FloatLength(t) == |t| && EndsNumber(rest)
    ensures FloatLength(t + rest) == |t|
  {
    var i := IntegerLength(t);
    IntegerBefore(t, rest);
    assert (t + rest)[i..] == t[i..] + rest;
    TailBefore(t[i..], rest);
  }

  lemma {:induction false} IntegerPrefix(s: string, n: nat)
    requires IntegerLength(s) <= n <= |s|
    ensures IntegerLength(s[..n]) == IntegerLength(s)
  {
    var sign := if s != "" && s[0] == '-' then 1 else 0;
    if 0 < IntegerLength(s) {
      assert s[..n][sign..] == s[sign..][..n - sign];
      if s[sign] != '0' {
        DigitsPrefix(s[sign..], n - sign);
      }
    } else if n > sign {
      assert s[..n][sign..][0] == s[sign..][0];
    }
  }

  lemma {:induction false} FractionPrefix(s: string, n: nat)
    requires FractionLength(s) <= n <= |s|
    ensures FractionLength(s[..n]) == FractionLength(s)
  {
    if 0 < FractionLength(s) {
      assert s[..n][1..] == s[1..][..n - 1];
      DigitsPrefix(s[1..], n - 1);
    }
  }

  lemma {:induction false} ExponentPrefix(s: string)
    ensures ExponentLength(s[..ExponentLength(s)]) == ExponentLength(s)
  {
    var n := ExponentLength(s);
    if 0 < n {
      var sign := if |s| >= 2 && (s[1] == '+' || s[1] == '-') then 1 else 0;
      assert s[..n][1 + sign..] == s[1 + sign..][..n - 1 - sign];
      DigitsPrefix(s[1 + sign..], n - 1 - sign);
    }
  }

  lemma {:induction false} TailPrefix(s: string)
    ensures TailLength(s[..TailLength(s)]) == TailLength(s)
  {
    var n, f := TailLength(s), FractionLength(s);
    FractionPrefix(s, n);
    assert s[..n][f..] == s[f..][..n - f];
    ExponentPrefix(s[f..]);
  }

  lemma {:induction false} Slices(s: string, i: nat, n: nat)
    requires i <= n <= |s|
    ensures s[..n][i..] == s[i..][..n - i]
  {}

  /** What is read as a floating-point number is a floating-point literal. */
  lemma {:induction false} FloatPrefix(s: string)
    requires 0 < FloatLength(s)
    ensures FloatLength(s[..FloatLength(s)]) == FloatLength(s)
  {
    var n, i := FloatLength(s), IntegerLength(s);
    IntegerPrefix(s, n);
    TailPrefix(s[i..]);
    Slices(s, i, n);
  }

  /** An integer literal is not read as a floating-point one. */
  lemma {:induction false} IntegerIsNoFloat(t: string, rest: string)
    requires 0 < IntegerLength(t) == |t| && EndsNumber(rest)
    ensures FloatLength(t + rest) == 0
  {
    IntegerBefore(t, rest);
    assert (t + rest)[|t|..] == rest;
  }

  predicate NumeralChar(c: char) {
    IsDigit(c) || c == '-' || c == '+' || c == '.' || c == 'e' || c == 'E'
  }

  lemma {:induction false} TailChars(s: string)
    ensures forall i :: 0 <= i < TailLength(s) ==> NumeralChar(s[i])
  {
    var f := FractionLength(s);
    var t := s[f..];
    var sign := if |t| >= 2 && (t[1] == '+' || t[1] == '-') then 1 else 0;
    forall i | 0 <= i < f ensures NumeralChar(s[i]) {
      assert i > 0 ==> s[i] == s[1..][i - 1];
    }
    forall i | 0 <= i < ExponentLength(t) ensures NumeralChar(t[i]) {
      assert i > sign ==> t[i] == t[1 + sign..][i - 1 - sign];
    }
    assert forall i :: f <= i < TailLength(s) ==> s[i] == t[i - f];
  }

  lemma {:induction false} FloatChars(t: string)
    requires 0 < FloatLength(t) == |t|
    ensures forall c <- t :: NumeralChar(c)
  {
    var i := IntegerLength(t);
    var sign := if t[0] == '-' then 1 else 0;
    TailChars(t[i..]);
    forall k | 0 <= k < |t| ensures NumeralChar(t[k]) {
      assert sign <= k < i ==> t[k] == t[sign..][k - sign];
      assert i <= k ==> t[k] == t[i..][k - i];
    }
  }
}
