/** The part of JavaScript's `Number(string)` coercion and of number-to-string
    rendering that the converter relies on, over exact `real`s. `None` stands
    for NaN. */
module Numbers {
  import opened Wrappers

  predicate IsDigit(c: char) {
    '0' <= c <= '9'
  }

  predicate AllDigits(s: string) {
    forall i :: 0 <= i < |s| ==> IsDigit(s[i])
  }

  function DigitValue(c: char): nat
    requires IsDigit(c)
  {
    c as int - '0' as int
  }

  function DigitChar(d: nat): (c: char)
    requires d < 10
    ensures IsDigit(c) && DigitValue(c) == d
  {
    ('0' as int + d) as char
  }

  /** Value of a decimal numeral, most significant digit first. */
  function DigitsValue(s: string): nat
    requires AllDigits(s)
    decreases |s|
  {
    if |s| == 0 then 0 else 10 * DigitsValue(s[..|s| - 1]) + DigitValue(s[|s| - 1])
  }

  function Pow10(n: nat): (p: nat)
    ensures p >= 1
  {
    if n == 0 then 1 else 10 * Pow10(n - 1)
  }

  /** `s.indexOf(c)`: the first position of `c` in `s`, or -1. */
  function IndexOf(s: string, c: char): (i: int)
    ensures -1 <= i < |s|
    ensures i >= 0 ==> s[i] == c && forall j :: 0 <= j < i ==> s[j] != c
    ensures i == -1 ==> forall j :: 0 <= j < |s| ==> s[j] != c
  {
    if |s| == 0 then -1
    else if s[0] == c then 0
    else
      var k := IndexOf(s[1..], c);
      if k == -1 then -1 else k + 1
  }

  /** An unsigned decimal numeral: `ddd`, `ddd.`, `ddd.ddd` or `.ddd`. */
  function ParseUnsigned(s: string): Option<real>
  {
    var dot := IndexOf(s, '.');
    var intPart := if dot < 0 then s else s[..dot];
    var fracPart := if dot < 0 then "" else s[dot + 1..];
    if AllDigits(intPart) && AllDigits(fracPart) && |intPart| + |fracPart| > 0 then
      Some(DigitsValue(intPart) as real + DigitsValue(fracPart) as real / Pow10(|fracPart|) as real)
    else
      None
  }

  /** `Number(s)` for a string: the empty string is 0, an optional sign may
      precede an unsigned decimal numeral, anything else is NaN (`None`). */
  function ParseNumber(s: string): Option<real>
  {
    if |s| == 0 then Some(0.0)
    else if s[0] == '-' then
      match ParseUnsigned(s[1..])
      case Some(v) => Some(-v)
      case None => None
    else if s[0] == '+' then ParseUnsigned(s[1..])
    else ParseUnsigned(s)
  }

  /** `Number(x)` where `x` is an attribute value that may be undefined. */
  function NumberOf(a: Option<string>): Option<real>
  {
    match a
    case None => None
    case Some(s) => ParseNumber(s)
  }

  /** JavaScript truthiness of a number: neither NaN nor zero. */
  predicate NumberTruthy(x: Option<real>) {
    x.Some? && x.value != 0.0
  }

  predicate IsInteger(x: real) {
    x.Floor as real == x
  }

  /** `n.toString()` for a natural number. */
  function NatToString(n: nat): (s: string)
    decreases n
  {
    if n < 10 then [DigitChar(n)] else NatToString(n / 10) + [DigitChar(n % 10)]
  }

  /** `i.toString()` for an integer. */
  function IntToString(i: int): string
  {
    if i < 0 then "-" + NatToString(-i) else NatToString(i)
  }

  lemma {:induction false} NatToStringIsNumeral(n: nat)
    ensures |NatToString(n)| > 0 && AllDigits(NatToString(n))
    ensures DigitsValue(NatToString(n)) == n
    decreases n
  {
    if n >= 10 {
      NatToStringIsNumeral(n / 10);
      var s := NatToString(n);
      assert s[..|s| - 1] == NatToString(n / 10);
    }
  }

  /** Rendering a natural number and reading it back with `Number` is the identity. */
  lemma ParseNatToString(n: nat)
    ensures ParseNumber(NatToString(n)) == Some(n as real)
  {
    NatToStringIsNumeral(n);
    var s := NatToString(n);
    assert IsDigit(s[0]);
    assert !IsDigit('.');
    assert forall j :: 0 <= j < |s| ==> s[j] != '.';
  }

  lemma IntToStringSign(x: int)
    ensures |IntToString(x)| > 0
    ensures IntToString(x)[0] == '-' <==> x < 0
  {
    NatToStringIsNumeral(if x < 0 then -x else x);
    if x >= 0 {
      assert IsDigit(NatToString(x)[0]);
    }
  }

  /** Rendering is injective, so distinct numbers never share a key. */
  lemma IntToStringInjective(a: int, b: int)
    requires IntToString(a) == IntToString(b)
    ensures a == b
  {
    IntToStringSign(a);
    IntToStringSign(b);
    if a < 0 {
      assert NatToString(-a) == IntToString(a)[1..] == IntToString(b)[1..] == NatToString(-b);
      NatToStringIsNumeral(-a);
      NatToStringIsNumeral(-b);
    } else {
      NatToStringIsNumeral(a);
      NatToStringIsNumeral(b);
    }
  }

  /** `Number(c)` of a one-character string is a non-zero number exactly when
      `c` is one of the digits 1 to 9, and it is then that digit's value. */
  lemma ParseOneChar(c: char)
    ensures NumberTruthy(ParseNumber([c])) <==> IsDigit(c) && c != '0'
    ensures IsDigit(c) ==> ParseNumber([c]) == Some(DigitValue(c) as real)
  {
    var s := [c];
    if IsDigit(c) {
      assert IndexOf(s, '.') == -1;
      assert s[..|s| - 1] == [];
    } else if c == '.' {
      assert IndexOf(s, '.') == 0;
    } else if c != '-' && c != '+' {
      assert IndexOf(s, '.') == -1;
    }
  }

  /** The array index a JavaScript number names: a non-negative integer. Any
      other number names a property no array element has. */
  function NumberIndex(x: Option<real>): (k: Option<nat>)
    ensures k.Some? <==> x.Some? && IsInteger(x.value) && x.value >= 0.0
    ensures k.Some? ==> k.value as real == x.value
  {
    if x.Some? && IsInteger(x.value) && x.value >= 0.0 then Some(x.value.Floor as nat) else None
  }

  /** A decimal numeral as `toString` writes it: digits only, and no leading
      zero unless it is "0". */
  predicate Canonical(s: string) {
    |s| > 0 && AllDigits(s) && (|s| == 1 || s[0] != '0')
  }

  /** The array index a string property name denotes: only canonical numerals
      do, so "1" is element 1 while "01" and "1.0" are other properties. */
  function StringIndex(s: string): (k: Option<nat>)
  {
    if Canonical(s) then Some(DigitsValue(s)) else None
  }

  lemma {:induction false} LeadingDigitBound(s: string)
    requires |s| > 0 && AllDigits(s) && s[0] != '0'
    ensures DigitsValue(s) >= 1
    decreases |s|
  {
    if |s| > 1 {
      LeadingDigitBound(s[..|s| - 1]);
    }
  }

  lemma {:induction false} CanonicalIsNatToString(s: string)
    requires Canonical(s)
    ensures NatToString(DigitsValue(s)) == s
    decreases |s|
  {
    if |s| > 1 {
      var init := s[..|s| - 1];
      assert Canonical(init);
      CanonicalIsNatToString(init);
      LeadingDigitBound(init);
      var n := DigitsValue(s);
      assert n / 10 == DigitsValue(init) && n % 10 == DigitValue(s[|s| - 1]);
      assert s == init + [s[|s| - 1]];
    }
  }

  /** A string names array element `n` exactly when it is `n.toString()`. */
  lemma StringIndexIff(s: string, n: nat)
    ensures StringIndex(s) == Some(n) <==> s == NatToString(n)
  {
    if StringIndex(s) == Some(n) {
      CanonicalIsNatToString(s);
    }
    if s == NatToString(n) {
      NatToStringIsNumeral(n);
      NatToStringCanonical(n);
    }
  }

  lemma {:induction false} NatToStringCanonical(n: nat)
    ensures Canonical(NatToString(n))
    decreases n
  {
    NatToStringIsNumeral(n);
    if n >= 10 {
      NatToStringCanonical(n / 10);
      assert NatToString(n)[0] == NatToString(n / 10)[0];
    }
  }
}
