/** The JavaScript number conversions used by the invoice numbering:
    `Number.parseInt(text, 10)` and `String(n)` for an integer `n`.
    Numbers are unbounded integers here; `NaN` is `None`. */
module JsNumber {
  import opened Wrappers
  import opened JsString

  predicate IsDigit(c: char) {
    '0' <= c <= '9'
  }

  predicate AllDigits(s: string) {
    forall i :: 0 <= i < |s| ==> IsDigit(s[i])
  }

  function DigitValue(c: char): (d: nat)
    requires IsDigit(c)
    ensures d < 10
  {
    c as int - '0' as int
  }

  function DigitChar(d: nat): (c: char)
    requires d < 10
    ensures IsDigit(c) && DigitValue(c) == d
  {
    ('0' as int + d) as char
  }

  /** Value of a run of decimal digits, most significant digit first. */
  function DigitsValue(ds: string): nat
    requires AllDigits(ds)
  {
    if ds == [] then 0 else DigitsValue(ds[..|ds| - 1]) * 10 + DigitValue(ds[|ds| - 1])
  }

  /** The shortest decimal numeral of `n`: digits only, no leading zero
      unless the numeral is "0" itself, and reading it back gives `n`. */
  function NatToDecimal(n: nat): (s: string)
    ensures |s| >= 1 && AllDigits(s)
    ensures |s| > 1 ==> s[0] != '0'
    ensures DigitsValue(s) == n
  {
    if n < 10 then [DigitChar(n)]
    else
      var init := NatToDecimal(n / 10);
      var s := init + [DigitChar(n % 10)];
      assert s[..|s| - 1] == init;
      s
  }

  /** `String(n)` for an integer-valued number: a minus sign for negatives,
      then the decimal numeral of the magnitude. */
  function IntToString(n: int): (s: string)
    ensures |s| >= 1
    ensures n >= 0 ==> AllDigits(s) && DigitsValue(s) == n
    ensures n >= 0 && |s| > 1 ==> s[0] != '0'
    ensures n < 0 ==> s[0] == '-' && AllDigits(s[1..]) && DigitsValue(s[1..]) == -n
    ensures n < 0 ==> |s| >= 2 && s[1] != '0'
  {
    if n >= 0 then NatToDecimal(n) else "-" + NatToDecimal(-n)
  }

  /** The longest run of decimal digits at the start of `s`. */
  function DigitPrefix(s: string): (r: string)
    ensures |r| <= |s| && r == s[..|r|] && AllDigits(r)
    ensures |r| == |s| || !IsDigit(s[|r|])
  {
    if |s| > 0 && IsDigit(s[0]) then [s[0]] + DigitPrefix(s[1..]) else []
  }

  /** What `parseInt` reads after the leading white space: the text with one
      leading `+` or `-` removed. */
  function Unsigned(s: string): string {
    var t := TrimStart(s);
    if |t| > 0 && (t[0] == '-' || t[0] == '+') then t[1..] else t
  }

  predicate IsNegated(s: string) {
    var t := TrimStart(s);
    |t| > 0 && t[0] == '-'
  }

  /** `Number.parseInt(s, 10)`: skip leading white space, take an optional
      sign, then the maximal run of decimal digits; `NaN` when that run is
      empty. A radix of 10 disables the `0x` prefix, so "0x1" reads as 0. */
  function ParseInt(s: string): (r: Option<int>)
    ensures r.None? <==> Unsigned(s) == [] || !IsDigit(Unsigned(s)[0])
    ensures r.Some? && !IsNegated(s) ==> r.value >= 0
  {
    var ds := DigitPrefix(Unsigned(s));
    var magnitude: int := if ds == [] then 0 else DigitsValue(ds);
    if ds == [] then None
    else if IsNegated(s) then Some(-magnitude)
    else Some(magnitude)
  }

  lemma {:induction false} DigitPrefixOfDigits(ds: string, rest: string)
    requires AllDigits(ds)
    requires rest == [] || !IsDigit(rest[0])
    ensures DigitPrefix(ds + rest) == ds
  {
    if ds == [] {
      assert ds + rest == rest;
    } else {
      assert (ds + rest)[1..] == ds[1..] + rest;
      DigitPrefixOfDigits(ds[1..], rest);
    }
  }

  lemma {:induction false} ZerosValue(z: string)
    requires forall i :: 0 <= i < |z| ==> z[i] == '0'
    ensures AllDigits(z) && DigitsValue(z) == 0
  {
    if z != [] {
      ZerosValue(z[..|z| - 1]);
    }
  }

  /** Leading zeros do not change the value of a numeral. */
  lemma {:induction false} LeadingZerosValue(z: string, ds: string)
    requires forall i :: 0 <= i < |z| ==> z[i] == '0'
    requires AllDigits(ds)
    ensures AllDigits(z + ds) && DigitsValue(z + ds) == DigitsValue(ds)
  {
    ZerosValue(z);
    assert AllDigits(z + ds) by {
      forall i | 0 <= i < |z + ds| ensures IsDigit((z + ds)[i]) {
        if i >= |z| { assert (z + ds)[i] == ds[i - |z|]; }
      }
    }
    if ds == [] {
      assert z + ds == z;
    } else {
      var init := ds[..|ds| - 1];
      assert (z + ds)[..|z + ds| - 1] == z + init;
      LeadingZerosValue(z, init);
    }
  }

  /** A digit run followed by anything that is not a digit parses to the
      value of the run. */
  lemma ParseIntStopsAtNonDigit(ds: string, rest: string)
    requires ds != [] && AllDigits(ds)
    requires rest == [] || !IsDigit(rest[0])
    ensures ParseInt(ds + rest) == Some(DigitsValue(ds))
  {
    var s := ds + rest;
    assert s[0] == ds[0];
    assert TrimStart(s) == s;
    assert Unsigned(s) == s;
    DigitPrefixOfDigits(ds, rest);
  }

  /** White space in front of the number is skipped. */
  lemma ParseIntSkipsWhitespace(p: string, s: string)
    requires AllWhitespace(p)
    ensures ParseInt(p + s) == ParseInt(s)
  {
    TrimStartSkipsWhitespace(p, s);
    assert Unsigned(p + s) == Unsigned(s);
    assert IsNegated(p + s) == IsNegated(s);
  }

  /** A sign after optional white space, then a digit run ended by a
      non-digit: `-` negates the run's value and `+` keeps it. */
  lemma {:induction false} ParseIntSigned(p: string, ds: string, rest: string)
    requires AllWhitespace(p)
    requires ds != [] && AllDigits(ds)
    requires rest == [] || !IsDigit(rest[0])
    ensures ParseInt(p + "-" + ds + rest) == Some(-(DigitsValue(ds) as int))
    ensures ParseInt(p + "+" + ds + rest) == Some(DigitsValue(ds) as int)
  {
    assert "-" == ['-'] && "+" == ['+'];
    ParseIntAfterSign(p, '-', ds, rest);
    assert SignedValue('-', ds) == Some(-(DigitsValue(ds) as int));
    ParseIntAfterSign(p, '+', ds, rest);
    assert SignedValue('+', ds) == Some(DigitsValue(ds) as int);
  }

  lemma {:induction false} ParseIntAfterSign(p: string, sign: char, ds: string, rest: string)
    requires AllWhitespace(p) && (sign == '-' || sign == '+')
    requires ds != [] && AllDigits(ds)
    requires rest == [] || !IsDigit(rest[0])
    ensures ParseInt(p + [sign] + ds + rest) == SignedValue(sign, ds)
  {
    var t := [sign] + (ds + rest);
    Associate([sign], ds, rest);
    Associate(p, [sign] + ds, rest);
    Associate(p, [sign], ds);
    ParseIntSkipsWhitespace(p, t);
    ParseIntSignedRun(sign, ds, rest);
  }

  /** The value a sign gives a digit run. */
  function SignedValue(sign: char, ds: string): Option<int>
    requires AllDigits(ds)
  {
    if sign == '-' then Some(-(DigitsValue(ds) as int)) else Some(DigitsValue(ds) as int)
  }

  lemma {:induction false} ParseIntSignedRun(sign: char, ds: string, rest: string)
    requires sign == '-' || sign == '+'
    requires ds != [] && AllDigits(ds)
    requires rest == [] || !IsDigit(rest[0])
    ensures ParseInt([sign] + (ds + rest)) == SignedValue(sign, ds)
  {
    var t := [sign] + (ds + rest);
    assert TrimStart(t) == t;
    assert t[1..] == ds + rest;
    DigitPrefixOfDigits(ds, rest);
  }

  /** The decimal numeral of `n` has one character below 10, two below 100,
      and at least three from 100 on. */
  lemma {:induction false} DecimalLength(n: nat)
    ensures n < 10 ==> |NatToDecimal(n)| == 1
    ensures 10 <= n < 100 ==> |NatToDecimal(n)| == 2
    ensures n >= 100 ==> |NatToDecimal(n)| >= 3
  {
    if n >= 10 {
      DecimalLength(n / 10);
    }
  }

  /** `parseInt` reads back what `String` writes, for every integer. */
  lemma ParseIntOfString(n: int)
    ensures ParseInt(IntToString(n)) == Some(n)
  {
    var s := IntToString(n);
    if n >= 0 {
      assert s + [] == s;
      ParseIntStopsAtNonDigit(s, []);
    } else {
      var d := NatToDecimal(-n);
      assert s == "-" + d;
      assert TrimStart(s) == s;
      assert Unsigned(s) == d;
      assert d + [] == d;
      DigitPrefixOfDigits(d, []);
    }
  }
}
