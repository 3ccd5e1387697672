/** The global `parseInt(string)` of section 19.2.5 of ECMA-262, called
    without a radix: leading white space is skipped, one sign is taken, a
    `0x`/`0X` prefix selects radix 16 (otherwise radix 10), and the longest
    run of digits that follows is read; no digit at all gives NaN. */
module JsParseInt {
  import opened Text

  /** What `parseInt` returns: always an integer-valued Number, or NaN. */
  datatype JsInt = Num(value: int) | NaN

  /** The value of `c` as a digit in radices up to 36; 36 for a non-digit. */
  function DigitValue(c: char): (d: nat)
    ensures d <= 36
    ensures '0' <= c <= '9' <==> d < 10
  {
    if '0' <= c <= '9' then c as int - '0' as int
    else if 'a' <= c <= 'z' then c as int - 'a' as int + 10
    else if 'A' <= c <= 'Z' then c as int - 'A' as int + 10
    else 36
  }

  predicate IsDigit(c: char, radix: nat) {
    DigitValue(c) < radix
  }

  /** No digit is white space. */
  lemma DigitIsVisible(c: char, radix: nat)
    requires radix <= 36 && IsDigit(c, radix)
    ensures !IsSpace(c)
  {
  }

  predicate AllDigits(s: string, radix: nat) {
    forall i :: 0 <= i < |s| ==> IsDigit(s[i], radix)
  }

  /** The length of the longest prefix of `s` made of radix-`radix` digits. */
  function DigitRun(s: string, radix: nat): (n: nat)
    ensures n <= |s|
    ensures AllDigits(s[..n], radix)
    ensures n < |s| ==> !IsDigit(s[n], radix)
  {
    if |s| == 0 || !IsDigit(s[0], radix) then 0
    else
      var m := DigitRun(s[1..], radix);
      assert s[..1 + m] == [s[0]] + s[1..][..m];
      1 + m
  }

  /** The mathematical value of a digit string, most significant digit first. */
  function DigitsValue(s: string, radix: nat): nat
    requires AllDigits(s, radix)
  {
    if |s| == 0 then 0
    else DigitsValue(s[..|s| - 1], radix) * radix + DigitValue(s[|s| - 1])
  }

  predicate HasHexPrefix(s: string) {
    |s| >= 2 && s[0] == '0' && (s[1] == 'x' || s[1] == 'X')
  }

  /** The text after an optional leading sign. */
  function AfterSign(s: string): string {
    if |s| > 0 && (s[0] == '-' || s[0] == '+') then s[1..] else s
  }

  /** -1 when `s` starts with a minus sign, 1 otherwise. */
  function SignOf(s: string): int {
    if |s| > 0 && s[0] == '-' then -1 else 1
  }

  /** The unsigned part of `parseInt`: radix selection and the digit run. */
  function ParseMagnitude(u: string): (r: JsInt)
    ensures r.Num? ==> r.value >= 0
  {
    var radix := if HasHexPrefix(u) then 16 else 10;
    var v := if HasHexPrefix(u) then u[2..] else u;
    var n := DigitRun(v, radix);
    if n == 0 then NaN else Num(DigitsValue(v[..n], radix))
  }

  /** `parseInt(input)`.  The model reads the digits exactly; a real engine
      rounds runs longer than 20 significant digits to the nearest Number,
      which keeps the sign and the comparison with 0 and 100 unchanged. */
  function ParseInt(input: string): (r: JsInt)
    ensures r.NaN? <==>
      var u := AfterSign(TrimStart(input));
      if HasHexPrefix(u) then |u| == 2 || !IsDigit(u[2], 16) else |u| == 0 || !IsDigit(u[0], 10)
    ensures r.Num? && r.value < 0 ==> |TrimStart(input)| > 0 && TrimStart(input)[0] == '-'
  {
    var s := TrimStart(input);
    match ParseMagnitude(AfterSign(s))
    case NaN => NaN
    case Num(m) => Num(SignOf(s) * m)
  }

  /** Without a digit right after the optional sign (or after a hex prefix),
      `parseInt` gives NaN, and otherwise a number. */
  lemma ParseIntNaN(input: string)
    ensures ParseInt(input).NaN? <==>
      var u := AfterSign(TrimStart(input));
      if HasHexPrefix(u) then |u| == 2 || !IsDigit(u[2], 16) else |u| == 0 || !IsDigit(u[0], 10)
  {
  }

  /** Reading back the decimal rendering of `n` gives `n`. */
  lemma {:induction false} DigitsValueOfShowNat(n: nat)
    ensures AllDigits(ShowNat(n), 10)
    ensures DigitsValue(ShowNat(n), 10) == n
  {
    var s := ShowNat(n);
    if n >= 10 {
      DigitsValueOfShowNat(n / 10);
      assert s[..|s| - 1] == ShowNat(n / 10);
    }
  }

  /** A run of decimal digits followed by text that does not continue the
      run is read as the run's value: trailing text is ignored. */
  lemma DecimalPrefix(d: string, t: string)
    requires |d| > 0 && AllDigits(d, 10)
    requires |t| == 0 || !IsDigit(t[0], 10)
    requires !HasHexPrefix(d + t)
    ensures ParseInt(d + t) == Num(DigitsValue(d, 10))
  {
    var s := d + t;
    assert s[0] == d[0];
    assert IsDigit(d[0], 10);
    DigitIsVisible(s[0], 10);
    TrimStartOfVisible(s);
    assert AfterSign(s) == s;
    DecimalRun(d, t);
    assert s[..|d|] == d;
  }

  lemma {:induction false} DecimalRun(d: string, t: string)
    requires AllDigits(d, 10)
    requires |t| == 0 || !IsDigit(t[0], 10)
    ensures DigitRun(d + t, 10) == |d|
  {
    if |d| > 0 {
      DecimalRun(d[1..], t);
      assert (d + t)[1..] == d[1..] + t;
    } else {
      assert d + t == t;
    }
  }

  /** `parseInt(String(n)) == n` for every non-negative integer. */
  lemma ParseShowNat(n: nat)
    ensures ParseInt(ShowNat(n)) == Num(n)
  {
    DigitsValueOfShowNat(n);
    DecimalPrefix(ShowNat(n), "");
    assert ShowNat(n) + "" == ShowNat(n);
  }

  /** A minus sign before decimal digits negates their value. */
  lemma ParseNegative(n: nat)
    ensures ParseInt("-" + ShowNat(n)) == Num(-(n as int))
  {
    var d := ShowNat(n);
    var s := "-" + d;
    DigitsValueOfShowNat(n);
    assert TrimStart(s) == s;
    assert AfterSign(s) == d;
    DecimalRun(d, "");
    assert d + "" == d;
    assert d[..|d|] == d;
  }

  /** `parseInt(String(i)) == i` for every integer. */
  lemma ParseShowInt(i: int)
    ensures ParseInt(ShowInt(i)) == Num(i)
  {
    if i >= 0 {
      ParseShowNat(i);
    } else {
      assert ShowInt(i) == "-" + ShowNat(-i);
      ParseNegative(-i);
    }
  }

  /** Decimal rendering is injective, so an identifier built from it names
      one number only. */
  lemma ShowNatInjective(a: nat, b: nat)
    ensures ShowNat(a) == ShowNat(b) ==> a == b
  {
    ParseShowNat(a);
    ParseShowNat(b);
  }
}
