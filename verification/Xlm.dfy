/** Amounts in stroops as decimal text in XLM, and back. */
module Xlm {
  import opened Wrappers

  const STROOPS_PER_XLM: nat := 10_000_000
  const DECIMALS: nat := 7

  // ----- Printing -----

  function Digit(d: nat): char
    requires d < 10
  {
    ('0' as int + d) as char
  }

  function ToString(n: nat): string {
    if n < 10 then [Digit(n)] else ToString(n / 10) + [Digit(n % 10)]
  }

  function Zeros(n: nat): string {
    if n == 0 then "" else Zeros(n - 1) + "0"
  }

  function PadStart(s: string, width: nat): string {
    if |s| >= width then s else Zeros(width - |s|) + s
  }

  /** Without its zeros at the end. */
  function Stripped(s: string): string {
    if s != [] && s[|s| - 1] == '0' then Stripped(s[..|s| - 1]) else s
  }

  function FormatXlm(stroops: int): string {
    var negative := stroops < 0;
    var abs := if negative then -stroops else stroops;
    var whole := abs / STROOPS_PER_XLM;
    var fraction := abs % STROOPS_PER_XLM;
    var fractionText := Stripped(PadStart(ToString(fraction), DECIMALS));
    var formatted := if fractionText != "" then ToString(whole) + "." + fractionText else ToString(whole);
    if negative then "-" + formatted else formatted
  }

  // ----- Reading -----

  predicate IsDigits(s: string) {
    forall i :: 0 <= i < |s| ==> '0' <= s[i] <= '9'
  }

  /** The number a text of digits stands for. */
  function Number(s: string): nat
    requires IsDigits(s)
  {
    if s == "" then 0 else Number(s[..|s| - 1]) * 10 + (s[|s| - 1] as int - '0' as int)
  }

  /** Where the point stands, or the length of the text. */
  function Point(s: string): (p: nat)
    ensures p <= |s| && (forall i :: 0 <= i < p ==> s[i] != '.') && (p < |s| ==> s[p] == '.')
  {
    if s == "" || s[0] == '.' then 0 else 1 + Point(s[1..])
  }

  /** A plain decimal number times ten million, where that is an integer. */
  function Parse(text: string): Option<int> {
    if text != "" && text[0] == '-' then
      match ParseUnsigned(text[1..])
      case None => None
      case Some(n) => Some(-n)
    else ParseUnsigned(text)
  }

  function ParseUnsigned(text: string): (r: Option<int>)
    ensures r.Some? ==> r.value >= 0
  {
    var p := Point(text);
    var whole := text[..p];
    if whole == "" || !IsDigits(whole) then None
    else if p == |text| then Some(Number(whole) * STROOPS_PER_XLM)
    else
      var fraction := text[p + 1..];
      if fraction == "" || |fraction| > DECIMALS || !IsDigits(fraction) then None
      else Some(Number(whole) * STROOPS_PER_XLM + Scale(Number(fraction), DECIMALS - |fraction|))
  }

  /** x times ten to the power n. */
  function Scale(x: nat, n: nat): nat {
    if n == 0 then x else 10 * Scale(x, n - 1)
  }

  // ----- Canonical texts -----

  /** Digits without a superfluous zero in front. */
  predicate IsWhole(s: string) {
    s != "" && IsDigits(s) && (s[0] == '0' ==> |s| == 1)
  }

  /** Up to seven digits, the last of them not zero. */
  predicate IsFraction(s: string) {
    0 < |s| <= DECIMALS && IsDigits(s) && s[|s| - 1] != '0'
  }

  predicate IsCanonicalUnsigned(s: string) {
    var p := Point(s);
    IsWhole(s[..p]) && (p < |s| ==> IsFraction(s[p + 1..]))
  }

  /** No leading or trailing zeros, and no minus sign before a zero. */
  predicate IsCanonical(text: string) {
    if text != "" && text[0] == '-' then text[1..] != "0" && IsCanonicalUnsigned(text[1..])
    else IsCanonicalUnsigned(text)
  }

  // ----- Digits and numbers -----

  lemma {:induction false} ToStringReads(n: nat)
    ensures IsWhole(ToString(n)) && Number(ToString(n)) == n
    ensures n > 0 ==> ToString(n)[0] != '0'
  {
    var s := ToString(n);
    if n >= 10 {
      ToStringReads(n / 10);
      assert s[..|s| - 1] == ToString(n / 10);
    }
  }

  lemma {:induction false} NumberPrints(s: string)
    requires IsWhole(s)
    ensures ToString(Number(s)) == s && (Number(s) == 0 ==> s == "0")
  {
    if |s| == 1 {
      assert s == [s[0]] && Number(s[..0]) == 0;
    } else {
      NumberPrints(s[..|s| - 1]);
    }
  }

  lemma {:induction false} ToStringFits(n: nat, width: nat)
    requires n < Scale(1, width) && width > 0
    ensures |ToString(n)| <= width
  {
    if n >= 10 {
      ToStringFits(n / 10, width - 1);
    }
  }

  /** Texts of digits of equal length and number are equal. */
  lemma {:induction false} NumberIsInjective(s: string, t: string)
    requires IsDigits(s) && IsDigits(t) && |s| == |t| && Number(s) == Number(t)
    ensures s == t
  {
    if s != "" {
      NumberIsInjective(s[..|s| - 1], t[..|t| - 1]);
      assert s == s[..|s| - 1] + [s[|s| - 1]] && t == t[..|t| - 1] + [t[|t| - 1]];
    }
  }

  lemma {:induction false} NumberFits(s: string)
    requires IsDigits(s)
    ensures Number(s) < Scale(1, |s|)
  {
    if s != "" {
      NumberFits(s[..|s| - 1]);
    }
  }

  lemma {:induction false} ZerosInFront(n: nat, s: string)
    requires IsDigits(s)
    ensures |Zeros(n)| == n && IsDigits(Zeros(n) + s) && Number(Zeros(n) + s) == Number(s)
  {
    var t := Zeros(n) + s;
    if s != "" {
      ZerosInFront(n, s[..|s| - 1]);
      assert t[..|t| - 1] == Zeros(n) + s[..|s| - 1];
    } else if n > 0 {
      ZerosInFront(n - 1, s);
      assert t[..|t| - 1] == Zeros(n - 1) + s;
    }
  }

  lemma {:induction false} ZerosBehind(s: string, n: nat)
    requires IsDigits(s)
    ensures |Zeros(n)| == n && IsDigits(s + Zeros(n)) && Number(s + Zeros(n)) == Scale(Number(s), n)
    ensures s == "" || s[|s| - 1] != '0' ==> Stripped(s + Zeros(n)) == s
  {
    var t := s + Zeros(n);
    if n == 0 {
      assert t == s;
    } else {
      ZerosBehind(s, n - 1);
      assert t[..|t| - 1] == s + Zeros(n - 1);
    }
  }

  lemma {:induction false} StrippedTimes(s: string)
    requires IsDigits(s)
    ensures var f := Stripped(s);
            && |f| <= |s| && IsDigits(f) && (f == "" || f[|f| - 1] != '0')
            && Number(s) == Scale(Number(f), |s| - |f|)
  {
    if s != [] && s[|s| - 1] == '0' {
      StrippedTimes(s[..|s| - 1]);
    }
  }

  // ----- Round trips -----

  lemma PointOf(whole: string, fraction: string)
    requires IsDigits(whole)
    ensures Point(whole) == |whole|
    ensures Point(whole + "." + fraction) == |whole|
  {
    var text := whole + "." + fraction;
    assert text[|whole|] == '.' && forall i :: 0 <= i < |whole| ==> text[i] == whole[i];
  }

  lemma {:induction false} ScaleSign(x: nat, n: nat)
    ensures Scale(x, n) >= x && (x == 0 ==> Scale(x, n) == 0)
  {
    if n > 0 {
      ScaleSign(x, n - 1);
    }
  }

  lemma TenMillion()
    ensures Scale(1, DECIMALS) == STROOPS_PER_XLM
  {
  }

  /** The seven digits of a fraction. */
  lemma FractionDigits(fraction: nat)
    requires fraction < STROOPS_PER_XLM
    ensures var digits := PadStart(ToString(fraction), DECIMALS);
            |digits| == DECIMALS && IsDigits(digits) && Number(digits) == fraction
  {
    var digits := ToString(fraction);
    TenMillion();
    hide Scale;
    ToStringReads(fraction);
    ToStringFits(fraction, DECIMALS);
    hide ToString, Number;
    ZerosInFront(DECIMALS - |digits|, digits);
    assert Zeros(0) + digits == digits;
  }

  /** Stripped of their zeros, they still scale to it. */
  lemma FractionReads(fraction: nat)
    requires fraction < STROOPS_PER_XLM
    ensures var f := Stripped(PadStart(ToString(fraction), DECIMALS));
            && |f| <= DECIMALS && IsDigits(f) && Scale(Number(f), DECIMALS - |f|) == fraction
            && (f != "" ==> IsFraction(f)) && (f == "" <==> fraction == 0)
  {
    var digits := PadStart(ToString(fraction), DECIMALS);
    FractionDigits(fraction);
    StrippedTimes(digits);
    hide PadStart, ToString, Stripped, Scale;
    var f := Stripped(digits);
    assert f != "" ==> Number(f) > 0;
    ScaleSign(Number(f), DECIMALS - |f|);
  }

  lemma EmptyIsZero()
    ensures Number("") == 0 && Scale(0, DECIMALS) == 0
  {
    ScaleSign(0, DECIMALS);
  }

  function Spelled(whole: string, fraction: string): string {
    if fraction != "" then whole + "." + fraction else whole
  }

  lemma SpelledReads(whole: string, fraction: string)
    requires IsWhole(whole) && (fraction == "" || IsFraction(fraction))
    ensures var text := Spelled(whole, fraction);
            && text != "" && text[0] != '-' && IsCanonicalUnsigned(text) &&
               (text == "0" ==> whole == "0" && fraction == "")
            && ParseUnsigned(text) == Some(Number(whole) * STROOPS_PER_XLM
               + Scale(Number(fraction), DECIMALS - |fraction|))
  {
    hide Number, Scale;
    var text := Spelled(whole, fraction);
    PointOf(whole, fraction);
    if fraction != "" {
      assert text[..|whole|] == whole && text[|whole| + 1..] == fraction;
    } else {
      assert text[..|text|] == text;
      EmptyIsZero();
    }
  }

  lemma UnsignedReads(n: nat)
    ensures ParseUnsigned(FormatXlm(n)) == Some(n) && IsCanonicalUnsigned(FormatXlm(n))
    ensures FormatXlm(n) != "" && FormatXlm(n)[0] != '-' && (FormatXlm(n) == "0" ==> n == 0)
  {
    hide ToString, PadStart, Stripped, Scale, Number, ParseUnsigned, IsCanonicalUnsigned, IsDigits;
    var whole, fraction := n / STROOPS_PER_XLM, n % STROOPS_PER_XLM;
    var f := Stripped(PadStart(ToString(fraction), DECIMALS));
    assert FormatXlm(n) == Spelled(ToString(whole), f);
    hide FormatXlm, Spelled;
    ToStringReads(whole);
    FractionReads(fraction);
    SpelledReads(ToString(whole), f);
  }

  /** Reading the text back gives the amount, for every integer; so no two amounts look alike. */
  lemma FormatReadsBack(stroops: int)
    ensures Parse(FormatXlm(stroops)) == Some(stroops) && IsCanonical(FormatXlm(stroops))
  {
    var abs := if stroops < 0 then -stroops else stroops;
    UnsignedReads(abs);
    if stroops < 0 {
      assert FormatXlm(stroops) == "-" + FormatXlm(abs);
      assert FormatXlm(stroops)[1..] == FormatXlm(abs);
    }
  }

  lemma FractionPrints(fraction: string)
    requires fraction == "" || IsFraction(fraction)
    ensures var v := Scale(Number(fraction), DECIMALS - |fraction|);
            v < STROOPS_PER_XLM && Stripped(PadStart(ToString(v), DECIMALS)) == fraction
  {
    hide Number, Scale, ToString, PadStart, Stripped, Zeros;
    var padded := fraction + Zeros(DECIMALS - |fraction|);
    ZerosBehind(fraction, DECIMALS - |fraction|);
    NumberFits(padded);
    TenMillion();
    FractionDigits(Number(padded));
    NumberIsInjective(padded, PadStart(ToString(Number(padded)), DECIMALS));
  }

  lemma SpelledPrints(whole: string, fraction: string)
    requires IsWhole(whole) && (fraction == "" || IsFraction(fraction))
    ensures FormatXlm(Number(whole) * STROOPS_PER_XLM + Scale(Number(fraction), DECIMALS - |fraction|))
            == Spelled(whole, fraction)
  {
    hide Number, Scale, ToString, PadStart, Stripped;
    NumberPrints(whole);
    FractionPrints(fraction);
    var v := Scale(Number(fraction), DECIMALS - |fraction|);
    var n := Number(whole) * STROOPS_PER_XLM + v;
    assert n / STROOPS_PER_XLM == Number(whole) && n % STROOPS_PER_XLM == v;
  }

  lemma UnsignedPrints(text: string)
    requires IsCanonicalUnsigned(text)
    ensures ParseUnsigned(text).Some? && FormatXlm(ParseUnsigned(text).value) == text
  {
    hide Number, Scale, ParseUnsigned, FormatXlm, IsDigits;
    var p := Point(text);
    var whole, fraction := text[..p], if p < |text| then text[p + 1..] else "";
    assert text == Spelled(whole, fraction);
    SpelledReads(whole, fraction);
    SpelledPrints(whole, fraction);
  }

  /** Every canonical text is the text of an amount: printing loses nothing and adds nothing. */
  lemma CanonicalPrintsBack(text: string)
    requires IsCanonical(text)
    ensures Parse(text).Some? && FormatXlm(Parse(text).value) == text
  {
    hide ParseUnsigned, ToString, PadStart, Stripped;
    if text[0] == '-' {
      var rest := text[1..];
      UnsignedPrints(rest);
      SpelledPrints("0", "");
      EmptyIsZero();
      assert Number("0") == 0;
      assert text == "-" + rest;
    } else {
      UnsignedPrints(text);
    }
  }
}
