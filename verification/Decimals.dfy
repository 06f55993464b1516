/**
 Printing raw token amounts (scripts/sanMintConfig.ts) and reading decimal amounts (tasks/solana/utils.ts).
 */
module Decimals {
  import opened Num
  import opened Text

  function UpToDot(s: string): string {
    if s == [] || s[0] == '.' then [] else [s[0]] + UpToDot(s[1..])
  }

  function AfterDot(s: string): string {
    if s == [] then [] else if s[0] == '.' then s[1..] else AfterDot(s[1..])
  }

  function PadEnd(s: string, width: nat): (r: string)
    ensures |r| >= width
  {
    if |s| >= width then s else s + Zeros(width - |s|)
  }

  /** The fraction padded or cut to exactly `decimals` digits. */
  function Kept(fraction: string, decimals: nat): (r: string)
    ensures |r| == decimals
  {
    PadEnd(fraction, decimals)[..decimals]
  }

  function Units(whole: Option<int>, fraction: Option<int>, decimals: nat): Option<int> {
    if whole.Some? && fraction.Some? then Some(whole.value * Pow10(decimals) + fraction.value) else None
  }

  /** `parseDecimalToUnits`: the first two dot-separated parts count, digits beyond `decimals` are dropped. */
  function ParseDecimalToUnits(amount: string, decimals: nat): Option<int> {
    Units(BigIntFrom(UpToDot(amount)), BigIntFrom(Kept(UpToDot(AfterDot(amount)), decimals)), decimals)
  }

  function StripZeros(s: string): string {
    if s != [] && s[|s| - 1] == '0' then StripZeros(s[..|s| - 1]) else s
  }

  function Joined(whole: string, fraction: string): string {
    if fraction != "" then whole + "." + fraction else whole
  }

  /** Padded digits as a whole part and a fraction without its trailing zeros. */
  function Split(digits: string, decimals: nat): string
    requires decimals < |digits|
  {
    var whole := digits[..|digits| - decimals];
    var fraction := StripZeros(digits[|digits| - decimals..]);
    Joined(whole, fraction)
  }

  /** `formatRawTokenAmount` */
  function FormatRawTokenAmount(rawAmount: nat, decimals: nat): string {
    if decimals == 0 then NatToString(rawAmount)
    else
      PadStartWide(NatToString(rawAmount), decimals + 1);
      Split(PadStart(NatToString(rawAmount), decimals + 1, '0'), decimals)
  }

  // ---------- digit strings ----------

  lemma {:induction false} ZerosValue(n: nat)
    ensures AllDigits(Zeros(n)) && DigitsValue(Zeros(n)) == 0
  {
    if n > 0 {
      ZerosValue(n - 1);
      assert Zeros(n)[..n - 1] == Zeros(n - 1);
    }
  }

  lemma DigitsRead(s: string)
    requires AllDigits(s)
    ensures BigIntFrom(s) == Some(DigitsValue(s))
  {
    BigIntOfDigits(s);
  }

  lemma {:induction false} NoDot(s: string, t: string)
    requires AllDigits(s)
    ensures UpToDot(s) == s && AfterDot(s) == ""
    ensures UpToDot(s + "." + t) == s && AfterDot(s + "." + t) == t
    decreases |s|
  {
    if s == [] {
      assert s + "." + t == ['.'] + t;
    } else {
      NoDot(s[1..], t);
      assert (s + "." + t)[1..] == s[1..] + "." + t;
      assert s == [s[0]] + s[1..];
    }
  }

  lemma {:induction false} StripShorter(s: string)
    ensures |StripZeros(s)| <= |s|
    decreases |s|
  {
    if s != [] && s[|s| - 1] == '0' {
      StripShorter(s[..|s| - 1]);
    }
  }

  lemma {:induction false} NoTrailingZero(s: string)
    ensures StripZeros(s) != "" ==> StripZeros(s)[|StripZeros(s)| - 1] != '0'
    decreases |s|
  {
    if s != [] && s[|s| - 1] == '0' {
      NoTrailingZero(s[..|s| - 1]);
    }
  }

  lemma {:induction false} StripThenPad(s: string)
    requires AllDigits(s)
    ensures AllDigits(StripZeros(s)) && PadEnd(StripZeros(s), |s|) == s
    decreases |s|
  {
    var n := |s| - 1;
    if s != [] && s[n] == '0' {
      StripThenPad(s[..n]);
      var t := StripZeros(s[..n]);
      StripShorter(s[..n]);
      assert s == s[..n] + "0";
      assert forall i :: 0 <= i < |s| ==> PadEnd(t, |s|)[i] == (if i < |t| then t[i] else '0');
      assert forall i :: 0 <= i < n ==> PadEnd(t, n)[i] == (if i < |t| then t[i] else '0');
    }
  }

  // ---------- what the two functions promise together ----------

  lemma KeptDigits(fraction: string, decimals: nat)
    requires AllDigits(fraction)
    ensures AllDigits(Kept(fraction, decimals))
    ensures forall i :: 0 <= i < decimals ==>
              Kept(fraction, decimals)[i] == (if i < |fraction| then fraction[i] else '0')
  {
    ZerosValue(decimals);
  }

  /** The number a whole part and a fraction stand for, in units. */
  function UnitsOf(whole: string, fraction: string, decimals: nat): nat
    requires AllDigits(whole) && AllDigits(fraction)
  {
    KeptDigits(fraction, decimals);
    DigitsValue(whole) * Pow10(decimals) + DigitsValue(Kept(fraction, decimals))
  }

  lemma ParseWhole(whole: string, decimals: nat)
    requires AllDigits(whole)
    ensures ParseDecimalToUnits(whole, decimals) == Some(UnitsOf(whole, "", decimals))
  {
    NoDot(whole, "");
    KeptDigits("", decimals);
    DigitsRead(whole);
    DigitsRead(Kept("", decimals));
  }

  lemma ParseParts(whole: string, fraction: string, decimals: nat)
    requires AllDigits(whole) && AllDigits(fraction)
    ensures ParseDecimalToUnits(whole + "." + fraction, decimals) == Some(UnitsOf(whole, fraction, decimals))
  {
    NoDot(whole, fraction);
    NoDot(fraction, "");
    KeptDigits(fraction, decimals);
    DigitsRead(whole);
    DigitsRead(Kept(fraction, decimals));
  }

  lemma KeptRest(rest: string)
    requires AllDigits(rest)
    ensures AllDigits(StripZeros(rest)) && Kept(StripZeros(rest), |rest|) == rest
  {
    StripThenPad(rest);
  }

  lemma ParseJoined(whole: string, fraction: string, decimals: nat)
    requires AllDigits(whole) && AllDigits(fraction)
    ensures ParseDecimalToUnits(Joined(whole, fraction), decimals) == Some(UnitsOf(whole, fraction, decimals))
  {
    if fraction == "" {
      ParseWhole(whole, decimals);
    } else {
      ParseParts(whole, fraction, decimals);
    }
  }

  /** The digits of an amount, padded so that there is at least one whole digit. */
  lemma PaddedDigits(rawAmount: nat, decimals: nat)
    ensures var digits := PadStart(NatToString(rawAmount), decimals + 1, '0');
      && |digits| > decimals && AllDigits(digits) && DigitsValue(digits) == rawAmount
      && (|digits| > decimals + 1 ==> digits[0] != '0')
  {
    NatToStringValue(rawAmount);
    NoLeadingZero(rawAmount);
    PadStartWide(NatToString(rawAmount), decimals + 1);
    PadNotNeeded(NatToString(rawAmount), decimals + 1);
  }

  /** The parts of a printed amount: whole units, and fractional digits without trailing zeros. */
  ghost predicate ShortParts(whole: nat, fraction: string, rawAmount: nat, decimals: nat) {
    && AllDigits(fraction) && |fraction| <= decimals && (fraction != "" ==> fraction[|fraction| - 1] != '0')
    && AllDigits(Kept(fraction, decimals))
    && rawAmount == whole * Pow10(decimals) + DigitsValue(Kept(fraction, decimals))
  }

  /**
   The whole units as numbers are printed, then the fractional digits without trailing zeros, if any are left: the
   shortest text for the amount.
   */
  ghost predicate Shortest(text: string, rawAmount: nat, decimals: nat) {
    exists whole: nat, fraction ::
      ShortParts(whole, fraction, rawAmount, decimals) && text == Joined(NatToString(whole), fraction)
  }

  lemma PartsShortest(whole: string, rest: string)
    requires AllDigits(whole) && AllDigits(rest) && whole != [] && (|whole| == 1 || whole[0] != '0')
    ensures AllDigits(whole + rest)
    ensures Shortest(Joined(whole, StripZeros(rest)), DigitsValue(whole + rest), |rest|)
  {
    ConcatValue(whole, rest);
    PlainDigits(whole);
    KeptRest(rest);
    StripShorter(rest);
    NoTrailingZero(rest);
    assert ShortParts(DigitsValue(whole), StripZeros(rest), DigitsValue(whole + rest), |rest|);
  }

  lemma DigitsShortest(digits: string, decimals: nat)
    requires AllDigits(digits) && decimals < |digits| && (|digits| > decimals + 1 ==> digits[0] != '0')
    ensures Shortest(Split(digits, decimals), DigitsValue(digits), decimals)
  {
    var n := |digits| - decimals;
    assert digits == digits[..n] + digits[n..];
    PartsShortest(digits[..n], digits[n..]);
  }

  lemma WholeShortest(rawAmount: nat)
    ensures Shortest(NatToString(rawAmount), rawAmount, 0)
  {
    assert Kept("", 0) == "";
    assert Joined(NatToString(rawAmount), "") == NatToString(rawAmount);
    assert ShortParts(rawAmount, "", rawAmount, 0);
  }

  /** A raw amount is printed in its shortest form. */
  lemma FormatIsShortest(rawAmount: nat, decimals: nat)
    ensures Shortest(FormatRawTokenAmount(rawAmount, decimals), rawAmount, decimals)
  {
    if decimals == 0 {
      WholeShortest(rawAmount);
    } else {
      PaddedDigits(rawAmount, decimals);
      DigitsShortest(PadStart(NatToString(rawAmount), decimals + 1, '0'), decimals);
    }
  }

  lemma PartsAddUp(text: string, whole: nat, fraction: string, rawAmount: nat, decimals: nat)
    requires AllDigits(text) && DigitsValue(text) == whole && ShortParts(whole, fraction, rawAmount, decimals)
    ensures UnitsOf(text, fraction, decimals) == rawAmount
  {
  }

  lemma ShortPartsSpell(whole: nat, fraction: string, rawAmount: nat, decimals: nat)
    requires ShortParts(whole, fraction, rawAmount, decimals)
    ensures ParseDecimalToUnits(Joined(NatToString(whole), fraction), decimals) == Some(rawAmount)
  {
    NatToStringValue(whole);
    ParseJoined(NatToString(whole), fraction, decimals);
    PartsAddUp(NatToString(whole), whole, fraction, rawAmount, decimals);
  }

  /** Printing a raw amount and reading it back returns it, for every amount and number of decimals. */
  lemma FormatThenParse(rawAmount: nat, decimals: nat)
    ensures ParseDecimalToUnits(FormatRawTokenAmount(rawAmount, decimals), decimals) == Some(rawAmount)
  {
    FormatIsShortest(rawAmount, decimals);
    var whole, fraction :|
      ShortParts(whole, fraction, rawAmount, decimals)
      && FormatRawTokenAmount(rawAmount, decimals) == Joined(NatToString(whole), fraction);
    ShortPartsSpell(whole, fraction, rawAmount, decimals);
  }

  /** `r` is `v * p / q` rounded down. */
  predicate RoundsDown(r: int, v: int, p: int, q: int) {
    r * q <= v * p < (r + 1) * q
  }

  lemma CutFraction(value: int, kept: int, lost: int, p: int, q: int, pq: int)
    requires 0 <= lost < q && p > 0 && pq == p * q && value == kept * q + lost
    ensures RoundsDown(kept, value, p, pq)
  {
    assert (kept * q + lost) * p == kept * (p * q) + lost * p;
    assert 0 <= lost * p < q * p;
  }

  lemma PaddedFraction(value: int, padded: int, p: int, q: int, pq: int)
    requires p > 0 && q > 0 && pq == p * q && padded == value * q + 0
    ensures RoundsDown(padded, value, pq, p)
  {
    assert value * q * p == value * (p * q);
  }

  /** The kept digits are the fraction scaled by the decimals and rounded down. */
  ghost predicate Truncated(kept: string, fraction: string, decimals: nat) {
    && AllDigits(kept) && AllDigits(fraction)
    && RoundsDown(DigitsValue(kept), DigitsValue(fraction), Pow10(decimals), Pow10(|fraction|))
  }

  lemma FractionPadded(fraction: string, n: nat)
    requires AllDigits(fraction)
    ensures Truncated(Kept(fraction, |fraction| + n), fraction, |fraction| + n)
  {
    ZerosValue(n);
    ConcatValue(fraction, Zeros(n));
    assert Kept(fraction, |fraction| + n) == fraction + Zeros(n);
    Pow10Sum(|fraction|, n);
    PaddedFraction(DigitsValue(fraction), DigitsValue(fraction + Zeros(n)), Pow10(|fraction|), Pow10(n),
                   Pow10(|fraction| + n));
  }

  lemma FractionCut(kept: string, lost: string)
    requires AllDigits(kept) && AllDigits(lost)
    ensures Kept(kept + lost, |kept|) == kept && Truncated(kept, kept + lost, |kept|)
  {
    ConcatValue(kept, lost);
    ValueBound(lost);
    Pow10Sum(|kept|, |lost|);
    CutFraction(DigitsValue(kept + lost), DigitsValue(kept), DigitsValue(lost), Pow10(|kept|), Pow10(|lost|),
                Pow10(|kept| + |lost|));
  }

  lemma FractionTruncated(fraction: string, decimals: nat)
    requires AllDigits(fraction)
    ensures Truncated(Kept(fraction, decimals), fraction, decimals)
  {
    if |fraction| <= decimals {
      FractionPadded(fraction, decimals - |fraction|);
    } else {
      var kept, lost := fraction[..decimals], fraction[decimals..];
      FractionCut(kept, lost);
      assert kept + lost == fraction;
    }
  }

  lemma AddWhole(w: int, kept: int, value: int, total: int, units: int, p: int, q: int)
    requires RoundsDown(kept, value, p, q) && total == w * q + value && units == w * p + kept
    ensures RoundsDown(units, total, p, q)
  {
    assert (w * p + kept) * q == w * p * q + kept * q;
    assert (w * p + (kept + 1)) * q == w * p * q + (kept + 1) * q;
    assert (w * q + value) * p == w * p * q + value * p;
  }

  lemma UnitsTruncate(whole: string, fraction: string, decimals: nat)
    requires AllDigits(whole) && AllDigits(fraction)
    ensures AllDigits(whole + fraction)
    ensures RoundsDown(UnitsOf(whole, fraction, decimals), DigitsValue(whole + fraction), Pow10(decimals),
                       Pow10(|fraction|))
  {
    ConcatValue(whole, fraction);
    FractionTruncated(fraction, decimals);
    AddWhole(DigitsValue(whole), DigitsValue(Kept(fraction, decimals)), DigitsValue(fraction),
             DigitsValue(whole + fraction),
             UnitsOf(whole, fraction, decimals), Pow10(decimals), Pow10(|fraction|));
  }

  /** Excess fractional digits are dropped: the result is the amount scaled by the decimals and rounded down. */
  lemma ParseTruncates(whole: string, fraction: string, decimals: nat)
    requires AllDigits(whole) && AllDigits(fraction)
    ensures AllDigits(whole + fraction)
    ensures var r := ParseDecimalToUnits(whole + "." + fraction, decimals);
      r.Some? && RoundsDown(r.value, DigitsValue(whole + fraction), Pow10(decimals), Pow10(|fraction|))
  {
    ParseParts(whole, fraction, decimals);
    UnitsTruncate(whole, fraction, decimals);
  }

  // ---------- negative amounts ----------

  lemma NegativeParts(whole: string, fraction: string)
    requires AllDigits(whole) && AllDigits(fraction)
    ensures UpToDot("-" + (whole + "." + fraction)) == "-" + whole
    ensures UpToDot(AfterDot("-" + (whole + "." + fraction))) == fraction
  {
    NoDot(whole, fraction);
    NoDot(fraction, "");
    assert ("-" + (whole + "." + fraction))[1..] == whole + "." + fraction;
  }

  lemma NegativeRead(whole: string)
    requires whole != "" && AllDigits(whole)
    ensures BigIntFrom("-" + whole) == Some(0 - DigitsValue(whole))
  {
    var s := "-" + whole;
    assert s[1..] == whole && !IsBlank(s[0]) && !IsBlank(s[|s| - 1]);
    assert TrimEnd(TrimStart(s)) == s;
  }

  /** A sign applies to the whole part only. */
  lemma ParseNegative(whole: string, fraction: string, decimals: nat)
    requires whole != "" && AllDigits(whole) && AllDigits(fraction)
    ensures AllDigits(Kept(fraction, decimals))
    ensures ParseDecimalToUnits("-" + (whole + "." + fraction), decimals)
            == Units(Some(0 - DigitsValue(whole)), Some(DigitsValue(Kept(fraction, decimals))), decimals)
  {
    NegativeParts(whole, fraction);
    NegativeRead(whole);
    KeptDigits(fraction, decimals);
    DigitsRead(Kept(fraction, decimals));
  }

  lemma NegateSum(w: int, p: int, f: int)
    ensures (0 - w) * p + f == 0 - (w * p + f) <==> f == 0
  {
  }

  lemma DigitZero(c: char)
    requires IsDigit(c)
    ensures DigitValue(c) == 0 <==> c == '0'
  {
    if DigitValue(c) == 0 {
      assert c as int as char == '0' as int as char;
    }
  }

  lemma {:induction false} ZeroValueMeansZeros(s: string)
    requires AllDigits(s)
    ensures DigitsValue(s) == 0 <==> forall i :: 0 <= i < |s| ==> s[i] == '0'
    decreases |s|
  {
    if s != [] {
      var n := |s| - 1;
      ZeroValueMeansZeros(s[..n]);
      DigitZero(s[n]);
    }
  }

  /**
   A negative amount is read as the negation of its absolute value exactly when none of its kept fractional
   digits is non-zero.
   */
  lemma NegativeAmountsMisread(whole: string, fraction: string, decimals: nat)
    requires whole != "" && AllDigits(whole) && AllDigits(fraction)
    ensures var (minus, plus) := (ParseDecimalToUnits("-" + (whole + "." + fraction), decimals),
                                  ParseDecimalToUnits(whole + "." + fraction, decimals));
      && minus.Some? && plus.Some?
      && (minus.value == 0 - plus.value <==> forall i :: 0 <= i < |fraction| && i < decimals ==> fraction[i] == '0')
  {
    ParseParts(whole, fraction, decimals);
    ParseNegative(whole, fraction, decimals);
    KeptDigits(fraction, decimals);
    ZeroValueMeansZeros(Kept(fraction, decimals));
    NegateSum(DigitsValue(whole), Pow10(decimals), DigitsValue(Kept(fraction, decimals)));
  }

  lemma OneDigit(c: char)
    requires IsDigit(c)
    ensures AllDigits([c]) && DigitsValue([c]) == DigitValue(c)
  {
    assert [c][..0] == [];
  }

  /** For instance "-1.5" with one decimal reads as -5. */
  lemma NegativeExample()
    ensures ParseDecimalToUnits("-1.5", 1) == Some(-5)
  {
    OneDigit('1');
    OneDigit('5');
    assert "1" == ['1'] && "5" == ['5'] && "-" + ("1" + "." + "5") == "-1.5";
    ParseNegative("1", "5", 1);
    assert Kept("5", 1) == "5";
  }
}
