/** Decimal, hexadecimal and case conversions of the strings the off-chain tools exchange. */
module Text {
  import opened Num

  predicate IsDigit(c: char) {
    '0' <= c <= '9'
  }

  predicate AllDigits(s: string) {
    forall i :: 0 <= i < |s| ==> IsDigit(s[i])
  }

  function DigitOf(n: nat): char
    requires n < 10
  {
    '0' + n as char
  }

  function DigitValue(c: char): nat
    requires IsDigit(c)
  {
    c as int - '0' as int
  }

  function NatToString(n: nat): string {
    if n < 10 then [DigitOf(n)] else NatToString(n / 10) + [DigitOf(n % 10)]
  }

  function DigitsValue(s: string): nat
    requires AllDigits(s)
  {
    if s == [] then 0 else DigitsValue(s[..|s| - 1]) * 10 + DigitValue(s[|s| - 1])
  }

  lemma {:induction false} NatToStringValue(n: nat)
    ensures AllDigits(NatToString(n)) && |NatToString(n)| > 0
    ensures DigitsValue(NatToString(n)) == n
  {
    if n >= 10 {
      NatToStringValue(n / 10);
      var s := NatToString(n);
      assert s[..|s| - 1] == NatToString(n / 10);
    }
  }

  /** Numbers are printed without superfluous zeros. */
  lemma {:induction false} NoLeadingZero(n: nat)
    ensures |NatToString(n)| > 0 && (NatToString(n)[0] == '0' ==> n == 0 && |NatToString(n)| == 1)
  {
    if n >= 10 {
      NoLeadingZero(n / 10);
    }
  }

  /** Digits without superfluous zeros are how their value is printed. */
  lemma {:induction false} PlainDigits(s: string)
    requires AllDigits(s) && s != [] && (|s| == 1 || s[0] != '0')
    ensures NatToString(DigitsValue(s)) == s
    ensures s[0] != '0' ==> DigitsValue(s) > 0
    decreases |s|
  {
    var n := |s| - 1;
    assert s == s[..n] + [s[n]];
    if n == 0 {
      assert DigitsValue(s) == DigitValue(s[0]);
    } else {
      PlainDigits(s[..n]);
    }
  }

  lemma NatToStringInjective(m: nat, n: nat)
    requires NatToString(m) == NatToString(n)
    ensures m == n
  {
    NatToStringValue(m);
    NatToStringValue(n);
  }

  lemma ShiftDigit(x: int, p: int, y: int, z: int)
    ensures (x * p + y) * 10 + z == x * (10 * p) + (y * 10 + z)
  {
  }

  lemma {:induction false} ConcatValue(a: string, b: string)
    requires AllDigits(a) && AllDigits(b)
    ensures AllDigits(a + b) && DigitsValue(a + b) == DigitsValue(a) * Pow10(|b|) + DigitsValue(b)
    decreases |b|
  {
    if b == [] {
      assert a + b == a;
    } else {
      var n := |b| - 1;
      ConcatValue(a, b[..n]);
      assert (a + b)[..|a| + n] == a + b[..n];
      ShiftDigit(DigitsValue(a), Pow10(n), DigitsValue(b[..n]), DigitValue(b[n]));
    }
  }

  lemma {:induction false} ValueBound(s: string)
    requires AllDigits(s)
    ensures DigitsValue(s) < Pow10(|s|)
    decreases |s|
  {
    if s != [] {
      ValueBound(s[..|s| - 1]);
    }
  }

  /** `BigInt(s)` where `/^\d+$/` was checked first. */
  function BigIntOf(s: string): Option<nat> {
    if s != [] && AllDigits(s) then Some(DigitsValue(s)) else None
  }

  lemma BigIntOfNat(n: nat)
    ensures BigIntOf(NatToString(n)) == Some(n)
  {
    NatToStringValue(n);
  }

  // ---------- every text `BigInt` reads ----------

  /** White space and line terminators, as `trim` sees them. */
  predicate IsBlank(c: char) {
    var n := c as int;
    || 9 <= n <= 13 || n == 32 || n == 0xA0 || n == 0x1680 || 0x2000 <= n <= 0x200A || n == 0x2028 || n == 0x2029
    || n == 0x202F || n == 0x205F || n == 0x3000 || n == 0xFEFF
  }

  function TrimStart(s: string): string {
    if s != [] && IsBlank(s[0]) then TrimStart(s[1..]) else s
  }

  function TrimEnd(s: string): string {
    if s != [] && IsBlank(s[|s| - 1]) then TrimEnd(s[..|s| - 1]) else s
  }

  /** The value of a hexadecimal digit; sixteen for any other character. */
  function HexValue(c: char): nat {
    if IsDigit(c) then c as int - '0' as int
    else if 'a' <= c <= 'f' then c as int - 'a' as int + 10
    else if 'A' <= c <= 'F' then c as int - 'A' as int + 10
    else 16
  }

  function RadixValue(s: string, radix: nat): nat {
    if s == [] then 0 else RadixValue(s[..|s| - 1], radix) * radix + HexValue(s[|s| - 1])
  }

  /** Digits of a radix, at least one. */
  function RadixOf(s: string, radix: nat): Option<nat> {
    if s != [] && forall i :: 0 <= i < |s| ==> HexValue(s[i]) < radix then Some(RadixValue(s, radix)) else None
  }

  function Negated(n: Option<nat>): Option<int> {
    if n.None? then None else Some(0 - n.value)
  }

  /** Trimmed text: empty, signed decimal, or unsigned in another radix. */
  function BigIntTrimmed(s: string): Option<int> {
    if s == "" then Some(0)
    else if s[0] == '-' then Negated(BigIntOf(s[1..]))
    else if s[0] == '+' then BigIntOf(s[1..])
    else if |s| > 1 && s[0] == '0' && s[1] in "xX" then RadixOf(s[2..], 16)
    else if |s| > 1 && s[0] == '0' && s[1] in "oO" then RadixOf(s[2..], 8)
    else if |s| > 1 && s[0] == '0' && s[1] in "bB" then RadixOf(s[2..], 2)
    else BigIntOf(s)
  }

  /** `BigInt(s)`; None where it throws. */
  function BigIntFrom(s: string): Option<int> {
    BigIntTrimmed(TrimEnd(TrimStart(s)))
  }

  lemma DigitsAreTrim(s: string)
    requires AllDigits(s)
    ensures TrimEnd(TrimStart(s)) == s
  {
    assert s != [] ==> !IsBlank(s[0]) && !IsBlank(s[|s| - 1]);
  }

  /** Decimal digits are read as what they say, and none as zero. */
  lemma BigIntOfDigits(s: string)
    requires AllDigits(s)
    ensures BigIntFrom(s) == Some(DigitsValue(s))
  {
    DigitsAreTrim(s);
  }

  /** Where the stricter reading succeeds, both agree. */
  lemma BigIntPlain(s: string)
    ensures BigIntOf(s).Some? ==> BigIntFrom(s) == BigIntOf(s)
  {
    if BigIntOf(s).Some? {
      BigIntOfDigits(s);
    }
  }

  function IntToString(n: int): string {
    if n < 0 then "-" + NatToString(-n) else NatToString(n)
  }

  /** Printed integers are read back. */
  lemma IntReadsBack(n: int)
    ensures BigIntFrom(IntToString(n)) == Some(n)
  {
    var d := NatToString(if n < 0 then -n else n);
    NatToStringValue(if n < 0 then -n else n);
    if n < 0 {
      var s := "-" + d;
      assert s[1..] == d && !IsBlank(s[0]) && !IsBlank(s[|s| - 1]);
      assert TrimEnd(TrimStart(s)) == s;
    } else {
      BigIntOfDigits(d);
    }
  }

  // ---------- what each radix reads ----------

  const HEX_DIGITS := "0123456789abcdef"

  function PowerOf(radix: nat, n: nat): nat {
    if n == 0 then 1 else radix * PowerOf(radix, n - 1)
  }

  lemma HexDigitValue(n: nat)
    requires n < 16
    ensures HexValue(HEX_DIGITS[n]) == n
  {
    assert HEX_DIGITS[..10] == "0123456789" && HEX_DIGITS[10..] == "abcdef";
  }

  lemma ShiftPlace(x: nat, p: nat, y: nat, radix: nat, z: nat)
    ensures (x * p + y) * radix + z == x * (radix * p) + (y * radix + z)
  {
    assert (x * p + y) * radix == x * p * radix + y * radix;
  }

  /** The first digit counts for its place, and the rest for theirs. */
  lemma {:induction false} RadixPlaces(s: string, radix: nat)
    requires s != []
    ensures RadixValue(s, radix) == HexValue(s[0]) * PowerOf(radix, |s| - 1) + RadixValue(s[1..], radix)
    decreases |s|
  {
    var n := |s| - 1;
    if n == 0 {
      assert s[..0] == [] && s[1..] == [];
    } else {
      var t := s[..n];
      RadixPlaces(t, radix);
      assert s[1..][..n - 1] == t[1..] && s[1..][n - 1] == s[n];
      ShiftPlace(HexValue(s[0]), PowerOf(radix, n - 1), RadixValue(t[1..], radix), radix, HexValue(s[n]));
    }
  }

  predicate AllBlank(s: string) {
    forall i :: 0 <= i < |s| ==> IsBlank(s[i])
  }

  lemma {:induction false} LeadingBlanks(blanks: string, s: string)
    requires AllBlank(blanks) && s != [] && !IsBlank(s[0])
    ensures TrimStart(blanks + s) == s
    decreases |blanks|
  {
    if blanks == [] {
      assert blanks + s == s;
    } else {
      assert (blanks + s)[1..] == blanks[1..] + s;
      LeadingBlanks(blanks[1..], s);
    }
  }

  lemma {:induction false} TrailingBlanks(s: string, blanks: string)
    requires AllBlank(blanks) && s != [] && !IsBlank(s[|s| - 1])
    ensures TrimEnd(s + blanks) == s
    decreases |blanks|
  {
    if blanks == [] {
      assert s + blanks == s;
    } else {
      var n := |blanks| - 1;
      assert (s + blanks)[..|s| + n] == s + blanks[..n];
      TrailingBlanks(s, blanks[..n]);
    }
  }

  /** Blanks around a text do not change how it is read. */
  lemma BlanksAround(before: string, s: string, after: string)
    requires AllBlank(before) && AllBlank(after) && s != [] && !IsBlank(s[0]) && !IsBlank(s[|s| - 1])
    ensures BigIntFrom(before + (s + after)) == BigIntTrimmed(s)
  {
    LeadingBlanks(before, s + after);
    TrailingBlanks(s, after);
  }

  /** The mark decides the radix, and a text with a digit beyond it is not read. */
  lemma PrefixReads(mark: string, digits: string, radix: nat)
    requires |mark| == 2 && mark[0] == '0' && digits != ""
    requires (mark[1] in "xX" && radix == 16) || (mark[1] in "oO" && radix == 8) || (mark[1] in "bB" && radix == 2)
    ensures BigIntTrimmed(mark + digits)
            == if forall i :: 0 <= i < |digits| ==> HexValue(digits[i]) < radix then Some(RadixValue(digits, radix))
               else None
  {
    var s := mark + digits;
    assert s[0] == mark[0] && s[1] == mark[1] && s[2..] == digits;
    assert "xX"[0] == 'x' && "oO"[0] == 'o' && "bB"[0] == 'b';
  }

  lemma SignReads(n: nat)
    ensures BigIntTrimmed("-" + NatToString(n)) == Some(0 - n) && BigIntTrimmed("+" + NatToString(n)) == Some(n)
    ensures BigIntTrimmed(NatToString(n)) == Some(n)
  {
    NatToStringValue(n);
    assert ("-" + NatToString(n))[1..] == NatToString(n) && ("+" + NatToString(n))[1..] == NatToString(n);
    NoLeadingZero(n);
  }

  // ---------- case ----------

  function LowerChar(c: char): char {
    if 'A' <= c <= 'Z' then (c as int + 32) as char else c
  }

  function UpperChar(c: char): char {
    if 'a' <= c <= 'z' then (c as int - 32) as char else c
  }

  function ToLower(s: string): (t: string)
    ensures |t| == |s|
    ensures forall i :: 0 <= i < |s| ==> t[i] == LowerChar(s[i])
  {
    if s == [] then [] else [LowerChar(s[0])] + ToLower(s[1..])
  }

  function ToUpper(s: string): (t: string)
    ensures |t| == |s|
    ensures forall i :: 0 <= i < |s| ==> t[i] == UpperChar(s[i])
  {
    if s == [] then [] else [UpperChar(s[0])] + ToUpper(s[1..])
  }

  const LOWER := "abcdefghijklmnopqrstuvwxyz"
  const UPPER := "ABCDEFGHIJKLMNOPQRSTUVWXYZ"

  /** Letter by letter, each alphabet becomes the other, and no other character changes. */
  lemma CaseMeaning(c: char)
    ensures forall i :: 0 <= i < 26 ==> LowerChar(UPPER[i]) == LOWER[i] && UpperChar(LOWER[i]) == UPPER[i]
    ensures c !in UPPER ==> LowerChar(c) == c
    ensures c !in LOWER ==> UpperChar(c) == c
  {
    assert forall i :: 0 <= i < 26 ==> UPPER[i] == (65 + i) as char && LOWER[i] == (97 + i) as char;
    if 'A' <= c <= 'Z' {
      assert UPPER[c as int - 65] == c;
    }
    if 'a' <= c <= 'z' {
      assert LOWER[c as int - 97] == c;
    }
  }

  // ---------- 32-byte hex ----------

  predicate IsLowerHex(c: char) {
    IsDigit(c) || 'a' <= c <= 'f'
  }

  predicate IsHex(c: char) {
    IsLowerHex(c) || 'A' <= c <= 'F'
  }

  /** `/^0x[0-9a-fA-F]{64}$/` */
  predicate IsHash32(s: string) {
    |s| == 66 && s[..2] == "0x" && forall i :: 2 <= i < 66 ==> IsHex(s[i])
  }

  /** The rendering of 32 bytes that the scanner produces. */
  predicate IsBytes32(s: string) {
    |s| == 66 && s[..2] == "0x" && forall i :: 2 <= i < 66 ==> IsLowerHex(s[i])
  }

  /** Hexadecimal digits are those of value below sixteen. */
  lemma HexMeaning(c: char)
    ensures IsHex(c) <==> HexValue(c) < 16
    ensures IsLowerHex(c) <==> c in HEX_DIGITS
    ensures IsHex(c) ==> IsLowerHex(LowerChar(c)) && HexValue(LowerChar(c)) == HexValue(c)
  {
    var d := HEX_DIGITS;
    assert forall i :: 0 <= i < 16 ==> d[i] == (if i < 10 then (48 + i) as char else (87 + i) as char);
    if IsDigit(c) {
      assert d[c as int - 48] == c;
    } else if 'a' <= c <= 'f' {
      assert d[c as int - 87] == c;
    }
  }

  lemma Bytes32IsLower(s: string)
    requires IsBytes32(s)
    ensures IsHash32(s) && ToLower(s) == s
  {
    assert s[0] == s[..2][0] && s[1] == s[..2][1];
  }

  function Zeros(n: nat): (z: string)
    ensures |z| == n
    ensures forall i :: 0 <= i < n ==> z[i] == '0'
  {
    if n == 0 then "" else "0" + Zeros(n - 1)
  }

  /** A 20-byte address padded to 32 bytes: what a Robinhood event shows of a 32-byte recipient. */
  function PadAddress(receiver: string): string
    requires |receiver| == 66
  {
    "0x" + Zeros(|receiver| - 42) + receiver[26..]
  }

  /** The recipient is an EVM address: its first twelve bytes are zero. */
  predicate IsEvmRecipient(receiver: string) {
    |receiver| == 66 && forall i :: 2 <= i < 26 ==> receiver[i] == '0'
  }

  lemma PadAddressKeeps(receiver: string)
    requires IsBytes32(receiver)
    ensures IsBytes32(PadAddress(receiver))
    ensures PadAddress(receiver) == receiver <==> IsEvmRecipient(receiver)
  {
    var p := PadAddress(receiver);
    assert receiver[..2] == "0x" && receiver[0] == receiver[..2][0] && receiver[1] == receiver[..2][1];
    assert forall i :: 2 <= i < 26 ==> p[i] == '0';
    assert forall i :: 26 <= i < 66 ==> p[i] == receiver[i];
    assert p[..2] == "0x";
  }

  function PadStart(s: string, width: nat, c: char): string
    decreases width - |s|
  {
    if |s| >= width then s else PadStart([c] + s, width, c)
  }

  lemma {:induction false} PadStartWide(s: string, width: nat)
    ensures |PadStart(s, width, '0')| >= width
    ensures AllDigits(s)
            ==> AllDigits(PadStart(s, width, '0')) && DigitsValue(PadStart(s, width, '0')) == DigitsValue(s)
    decreases width - |s|
  {
    if |s| < width {
      PadStartWide(['0'] + s, width);
      if AllDigits(s) {
        ConcatValue(['0'], s);
      }
    }
  }

  lemma {:induction false} PadNotNeeded(s: string, width: nat)
    ensures |s| >= width ==> PadStart(s, width, '0') == s
    ensures |s| < width ==> |PadStart(s, width, '0')| == width
    decreases width - |s|
  {
    if |s| < width {
      PadNotNeeded(['0'] + s, width);
    }
  }
}
