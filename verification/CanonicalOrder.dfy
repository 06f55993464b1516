/**
 What the canonical order of messages is: by direction, then by source height as a number, then by transaction, event
 index and GUID as text.
 */
module CanonicalOrder {
  import opened Num
  import opened Text
  import opened Pathway
  import opened Lists
  import opened Sorting
  import opened Evidence

  /** Strictly before, in the order of strings. */
  predicate Before(a: string, b: string) {
    LexLe(a, b) && !LexLe(b, a)
  }

  lemma {:induction false} AfterCommonPrefix(p: string, a: string, b: string)
    ensures LexLe(p + a, p + b) <==> LexLe(a, b)
    decreases |p|
  {
    if p == [] {
      assert p + a == a && p + b == b;
    } else {
      assert (p + a)[1..] == p[1..] + a && (p + b)[1..] == p[1..] + b;
      AfterCommonPrefix(p[1..], a, b);
    }
  }

  /** Different texts of one length decide, whatever follows them. */
  lemma {:induction false} DecidedByPrefix(x: string, y: string, a: string, b: string)
    requires |x| == |y| && x != y
    ensures LexLe(x + a, y + b) <==> LexLe(x, y)
    decreases |x|
  {
    assert x == [x[0]] + x[1..] && y == [y[0]] + y[1..];
    assert (x + a)[1..] == x[1..] + a && (y + b)[1..] == y[1..] + b;
    if Utf16Rank(x[0]) == Utf16Rank(y[0]) {
      RankInjective(x[0], y[0]);
      DecidedByPrefix(x[1..], y[1..], a, b);
    }
  }

  lemma BeforeByPrefix(x: string, y: string, a: string, b: string)
    requires |x| == |y| && Before(x, y)
    ensures Before(x + a, y + b)
  {
    DecidedByPrefix(x, y, a, b);
    DecidedByPrefix(y, x, b, a);
  }

  lemma FirstDigit(c: char, rest: string)
    requires IsDigit(c) && AllDigits(rest)
    ensures AllDigits([c] + rest)
    ensures DigitsValue([c] + rest) == DigitValue(c) * Pow10(|rest|) + DigitsValue(rest)
  {
    ConcatValue([c], rest);
    assert DigitsValue([c]) == DigitValue(c);
  }

  lemma LeadingDigitDecides(c: nat, d: nat, p: nat, x: nat, y: nat)
    requires c < d && x < p
    ensures c * p + x < d * p + y
  {
    MulMono(c + 1, d, p);
    Distribute(c, 1, p);
  }

  /** Digits of one length compare as the numbers they stand for. */
  lemma {:induction false} DigitsCompare(x: string, y: string)
    requires |x| == |y| && AllDigits(x) && AllDigits(y)
    ensures LexLe(x, y) <==> DigitsValue(x) <= DigitsValue(y)
    decreases |x|
  {
    if x != [] {
      var (c, d, s, t) := (x[0], y[0], x[1..], y[1..]);
      assert x == [c] + s && y == [d] + t;
      FirstDigit(c, s);
      FirstDigit(d, t);
      ValueBound(s);
      ValueBound(t);
      if DigitValue(c) < DigitValue(d) {
        LeadingDigitDecides(DigitValue(c), DigitValue(d), Pow10(|s|), DigitsValue(s), DigitsValue(t));
      } else if DigitValue(d) < DigitValue(c) {
        LeadingDigitDecides(DigitValue(d), DigitValue(c), Pow10(|s|), DigitsValue(t), DigitsValue(s));
      } else {
        DigitsCompare(s, t);
      }
    }
  }

  /** Heights of at most 24 digits, padded, compare as numbers. */
  lemma HeightsCompare(h: string, k: string)
    requires BigIntOf(h).Some? && BigIntOf(k).Some? && |h| <= 24 && |k| <= 24
    ensures BigIntOf(h).value < BigIntOf(k).value ==> Before(PadStart(h, 24, '0'), PadStart(k, 24, '0'))
    ensures BigIntOf(h).value == BigIntOf(k).value ==> PadStart(h, 24, '0') == PadStart(k, 24, '0')
    ensures |PadStart(h, 24, '0')| == |PadStart(k, 24, '0')| == 24
  {
    var (x, y) := (PadStart(h, 24, '0'), PadStart(k, 24, '0'));
    PadStartWide(h, 24);
    PadStartWide(k, 24);
    PadNotNeeded(h, 24);
    PadNotNeeded(k, 24);
    DigitsCompare(x, y);
    DigitsCompare(y, x);
    if DigitsValue(x) == DigitsValue(y) {
      LexAntisymmetric(x, y);
    }
  }

  function AfterTransaction(m: Message): string {
    IntToString(m.sourceEventIndex) + (":" + m.guid)
  }

  function AfterHeight(m: Message): string {
    m.sourceTransaction + (":" + AfterTransaction(m))
  }

  /** The rest of a sort key after its direction, after its height, and after its transaction. */
  function AfterDirection(m: Message): string {
    PadStart(m.sourceHeight, 24, '0') + (":" + AfterHeight(m))
  }

  lemma KeyLayout(m: Message)
    ensures SortKey(m) == DirectionName(m.direction) + (":" + AfterDirection(m))
  {
    assert SortKey(m) == DirectionName(m.direction) + (":" + AfterDirection(m));
  }

  /** Messages from Robinhood come before messages from Solana. */
  lemma DirectionDecides(m: Message, n: Message)
    requires m.direction == RobinhoodToSolana && n.direction == SolanaToRobinhood
    ensures Before(SortKey(m), SortKey(n))
  {
    KeyLayout(m);
    KeyLayout(n);
    assert SortKey(m)[0] == 'r' && SortKey(n)[0] == 's';
  }

  lemma WithinDirection(m: Message, n: Message)
    requires m.direction == n.direction
    ensures LexLe(SortKey(m), SortKey(n)) <==> LexLe(AfterDirection(m), AfterDirection(n))
  {
    KeyLayout(m);
    KeyLayout(n);
    AfterCommonPrefix(DirectionName(m.direction), ":" + AfterDirection(m), ":" + AfterDirection(n));
    AfterCommonPrefix(":", AfterDirection(m), AfterDirection(n));
  }

  /** Within a direction the lower height comes first, compared as a number. */
  lemma HeightDecides(m: Message, n: Message)
    requires m.direction == n.direction && |m.sourceHeight| <= 24 && |n.sourceHeight| <= 24
    requires BigIntOf(m.sourceHeight).Some? && BigIntOf(n.sourceHeight).Some?
    requires BigIntOf(m.sourceHeight).value < BigIntOf(n.sourceHeight).value
    ensures Before(SortKey(m), SortKey(n))
  {
    WithinDirection(m, n);
    WithinDirection(n, m);
    HeightsCompare(m.sourceHeight, n.sourceHeight);
    BeforeByPrefix(PadStart(m.sourceHeight, 24, '0'), PadStart(n.sourceHeight, 24, '0'), ":" + AfterHeight(m),
                   ":" + AfterHeight(n));
  }

  /** The same direction and height: spellings of one number do not matter. */
  predicate SameHeight(m: Message, n: Message) {
    && m.direction == n.direction && |m.sourceHeight| <= 24 && |n.sourceHeight| <= 24
    && BigIntOf(m.sourceHeight).Some? && BigIntOf(m.sourceHeight) == BigIntOf(n.sourceHeight)
  }

  lemma WithinHeight(m: Message, n: Message)
    requires SameHeight(m, n)
    ensures LexLe(SortKey(m), SortKey(n)) <==> LexLe(AfterHeight(m), AfterHeight(n))
  {
    WithinDirection(m, n);
    HeightsCompare(m.sourceHeight, n.sourceHeight);
    var h := PadStart(m.sourceHeight, 24, '0');
    AfterCommonPrefix(h, ":" + AfterHeight(m), ":" + AfterHeight(n));
    AfterCommonPrefix(":", AfterHeight(m), AfterHeight(n));
  }

  /** At one height, different transactions of one length decide. */
  lemma TransactionDecides(m: Message, n: Message)
    requires SameHeight(m, n) && |m.sourceTransaction| == |n.sourceTransaction|
    requires m.sourceTransaction != n.sourceTransaction
    ensures LexLe(SortKey(m), SortKey(n)) <==> LexLe(m.sourceTransaction, n.sourceTransaction)
  {
    WithinHeight(m, n);
    DecidedByPrefix(m.sourceTransaction, n.sourceTransaction, ":" + AfterTransaction(m), ":" + AfterTransaction(n));
  }

  lemma WithinTransaction(m: Message, n: Message)
    requires SameHeight(m, n) && m.sourceTransaction == n.sourceTransaction
    ensures LexLe(SortKey(m), SortKey(n)) <==> LexLe(AfterTransaction(m), AfterTransaction(n))
  {
    WithinHeight(m, n);
    AfterCommonPrefix(m.sourceTransaction, ":" + AfterTransaction(m), ":" + AfterTransaction(n));
    AfterCommonPrefix(":", AfterTransaction(m), AfterTransaction(n));
  }

  /**
   Within a transaction indices of equally many digits compare as numbers; longer ones compare as text, so that ten
   comes before nine.
   */
  lemma IndexDecides(m: Message, n: Message)
    requires SameHeight(m, n) && m.sourceTransaction == n.sourceTransaction
    requires 0 <= m.sourceEventIndex < n.sourceEventIndex
    requires |NatToString(m.sourceEventIndex)| == |NatToString(n.sourceEventIndex)|
    ensures Before(SortKey(m), SortKey(n))
  {
    var (x, y) := (IntToString(m.sourceEventIndex), IntToString(n.sourceEventIndex));
    WithinTransaction(m, n);
    WithinTransaction(n, m);
    NatToStringValue(m.sourceEventIndex);
    NatToStringValue(n.sourceEventIndex);
    DigitsCompare(x, y);
    DigitsCompare(y, x);
    BeforeByPrefix(x, y, ":" + m.guid, ":" + n.guid);
  }

  lemma TenBeforeNine(m: Message, n: Message)
    requires SameHeight(m, n) && m.sourceTransaction == n.sourceTransaction
    requires m.sourceEventIndex == 10 && n.sourceEventIndex == 9
    ensures Before(SortKey(m), SortKey(n))
  {
    WithinTransaction(m, n);
    WithinTransaction(n, m);
    assert NatToString(10) == "10" && NatToString(9) == "9";
    assert AfterTransaction(m)[0] == '1' && AfterTransaction(n)[0] == '9';
  }

  /** With everything else alike, the GUIDs decide. */
  lemma GuidDecides(m: Message, n: Message)
    requires SameHeight(m, n) && m.sourceTransaction == n.sourceTransaction
    requires m.sourceEventIndex == n.sourceEventIndex
    ensures LexLe(SortKey(m), SortKey(n)) <==> LexLe(m.guid, n.guid)
  {
    WithinTransaction(m, n);
    var x := IntToString(m.sourceEventIndex);
    AfterCommonPrefix(x, ":" + m.guid, ":" + n.guid);
    AfterCommonPrefix(":", m.guid, n.guid);
  }

  lemma SortedPair(ms: seq<Message>, i: nat, j: nat)
    requires i < j < |ms|
    ensures SortMessages(ms)[i] in ms && SortMessages(ms)[j] in ms
    ensures LexLe(SortKey(SortMessages(ms)[i]), SortKey(SortMessages(ms)[j]))
  {
    var k := Mapped(WithKey, ms);
    SortSorted(k);
    InSameMultiset(Sort(k), k, Sort(k)[i]);
    InSameMultiset(Sort(k), k, Sort(k)[j]);
  }

  lemma InCanonicalOrder(m: Message, n: Message)
    requires BigIntOf(m.sourceHeight).Some? && |m.sourceHeight| <= 24
    requires BigIntOf(n.sourceHeight).Some? && |n.sourceHeight| <= 24
    requires LexLe(SortKey(m), SortKey(n))
    ensures m.direction == SolanaToRobinhood ==> n.direction == SolanaToRobinhood
    ensures m.direction == n.direction ==> BigIntOf(m.sourceHeight).value <= BigIntOf(n.sourceHeight).value
  {
    if n.direction == RobinhoodToSolana && m.direction == SolanaToRobinhood {
      DirectionDecides(n, m);
    } else if m.direction == n.direction && BigIntOf(m.sourceHeight).value > BigIntOf(n.sourceHeight).value {
      HeightDecides(n, m);
    }
  }

  /**
   In canonical order all messages from Robinhood precede all from Solana, and heights never fall within a direction,
   whatever order the messages came in.
   */
  lemma CanonicallyOrdered(ms: seq<Message>, i: nat, j: nat)
    requires forall m :: m in ms ==> BigIntOf(m.sourceHeight).Some? && |m.sourceHeight| <= 24
    requires i < j < |ms|
    ensures var (m, n) := (SortMessages(ms)[i], SortMessages(ms)[j]);
      && BigIntOf(m.sourceHeight).Some? && BigIntOf(n.sourceHeight).Some?
      && (m.direction == SolanaToRobinhood ==> n.direction == SolanaToRobinhood)
      && (m.direction == n.direction ==> BigIntOf(m.sourceHeight).value <= BigIntOf(n.sourceHeight).value)
  {
    SortedPair(ms, i, j);
    InCanonicalOrder(SortMessages(ms)[i], SortMessages(ms)[j]);
  }
}
