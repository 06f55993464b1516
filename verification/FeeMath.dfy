/**
 Fee and dust arithmetic (programs/oft/src/instructions/quote_send.rs, quote_oft.rs, state/oft.rs).

 `PostFee` is the Token-2022 transfer fee, a library the program calls.  `CalculatePreFeeAmount`
 is the program's own inverse of it, with every u64 and u128 check of the source.
 */
module FeeMath {
  import opened Num

  const MAX_FEE_BASIS_POINTS := 10_000

  /** The fee of a Token-2022 mint in one epoch. */
  datatype TransferFee = TransferFee(maximumFee: u64, basisPoints: u16)

  predicate ValidTransferFee(f: TransferFee) {
    f.basisPoints <= MAX_FEE_BASIS_POINTS
  }

  predicate ValidMintFee(f: Option<TransferFee>) {
    f.Some? ==> ValidTransferFee(f.value)
  }

  function TokenFee(f: TransferFee, x: nat): nat {
    Min(CeilDiv(x * f.basisPoints, MAX_FEE_BASIS_POINTS), f.maximumFee)
  }

  /** What the receiving account is credited when `x` is transferred. */
  function PostFee(f: TransferFee, x: nat): int {
    x - TokenFee(f, x)
  }

  lemma TokenFeeAtMost(f: TransferFee, x: nat)
    requires ValidTransferFee(f)
    ensures 0 <= PostFee(f, x) <= x
  {
    CeilAdjoint(x * f.basisPoints, MAX_FEE_BASIS_POINTS, x);
    MulMono(f.basisPoints, MAX_FEE_BASIS_POINTS, x);
  }

  function GetPostFeeAmount(mintFee: Option<TransferFee>, amount: u64): u64
    requires ValidMintFee(mintFee)
  {
    if mintFee.None? then amount else (TokenFeeAtMost(mintFee.value, amount); PostFee(mintFee.value, amount))
  }

  /** A rate of all of the amount is a valid one: what is credited is what its cap leaves. */
  lemma WholeFee(maximumFee: u64, amount: u64)
    ensures var f := Some(TransferFee(maximumFee, 10_000));
      ValidMintFee(f) && GetPostFeeAmount(f, amount) == (if amount <= maximumFee then 0 else amount - maximumFee)
  {
    var f := TransferFee(maximumFee, 10_000);
    assert ValidMintFee(Some(f));
    CeilAdjoint(amount * 10_000, MAX_FEE_BASIS_POINTS, amount);
    CeilAdjoint(amount * 10_000, MAX_FEE_BASIS_POINTS, amount - 1);
  }

  function CheckedAdd(a: nat, b: nat, max: nat): Option<nat> {
    if a + b <= max then Some(a + b) else None
  }

  /** `ceil_div` over u128. */
  function CheckedCeilDiv(numerator: nat, denominator: nat): Option<nat> {
    var sum := CheckedAdd(numerator, denominator, U128_MAX);
    if sum.None? || sum.value == 0 || denominator == 0 then None else Some((sum.value - 1) / denominator)
  }

  function CalculatePreFeeAmount(f: TransferFee, post: u64): Option<nat> {
    if f.basisPoints == 0 then Some(post)
    else if post == 0 then Some(0)
    else if f.basisPoints == MAX_FEE_BASIS_POINTS then CheckedAdd(f.maximumFee, post, U64_MAX)
    else if post * MAX_FEE_BASIS_POINTS > U128_MAX || f.basisPoints > MAX_FEE_BASIS_POINTS then None
    else
      var raw := CheckedCeilDiv(post * MAX_FEE_BASIS_POINTS, MAX_FEE_BASIS_POINTS - f.basisPoints);
      if raw.None? || raw.value < post then None
      else if raw.value - post >= f.maximumFee then CheckedAdd(post, f.maximumFee, U64_MAX)
      else if raw.value <= U64_MAX then raw
      else None
  }

  function GetPreFeeAmount(mintFee: Option<TransferFee>, amount: u64): Option<nat> {
    if mintFee.None? then Some(amount) else CalculatePreFeeAmount(mintFee.value, amount)
  }

  // ---------- the inverse of the transfer fee ----------

  /** Without the cap, netting `goal` means clearing the ceiling of goal / (1 - rate). */
  lemma UncappedAdjoint(bps: nat, goal: nat, x: nat)
    requires bps < MAX_FEE_BASIS_POINTS
    ensures x - CeilDiv(x * bps, MAX_FEE_BASIS_POINTS) >= goal
            <==> x >= CeilDiv(goal * MAX_FEE_BASIS_POINTS, MAX_FEE_BASIS_POINTS - bps)
  {
    CeilAdjoint(x * bps, MAX_FEE_BASIS_POINTS, x - goal);
    CeilAdjoint(goal * MAX_FEE_BASIS_POINTS, MAX_FEE_BASIS_POINTS - bps, x);
    assert x * (MAX_FEE_BASIS_POINTS - bps) == x * MAX_FEE_BASIS_POINTS - x * bps;
  }

  /** The general case of `CalculatePreFeeAmount` is the lesser of the uncapped inverse and goal + cap. */
  lemma GeneralPreFee(f: TransferFee, goal: u64)
    requires 0 < f.basisPoints < MAX_FEE_BASIS_POINTS && goal > 0
    ensures var raw := CeilDiv(goal * MAX_FEE_BASIS_POINTS, MAX_FEE_BASIS_POINTS - f.basisPoints);
      var least := Min(raw, goal + f.maximumFee);
      CalculatePreFeeAmount(f, goal) == if least <= U64_MAX then Some(least) else None
  {
    var n, d := goal * MAX_FEE_BASIS_POINTS, MAX_FEE_BASIS_POINTS - f.basisPoints;
    var raw := CeilDiv(n, d);
    assert raw >= goal by {
      CeilAdjoint(n, d, goal - 1);
      MulMono(d, MAX_FEE_BASIS_POINTS, goal - 1);
      Distribute(goal, -1, MAX_FEE_BASIS_POINTS);
    }
    assert CheckedCeilDiv(n, d) == Some(raw);
  }

  lemma FullRateFee(x: nat)
    ensures CeilDiv(x * MAX_FEE_BASIS_POINTS, MAX_FEE_BASIS_POINTS) == x
  {
    CeilAdjoint(x * MAX_FEE_BASIS_POINTS, MAX_FEE_BASIS_POINTS, x);
    CeilAdjoint(x * MAX_FEE_BASIS_POINTS, MAX_FEE_BASIS_POINTS, x - 1);
  }

  lemma CappedAdjoint(f: TransferFee, goal: u64, x: nat)
    ensures PostFee(f, x) >= goal
            <==> x - CeilDiv(x * f.basisPoints, MAX_FEE_BASIS_POINTS) >= goal || x >= goal + f.maximumFee
  {
  }

  /**
   `CalculatePreFeeAmount` is the exact lower adjoint of the transfer fee: an amount nets at least
   `goal` exactly when it is at least the computed one, and when there is none no u64 amount nets it.
   */
  lemma PreFeeIsAdjoint(f: TransferFee, goal: u64, x: u64)
    requires ValidTransferFee(f)
    ensures CalculatePreFeeAmount(f, goal).Some? ==>
              (PostFee(f, x) >= goal <==> x >= CalculatePreFeeAmount(f, goal).value)
    ensures CalculatePreFeeAmount(f, goal).None? ==> PostFee(f, x) < goal
  {
    TokenFeeAtMost(f, x);
    if f.basisPoints == 0 {
      CeilAdjoint(0, MAX_FEE_BASIS_POINTS, 0);
    } else if goal == 0 {
    } else if f.basisPoints == MAX_FEE_BASIS_POINTS {
      FullRateFee(x);
    } else {
      UncappedAdjoint(f.basisPoints, goal, x);
      GeneralPreFee(f, goal);
      CappedAdjoint(f, goal, x);
    }
  }

  lemma PostFeeStepsByOne(f: TransferFee, x: nat)
    requires ValidTransferFee(f)
    ensures PostFee(f, x) <= PostFee(f, x + 1) <= PostFee(f, x) + 1
  {
    var d, n, m := MAX_FEE_BASIS_POINTS, x * f.basisPoints, (x + 1) * f.basisPoints;
    Distribute(x, 1, f.basisPoints);
    CeilAdjoint(n, d, CeilDiv(n, d));
    CeilAdjoint(m, d, CeilDiv(n, d) + 1);
    CeilAdjoint(m, d, CeilDiv(m, d));
    CeilAdjoint(n, d, CeilDiv(m, d));
  }

  lemma {:induction false} PostFeeMonotone(f: TransferFee, x: nat, y: nat)
    requires ValidTransferFee(f) && x <= y
    ensures PostFee(f, x) <= PostFee(f, y)
    decreases y - x
  {
    if x < y {
      PostFeeStepsByOne(f, x);
      PostFeeMonotone(f, x + 1, y);
    }
  }

  /** Sending the computed amount nets exactly the goal. */
  lemma PreFeeIsExact(f: TransferFee, goal: u64)
    requires ValidTransferFee(f) && CalculatePreFeeAmount(f, goal).Some?
    ensures CalculatePreFeeAmount(f, goal).value <= U64_MAX
    ensures PostFee(f, CalculatePreFeeAmount(f, goal).value) == goal
  {
    var p := CalculatePreFeeAmount(f, goal).value;
    PreFeeIsAdjoint(f, goal, p);
    if p > 0 {
      PreFeeIsAdjoint(f, goal, p - 1);
      PostFeeStepsByOne(f, p - 1);
    } else {
      TokenFeeAtMost(f, 0);
    }
  }

  // ---------- dust and application fee ----------

  function Ld2Sd(rate: u64, amount: nat): nat
    requires rate > 0
  {
    amount / rate
  }

  function Sd2Ld(rate: u64, amount: nat): Option<u64> {
    if amount * rate <= U64_MAX then Some(amount * rate) else None
  }

  function RemoveDust(rate: u64, amount: nat): nat
    requires rate > 0
  {
    amount - amount % rate
  }

  lemma WholeUnits(n: nat, d: nat)
    requires d > 0
    ensures 0 <= n - n % d <= n < n - n % d + d
    ensures n - n % d == (n / d) * d
    ensures (n - n % d) % d == 0 && (n - n % d) / d == n / d
  {
    var q, r := n / d, n % d;
    assert n == q * d + r;
    DivModUnique(q * d, d, q, 0);
  }

  lemma DustFree(rate: u64, amount: nat)
    requires rate > 0
    ensures 0 <= RemoveDust(rate, amount) <= amount < RemoveDust(rate, amount) + rate
    ensures RemoveDust(rate, amount) == Ld2Sd(rate, amount) * rate
    ensures RemoveDust(rate, amount) % rate == 0
    ensures Ld2Sd(rate, RemoveDust(rate, amount)) == Ld2Sd(rate, amount)
  {
    WholeUnits(amount, rate);
  }

  lemma DustFreeFixed(rate: u64, amount: nat)
    requires rate > 0 && amount % rate == 0
    ensures RemoveDust(rate, amount) == amount
    ensures Ld2Sd(rate, amount) * rate == amount
  {
    DustFree(rate, amount);
  }

  lemma RemoveDustMonotone(rate: u64, a: nat, b: nat)
    requires rate > 0 && a <= b
    ensures RemoveDust(rate, a) <= RemoveDust(rate, b)
  {
    DustFree(rate, a);
    DustFree(rate, b);
    FloorAdjoint(a, rate, a / rate);
    FloorAdjoint(b, rate, a / rate);
    MulMono(a / rate, b / rate, rate);
  }

  /** The result is cast `as u64`. */
  function CalculateFee(preFeeAmount: u64, defaultFeeBps: u16, feeBps: Option<u16>): u64 {
    var bps := if feeBps.Some? then feeBps.value else defaultFeeBps;
    if bps == 0 || preFeeAmount == 0 then 0
    else ((preFeeAmount * bps) / MAX_FEE_BASIS_POINTS) % (U64_MAX + 1)
  }

  datatype OftType = Native | Adapter

  datatype FeeConfig = FeeConfig(oftType: OftType, rate: u64, defaultFeeBps: u16, feeBps: Option<u16>)

  /** What the configuration instructions can leave behind. */
  predicate AllowedFees(c: FeeConfig) {
    c.rate > 0 && c.defaultFeeBps < MAX_FEE_BASIS_POINTS && (c.feeBps.Some? ==> c.feeBps.value < MAX_FEE_BASIS_POINTS)
  }

  datatype Amounts = Amounts(sent: u64, received: u64, fee: u64)

  /** None where the program returns an error or aborts on underflow. */
  function ComputeFeeAndAdjustAmount(amount: u64, c: FeeConfig, mintFee: Option<TransferFee>): Option<Amounts>
    requires c.rate > 0 && ValidMintFee(mintFee)
  {
    if c.oftType == Adapter then
      var gross := RemoveDust(c.rate, GetPostFeeAmount(mintFee, amount));
      var sent := GetPreFeeAmount(mintFee, gross);
      if sent.None? || sent.value > U64_MAX then None
      else
        var fee := RemoveDust(c.rate, CalculateFee(gross, c.defaultFeeBps, c.feeBps));
        if fee > gross then None else Some(Amounts(sent.value, gross - fee, fee))
    else
      var sent := RemoveDust(c.rate, amount);
      var fee := RemoveDust(c.rate, CalculateFee(sent, c.defaultFeeBps, c.feeBps));
      if fee > sent then None else Some(Amounts(sent, sent - fee, fee))
  }

  lemma FeeAtMost(preFeeAmount: u64, c: FeeConfig)
    requires AllowedFees(c)
    ensures CalculateFee(preFeeAmount, c.defaultFeeBps, c.feeBps) <= preFeeAmount
    ensures RemoveDust(c.rate, CalculateFee(preFeeAmount, c.defaultFeeBps, c.feeBps)) <= preFeeAmount
  {
    var bps := if c.feeBps.Some? then c.feeBps.value else c.defaultFeeBps;
    var x := preFeeAmount * bps;
    MulMono(bps, MAX_FEE_BASIS_POINTS, preFeeAmount);
    FloorAdjoint(x, MAX_FEE_BASIS_POINTS, preFeeAmount + 1);
    assert x / MAX_FEE_BASIS_POINTS <= preFeeAmount;
    DustFree(c.rate, CalculateFee(preFeeAmount, c.defaultFeeBps, c.feeBps));
  }

  lemma PreFeeOfReachable(mintFee: Option<TransferFee>, amount: u64, goal: u64)
    requires ValidMintFee(mintFee) && goal <= GetPostFeeAmount(mintFee, amount)
    ensures GetPreFeeAmount(mintFee, goal).Some?
    ensures var p := GetPreFeeAmount(mintFee, goal).value;
      && p <= amount && GetPostFeeAmount(mintFee, p) == goal
      && forall x: u64 :: x < p ==> GetPostFeeAmount(mintFee, x) < goal
  {
    if mintFee.Some? {
      PreFeeIsAdjoint(mintFee.value, goal, amount);
      PreFeeIsExact(mintFee.value, goal);
      forall x: u64 | x < GetPreFeeAmount(mintFee, goal).value
        ensures GetPostFeeAmount(mintFee, x) < goal
      {
        PreFeeIsAdjoint(mintFee.value, goal, x);
      }
    }
  }

  lemma MultiplesSubtract(rate: u64, a: nat, b: nat)
    requires rate > 0 && a % rate == 0 && b % rate == 0 && b <= a
    ensures (a - b) % rate == 0
  {
    var i, j := a / rate, b / rate;
    assert a == i * rate && b == j * rate;
    Distribute(i - j, j, rate);
    if i < j {
      MulMono(i + 1, j, rate);
      Distribute(i, 1, rate);
    }
    DivModUnique(a - b, rate, i - j, 0);
  }

  /**
   The Adapter branch on every amount: it never aborts; it takes no more than offered; what escrow is
   credited is exactly principal plus fee; both are whole shared-decimal units; less than one such unit
   of the netted amount is given up; and no smaller transfer would net as much.
   */
  lemma AdapterAmounts(amount: u64, c: FeeConfig, mintFee: Option<TransferFee>)
    requires AllowedFees(c) && c.oftType == Adapter && ValidMintFee(mintFee)
    ensures ComputeFeeAndAdjustAmount(amount, c, mintFee).Some?
    ensures var a := ComputeFeeAndAdjustAmount(amount, c, mintFee).value;
      && a.sent <= amount
      && GetPostFeeAmount(mintFee, a.sent) == a.received + a.fee
      && a.received % c.rate == 0 && a.fee % c.rate == 0
      && a.received + a.fee <= GetPostFeeAmount(mintFee, amount) < a.received + a.fee + c.rate
      && (forall x: u64 :: x < a.sent ==> GetPostFeeAmount(mintFee, x) < a.received + a.fee)
  {
    var net := GetPostFeeAmount(mintFee, amount);
    var gross := RemoveDust(c.rate, net);
    DustFree(c.rate, net);
    PreFeeOfReachable(mintFee, amount, gross);
    FeeAtMost(gross, c);
    var rawFee := CalculateFee(gross, c.defaultFeeBps, c.feeBps);
    var fee := RemoveDust(c.rate, rawFee);
    DustFree(c.rate, rawFee);
    MultiplesSubtract(c.rate, gross, fee);
  }

  lemma UnwrappedFee(g: u64, bps: nat)
    requires bps < MAX_FEE_BASIS_POINTS
    ensures ((g * bps) / MAX_FEE_BASIS_POINTS) % (U64_MAX + 1) == (g * bps) / MAX_FEE_BASIS_POINTS
    ensures bps == 0 || g == 0 ==> (g * bps) / MAX_FEE_BASIS_POINTS == 0
  {
    MulMono(bps, MAX_FEE_BASIS_POINTS, g);
    FloorAdjoint(g * bps, MAX_FEE_BASIS_POINTS, g + 1);
  }

  lemma FeeOf(gross: u64, c: FeeConfig, bps: nat)
    requires AllowedFees(c) && bps == if c.feeBps.Some? then c.feeBps.value else c.defaultFeeBps
    ensures var fee := RemoveDust(c.rate, CalculateFee(gross, c.defaultFeeBps, c.feeBps));
      fee % c.rate == 0 && fee <= gross
      && fee * MAX_FEE_BASIS_POINTS <= gross * bps < (fee + c.rate) * MAX_FEE_BASIS_POINTS
  {
    var raw := CalculateFee(gross, c.defaultFeeBps, c.feeBps);
    var fee := RemoveDust(c.rate, raw);
    FeeAtMost(gross, c);
    UnwrappedFee(gross, bps);
    DustFree(c.rate, raw);
    FloorAdjoint(gross * bps, MAX_FEE_BASIS_POINTS, fee);
    FloorAdjoint(gross * bps, MAX_FEE_BASIS_POINTS, fee + c.rate);
  }

  /**
   The fee, for either type: the peer's own rate if it has one and the default rate otherwise, of what is received
   and charged together, rounded down to whole shared-decimal units.
   */
  lemma FeeCharged(amount: u64, c: FeeConfig, mintFee: Option<TransferFee>)
    requires AllowedFees(c) && ValidMintFee(mintFee)
    ensures var a := ComputeFeeAndAdjustAmount(amount, c, mintFee);
      var bps := if c.feeBps.Some? then c.feeBps.value else c.defaultFeeBps;
      && a.Some? && a.value.fee % c.rate == 0
      && a.value.fee * 10_000 <= (a.value.received + a.value.fee) * bps < (a.value.fee + c.rate) * 10_000
  {
    var bps := if c.feeBps.Some? then c.feeBps.value else c.defaultFeeBps;
    if c.oftType == Adapter {
      AdapterAmounts(amount, c, mintFee);
      DustFree(c.rate, GetPostFeeAmount(mintFee, amount));
      FeeOf(RemoveDust(c.rate, GetPostFeeAmount(mintFee, amount)), c, bps);
    } else {
      DustFree(c.rate, amount);
      FeeOf(RemoveDust(c.rate, amount), c, bps);
    }
  }

  /** The Native branch sends the largest whole amount offered, and splits it into fee and received amount. */
  lemma NativeAmounts(amount: u64, c: FeeConfig, mintFee: Option<TransferFee>)
    requires AllowedFees(c) && c.oftType == Native && ValidMintFee(mintFee)
    ensures var a := ComputeFeeAndAdjustAmount(amount, c, mintFee);
      && a.Some? && a.value.sent % c.rate == 0 && a.value.received % c.rate == 0
      && a.value.sent <= amount < a.value.sent + c.rate && a.value.received + a.value.fee == a.value.sent
  {
    var sent := RemoveDust(c.rate, amount);
    DustFree(c.rate, amount);
    FeeAtMost(sent, c);
    DustFree(c.rate, CalculateFee(sent, c.defaultFeeBps, c.feeBps));
    MultiplesSubtract(c.rate, sent, RemoveDust(c.rate, CalculateFee(sent, c.defaultFeeBps, c.feeBps)));
  }

  /** Offering the adjusted amount again changes nothing. */
  lemma AdjustmentIsIdempotent(amount: u64, c: FeeConfig, mintFee: Option<TransferFee>)
    requires AllowedFees(c) && c.oftType == Adapter && ValidMintFee(mintFee)
    ensures var a := ComputeFeeAndAdjustAmount(amount, c, mintFee);
      a.Some? && ComputeFeeAndAdjustAmount(a.value.sent, c, mintFee) == a
  {
    AdapterAmounts(amount, c, mintFee);
    DustFree(c.rate, GetPostFeeAmount(mintFee, amount));
    DustFreeFixed(c.rate, RemoveDust(c.rate, GetPostFeeAmount(mintFee, amount)));
  }

  lemma BpsGrowth(g: nat, h: nat, bps: nat)
    requires g <= h && bps < MAX_FEE_BASIS_POINTS
    ensures (g * bps) / MAX_FEE_BASIS_POINTS <= (h * bps) / MAX_FEE_BASIS_POINTS
            <= (g * bps) / MAX_FEE_BASIS_POINTS + (h - g)
  {
    var d := MAX_FEE_BASIS_POINTS;
    var fg := (g * bps) / d;
    Distribute(g, h - g, bps);
    MulMono(bps, d, h - g);
    FloorAdjoint(g * bps, d, fg);
    FloorAdjoint(g * bps, d, fg + 1);
    FloorAdjoint(h * bps, d, fg);
    FloorAdjoint(h * bps, d, fg + (h - g) + 1);
  }

  lemma FeeGrowth(g: u64, h: u64, c: FeeConfig)
    requires AllowedFees(c) && g <= h
    ensures CalculateFee(g, c.defaultFeeBps, c.feeBps) <= CalculateFee(h, c.defaultFeeBps, c.feeBps)
            <= CalculateFee(g, c.defaultFeeBps, c.feeBps) + (h - g)
  {
    var bps := if c.feeBps.Some? then c.feeBps.value else c.defaultFeeBps;
    FeeAtMost(g, c);
    FeeAtMost(h, c);
    BpsGrowth(g, h, bps);
    UnwrappedFee(g, bps);
    UnwrappedFee(h, bps);
  }

  /** Removing dust from two values at most a whole number of units apart keeps them at most that far apart. */
  lemma DustGap(rate: u64, a: nat, b: nat, units: nat)
    requires rate > 0 && a <= b <= a + units * rate
    ensures RemoveDust(rate, b) <= RemoveDust(rate, a) + units * rate
  {
    var qa, qb := a / rate, b / rate;
    DustFree(rate, a);
    DustFree(rate, b);
    FloorAdjoint(b, rate, qa + units + 1);
    Distribute(qa, units, rate);
    Distribute(qa + units, 1, rate);
    assert qb <= qa + units;
    MulMono(qb, qa + units, rate);
  }

  /** Two amounts without their dust are a whole number of units apart. */
  lemma WholeUnitsApart(rate: u64, a: nat, b: nat)
    requires rate > 0 && a <= b
    ensures a / rate <= b / rate
    ensures RemoveDust(rate, b) == RemoveDust(rate, a) + (b / rate - a / rate) * rate
  {
    FloorAdjoint(a, rate, b / rate + 1);
    FloorAdjoint(b, rate, b / rate + 1);
    DustFree(rate, a);
    DustFree(rate, b);
    Distribute(b / rate - a / rate, a / rate, rate);
  }

  /** Offering more never delivers less, across every fee, dust and cap boundary. */
  lemma DeliveryIsMonotone(x: u64, y: u64, c: FeeConfig, mintFee: Option<TransferFee>)
    requires AllowedFees(c) && c.oftType == Adapter && ValidMintFee(mintFee) && x <= y
    ensures var (p, q) := (ComputeFeeAndAdjustAmount(x, c, mintFee), ComputeFeeAndAdjustAmount(y, c, mintFee));
      p.Some? && q.Some? && p.value.received <= q.value.received
  {
    AdapterAmounts(x, c, mintFee);
    AdapterAmounts(y, c, mintFee);
    if mintFee.Some? {
      PostFeeMonotone(mintFee.value, x, y);
    }
    var nx, ny := GetPostFeeAmount(mintFee, x), GetPostFeeAmount(mintFee, y);
    var gx, gy := RemoveDust(c.rate, nx), RemoveDust(c.rate, ny);
    WholeUnitsApart(c.rate, nx, ny);
    RemoveDustMonotone(c.rate, nx, ny);
    FeeGrowth(gx, gy, c);
    var units := ny / c.rate - nx / c.rate;
    DustGap(c.rate, CalculateFee(gx, c.defaultFeeBps, c.feeBps), CalculateFee(gy, c.defaultFeeBps, c.feeBps), units);
  }

  // ---------- the fee breakdown of quote_oft ----------

  datatype FeeDetail = FeeDetail(feeAmount: u64, description: string)

  function QuoteFeeDetails(a: Amounts): seq<FeeDetail> {
    (if a.received + a.fee < a.sent then [FeeDetail(a.sent - a.fee - a.received, "Token2022 Transfer Fee")] else [])
    + (if a.fee > 0 then [FeeDetail(a.fee, "Cross Chain Fee")] else [])
  }

  function QuoteOft(paused: bool, amount: u64, minAmount: u64, c: FeeConfig, mintFee: Option<TransferFee>)
    : Option<(seq<FeeDetail>, Amounts)>
    requires c.rate > 0 && ValidMintFee(mintFee)
  {
    var a := ComputeFeeAndAdjustAmount(amount, c, mintFee);
    if paused || a.None? || a.value.received < minAmount then None
    else Some((QuoteFeeDetails(a.value), a.value))
  }

  function SumFees(ds: seq<FeeDetail>): nat {
    if ds == [] then 0 else ds[0].feeAmount + SumFees(ds[1..])
  }

  lemma NetAtMost(mintFee: Option<TransferFee>, amount: u64)
    requires ValidMintFee(mintFee)
    ensures GetPostFeeAmount(mintFee, amount) <= amount
  {
    if mintFee.Some? {
      TokenFeeAtMost(mintFee.value, amount);
    }
  }

  lemma DetailsAddUp(a: Amounts)
    requires a.received + a.fee <= a.sent
    ensures a.received + SumFees(QuoteFeeDetails(a)) == a.sent
    ensures forall d :: d in QuoteFeeDetails(a) ==> d.feeAmount > 0
  {
    var ds := QuoteFeeDetails(a);
    if |ds| == 2 {
      assert ds[1..] == [ds[1]] && ds[1..][1..] == [];
    } else if |ds| == 1 {
      assert ds[1..] == [];
    }
  }

  /** The quoted details account for every unit that is sent and not received, and none of them is zero. */
  lemma QuoteAddsUp(paused: bool, amount: u64, minAmount: u64, c: FeeConfig, mintFee: Option<TransferFee>)
    requires AllowedFees(c) && c.oftType == Adapter && ValidMintFee(mintFee)
    ensures var q := QuoteOft(paused, amount, minAmount, c, mintFee);
      q.Some? ==> q.value.1.received + SumFees(q.value.0) == q.value.1.sent
                  && forall d :: d in q.value.0 ==> d.feeAmount > 0
  {
    AdapterAmounts(amount, c, mintFee);
    var a := ComputeFeeAndAdjustAmount(amount, c, mintFee).value;
    NetAtMost(mintFee, a.sent);
    DetailsAddUp(a);
  }

  /**
   A quote is given exactly when the program is not paused and enough arrives, and it names exactly the two fees that
   are not zero: what the mint withholds of the transfer, and what the bridge charges.
   */
  lemma QuoteNamesFees(paused: bool, amount: u64, minAmount: u64, c: FeeConfig, mintFee: Option<TransferFee>)
    requires AllowedFees(c) && c.oftType == Adapter && ValidMintFee(mintFee)
    ensures var q := QuoteOft(paused, amount, minAmount, c, mintFee);
      var a := ComputeFeeAndAdjustAmount(amount, c, mintFee);
      && a.Some? && (q.Some? <==> !paused && a.value.received >= minAmount)
      && (q.Some? ==>
            var withheld := a.value.sent - GetPostFeeAmount(mintFee, a.value.sent);
            && q.value.1 == a.value
            && (forall d :: d in q.value.0
                            <==> d.feeAmount > 0
                                 && ((d.description == "Token2022 Transfer Fee" && d.feeAmount == withheld)
                                                     || (d.description == "Cross Chain Fee"
                                                         && d.feeAmount == a.value.fee))))
  {
    AdapterAmounts(amount, c, mintFee);
    NetAtMost(mintFee, ComputeFeeAndAdjustAmount(amount, c, mintFee).value.sent);
  }
}
