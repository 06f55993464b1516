/**
 The token bucket of contracts/SanOFT.sol.

 The functions describe an ideal bucket that is credited `refillAmount / refillDuration` tokens
 a second: `Credit` is its level in units of 1/refillDuration token.  The class `TokenBucket`
 updates its storage fields with the contract's mulDiv, mulmod and carry steps and is proved
 to be that ideal bucket.
 */
module SanOftBucket {
  import opened Num

  const CANARY_CAPACITY := 500_000_000_000
  const CANARY_REFILL_AMOUNT := 500_000_000_000
  const CANARY_REFILL_DURATION := 86_400

  datatype Bucket = Bucket(
    capacity: nat, available: nat, refillAmount: nat, refillDuration: nat, lastUpdated: nat, remainder: nat)

  predicate ValidConfiguration(capacity: nat, refillAmount: nat, refillDuration: nat) {
    0 < capacity <= U64_MAX && 0 < refillAmount <= capacity && 0 < refillDuration
  }

  /** What every reachable bucket satisfies; in particular a full bucket carries no fraction. */
  predicate ValidBucket(b: Bucket) {
    && ValidConfiguration(b.capacity, b.refillAmount, b.refillDuration)
    && b.refillDuration <= U64_MAX
    && b.available <= b.capacity
    && b.remainder < b.refillDuration
    && (b.available == b.capacity ==> b.remainder == 0)
  }

  /** The level in units of 1/refillDuration token. */
  function Credit(b: Bucket): nat {
    b.available * b.refillDuration + b.remainder
  }

  function ElapsedSince(b: Bucket, now: nat): nat {
    if now > b.lastUpdated then now - b.lastUpdated else 0
  }

  /** Saturating linear growth. */
  function CreditAt(b: Bucket, now: nat): nat {
    Min(b.capacity * b.refillDuration, Credit(b) + ElapsedSince(b, now) * b.refillAmount)
  }

  function Settled(b: Bucket, now: nat): Bucket
    requires b.refillDuration > 0
  {
    b.(available := CreditAt(b, now) / b.refillDuration,
       remainder := CreditAt(b, now) % b.refillDuration,
       lastUpdated := now)
  }

  function Drawn(b: Bucket, amount: nat, now: nat): Option<Bucket>
    requires b.refillDuration > 0
  {
    var s := Settled(b, now);
    if amount <= s.available then Some(s.(available := s.available - amount)) else None
  }

  function Configured(b: Bucket, now: nat, capacity: nat, refillAmount: nat, refillDuration: u64): Option<Bucket>
    requires b.refillDuration > 0
  {
    if !ValidConfiguration(capacity, refillAmount, refillDuration) then None
    else Some(Bucket(capacity, Min(Settled(b, now).available, capacity), refillAmount, refillDuration, now, 0))
  }

  function InitialBucket(now: nat): Bucket {
    Bucket(CANARY_CAPACITY, CANARY_CAPACITY, CANARY_REFILL_AMOUNT, CANARY_REFILL_DURATION, now, 0)
  }

  // ---------- the ideal bucket ----------

  lemma CreditBounds(b: Bucket)
    requires ValidBucket(b)
    ensures Credit(b) <= b.capacity * b.refillDuration
    ensures b.available < b.capacity <==> Credit(b) < b.capacity * b.refillDuration
  {
    if b.available < b.capacity {
      MulMono(b.available + 1, b.capacity, b.refillDuration);
      assert (b.available + 1) * b.refillDuration == b.available * b.refillDuration + b.refillDuration;
    }
  }

  lemma SettledIsValid(b: Bucket, now: nat)
    requires ValidBucket(b)
    ensures ValidBucket(Settled(b, now))
    ensures Credit(Settled(b, now)) == CreditAt(b, now)
  {
    SplitLevel(CreditAt(b, now), b.refillDuration, b.capacity);
  }

  /** Settling at t1 and again at t2 is settling once at t2. */
  lemma SettleComposes(b: Bucket, t1: nat, t2: nat)
    requires ValidBucket(b) && b.lastUpdated <= t1 <= t2
    ensures Settled(Settled(b, t1), t2) == Settled(b, t2)
  {
    SettledIsValid(b, t1);
    var r := b.refillAmount;
    assert (t2 - b.lastUpdated) * r == (t1 - b.lastUpdated) * r + (t2 - t1) * r;
    assert CreditAt(Settled(b, t1), t2) == CreditAt(b, t2);
  }

  lemma DrawnIsValid(b: Bucket, amount: nat, now: nat)
    requires ValidBucket(b) && Drawn(b, amount, now).Some?
    ensures ValidBucket(Drawn(b, amount, now).value)
    ensures Credit(Drawn(b, amount, now).value) == CreditAt(b, now) - amount * b.refillDuration
    ensures amount <= b.capacity <= U64_MAX
  {
    SettledIsValid(b, now);
    var s := Settled(b, now);
    assert (s.available - amount) * s.refillDuration == s.available * s.refillDuration - amount * s.refillDuration;
  }

  /** A reconfiguration never leaves more than was there when settled, nor more than the new capacity. */
  lemma ConfiguredNeverAdds(b: Bucket, now: nat, capacity: nat, refillAmount: nat, refillDuration: u64)
    requires ValidBucket(b) && Configured(b, now, capacity, refillAmount, refillDuration).Some?
    ensures var b' := Configured(b, now, capacity, refillAmount, refillDuration).value;
      ValidBucket(b') && b'.available <= capacity && b'.available <= Settled(b, now).available
  {
    SettledIsValid(b, now);
  }

  // ---------- throughput over runs ----------

  /** `amount` is drawn `wait` seconds after the previous draw. */
  datatype Draw = Draw(wait: nat, amount: nat)

  function AfterDraws(b: Bucket, start: nat, ds: seq<Draw>): Option<Bucket>
    requires b.refillDuration > 0
    decreases |ds|
  {
    if ds == [] then Some(b)
    else
      var next := Drawn(b, ds[0].amount, start + ds[0].wait);
      if next.None? then None else AfterDraws(next.value, start + ds[0].wait, ds[1..])
  }

  function TotalWait(ds: seq<Draw>): nat {
    if ds == [] then 0 else ds[0].wait + TotalWait(ds[1..])
  }

  function TotalDrawn(ds: seq<Draw>): nat {
    if ds == [] then 0 else ds[0].amount + TotalDrawn(ds[1..])
  }

  lemma CreditNow(b: Bucket)
    requires ValidBucket(b)
    ensures CreditAt(b, b.lastUpdated) == Credit(b)
  {
    CreditBounds(b);
  }

  lemma CreditGrowth(b: Bucket, start: nat, wait: nat)
    requires b.lastUpdated <= start
    ensures CreditAt(b, start + wait) <= CreditAt(b, start) + wait * b.refillAmount
  {
    Distribute(start - b.lastUpdated, wait, b.refillAmount);
  }

  lemma {:induction false} DrawsSpendCredit(b: Bucket, start: nat, ds: seq<Draw>)
    requires ValidBucket(b) && b.lastUpdated <= start
    ensures AfterDraws(b, start, ds).Some? ==>
              TotalDrawn(ds) * b.refillDuration <= CreditAt(b, start) + TotalWait(ds) * b.refillAmount
    decreases |ds|
  {
    if ds != [] && AfterDraws(b, start, ds).Some? {
      var a, w, rest := ds[0].amount, ds[0].wait, ds[1..];
      var t := start + w;
      var b' := Drawn(b, a, t).value;
      DrawnIsValid(b, a, t);
      DrawsSpendCredit(b', t, rest);
      CreditNow(b');
      CreditGrowth(b, start, w);
      Distribute(a, TotalDrawn(rest), b.refillDuration);
      Distribute(w, TotalWait(rest), b.refillAmount);
    }
  }

  lemma BoundFromCredit(total: nat, cap: nat, d: nat, n: nat)
    requires d > 0 && total * d <= cap * d + n
    ensures total <= cap + n / d
  {
    FloorAdjoint(n, d, total - cap);
    Distribute(total - cap, cap, d);
  }

  /**
   Everything a bucket admits in a window, whatever the sequence of draws, is at most its capacity
   plus what the refill rate yields in that window.
   */
  lemma GrossThroughput(b: Bucket, start: nat, ds: seq<Draw>)
    requires ValidBucket(b) && b.lastUpdated <= start
    ensures AfterDraws(b, start, ds).Some? ==>
              TotalDrawn(ds) <= b.capacity + (TotalWait(ds) * b.refillAmount) / b.refillDuration
  {
    if AfterDraws(b, start, ds).Some? {
      DrawsSpendCredit(b, start, ds);
      BoundFromCredit(TotalDrawn(ds), b.capacity, b.refillDuration, TotalWait(ds) * b.refillAmount);
    }
  }

  /** What a bucket drained `i` seconds ago and every second since yields in the next second. */
  function Yield(r: nat, d: nat, i: nat): nat
    requires d > 0
  {
    ((i * r) % d + r) / d
  }

  /** Takes whatever is available at each of the next `n` seconds. */
  function DrainEverySecond(r: nat, d: nat, i: nat, n: nat): seq<Draw>
    requires d > 0
    decreases n
  {
    if n == 0 then [] else [Draw(1, Yield(r, d, i))] + DrainEverySecond(r, d, i + 1, n - 1)
  }

  lemma CarryStep(i: nat, r: nat, d: nat)
    requires d > 0
    ensures ((i * r) % d + r) % d == ((i + 1) * r) % d
    ensures (i * r) / d + ((i * r) % d + r) / d == ((i + 1) * r) / d
  {
    var x := (i * r) % d + r;
    assert (i + 1) * r == i * r + r;
    assert i * r == ((i * r) / d) * d + (i * r) % d;
    assert x == (x / d) * d + x % d;
    assert ((i * r) / d + x / d) * d == ((i * r) / d) * d + (x / d) * d;
    DivModUnique((i + 1) * r, d, (i * r) / d + x / d, x % d);
  }

  lemma OneSecondFits(cap: nat, d: nat, fraction: nat, r: nat)
    requires fraction < d && r <= cap && cap > 0
    ensures fraction + r <= cap * d
  {
    Distribute(cap - 1, 1, d);
    MulMono(1, d, cap - 1);
  }

  /** The bucket was drained and `i` seconds' worth of fractions have accumulated. */
  ghost predicate Drained(b: Bucket, i: nat) {
    ValidBucket(b) && b.available == 0 && b.remainder == (i * b.refillAmount) % b.refillDuration
  }

  lemma DrainOneSecond(b: Bucket, i: nat)
    requires Drained(b, i)
    ensures var b' := Drawn(b, Yield(b.refillAmount, b.refillDuration, i), b.lastUpdated + 1);
      && b'.Some? && Drained(b'.value, i + 1) && b'.value.lastUpdated == b.lastUpdated + 1
      && b'.value.refillAmount == b.refillAmount && b'.value.refillDuration == b.refillDuration
  {
    var r, d, now := b.refillAmount, b.refillDuration, b.lastUpdated + 1;
    OneSecondFits(b.capacity, d, b.remainder, r);
    assert Credit(b) == b.remainder;
    assert CreditAt(b, now) == b.remainder + r;
    CarryStep(i, r, d);
    DrawnIsValid(b, Yield(r, d, i), now);
  }

  lemma {:induction false} DrainAdmitted(b: Bucket, i: nat, n: nat)
    requires Drained(b, i)
    ensures AfterDraws(b, b.lastUpdated, DrainEverySecond(b.refillAmount, b.refillDuration, i, n)).Some?
    decreases n
  {
    if n > 0 {
      var r, d := b.refillAmount, b.refillDuration;
      DrainOneSecond(b, i);
      var b' := Drawn(b, Yield(r, d, i), b.lastUpdated + 1).value;
      DrainAdmitted(b', i + 1, n - 1);
      assert DrainEverySecond(r, d, i, n)[1..] == DrainEverySecond(r, d, i + 1, n - 1);
    }
  }

  lemma {:induction false} DrainTotals(r: nat, d: nat, i: nat, n: nat)
    requires d > 0
    ensures TotalWait(DrainEverySecond(r, d, i, n)) == n
    ensures (i * r) / d + TotalDrawn(DrainEverySecond(r, d, i, n)) == ((i + n) * r) / d
    decreases n
  {
    if n > 0 {
      CarryStep(i, r, d);
      DrainTotals(r, d, i + 1, n - 1);
      assert i + 1 + (n - 1) == i + n;
      assert DrainEverySecond(r, d, i, n)[1..] == DrainEverySecond(r, d, i + 1, n - 1);
    }
  }

  lemma DrainFromFull(b: Bucket)
    requires ValidBucket(b) && b.available == b.capacity
    ensures var b' := Drawn(b, b.capacity, b.lastUpdated);
      && b'.Some? && Drained(b'.value, 0) && b'.value.lastUpdated == b.lastUpdated
      && b'.value.refillAmount == b.refillAmount && b'.value.refillDuration == b.refillDuration
  {
    CreditNow(b);
    DivModUnique(b.capacity * b.refillDuration, b.refillDuration, b.capacity, 0);
    DivModUnique(0, b.refillDuration, 0, 0);
    DrawnIsValid(b, b.capacity, b.lastUpdated);
  }

  function DrainFrom(b: Bucket, n: nat): seq<Draw>
    requires b.refillDuration > 0
  {
    [Draw(0, b.capacity)] + DrainEverySecond(b.refillAmount, b.refillDuration, 0, n)
  }

  lemma TightTotals(b: Bucket, n: nat)
    requires b.refillDuration > 0
    ensures TotalWait(DrainFrom(b, n)) == n
    ensures TotalDrawn(DrainFrom(b, n)) == b.capacity + (n * b.refillAmount) / b.refillDuration
  {
    DrainTotals(b.refillAmount, b.refillDuration, 0, n);
    DivModUnique(0, b.refillDuration, 0, 0);
    assert DrainFrom(b, n)[1..] == DrainEverySecond(b.refillAmount, b.refillDuration, 0, n);
  }

  lemma TightDraws(b: Bucket, n: nat)
    requires ValidBucket(b) && b.available == b.capacity
    ensures AfterDraws(b, b.lastUpdated, DrainFrom(b, n)).Some?
    ensures TotalWait(DrainFrom(b, n)) == n
    ensures TotalDrawn(DrainFrom(b, n)) == b.capacity + (n * b.refillAmount) / b.refillDuration
  {
    DrainFromFull(b);
    var empty := Drawn(b, b.capacity, b.lastUpdated).value;
    DrainAdmitted(empty, 0, n);
    var rest := DrainEverySecond(b.refillAmount, b.refillDuration, 0, n);
    assert DrainFrom(b, n)[1..] == rest;
    TightTotals(b, n);
  }

  /** The bound of `GrossThroughput` is attained over every window, starting from a full bucket. */
  lemma ThroughputIsTight(b: Bucket, n: nat)
    requires ValidBucket(b) && b.available == b.capacity
    ensures exists ds :: AfterDraws(b, b.lastUpdated, ds).Some? && TotalWait(ds) == n
              && TotalDrawn(ds) == b.capacity + (n * b.refillAmount) / b.refillDuration
  {
    TightDraws(b, n);
  }

  // ---------- waiting ----------

  /** Seconds after which any bucket of this configuration is full. */
  function FillTime(b: Bucket): nat
    requires b.refillAmount > 0
  {
    CeilDiv(b.capacity * b.refillDuration, b.refillAmount)
  }

  lemma FullAfterFillTime(b: Bucket, now: nat)
    requires ValidBucket(b) && now >= b.lastUpdated + FillTime(b)
    ensures Settled(b, now).available == b.capacity
  {
    var full := b.capacity * b.refillDuration;
    CeilAdjoint(full, b.refillAmount, now - b.lastUpdated);
    assert CreditAt(b, now) == full;
    DivModUnique(full, b.refillDuration, b.capacity, 0);
  }

  /** A draw can ever succeed under an unchanged configuration exactly when it fits the capacity. */
  lemma EventuallyDrawable(b: Bucket, amount: nat)
    requires ValidBucket(b)
    ensures amount <= b.capacity <==> exists now :: now >= b.lastUpdated && Drawn(b, amount, now).Some?
  {
    if amount <= b.capacity {
      var now := b.lastUpdated + FillTime(b);
      FullAfterFillTime(b, now);
      assert Drawn(b, amount, now).Some?;
    }
    forall now: nat | Drawn(b, amount, now).Some?
      ensures amount <= b.capacity
    {
      DrawnIsValid(b, amount, now);
    }
  }

  // ---------- what can be drawn, and when ----------

  /** An amount can be drawn exactly when it fits the capacity and the level and refill so far pay for it. */
  lemma DrawableExactly(b: Bucket, amount: nat, now: nat)
    requires ValidBucket(b)
    ensures Drawn(b, amount, now).Some?
            <==> amount <= b.capacity
                 && amount * b.refillDuration
                    <= b.available * b.refillDuration + b.remainder + ElapsedSince(b, now) * b.refillAmount
  {
    var d := b.refillDuration;
    FloorAdjoint(CreditAt(b, now), d, amount);
    if amount <= b.capacity {
      MulMono(amount, b.capacity, d);
    } else {
      MulMono(b.capacity + 1, amount, d);
      Distribute(b.capacity, 1, d);
    }
  }

  /** A configuration is accepted exactly within these bounds. */
  lemma ConfigurableExactly(b: Bucket, now: nat, capacity: nat, refillAmount: nat, refillDuration: u64)
    requires ValidBucket(b)
    ensures Configured(b, now, capacity, refillAmount, refillDuration).Some?
            <==> 1 <= capacity <= U64_MAX && 1 <= refillAmount <= capacity && 1 <= refillDuration
  {
  }

  lemma WholeLevel(kept: nat, wait: nat, r: nat, d: nat, amount: nat)
    requires d > 0
    ensures amount * d <= kept * d + wait * r <==> amount <= kept + (wait * r) / d
  {
    FloorAdjoint(wait * r, d, amount - kept);
    Distribute(amount - kept, kept, d);
  }

  /**
   After an accepted reconfiguration and a wait, an amount can be drawn exactly when it fits the new capacity and
   the new refill of the wait makes up for what could not be drawn before.
   */
  lemma ConfiguredDraws(b: Bucket, now: nat, capacity: nat, refillAmount: nat, refillDuration: u64, wait: nat,
                        amount: nat)
    requires ValidBucket(b) && Configured(b, now, capacity, refillAmount, refillDuration).Some?
    ensures var b' := Configured(b, now, capacity, refillAmount, refillDuration).value;
      Drawn(b', amount, now + wait).Some?
      <==> amount <= capacity
           && amount <= Min(Settled(b, now).available, capacity) + (wait * refillAmount) / refillDuration
  {
    var b' := Configured(b, now, capacity, refillAmount, refillDuration).value;
    ConfiguredNeverAdds(b, now, capacity, refillAmount, refillDuration);
    DrawableExactly(b', amount, now + wait);
    WholeLevel(Min(Settled(b, now).available, capacity), wait, refillAmount, refillDuration, amount);
  }

  /** Right after it exactly what could be drawn just before can be drawn, up to the new capacity. */
  lemma ConfiguredKeepsLevel(b: Bucket, now: nat, capacity: nat, refillAmount: nat, refillDuration: u64, amount: nat)
    requires ValidBucket(b) && Configured(b, now, capacity, refillAmount, refillDuration).Some?
    ensures Drawn(Configured(b, now, capacity, refillAmount, refillDuration).value, amount, now).Some?
            <==> Drawn(b, amount, now).Some? && amount <= capacity
  {
    ConfiguredDraws(b, now, capacity, refillAmount, refillDuration, 0, amount);
    SettledIsValid(b, now);
  }

  /** From then on the three arguments are the terms of the throughput bound, and the bucket fills to capacity. */
  lemma ConfiguredThroughput(b: Bucket, now: nat, capacity: nat, refillAmount: nat, refillDuration: u64, ds: seq<Draw>)
    requires ValidBucket(b) && Configured(b, now, capacity, refillAmount, refillDuration).Some?
    ensures var b' := Configured(b, now, capacity, refillAmount, refillDuration).value;
      AfterDraws(b', now, ds).Some? ==> TotalDrawn(ds) <= capacity + (TotalWait(ds) * refillAmount) / refillDuration
    ensures refillDuration > 0 && refillAmount > 0
    ensures Drawn(Configured(b, now, capacity, refillAmount, refillDuration).value, capacity,
                  now + CeilDiv(capacity * refillDuration, refillAmount)).Some?
  {
    var b' := Configured(b, now, capacity, refillAmount, refillDuration).value;
    ConfiguredNeverAdds(b, now, capacity, refillAmount, refillDuration);
    GrossThroughput(b', now, ds);
    FullAfterFillTime(b', now + CeilDiv(capacity * refillDuration, refillAmount));
  }

  // ---------- the contract's own steps ----------

  lemma DivShrinks(x: nat, d: nat)
    requires d > 0
    ensures x / d <= x && x % d < d
  {
    FloorAdjoint(x, d, x + 1);
    MulMono(1, d, x + 1);
  }

  /** Every intermediate value of `_preview` fits uint256 while timestamps fit 64 bits. */
  lemma PreviewFitsUint256(b: Bucket, now: u64)
    requires ValidBucket(b)
    ensures (ElapsedSince(b, now) * b.refillAmount) / b.refillDuration + 1 <= U256_MAX
    ensures b.available + (ElapsedSince(b, now) * b.refillAmount) / b.refillDuration + 1 <= U256_MAX
    ensures (ElapsedSince(b, now) * b.refillAmount) % b.refillDuration + b.remainder <= U256_MAX
  {
    var x := ElapsedSince(b, now) * b.refillAmount;
    MulMono(ElapsedSince(b, now), U64_MAX, b.refillAmount);
    DivShrinks(x, b.refillDuration);
  }

  /** With no time elapsed, or a full bucket, the level stands. */
  lemma StandingLevel(b: Bucket, now: nat)
    requires ValidBucket(b) && (now <= b.lastUpdated || b.available == b.capacity)
    ensures CreditAt(b, now) == Credit(b)
  {
    CreditBounds(b);
    MulMono(0, ElapsedSince(b, now), b.refillAmount);
  }

  /** `added` wholes and a fraction arrive on top of `available` wholes, under a cap. */
  lemma CappedSum(cap: nat, available: nat, added: nat, combined: nat, d: nat)
    requires available <= cap && combined < d
    ensures (available + added) * d == available * d + added * d
    ensures added >= cap - available ==> cap * d <= available * d + added * d
    ensures added < cap - available ==> available * d + added * d + combined < cap * d
  {
    Distribute(available, added, d);
    if added >= cap - available {
      MulMono(cap, available + added, d);
    } else {
      MulMono(available + added + 1, cap, d);
      Distribute(available + added, 1, d);
    }
  }

  /** `Math.mulDiv` and `mulmod` of the same operands: the quotient and remainder of the exact product. */
  method MulDivMod(x: nat, y: nat, d: nat) returns (quotient: nat, rest: nat)
    requires d > 0
    ensures x * y == quotient * d + rest && rest < d
  {
    quotient := (x * y) / d;
    rest := (x * y) % d;
  }

  class TokenBucket {
    var capacity: nat
    var available: nat
    var refillAmount: nat
    var refillDuration: nat
    var lastUpdated: nat
    var remainder: nat

    function View(): Bucket
      reads this
    {
      Bucket(capacity, available, refillAmount, refillDuration, lastUpdated, remainder)
    }

    constructor (now: nat)
      ensures View() == InitialBucket(now) && ValidBucket(View())
    {
      capacity, available := CANARY_CAPACITY, CANARY_CAPACITY;
      refillAmount, refillDuration := CANARY_REFILL_AMOUNT, CANARY_REFILL_DURATION;
      lastUpdated, remainder := now, 0;
    }

    method Store(b: Bucket)
      modifies this
      ensures View() == b
    {
      capacity, available, refillAmount := b.capacity, b.available, b.refillAmount;
      refillDuration, lastUpdated, remainder := b.refillDuration, b.lastUpdated, b.remainder;
    }

    /** `mulDiv`, `mulmod` and a carried remainder compute the ideal level exactly. */
    method Preview(now: nat) returns (newAvailable: nat, newRemainder: nat)
      requires ValidBucket(View())
      ensures newRemainder < refillDuration
      ensures newAvailable * refillDuration + newRemainder == CreditAt(View(), now)
    {
      newAvailable, newRemainder := available, remainder;
      if now <= lastUpdated || newAvailable == capacity {
        StandingLevel(View(), now);
        return;
      }
      var elapsed := now - lastUpdated;
      var duration := refillDuration;
      var added, fractional := MulDivMod(elapsed, refillAmount, duration);
      var combined := fractional + newRemainder;
      if combined >= duration {
        Distribute(added, 1, duration);
        added := added + 1;
        combined := combined - duration;
      }
      var room := capacity - newAvailable;
      CappedSum(capacity, newAvailable, added, combined, duration);
      if added >= room {
        return capacity, 0;
      }
      return newAvailable + added, combined;
    }

    method Refill(now: nat)
      requires ValidBucket(View())
      modifies this
      ensures View() == Settled(old(View()), now) && ValidBucket(View())
    {
      SettledIsValid(View(), now);
      var a, r := Preview(now);
      DivModUnique(CreditAt(View(), now), refillDuration, a, r);
      available := a;
      remainder := r;
      lastUpdated := now;
    }

    /** On failure the settlement has already been written; only the caller's revert undoes it. */
    method Consume(amount: nat, now: nat) returns (ok: bool)
      requires ValidBucket(View())
      modifies this
      ensures ValidBucket(View())
      ensures ok <==> Drawn(old(View()), amount, now).Some?
      ensures ok ==> View() == Drawn(old(View()), amount, now).value
      ensures !ok ==> View() == Settled(old(View()), now)
    {
      Refill(now);
      if amount > available {
        return false;
      }
      available := available - amount;
      DrawnIsValid(old(View()), amount, now);
      return true;
    }

    method Configure(newCapacity: nat, newRefillAmount: nat, newRefillDuration: u64, now: nat) returns (ok: bool)
      requires ValidBucket(View())
      modifies this
      ensures ValidBucket(View())
      ensures ok <==> Configured(old(View()), now, newCapacity, newRefillAmount, newRefillDuration).Some?
      ensures ok ==> View() == Configured(old(View()), now, newCapacity, newRefillAmount, newRefillDuration).value
      ensures !ok ==> View() == old(View())
    {
      if newCapacity == 0 || newCapacity > U64_MAX || newRefillAmount == 0 || newRefillAmount > newCapacity
        || newRefillDuration == 0 {
        return false;
      }
      Refill(now);
      var kept := Min(available, newCapacity);
      capacity := newCapacity;
      available := kept;
      refillAmount := newRefillAmount;
      refillDuration := newRefillDuration;
      lastUpdated := now;
      remainder := 0;
      return true;
    }
  }
}
