/**
 The Solana rate limiter (programs/oft/src/state/peer_config.rs).

 `Limiter` is the account data of one limiter and the functions on it say, over
 unbounded integers, what each operation means.  The class `RateLimiter` updates its
 fields in place with the saturating u64 steps of the program and is proved against
 those functions.
 */
module SolanaRateLimiter {
  import opened Num

  datatype Limiter = Limiter(capacity: u64, tokens: u64, refillPerSecond: u64, lastRefillTime: u64)

  const DEFAULT_LIMITER := Limiter(0, 0, 0, 0)

  ghost predicate WellFilled(l: Limiter) {
    l.tokens <= l.capacity
  }

  function Elapsed(l: Limiter, now: u64): nat {
    if now > l.lastRefillTime then now - l.lastRefillTime else 0
  }

  /** The level an ideal bucket would show: no saturation, no intermediate width. */
  function Level(l: Limiter, extra: nat, now: u64): u64 {
    Min(l.capacity, l.tokens + extra + Elapsed(l, now) * l.refillPerSecond)
  }

  function Refilled(l: Limiter, extra: nat, now: u64): Limiter {
    l.(tokens := Level(l, extra, now), lastRefillTime := now)
  }

  function Consumed(l: Limiter, amount: u64, now: u64): Option<Limiter> {
    var r := Refilled(l, 0, now);
    if amount <= r.tokens then Some(r.(tokens := r.tokens - amount)) else None
  }

  datatype RateLimitParams = RateLimitParams(refillPerSecond: Option<u64>, capacity: Option<u64>)

  /** `update_rate_limiter` for a present parameter block. */
  function Reconfigured(l: Option<Limiter>, p: RateLimitParams, now: u64): Limiter {
    var start := if l.Some? then l.value else DEFAULT_LIMITER;
    var sized := if p.capacity.Some? then Limiter(p.capacity.value, p.capacity.value, start.refillPerSecond, now)
      else start;
    if p.refillPerSecond.Some? then Refilled(sized, 0, now).(refillPerSecond := p.refillPerSecond.value) else sized
  }

  function SaturatingAdd(a: u64, b: u64): u64 {
    Min(a + b, U64_MAX)
  }

  function SaturatingMul(a: u64, b: u64): u64 {
    if a * b <= U64_MAX then a * b else U64_MAX
  }

  class RateLimiter {
    var capacity: u64
    var tokens: u64
    var refillPerSecond: u64
    var lastRefillTime: u64

    function View(): Limiter
      reads this
    {
      Limiter(capacity, tokens, refillPerSecond, lastRefillTime)
    }

    constructor ()
      ensures View() == DEFAULT_LIMITER
    {
      capacity, tokens, refillPerSecond, lastRefillTime := 0, 0, 0, 0;
    }

    method Store(l: Limiter)
      modifies this
      ensures View() == l
    {
      capacity, tokens, refillPerSecond, lastRefillTime := l.capacity, l.tokens, l.refillPerSecond, l.lastRefillTime;
    }

    method Refill(extraTokens: u64, now: u64)
      modifies this
      ensures View() == Refilled(old(View()), extraTokens, now)
    {
      var newTokens := extraTokens;
      if now > lastRefillTime {
        var seconds := now - lastRefillTime;
        newTokens := SaturatingAdd(newTokens, SaturatingMul(seconds, refillPerSecond));
      }
      tokens := Min(capacity, SaturatingAdd(tokens, newTokens));
      lastRefillTime := now;
    }

    /** On failure the refill has already been written; only the caller's abort undoes it. */
    method TryConsume(amount: u64, now: u64) returns (ok: bool)
      modifies this
      ensures ok <==> Consumed(old(View()), amount, now).Some?
      ensures ok ==> View() == Consumed(old(View()), amount, now).value
      ensures !ok ==> View() == Refilled(old(View()), 0, now)
    {
      Refill(0, now);
      if amount <= tokens {
        tokens := tokens - amount;
        return true;
      }
      return false;
    }

    method SetCapacity(newCapacity: u64, now: u64)
      modifies this
      ensures View() == Limiter(newCapacity, newCapacity, old(refillPerSecond), now)
    {
      capacity := newCapacity;
      tokens := newCapacity;
      lastRefillTime := now;
    }

    method SetRate(rate: u64, now: u64)
      modifies this
      ensures View() == Refilled(old(View()), 0, now).(refillPerSecond := rate)
    {
      Refill(0, now);
      refillPerSecond := rate;
    }
  }

  /** Settling at t1 and again at t2 is settling once at t2, at a fixed rate and with monotone clocks. */
  lemma RefillComposes(l: Limiter, extra: nat, t1: u64, t2: u64)
    requires WellFilled(l) && l.lastRefillTime <= t1 <= t2
    ensures Refilled(Refilled(l, extra, t1), 0, t2) == Refilled(l, extra, t2)
  {
    var r := l.refillPerSecond;
    var e1, e2 := t1 - l.lastRefillTime, t2 - t1;
    assert (e1 + e2) * r == e1 * r + e2 * r;
  }

  /** Reconfiguring never stores more tokens than the capacity; a present capacity always fills the bucket. */
  lemma ReconfiguredIsWellFilled(l: Option<Limiter>, p: RateLimitParams, now: u64)
    requires l.Some? ==> WellFilled(l.value)
    ensures WellFilled(Reconfigured(l, p, now))
    ensures p.capacity.Some? ==> Reconfigured(l, p, now).tokens == p.capacity.value
  {
  }

  /** An amount can be consumed exactly when it fits the capacity and the tokens and refill so far cover it. */
  lemma ConsumableExactly(l: Limiter, amount: u64, now: u64)
    ensures Consumed(l, amount, now).Some?
            <==> amount <= l.capacity
                 && amount <= l.tokens
                    + (if now > l.lastRefillTime then (now - l.lastRefillTime) * l.refillPerSecond else 0)
  {
  }

  /** From a level on, the rate makes up for the wait. */
  lemma LevelLater(l: Limiter, now: u64, wait: nat)
    requires WellFilled(l) && l.lastRefillTime <= now && now + wait <= U64_MAX
    ensures Level(l, 0, now + wait) == Min(l.capacity, Level(l, 0, now) + wait * l.refillPerSecond)
  {
    Distribute(now - l.lastRefillTime, wait, l.refillPerSecond);
  }

  lemma ReconfiguredLevel(l: Option<Limiter>, p: RateLimitParams, now: u64)
    requires l.Some? ==> WellFilled(l.value) && l.value.lastRefillTime <= now
    ensures var r := Reconfigured(l, p, now);
      && WellFilled(r) && r.lastRefillTime <= now
      && r.capacity == (if p.capacity.Some? then p.capacity.value else if l.Some? then l.value.capacity else 0)
      && r.refillPerSecond == (if p.refillPerSecond.Some? then p.refillPerSecond.value
                               else if l.Some? then l.value.refillPerSecond else 0)
      && Level(r, 0, now) == if p.capacity.Some? then p.capacity.value else if l.Some? then Level(l.value, 0, now)
         else 0
  {
  }

  /**
   What a reconfigured limiter admits after a wait: its level right after is the new capacity if one was given, and
   otherwise what it was at the old rate; from there it grows at the new rate if one was given.
   */
  lemma ReconfiguredConsumes(l: Option<Limiter>, p: RateLimitParams, now: u64, wait: nat, amount: u64)
    requires l.Some? ==> WellFilled(l.value) && l.value.lastRefillTime <= now
    requires now + wait <= U64_MAX
    ensures var capacity := if p.capacity.Some? then p.capacity.value else if l.Some? then l.value.capacity else 0;
      var rate := if p.refillPerSecond.Some? then p.refillPerSecond.value
                  else if l.Some? then l.value.refillPerSecond else 0;
      Consumed(Reconfigured(l, p, now), amount, now + wait).Some?
      <==> amount <= capacity
           && (p.capacity.None? && l.Some? ==> amount <= Level(l.value, 0, now) + wait * rate)
  {
    ReconfiguredLevel(l, p, now);
    LevelLater(Reconfigured(l, p, now), now, wait);
  }

  // ---------- the pair of limiters of one peer ----------

  /** A missing limiter imposes no limit. */
  datatype Limits = Limits(outbound: Option<Limiter>, inbound: Option<Limiter>)

  function ConsumedIfPresent(l: Option<Limiter>, amount: u64, now: u64): Option<Option<Limiter>> {
    if l.None? then Some(None)
    else
      var c := Consumed(l.value, amount, now);
      if c.Some? then Some(c) else None
  }

  function RefilledIfPresent(l: Option<Limiter>, amount: u64, now: u64): Option<Limiter> {
    if l.None? then None else Some(Refilled(l.value, amount, now))
  }

  /** An outbound transfer consumes the outbound limiter and refills the inbound one. */
  function AfterSend(l: Limits, amount: u64, now: u64): Option<Limits> {
    var out := ConsumedIfPresent(l.outbound, amount, now);
    if out.None? then None else Some(Limits(out.value, RefilledIfPresent(l.inbound, amount, now)))
  }

  function AfterReceive(l: Limits, amount: u64, now: u64): Option<Limits> {
    var inb := ConsumedIfPresent(l.inbound, amount, now);
    if inb.None? then None else Some(Limits(RefilledIfPresent(l.outbound, amount, now), inb.value))
  }

  ghost predicate WellFilledIfPresent(l: Option<Limiter>) {
    l.Some? ==> WellFilled(l.value)
  }

  ghost predicate LimitsOk(l: Limits) {
    WellFilledIfPresent(l.outbound) && WellFilledIfPresent(l.inbound)
  }

  /** No limiter was settled in the future. */
  ghost predicate LimitsCurrent(l: Limits, now: u64) {
    && (l.outbound.Some? ==> l.outbound.value.lastRefillTime <= now)
    && (l.inbound.Some? ==> l.inbound.value.lastRefillTime <= now)
  }

  // ---------- gross flow is not bounded ----------

  datatype Flow = Outflow(amount: u64) | Inflow(amount: u64)

  function AfterFlow(l: Limits, f: Flow, now: u64): Option<Limits> {
    match f
    case Outflow(a) => AfterSend(l, a, now)
    case Inflow(a) => AfterReceive(l, a, now)
  }

  function AfterFlows(l: Limits, fs: seq<Flow>, now: u64): Option<Limits>
    decreases |fs|
  {
    if fs == [] then Some(l)
    else
      var next := AfterFlow(l, fs[0], now);
      if next.None? then None else AfterFlows(next.value, fs[1..], now)
  }

  function GrossFlow(fs: seq<Flow>): nat {
    if fs == [] then 0 else fs[0].amount + GrossFlow(fs[1..])
  }

  /** Sends `amount` out and back `n` times. */
  function PingPong(amount: u64, n: nat): seq<Flow> {
    if n == 0 then [] else [Outflow(amount), Inflow(amount)] + PingPong(amount, n - 1)
  }

  function OutLevel(l: Limits, now: u64): nat {
    if l.outbound.Some? then Level(l.outbound.value, 0, now) else 0
  }

  function InLevel(l: Limits, now: u64): nat {
    if l.inbound.Some? then Level(l.inbound.value, 0, now) else 0
  }

  /** Both limiters are there, `amount` can leave now and fits the way back. */
  predicate CanSend(l: Limits, amount: u64, now: u64) {
    l.outbound.Some? && l.inbound.Some? && amount <= OutLevel(l, now) && amount <= l.inbound.value.capacity
  }

  /** There and back leaves room for the same again. */
  lemma RoundTrip(l: Limits, amount: u64, now: u64)
    requires CanSend(l, amount, now)
    ensures AfterSend(l, amount, now).Some?
    ensures var back := AfterReceive(AfterSend(l, amount, now).value, amount, now);
      back.Some? && CanSend(back.value, amount, now)
  {
  }

  lemma {:induction false} PingPongGross(amount: u64, n: nat)
    ensures GrossFlow(PingPong(amount, n)) == 2 * n * amount
  {
    if n > 0 {
      var rest, fs := PingPong(amount, n - 1), PingPong(amount, n);
      PingPongGross(amount, n - 1);
      assert fs[1..] == [Inflow(amount)] + rest && fs[1..][1..] == rest;
      assert GrossFlow(fs) == amount + GrossFlow(fs[1..]) == amount + (amount + GrossFlow(rest));
      assert 2 * n * amount == 2 * amount + 2 * (n - 1) * amount;
    }
  }

  /** So any number of round trips passes without a second going by. */
  lemma {:induction false} PingPongAdmitted(l: Limits, amount: u64, n: nat, now: u64)
    requires CanSend(l, amount, now)
    ensures AfterFlows(l, PingPong(amount, n), now).Some?
    ensures GrossFlow(PingPong(amount, n)) == 2 * n * amount
    decreases n
  {
    PingPongGross(amount, n);
    if n > 0 {
      var rest, fs := PingPong(amount, n - 1), PingPong(amount, n);
      assert fs[1..] == [Inflow(amount)] + rest && fs[1..][1..] == rest;
      RoundTrip(l, amount, now);
      var sent := AfterSend(l, amount, now).value;
      var back := AfterReceive(sent, amount, now).value;
      PingPongAdmitted(back, amount, n - 1, now);
      assert AfterFlows(l, fs, now) == AfterFlows(sent, fs[1..], now) == AfterFlows(back, rest, now);
    }
  }

  function Repeated(f: Flow, n: nat): seq<Flow> {
    if n == 0 then [] else [f] + Repeated(f, n - 1)
  }

  /** In the direction of a missing limiter everything passes. */
  lemma {:induction false} UnlimitedAdmitted(l: Limits, f: Flow, n: nat, now: u64)
    requires if f.Outflow? then l.outbound.None? else l.inbound.None?
    ensures AfterFlows(l, Repeated(f, n), now).Some?
    ensures GrossFlow(Repeated(f, n)) == n * f.amount
    decreases n
  {
    if n > 0 {
      var fs := Repeated(f, n);
      assert fs[1..] == Repeated(f, n - 1);
      UnlimitedAdmitted(AfterFlow(l, f, now).value, f, n - 1, now);
      assert n * f.amount == f.amount + (n - 1) * f.amount;
    }
  }

  /** A run without a second passing whose gross flow reaches the goal. */
  ghost predicate Admits(l: Limits, now: u64, goal: nat) {
    exists fs :: AfterFlows(l, fs, now).Some? && GrossFlow(fs) >= goal
  }

  /** Nothing can go round: a side holds nothing ever, or both are empty. */
  predicate Stuck(l: Limits, now: u64) {
    && l.outbound.Some? && l.inbound.Some?
    && (l.outbound.value.capacity == 0 || l.inbound.value.capacity == 0
        || (OutLevel(l, now) == 0 && InLevel(l, now) == 0))
  }

  lemma {:induction false} StuckBound(l: Limits, fs: seq<Flow>, now: u64)
    requires Stuck(l, now)
    ensures AfterFlows(l, fs, now).Some? ==> GrossFlow(fs) <= OutLevel(l, now) + InLevel(l, now)
    decreases |fs|
  {
    if fs != [] && AfterFlow(l, fs[0], now).Some? {
      StuckBound(AfterFlow(l, fs[0], now).value, fs[1..], now);
    }
  }

  lemma LoopsAdmit(l: Limits, now: u64, goal: nat)
    requires !Stuck(l, now)
    ensures Admits(l, now, goal)
  {
    if l.outbound.None? {
      UnlimitedAdmitted(l, Outflow(1), goal, now);
      assert AfterFlows(l, Repeated(Outflow(1), goal), now).Some?;
    } else if l.inbound.None? {
      UnlimitedAdmitted(l, Inflow(1), goal, now);
      assert AfterFlows(l, Repeated(Inflow(1), goal), now).Some?;
    } else if OutLevel(l, now) > 0 {
      PingPongAdmitted(l, 1, goal, now);
      assert AfterFlows(l, PingPong(1, goal), now).Some?;
    } else {
      var back := AfterReceive(l, 1, now).value;
      var fs := [Inflow(1)] + PingPong(1, goal);
      PingPongAdmitted(back, 1, goal, now);
      assert fs[1..] == PingPong(1, goal);
      assert AfterFlows(l, fs, now).Some? && GrossFlow(fs) >= goal;
    }
  }

  /**
   Gross flow in one second is unbounded exactly when a limiter is missing, or both capacities are positive and
   some settled level is: the limiters bound the net imbalance only.
   */
  lemma GrossFlowUnbounded(l: Limits, now: u64)
    ensures (forall goal :: Admits(l, now, goal))
            <==> || l.outbound.None? || l.inbound.None?
                 || (l.outbound.value.capacity > 0 && l.inbound.value.capacity > 0
                     && OutLevel(l, now) + InLevel(l, now) > 0)
  {
    if Stuck(l, now) {
      var bound := OutLevel(l, now) + InLevel(l, now);
      forall fs | AfterFlows(l, fs, now).Some?
        ensures GrossFlow(fs) <= bound
      {
        StuckBound(l, fs, now);
      }
      assert !Admits(l, now, bound + 1);
    } else {
      forall goal
        ensures Admits(l, now, goal)
      {
        LoopsAdmit(l, now, goal);
      }
    }
  }

  // ---------- net flow is bounded ----------

  /**
   One transfer moves each settled level by at most its own amount: what leaves is taken from
   the outbound level, and what returns adds no more than itself.
   */
  lemma FlowMovesLevels(l: Limits, f: Flow, now: u64)
    requires LimitsOk(l) && AfterFlow(l, f, now).Some?
    ensures LimitsOk(AfterFlow(l, f, now).value)
    ensures var l' := AfterFlow(l, f, now).value; var out: int := if f.Outflow? then f.amount else 0 - f.amount;
      && (l.outbound.Some? <==> l'.outbound.Some?)
      && (l.inbound.Some? <==> l'.inbound.Some?)
      && (l.outbound.Some? ==>
            && l'.outbound.value.capacity == l.outbound.value.capacity
            && l'.outbound.value.refillPerSecond == l.outbound.value.refillPerSecond
            && l'.outbound.value.lastRefillTime == now
            && l'.outbound.value.tokens + out <= Level(l.outbound.value, 0, now))
      && (l.inbound.Some? ==>
            && l'.inbound.value.capacity == l.inbound.value.capacity
            && l'.inbound.value.refillPerSecond == l.inbound.value.refillPerSecond
            && l'.inbound.value.lastRefillTime == now
            && l'.inbound.value.tokens - out <= Level(l.inbound.value, 0, now))
  {
  }

  /** Exactly: a transfer takes its amount from its own settled level, and fills the other up to its capacity. */
  lemma FlowSettles(l: Limits, f: Flow, now: u64)
    requires LimitsOk(l)
    ensures var own := if f.Outflow? then l.outbound else l.inbound;
      AfterFlow(l, f, now).Some? <==> (own.Some? ==> f.amount <= Level(own.value, 0, now))
    ensures AfterFlow(l, f, now).Some? ==>
              var l' := AfterFlow(l, f, now).value;
              var (own, own') := if f.Outflow? then (l.outbound, l'.outbound) else (l.inbound, l'.inbound);
              var (other, other') := if f.Outflow? then (l.inbound, l'.inbound) else (l.outbound, l'.outbound);
              && (own.Some? <==> own'.Some?) && (other.Some? <==> other'.Some?)
              && (own.Some? ==> Level(own'.value, 0, now) == Level(own.value, 0, now) - f.amount)
              && (other.Some? ==>
                    Level(other'.value, 0, now) == Min(other.value.capacity, Level(other.value, 0, now) + f.amount))
  {
  }
}
