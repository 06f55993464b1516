/**
 The four-direction production rate-limit plan (scripts/productionRateLimitPolicy.ts) and what it guarantees:
 no packet sent under it can be stranded by a limiter.
 */
module RateLimitPlan {
  import opened Num
  import opened Pathway
  import Text
  import opened SolanaRateLimiter
  import opened SanOftBucket
  import opened Bridge
  import Sol = SolanaAdapter
  import Rh = RobinhoodOft

  const DAY := 86_400

  datatype Profile = Profile(capacity: int, refillPerSecond: int)

  const CANARY := Profile(500_000_000_000, 5_787_037)
  const PUBLIC_LAUNCH := Profile(30_000_000_000_000, 347_222_222)
  const NORMAL := Profile(50_000_000_000_000, 578_703_703)
  const MATURE := Profile(100_000_000_000_000, 1_157_407_407)

  datatype DirectionalLimit = DirectionalLimit(capacity: int, refill: int, durationSeconds: Option<int>,
                                               available: Option<int>)

  /** An observed plan; an absent direction is None. */
  datatype Plan = Plan(
    solanaOutbound: Option<DirectionalLimit>,
    solanaInbound: Option<DirectionalLimit>,
    robinhoodOutbound: Option<DirectionalLimit>,
    robinhoodInbound: Option<DirectionalLimit>)

  predicate RequireDirection(d: Option<DirectionalLimit>, evm: bool) {
    d.Some? && d.value.capacity > 0 && d.value.refill > 0 && (evm ==> d.value.durationSeconds == Some(DAY))
  }

  predicate ValidatePlan(plan: Plan, expected: Profile) {
    && RequireDirection(plan.solanaOutbound, false) && RequireDirection(plan.solanaInbound, false)
    && RequireDirection(plan.robinhoodOutbound, true) && RequireDirection(plan.robinhoodInbound, true)
    && (forall d :: d in [plan.solanaOutbound, plan.solanaInbound, plan.robinhoodOutbound, plan.robinhoodInbound]
          ==> d.Some? && d.value.capacity == expected.capacity)
    && plan.solanaOutbound.value.refill == expected.refillPerSecond
    && plan.solanaInbound.value.refill == expected.refillPerSecond
    && plan.robinhoodOutbound.value.refill == expected.capacity
    && plan.robinhoodInbound.value.refill == expected.capacity
  }

  function LimiterPlan(l: Option<Limiter>): Option<DirectionalLimit> {
    if l.None? then None
    else Some(DirectionalLimit(l.value.capacity, l.value.refillPerSecond, None, Some(l.value.tokens)))
  }

  function BucketPlan(b: Bucket, now: nat): Option<DirectionalLimit>
    requires b.refillDuration > 0
  {
    Some(DirectionalLimit(b.capacity, b.refillAmount, Some(b.refillDuration), Some(Settled(b, now).available)))
  }

  /** The plan read back from both chains: stored tokens on Solana, the view of the bucket on Robinhood. */
  function PlanOf(b: State): Plan
    requires Sane(b)
  {
    Plan(LimiterPlan(b.sol.limits.outbound), LimiterPlan(b.sol.limits.inbound),
         BucketPlan(b.rh.outbound, b.rh.clock), BucketPlan(b.rh.inbound, b.rh.clock))
  }

  /** A Solana limiter shows its capacity, its refill a second and its stored tokens; a missing one shows nothing. */
  predicate ShowsLimiter(d: Option<DirectionalLimit>, l: Option<Limiter>) {
    && (d.Some? <==> l.Some?)
    && (d.Some? ==> d.value.capacity == l.value.capacity && d.value.refill == l.value.refillPerSecond
                    && d.value.durationSeconds.None? && d.value.available == Some(l.value.tokens))
  }

  /** A Robinhood bucket shows its terms, and exactly the amounts up to what it shows available can be drawn. */
  ghost predicate ShowsBucket(d: Option<DirectionalLimit>, b: Bucket, now: nat)
    requires ValidBucket(b)
  {
    && d.Some? && d.value.capacity == b.capacity && d.value.refill == b.refillAmount
    && d.value.durationSeconds == Some(b.refillDuration) && d.value.available.Some?
    && forall amount: nat :: Drawn(b, amount, now).Some? <==> amount <= d.value.available.value
  }

  /** Each direction of the observed plan shows the limiter of that direction. */
  lemma PlanShows(b: State)
    requires Sane(b) && Rh.OftInv(b.rh)
    ensures ShowsLimiter(PlanOf(b).solanaOutbound, b.sol.limits.outbound)
    ensures ShowsLimiter(PlanOf(b).solanaInbound, b.sol.limits.inbound)
    ensures ShowsBucket(PlanOf(b).robinhoodOutbound, b.rh.outbound, b.rh.clock)
    ensures ShowsBucket(PlanOf(b).robinhoodInbound, b.rh.inbound, b.rh.clock)
  {
  }

  /** A limiter shows its available tokens, and they lie within its capacity. */
  predicate LevelWithin(d: Option<DirectionalLimit>) {
    d.Some? && d.value.available.Some? && 0 <= d.value.available.value <= d.value.capacity
  }

  predicate LevelsWithin(plan: Plan) {
    && LevelWithin(plan.solanaOutbound) && LevelWithin(plan.solanaInbound)
    && LevelWithin(plan.robinhoodOutbound) && LevelWithin(plan.robinhoodInbound)
  }

  /** In a reachable state the levels lie within their capacities exactly when no Solana limiter is missing. */
  lemma LevelsAlwaysWithin(b: State)
    requires Sane(b) && Sol.AdapterInv(b.sol) && Rh.OftInv(b.rh)
    ensures LevelsWithin(PlanOf(b)) <==> b.sol.limits.outbound.Some? && b.sol.limits.inbound.Some?
  {
    SettledIsValid(b.rh.outbound, b.rh.clock);
    SettledIsValid(b.rh.inbound, b.rh.clock);
  }

  predicate LimiterMatches(l: Option<Limiter>, p: Profile) {
    l.Some? && l.value.capacity == p.capacity && l.value.refillPerSecond == p.refillPerSecond
  }

  predicate BucketMatches(b: Bucket, p: Profile) {
    b.capacity == p.capacity && b.refillAmount == p.capacity && b.refillDuration == DAY
  }

  /** Validation accepts exactly the four matched limiters of a nonzero profile; an absent limiter is never accepted. */
  lemma ValidatedMeansMatched(b: State, p: Profile)
    requires Sane(b)
    ensures ValidatePlan(PlanOf(b), p)
            <==> p.capacity > 0 && p.refillPerSecond > 0
                 && LimiterMatches(b.sol.limits.outbound, p) && LimiterMatches(b.sol.limits.inbound, p)
                 && BucketMatches(b.rh.outbound, p) && BucketMatches(b.rh.inbound, p)
  {
    var plan := PlanOf(b);
    var ds := [plan.solanaOutbound, plan.solanaInbound, plan.robinhoodOutbound, plan.robinhoodInbound];
    assert ds[0] in ds && ds[1] in ds && ds[2] in ds && ds[3] in ds;
  }

  /** Every approved profile refills Solana by exactly the floor of its capacity over a day. */
  lemma ProfilesFloorADay(p: Profile)
    requires p in [CANARY, PUBLIC_LAUNCH, NORMAL, MATURE]
    ensures p.refillPerSecond == p.capacity / DAY && p.refillPerSecond > 0
    ensures p.refillPerSecond * DAY <= p.capacity <= U64_MAX
  {
    assert p == CANARY || p == PUBLIC_LAUNCH || p == NORMAL || p == MATURE;
  }

  // ---------- packets under a plan ----------

  /** The plan is in force before, between and after all steps. */
  predicate InForce(b: State, steps: seq<Step>, p: Profile)
    requires Sane(b)
    decreases |steps|
  {
    ValidatePlan(PlanOf(b), p) && (steps != [] ==> InForce(Next(b, steps[0]), steps[1..], p))
  }

  predicate PacketsFit(ps: seq<Packet>, capacity: int) {
    forall i :: 0 <= i < |ps| && !ps[i].delivered ==> ps[i].amountSd <= capacity
  }

  lemma RhSendFits(b: State, st: Step, p: Profile)
    requires Sane(b) && Rh.OftInv(b.rh) && b.sol.rate == 1 && st.RhSend?
    requires BucketMatches(b.rh.outbound, p) && PacketsFit(b.packets, p.capacity)
    ensures PacketsFit(Next(b, st).packets, p.capacity) && Next(b, st).sol.rate == 1
  {
    Rh.SendKeeps(b.rh, st.from, st.amount, st.minAmount);
  }

  lemma OtherFits(b: State, st: Step, capacity: int)
    requires Sane(b) && b.sol.rate == 1 && !st.SolSend? && !st.RhSend? && PacketsFit(b.packets, capacity)
    ensures PacketsFit(Next(b, st).packets, capacity) && Next(b, st).sol.rate == 1
  {
  }

  lemma SolSendFits(b: State, st: Step, p: Profile)
    requires Sane(b) && Sol.AdapterInv(b.sol) && b.sol.rate == 1 && st.SolSend?
    requires LimiterMatches(b.sol.limits.outbound, p) && PacketsFit(b.packets, p.capacity)
    ensures PacketsFit(Next(b, st).packets, p.capacity) && Next(b, st).sol.rate == 1
  {
    if Sol.Send(b.sol, st.source, st.amountLd, st.minAmountLd).Some? {
      Sol.SendKeeps(b.sol, st.source, st.amountLd, st.minAmountLd);
    }
  }

  lemma NextFits(b: State, st: Step, p: Profile)
    requires Sane(b) && BridgeInv(b) && b.sol.rate == 1
    requires ValidatePlan(PlanOf(b), p) && PacketsFit(b.packets, p.capacity)
    ensures PacketsFit(Next(b, st).packets, p.capacity) && Next(b, st).sol.rate == 1
  {
    ValidatedMeansMatched(b, p);
    if st.SolSend? {
      SolSendFits(b, st, p);
    } else if st.RhSend? {
      RhSendFits(b, st, p);
    } else {
      OtherFits(b, st, p.capacity);
    }
  }

  lemma {:induction false} RunFits(b: State, steps: seq<Step>, p: Profile)
    requires Sane(b) && BridgeInv(b) && b.sol.rate == 1
    requires InForce(b, steps, p) && PacketsFit(b.packets, p.capacity)
    ensures var s := Run(b, steps);
      BridgeInv(s) && s.sol.rate == 1 && ValidatePlan(PlanOf(s), p) && PacketsFit(s.packets, p.capacity)
    decreases |steps|
  {
    if steps != [] {
      NextKeeps(b, steps[0]);
      NextFits(b, steps[0], p);
      RunFits(Next(b, steps[0]), steps[1..], p);
    }
  }

  // ---------- delivery after a wait ----------

  lemma PendingIsUnique(ps: seq<Packet>, rate: nat, i: nat)
    requires PacketsOk(ps, rate) && i < |ps| && !ps[i].delivered
    ensures Pending(ps, ps[i].guid, ps[i].direction) == Some(i)
  {
    var j := Pending(ps, ps[i].guid, ps[i].direction);
    assert j.Some?;
  }

  lemma LimiterFull(l: Limiter, wait: nat, now: u64)
    requires l.refillPerSecond > 0 && l.lastRefillTime <= now && now + wait <= U64_MAX
    requires wait >= CeilDiv(l.capacity, l.refillPerSecond)
    ensures Level(l, 0, now + wait) == l.capacity
  {
    CeilAdjoint(l.capacity, l.refillPerSecond, now + wait - l.lastRefillTime);
    MulMono(wait, now + wait - l.lastRefillTime, l.refillPerSecond);
  }

  /** Seconds after which a packet can be received on Solana under a profile. */
  function SolanaWait(p: Profile): nat
    requires p.capacity > 0 && p.refillPerSecond > 0
  {
    CeilDiv(p.capacity, p.refillPerSecond)
  }

  lemma ReceivableOnSolana(b: State, i: nat, p: Profile)
    requires Sane(b) && BridgeInv(b) && b.sol.rate == 1 && ValidatePlan(PlanOf(b), p)
    requires i < |b.packets| && !b.packets[i].delivered && b.packets[i].direction == RobinhoodToSolana
    requires b.packets[i].amountSd <= p.capacity && !b.sol.paused
    requires b.sol.clock + SolanaWait(p) <= I64_MAX
    ensures var waited := b.sol.(clock := b.sol.clock + SolanaWait(p));
      Sol.Receive(waited, b.packets[i].receiver, b.packets[i].amountSd).Some?
  {
    var pkt := b.packets[i];
    ValidatedMeansMatched(b, p);
    LiabilitiesCovered(b);
    PacketAtMostUndelivered(b.packets, i);
    assert PacketOk(pkt, 1);
    ReceiverIsNotEscrow(pkt);
    LimiterFull(b.sol.limits.inbound.value, SolanaWait(p), b.sol.clock);
    Sol.ReceiveEnabled(b.sol.(clock := b.sol.clock + SolanaWait(p)), pkt.receiver, pkt.amountSd);
  }

  lemma ReceivableOnRobinhood(b: State, i: nat, p: Profile)
    requires Sane(b) && BridgeInv(b) && ValidatePlan(PlanOf(b), p)
    requires i < |b.packets| && !b.packets[i].delivered && b.packets[i].direction == SolanaToRobinhood
    requires b.packets[i].amountSd <= p.capacity && !b.rh.paused && b.rh.clock + DAY <= U64_MAX
    ensures var waited := b.rh.(clock := b.rh.clock + DAY);
      Rh.Receive(waited, Text.PadAddress(b.packets[i].receiver), b.packets[i].amountSd).Some?
  {
    ValidatedMeansMatched(b, p);
    var x := b.rh.inbound;
    assert FillTime(x) == DAY by {
      CeilAdjoint(x.capacity * DAY, x.capacity, DAY);
      CeilAdjoint(x.capacity * DAY, x.capacity, DAY - 1);
    }
    FullAfterFillTime(x, b.rh.clock + DAY);
  }

  /** Packet `i` is delivered once the two steps have been taken. */
  predicate DeliversAfter(s: State, wait: Step, receive: Step, i: nat)
    requires Sane(s) && (receive.SolReceive? || receive.RhReceive?)
  {
    var t := Next(Next(s, wait), receive);
    i < |t.packets| && t.packets[i].guid == receive.guid && t.packets[i].delivered
  }

  lemma DeliveredOnSolana(s: State, i: nat, wait: nat)
    requires Sane(s) && s.sol.clock + wait <= I64_MAX
    requires i < |s.packets| && Pending(s.packets, s.packets[i].guid, RobinhoodToSolana) == Some(i)
    requires Sol.Receive(s.sol.(clock := s.sol.clock + wait), s.packets[i].receiver, s.packets[i].amountSd).Some?
    ensures DeliversAfter(s, SolTick(wait), SolReceive(s.packets[i].guid), i)
  {
    assert Next(s, SolTick(wait)) == s.(sol := s.sol.(clock := s.sol.clock + wait));
  }

  lemma DeliveredOnRobinhood(s: State, i: nat, wait: nat)
    requires Sane(s) && s.rh.clock + wait <= U64_MAX
    requires i < |s.packets| && Pending(s.packets, s.packets[i].guid, SolanaToRobinhood) == Some(i)
    requires Rh.Receive(s.rh.(clock := s.rh.clock + wait), Text.PadAddress(s.packets[i].receiver),
                        s.packets[i].amountSd).Some?
    ensures DeliversAfter(s, RhTick(wait), RhReceive(s.packets[i].guid), i)
  {
    assert Next(s, RhTick(wait)) == s.(rh := s.rh.(clock := s.rh.clock + wait));
  }

  lemma DeliverableAfterWait(s: State, p: Profile, i: nat)
    requires Sane(s) && BridgeInv(s) && s.sol.rate == 1 && ValidatePlan(PlanOf(s), p)
             && PacketsFit(s.packets, p.capacity)
    requires p.capacity > 0 && p.refillPerSecond > 0
    requires i < |s.packets| && !s.packets[i].delivered
    requires s.sol.clock + SolanaWait(p) <= I64_MAX && s.rh.clock + DAY <= U64_MAX
    ensures s.packets[i].direction == RobinhoodToSolana && !s.sol.paused ==>
              DeliversAfter(s, SolTick(SolanaWait(p)), SolReceive(s.packets[i].guid), i)
    ensures s.packets[i].direction == SolanaToRobinhood && !s.rh.paused ==>
              DeliversAfter(s, RhTick(DAY), RhReceive(s.packets[i].guid), i)
  {
    PendingIsUnique(s.packets, s.sol.rate, i);
    if s.packets[i].direction == RobinhoodToSolana {
      if !s.sol.paused {
        ReceivableOnSolana(s, i, p);
        DeliveredOnSolana(s, i, SolanaWait(p));
      }
    } else if !s.rh.paused {
      ReceivableOnRobinhood(s, i, p);
      DeliveredOnRobinhood(s, i, DAY);
    }
  }

  /**
   No stranding.  Start with nothing oversized in flight at SAN's rate of one, and keep a validated plan in
   force.  Then every packet still undelivered fits the destination capacity and, if the destination is
   unpaused, a computable wait there with nothing else consuming is enough for its receive to commit.
   */
  lemma NoStranding(b: State, steps: seq<Step>, p: Profile, i: nat)
    requires Sane(b) && BridgeInv(b) && b.sol.rate == 1 && PacketsFit(b.packets, p.capacity) && InForce(b, steps, p)
    requires p.capacity > 0 && p.refillPerSecond > 0
    requires i < |Run(b, steps).packets| && !Run(b, steps).packets[i].delivered
    requires Run(b, steps).sol.clock + SolanaWait(p) <= I64_MAX && Run(b, steps).rh.clock + DAY <= U64_MAX
    ensures var s := Run(b, steps); var pkt := s.packets[i];
      && pkt.amountSd <= p.capacity
      && (pkt.direction == RobinhoodToSolana && !s.sol.paused ==>
            DeliversAfter(s, SolTick(SolanaWait(p)), SolReceive(pkt.guid), i))
      && (pkt.direction == SolanaToRobinhood && !s.rh.paused ==>
            DeliversAfter(s, RhTick(DAY), RhReceive(pkt.guid), i))
  {
    RunFits(b, steps, p);
    DeliverableAfterWait(Run(b, steps), p, i);
  }

  /** Without the matching capacities packets can be stranded: above the destination capacity no wait ever helps. */
  lemma OversizeIsStranded(b: State, i: nat, now: u64)
    requires Sane(b) && BridgeInv(b) && i < |b.packets| && !b.packets[i].delivered
    ensures b.packets[i].direction == SolanaToRobinhood && b.packets[i].amountSd > b.rh.inbound.capacity ==>
              Rh.Receive(b.rh.(clock := now), Text.PadAddress(b.packets[i].receiver), b.packets[i].amountSd).None?
    ensures b.packets[i].direction == RobinhoodToSolana && b.sol.limits.inbound.Some?
            && b.packets[i].amountSd * b.sol.rate > b.sol.limits.inbound.value.capacity ==>
              Sol.Receive(b.sol.(clock := now), b.packets[i].receiver, b.packets[i].amountSd).None?
  {
    SettledIsValid(b.rh.inbound, now);
  }
}
