/**
 The activation ceremony: from any deployment, the canary plan is put in force on both chains and both sides are
 unpaused, so that the theorems about a plan in force speak of something.
 */
module Activation {
  import opened Num
  import opened Text
  import opened Pathway
  import opened FeeMath
  import opened TokenLedger
  import opened SolanaRateLimiter
  import opened Bridge
  import opened RateLimitPlan
  import opened InFlightManifest
  import opened InFlightInventory
  import opened InFlightScan
  import opened Reconciliation
  import opened HonestScan
  import opened MainnetPolicy
  import opened BuilderAndParser
  import opened FirstDelivery
  import opened Drainage
  import Sol = SolanaAdapter
  import Rh = RobinhoodOft

  function CanaryParams(): RateLimitParams {
    RateLimitParams(Some(CANARY.refillPerSecond), Some(CANARY.capacity))
  }

  /** A Solana limiter just configured for the canary. */
  function CanaryLimiter(now: u64): Limiter {
    Limiter(CANARY.capacity, CANARY.capacity, CANARY.refillPerSecond, now)
  }

  lemma ConfiguredForCanary(now: u64)
    ensures Reconfigured(None, CanaryParams(), now) == CanaryLimiter(now)
  {
  }

  /** Both Solana limiters, then both pause flags, Solana last; the Robinhood buckets are deployed for the canary. */
  function Ceremony(b: State): seq<Step> {
    [SolSetPeerConfig(b.sol.admin, Sol.OutboundRateLimit(Some(CanaryParams()))),
     SolSetPeerConfig(b.sol.admin, Sol.InboundRateLimit(Some(CanaryParams()))),
     RhSetPaused(b.rh.owner, false), SolSetOftConfig(b.sol.admin, Sol.SetPaused(false))]
  }

  function CanaryLimits(now: u64): Limits {
    Limits(Some(CanaryLimiter(now)), Some(CanaryLimiter(now)))
  }

  /** The deployment after the ceremony. */
  function Active(b: State): State {
    b.(sol := b.sol.(limits := CanaryLimits(b.sol.clock), paused := false), rh := b.rh.(paused := false))
  }

  lemma OutboundConfigured(b: State)
    requires Sane(b) && b.sol.limits == Limits(None, None)
    ensures Next(b, Ceremony(b)[0]) == b.(sol := b.sol.(limits := Limits(Some(CanaryLimiter(b.sol.clock)), None)))
  {
    ConfiguredForCanary(b.sol.clock);
  }

  lemma InboundConfigured(b: State)
    requires Sane(b) && b.sol.limits == Limits(Some(CanaryLimiter(b.sol.clock)), None)
    ensures Next(b, Ceremony(b)[1]) == b.(sol := b.sol.(limits := CanaryLimits(b.sol.clock)))
  {
    ConfiguredForCanary(b.sol.clock);
  }

  lemma CeremonyActivates(b: State)
    requires Sane(b) && IsGenesis(b) && SanDeployment(b)
    ensures Run(b, Ceremony(b)) == Active(b)
  {
    GenesisIsFresh(b);
    RunFour(b, Ceremony(b)[0], Ceremony(b)[1], Ceremony(b)[2], Ceremony(b)[3]);
    OutboundConfigured(b);
    InboundConfigured(Next(b, Ceremony(b)[0]));
    BothUnpaused(b.(sol := b.sol.(limits := CanaryLimits(b.sol.clock))));
  }

  lemma GenesisBuckets(b: State)
    requires IsGenesis(b)
    ensures BucketMatches(b.rh.outbound, CANARY) && BucketMatches(b.rh.inbound, CANARY)
  {
    var d :| IsGenesisOf(b, d);
  }

  /** After the ceremony the canary plan validates and both sides run. */
  lemma ActiveIsReady(b: State)
    requires Sane(b) && IsGenesis(b) && SanDeployment(b)
    ensures Ready(Active(b), CANARY) && Active(b).packets == []
  {
    GenesisKeeps(b);
    GenesisIsFresh(b);
    GenesisBuckets(b);
    CeremonyActivates(b);
    RunKeeps(b, Ceremony(b));
    ValidatedMeansMatched(Active(b), CANARY);
  }

  /** A send within the canary capacity passes the full limiters. */
  lemma CanarySend(s: Sol.AdapterState, holder: Key, amount: u64)
    requires Sol.AdapterInv(s) && FreshAdapter(s.(limits := Limits(None, None))) && !s.paused
    requires s.limits == CanaryLimits(s.clock) && amount <= CANARY.capacity
    requires holder != Sol.ESCROW && holder in s.ledger.accounts && s.ledger.accounts[holder] >= amount
    ensures var r := Sol.Send(s, holder, amount, amount);
      r.Some? && r.value.amounts == Amounts(amount, amount, 0) && r.value.amountSd == amount
      && r.value.state.clock == s.clock && r.value.state.paused == s.paused
      && LimiterMatches(r.value.state.limits.outbound, CANARY) && LimiterMatches(r.value.state.limits.inbound, CANARY)
  {
    Unadjusted(amount, Sol.Fees(s));
    FirstTransfer(s.ledger, holder, Sol.ESCROW, amount);
    assert AfterSend(s.limits, amount, s.clock).Some?;
    assert Sol.Send(s, holder, amount, amount).Some?;
    Sol.SendKeeps(s, holder, amount, amount);
  }

  lemma RunThen(b: State, steps: seq<Step>, last: Step)
    requires Sane(b)
    ensures Run(b, steps + [last]) == Next(Run(b, steps), last)
  {
    RunConcat(b, steps, [last]);
    assert Run(Next(Run(b, steps), last), [last][1..]) == Next(Run(b, steps), last);
  }

  /** So a packet can be on its way with the plan in force, and the bridge drained of it. */
  lemma DrainableReachable(b: State, holder: Key, guid: string, receiver: string, amount: u64)
    requires Sane(b) && IsGenesis(b) && SanDeployment(b) && IsBytes32(guid) && IsBytes32(receiver)
    requires holder != Sol.ESCROW && holder in b.sol.ledger.accounts && amount <= b.sol.ledger.accounts[holder]
    requires amount <= CANARY.capacity
    requires b.sol.clock + SolanaWait(CANARY) <= I64_MAX && b.rh.clock + DAY <= U64_MAX
    ensures var s := Run(b, Ceremony(b) + [SolSend(guid, holder, receiver, amount, amount)]);
      && s.packets == [Packet(guid, SolanaToRobinhood, receiver, amount, amount, false, 0)]
      && Ready(s, CANARY) && Drained(Run(s, DrainSchedule(s, CANARY)))
  {
    var a := Active(b);
    var send := SolSend(guid, holder, receiver, amount, amount);
    GenesisIsFresh(b);
    ActiveIsReady(b);
    CeremonyActivates(b);
    RunThen(b, Ceremony(b), send);
    CanarySend(a.sol, holder, amount);
    var s := Next(a, send);
    assert s == AfterSolSend(a, guid, holder, receiver, amount, amount);
    NextKeeps(a, send);
    NextFits(a, send, CANARY);
    ValidatedMeansMatched(a, CANARY);
    ValidatedMeansMatched(s, CANARY);
    ReadyDrains(s, CANARY);
  }

  // ---------- the canary check ----------

  lemma EmptyEscrow(b: State)
    requires IsGenesis(b)
    ensures Sol.EscrowOf(b.sol) == 0
  {
    var d :| IsGenesisOf(b, d);
  }

  lemma CeremonyEndsWithUnpause(b: State)
    requires Sane(b) && IsGenesis(b) && SanDeployment(b)
    ensures Next(Run(b, Ceremony(b)[..3]), Ceremony(b)[3]) == Active(b)
    ensures SanRun(b, Ceremony(b)[..3]) && forall i :: 0 <= i < 3 ==> !UnpausesSolana(Ceremony(b)[..3][i])
  {
    CeremonyActivates(b);
    assert Ceremony(b)[..3] + [Ceremony(b)[3]] == Ceremony(b);
    RunThen(b, Ceremony(b)[..3], Ceremony(b)[3]);
  }

  /** Right after the ceremony, the canary check passes. */
  lemma CanaryPassesAfterCeremony(b: State, ids: Identities)
    requires Sane(b) && IsGenesis(b) && SanDeployment(b)
    ensures ObservationPasses(Observe(Active(b), InventoryOf(ManifestOf(HonestInput(ids, [])).messages)),
                              Approved(0, 0, 0), CANARY, CanaryActive)
  {
    CeremonyEndsWithUnpause(b);
    ActiveIsReady(b);
    EmptyEscrow(b);
    HonestIsExact(ids, [], 1);
    CanaryPasses(b, Ceremony(b)[..3], Ceremony(b)[3], HonestInput(ids, []), CANARY);
  }

  /** The ceremony, with a zero-amount send between the two unpauses. */
  function StraySend(b: State, guid: string, from: Key, receiver: string): seq<Step> {
    Ceremony(b)[..3] + [RhSend(guid, from, receiver, 0, 0)] + [Ceremony(b)[3]]
  }

  /** Robinhood configured and unpaused, Solana configured. */
  function HalfActive(b: State): State {
    b.(sol := b.sol.(limits := CanaryLimits(b.sol.clock)), rh := b.rh.(paused := false))
  }

  lemma HalfCeremony(b: State)
    requires Sane(b) && IsGenesis(b) && SanDeployment(b)
    ensures Run(b, Ceremony(b)[..3]) == HalfActive(b)
  {
    GenesisIsFresh(b);
    var (s0, s1, s2) := (Ceremony(b)[0], Ceremony(b)[1], Ceremony(b)[2]);
    OutboundConfigured(b);
    InboundConfigured(Next(b, s0));
    var c := b.(sol := b.sol.(limits := CanaryLimits(b.sol.clock)));
    assert Next(c, s2) == HalfActive(b);
    RunThen(b, [], s0);
    RunThen(b, [s0], s1);
    RunThen(b, [s0, s1], s2);
    assert [] + [s0] == [s0] && [s0] + [s1] == [s0, s1] && [s0, s1] + [s2] == Ceremony(b)[..3];
  }

  /** Sending nothing takes no balance: anybody can. */
  lemma NothingSent(r: Rh.OftState, from: Key)
    requires Rh.OftInv(r) && !r.paused && BucketMatches(r.outbound, CANARY)
    ensures var s := Rh.Send(r, from, 0, 0);
      && s.Some? && s.value.supply == r.supply && s.value.inbound == r.inbound
         && BucketMatches(s.value.outbound, CANARY)
      && !s.value.paused
  {
    Rh.SendKeeps(r, from, 0, 0);
  }

  /**
   An account that holds nothing can put a packet on record between the two unpauses of the ceremony.  Everything
   else the canary check asks for still holds.
   */
  lemma StraySendReachable(b: State, guid: string, from: Key, receiver: string)
    requires Sane(b) && IsGenesis(b) && SanDeployment(b) && IsBytes32(guid) && IsBytes32(receiver)
    ensures var s := Run(b, StraySend(b, guid, from, receiver));
      && s.packets == [Packet(guid, RobinhoodToSolana, receiver, 0, 0, false, 0)]
      && !s.sol.paused && !s.rh.paused && ValidatePlan(PlanOf(s), CANARY)
      && s.sol.tvl == 0 && Sol.EscrowOf(s.sol) == 0 && s.rh.supply == 0
  {
    var c := HalfActive(b);
    var send := RhSend(guid, from, receiver, 0, 0);
    HalfCeremony(b);
    GenesisIsFresh(b);
    GenesisKeeps(b);
    GenesisBuckets(b);
    EmptyEscrow(b);
    NothingSent(c.rh, from);
    RunThen(b, Ceremony(b)[..3], send);
    RunThen(b, Ceremony(b)[..3] + [send], Ceremony(b)[3]);
    var u := Next(c, send);
    assert u == AfterRhSend(c, guid, from, receiver, 0, 0);
    var s := Next(u, Ceremony(b)[3]);
    assert s == u.(sol := u.sol.(paused := false));
    ValidatedMeansMatched(s, CANARY);
  }

  lemma StraySendIsSan(b: State, guid: string, from: Key, receiver: string, more: seq<Step>)
    requires Sane(b) && IsGenesis(b) && SanDeployment(b) && forall i :: 0 <= i < |more| ==> !more[i].SolMintFee?
    ensures SanRun(b, StraySend(b, guid, from, receiver) + more)
  {
  }

  lemma StaysOnRecord(b: State, steps: seq<Step>, more: seq<Step>)
    requires Sane(b) && Run(b, steps).packets != []
    ensures Run(b, steps + more).packets != []
  {
    RunKeepsSends(Run(b, steps), more);
    RunConcat(b, steps, more);
  }

  /** From then on the canary check fails, on any evidence, whatever happens next. */
  lemma StraySendBlocksCanary(b: State, guid: string, from: Key, receiver: string, more: seq<Step>, input: BuildInput)
    requires Sane(b) && IsGenesis(b) && SanDeployment(b) && IsBytes32(guid) && IsBytes32(receiver)
    requires forall i :: 0 <= i < |more| ==> !more[i].SolMintFee?
    requires var t := Run(b, StraySend(b, guid, from, receiver) + more);
      LongReceivers(t.packets) && Exact(input, t.packets) && EventsReconcile(input, t.packets)
    ensures Consistent(input)
    ensures var t := Run(b, StraySend(b, guid, from, receiver) + more);
      !ActivationStateOk(Observe(t, InventoryOf(ManifestOf(input).messages)), CanaryActive)
  {
    var steps := StraySend(b, guid, from, receiver);
    StraySendReachable(b, guid, from, receiver);
    StraySendIsSan(b, guid, from, receiver, more);
    StaysOnRecord(b, steps, more);
    CanaryNeedsNoPackets(b, steps + more, input);
  }
}
