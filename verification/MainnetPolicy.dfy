/**
 The accounting, rate-limit and activation parts of the production checker (scripts/productionMainnetPolicy.ts),
 and why they hold.

 Identity, address, range, role, option, verifier and layout comparisons are not part of this model.
 */
module MainnetPolicy {
  import opened Num
  import opened Text
  import opened Pathway
  import opened Lists
  import opened Evidence
  import opened InFlightInventory
  import opened InFlightScan
  import opened Bridge
  import opened RateLimitPlan
  import opened Reconciliation
  import opened HonestScan
  import opened InFlightManifest
  import Sol = SolanaAdapter

  datatype Observation = Observation(
    tvlRaw: nat, escrowBalanceRaw: nat, totalSupplyRaw: nat, solanaToRobinhoodRaw: nat, robinhoodToSolanaRaw: nat,
    messageCount: nat, rateLimits: Plan, solanaPaused: bool, robinhoodPaused: bool)

  datatype Approved = Approved(expectedRobinhoodSupplyRaw: nat, solanaToRobinhoodRaw: nat, robinhoodToSolanaRaw: nat)

  datatype ExpectedState = PreActivationInert | CanaryActive

  /** The equation of `validateProductionMainnetObservation`. */
  predicate Accounted(o: Observation) {
    o.tvlRaw == o.totalSupplyRaw + o.solanaToRobinhoodRaw + o.robinhoodToSolanaRaw
  }

  predicate ActivationStateOk(o: Observation, expected: ExpectedState) {
    match expected
    case PreActivationInert => o.solanaPaused && o.robinhoodPaused
    case CanaryActive =>
      && !o.solanaPaused && !o.robinhoodPaused
      && o.tvlRaw == 0 && o.escrowBalanceRaw == 0 && o.totalSupplyRaw == 0
      && o.solanaToRobinhoodRaw == 0 && o.robinhoodToSolanaRaw == 0 && o.messageCount == 0
  }

  /** `approved.rateLimitProfile` is `profile`. */
  predicate ObservationPasses(o: Observation, a: Approved, profile: Profile, expected: ExpectedState) {
    && o.escrowBalanceRaw >= o.tvlRaw
    && o.totalSupplyRaw == a.expectedRobinhoodSupplyRaw
    && o.solanaToRobinhoodRaw == a.solanaToRobinhoodRaw && o.robinhoodToSolanaRaw == a.robinhoodToSolanaRaw
    && o.messageCount <= MAX_SAFE_INTEGER
    && Accounted(o)
    && ValidatePlan(o.rateLimits, profile) && LevelsWithin(o.rateLimits)
    && ActivationStateOk(o, expected)
  }

  /** Why the checker raises the alarm. */
  datatype Alarm =
    | EscrowShort | SupplyNotApproved | InFlightNotApproved | TooManyMessages | EquationFails
    | LimitWrong | LevelWrong | PauseWrong | NotEmpty

  /** The capacity and refill of the profile: a second's refill on Solana, a day's on Robinhood. */
  predicate AsPlanned(d: Option<DirectionalLimit>, evm: bool, p: Profile) {
    && d.Some? && d.value.capacity == p.capacity && p.capacity > 0
    && d.value.refill == (if evm then p.capacity else p.refillPerSecond) && d.value.refill > 0
    && (evm ==> d.value.durationSeconds == Some(24 * 60 * 60))
  }

  predicate PlanDiffers(plan: Plan, p: Profile) {
    || !AsPlanned(plan.solanaOutbound, false, p) || !AsPlanned(plan.solanaInbound, false, p)
    || !AsPlanned(plan.robinhoodOutbound, true, p) || !AsPlanned(plan.robinhoodInbound, true, p)
  }

  /** A limiter shows no level, or one below zero or above its capacity. */
  predicate LevelDiffers(d: Option<DirectionalLimit>) {
    d.None? || d.value.available.None? || d.value.available.value < 0 || d.value.available.value > d.value.capacity
  }

  predicate Raises(o: Observation, a: Approved, profile: Profile, expected: ExpectedState, alarm: Alarm) {
    match alarm
    case EscrowShort => o.tvlRaw - o.escrowBalanceRaw > 0
    case SupplyNotApproved => a.expectedRobinhoodSupplyRaw != o.totalSupplyRaw
    case InFlightNotApproved =>
      (a.solanaToRobinhoodRaw, a.robinhoodToSolanaRaw) != (o.solanaToRobinhoodRaw, o.robinhoodToSolanaRaw)
    case TooManyMessages => o.messageCount >= 9_007_199_254_740_992
    case EquationFails => o.tvlRaw - o.totalSupplyRaw - o.solanaToRobinhoodRaw - o.robinhoodToSolanaRaw != 0
    case LimitWrong => PlanDiffers(o.rateLimits, profile)
    case LevelWrong =>
      || LevelDiffers(o.rateLimits.solanaOutbound) || LevelDiffers(o.rateLimits.solanaInbound)
      || LevelDiffers(o.rateLimits.robinhoodOutbound) || LevelDiffers(o.rateLimits.robinhoodInbound)
    case PauseWrong => !(o.solanaPaused == o.robinhoodPaused == (expected == PreActivationInert))
    case NotEmpty =>
      expected == CanaryActive
      && o.tvlRaw + o.escrowBalanceRaw + o.totalSupplyRaw + o.solanaToRobinhoodRaw + o.robinhoodToSolanaRaw
         + o.messageCount > 0
  }

  lemma PlanAlarm(plan: Plan, p: Profile)
    ensures ValidatePlan(plan, p) <==> !PlanDiffers(plan, p)
  {
    var ds := [plan.solanaOutbound, plan.solanaInbound, plan.robinhoodOutbound, plan.robinhoodInbound];
    assert ds[0] in ds && ds[1] in ds && ds[2] in ds && ds[3] in ds;
  }

  /** Whatever the figures, true or not: the checker passes exactly when no alarm is raised. */
  lemma PassesWithoutAlarm(o: Observation, a: Approved, profile: Profile, expected: ExpectedState)
    ensures ObservationPasses(o, a, profile, expected) <==> forall alarm :: !Raises(o, a, profile, expected, alarm)
  {
    PlanAlarm(o.rateLimits, profile);
    if forall alarm :: !Raises(o, a, profile, expected, alarm) {
      assert !Raises(o, a, profile, expected, EscrowShort);
      assert !Raises(o, a, profile, expected, SupplyNotApproved);
      assert !Raises(o, a, profile, expected, InFlightNotApproved);
      assert !Raises(o, a, profile, expected, TooManyMessages);
      assert !Raises(o, a, profile, expected, EquationFails);
      assert !Raises(o, a, profile, expected, LimitWrong);
      assert !Raises(o, a, profile, expected, LevelWrong);
      assert !Raises(o, a, profile, expected, PauseWrong);
      assert !Raises(o, a, profile, expected, NotEmpty);
    }
  }

  /** What the checker observes: both chains, and an inventory read from a manifest. */
  function Observe(b: State, inventory: Inventory): Observation
    requires Sane(b)
  {
    Observation(b.sol.tvl, Sol.EscrowOf(b.sol), b.rh.supply, inventory.solanaToRobinhoodRaw,
                inventory.robinhoodToSolanaRaw,
                inventory.messageCount, PlanOf(b), b.sol.paused, b.rh.paused)
  }

  /** A reachable state of the SAN deployment: its mint never charges a transfer fee. */
  ghost predicate SanRun(b: State, steps: seq<Step>) {
    IsGenesis(b) && Sane(b) && SanDeployment(b) && forall i :: 0 <= i < |steps| ==> !steps[i].SolMintFee?
  }

  /** The custody facts of a reachable state that the checker relies on. */
  lemma ReachableFacts(b: State, steps: seq<Step>)
    requires SanRun(b, steps)
    ensures var s := Run(b, steps);
      && s.sol.tvl == s.rh.supply + Undelivered(s.packets, SolanaToRobinhood)
         + Undelivered(s.packets, RobinhoodToSolana)
      && s.sol.tvl <= Sol.EscrowOf(s.sol)
      && PacketsOk(s.packets, 1) && LongReceivers(s.packets) && CreditedInFull(s.packets)
      && BridgeInv(s) && s.sol.rate == 1
  {
    GenesisKeeps(b);
    RunKeeps(b, steps);
    RunStaysSan(b, steps);
  }

  /**
   A delivery that its event can show in full: to Solana always, to Robinhood when the recipient is an EVM address.
   */
  predicate Shown(p: Packet) {
    p.delivered && p.direction == SolanaToRobinhood ==> IsEvmRecipient(p.receiver)
  }

  lemma SanPacketsAgree(ps: seq<Packet>, j: nat)
    requires PacketsOk(ps, 1) && CreditedInFull(ps) && j < |ps|
    ensures Agrees(ps[j]) <==> Shown(ps[j])
  {
    assert PacketOk(ps[j], 1);
  }

  /** Every packet's delivery is shown in full, and the API status of each is consistent with the chains. */
  ghost predicate EventsReconcile(input: BuildInput, ps: seq<Packet>) {
    forall j :: 0 <= j < |ps| ==> Shown(ps[j]) && StatusConsistent(input, ps[j])
  }

  lemma SanEventsReconcile(input: BuildInput, ps: seq<Packet>)
    requires PacketsOk(ps, 1) && CreditedInFull(ps)
    ensures Reconcilable(input, ps) <==> EventsReconcile(input, ps)
  {
    forall j | 0 <= j < |ps|
      ensures Agrees(ps[j]) <==> Shown(ps[j])
    {
      SanPacketsAgree(ps, j);
    }
  }

  /**
   When the builder runs on the events of a reachable state it succeeds exactly when the providers agree and those
   events reconcile.
   */
  lemma BuilderSucceeds(b: State, steps: seq<Step>, input: BuildInput)
    requires SanRun(b, steps)
    requires LongReceivers(Run(b, steps).packets) && Exact(input, Run(b, steps).packets)
    ensures Accepts(input)
            <==> SameEvidence(input.primary, input.secondary) && EventsReconcile(input, Run(b, steps).packets)
  {
    ReachableFacts(b, steps);
    ConsistentExactly(input, Run(b, steps).packets, 1);
    SanEventsReconcile(input, Run(b, steps).packets);
  }

  /** What the builder reports from reconcilable events of some packets. */
  lemma ReportedTotals(input: BuildInput, ps: seq<Packet>)
    requires PacketsOk(ps, 1) && LongReceivers(ps) && CreditedInFull(ps) && Exact(input, ps)
             && EventsReconcile(input, ps)
    ensures Consistent(input)
    ensures var t := InventoryOf(ManifestOf(input).messages);
      && t.solanaToRobinhoodRaw == Undelivered(ps, SolanaToRobinhood)
      && t.robinhoodToSolanaRaw == Undelivered(ps, RobinhoodToSolana)
      && t.messageCount == |ps|
  {
    SanEventsReconcile(input, ps);
    ReportedIsInFlight(input, ps, SolanaToRobinhood);
    ReportedIsInFlight(input, ps, RobinhoodToSolana);
    SameSize(Mapped(ClaimOf, input.primary.sources), SourceClaims(ps));
  }

  /**
   The checker's equation against the chain, in every reachable state: on the events of that state the reported
   totals make it hold, with escrow covering recorded principal.
   */
  lemma EquationHolds(b: State, steps: seq<Step>, input: BuildInput)
    requires SanRun(b, steps)
    requires LongReceivers(Run(b, steps).packets) && Exact(input, Run(b, steps).packets)
    requires EventsReconcile(input, Run(b, steps).packets)
    ensures Consistent(input)
    ensures var o := Observe(Run(b, steps), InventoryOf(ManifestOf(input).messages));
      && Accounted(o) && o.escrowBalanceRaw >= o.tvlRaw
      && o.solanaToRobinhoodRaw == Undelivered(Run(b, steps).packets, SolanaToRobinhood)
      && o.robinhoodToSolanaRaw == Undelivered(Run(b, steps).packets, RobinhoodToSolana)
  {
    ReachableFacts(b, steps);
    ReportedTotals(input, Run(b, steps).packets);
  }

  /**
   The whole path: on the events of a reachable state that reconcile, the manifest makes the equation hold, the
   builder publishes it exactly when the providers agree, and the parser accepts it exactly when it is presentable.
   */
  lemma PublishedManifestReconciles(b: State, steps: seq<Step>, input: BuildInput)
    requires SanRun(b, steps)
    requires LongReceivers(Run(b, steps).packets) && Exact(input, Run(b, steps).packets)
    requires EventsReconcile(input, Run(b, steps).packets)
    ensures Consistent(input) && (Accepts(input) <==> SameEvidence(input.primary, input.secondary))
    ensures Acceptable(ManifestOf(input)) <==> Presentable(input)
    ensures Accounted(Observe(Run(b, steps), InventoryOf(ManifestOf(input).messages)))
  {
    EquationHolds(b, steps, input);
    BuildThenParse(input);
  }

  /**
   What the equation detects: on evidence of any packets `qs`, true or not, it holds exactly when their open
   amounts add up to what is really in flight.
   */
  lemma EquationDetects(b: State, steps: seq<Step>, input: BuildInput, qs: seq<Packet>)
    requires SanRun(b, steps)
    requires PacketsOk(qs, 1) && LongReceivers(qs) && CreditedInFull(qs) && Exact(input, qs)
             && EventsReconcile(input, qs)
    ensures Consistent(input)
    ensures var s := Run(b, steps);
      Accounted(Observe(s, InventoryOf(ManifestOf(input).messages)))
      <==> Undelivered(qs, SolanaToRobinhood) + Undelivered(qs, RobinhoodToSolana)
           == Undelivered(s.packets, SolanaToRobinhood) + Undelivered(s.packets, RobinhoodToSolana)
  {
    ReachableFacts(b, steps);
    ReportedTotals(input, qs);
  }

  function OpenAmount(d: Direction): Packet -> nat {
    (p: Packet) => if p.direction == d && !p.delivered then p.amountSd else 0
  }

  lemma {:induction false} UndeliveredIsSum(ps: seq<Packet>, d: Direction)
    ensures Undelivered(ps, d) == SumOf(OpenAmount(d), ps)
    decreases |ps|
  {
    if ps != [] {
      UndeliveredIsSum(ps[..|ps| - 1], d);
    }
  }

  lemma UndeliveredWithout(ps: seq<Packet>, k: nat, d: Direction)
    requires k < |ps|
    ensures Undelivered(ps, d)
            == Undelivered(Without(ps, k), d) + (if ps[k].direction == d && !ps[k].delivered then ps[k].amountSd else 0)
  {
    UndeliveredIsSum(ps, d);
    UndeliveredIsSum(Without(ps, k), d);
    SumWithout(OpenAmount(d), ps, k);
  }

  lemma WithoutKeeps(ps: seq<Packet>, k: nat)
    requires k < |ps| && PacketsOk(ps, 1) && LongReceivers(ps) && CreditedInFull(ps)
    ensures var qs := Without(ps, k); PacketsOk(qs, 1) && LongReceivers(qs) && CreditedInFull(qs)
  {
    var qs := Without(ps, k);
    forall i | 0 <= i < |qs|
      ensures qs[i] == ps[if i < k then i else k + 1 + (i - k)]
    {
    }
  }

  /** Evidence that omits one packet is caught by the equation exactly when value of that packet is in flight. */
  lemma OmissionCaught(b: State, steps: seq<Step>, input: BuildInput, k: nat)
    requires SanRun(b, steps) && k < |Run(b, steps).packets| && LongReceivers(Run(b, steps).packets)
    requires LongReceivers(Without(Run(b, steps).packets, k)) && Exact(input, Without(Run(b, steps).packets, k))
    requires EventsReconcile(input, Without(Run(b, steps).packets, k))
    ensures Consistent(input)
    ensures var s := Run(b, steps);
      !Accounted(Observe(s, InventoryOf(ManifestOf(input).messages)))
      <==> !s.packets[k].delivered && s.packets[k].amountSd > 0
  {
    var s := Run(b, steps);
    ReachableFacts(b, steps);
    WithoutKeeps(s.packets, k);
    EquationDetects(b, steps, input, Without(s.packets, k));
    UndeliveredWithout(s.packets, k, SolanaToRobinhood);
    UndeliveredWithout(s.packets, k, RobinhoodToSolana);
  }

  /** A plan that validates shows its levels within capacity: that check never fails on its own. */
  lemma ValidPlanLevels(s: State, profile: Profile)
    requires Sane(s) && BridgeInv(s)
    ensures ValidatePlan(PlanOf(s), profile) ==> LevelsWithin(PlanOf(s))
  {
    ValidatedMeansMatched(s, profile);
    LevelsAlwaysWithin(s);
  }

  /** The inventory tells what is in flight in this state, and the custody facts hold. */
  ghost predicate TrueInventory(s: State, t: Inventory) {
    && t.solanaToRobinhoodRaw == Undelivered(s.packets, SolanaToRobinhood)
    && t.robinhoodToSolanaRaw == Undelivered(s.packets, RobinhoodToSolana)
    && t.messageCount == |s.packets|
    && s.sol.tvl == s.rh.supply + t.solanaToRobinhoodRaw + t.robinhoodToSolanaRaw
    && s.sol.tvl <= Sol.EscrowOf(s.sol)
  }

  lemma InertPasses(s: State, t: Inventory, a: Approved, profile: Profile)
    requires Sane(s) && TrueInventory(s, t) && (ValidatePlan(PlanOf(s), profile) ==> LevelsWithin(PlanOf(s)))
    ensures ObservationPasses(Observe(s, t), a, profile, PreActivationInert)
            <==> && s.sol.paused && s.rh.paused && ValidatePlan(PlanOf(s), profile)
                 && a == Approved(s.rh.supply, t.solanaToRobinhoodRaw, t.robinhoodToSolanaRaw)
                 && |s.packets| <= MAX_SAFE_INTEGER
  {
  }

  /**
   The pre-activation check passes in a reachable state exactly when both applications are paused, the four limiters
   match the profile and the approved figures are the true ones.
   */
  lemma PreActivationPasses(b: State, steps: seq<Step>, input: BuildInput, a: Approved, profile: Profile)
    requires SanRun(b, steps)
    requires LongReceivers(Run(b, steps).packets) && Exact(input, Run(b, steps).packets)
    requires EventsReconcile(input, Run(b, steps).packets)
    ensures Consistent(input)
    ensures var s := Run(b, steps);
      ObservationPasses(Observe(s, InventoryOf(ManifestOf(input).messages)), a, profile, PreActivationInert)
      <==> && s.sol.paused && s.rh.paused && ValidatePlan(PlanOf(s), profile)
           && a == Approved(s.rh.supply, Undelivered(s.packets, SolanaToRobinhood),
                            Undelivered(s.packets, RobinhoodToSolana))
           && |s.packets| <= MAX_SAFE_INTEGER
  {
    ReachableFacts(b, steps);
    ReportedTotals(input, Run(b, steps).packets);
    ValidPlanLevels(Run(b, steps), profile);
    InertPasses(Run(b, steps), InventoryOf(ManifestOf(input).messages), a, profile);
  }

  /** Both applications unpaused, everything else as it is. */
  function Unpaused(s: State): State {
    s.(sol := s.sol.(paused := false), rh := s.rh.(paused := false))
  }

  lemma UnpausedKeeps(s: State, profile: Profile)
    requires Sane(s) && BridgeInv(s) && ValidatePlan(PlanOf(s), profile)
    ensures var u := Unpaused(s); Sane(u) && BridgeInv(u) && ValidatePlan(PlanOf(u), profile)
  {
    SolOnlyKeeps(s, Unpaused(s).sol, s.books);
    RhOnlyKeeps(s.(sol := Unpaused(s).sol), Unpaused(s).rh);
  }

  lemma TotalsFit(ps: seq<Packet>, capacity: int)
    requires Undelivered(ps, SolanaToRobinhood) <= capacity && Undelivered(ps, RobinhoodToSolana) <= capacity
    ensures PacketsFit(ps, capacity)
  {
    forall i | 0 <= i < |ps| && !ps[i].delivered
      ensures ps[i].amountSd <= capacity
    {
      PacketAtMostUndelivered(ps, i);
    }
  }

  /**
   What an accepted pre-activation check is worth: if the approved in-flight figures fit the profile, every packet
   in flight can be delivered, after a computable wait, once its destination is unpaused.
   */
  lemma AcceptedMeansDeliverable(b: State, steps: seq<Step>, input: BuildInput, a: Approved, profile: Profile, i: nat)
    requires SanRun(b, steps)
    requires LongReceivers(Run(b, steps).packets) && Exact(input, Run(b, steps).packets)
    requires EventsReconcile(input, Run(b, steps).packets) && Consistent(input)
    requires ObservationPasses(Observe(Run(b, steps), InventoryOf(ManifestOf(input).messages)), a, profile,
                               PreActivationInert)
    requires a.solanaToRobinhoodRaw <= profile.capacity && a.robinhoodToSolanaRaw <= profile.capacity
    requires profile.capacity > 0 && profile.refillPerSecond > 0
    requires i < |Run(b, steps).packets| && !Run(b, steps).packets[i].delivered
    requires Run(b, steps).sol.clock + SolanaWait(profile) <= I64_MAX && Run(b, steps).rh.clock + DAY <= U64_MAX
    ensures var u := Unpaused(Run(b, steps)); var pkt := u.packets[i];
      && Sane(u)
      && (pkt.direction == RobinhoodToSolana
          ==> DeliversAfter(u, SolTick(SolanaWait(profile)), SolReceive(pkt.guid), i))
      && (pkt.direction == SolanaToRobinhood ==> DeliversAfter(u, RhTick(DAY), RhReceive(pkt.guid), i))
  {
    var s := Run(b, steps);
    ReachableFacts(b, steps);
    PreActivationPasses(b, steps, input, a, profile);
    TotalsFit(s.packets, profile.capacity);
    UnpausedKeeps(s, profile);
    DeliverableAfterWait(Unpaused(s), profile, i);
  }

  lemma UnpauseKeepsValue(r: State, unpause: Step)
    requires Sane(r) && UnpausesSolana(unpause)
    ensures var s := Next(r, unpause);
      s.packets == r.packets && s.rh == r.rh && s.sol.tvl == r.sol.tvl && s.sol.ledger == r.sol.ledger
  {
  }

  /**
   At the activation boundary, when Solana has just been unpaused for the first time, the canary check passes
   exactly when Robinhood is unpaused too, the four limiters match the profile, nobody has donated to the escrow and
   no packet exists.
   */
  lemma CanaryPasses(b: State, steps: seq<Step>, unpause: Step, input: BuildInput, profile: Profile)
    requires SanRun(b, steps) && forall i :: 0 <= i < |steps| ==> !UnpausesSolana(steps[i])
    requires UnpausesSolana(unpause)
    requires var s := Next(Run(b, steps), unpause);
      !s.sol.paused && LongReceivers(s.packets) && Exact(input, s.packets) && EventsReconcile(input, s.packets)
    ensures Consistent(input)
    ensures var s := Next(Run(b, steps), unpause);
      ObservationPasses(Observe(s, InventoryOf(ManifestOf(input).messages)), Approved(0, 0, 0), profile, CanaryActive)
      <==> !s.rh.paused && ValidatePlan(PlanOf(s), profile) && Sol.EscrowOf(s.sol) == 0 && s.packets == []
  {
    var r := Run(b, steps);
    var s := Next(r, unpause);
    ReachableFacts(b, steps);
    NoValueBeforeSolanaActivation(b, steps);
    UnpauseKeepsValue(r, unpause);
    ReportedTotals(input, s.packets);
    NextKeeps(r, unpause);
    ValidPlanLevels(s, profile);
  }

  /** Any packet at all, of whatever amount and status, fails the canary check. */
  lemma CanaryNeedsNoPackets(b: State, steps: seq<Step>, input: BuildInput)
    requires SanRun(b, steps) && Run(b, steps).packets != []
    requires LongReceivers(Run(b, steps).packets) && Exact(input, Run(b, steps).packets)
    requires EventsReconcile(input, Run(b, steps).packets)
    ensures Consistent(input)
    ensures !ActivationStateOk(Observe(Run(b, steps), InventoryOf(ManifestOf(input).messages)), CanaryActive)
  {
    ReachableFacts(b, steps);
    ReportedTotals(input, Run(b, steps).packets);
  }

  /**
   A packet whose Solana-to-Robinhood recipient is not a 20-byte address never reconciles once delivered: its
   receive event shows another recipient, and the builder fails.
   */
  lemma WideRecipientNeverReconciles(input: BuildInput, ps: seq<Packet>, j: nat)
    requires PacketsOk(ps, 1) && LongReceivers(ps) && CreditedInFull(ps) && Exact(input, ps) && j < |ps|
    requires ps[j].delivered && ps[j].direction == SolanaToRobinhood && !IsEvmRecipient(ps[j].receiver)
    ensures !Consistent(input)
  {
    assert !Shown(ps[j]);
    SanEventsReconcile(input, ps);
    ConsistentExactly(input, ps, 1);
  }

  // ---------- such evidence exists ----------

  lemma HonestReconciles(ids: Identities, ps: seq<Packet>)
    requires PacketsOk(ps, 1) && LongReceivers(ps) && forall j :: 0 <= j < |ps| ==> Shown(ps[j])
    ensures EventsReconcile(HonestInput(ids, ps), ps)
  {
    forall j | 0 <= j < |ps|
      ensures StatusConsistent(HonestInput(ids, ps), ps[j])
    {
      HonestStatusConsistent(ids, ps, j);
    }
  }

  /**
   The builder accepts the honest scan of this state and it makes the equation hold; the parser accepts it exactly
   when no packet has amount zero.
   */
  ghost predicate Published(s: State, ids: Identities)
    requires Sane(s)
  {
    && LongReceivers(s.packets)
    && var input := HonestInput(ids, s.packets);
    && Exact(input, s.packets) && Accepts(input) && (Acceptable(ManifestOf(input)) <==> PositiveAmounts(s.packets))
    && Accounted(Observe(s, InventoryOf(ManifestOf(input).messages)))
  }

  /** So it is in every reachable state whose deliveries went to addresses their events can show. */
  lemma HonestScanPublishes(b: State, steps: seq<Step>, ids: Identities)
    requires SanRun(b, steps) && NamedOfts(ids)
    requires forall j :: 0 <= j < |Run(b, steps).packets| ==> Shown(Run(b, steps).packets[j])
    ensures Published(Run(b, steps), ids)
  {
    var s := Run(b, steps);
    ReachableFacts(b, steps);
    HonestIsExact(ids, s.packets, 1);
    HonestReconciles(ids, s.packets);
    HonestIsPresentable(ids, s.packets);
    PublishedManifestReconciles(b, steps, HonestInput(ids, s.packets));
  }
}
