/**
 A run that sends and delivers a first packet, so that the theorems about delivered packets speak of something:
 the steps the activation ceremony makes possible, from any deployment with a funded account.
 */
module FirstDelivery {
  import opened Num
  import opened Text
  import opened Pathway
  import opened FeeMath
  import opened TokenLedger
  import opened SolanaRateLimiter
  import opened SanOftBucket
  import opened Bridge
  import opened Evidence
  import opened InFlightManifest
  import opened InFlightInventory
  import opened InFlightScan
  import opened HonestScan
  import opened Reconciliation
  import opened MainnetPolicy
  import Sol = SolanaAdapter
  import Rh = RobinhoodOft

  lemma NoDustAtRateOne(rate: u64, amount: nat)
    requires rate == 1
    ensures RemoveDust(rate, amount) == amount
  {
    DustFree(rate, amount);
  }

  /** Without fees and at rate one an amount is adjusted to itself. */
  lemma Unadjusted(amount: u64, c: FeeConfig)
    requires c.oftType == Adapter && c.rate == 1 && c.defaultFeeBps == 0 && c.feeBps.None?
    ensures ComputeFeeAndAdjustAmount(amount, c, None) == Some(Amounts(amount, amount, 0))
  {
    NoDustAtRateOne(c.rate, amount);
    NoDustAtRateOne(c.rate, 0);
    assert CalculateFee(amount, c.defaultFeeBps, c.feeBps) == 0;
  }

  lemma FirstTransfer(l: Ledger, from: Key, to: Key, amount: u64)
    requires Issued(l) <= U64_MAX && from in l.accounts && to in l.accounts && l.accounts[from] >= amount
    ensures Transfer(l, None, from, to, amount).Some?
  {
    TransferConserves(l, None, from, to, amount);
  }

  /** A freshly deployed Adapter, once unpaused: no fees, no limiters, nothing locked. */
  predicate FreshAdapter(s: Sol.AdapterState) {
    && s.rate == 1 && s.mintFee.None? && s.tvl == 0
    && s.defaultFeeBps == 0 && s.peerFeeBps.None? && s.limits == Limits(None, None)
  }

  lemma FirstSend(s: Sol.AdapterState, holder: Key, amount: u64)
    requires Sol.AdapterInv(s) && FreshAdapter(s) && !s.paused
    requires holder != Sol.ESCROW && holder in s.ledger.accounts && s.ledger.accounts[holder] >= amount
    ensures var r := Sol.Send(s, holder, amount, amount);
      r.Some? && r.value.amounts == Amounts(amount, amount, 0) && r.value.amountSd == amount
  {
    Unadjusted(amount, Sol.Fees(s));
    FirstTransfer(s.ledger, holder, Sol.ESCROW, amount);
    assert Sol.Send(s, holder, amount, amount).Some?;
    Sol.SendKeeps(s, holder, amount, amount);
  }

  lemma FirstReceive(r: Rh.OftState, to: Key, amount: nat)
    requires Rh.OftInv(r) && !r.paused && r.inbound == InitialBucket(r.clock) && amount <= CANARY_CAPACITY
    ensures Rh.Receive(r, to, amount).Some?
  {
    CreditNow(r.inbound);
    DivModUnique(Credit(r.inbound), r.inbound.refillDuration, r.inbound.available, 0);
  }

  lemma RunFour(b: State, s1: Step, s2: Step, s3: Step, s4: Step)
    requires Sane(b)
    ensures Run(b, [s1, s2, s3, s4]) == Next(Next(Next(Next(b, s1), s2), s3), s4)
  {
    assert [s1, s2, s3, s4][1..] == [s2, s3, s4] && [s2, s3, s4][1..] == [s3, s4] && [s3, s4][1..] == [s4];
    var b1 := Next(b, s1);
    var b2 := Next(b1, s2);
    var b3 := Next(b2, s3);
    assert Run(b3, [s4]) == Next(b3, s4);
    assert Run(b2, [s3, s4]) == Run(b3, [s4]);
    assert Run(b1, [s2, s3, s4]) == Run(b2, [s3, s4]);
  }

  /** Unpause Robinhood first and Solana last, then send and deliver. */
  function OneDelivery(b: State, holder: Key, guid: string, receiver: string, amount: u64): seq<Step> {
    [RhSetPaused(b.rh.owner, false), SolSetOftConfig(b.sol.admin, Sol.SetPaused(false)),
     SolSend(guid, holder, receiver, amount, amount), RhReceive(guid)]
  }

  lemma BothUnpaused(b: State)
    requires Sane(b) && b.rh.paused
    ensures Next(Next(b, RhSetPaused(b.rh.owner, false)), SolSetOftConfig(b.sol.admin, Sol.SetPaused(false)))
            == Unpaused(b)
  {
    assert Next(b, RhSetPaused(b.rh.owner, false)) == b.(rh := b.rh.(paused := false));
  }

  lemma GenesisIsFresh(b: State)
    requires IsGenesis(b) && SanDeployment(b)
    ensures FreshAdapter(b.sol) && b.packets == []
    ensures b.rh.paused && b.rh.inbound == InitialBucket(b.rh.clock)
  {
    var d :| IsGenesisOf(b, d);
  }

  lemma SentFirst(b: State, holder: Key, guid: string, receiver: string, amount: u64)
    requires Sane(b) && IsGenesis(b) && SanDeployment(b) && IsBytes32(guid) && IsBytes32(receiver)
    requires holder != Sol.ESCROW && holder in b.sol.ledger.accounts && b.sol.ledger.accounts[holder] >= amount
    ensures var u := Next(Unpaused(b), SolSend(guid, holder, receiver, amount, amount));
      u.rh == Unpaused(b).rh && u.packets == [Packet(guid, SolanaToRobinhood, receiver, amount, amount, false, 0)]
  {
    var t := Unpaused(b);
    GenesisKeeps(b);
    GenesisIsFresh(b);
    FirstSend(t.sol, holder, amount);
    assert Next(t, SolSend(guid, holder, receiver, amount, amount))
           == AfterSolSend(t, guid, holder, receiver, amount, amount);
  }

  lemma DeliveredFirst(u: State, guid: string, receiver: string, amount: u64)
    requires Sane(u) && Rh.OftInv(u.rh) && !u.rh.paused && u.rh.inbound == InitialBucket(u.rh.clock)
    requires u.packets == [Packet(guid, SolanaToRobinhood, receiver, amount, amount, false, 0)]
             && amount <= CANARY_CAPACITY
    ensures Next(u, RhReceive(guid)).packets
            == [Packet(guid, SolanaToRobinhood, receiver, amount, amount, true, amount)]
  {
    assert u.packets[0].receiver == receiver;
    FirstReceive(u.rh, PadAddress(receiver), amount);
    assert Pending(u.packets, guid, SolanaToRobinhood) == Some(0);
  }

  /** The four steps one after another. */
  lemma DeliveredInFour(b: State, holder: Key, guid: string, receiver: string, amount: u64)
    requires Sane(b) && IsGenesis(b) && SanDeployment(b) && IsBytes32(guid) && IsBytes32(receiver)
    requires holder != Sol.ESCROW && holder in b.sol.ledger.accounts && amount <= b.sol.ledger.accounts[holder]
    requires amount <= CANARY_CAPACITY
    ensures Next(Next(Unpaused(b), SolSend(guid, holder, receiver, amount, amount)), RhReceive(guid)).packets
            == [Packet(guid, SolanaToRobinhood, receiver, amount, amount, true, amount)]
  {
    GenesisIsFresh(b);
    GenesisKeeps(b);
    SentFirst(b, holder, guid, receiver, amount);
    DeliveredFirst(Next(Unpaused(b), SolSend(guid, holder, receiver, amount, amount)), guid, receiver, amount);
  }

  lemma OneDeliveryRuns(b: State, holder: Key, guid: string, receiver: string, amount: u64)
    requires Sane(b) && b.rh.paused
    ensures Run(b, OneDelivery(b, holder, guid, receiver, amount))
            == Next(Next(Unpaused(b), SolSend(guid, holder, receiver, amount, amount)), RhReceive(guid))
  {
    var steps := OneDelivery(b, holder, guid, receiver, amount);
    RunFour(b, steps[0], steps[1], steps[2], steps[3]);
    BothUnpaused(b);
  }

  lemma OneDeliveryDelivers(b: State, holder: Key, guid: string, receiver: string, amount: u64)
    requires Sane(b) && IsGenesis(b) && SanDeployment(b) && IsBytes32(guid) && IsBytes32(receiver)
    requires holder != Sol.ESCROW && holder in b.sol.ledger.accounts && amount <= b.sol.ledger.accounts[holder]
    requires amount <= CANARY_CAPACITY
    ensures Run(b, OneDelivery(b, holder, guid, receiver, amount)).packets
            == [Packet(guid, SolanaToRobinhood, receiver, amount, amount, true, amount)]
  {
    GenesisIsFresh(b);
    OneDeliveryRuns(b, holder, guid, receiver, amount);
    DeliveredInFour(b, holder, guid, receiver, amount);
  }

  lemma OneDeliveryIsSan(b: State, holder: Key, guid: string, receiver: string, amount: u64)
    requires Sane(b) && IsGenesis(b) && SanDeployment(b)
    ensures SanRun(b, OneDelivery(b, holder, guid, receiver, amount))
  {
  }

  /**
   From any deployment with a funded account, a packet to any 32-byte recipient can be sent and delivered in four
   steps.
   */
  lemma DeliveryReachable(b: State, holder: Key, guid: string, receiver: string, amount: u64)
    requires Sane(b) && IsGenesis(b) && SanDeployment(b) && IsBytes32(guid) && IsBytes32(receiver)
    requires holder != Sol.ESCROW && holder in b.sol.ledger.accounts && amount <= b.sol.ledger.accounts[holder]
    requires amount <= CANARY_CAPACITY
    ensures SanRun(b, OneDelivery(b, holder, guid, receiver, amount))
    ensures Run(b, OneDelivery(b, holder, guid, receiver, amount)).packets
            == [Packet(guid, SolanaToRobinhood, receiver, amount, amount, true, amount)]
  {
    OneDeliveryIsSan(b, holder, guid, receiver, amount);
    OneDeliveryDelivers(b, holder, guid, receiver, amount);
  }

  /** A recipient whose first byte is not zero. */
  function WideRecipient(): string {
    "0x1" + Zeros(63)
  }

  lemma WideRecipientIsWide()
    ensures IsBytes32(WideRecipient()) && !IsEvmRecipient(WideRecipient())
  {
    var r := WideRecipient();
    assert forall i :: 3 <= i < 66 ==> r[i] == Zeros(63)[i - 3];
    assert r[2] == '1';
  }

  /** A recipient that is a 20-byte address. */
  function EvmRecipient(): string {
    "0x" + Zeros(64)
  }

  lemma EvmRecipientIsEvm()
    ensures IsBytes32(EvmRecipient()) && IsEvmRecipient(EvmRecipient())
  {
    var r := EvmRecipient();
    assert forall i :: 2 <= i < 66 ==> r[i] == Zeros(64)[i - 2];
  }

  /** Exact evidence of one delivery to a recipient that is no address: the builder fails on it. */
  lemma WideDeliveryFails(ids: Identities, ps: seq<Packet>, guid: string, amount: u64)
    requires PacketsOk(ps, 1) && LongReceivers(ps) && CreditedInFull(ps)
    requires ps == [Packet(guid, SolanaToRobinhood, WideRecipient(), amount, amount, true, amount)]
    ensures exists input :: Exact(input, ps) && SameEvidence(input.primary, input.secondary) && !Accepts(input)
  {
    var input := HonestInput(ids, ps);
    HonestIsExact(ids, ps, 1);
    WideRecipientIsWide();
    assert ps[0].receiver == WideRecipient();
    WideRecipientNeverReconciles(input, ps, 0);
    assert Exact(input, ps) && SameEvidence(input.primary, input.secondary) && !Accepts(input);
  }

  /**
   A failing case is reachable: after four steps from any deployment with a funded account there is exact evidence,
   on which the providers agree, that the builder rejects.
   */
  lemma UnreconcilableReachable(b: State, holder: Key, guid: string, amount: u64, ids: Identities)
    requires Sane(b) && IsGenesis(b) && SanDeployment(b) && IsBytes32(guid)
    requires holder != Sol.ESCROW && holder in b.sol.ledger.accounts && amount <= b.sol.ledger.accounts[holder]
    requires amount <= CANARY_CAPACITY
    ensures var steps := OneDelivery(b, holder, guid, WideRecipient(), amount);
      && SanRun(b, steps) && LongReceivers(Run(b, steps).packets)
      && exists input ::
           Exact(input, Run(b, steps).packets) && SameEvidence(input.primary, input.secondary) && !Accepts(input)
  {
    var steps := OneDelivery(b, holder, guid, WideRecipient(), amount);
    WideRecipientIsWide();
    DeliveryReachable(b, holder, guid, WideRecipient(), amount);
    ReachableFacts(b, steps);
    WideDeliveryFails(ids, Run(b, steps).packets, guid, amount);
  }

  lemma OneShown(ps: seq<Packet>, guid: string, amount: u64)
    requires ps == [Packet(guid, SolanaToRobinhood, EvmRecipient(), amount, amount, true, amount)]
    ensures (forall j :: 0 <= j < |ps| ==> Shown(ps[j])) && (PositiveAmounts(ps) <==> amount > 0)
  {
    EvmRecipientIsEvm();
    assert ps[0].sentLd == amount;
  }

  /** A delivery to an address is built and accounted for, and parsed exactly when its amount is positive. */
  lemma PublicationReachable(b: State, holder: Key, guid: string, amount: u64, ids: Identities)
    requires Sane(b) && IsGenesis(b) && SanDeployment(b) && IsBytes32(guid) && NamedOfts(ids)
    requires holder != Sol.ESCROW && holder in b.sol.ledger.accounts && amount <= b.sol.ledger.accounts[holder]
    requires amount <= CANARY_CAPACITY
    ensures var s := Run(b, OneDelivery(b, holder, guid, EvmRecipient(), amount));
      Published(s, ids) && (PositiveAmounts(s.packets) <==> amount > 0)
  {
    var steps := OneDelivery(b, holder, guid, EvmRecipient(), amount);
    EvmRecipientIsEvm();
    DeliveryReachable(b, holder, guid, EvmRecipient(), amount);
    OneShown(Run(b, steps).packets, guid, amount);
    HonestScanPublishes(b, steps, ids);
  }

  /**
   So the builder accepts what the parser does not: from any deployment with a token account, four steps lead to a
   state whose exact evidence the builder turns into a manifest that the parser rejects.
   */
  lemma ZeroAmountUnparseable(b: State, holder: Key, guid: string, ids: Identities)
    requires Sane(b) && IsGenesis(b) && SanDeployment(b) && IsBytes32(guid) && NamedOfts(ids)
    requires holder != Sol.ESCROW && holder in b.sol.ledger.accounts
    ensures var s := Run(b, OneDelivery(b, holder, guid, EvmRecipient(), 0));
      && LongReceivers(s.packets)
      && exists input :: Exact(input, s.packets) && Accepts(input) && !Acceptable(ManifestOf(input))
  {
    PublicationReachable(b, holder, guid, 0, ids);
    var s := Run(b, OneDelivery(b, holder, guid, EvmRecipient(), 0));
    var input := HonestInput(ids, s.packets);
    assert Exact(input, s.packets) && Accepts(input) && !Acceptable(ManifestOf(input));
  }
}
