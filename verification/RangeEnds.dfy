/**
 Evidence whose two ranges end at different moments (docs/IN_FLIGHT_EVIDENCE_MODEL.md): the scanner reads each
 chain's events up to an end of its own, and the checker reads the accounts later still.
 */
module RangeEnds {
  import opened Pathway
  import opened Lists
  import opened Evidence
  import opened InFlightManifest
  import opened InFlightInventory
  import opened InFlightScan
  import opened Bridge
  import opened Reconciliation
  import opened HonestScan
  import opened MainnetPolicy
  import opened Throughput
  import opened GrossFlow

  // ---------- evidence up to two range ends ----------

  function Goes(d: Direction): Claim -> bool {
    (c: Claim) => c.direction == d
  }

  /** Solana's sends up to one state and Robinhood's up to another. */
  function SendsUpTo(sol: seq<Packet>, rh: seq<Packet>): seq<Claim> {
    Filter(Goes(SolanaToRobinhood), SourceClaims(sol)) + Filter(Goes(RobinhoodToSolana), SourceClaims(rh))
  }

  /** Robinhood's receives up to its state and Solana's up to its own. */
  function ReceivesUpTo(sol: seq<Packet>, rh: seq<Packet>): seq<Claim>
    requires LongReceivers(sol) && LongReceivers(rh)
  {
    Filter(Goes(SolanaToRobinhood), DestinationClaims(rh)) + Filter(Goes(RobinhoodToSolana), DestinationClaims(sol))
  }

  /** The evidence holds Solana's events up to the packets `sol`, and Robinhood's up to the packets `rh`. */
  ghost predicate ExactUpTo(input: BuildInput, sol: seq<Packet>, rh: seq<Packet>)
    requires LongReceivers(sol) && LongReceivers(rh)
  {
    && multiset(Mapped(ClaimOf, input.primary.sources)) == multiset(SendsUpTo(sol, rh))
    && multiset(Mapped(ClaimOf, input.primary.destinations)) == multiset(ReceivesUpTo(sol, rh))
  }

  lemma {:induction false} BothDirections(cs: seq<Claim>)
    ensures multiset(Filter(Goes(SolanaToRobinhood), cs)) + multiset(Filter(Goes(RobinhoodToSolana), cs))
            == multiset(cs)
    decreases |cs|
  {
    if cs != [] {
      var n := |cs| - 1;
      BothDirections(cs[..n]);
      assert cs[..n] + [cs[n]] == cs;
    }
  }

  /** With one moment for both ends this is exact evidence of that moment. */
  lemma OneMoment(input: BuildInput, ps: seq<Packet>)
    requires LongReceivers(ps)
    ensures ExactUpTo(input, ps, ps) <==> Exact(input, ps)
  {
    BothDirections(SourceClaims(ps));
    BothDirections(DestinationClaims(ps));
  }

  // ---------- what the builder reports from it ----------

  lemma {:induction false} SumGoing(cs: seq<Claim>, d: Direction, e: Direction)
    ensures SumOf(ClaimIn(d), Filter(Goes(e), cs)) == if d == e then SumOf(ClaimIn(d), cs) else 0
    decreases |cs|
  {
    if cs != [] {
      var n := |cs| - 1;
      var front := Filter(Goes(e), cs[..n]);
      SumGoing(cs[..n], d, e);
      SumSnoc(ClaimIn(d), front, cs[n]);
      assert front + [] == front;
    }
  }

  /** At rate one and with full credit, the claims of a direction add up to what was sent and what arrived. */
  lemma {:induction false} ClaimTotals(ps: seq<Packet>, d: Direction)
    requires CreditedInFull(ps) && forall i :: 0 <= i < |ps| ==> PacketOk(ps[i], 1)
    ensures Sent(ps, d) == GrossSent(ps, d) && Credited(ps, d) == GrossSent(ps, d) - Undelivered(ps, d)
    decreases |ps|
  {
    if ps != [] {
      var n := |ps| - 1;
      ClaimTotals(ps[..n], d);
      assert PacketOk(ps[n], 1);
    }
  }

  /** What is in order about the packets of a reachable state. */
  ghost predicate SanPackets(ps: seq<Packet>) {
    PacketsOk(ps, 1) && LongReceivers(ps) && CreditedInFull(ps)
  }

  lemma SendTotal(input: BuildInput, sol: seq<Packet>, rh: seq<Packet>, d: Direction)
    requires SanPackets(sol) && SanPackets(rh) && ExactUpTo(input, sol, rh)
    ensures SumOf(AmountIn(d), input.primary.sources) == GrossSent(if d == SolanaToRobinhood then sol else rh, d)
  {
    var (a, b) := (SourceClaims(sol), SourceClaims(rh));
    ClaimsSum(input.primary.sources, SendsUpTo(sol, rh), d);
    SumConcat(ClaimIn(d), Filter(Goes(SolanaToRobinhood), a), Filter(Goes(RobinhoodToSolana), b));
    SumGoing(a, d, SolanaToRobinhood);
    SumGoing(b, d, RobinhoodToSolana);
    SourceSum(sol, d);
    SourceSum(rh, d);
    ClaimTotals(sol, d);
    ClaimTotals(rh, d);
  }

  lemma ReceiveTotal(input: BuildInput, sol: seq<Packet>, rh: seq<Packet>, d: Direction)
    requires SanPackets(sol) && SanPackets(rh) && ExactUpTo(input, sol, rh)
    ensures var ps := if d == SolanaToRobinhood then rh else sol;
      SumOf(AmountIn(d), input.primary.destinations) == GrossSent(ps, d) - Undelivered(ps, d)
  {
    var (a, b) := (DestinationClaims(rh), DestinationClaims(sol));
    ClaimsSum(input.primary.destinations, ReceivesUpTo(sol, rh), d);
    SumConcat(ClaimIn(d), Filter(Goes(SolanaToRobinhood), a), Filter(Goes(RobinhoodToSolana), b));
    SumGoing(a, d, SolanaToRobinhood);
    SumGoing(b, d, RobinhoodToSolana);
    DestinationSum(sol, d);
    DestinationSum(rh, d);
    ClaimTotals(sol, d);
    ClaimTotals(rh, d);
  }

  /** What the checker reads from the manifest: both totals together. */
  function ReportedOpen(input: BuildInput): nat
    requires MessagesOf(input).Some?
  {
    var t := InventoryOf(ManifestOf(input).messages);
    t.solanaToRobinhoodRaw + t.robinhoodToSolanaRaw
  }

  /** Sent less received at each range's own end. */
  lemma ReportedUpTo(input: BuildInput, s: State, r: State)
    requires SanPackets(s.packets) && SanPackets(r.packets) && ExactUpTo(input, s.packets, r.packets)
             && Consistent(input)
    ensures ReportedOpen(input) == (Outbound(s) - Returned(s)) - (Passed(r, true) - Passed(r, false))
  {
    PlainConserves(input, SolanaToRobinhood);
    PlainConserves(input, RobinhoodToSolana);
    SendTotal(input, s.packets, r.packets, SolanaToRobinhood);
    SendTotal(input, s.packets, r.packets, RobinhoodToSolana);
    ReceiveTotal(input, s.packets, r.packets, SolanaToRobinhood);
    ReceiveTotal(input, s.packets, r.packets, RobinhoodToSolana);
  }

  /** In a reachable state principal and supply are the net flows through their chains. */
  lemma NetFlows(b: State, steps: seq<Step>)
    requires SanRun(b, steps)
    ensures var s := Run(b, steps);
      SanPackets(s.packets) && s.sol.tvl == Outbound(s) - Returned(s)
        && s.rh.supply == Passed(s, true) - Passed(s, false)
  {
    GenesisKeeps(b);
    ReachableFacts(b, steps);
    PrincipalIsNetFlow(b, steps);
    RunSupply(b, steps);
  }

  /**
   Whatever the two range ends, if the builder accepts the evidence it reports exactly the principal at Solana's end
   less the supply at Robinhood's.  The states may be two moments of one run, in either order.
   */
  lemma SkewedTotals(b: State, xs: seq<Step>, ys: seq<Step>, input: BuildInput)
    requires SanRun(b, xs) && SanRun(b, ys)
    requires LongReceivers(Run(b, xs).packets) && LongReceivers(Run(b, ys).packets)
    requires ExactUpTo(input, Run(b, xs).packets, Run(b, ys).packets) && Consistent(input)
    ensures ReportedOpen(input) == Run(b, xs).sol.tvl - Run(b, ys).rh.supply
  {
    NetFlows(b, xs);
    NetFlows(b, ys);
    ReportedUpTo(input, Run(b, xs), Run(b, ys));
  }

  /** So the equation holds of accounts read at the range ends, each chain at its own. */
  lemma EquationAtRangeEnds(b: State, xs: seq<Step>, ys: seq<Step>, input: BuildInput)
    requires SanRun(b, xs) && SanRun(b, ys)
    requires LongReceivers(Run(b, xs).packets) && LongReceivers(Run(b, ys).packets)
    requires ExactUpTo(input, Run(b, xs).packets, Run(b, ys).packets) && Consistent(input)
    ensures var read := Run(b, xs).(rh := Run(b, ys).rh);
      Accounted(Observe(read, InventoryOf(ManifestOf(input).messages)))
  {
    SkewedTotals(b, xs, ys, input);
  }

  /**
   And of accounts read at any other moment it holds exactly when principal less supply is there what it was between
   the two range ends.
   */
  lemma EquationElsewhere(b: State, xs: seq<Step>, ys: seq<Step>, zs: seq<Step>, input: BuildInput)
    requires SanRun(b, xs) && SanRun(b, ys) && SanRun(b, zs)
    requires LongReceivers(Run(b, xs).packets) && LongReceivers(Run(b, ys).packets)
    requires ExactUpTo(input, Run(b, xs).packets, Run(b, ys).packets) && Consistent(input)
    ensures Accounted(Observe(Run(b, zs), InventoryOf(ManifestOf(input).messages)))
            <==> Run(b, zs).sol.tvl - Run(b, zs).rh.supply == Run(b, xs).sol.tvl - Run(b, ys).rh.supply
  {
    SkewedTotals(b, xs, ys, input);
  }

  // ---------- while both sides stay paused ----------

  /** Evidence exact for a paused moment keeps the equation true for as long as the pause lasts. */
  lemma PausedEvidenceStays(b: State, steps: seq<Step>, more: seq<Step>, input: BuildInput)
    requires SanRun(b, steps) && Run(b, steps).sol.paused && Run(b, steps).rh.paused
    requires forall i :: 0 <= i < |more| ==> !UnpausesSolana(more[i]) && !UnpausesRobinhood(more[i])
    requires LongReceivers(Run(b, steps).packets) && Exact(input, Run(b, steps).packets)
    requires EventsReconcile(input, Run(b, steps).packets)
    ensures Consistent(input)
    ensures var o := Observe(Run(b, steps + more), InventoryOf(ManifestOf(input).messages));
      Accounted(o) && o.escrowBalanceRaw >= o.tvlRaw
  {
    EquationHolds(b, steps, input);
    PausedBridgeStands(Run(b, steps), more);
    RunConcat(b, steps, more);
    GenesisKeeps(b);
    RunKeeps(b, steps + more);
  }

  // ---------- a receive beyond the other range's end ----------

  /** The packets whose sends, or receives, of a direction the evidence shows. */
  function SentSide(d: Direction, sol: seq<Packet>, rh: seq<Packet>): seq<Packet> {
    if d == SolanaToRobinhood then sol else rh
  }

  function ReceivedSide(d: Direction, sol: seq<Packet>, rh: seq<Packet>): seq<Packet> {
    if d == SolanaToRobinhood then rh else sol
  }

  lemma SendShown(sol: seq<Packet>, rh: seq<Packet>, c: Claim) returns (i: nat)
    requires c in SendsUpTo(sol, rh)
    ensures i < |SentSide(c.direction, sol, rh)| && SourceClaim(SentSide(c.direction, sol, rh)[i]) == c
  {
    var ps := SentSide(c.direction, sol, rh);
    FilterMember(Goes(SolanaToRobinhood), SourceClaims(sol), c);
    FilterMember(Goes(RobinhoodToSolana), SourceClaims(rh), c);
    SourceClaimsOf(ps, c);
    i :| 0 <= i < |ps| && SourceClaim(ps[i]) == c;
  }

  lemma ReceiveShown(input: BuildInput, sol: seq<Packet>, rh: seq<Packet>, d: Direction, j: nat)
    requires LongReceivers(sol) && LongReceivers(rh) && ExactUpTo(input, sol, rh)
    requires var ps := ReceivedSide(d, sol, rh); j < |ps| && ps[j].delivered && ps[j].direction == d
    ensures exists k :: 0 <= k < |input.primary.destinations|
              && ClaimOf(input.primary.destinations[k]) == DestinationClaim(ReceivedSide(d, sol, rh)[j])
  {
    var ds := input.primary.destinations;
    var ps := ReceivedSide(d, sol, rh);
    var c := DestinationClaim(ps[j]);
    DestinationClaimsOf(ps, c);
    FilterMember(Goes(d), DestinationClaims(ps), c);
    InSameMultiset(Mapped(ClaimOf, ds), ReceivesUpTo(sol, rh), c);
    var k :| 0 <= k < |ds| && Mapped(ClaimOf, ds)[k] == c;
  }

  /** The packet behind a shown send. */
  lemma PacketShown(input: BuildInput, sol: seq<Packet>, rh: seq<Packet>, i: nat) returns (k: nat)
    requires LongReceivers(sol) && LongReceivers(rh) && ExactUpTo(input, sol, rh) && i < |input.primary.sources|
    ensures var m := input.primary.sources[i];
      var ps := SentSide(m.direction, sol, rh); k < |ps| && ps[k].guid == Guid(m) && ps[k].direction == m.direction
  {
    var ss := input.primary.sources;
    var c := ClaimOf(ss[i]);
    assert Mapped(ClaimOf, ss)[i] == c;
    InSameMultiset(Mapped(ClaimOf, ss), SendsUpTo(sol, rh), c);
    k := SendShown(sol, rh, c);
  }

  lemma GuidOfOnePacket(ps: seq<Packet>, j: nat, k: nat)
    requires DistinctPackets(ps) && j < |ps| && k < |ps| && ps[j].direction != ps[k].direction
    ensures ps[k].guid != ps[j].guid
  {
    assert j != k;
  }

  /** No send with this GUID is shown: its own side ends before it, and its GUID belongs to no other packet. */
  lemma NoSendShown(input: BuildInput, sol: seq<Packet>, rh: seq<Packet>, d: Direction, j: nat)
    requires LongReceivers(sol) && LongReceivers(rh) && ExactUpTo(input, sol, rh)
    requires DistinctPackets(ReceivedSide(d, sol, rh))
    requires j < |ReceivedSide(d, sol, rh)| && ReceivedSide(d, sol, rh)[j].direction == d
    requires forall i :: 0 <= i < |SentSide(d, sol, rh)| ==>
               SentSide(d, sol, rh)[i].guid != ReceivedSide(d, sol, rh)[j].guid
    ensures ReceivedSide(d, sol, rh)[j].guid !in GuidSet(input.primary.sources)
  {
    var ss := input.primary.sources;
    var g := ReceivedSide(d, sol, rh)[j].guid;
    GuidSetMember(ss, g);
    forall i | 0 <= i < |ss|
      ensures Guid(ss[i]) != g
    {
      var k := PacketShown(input, sol, rh, i);
      if ss[i].direction != d {
        GuidOfOnePacket(ReceivedSide(d, sol, rh), j, k);
      }
    }
  }

  /** A packet that arrived before one range's end but was sent after the other's makes the builder fail. */
  lemma OrphanRejected(input: BuildInput, sol: seq<Packet>, rh: seq<Packet>, d: Direction, j: nat)
    requires LongReceivers(sol) && LongReceivers(rh) && ExactUpTo(input, sol, rh)
    requires DistinctPackets(ReceivedSide(d, sol, rh))
    requires var ps := ReceivedSide(d, sol, rh); j < |ps| && ps[j].delivered && ps[j].direction == d
    requires forall i :: 0 <= i < |SentSide(d, sol, rh)| ==>
               SentSide(d, sol, rh)[i].guid != ReceivedSide(d, sol, rh)[j].guid
    ensures !Consistent(input)
  {
    var ds := input.primary.destinations;
    NoSendShown(input, sol, rh, d, j);
    ReceiveShown(input, sol, rh, d, j);
    GuidSetMember(ds, ReceivedSide(d, sol, rh)[j].guid);
  }

  // ---------- such evidence exists ----------

  function Moves(d: Direction): Message -> bool {
    (m: Message) => m.direction == d
  }

  lemma {:induction false} ClaimsGoing(ms: seq<Message>, d: Direction)
    ensures Mapped(ClaimOf, Filter(Moves(d), ms)) == Filter(Goes(d), Mapped(ClaimOf, ms))
    decreases |ms|
  {
    if ms != [] {
      var n := |ms| - 1;
      var front := Filter(Moves(d), ms[..n]);
      ClaimsGoing(ms[..n], d);
      MappedSnoc(ClaimOf, front, ms[n]);
      assert Mapped(ClaimOf, ms)[..n] == Mapped(ClaimOf, ms[..n]);
      assert front + [] == front;
    }
  }

  lemma MappedConcat(a: seq<Message>, b: seq<Message>)
    ensures Mapped(ClaimOf, a + b) == Mapped(ClaimOf, a) + Mapped(ClaimOf, b)
  {
  }

  /** An honest scan of two ranges. */
  function HonestUpTo(ids: Identities, sol: seq<Packet>, rh: seq<Packet>): BuildInput
    requires LongReceivers(sol) && LongReceivers(rh)
  {
    var (s, r) := (HonestInput(ids, sol).primary, HonestInput(ids, rh).primary);
    var seen := s.(sources := Filter(Moves(SolanaToRobinhood), s.sources) + Filter(Moves(RobinhoodToSolana), r.sources),
                   destinations := Filter(Moves(SolanaToRobinhood), r.destinations)
                                   + Filter(Moves(RobinhoodToSolana), s.destinations));
    HonestInput(ids, sol).(primary := seen, secondary := seen)
  }

  /** For any two range ends there is exact evidence. */
  lemma HonestUpToIsExact(ids: Identities, sol: seq<Packet>, rh: seq<Packet>)
    requires LongReceivers(sol) && LongReceivers(rh)
    requires PacketsOk(sol, 1) && PacketsOk(rh, 1)
    ensures ExactUpTo(HonestUpTo(ids, sol, rh), sol, rh)
  {
    var (s, r) := (HonestInput(ids, sol).primary, HonestInput(ids, rh).primary);
    SendEventsExact(ids, sol, 1);
    SendEventsExact(ids, rh, 1);
    ReceiveEventsExact(ids, sol, 1);
    ReceiveEventsExact(ids, rh, 1);
    ClaimsGoing(s.sources, SolanaToRobinhood);
    ClaimsGoing(r.sources, RobinhoodToSolana);
    ClaimsGoing(r.destinations, SolanaToRobinhood);
    ClaimsGoing(s.destinations, RobinhoodToSolana);
    MappedConcat(Filter(Moves(SolanaToRobinhood), s.sources), Filter(Moves(RobinhoodToSolana), r.sources));
    MappedConcat(Filter(Moves(SolanaToRobinhood), r.destinations), Filter(Moves(RobinhoodToSolana), s.destinations));
  }
}
