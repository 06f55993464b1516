/**
 Off-chain reconciliation of the bridge (scripts/scanProductionInFlight.ts, scripts/productionMainnetPolicy.ts).

 Ties the evidence the scanner reads on the two chains to the state of the bridge that produced it.
 */
module Reconciliation {
  import opened Num
  import opened Text
  import opened Pathway
  import opened Lists
  import opened Sorting
  import opened Evidence
  import opened InFlightInventory
  import opened InFlightScan
  import opened Bridge

  /** The part of an event that the builder compares; GUID and receiver in lower case. */
  datatype Claim = Claim(guid: string, direction: Direction, amountRaw: string, receiver: string)

  function ClaimOf(m: Message): Claim {
    Claim(Guid(m), m.direction, m.amountRaw, ToLower(m.receiver))
  }

  /** What the source chain's event and packet say of a send. */
  function SourceClaim(p: Packet): Claim {
    Claim(p.guid, p.direction, NatToString(p.sentLd), p.receiver)
  }

  /** What the destination chain's event says: a Robinhood event shows a 20-byte address, padded by the scanner. */
  function DestinationClaim(p: Packet): Claim
    requires |p.receiver| == 66
  {
    Claim(p.guid, p.direction, NatToString(p.creditedLd),
          if p.direction == SolanaToRobinhood then PadAddress(p.receiver) else p.receiver)
  }

  predicate LongReceivers(ps: seq<Packet>) {
    forall i :: 0 <= i < |ps| ==> |ps[i].receiver| == 66
  }

  function SourceClaims(ps: seq<Packet>): (r: seq<Claim>)
    ensures |r| == |ps|
  {
    if ps == [] then [] else SourceClaims(ps[..|ps| - 1]) + [SourceClaim(ps[|ps| - 1])]
  }

  function DestinationClaims(ps: seq<Packet>): seq<Claim>
    requires LongReceivers(ps)
  {
    if ps == [] then []
    else
      var n := |ps| - 1;
      DestinationClaims(ps[..n]) + (if ps[n].delivered then [DestinationClaim(ps[n])] else [])
  }

  /** The evidence holds one send event per packet and one receive event per delivered packet, in any order. */
  ghost predicate Exact(input: BuildInput, ps: seq<Packet>)
    requires LongReceivers(ps)
  {
    && multiset(Mapped(ClaimOf, input.primary.sources)) == multiset(SourceClaims(ps))
    && multiset(Mapped(ClaimOf, input.primary.destinations)) == multiset(DestinationClaims(ps))
  }

  /** The receive of a packet shows what its send shows. */
  predicate Agrees(p: Packet) {
    p.delivered ==> p.creditedLd == p.sentLd && (p.direction == SolanaToRobinhood ==> IsEvmRecipient(p.receiver))
  }

  // ---------- claims of packets ----------

  lemma {:induction false} SourceClaimsOf(ps: seq<Packet>, c: Claim)
    ensures c in SourceClaims(ps) <==> exists i :: 0 <= i < |ps| && SourceClaim(ps[i]) == c
    decreases |ps|
  {
    if ps != [] {
      var n := |ps| - 1;
      SourceClaimsOf(ps[..n], c);
      if i :| 0 <= i < n && SourceClaim(ps[..n][i]) == c {
        assert SourceClaim(ps[i]) == c;
      }
      if i :| 0 <= i < |ps| && SourceClaim(ps[i]) == c {
        assert i == n || ps[..n][i] == ps[i];
      }
    }
  }

  lemma {:induction false} DestinationClaimsOf(ps: seq<Packet>, c: Claim)
    requires LongReceivers(ps)
    ensures c in DestinationClaims(ps) <==> exists i :: 0 <= i < |ps| && ps[i].delivered && DestinationClaim(ps[i]) == c
    decreases |ps|
  {
    if ps != [] {
      var n := |ps| - 1;
      DestinationClaimsOf(ps[..n], c);
      if i :| 0 <= i < n && ps[..n][i].delivered && DestinationClaim(ps[..n][i]) == c {
        assert ps[i].delivered && DestinationClaim(ps[i]) == c;
      }
      if i :| 0 <= i < |ps| && ps[i].delivered && DestinationClaim(ps[i]) == c {
        assert i == n || ps[..n][i] == ps[i];
      }
    }
  }

  ghost predicate DistinctPackets(ps: seq<Packet>) {
    forall i, j :: 0 <= i < j < |ps| ==> ps[i].guid != ps[j].guid
  }

  ghost predicate DistinctClaims(cs: seq<Claim>) {
    forall i, j :: 0 <= i < j < |cs| ==> cs[i].guid != cs[j].guid
  }

  lemma SnocDistinct(cs: seq<Claim>, c: Claim)
    requires DistinctClaims(cs) && forall k :: 0 <= k < |cs| ==> cs[k].guid != c.guid
    ensures DistinctClaims(cs + [c])
  {
  }

  lemma {:induction false} PacketClaimsDistinct(ps: seq<Packet>)
    requires DistinctPackets(ps) && LongReceivers(ps)
    ensures DistinctClaims(SourceClaims(ps)) && DistinctClaims(DestinationClaims(ps))
    decreases |ps|
  {
    if ps != [] {
      var n := |ps| - 1;
      var front := ps[..n];
      PacketClaimsDistinct(front);
      forall k | 0 <= k < |SourceClaims(front)|
        ensures SourceClaims(front)[k].guid != ps[n].guid
      {
        SourceClaimsOf(front, SourceClaims(front)[k]);
      }
      forall k | 0 <= k < |DestinationClaims(front)|
        ensures DestinationClaims(front)[k].guid != ps[n].guid
      {
        DestinationClaimsOf(front, DestinationClaims(front)[k]);
      }
      SnocDistinct(SourceClaims(front), SourceClaim(ps[n]));
      SnocDistinct(DestinationClaims(front), DestinationClaim(ps[n]));
    }
  }

  function ClaimKey(c: Claim): Keyed<Claim> {
    Keyed(c.guid, c)
  }

  /** Evidence that rearranges claims of distinct GUIDs has distinct GUIDs. */
  lemma EvidenceDistinct(ms: seq<Message>, cs: seq<Claim>)
    requires multiset(Mapped(ClaimOf, ms)) == multiset(cs) && DistinctClaims(cs)
    ensures DistinctGuids(ms)
  {
    var k, l := Mapped(ClaimKey, cs), Mapped(ClaimKey, Mapped(ClaimOf, ms));
    MappedMultiset(ClaimKey, cs, Mapped(ClaimOf, ms));
    DistinctAcross(k, l);
    forall i, j | 0 <= i < j < |ms|
      ensures Guid(ms[i]) != Guid(ms[j])
    {
      assert l[i].key != l[j].key;
    }
  }

  /** The packet behind a send event. */
  lemma PacketOfSend(ms: seq<Message>, ps: seq<Packet>, i: nat) returns (j: nat)
    requires multiset(Mapped(ClaimOf, ms)) == multiset(SourceClaims(ps)) && i < |ms|
    ensures j < |ps| && SourceClaim(ps[j]) == ClaimOf(ms[i])
  {
    var c := ClaimOf(ms[i]);
    assert Mapped(ClaimOf, ms)[i] == c;
    InSameMultiset(Mapped(ClaimOf, ms), SourceClaims(ps), c);
    SourceClaimsOf(ps, c);
    j :| 0 <= j < |ps| && SourceClaim(ps[j]) == c;
  }

  lemma SendOfPacket(ms: seq<Message>, ps: seq<Packet>, j: nat) returns (i: nat)
    requires multiset(Mapped(ClaimOf, ms)) == multiset(SourceClaims(ps)) && j < |ps|
    ensures i < |ms| && SourceClaim(ps[j]) == ClaimOf(ms[i])
  {
    var c := SourceClaim(ps[j]);
    SourceClaimsOf(ps, c);
    InSameMultiset(Mapped(ClaimOf, ms), SourceClaims(ps), c);
    i :| 0 <= i < |ms| && Mapped(ClaimOf, ms)[i] == c;
  }

  lemma PacketOfReceive(ms: seq<Message>, ps: seq<Packet>, i: nat) returns (j: nat)
    requires LongReceivers(ps) && multiset(Mapped(ClaimOf, ms)) == multiset(DestinationClaims(ps)) && i < |ms|
    ensures j < |ps| && ps[j].delivered && DestinationClaim(ps[j]) == ClaimOf(ms[i])
  {
    var c := ClaimOf(ms[i]);
    assert Mapped(ClaimOf, ms)[i] == c;
    InSameMultiset(Mapped(ClaimOf, ms), DestinationClaims(ps), c);
    DestinationClaimsOf(ps, c);
    j :| 0 <= j < |ps| && ps[j].delivered && DestinationClaim(ps[j]) == c;
  }

  lemma ReceiveOfPacket(ms: seq<Message>, ps: seq<Packet>, j: nat) returns (i: nat)
    requires LongReceivers(ps) && multiset(Mapped(ClaimOf, ms)) == multiset(DestinationClaims(ps))
    requires j < |ps| && ps[j].delivered
    ensures i < |ms| && DestinationClaim(ps[j]) == ClaimOf(ms[i])
  {
    var c := DestinationClaim(ps[j]);
    DestinationClaimsOf(ps, c);
    InSameMultiset(Mapped(ClaimOf, ms), DestinationClaims(ps), c);
    i :| 0 <= i < |ms| && Mapped(ClaimOf, ms)[i] == c;
  }

  // ---------- the builder on exact evidence ----------

  lemma SameGuidSamePacket(ps: seq<Packet>, i: nat, j: nat)
    requires DistinctPackets(ps) && i < |ps| && j < |ps| && ps[i].guid == ps[j].guid
    ensures i == j
  {
  }

  /** A send is matched exactly when its packet was delivered, and then with that delivery. */
  lemma MatchesDelivery(input: BuildInput, ps: seq<Packet>, i: nat, j: nat)
    requires DistinctPackets(ps) && LongReceivers(ps) && Exact(input, ps)
    requires DistinctGuids(input.primary.sources) && DistinctGuids(input.primary.destinations)
    requires i < |input.primary.sources| && j < |ps| && ClaimOf(input.primary.sources[i]) == SourceClaim(ps[j])
    ensures var m := MatchOf(input.primary.sources, input.primary.destinations, i);
      && (m.Some? <==> ps[j].delivered)
      && (m.Some? ==> ClaimOf(m.value) == DestinationClaim(ps[j]))
  {
    var (ss, ds) := (input.primary.sources, input.primary.destinations);
    var g := Guid(ss[i]);
    if g in GuidSet(ss[..i]) {
      NotDistinct(ss, i);
    }
    ByGuidKeys(ds);
    GuidSetMember(ds, g);
    if ps[j].delivered {
      var k := ReceiveOfPacket(ds, ps, j);
      ByGuidAt(ds, k);
    } else if g in GuidSet(ds) {
      var k :| 0 <= k < |ds| && Guid(ds[k]) == g;
      var l := PacketOfReceive(ds, ps, k);
      SameGuidSamePacket(ps, j, l);
    }
  }

  /** The two events of a packet agree exactly when it was credited in full to an address the event can show. */
  lemma EventsAgree(source: Message, destination: Message, p: Packet)
    requires IsBytes32(p.receiver) && p.delivered
    requires ClaimOf(source) == SourceClaim(p) && ClaimOf(destination) == DestinationClaim(p)
    ensures SameTransfer(source, destination) <==> Agrees(p)
  {
    PadAddressKeeps(p.receiver);
    if NatToString(p.creditedLd) == NatToString(p.sentLd) {
      NatToStringInjective(p.creditedLd, p.sentLd);
    }
  }

  predicate StatusConsistent(input: BuildInput, p: Packet) {
    var api := ApiStatus(input.statuses, p.guid);
    if p.delivered then !Contradicts(api) else !ClaimsDelivery(api)
  }

  lemma AnnotateSucceeds(source: Message, destination: Option<Message>, api: Option<string>)
    ensures Annotate(source, destination, api).Some?
            <==> if destination.Some? then SameTransfer(source, destination.value) && !Contradicts(api)
                 else !ClaimsDelivery(api)
  {
  }

  lemma AnnotatedExactly(input: BuildInput, ps: seq<Packet>, i: nat, j: nat)
    requires DistinctPackets(ps) && LongReceivers(ps) && Exact(input, ps)
    requires DistinctGuids(input.primary.sources) && DistinctGuids(input.primary.destinations)
    requires i < |input.primary.sources| && j < |ps| && ClaimOf(input.primary.sources[i]) == SourceClaim(ps[j])
    requires IsBytes32(ps[j].receiver)
    ensures AnnotatedAt(input, i).Some? <==> Agrees(ps[j]) && StatusConsistent(input, ps[j])
  {
    var ss := input.primary.sources;
    MatchesDelivery(input, ps, i, j);
    var m := MatchOf(ss, input.primary.destinations, i);
    if m.Some? {
      EventsAgree(ss[i], m.value, ps[j]);
    }
    AnnotateSucceeds(ss[i], m, ApiStatus(input.statuses, Guid(ss[i])));
  }

  lemma ReceivesHaveSends(input: BuildInput, ps: seq<Packet>)
    requires LongReceivers(ps) && Exact(input, ps)
    ensures GuidSet(input.primary.destinations) <= GuidSet(input.primary.sources)
  {
    var (ss, ds) := (input.primary.sources, input.primary.destinations);
    forall g | g in GuidSet(ds)
      ensures g in GuidSet(ss)
    {
      GuidSetMember(ds, g);
      var k :| 0 <= k < |ds| && Guid(ds[k]) == g;
      var j := PacketOfReceive(ds, ps, k);
      var i := SendOfPacket(ss, ps, j);
      GuidSetMember(ss, g);
      assert Guid(ss[i]) == g;
    }
  }

  lemma AmountsReadable(input: BuildInput, ps: seq<Packet>)
    requires LongReceivers(ps) && Exact(input, ps) && MessagesOf(input).Some?
    ensures AllReadable(MessagesOf(input).value)
  {
    var ss := input.primary.sources;
    var a := AnnotatedUpTo(input, |ss|).value;
    forall i | 0 <= i < |a|
      ensures Readable(a[i])
    {
      CollectItem(Annotator(input), i, |ss|);
      var j := PacketOfSend(ss, ps, i);
      BigIntOfNat(ps[j].sentLd);
      BigIntPlain(a[i].amountRaw);
    }
    PassesMeaning(Readable, a, |a|);
    OrderKeepsChecks(Readable, a);
    PassesMeaning(Readable, SortMessages(a), |a|);
  }

  /** What must hold of every packet for its events to reconcile. */
  ghost predicate Reconcilable(input: BuildInput, ps: seq<Packet>) {
    forall j :: 0 <= j < |ps| ==> Agrees(ps[j]) && StatusConsistent(input, ps[j])
  }

  lemma ReconcilableAnnotates(input: BuildInput, ps: seq<Packet>, rate: nat)
    requires PacketsOk(ps, rate) && LongReceivers(ps) && Exact(input, ps)
    requires DistinctGuids(input.primary.sources) && DistinctGuids(input.primary.destinations)
    requires Reconcilable(input, ps)
    ensures MessagesOf(input).Some?
  {
    var ss := input.primary.sources;
    CollectMeaning(Annotator(input), |ss|);
    forall i: nat | i < |ss|
      ensures Annotator(input)(i).Some?
    {
      var j := PacketOfSend(ss, ps, i);
      AnnotatedExactly(input, ps, i, j);
    }
  }

  lemma AnnotatedReconciles(input: BuildInput, ps: seq<Packet>, rate: nat)
    requires PacketsOk(ps, rate) && LongReceivers(ps) && Exact(input, ps)
    requires DistinctGuids(input.primary.sources) && DistinctGuids(input.primary.destinations)
    requires MessagesOf(input).Some?
    ensures Reconcilable(input, ps)
  {
    var ss := input.primary.sources;
    CollectMeaning(Annotator(input), |ss|);
    forall j | 0 <= j < |ps|
      ensures Agrees(ps[j]) && StatusConsistent(input, ps[j])
    {
      var i := SendOfPacket(ss, ps, j);
      CollectItem(Annotator(input), i, |ss|);
      AnnotatedExactly(input, ps, i, j);
    }
  }

  lemma AllAnnotated(input: BuildInput, ps: seq<Packet>, rate: nat)
    requires PacketsOk(ps, rate) && LongReceivers(ps) && Exact(input, ps)
    requires DistinctGuids(input.primary.sources) && DistinctGuids(input.primary.destinations)
    ensures MessagesOf(input).Some? <==> Reconcilable(input, ps)
  {
    if Reconcilable(input, ps) {
      ReconcilableAnnotates(input, ps, rate);
    }
    if MessagesOf(input).Some? {
      AnnotatedReconciles(input, ps, rate);
    }
  }

  /**
   On exact evidence the builder succeeds exactly when every delivered packet was credited what was sent, every
   Solana-to-Robinhood delivery went to a 20-byte address, and no API status contradicts the chains.
   */
  lemma ConsistentExactly(input: BuildInput, ps: seq<Packet>, rate: nat)
    requires PacketsOk(ps, rate) && LongReceivers(ps) && Exact(input, ps)
    ensures Consistent(input) <==> Reconcilable(input, ps)
  {
    assert DistinctPackets(ps);
    PacketClaimsDistinct(ps);
    EvidenceDistinct(input.primary.sources, SourceClaims(ps));
    EvidenceDistinct(input.primary.destinations, DestinationClaims(ps));
    ReceivesHaveSends(input, ps);
    AllAnnotated(input, ps, rate);
    if MessagesOf(input).Some? {
      AmountsReadable(input, ps);
    }
  }

  // ---------- the reported totals ----------

  function ClaimIn(d: Direction): Claim -> nat {
    (c: Claim) => if c.direction == d && BigIntOf(c.amountRaw).Some? then BigIntOf(c.amountRaw).value else 0
  }

  lemma ClaimsSum(ms: seq<Message>, cs: seq<Claim>, d: Direction)
    requires multiset(Mapped(ClaimOf, ms)) == multiset(cs)
    ensures SumOf(AmountIn(d), ms) == SumOf(ClaimIn(d), cs)
  {
    SumMapped(ClaimIn(d), ClaimOf, AmountIn(d), ms);
    SumMultiset(ClaimIn(d), Mapped(ClaimOf, ms), cs);
  }

  function SentIn(p: Packet, d: Direction): nat {
    if p.direction == d then p.sentLd else 0
  }

  function CreditedIn(p: Packet, d: Direction): nat {
    if p.direction == d && p.delivered then p.creditedLd else 0
  }

  function Sent(ps: seq<Packet>, d: Direction): nat {
    if ps == [] then 0 else Sent(ps[..|ps| - 1], d) + SentIn(ps[|ps| - 1], d)
  }

  function Credited(ps: seq<Packet>, d: Direction): nat {
    if ps == [] then 0 else Credited(ps[..|ps| - 1], d) + CreditedIn(ps[|ps| - 1], d)
  }

  lemma {:induction false} SourceSum(ps: seq<Packet>, d: Direction)
    ensures SumOf(ClaimIn(d), SourceClaims(ps)) == Sent(ps, d)
    decreases |ps|
  {
    if ps != [] {
      var n := |ps| - 1;
      SourceSum(ps[..n], d);
      BigIntOfNat(ps[n].sentLd);
      SumSnoc(ClaimIn(d), SourceClaims(ps[..n]), SourceClaim(ps[n]));
    }
  }

  lemma DestinationStep(f: Claim -> nat, front: seq<Packet>, p: Packet)
    requires LongReceivers(front) && |p.receiver| == 66
    ensures LongReceivers(front + [p])
    ensures SumOf(f, DestinationClaims(front + [p]))
            == SumOf(f, DestinationClaims(front)) + (if p.delivered then f(DestinationClaim(p)) else 0)
  {
    var cs := DestinationClaims(front);
    assert (front + [p])[..|front|] == front;
    SumSnoc(f, cs, DestinationClaim(p));
    assert cs + [] == cs;
  }

  lemma ClaimAmount(p: Packet, d: Direction)
    requires |p.receiver| == 66
    ensures ClaimIn(d)(SourceClaim(p)) == SentIn(p, d)
    ensures p.delivered ==> ClaimIn(d)(DestinationClaim(p)) == CreditedIn(p, d)
  {
    BigIntOfNat(p.sentLd);
    BigIntOfNat(p.creditedLd);
  }

  lemma {:induction false} DestinationSum(ps: seq<Packet>, d: Direction)
    requires LongReceivers(ps)
    ensures SumOf(ClaimIn(d), DestinationClaims(ps)) == Credited(ps, d)
    decreases |ps|
  {
    if ps != [] {
      var n := |ps| - 1;
      DestinationSum(ps[..n], d);
      DestinationStep(ClaimIn(d), ps[..n], ps[n]);
      assert ps[..n] + [ps[n]] == ps;
      ClaimAmount(ps[n], d);
    }
  }

  /** Full credit makes what was sent either credited or undelivered. */
  lemma {:induction false} SentIsCreditedOrOpen(ps: seq<Packet>, d: Direction)
    requires forall i :: 0 <= i < |ps| ==> PacketOk(ps[i], 1) && Agrees(ps[i])
    ensures Sent(ps, d) == Credited(ps, d) + Undelivered(ps, d)
    decreases |ps|
  {
    if ps != [] {
      var n := |ps| - 1;
      SentIsCreditedOrOpen(ps[..n], d);
      assert PacketOk(ps[n], 1) && Agrees(ps[n]);
    }
  }

  /** On exact evidence that reconciles, the reported totals are what is undelivered on the bridge. */
  lemma ReportedIsInFlight(input: BuildInput, ps: seq<Packet>, d: Direction)
    requires PacketsOk(ps, 1) && LongReceivers(ps) && Exact(input, ps) && Reconcilable(input, ps)
    ensures Consistent(input) && SumOf(OpenIn(d), ManifestOf(input).messages) == Undelivered(ps, d)
  {
    ConsistentExactly(input, ps, 1);
    PlainConserves(input, d);
    ClaimsSum(input.primary.sources, SourceClaims(ps), d);
    ClaimsSum(input.primary.destinations, DestinationClaims(ps), d);
    SourceSum(ps, d);
    DestinationSum(ps, d);
    SentIsCreditedOrOpen(ps, d);
  }

  // ---------- runs of the SAN deployment ----------

  /** Six decimals on both chains and a mint without transfer fee. */
  predicate SanDeployment(b: State) {
    b.sol.rate == 1 && b.sol.mintFee.None?
  }

  predicate CreditedInFull(ps: seq<Packet>) {
    forall i :: 0 <= i < |ps| ==> ps[i].delivered ==> ps[i].creditedLd == ps[i].amountSd
  }

  lemma ReceiveCreditsInFull(b: State, guid: string)
    requires Sane(b) && SanDeployment(b) && CreditedInFull(b.packets)
    ensures SanDeployment(AfterSolReceive(b, guid)) && CreditedInFull(AfterSolReceive(b, guid).packets)
  {
  }

  lemma StaysSan(b: State, st: Step)
    requires Sane(b) && SanDeployment(b) && CreditedInFull(b.packets) && !st.SolMintFee?
    ensures SanDeployment(Next(b, st)) && CreditedInFull(Next(b, st).packets)
  {
    if st.SolReceive? {
      ReceiveCreditsInFull(b, st.guid);
    }
  }

  lemma {:induction false} RunStaysSan(b: State, steps: seq<Step>)
    requires Sane(b) && SanDeployment(b) && CreditedInFull(b.packets)
    requires forall i :: 0 <= i < |steps| ==> !steps[i].SolMintFee?
    ensures SanDeployment(Run(b, steps)) && CreditedInFull(Run(b, steps).packets)
    decreases |steps|
  {
    if steps != [] {
      StaysSan(b, steps[0]);
      RunStaysSan(Next(b, steps[0]), steps[1..]);
    }
  }
}
