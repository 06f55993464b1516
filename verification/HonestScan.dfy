/**
 The evidence of an honest scan: for any packets of the bridge, the events both chains emitted for them, with the
 metadata a manifest needs.  It shows that the theorems about evidence speak of something.
 */
module HonestScan {
  import opened Num
  import opened Text
  import opened Pathway
  import opened Lists
  import opened Evidence
  import opened InFlightManifest
  import opened InFlightInventory
  import opened InFlightScan
  import opened Bridge
  import opened Reconciliation

  /** Some 32-byte hash; every block of the scan carries it. */
  function SomeHash(): string {
    "0x" + Zeros(64)
  }

  function ScanRanges(): Ranges {
    Ranges(SolanaRange("0", "1", "1", SOLANA_MAINNET_GENESIS_HASH, SomeHash(), SomeHash(), true, true),
           RobinhoodRange("0", "1", "1", SomeHash(), SomeHash(), true, true))
  }

  function SourceOft(d: Direction, ids: Identities): string {
    if d == SolanaToRobinhood then ids.solana.oftStore else ids.robinhood.oft
  }

  function DestinationOft(d: Direction, ids: Identities): string {
    if d == SolanaToRobinhood then ids.robinhood.oft else ids.solana.oftStore
  }

  function SendEvent(ids: Identities): Packet -> Message {
    (p: Packet) => Message(
      p.guid, p.direction, "1", "transaction", "1", SomeHash(), 0, SourceOft(p.direction, ids),
      DestinationOft(p.direction, ids), NatToString(p.sentLd), p.receiver, Unresolved, None, None, None, None)
  }

  function ReceiveEvent(ids: Identities, p: Packet): Message
    requires |p.receiver| == 66
  {
    Message(p.guid, p.direction, "0", "", "0", "", 0, SourceOft(p.direction, ids), DestinationOft(p.direction, ids),
            NatToString(p.creditedLd), DestinationClaim(p).receiver, Delivered, Some("transaction"), Some("1"),
            Some(SomeHash()), None)
  }

  function ReceiveEvents(ids: Identities, ps: seq<Packet>): seq<Message>
    requires LongReceivers(ps)
  {
    if ps == [] then []
    else
      var n := |ps| - 1;
      ReceiveEvents(ids, ps[..n]) + (if ps[n].delivered then [ReceiveEvent(ids, ps[n])] else [])
  }

  function StatusOf(p: Packet): string {
    if p.delivered then "DELIVERED" else "INFLIGHT"
  }

  function StatusesOf(ps: seq<Packet>): map<string, string> {
    if ps == [] then map[]
    else
      var n := |ps| - 1;
      StatusesOf(ps[..n])[ps[n].guid := StatusOf(ps[n])]
  }

  function Scanned(ids: Identities, ps: seq<Packet>): ProviderResult
    requires LongReceivers(ps)
  {
    ProviderResult(ScanRanges(), Mapped(SendEvent(ids), ps), ReceiveEvents(ids, ps))
  }

  /** What two agreeing providers and the API report of the packets. */
  function HonestInput(ids: Identities, ps: seq<Packet>): BuildInput
    requires LongReceivers(ps)
  {
    BuildInput("inventory", Zeros(40), "2026-01-01T00:00:00Z", ["first", "second"], ["first", "second"],
               Scanned(ids, ps), Scanned(ids, ps), ids, Some(StatusesOf(ps)))
  }

  // ---------- it is exact ----------

  lemma SendEventClaim(ids: Identities, p: Packet)
    requires IsBytes32(p.guid) && IsBytes32(p.receiver)
    ensures ClaimOf(SendEvent(ids)(p)) == SourceClaim(p)
  {
    Bytes32IsLower(p.guid);
    Bytes32IsLower(p.receiver);
  }

  lemma ReceiveEventClaim(ids: Identities, p: Packet)
    requires IsBytes32(p.guid) && IsBytes32(p.receiver)
    ensures ClaimOf(ReceiveEvent(ids, p)) == DestinationClaim(p)
  {
    Bytes32IsLower(p.guid);
    Bytes32IsLower(p.receiver);
    PadAddressKeeps(p.receiver);
    Bytes32IsLower(PadAddress(p.receiver));
  }

  lemma {:induction false} SendEventsExact(ids: Identities, ps: seq<Packet>, rate: nat)
    requires forall i :: 0 <= i < |ps| ==> PacketOk(ps[i], rate)
    ensures Mapped(ClaimOf, Mapped(SendEvent(ids), ps)) == SourceClaims(ps)
    decreases |ps|
  {
    if ps != [] {
      var n := |ps| - 1;
      SendEventsExact(ids, ps[..n], rate);
      assert PacketOk(ps[n], rate);
      SendEventClaim(ids, ps[n]);
      var a, b := Mapped(SendEvent(ids), ps), Mapped(SendEvent(ids), ps[..n]);
      assert Mapped(ClaimOf, a) == Mapped(ClaimOf, b) + [ClaimOf(a[n])];
    }
  }

  lemma MappedSnoc<S, T>(f: S -> T, s: seq<S>, x: S)
    ensures Mapped(f, s + [x]) == Mapped(f, s) + [f(x)]
  {
  }

  lemma {:induction false} ReceiveEventsExact(ids: Identities, ps: seq<Packet>, rate: nat)
    requires LongReceivers(ps) && forall i :: 0 <= i < |ps| ==> PacketOk(ps[i], rate)
    ensures Mapped(ClaimOf, ReceiveEvents(ids, ps)) == DestinationClaims(ps)
    decreases |ps|
  {
    if ps != [] {
      var n := |ps| - 1;
      ReceiveEventsExact(ids, ps[..n], rate);
      assert PacketOk(ps[n], rate);
      ReceiveEventClaim(ids, ps[n]);
      MappedSnoc(ClaimOf, ReceiveEvents(ids, ps[..n]), ReceiveEvent(ids, ps[n]));
      assert ReceiveEvents(ids, ps[..n]) + [] == ReceiveEvents(ids, ps[..n]);
      assert DestinationClaims(ps[..n]) + [] == DestinationClaims(ps[..n]);
    }
  }

  /** For any packets of the bridge there is exact evidence on which the providers agree. */
  lemma HonestIsExact(ids: Identities, ps: seq<Packet>, rate: nat)
    requires PacketsOk(ps, rate)
    ensures LongReceivers(ps) && Exact(HonestInput(ids, ps), ps)
    ensures SameEvidence(HonestInput(ids, ps).primary, HonestInput(ids, ps).secondary)
  {
    forall i | 0 <= i < |ps|
      ensures |ps[i].receiver| == 66
    {
      assert PacketOk(ps[i], rate);
    }
    SendEventsExact(ids, ps, rate);
    ReceiveEventsExact(ids, ps, rate);
  }

  // ---------- it reconciles ----------

  lemma {:induction false} StatusFound(ps: seq<Packet>, i: nat)
    requires DistinctPackets(ps) && i < |ps|
    ensures ApiStatus(Some(StatusesOf(ps)), ps[i].guid) == Some(StatusOf(ps[i]))
    decreases |ps|
  {
    var n := |ps| - 1;
    if i < n {
      StatusFound(ps[..n], i);
      assert ps[..n][i] == ps[i];
    }
  }

  lemma UpperCase()
    ensures ToUpper("DELIVERED") == "DELIVERED" && ToUpper("INFLIGHT") != "DELIVERED"
  {
    assert |ToUpper("INFLIGHT")| == 8 && |"DELIVERED"| == 9;
  }

  lemma StatusFits(p: Packet)
    ensures if p.delivered then CorroboratesDelivery(StatusOf(p)) else !ClaimsDelivery(Some(StatusOf(p)))
  {
    UpperCase();
  }

  lemma HonestStatusConsistent(ids: Identities, ps: seq<Packet>, i: nat)
    requires LongReceivers(ps) && DistinctPackets(ps) && i < |ps|
    ensures StatusConsistent(HonestInput(ids, ps), ps[i])
  {
    StatusFound(ps, i);
    StatusFits(ps[i]);
  }

  // ---------- it is presentable ----------

  /** Identities of the production chains whose OFTs are named. */
  predicate NamedOfts(ids: Identities) {
    ProductionChains(ids) && Nonblank(ids.solana.oftStore) && Nonblank(ids.robinhood.oft)
  }

  lemma SomeHashIsHash()
    ensures IsHash32(SomeHash()) && Nonblank(SomeHash())
  {
    var h := SomeHash();
    assert h[..2] == "0x" && h[0] == '0' && h[1] == 'x';
    assert forall i :: 2 <= i < 66 ==> h[i] == Zeros(64)[i - 2];
  }

  lemma SmallNumbers()
    ensures BigIntOf("0") == Some(0) && BigIntOf("1") == Some(1)
  {
    assert DigitsValue("0") == DigitsValue("") * 10 + 0;
    assert DigitsValue("1") == DigitsValue("") * 10 + 1;
  }

  lemma RangesValid()
    ensures ValidRange(ScanRanges())
  {
    SomeHashIsHash();
    SmallNumbers();
  }

  lemma TimestampValid()
    ensures IsUtcTimestamp("2026-01-01T00:00:00Z")
  {
    assert Matches("2026-01-01T00:00:00Z", "dddd-dd-ddTdd:dd:ddZ");
  }

  lemma HonestHeader(ids: Identities, ps: seq<Packet>)
    requires LongReceivers(ps) && ProductionChains(ids)
    ensures HeaderPresentable(HonestInput(ids, ps))
  {
    RangesValid();
    TimestampValid();
    assert !IsBlank("inventory"[0]);
    var two := ["first", "second"];
    assert |two[0]| == 5 && |two[1]| == 6;
  }

  lemma SendEventOk(ids: Identities, p: Packet)
    requires NamedOfts(ids) && IsBytes32(p.guid) && IsBytes32(p.receiver)
    ensures SourceSideOk(SendEvent(ids)(p), ids, ScanRanges()) <==> p.sentLd > 0
  {
    Bytes32IsLower(p.guid);
    SomeHashIsHash();
    SmallNumbers();
    BigIntOfNat(p.sentLd);
    assert !IsBlank("transaction"[0]);
    assert p.receiver[..2][0] == '0' && !IsBlank(p.receiver[0]);
  }

  /** A receive as the scan shows it. */
  predicate Located(m: Message) {
    m.destinationTransaction == Some("transaction") && m.destinationHeight == Some("1")
      && m.destinationBlockHash == Some(SomeHash())
  }

  lemma {:induction false} ReceivesLocated(ids: Identities, ps: seq<Packet>, m: Message)
    requires LongReceivers(ps) && m in ReceiveEvents(ids, ps)
    ensures Located(m)
    decreases |ps|
  {
    var n := |ps| - 1;
    if m in ReceiveEvents(ids, ps[..n]) {
      ReceivesLocated(ids, ps[..n], m);
    }
  }

  lemma {:induction false} ByGuidIn(ds: seq<Message>, g: string)
    requires g in ByGuid(ds)
    ensures ByGuid(ds)[g] in ds
    decreases |ds|
  {
    if ds != [] && g != Guid(ds[|ds| - 1]) {
      ByGuidIn(ds[..|ds| - 1], g);
    }
  }

  lemma LocatedOk(source: Message, destination: Message)
    requires Located(destination)
    ensures ReceiveOk(source, destination, ScanRanges())
  {
    SomeHashIsHash();
    SmallNumbers();
  }

  lemma StatusPresent(p: Packet)
    ensures PresentNonblank(Some(StatusOf(p)))
  {
    assert !IsBlank("DELIVERED"[0]) && !IsBlank("INFLIGHT"[0]);
  }

  lemma HonestEvidenceOk(ids: Identities, ps: seq<Packet>, i: nat)
    requires PacketsOk(ps, 1) && LongReceivers(ps) && NamedOfts(ids) && i < |ps|
    ensures EvidenceOkAt(HonestInput(ids, ps), i) <==> ps[i].sentLd > 0
  {
    var input := HonestInput(ids, ps);
    var (ss, ds) := (input.primary.sources, input.primary.destinations);
    assert PacketOk(ps[i], 1) && ss[i] == SendEvent(ids)(ps[i]);
    SendEventOk(ids, ps[i]);
    Bytes32IsLower(ps[i].guid);
    StatusFound(ps, i);
    StatusPresent(ps[i]);
    var m := MatchOf(ss, ds, i);
    if m.Some? {
      ByGuidIn(ds, Guid(ss[i]));
      ReceivesLocated(ids, ps, m.value);
      LocatedOk(ss[i], m.value);
    }
  }

  predicate PositiveAmounts(ps: seq<Packet>) {
    forall i :: 0 <= i < |ps| ==> ps[i].sentLd > 0
  }

  lemma HonestSendsDistinct(ids: Identities, ps: seq<Packet>)
    requires PacketsOk(ps, 1)
    ensures DistinctGuids(Mapped(SendEvent(ids), ps))
  {
    var ss := Mapped(SendEvent(ids), ps);
    forall i, j | 0 <= i < j < |ss|
      ensures Guid(ss[i]) != Guid(ss[j])
    {
      assert PacketOk(ps[i], 1) && PacketOk(ps[j], 1);
      Bytes32IsLower(ps[i].guid);
      Bytes32IsLower(ps[j].guid);
    }
  }

  /** The honest evidence is what the parser wants, too, exactly when all amounts are positive. */
  lemma HonestIsPresentable(ids: Identities, ps: seq<Packet>)
    requires PacketsOk(ps, 1) && LongReceivers(ps) && NamedOfts(ids)
    ensures Presentable(HonestInput(ids, ps)) <==> PositiveAmounts(ps)
  {
    HonestHeader(ids, ps);
    HonestSendsDistinct(ids, ps);
    var q := EvidenceChecker(HonestInput(ids, ps));
    forall i: nat | i < |ps|
      ensures q(i) <==> ps[i].sentLd > 0
    {
      HonestEvidenceOk(ids, ps, i);
    }
    HoldsBelowMeaning(q, |ps|);
  }
}
