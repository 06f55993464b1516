/**
 Building the in-flight manifest from the evidence of two providers (scripts/scanProductionInFlight.ts).

 A thrown error is `None`.
 */
module InFlightScan {
  import opened Num
  import opened Text
  import opened Pathway
  import opened Lists
  import opened Sorting
  import opened Evidence
  import opened InFlightManifest
  import opened InFlightInventory

  datatype BuildInput = BuildInput(
    inventoryId: string, scannerSourceCommit: string, generatedAt: string, solanaProviders: seq<string>,
    robinhoodProviders: seq<string>, primary: ProviderResult, secondary: ProviderResult, identities: Identities,
    statuses: Option<map<string, string>>)

  function UnresolvedStatus(api: Option<string>): (s: PacketStatus)
    ensures s != Delivered
  {
    if api.None? then Unresolved
    else
      var n := ToUpper(api.value);
      if n == "FAILED" then Failed
      else if n == "BLOCKED" || n == "PAYLOAD_STORED" then Blocked
      else if n == "INFLIGHT" || n == "CONFIRMING" then InFlight
      else Unresolved
  }

  /** An API status contradicts a receive seen on chain; an absent or empty one never does. */
  predicate Contradicts(api: Option<string>) {
    api.Some? && api.value != "" && !CorroboratesDelivery(api.value)
  }

  predicate ClaimsDelivery(api: Option<string>) {
    api.Some? && ToUpper(api.value) == "DELIVERED"
  }

  /** The two events of a packet tell the same story. */
  predicate SameTransfer(source: Message, destination: Message) {
    && destination.direction == source.direction && destination.amountRaw == source.amountRaw
    && ToLower(destination.receiver) == ToLower(source.receiver)
  }

  /** One send, with the receive that matches it if there is one. */
  function Annotate(source: Message, destination: Option<Message>, api: Option<string>): (r: Option<Message>)
    ensures r.Some? ==>
              r.value.guid == source.guid && r.value.direction == source.direction
              && r.value.amountRaw == source.amountRaw
    ensures r.Some? ==> (r.value.status == Delivered <==> destination.Some?)
  {
    if destination.Some? then
      if !SameTransfer(source, destination.value) || Contradicts(api) then None
      else Some(source.(status := Delivered,
                        destinationTransaction := destination.value.destinationTransaction,
                        destinationHeight := destination.value.destinationHeight,
                        destinationBlockHash := destination.value.destinationBlockHash,
                        layerZeroApiStatus := api))
    else
      if ClaimsDelivery(api) then None
      else Some(source.(status := UnresolvedStatus(api), layerZeroApiStatus := api))
  }

  function ApiStatus(statuses: Option<map<string, string>>, guid: string): Option<string> {
    if statuses.Some? && guid in statuses.value then Some(statuses.value[guid]) else None
  }

  // ---------- what the matching means ----------

  /** The receives by GUID. */
  function ByGuid(ds: seq<Message>): map<string, Message> {
    if ds == [] then map[] else ByGuid(ds[..|ds| - 1])[Guid(ds[|ds| - 1]) := ds[|ds| - 1]]
  }

  /** The receive matched with send `i`: the first send of a GUID takes it. */
  function MatchOf(ss: seq<Message>, ds: seq<Message>, i: nat): Option<Message>
    requires i < |ss|
  {
    var g := Guid(ss[i]);
    if g in ByGuid(ds) && g !in GuidSet(ss[..i]) then Some(ByGuid(ds)[g]) else None
  }

  function AnnotatedAt(input: BuildInput, i: nat): Option<Message>
    requires i < |input.primary.sources|
  {
    var ss := input.primary.sources;
    Annotate(ss[i], MatchOf(ss, input.primary.destinations, i), ApiStatus(input.statuses, Guid(ss[i])))
  }

  function Annotator(input: BuildInput): nat -> Option<Message> {
    (i: nat) => if i < |input.primary.sources| then AnnotatedAt(input, i) else None
  }

  /** The annotations of the first `n` sends, unless one of them fails. */
  function AnnotatedUpTo(input: BuildInput, n: nat): (r: Option<seq<Message>>)
    requires n <= |input.primary.sources|
    ensures r.Some? ==> |r.value| == n
  {
    Collect(Annotator(input), n)
  }

  /** The annotated messages in canonical order. */
  function MessagesOf(input: BuildInput): Option<seq<Message>> {
    var a := AnnotatedUpTo(input, |input.primary.sources|);
    if a.None? then None else Some(SortMessages(a.value))
  }

  /** `BigInt(amountRaw)` of an open message does not throw. */
  predicate Readable(m: Message) {
    m.status == Delivered || BigIntFrom(m.amountRaw).Some?
  }

  /** What the builder reads in an amount. */
  function ReadAmount(amountRaw: string): int {
    var a := BigIntFrom(amountRaw);
    if a.Some? then a.value else 0
  }

  /** The amount a message contributes to a direction, delivered or not. */
  function ReadIn(d: Direction): Message -> int {
    (m: Message) => if m.direction == d then ReadAmount(m.amountRaw) else 0
  }

  /** The amount a message contributes to what the builder reports in flight in a direction. */
  function ReadOpenIn(d: Direction): Message -> int {
    (m: Message) => if m.direction == d && m.status != Delivered then ReadAmount(m.amountRaw) else 0
  }

  /** The builder's totals. */
  datatype Totals = Totals(
    resultCount: nat, unresolvedPacketCount: nat, solanaToRobinhoodRaw: int, robinhoodToSolanaRaw: int)

  function TotalsOf(ms: seq<Message>): Totals {
    Totals(|ms|, SumOf(OpenOne(), ms), SumInt(ReadOpenIn(SolanaToRobinhood), ms),
           SumInt(ReadOpenIn(RobinhoodToSolana), ms))
  }

  predicate AllReadable(ms: seq<Message>) {
    forall i :: 0 <= i < |ms| ==> Readable(ms[i])
  }

  /** Within one provider's evidence every receive has its send, and no event or API status contradicts another. */
  predicate Consistent(input: BuildInput) {
    && DistinctGuids(input.primary.destinations)
    && GuidSet(input.primary.destinations) <= GuidSet(input.primary.sources)
    && MessagesOf(input).Some? && AllReadable(MessagesOf(input).value)
  }

  /** The evidence the builder turns into a manifest. */
  predicate Accepts(input: BuildInput) {
    SameEvidence(input.primary, input.secondary) && Consistent(input)
  }

  function SummaryOf(t: Totals): Summary {
    Summary(t.resultCount, t.unresolvedPacketCount, IntToString(t.solanaToRobinhoodRaw),
            IntToString(t.robinhoodToSolanaRaw))
  }

  function ManifestFrom(input: BuildInput, messages: seq<Message>, t: Totals): Manifest {
    Manifest(IN_FLIGHT_SCHEMA_VERSION, input.inventoryId,
             Scanner(IN_FLIGHT_SCANNER_NAME, IN_FLIGHT_SCANNER_VERSION, BRIDGE_CODE_AUDIT_TARGET,
                     input.scannerSourceCommit),
             input.generatedAt, input.identities, input.primary.ranges,
             Provenance(PROVENANCE_MODEL, input.solanaProviders, input.robinhoodProviders, true, true,
                        input.statuses.Some?, []),
             messages, SummaryOf(t))
  }

  function ManifestOf(input: BuildInput): Manifest
    requires MessagesOf(input).Some?
  {
    var ms := MessagesOf(input).value;
    ManifestFrom(input, ms, TotalsOf(ms))
  }

  // ---------- the builder ----------

  lemma {:induction false} ByGuidKeys(ds: seq<Message>)
    ensures ByGuid(ds).Keys == GuidSet(ds)
    decreases |ds|
  {
    if ds != [] {
      ByGuidKeys(ds[..|ds| - 1]);
    }
  }

  /** The loop over receives: fails on a repeated GUID. */
  method IndexDestinations(ds: seq<Message>) returns (r: Option<map<string, Message>>)
    ensures r.Some? <==> DistinctGuids(ds)
    ensures r.Some? ==> r.value == ByGuid(ds)
  {
    var destinations: map<string, Message> := map[];
    assert ds[..0] == [];
    for i := 0 to |ds|
      invariant DistinctGuids(ds[..i]) && destinations == ByGuid(ds[..i]) && |GuidSet(ds[..i])| == i
    {
      ByGuidKeys(ds[..i]);
      if ToLower(ds[i].guid) in destinations {
        NotDistinct(ds, i);
        return None;
      }
      GuidsGrow(ds, i);
      assert ds[..i + 1][..i] == ds[..i];
      destinations := destinations[ToLower(ds[i].guid) := ds[i]];
    }
    assert ds[..|ds|] == ds;
    return Some(destinations);
  }

  lemma StillThere(ss: seq<Message>, ds: seq<Message>, i: nat, destinations: map<string, Message>)
    requires i < |ss| && destinations == ByGuid(ds) - GuidSet(ss[..i])
    ensures (if Guid(ss[i]) in destinations then Some(destinations[Guid(ss[i])]) else None) == MatchOf(ss, ds, i)
    ensures destinations - {Guid(ss[i])} == ByGuid(ds) - GuidSet(ss[..i + 1])
  {
    assert ss[..i + 1][..i] == ss[..i];
  }

  /** The `map` over sends, which removes each matched receive; fails when a receive is left over. */
  method MatchSources(input: BuildInput, byGuid: map<string, Message>) returns (r: Option<seq<Message>>)
    requires byGuid == ByGuid(input.primary.destinations)
    ensures r.Some? <==> AnnotatedUpTo(input, |input.primary.sources|).Some?
                         && GuidSet(input.primary.destinations) <= GuidSet(input.primary.sources)
    ensures r.Some? ==> r == AnnotatedUpTo(input, |input.primary.sources|)
  {
    var ss := input.primary.sources;
    var destinations, messages := byGuid, [];
    assert ss[..0] == [];
    for i := 0 to |ss|
      invariant destinations == byGuid - GuidSet(ss[..i])
      invariant AnnotatedUpTo(input, i) == Some(messages)
    {
      var guid := ToLower(ss[i].guid);
      var destination := if guid in destinations then Some(destinations[guid]) else None;
      var annotated := Annotate(ss[i], destination, ApiStatus(input.statuses, guid));
      StillThere(ss, input.primary.destinations, i, destinations);
      assert annotated == AnnotatedAt(input, i);
      if annotated.None? {
        CollectFails(Annotator(input), i, |ss|);
        return None;
      }
      destinations := destinations - {guid};
      messages := messages + [annotated.value];
    }
    assert ss[..|ss|] == ss;
    ByGuidKeys(input.primary.destinations);
    if |destinations| != 0 {
      return None;
    }
    return Some(messages);
  }

  /** The loop over totals. */
  method AddUp(ms: seq<Message>) returns (r: Option<Totals>)
    ensures r.Some? <==> AllReadable(ms)
    ensures r.Some? ==> r.value == TotalsOf(ms)
  {
    var fromSolana, fromRobinhood := 0, 0;
    var unresolvedPacketCount := 0;
    for i := 0 to |ms|
      invariant Totals(i, unresolvedPacketCount, fromSolana, fromRobinhood) == TotalsOf(ms[..i])
      invariant forall k :: 0 <= k < i ==> Readable(ms[k])
    {
      SumPrefix(OpenOne(), ms, i);
      SumIntPrefix(ReadOpenIn(SolanaToRobinhood), ms, i);
      SumIntPrefix(ReadOpenIn(RobinhoodToSolana), ms, i);
      if ms[i].status != Delivered {
        var amount := BigIntFrom(ms[i].amountRaw);
        if amount.None? {
          return None;
        }
        unresolvedPacketCount := unresolvedPacketCount + 1;
        if ms[i].direction == SolanaToRobinhood {
          fromSolana := fromSolana + amount.value;
        } else {
          fromRobinhood := fromRobinhood + amount.value;
        }
      }
    }
    assert ms[..|ms|] == ms;
    return Some(Totals(|ms|, unresolvedPacketCount, fromSolana, fromRobinhood));
  }

  /** The manifest before it is sealed. */
  method BuildUnsigned(input: BuildInput) returns (r: Option<Manifest>)
    ensures r.Some? <==> Accepts(input)
    ensures r.Some? ==> r.value == ManifestOf(input)
  {
    var same := CompareProviders(input.primary, input.secondary);
    if !same {
      return None;
    }
    var byGuid := IndexDestinations(input.primary.destinations);
    if byGuid.None? {
      return None;
    }
    var annotated := MatchSources(input, byGuid.value);
    if annotated.None? {
      return None;
    }
    var messages := SortMessages(annotated.value);
    var totals := AddUp(messages);
    if totals.None? {
      return None;
    }
    return Some(ManifestFrom(input, messages, totals.value));
  }

  /**
   `buildInFlightManifest` returns exactly on acceptable evidence, with the annotated messages in canonical order,
   the count and totals of the open ones, and the checksum of it all.
   */
  method BuildInFlightManifest(input: BuildInput, sha256: string -> string) returns (r: Option<SignedManifest>)
    ensures r.Some? <==> Accepts(input)
    ensures r.Some? ==> r.value == SignedManifest(ManifestOf(input), ManifestChecksum(sha256, ManifestOf(input)))
  {
    var unsigned := BuildUnsigned(input);
    if unsigned.None? {
      return None;
    }
    return Some(SignedManifest(unsigned.value, ManifestChecksum(sha256, unsigned.value)));
  }

  // ---------- what the builder reports of a message ----------

  /** The API status reads as this name, in any case. */
  predicate Says(api: Option<string>, name: string) {
    api.Some? && ToUpper(api.value) == name
  }

  /** The status of a message that no receive was found for. */
  predicate OpenStatus(status: PacketStatus, api: Option<string>) {
    && (status == Failed <==> Says(api, "FAILED"))
    && (status == Blocked <==> Says(api, "BLOCKED") || Says(api, "PAYLOAD_STORED"))
    && (status == InFlight <==> Says(api, "INFLIGHT") || Says(api, "CONFIRMING"))
    && (status == Unresolved
        <==> !Says(api, "FAILED") && !Says(api, "BLOCKED") && !Says(api, "PAYLOAD_STORED") && !Says(api, "INFLIGHT")
             && !Says(api, "CONFIRMING"))
    && status != Delivered
  }

  /** The send as it was seen, its API status, and the evidence of its receive if there is one. */
  ghost predicate Reports(m: Message, source: Message, destination: Option<Message>, api: Option<string>) {
    && m.guid == source.guid && m.direction == source.direction && m.sourceNonce == source.sourceNonce
    && m.sourceTransaction == source.sourceTransaction && m.sourceHeight == source.sourceHeight
    && m.sourceBlockHash == source.sourceBlockHash && m.sourceEventIndex == source.sourceEventIndex
    && m.sourceOft == source.sourceOft && m.destinationOft == source.destinationOft
    && m.amountRaw == source.amountRaw && m.receiver == source.receiver
    && m.layerZeroApiStatus == api
    && (var seen := if destination.Some? then destination.value else source;
        && m.destinationTransaction == seen.destinationTransaction && m.destinationHeight == seen.destinationHeight
        && m.destinationBlockHash == seen.destinationBlockHash)
    && (if destination.Some? then m.status == Delivered else OpenStatus(m.status, api))
  }

  lemma NamesDiffer()
    ensures "FAILED" != "BLOCKED" && "FAILED" != "PAYLOAD_STORED" && "FAILED" != "INFLIGHT" && "FAILED" != "CONFIRMING"
    ensures "BLOCKED" != "INFLIGHT" && "BLOCKED" != "CONFIRMING"
    ensures "PAYLOAD_STORED" != "INFLIGHT" && "PAYLOAD_STORED" != "CONFIRMING"
  {
    assert |"FAILED"| == 6 && |"BLOCKED"| == 7 && |"PAYLOAD_STORED"| == 14 && |"INFLIGHT"| == 8 && |"CONFIRMING"| == 10;
  }

  /**
   A send is refused exactly when its receive differs in direction, amount or recipient, or when the API status says
   otherwise than the chains: anything but delivered or confirming of a receive, and delivered without one.
   */
  lemma RefusedExactly(source: Message, destination: Option<Message>, api: Option<string>)
    ensures Annotate(source, destination, api).None?
            <==> if destination.Some? then
                   || destination.value.direction != source.direction || destination.value.amountRaw != source.amountRaw
                   || ToLower(destination.value.receiver) != ToLower(source.receiver)
                   || (api.Some? && api.value != "" && !Says(api, "DELIVERED") && !Says(api, "CONFIRMING"))
                 else Says(api, "DELIVERED")
  {
  }

  lemma AnnotationReports(source: Message, destination: Option<Message>, api: Option<string>)
    requires Annotate(source, destination, api).Some?
    ensures Reports(Annotate(source, destination, api).value, source, destination, api)
  {
    NamesDiffer();
  }

  lemma AnnotatedFrom(input: BuildInput, k: nat) returns (i: nat)
    requires MessagesOf(input).Some? && k < |ManifestOf(input).messages|
    ensures i < |input.primary.sources| && AnnotatedAt(input, i) == Some(ManifestOf(input).messages[k])
  {
    var (n, ms) := (|input.primary.sources|, ManifestOf(input).messages);
    var a := AnnotatedUpTo(input, n).value;
    SortMessagesPermutes(a);
    InSameMultiset(ms, a, ms[k]);
    i :| 0 <= i < |a| && a[i] == ms[k];
    CollectItem(Annotator(input), i, n);
  }

  /** Every reported message is one of the sends, annotated so. */
  lemma BuiltMessage(input: BuildInput, k: nat) returns (i: nat)
    requires MessagesOf(input).Some? && k < |ManifestOf(input).messages|
    ensures i < |input.primary.sources|
    ensures Reports(ManifestOf(input).messages[k], input.primary.sources[i],
                    MatchOf(input.primary.sources, input.primary.destinations, i),
                    ApiStatus(input.statuses, Guid(input.primary.sources[i])))
  {
    i := AnnotatedFrom(input, k);
    var ss := input.primary.sources;
    AnnotationReports(ss[i], MatchOf(ss, input.primary.destinations, i), ApiStatus(input.statuses, Guid(ss[i])));
  }

  /**
   The statuses in the manifest: a message without a receive is failed, blocked or in flight exactly as its API status
   says, and unresolved otherwise; and with distinct sends, delivered exactly when its GUID was received.
   */
  lemma BuiltStatuses(input: BuildInput, k: nat)
    requires MessagesOf(input).Some? && k < |ManifestOf(input).messages|
    ensures var m := ManifestOf(input).messages[k];
      && m.layerZeroApiStatus == ApiStatus(input.statuses, Guid(m))
      && (m.status != Delivered ==> OpenStatus(m.status, ApiStatus(input.statuses, Guid(m))))
      && (DistinctGuids(input.primary.sources) ==>
            (m.status == Delivered <==> Guid(m) in GuidSet(input.primary.destinations)))
  {
    var i := BuiltMessage(input, k);
    var ss := input.primary.sources;
    ByGuidKeys(input.primary.destinations);
    if DistinctGuids(ss) && Guid(ss[i]) in GuidSet(ss[..i]) {
      NotDistinct(ss, i);
    }
  }

  /** Each send is reported once. */
  lemma BuiltOnce(input: BuildInput)
    requires MessagesOf(input).Some?
    ensures multiset(Mapped(Guid, ManifestOf(input).messages)) == multiset(Mapped(Guid, input.primary.sources))
  {
    var (ss, ms) := (input.primary.sources, ManifestOf(input).messages);
    var a := AnnotatedUpTo(input, |ss|).value;
    SortMessagesPermutes(a);
    MappedMultiset(Guid, ms, a);
    forall i | 0 <= i < |ss|
      ensures Mapped(Guid, a)[i] == Mapped(Guid, ss)[i]
    {
      CollectItem(Annotator(input), i, |ss|);
    }
    assert Mapped(Guid, a) == Mapped(Guid, ss);
  }

  /** The fields of the manifest besides its messages come from the input and the constants. */
  lemma BuiltFields(input: BuildInput)
    requires MessagesOf(input).Some?
    ensures var m := ManifestOf(input);
      && m.schemaVersion == 2 && m.inventoryId == input.inventoryId && m.generatedAt == input.generatedAt
      && m.identities == input.identities && m.ranges == input.primary.ranges
      && m.scanner.scannerSourceCommit == input.scannerSourceCommit
      && m.provenance.solanaProviders == input.solanaProviders
      && m.provenance.robinhoodProviders == input.robinhoodProviders
      && m.provenance.sourceEvidenceAgreement && m.provenance.destinationEvidenceAgreement
      && (m.provenance.layerZeroApiCorroborated <==> input.statuses.Some?)
      && m.provenance.layerZeroApiDisagreements == []
      && m.summary.resultCount == |input.primary.sources|
      && BigIntFrom(m.summary.solanaToRobinhoodRaw) == Some(SumInt(ReadOpenIn(SolanaToRobinhood), m.messages))
      && BigIntFrom(m.summary.robinhoodToSolanaRaw) == Some(SumInt(ReadOpenIn(RobinhoodToSolana), m.messages))
  {
    IntReadsBack(SumInt(ReadOpenIn(SolanaToRobinhood), ManifestOf(input).messages));
    IntReadsBack(SumInt(ReadOpenIn(RobinhoodToSolana), ManifestOf(input).messages));
  }

  // ---------- value is neither lost nor invented ----------

  function ReadBy(v: string -> nat, amountRaw: string): nat {
    v(amountRaw)
  }

  /** What a message adds to a direction, when amounts are read by `v`. */
  function ValueIn(v: string -> nat, d: Direction): Message -> nat {
    (m: Message) => if m.direction == d then ReadBy(v, m.amountRaw) else 0
  }

  function OpenValueIn(v: string -> nat, d: Direction): Message -> nat {
    (m: Message) => if m.direction == d && m.status != Delivered then ReadBy(v, m.amountRaw) else 0
  }

  /** What the receives of these GUIDs delivered in a direction. */
  function ReceivedBy(ds: seq<Message>, guids: set<string>, v: string -> nat, d: Direction): nat {
    if ds == [] then 0
    else
      var n := |ds| - 1;
      ReceivedBy(ds[..n], guids, v, d) + (if Guid(ds[n]) in guids then ValueIn(v, d)(ds[n]) else 0)
  }

  lemma DistinctPrefix(ds: seq<Message>, n: nat)
    requires DistinctGuids(ds) && n <= |ds|
    ensures DistinctGuids(ds[..n])
  {
    var p := ds[..n];
    forall i, j | 0 <= i < j < n
      ensures Guid(p[i]) != Guid(p[j])
    {
      assert p[i] == ds[i] && p[j] == ds[j];
    }
  }

  lemma {:induction false} ReceivedMore(ds: seq<Message>, guids: set<string>, g: string, v: string -> nat, d: Direction)
    requires DistinctGuids(ds) && g !in guids
    ensures ReceivedBy(ds, guids + {g}, v, d)
            == ReceivedBy(ds, guids, v, d) + (if g in ByGuid(ds) then ValueIn(v, d)(ByGuid(ds)[g]) else 0)
    decreases |ds|
  {
    if ds != [] {
      var n := |ds| - 1;
      DistinctPrefix(ds, n);
      ByGuidKeys(ds[..n]);
      if Guid(ds[n]) in ByGuid(ds[..n]) {
        NotDistinct(ds, n);
      }
      ReceivedMore(ds[..n], guids, g, v, d);
    }
  }

  lemma {:induction false} ReceivedNothing(ds: seq<Message>, v: string -> nat, d: Direction)
    ensures ReceivedBy(ds, {}, v, d) == 0
    decreases |ds|
  {
    if ds != [] {
      ReceivedNothing(ds[..|ds| - 1], v, d);
    }
  }

  lemma {:induction false} ReceivedAll(ds: seq<Message>, guids: set<string>, v: string -> nat, d: Direction)
    requires GuidSet(ds) <= guids
    ensures ReceivedBy(ds, guids, v, d) == SumOf(ValueIn(v, d), ds)
    decreases |ds|
  {
    if ds != [] {
      ReceivedAll(ds[..|ds| - 1], guids, v, d);
    }
  }

  /** Each send is either open or carries the amount of the receive it took. */
  lemma AnnotatedAmount(input: BuildInput, i: nat, v: string -> nat, d: Direction)
    requires i < |input.primary.sources| && AnnotatedAt(input, i).Some?
    ensures var m := MatchOf(input.primary.sources, input.primary.destinations, i);
      ValueIn(v, d)(input.primary.sources[i])
        == OpenValueIn(v, d)(AnnotatedAt(input, i).value) + (if m.Some? then ValueIn(v, d)(m.value) else 0)
  {
  }

  /** The match of a send is the receive its GUID adds. */
  lemma ReceivedStep(ss: seq<Message>, ds: seq<Message>, k: nat, v: string -> nat, d: Direction)
    requires k < |ss| && DistinctGuids(ds)
    ensures var m := MatchOf(ss, ds, k);
      ReceivedBy(ds, GuidSet(ss[..k + 1]), v, d)
        == ReceivedBy(ds, GuidSet(ss[..k]), v, d) + (if m.Some? then ValueIn(v, d)(m.value) else 0)
  {
    var g := Guid(ss[k]);
    assert ss[..k + 1][..k] == ss[..k];
    if g in GuidSet(ss[..k]) {
      assert GuidSet(ss[..k]) + {g} == GuidSet(ss[..k]);
    } else {
      ReceivedMore(ds, GuidSet(ss[..k]), g, v, d);
    }
  }

  lemma {:induction false} SentIsOpenOrReceived(input: BuildInput, n: nat, v: string -> nat, d: Direction)
    requires n <= |input.primary.sources| && AnnotatedUpTo(input, n).Some? && DistinctGuids(input.primary.destinations)
    ensures SumOf(ValueIn(v, d), input.primary.sources[..n])
            == SumOf(OpenValueIn(v, d), AnnotatedUpTo(input, n).value)
               + ReceivedBy(input.primary.destinations, GuidSet(input.primary.sources[..n]), v, d)
    decreases n
  {
    var (ss, ds) := (input.primary.sources, input.primary.destinations);
    if n == 0 {
      ReceivedNothing(ds, v, d);
    } else {
      var k := n - 1;
      SentIsOpenOrReceived(input, k, v, d);
      AnnotatedAmount(input, k, v, d);
      SumPrefix(ValueIn(v, d), ss, k);
      SumSnoc(OpenValueIn(v, d), AnnotatedUpTo(input, k).value, AnnotatedAt(input, k).value);
      ReceivedStep(ss, ds, k, v, d);
    }
  }

  lemma OrderKeepsSum(f: Message -> nat, ms: seq<Message>)
    ensures SumOf(f, SortMessages(ms)) == SumOf(f, ms)
  {
    SortMessagesPermutes(ms);
    SumMultiset(f, SortMessages(ms), ms);
  }

  /** Of these sends everything was received by these receives or is open among these messages. */
  ghost predicate Balanced(v: string -> nat, d: Direction, ss: seq<Message>, ds: seq<Message>, ms: seq<Message>) {
    SumOf(ValueIn(v, d), ss) == SumOf(ValueIn(v, d), ds) + SumOf(OpenValueIn(v, d), ms)
  }

  /** However amounts are read, in each direction everything sent was either received or is open. */
  lemma AnyReadingConserves(input: BuildInput, v: string -> nat, d: Direction)
    requires Consistent(input)
    ensures Balanced(v, d, input.primary.sources, input.primary.destinations, ManifestOf(input).messages)
  {
    var (ss, ds) := (input.primary.sources, input.primary.destinations);
    SentIsOpenOrReceived(input, |ss|, v, d);
    assert ss[..|ss|] == ss;
    ReceivedAll(ds, GuidSet(ss), v, d);
    OrderKeepsSum(OpenValueIn(v, d), AnnotatedUpTo(input, |ss|).value);
  }

  /** An amount as read, when positive; and what it falls below zero. */
  function Up(): string -> nat {
    (s: string) => if ReadAmount(s) > 0 then ReadAmount(s) else 0
  }

  function Down(): string -> nat {
    (s: string) => if ReadAmount(s) < 0 then 0 - ReadAmount(s) else 0
  }

  lemma ReadParts(d: Direction, ms: seq<Message>)
    ensures SumInt(ReadIn(d), ms) == SumOf(ValueIn(Up(), d), ms) - SumOf(ValueIn(Down(), d), ms)
    ensures SumInt(ReadOpenIn(d), ms) == SumOf(OpenValueIn(Up(), d), ms) - SumOf(OpenValueIn(Down(), d), ms)
  {
    SumIntParts(ReadIn(d), ValueIn(Up(), d), ValueIn(Down(), d), ms);
    SumIntParts(ReadOpenIn(d), OpenValueIn(Up(), d), OpenValueIn(Down(), d), ms);
  }

  lemma ReadBalances(d: Direction, ss: seq<Message>, ds: seq<Message>, ms: seq<Message>)
    requires Balanced(Up(), d, ss, ds, ms) && Balanced(Down(), d, ss, ds, ms)
    ensures SumInt(ReadIn(d), ss) == SumInt(ReadIn(d), ds) + SumInt(ReadOpenIn(d), ms)
  {
    ReadParts(d, ss);
    ReadParts(d, ds);
    ReadParts(d, ms);
  }

  /**
   Whenever the builder returns, in each direction everything sent was either received or is reported in flight.
   No assumption on the sends is needed: a repeated GUID is matched once and otherwise reported in flight.
   */
  lemma BuiltManifestConserves(input: BuildInput, d: Direction)
    requires Consistent(input)
    ensures SumInt(ReadIn(d), input.primary.sources)
            == SumInt(ReadIn(d), input.primary.destinations) + SumInt(ReadOpenIn(d), ManifestOf(input).messages)
  {
    AnyReadingConserves(input, Up(), d);
    AnyReadingConserves(input, Down(), d);
    ReadBalances(d, input.primary.sources, input.primary.destinations, ManifestOf(input).messages);
  }

  /** An amount as the parser reads it. */
  function Plain(): string -> nat {
    (s: string) => if BigIntOf(s).Some? then BigIntOf(s).value else 0
  }

  lemma PlainSums(d: Direction, ms: seq<Message>)
    ensures SumOf(AmountIn(d), ms) == SumOf(ValueIn(Plain(), d), ms)
    ensures SumOf(OpenIn(d), ms) == SumOf(OpenValueIn(Plain(), d), ms)
  {
    SumSame(AmountIn(d), ValueIn(Plain(), d), ms);
    SumSame(OpenIn(d), OpenValueIn(Plain(), d), ms);
  }

  lemma PlainBalances(d: Direction, ss: seq<Message>, ds: seq<Message>, ms: seq<Message>)
    requires Balanced(Plain(), d, ss, ds, ms)
    ensures SumOf(AmountIn(d), ss) == SumOf(AmountIn(d), ds) + SumOf(OpenIn(d), ms)
  {
    PlainSums(d, ss);
    PlainSums(d, ds);
    PlainSums(d, ms);
  }

  /** The same with the amounts as the parser reads them. */
  lemma PlainConserves(input: BuildInput, d: Direction)
    requires Consistent(input)
    ensures SumOf(AmountIn(d), input.primary.sources)
            == SumOf(AmountIn(d), input.primary.destinations) + SumOf(OpenIn(d), ManifestOf(input).messages)
  {
    AnyReadingConserves(input, Plain(), d);
    PlainBalances(d, input.primary.sources, input.primary.destinations, ManifestOf(input).messages);
  }

  /** Every open amount is written in plain decimal digits. */
  predicate PlainAmounts(ms: seq<Message>) {
    forall m :: m in ms ==> m.status == Delivered || BigIntOf(m.amountRaw).Some?
  }

  function Nothing(): Message -> nat {
    (m: Message) => 0
  }

  lemma {:induction false} SumNothing(ms: seq<Message>)
    ensures SumOf(Nothing(), ms) == 0
    decreases |ms|
  {
    if ms != [] {
      SumNothing(ms[..|ms| - 1]);
    }
  }

  /** Then the builder's totals are those the parser recomputes. */
  lemma PlainTotals(ms: seq<Message>, d: Direction)
    requires PlainAmounts(ms)
    ensures SumInt(ReadOpenIn(d), ms) == SumOf(OpenIn(d), ms)
  {
    forall m | m in ms
      ensures ReadOpenIn(d)(m) == OpenIn(d)(m) - Nothing()(m)
    {
      BigIntPlain(m.amountRaw);
    }
    SumIntParts(ReadOpenIn(d), OpenIn(d), Nothing(), ms);
    SumNothing(ms);
  }

  /** And the summary states them. */
  lemma BuiltSummaryReconciles(input: BuildInput)
    requires MessagesOf(input).Some? && PlainAmounts(MessagesOf(input).value)
    ensures SummaryReconciles(ManifestOf(input).summary, ManifestOf(input).messages)
  {
    var ms := ManifestOf(input).messages;
    PlainTotals(ms, SolanaToRobinhood);
    PlainTotals(ms, RobinhoodToSolana);
    BigIntOfNat(SumOf(OpenIn(SolanaToRobinhood), ms));
    BigIntOfNat(SumOf(OpenIn(RobinhoodToSolana), ms));
  }

  // ---------- matching is one to one ----------

  lemma {:induction false} FirstSend(ss: seq<Message>, g: string) returns (i: nat)
    requires g in GuidSet(ss)
    ensures i < |ss| && Guid(ss[i]) == g && g !in GuidSet(ss[..i])
    decreases |ss|
  {
    var n := |ss| - 1;
    if g in GuidSet(ss[..n]) {
      i := FirstSend(ss[..n], g);
      assert ss[..n][..i] == ss[..i];
    } else {
      i := n;
    }
  }

  lemma {:induction false} ByGuidValue(ds: seq<Message>, g: string)
    requires g in ByGuid(ds)
    ensures Guid(ByGuid(ds)[g]) == g
    decreases |ds|
  {
    if ds != [] && g != Guid(ds[|ds| - 1]) {
      ByGuidValue(ds[..|ds| - 1], g);
    }
  }

  lemma {:induction false} ByGuidAt(ds: seq<Message>, j: nat)
    requires j < |ds| && DistinctGuids(ds)
    ensures Guid(ds[j]) in ByGuid(ds) && ByGuid(ds)[Guid(ds[j])] == ds[j]
    decreases |ds|
  {
    var n := |ds| - 1;
    if j < n {
      DistinctPrefix(ds, n);
      ByGuidAt(ds[..n], j);
    }
  }

  lemma GuidInPrefix(ss: seq<Message>, i: nat, k: nat)
    requires i < k <= |ss|
    ensures Guid(ss[i]) in GuidSet(ss[..k])
  {
    GuidSetMember(ss[..k], Guid(ss[i]));
    assert Guid(ss[..k][i]) == Guid(ss[i]);
  }

  lemma OnlyFirstMatches(ss: seq<Message>, ds: seq<Message>, i: nat, k: nat)
    requires i < |ss| && k < |ss| && MatchOf(ss, ds, i).Some? && MatchOf(ss, ds, i) == MatchOf(ss, ds, k)
    ensures i == k
  {
    ByGuidValue(ds, Guid(ss[i]));
    ByGuidValue(ds, Guid(ss[k]));
    if i < k {
      GuidInPrefix(ss, i, k);
    } else if k < i {
      GuidInPrefix(ss, k, i);
    }
  }

  /** The first send with the GUID of a receive takes it. */
  lemma FirstSendMatches(ss: seq<Message>, ds: seq<Message>, j: nat) returns (i: nat)
    requires DistinctGuids(ds) && GuidSet(ds) <= GuidSet(ss) && j < |ds|
    ensures i < |ss| && MatchOf(ss, ds, i) == Some(ds[j])
  {
    GuidSetMember(ds, Guid(ds[j]));
    i := FirstSend(ss, Guid(ds[j]));
    ByGuidAt(ds, j);
  }

  lemma MatchedTransfers(input: BuildInput, i: nat)
    requires i < |input.primary.sources| && AnnotatedAt(input, i).Some?
    ensures var m := MatchOf(input.primary.sources, input.primary.destinations, i);
      m.Some? ==> SameTransfer(input.primary.sources[i], m.value)
  {
  }

  lemma MatchingSend(input: BuildInput, j: nat) returns (i: nat)
    requires Consistent(input) && j < |input.primary.destinations|
    ensures var (ss, ds) := (input.primary.sources, input.primary.destinations);
      i < |ss| && MatchOf(ss, ds, i) == Some(ds[j]) && SameTransfer(ss[i], ds[j])
  {
    i := FirstSendMatches(input.primary.sources, input.primary.destinations, j);
    CollectItem(Annotator(input), i, |input.primary.sources|);
    MatchedTransfers(input, i);
  }

  /** Whenever the builder returns, every receive is matched with exactly one send, of the same transfer. */
  lemma EveryReceiveMatchedOnce(input: BuildInput, j: nat)
    requires Consistent(input) && j < |input.primary.destinations|
    ensures var (ss, ds) := (input.primary.sources, input.primary.destinations);
      exists i :: 0 <= i < |ss| && MatchOf(ss, ds, i) == Some(ds[j]) && SameTransfer(ss[i], ds[j])
        && forall k :: 0 <= k < |ss| && MatchOf(ss, ds, k) == Some(ds[j]) ==> k == i
  {
    var (ss, ds) := (input.primary.sources, input.primary.destinations);
    var i := MatchingSend(input, j);
    forall k | 0 <= k < |ss| && MatchOf(ss, ds, k) == Some(ds[j])
      ensures k == i
    {
      OnlyFirstMatches(ss, ds, i, k);
    }
  }

  // ---------- the parser accepts what the builder builds ----------

  /** The receive side as the parser wants it. */
  predicate ReceiveOk(source: Message, destination: Message, r: Ranges) {
    && destination.destinationTransaction.Some? && destination.destinationTransaction.value != ""
    && destination.destinationHeight.Some? && destination.destinationBlockHash.Some?
    && (if source.direction == SolanaToRobinhood
        then Within(destination.destinationHeight.value, r.robinhood.fromBlock, r.robinhood.toBlock)
             && IsHash32(destination.destinationBlockHash.value)
        else Within(destination.destinationHeight.value, r.solana.fromSlot, r.solana.toSlot)
             && Nonblank(destination.destinationBlockHash.value))
  }

  /** A send that claims no receive of its own. */
  predicate NoReceiveClaimed(source: Message) {
    source.destinationTransaction.None? && source.destinationHeight.None? && source.destinationBlockHash.None?
  }

  predicate EvidenceOk(source: Message, destination: Option<Message>, api: Option<string>, ids: Identities, r: Ranges) {
    && SourceSideOk(source, ids, r) && PresentNonblank(api)
    && (if destination.Some? then ReceiveOk(source, destination.value, r) else NoReceiveClaimed(source))
  }

  lemma SourceSideSame(m: Message, n: Message, ids: Identities, r: Ranges)
    requires n == m.(status := n.status, destinationTransaction := n.destinationTransaction,
                     destinationHeight := n.destinationHeight, destinationBlockHash := n.destinationBlockHash,
                     layerZeroApiStatus := n.layerZeroApiStatus)
    ensures SourceSideOk(m, ids, r) == SourceSideOk(n, ids, r)
  {
  }

  /** The parser accepts an annotated message exactly when its evidence is in order. */
  lemma AnnotatedOk(source: Message, destination: Option<Message>, api: Option<string>, ids: Identities, r: Ranges)
    requires Annotate(source, destination, api).Some?
    ensures MessageOk(Annotate(source, destination, api).value, ids, r)
            <==> EvidenceOk(source, destination, api, ids, r)
  {
    SourceSideSame(source, Annotate(source, destination, api).value, ids, r);
  }

  function GuidKey(m: Message): Keyed<Message> {
    Keyed(Guid(m), m)
  }

  /** Whether GUIDs are distinct does not depend on the order. */
  lemma DistinctAnyOrder(ms: seq<Message>, ns: seq<Message>)
    requires multiset(ms) == multiset(ns) && DistinctGuids(ms)
    ensures DistinctGuids(ns)
  {
    var k, l := Mapped(GuidKey, ms), Mapped(GuidKey, ns);
    MappedMultiset(GuidKey, ms, ns);
    DistinctAcross(k, l);
    forall i, j | 0 <= i < j < |ns|
      ensures Guid(ns[i]) != Guid(ns[j])
    {
      assert l[i].key != l[j].key;
    }
  }

  /** The canonical order is sorted, and distinct GUIDs stay distinct. */
  lemma OrderedMessages(ms: seq<Message>)
    ensures Sorted(Mapped(WithKey, SortMessages(ms)))
    ensures DistinctGuids(SortMessages(ms)) <==> DistinctGuids(ms)
  {
    var k := Mapped(WithKey, ms);
    SortSorted(k);
    SortItems(k);
    assert Mapped(WithKey, SortMessages(ms)) == Sort(k);
    SortMessagesPermutes(ms);
    if DistinctGuids(ms) {
      DistinctAnyOrder(ms, SortMessages(ms));
    }
    if DistinctGuids(SortMessages(ms)) {
      DistinctAnyOrder(SortMessages(ms), ms);
    }
  }

  /** The evidence of send `i` is in order. */
  predicate EvidenceOkAt(input: BuildInput, i: nat)
    requires i < |input.primary.sources|
  {
    var ss := input.primary.sources;
    EvidenceOk(ss[i], MatchOf(ss, input.primary.destinations, i), ApiStatus(input.statuses, Guid(ss[i])),
               input.identities, input.primary.ranges)
  }

  function EvidenceChecker(input: BuildInput): nat -> bool {
    (i: nat) => i < |input.primary.sources| && EvidenceOkAt(input, i)
  }

  /** The evidence of every send is in order. */
  predicate EvidenceInOrder(input: BuildInput) {
    HoldsBelow(EvidenceChecker(input), |input.primary.sources|)
  }

  lemma AnnotatedOkAt(input: BuildInput, i: nat)
    requires i < |input.primary.sources| && AnnotatedAt(input, i).Some?
    ensures MessageOk(AnnotatedAt(input, i).value, input.identities, input.primary.ranges) <==> EvidenceOkAt(input, i)
  {
    var ss := input.primary.sources;
    AnnotatedOk(ss[i], MatchOf(ss, input.primary.destinations, i), ApiStatus(input.statuses, Guid(ss[i])),
                input.identities, input.primary.ranges);
  }

  predicate HeaderPresentable(input: BuildInput) {
    && Nonblank(input.inventoryId) && IsCommit(input.scannerSourceCommit) && IsUtcTimestamp(input.generatedAt)
    && ProductionChains(input.identities)
    && Independent(input.solanaProviders) && Independent(input.robinhoodProviders) && input.statuses.Some?
    && ValidRange(input.primary.ranges)
  }

  /** What the parser demands of the evidence beyond what the builder checks. */
  ghost predicate Presentable(input: BuildInput) {
    HeaderPresentable(input) && DistinctGuids(input.primary.sources) && EvidenceInOrder(input)
  }

  lemma PointwiseOk(input: BuildInput, i: nat)
    requires i < |input.primary.sources| && AnnotatedUpTo(input, |input.primary.sources|).Some?
    ensures var a := AnnotatedUpTo(input, |input.primary.sources|).value;
      Guid(a[i]) == Guid(input.primary.sources[i])
      && (MessageOk(a[i], input.identities, input.primary.ranges) <==> EvidenceOkAt(input, i))
  {
    CollectItem(Annotator(input), i, |input.primary.sources|);
    AnnotatedOkAt(input, i);
  }

  /** A check passes on every message in canonical order exactly when it passes on every message. */
  lemma OrderKeepsChecks(p: Message -> bool, ms: seq<Message>)
    ensures Passes(p, SortMessages(ms), |ms|) <==> Passes(p, ms, |ms|)
  {
    var o := SortMessages(ms);
    SortMessagesPermutes(ms);
    if Passes(p, o, |o|) {
      PassesAnyOrder(p, o, ms);
    }
    if Passes(p, ms, |ms|) {
      PassesAnyOrder(p, ms, o);
    }
  }

  lemma ChecksAgree(input: BuildInput)
    requires AnnotatedUpTo(input, |input.primary.sources|).Some?
    ensures var a := AnnotatedUpTo(input, |input.primary.sources|).value;
      Passes(Checker(input.identities, input.primary.ranges), a, |a|) <==> EvidenceInOrder(input)
  {
    var a := AnnotatedUpTo(input, |input.primary.sources|).value;
    var p, q := Checker(input.identities, input.primary.ranges), EvidenceChecker(input);
    forall i: nat | i < |a|
      ensures p(a[i]) == q(i)
    {
      PointwiseOk(input, i);
    }
    PassesSame(p, a, q, |a|);
  }

  lemma GuidsAgree(input: BuildInput)
    requires AnnotatedUpTo(input, |input.primary.sources|).Some?
    ensures DistinctGuids(AnnotatedUpTo(input, |input.primary.sources|).value) <==> DistinctGuids(input.primary.sources)
  {
    forall i | 0 <= i < |input.primary.sources|
      ensures Guid(AnnotatedUpTo(input, |input.primary.sources|).value[i]) == Guid(input.primary.sources[i])
    {
      PointwiseOk(input, i);
    }
  }

  lemma HeaderParses(input: BuildInput, ms: seq<Message>, t: Totals)
    ensures HeaderOk(ManifestFrom(input, ms, t)) <==> HeaderPresentable(input)
  {
  }

  /** Messages that pass the parser's checks are written in plain digits. */
  lemma CheckedIsPlain(ms: seq<Message>, ids: Identities, r: Ranges)
    requires forall i :: 0 <= i < |ms| ==> MessageOk(ms[i], ids, r)
    ensures PlainAmounts(ms)
  {
  }

  lemma MessagesParse(input: BuildInput)
    requires Consistent(input)
    ensures MessagesOk(ManifestOf(input)) <==> DistinctGuids(input.primary.sources) && EvidenceInOrder(input)
  {
    var ms := MessagesOf(input).value;
    var a := AnnotatedUpTo(input, |ms|).value;
    ReadMeaning(ms, input.identities, input.primary.ranges);
    OrderKeepsChecks(Checker(input.identities, input.primary.ranges), a);
    ChecksAgree(input);
    GuidsAgree(input);
    OrderedMessages(a);
    if Passes(Checker(input.identities, input.primary.ranges), ms, |ms|) {
      CheckedIsPlain(ms, input.identities, input.primary.ranges);
      BuiltSummaryReconciles(input);
    }
  }

  /**
   The parser accepts what the builder built exactly when the evidence is presentable, and then recomputes the
   same count and totals.
   */
  lemma BuildThenParse(input: BuildInput)
    requires Consistent(input)
    ensures Acceptable(ManifestOf(input)) <==> Presentable(input)
    ensures Presentable(input) ==> SummaryReconciles(ManifestOf(input).summary, ManifestOf(input).messages)
  {
    HeaderParses(input, MessagesOf(input).value, TotalsOf(MessagesOf(input).value));
    MessagesParse(input);
  }

  /** Sixty-four lower-case hexadecimal digits. */
  predicate IsDigest(s: string) {
    |s| == 64 && forall i :: 0 <= i < 64 ==> IsLowerHex(s[i])
  }

  lemma SealedText(digest: string)
    requires IsDigest(digest)
    ensures IsHash32("0x" + digest) && ToLower("0x" + digest) == "0x" + digest
  {
    var t := "0x" + digest;
    assert t[..2] == "0x" && t[0] == '0' && t[1] == 'x';
    assert forall i :: 2 <= i < 66 ==> t[i] == digest[i - 2];
  }

  /** The checksum the builder attaches is the one the parser recomputes. */
  lemma BuiltIsSealed(m: Manifest, sha256: string -> string)
    requires IsDigest(sha256(ChecksumText(m)))
    ensures Sealed(SignedManifest(m, ManifestChecksum(sha256, m)), sha256)
  {
    SealedText(sha256(ChecksumText(m)));
  }

  // ---------- when the builder succeeds ----------

  /** This send goes into the manifest: nothing contradicts it, and its amount is read if it has no receive. */
  predicate Reportable(source: Message, destination: Option<Message>, api: Option<string>) {
    Annotate(source, destination, api).Some? && (destination.None? ==> BigIntFrom(source.amountRaw).Some?)
  }

  predicate ReportableAt(input: BuildInput, i: nat)
    requires i < |input.primary.sources|
  {
    var ss := input.primary.sources;
    Reportable(ss[i], MatchOf(ss, input.primary.destinations, i), ApiStatus(input.statuses, Guid(ss[i])))
  }

  lemma AnnotatedReadable(source: Message, destination: Option<Message>, api: Option<string>)
    ensures Reportable(source, destination, api)
            <==> Annotate(source, destination, api).Some? && Readable(Annotate(source, destination, api).value)
  {
  }

  lemma AnnotatedReportable(input: BuildInput, i: nat)
    requires i < |input.primary.sources|
    ensures ReportableAt(input, i) <==> AnnotatedAt(input, i).Some? && Readable(AnnotatedAt(input, i).value)
  {
    var ss := input.primary.sources;
    AnnotatedReadable(ss[i], MatchOf(ss, input.primary.destinations, i), ApiStatus(input.statuses, Guid(ss[i])));
  }

  /** If every send is annotated, and readable, so is the whole list. */
  lemma AllAnnotatedReadable(input: BuildInput)
    requires forall i :: 0 <= i < |input.primary.sources| ==>
               AnnotatedAt(input, i).Some? && Readable(AnnotatedAt(input, i).value)
    ensures MessagesOf(input).Some? && AllReadable(MessagesOf(input).value)
  {
    var (f, n) := (Annotator(input), |input.primary.sources|);
    CollectMeaning(f, n);
    assert AnnotatedUpTo(input, n).Some?;
    var a := AnnotatedUpTo(input, n).value;
    forall i: nat | i < n
      ensures Readable(a[i])
    {
      CollectItem(f, i, n);
    }
    PassesMeaning(Readable, a, n);
    OrderKeepsChecks(Readable, a);
    PassesMeaning(Readable, SortMessages(a), n);
  }

  lemma ReadablesReportable(input: BuildInput, i: nat)
    requires MessagesOf(input).Some? && AllReadable(MessagesOf(input).value) && i < |input.primary.sources|
    ensures ReportableAt(input, i)
  {
    var n := |input.primary.sources|;
    var a := AnnotatedUpTo(input, n).value;
    SortMessagesPermutes(a);
    CollectItem(Annotator(input), i, n);
    InSameMultiset(MessagesOf(input).value, a, a[i]);
    AnnotatedReportable(input, i);
  }

  /** Every send goes into the manifest exactly when all can be annotated and what is open can be read. */
  lemma ReportableMeans(input: BuildInput)
    ensures MessagesOf(input).Some? && AllReadable(MessagesOf(input).value)
            <==> forall i :: 0 <= i < |input.primary.sources| ==> ReportableAt(input, i)
  {
    if MessagesOf(input).Some? && AllReadable(MessagesOf(input).value) {
      forall i | 0 <= i < |input.primary.sources|
        ensures ReportableAt(input, i)
      {
        ReadablesReportable(input, i);
      }
    }
    if forall i :: 0 <= i < |input.primary.sources| ==> ReportableAt(input, i) {
      forall i | 0 <= i < |input.primary.sources|
        ensures AnnotatedAt(input, i).Some? && Readable(AnnotatedAt(input, i).value)
      {
        AnnotatedReportable(input, i);
      }
      AllAnnotatedReadable(input);
    }
  }

  /** Every receive has its send. */
  ghost predicate NoneLeftOver(ds: seq<Message>, ss: seq<Message>) {
    forall d :: d in ds ==> exists s :: s in ss && Guid(s) == Guid(d)
  }

  lemma InGuidSet(ms: seq<Message>, m: Message)
    requires m in ms
    ensures Guid(m) in GuidSet(ms)
  {
    var i :| 0 <= i < |ms| && ms[i] == m;
    GuidSetMember(ms, Guid(ms[i]));
  }

  lemma OfGuidSet(ms: seq<Message>, g: string) returns (m: Message)
    requires g in GuidSet(ms)
    ensures m in ms && Guid(m) == g
  {
    GuidSetMember(ms, g);
    var i :| 0 <= i < |ms| && Guid(ms[i]) == g;
    m := ms[i];
  }

  lemma LeftOverMeans(ds: seq<Message>, ss: seq<Message>)
    ensures GuidSet(ds) <= GuidSet(ss) <==> NoneLeftOver(ds, ss)
  {
    if GuidSet(ds) <= GuidSet(ss) {
      forall d | d in ds
        ensures exists s :: s in ss && Guid(s) == Guid(d)
      {
        InGuidSet(ds, d);
        var s := OfGuidSet(ss, Guid(d));
      }
    }
    if NoneLeftOver(ds, ss) {
      forall g | g in GuidSet(ds)
        ensures g in GuidSet(ss)
      {
        var d := OfGuidSet(ds, g);
        var s :| s in ss && Guid(s) == Guid(d);
        InGuidSet(ss, s);
      }
    }
  }

  /**
   When the builder succeeds: the providers agree, no receive repeats, every receive has its send, and every send goes
   into the manifest.
   */
  lemma AcceptsExactly(input: BuildInput)
    ensures Accepts(input)
            <==> && SameEvidence(input.primary, input.secondary) && DistinctGuids(input.primary.destinations)
                 && NoneLeftOver(input.primary.destinations, input.primary.sources)
                 && forall i :: 0 <= i < |input.primary.sources| ==> ReportableAt(input, i)
  {
    LeftOverMeans(input.primary.destinations, input.primary.sources);
    ReportableMeans(input);
  }
}
