/**
 What the printed evidence says: reading canonical text back, field by field under its name, returns the manifest or
 provider result it was printed from.
 */
module ManifestText {
  import opened Num
  import opened Pathway
  import opened Lists
  import opened Sorting
  import opened Json
  import opened Evidence
  import opened InFlightManifest

  // ---------- looking a field up ----------

  function Find(fields: seq<Keyed<Json>>, key: string): Json {
    if fields == [] then Null else if fields[0].key == key then fields[0].item else Find(fields[1..], key)
  }

  /** The value of a field; null where there is none. */
  function At(v: Json, key: string): Json {
    if v.Obj? then Find(v.fields, key) else Null
  }

  lemma {:induction false} Found(fields: seq<Keyed<Json>>, i: nat)
    requires i < |fields| && DistinctKeys(fields)
    ensures Find(fields, fields[i].key) == fields[i].item
    decreases |fields|
  {
    if i > 0 {
      Found(fields[1..], i - 1);
    }
  }

  lemma SortedField(fields: seq<Keyed<Json>>, i: nat)
    requires i < |fields| && DistinctKeys(fields)
    ensures At(SortKeys(Obj(fields)), fields[i].key) == SortKeys(fields[i].item)
  {
    var x := SortKeysFields(fields);
    var r := Sort(x);
    SortKeysDistinct(fields);
    DistinctAcross(x, r);
    InSameMultiset(x, r, x[i]);
    var j :| 0 <= j < |r| && r[j] == x[i];
    Found(r, j);
  }

  /** In a record with sorted keys each value is still under its key. */
  lemma SortedRecord(keys: seq<string>, values: seq<Json>, i: nat)
    requires |keys| == |values| && NoRepeats(keys) && i < |keys|
    ensures At(SortKeys(Record(keys, values)), keys[i]) == SortKeys(values[i])
  {
    SortedField(Fields(keys, values), i);
  }

  function TextOf(v: Json): string {
    if v.Str? then v.s else ""
  }

  function NumberOf(v: Json): int {
    if v.Num? then v.n else 0
  }

  function OptionalOf(v: Json): Option<string> {
    if v.Str? then Some(v.s) else None
  }

  predicate Holds(v: Json) {
    v == Bool(true)
  }

  function ItemsOf(v: Json): seq<Json> {
    if v.Arr? then v.items else []
  }

  // ---------- messages ----------

  function DirectionOf(name: string): Option<Direction> {
    if name == "solana-to-robinhood" then Some(SolanaToRobinhood)
    else if name == "robinhood-to-solana" then Some(RobinhoodToSolana)
    else None
  }

  function StatusOf(name: string): Option<PacketStatus> {
    if name == "in_flight" then Some(InFlight)
    else if name == "delivered" then Some(Delivered)
    else if name == "failed" then Some(Failed)
    else if name == "blocked" then Some(Blocked)
    else if name == "unresolved" then Some(Unresolved)
    else None
  }

  function Known<T>(o: Option<T>, otherwise: T): T {
    if o.Some? then o.value else otherwise
  }

  /** A message as its JSON form tells it. */
  function MessageAt(v: Json): Message {
    Message(
      TextOf(At(v, "guid")), Known(DirectionOf(TextOf(At(v, "direction"))), SolanaToRobinhood),
      TextOf(At(v, "sourceNonce")),
      TextOf(At(v, "sourceTransaction")), TextOf(At(v, "sourceHeight")), TextOf(At(v, "sourceBlockHash")),
      NumberOf(At(v, "sourceEventIndex")), TextOf(At(v, "sourceOft")), TextOf(At(v, "destinationOft")),
      TextOf(At(v, "amountRaw")), TextOf(At(v, "receiver")), Known(StatusOf(TextOf(At(v, "status"))), Unresolved),
      OptionalOf(At(v, "destinationTransaction")), OptionalOf(At(v, "destinationHeight")),
      OptionalOf(At(v, "destinationBlockHash")), OptionalOf(At(v, "layerZeroApiStatus")))
  }

  lemma NamesBack(d: Direction, s: PacketStatus)
    ensures DirectionOf(DirectionName(d)) == Some(d) && StatusOf(StatusName(s)) == Some(s)
  {
    assert "solana-to-robinhood"[0] == 's' && "robinhood-to-solana"[0] == 'r';
    assert "in_flight"[0] == 'i' && "delivered"[0] == 'd' && "failed"[0] == 'f' && "blocked"[0] == 'b'
           && "unresolved"[0] == 'u';
  }

  lemma MessageField(m: Message, i: nat)
    requires i < 16
    ensures At(SortKeys(MessageJson(m)), MESSAGE_KEYS[i]) == MessageValues(m)[i]
  {
    MessageKeysDistinct();
    SortedRecord(MESSAGE_KEYS, MessageValues(m), i);
    assert !MessageValues(m)[i].Arr? && !MessageValues(m)[i].Obj?;
  }

  lemma SourceFields(m: Message)
    ensures var v := SortKeys(MessageJson(m));
      && At(v, "guid") == Str(m.guid) && At(v, "direction") == Str(DirectionName(m.direction))
      && At(v, "sourceNonce") == Str(m.sourceNonce) && At(v, "sourceTransaction") == Str(m.sourceTransaction)
      && At(v, "sourceHeight") == Str(m.sourceHeight) && At(v, "sourceBlockHash") == Str(m.sourceBlockHash)
      && At(v, "sourceEventIndex") == Num(m.sourceEventIndex) && At(v, "sourceOft") == Str(m.sourceOft)
  {
    MessageField(m, 0);
    MessageField(m, 1);
    MessageField(m, 2);
    MessageField(m, 3);
    MessageField(m, 4);
    MessageField(m, 5);
    MessageField(m, 6);
    MessageField(m, 7);
  }

  lemma DestinationFields(m: Message)
    ensures var v := SortKeys(MessageJson(m));
      && At(v, "destinationOft") == Str(m.destinationOft) && At(v, "amountRaw") == Str(m.amountRaw)
      && At(v, "receiver") == Str(m.receiver) && At(v, "status") == Str(StatusName(m.status))
      && At(v, "destinationTransaction") == Nullable(m.destinationTransaction)
      && At(v, "destinationHeight") == Nullable(m.destinationHeight)
      && At(v, "destinationBlockHash") == Nullable(m.destinationBlockHash)
      && At(v, "layerZeroApiStatus") == Nullable(m.layerZeroApiStatus)
  {
    MessageField(m, 8);
    MessageField(m, 9);
    MessageField(m, 10);
    MessageField(m, 11);
    MessageField(m, 12);
    MessageField(m, 13);
    MessageField(m, 14);
    MessageField(m, 15);
  }

  lemma MessageBack(m: Message)
    ensures MessageAt(SortKeys(MessageJson(m))) == m
  {
    SourceFields(m);
    DestinationFields(m);
    NamesBack(m.direction, m.status);
  }

  function MessagesAt(v: Json): seq<Message> {
    Mapped(MessageAt, ItemsOf(v))
  }

  lemma MessagesBack(ms: seq<Message>)
    ensures MessagesAt(SortKeys(MessagesJson(ms))) == ms
  {
    forall i | 0 <= i < |ms|
      ensures MessagesAt(SortKeys(MessagesJson(ms)))[i] == ms[i]
    {
      MessageBack(ms[i]);
    }
  }

  // ---------- ranges and provider results ----------

  function RangesAt(v: Json): Ranges {
    var (s, r) := (At(v, "solana"), At(v, "robinhood"));
    Ranges(
      SolanaRange(TextOf(At(s, "fromSlot")), TextOf(At(s, "toSlot")), TextOf(At(s, "finalizedSlot")),
                  TextOf(At(s, "genesisHash")), TextOf(At(s, "startBlockhash")), TextOf(At(s, "endBlockhash")),
                  Holds(At(s, "complete")), Holds(At(s, "paginationComplete"))),
      RobinhoodRange(TextOf(At(r, "fromBlock")), TextOf(At(r, "toBlock")), TextOf(At(r, "finalizedBlock")),
                     TextOf(At(r, "startBlockHash")), TextOf(At(r, "endBlockHash")), Holds(At(r, "complete")),
                     Holds(At(r, "paginationComplete"))))
  }

  lemma ScalarField(keys: seq<string>, values: seq<Json>, i: nat)
    requires |keys| == |values| && NoRepeats(keys) && i < |keys| && Scalars(values)
    ensures At(SortKeys(Record(keys, values)), keys[i]) == values[i]
  {
    SortedRecord(keys, values, i);
    assert !values[i].Arr? && !values[i].Obj?;
  }

  lemma SolanaRangeFields(r: SolanaRange)
    ensures forall i :: 0 <= i < 8 ==>
              At(SortKeys(SolanaRangeJson(r)), SOLANA_RANGE_KEYS[i]) == SolanaRangeValues(r)[i]
  {
    RangeKeysDistinct();
    forall i | 0 <= i < 8
      ensures At(SortKeys(SolanaRangeJson(r)), SOLANA_RANGE_KEYS[i]) == SolanaRangeValues(r)[i]
    {
      ScalarField(SOLANA_RANGE_KEYS, SolanaRangeValues(r), i);
    }
  }

  lemma RobinhoodRangeFields(r: RobinhoodRange)
    ensures forall i :: 0 <= i < 7 ==>
              At(SortKeys(RobinhoodRangeJson(r)), ROBINHOOD_RANGE_KEYS[i]) == RobinhoodRangeValues(r)[i]
  {
    RangeKeysDistinct();
    forall i | 0 <= i < 7
      ensures At(SortKeys(RobinhoodRangeJson(r)), ROBINHOOD_RANGE_KEYS[i]) == RobinhoodRangeValues(r)[i]
    {
      ScalarField(ROBINHOOD_RANGE_KEYS, RobinhoodRangeValues(r), i);
    }
  }

  lemma ChainFields(solana: Json, robinhood: Json)
    ensures var v := SortKeys(Record(CHAIN_KEYS, [solana, robinhood]));
      At(v, "solana") == SortKeys(solana) && At(v, "robinhood") == SortKeys(robinhood)
  {
    RangeKeysDistinct();
    SortedRecord(CHAIN_KEYS, [solana, robinhood], 0);
    SortedRecord(CHAIN_KEYS, [solana, robinhood], 1);
  }

  lemma SolanaRangeBack(r: Ranges)
    ensures RangesAt(SortKeys(RangesJson(r))).solana == r.solana
  {
    ChainFields(SolanaRangeJson(r.solana), RobinhoodRangeJson(r.robinhood));
    SolanaRangeFields(r.solana);
    var (k, v, w) := (SOLANA_RANGE_KEYS, SortKeys(SolanaRangeJson(r.solana)), SolanaRangeValues(r.solana));
    assert At(v, k[0]) == w[0] && At(v, k[1]) == w[1] && At(v, k[2]) == w[2] && At(v, k[3]) == w[3];
    assert At(v, k[4]) == w[4] && At(v, k[5]) == w[5] && At(v, k[6]) == w[6] && At(v, k[7]) == w[7];
  }

  lemma RobinhoodRangeBack(r: Ranges)
    ensures RangesAt(SortKeys(RangesJson(r))).robinhood == r.robinhood
  {
    ChainFields(SolanaRangeJson(r.solana), RobinhoodRangeJson(r.robinhood));
    RobinhoodRangeFields(r.robinhood);
    var (k, v, w) := (ROBINHOOD_RANGE_KEYS, SortKeys(RobinhoodRangeJson(r.robinhood)),
                      RobinhoodRangeValues(r.robinhood));
    assert At(v, k[0]) == w[0] && At(v, k[1]) == w[1] && At(v, k[2]) == w[2] && At(v, k[3]) == w[3];
    assert At(v, k[4]) == w[4] && At(v, k[5]) == w[5] && At(v, k[6]) == w[6];
  }

  /** A provider result as its JSON form tells it. */
  function ProviderAt(v: Json): ProviderResult {
    ProviderResult(RangesAt(At(v, "ranges")), MessagesAt(At(v, "sourceMessages")),
                   MessagesAt(At(v, "destinationMessages")))
  }

  /**
   The text two providers are compared by reads back as the ranges and both message lists, each under its own name,
   the messages in canonical order.
   */
  lemma ComparableReads(r: ProviderResult)
    ensures var t := ReadValue(ProviderComparable(r));
      && t.Some? && t.value.1 == ""
      && ProviderAt(t.value.0) == ProviderResult(r.ranges, SortMessages(r.sources), SortMessages(r.destinations))
  {
    var values := [RangesJson(r.ranges), MessagesJson(SortMessages(r.sources)),
                   MessagesJson(SortMessages(r.destinations))];
    PrintRead(SortKeys(ProviderJson(r)), "");
    assert ProviderComparable(r) + "" == ProviderComparable(r);
    RangeKeysDistinct();
    SortedRecord(PROVIDER_KEYS, values, 0);
    SortedRecord(PROVIDER_KEYS, values, 1);
    SortedRecord(PROVIDER_KEYS, values, 2);
    SolanaRangeBack(r.ranges);
    RobinhoodRangeBack(r.ranges);
    MessagesBack(SortMessages(r.sources));
    MessagesBack(SortMessages(r.destinations));
  }

  // ---------- manifests ----------

  function ScannerAt(v: Json): Scanner {
    Scanner(TextOf(At(v, "name")), TextOf(At(v, "version")), TextOf(At(v, "bridgeCodeAuditTarget")),
            TextOf(At(v, "scannerSourceCommit")))
  }

  function SolanaIdentityAt(v: Json): SolanaIdentity {
    SolanaIdentity(TextOf(At(v, "chain")), NumberOf(At(v, "eid")), TextOf(At(v, "endpoint")),
                   TextOf(At(v, "oftProgram")), TextOf(At(v, "oftStore")))
  }

  function RobinhoodIdentityAt(v: Json): RobinhoodIdentity {
    RobinhoodIdentity(NumberOf(At(v, "chainId")), NumberOf(At(v, "eid")), TextOf(At(v, "endpoint")),
                      TextOf(At(v, "oft")))
  }

  function IdentitiesAt(v: Json): Identities {
    Identities(SolanaIdentityAt(At(v, "solana")), RobinhoodIdentityAt(At(v, "robinhood")))
  }

  function TextsAt(v: Json): seq<string> {
    Mapped(TextOf, ItemsOf(v))
  }

  function ProvenanceAt(v: Json): Provenance {
    Provenance(TextOf(At(v, "model")), TextsAt(At(v, "solanaProviders")), TextsAt(At(v, "robinhoodProviders")),
               Holds(At(v, "sourceEvidenceAgreement")), Holds(At(v, "destinationEvidenceAgreement")),
               Holds(At(v, "layerZeroApiCorroborated")), TextsAt(At(v, "layerZeroApiDisagreements")))
  }

  function SummaryAt(v: Json): Summary {
    Summary(NumberOf(At(v, "resultCount")), NumberOf(At(v, "unresolvedPacketCount")),
            TextOf(At(v, "solanaToRobinhoodRaw")), TextOf(At(v, "robinhoodToSolanaRaw")))
  }

  /** A manifest as its JSON form tells it. */
  function ManifestAt(v: Json): Manifest {
    Manifest(NumberOf(At(v, "schemaVersion")), TextOf(At(v, "inventoryId")), ScannerAt(At(v, "scanner")),
             TextOf(At(v, "generatedAt")), IdentitiesAt(At(v, "identities")), RangesAt(At(v, "ranges")),
             ProvenanceAt(At(v, "provenance")), MessagesAt(At(v, "messages")), SummaryAt(At(v, "summary")))
  }

  lemma ScannerBack(s: Scanner)
    ensures ScannerAt(SortKeys(ScannerJson(s))) == s
  {
    KeysDistinct();
    var values := [Str(s.name), Str(s.version), Str(s.bridgeCodeAuditTarget), Str(s.scannerSourceCommit)];
    ScalarField(SCANNER_KEYS, values, 0);
    ScalarField(SCANNER_KEYS, values, 1);
    ScalarField(SCANNER_KEYS, values, 2);
    ScalarField(SCANNER_KEYS, values, 3);
  }

  lemma SolanaIdentityBack(s: SolanaIdentity)
    ensures SolanaIdentityAt(SortKeys(SolanaIdentityJson(s))) == s
  {
    KeysDistinct();
    var values := [Str(s.chain), Num(s.eid), Str(s.endpoint), Str(s.oftProgram), Str(s.oftStore)];
    ScalarField(SOLANA_IDENTITY_KEYS, values, 0);
    ScalarField(SOLANA_IDENTITY_KEYS, values, 1);
    ScalarField(SOLANA_IDENTITY_KEYS, values, 2);
    ScalarField(SOLANA_IDENTITY_KEYS, values, 3);
    ScalarField(SOLANA_IDENTITY_KEYS, values, 4);
  }

  lemma RobinhoodIdentityBack(r: RobinhoodIdentity)
    ensures RobinhoodIdentityAt(SortKeys(RobinhoodIdentityJson(r))) == r
  {
    KeysDistinct();
    var values := [Num(r.chainId), Num(r.eid), Str(r.endpoint), Str(r.oft)];
    ScalarField(ROBINHOOD_IDENTITY_KEYS, values, 0);
    ScalarField(ROBINHOOD_IDENTITY_KEYS, values, 1);
    ScalarField(ROBINHOOD_IDENTITY_KEYS, values, 2);
    ScalarField(ROBINHOOD_IDENTITY_KEYS, values, 3);
  }

  lemma IdentitiesBack(i: Identities)
    ensures IdentitiesAt(SortKeys(IdentitiesJson(i))) == i
  {
    ChainFields(SolanaIdentityJson(i.solana), RobinhoodIdentityJson(i.robinhood));
    SolanaIdentityBack(i.solana);
    RobinhoodIdentityBack(i.robinhood);
  }

  lemma TextsBack(ts: seq<string>)
    ensures TextsAt(SortKeys(TextsJson(ts))) == ts
  {
  }

  lemma ProvenanceBack(p: Provenance)
    ensures ProvenanceAt(SortKeys(ProvenanceJson(p))) == p
  {
    ManifestKeysDistinct();
    var parts := ProvenanceParts(p);
    SortedRecord(PROVENANCE_KEYS, parts, 0);
    SortedRecord(PROVENANCE_KEYS, parts, 1);
    SortedRecord(PROVENANCE_KEYS, parts, 2);
    SortedRecord(PROVENANCE_KEYS, parts, 3);
    SortedRecord(PROVENANCE_KEYS, parts, 4);
    SortedRecord(PROVENANCE_KEYS, parts, 5);
    SortedRecord(PROVENANCE_KEYS, parts, 6);
    TextsBack(p.solanaProviders);
    TextsBack(p.robinhoodProviders);
    TextsBack(p.layerZeroApiDisagreements);
  }

  lemma SummaryBack(s: Summary)
    ensures SummaryAt(SortKeys(SummaryJson(s))) == s
  {
    KeysDistinct();
    var values := [Num(s.resultCount), Num(s.unresolvedPacketCount), Str(s.solanaToRobinhoodRaw),
                   Str(s.robinhoodToSolanaRaw)];
    ScalarField(SUMMARY_KEYS, values, 0);
    ScalarField(SUMMARY_KEYS, values, 1);
    ScalarField(SUMMARY_KEYS, values, 2);
    ScalarField(SUMMARY_KEYS, values, 3);
  }

  lemma ManifestField(p: Parts, i: nat)
    requires i < 9
    ensures At(SortKeys(Record(MANIFEST_KEYS, Listed(p))), MANIFEST_KEYS[i]) == SortKeys(Listed(p)[i])
  {
    ManifestKeysDistinct();
    SortedRecord(MANIFEST_KEYS, Listed(p), i);
  }

  lemma FirstFields(p: Parts)
    ensures var v := SortKeys(Record(MANIFEST_KEYS, Listed(p)));
      && At(v, "schemaVersion") == SortKeys(p.schemaVersion) && At(v, "inventoryId") == SortKeys(p.inventoryId)
      && At(v, "scanner") == SortKeys(p.scanner) && At(v, "generatedAt") == SortKeys(p.generatedAt)
      && At(v, "identities") == SortKeys(p.identities)
  {
    ManifestField(p, 0);
    ManifestField(p, 1);
    ManifestField(p, 2);
    ManifestField(p, 3);
    ManifestField(p, 4);
  }

  lemma LastFields(p: Parts)
    ensures var v := SortKeys(Record(MANIFEST_KEYS, Listed(p)));
      && At(v, "ranges") == SortKeys(p.ranges) && At(v, "provenance") == SortKeys(p.provenance)
      && At(v, "messages") == SortKeys(p.messages) && At(v, "summary") == SortKeys(p.summary)
  {
    ManifestField(p, 5);
    ManifestField(p, 6);
    ManifestField(p, 7);
    ManifestField(p, 8);
  }

  lemma HeadBack(m: Manifest)
    ensures var n := ManifestAt(SortKeys(ManifestJson(m)));
      && n.schemaVersion == m.schemaVersion && n.inventoryId == m.inventoryId && n.scanner == m.scanner
      && n.generatedAt == m.generatedAt && n.identities == m.identities
  {
    FirstFields(ManifestParts(m));
    ScannerBack(m.scanner);
    IdentitiesBack(m.identities);
  }

  lemma TailBack(m: Manifest)
    ensures var n := ManifestAt(SortKeys(ManifestJson(m)));
      n.ranges == m.ranges && n.provenance == m.provenance && n.messages == m.messages && n.summary == m.summary
  {
    LastFields(ManifestParts(m));
    SolanaRangeBack(m.ranges);
    RobinhoodRangeBack(m.ranges);
    ProvenanceBack(m.provenance);
    MessagesBack(m.messages);
    SummaryBack(m.summary);
  }

  const HEADING := "SAN_IN_FLIGHT_MANIFEST_V2\n"

  /**
   The text a manifest's checksum is taken of: its heading, and JSON that reads back, field by field under its name,
   as the manifest.
   */
  lemma ChecksumTextReads(m: Manifest)
    ensures var (text, n) := (ChecksumText(m), |HEADING|);
      && |text| >= n && text[..n] == HEADING && ReadValue(text[n..]).Some? && ReadValue(text[n..]).value.1 == ""
      && ManifestAt(ReadValue(text[n..]).value.0) == m
  {
    var v := SortKeys(ManifestJson(m));
    var text := ChecksumText(m);
    assert text[..|HEADING|] == HEADING && text[|HEADING|..] == Print(v);
    PrintRead(v, "");
    assert Print(v) + "" == Print(v);
    HeadBack(m);
    TailBack(m);
  }
}
