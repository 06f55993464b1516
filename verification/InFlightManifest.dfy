/**
 The in-flight manifest (scripts/inFlightInventory.ts): its fields, its canonical JSON, and its checksum.

 SHA-256 is a parameter: a function from text to hexadecimal digits.
 */
module InFlightManifest {
  import opened Lists
  import opened Json
  import opened Evidence

  datatype Scanner = Scanner(name: string, version: string, bridgeCodeAuditTarget: string, scannerSourceCommit: string)

  datatype SolanaIdentity = SolanaIdentity(chain: string, eid: int, endpoint: string, oftProgram: string,
                                           oftStore: string)

  datatype RobinhoodIdentity = RobinhoodIdentity(chainId: int, eid: int, endpoint: string, oft: string)

  datatype Identities = Identities(solana: SolanaIdentity, robinhood: RobinhoodIdentity)

  datatype Provenance = Provenance(
    model: string, solanaProviders: seq<string>, robinhoodProviders: seq<string>, sourceEvidenceAgreement: bool,
    destinationEvidenceAgreement: bool, layerZeroApiCorroborated: bool, layerZeroApiDisagreements: seq<string>)

  datatype Summary = Summary(
    resultCount: int, unresolvedPacketCount: int, solanaToRobinhoodRaw: string, robinhoodToSolanaRaw: string)

  /** Everything the checksum covers. */
  datatype Manifest = Manifest(
    schemaVersion: int, inventoryId: string, scanner: Scanner, generatedAt: string, identities: Identities,
    ranges: Ranges, provenance: Provenance, messages: seq<Message>, summary: Summary)

  datatype SignedManifest = SignedManifest(unsigned: Manifest, manifestChecksum: string)

  // ---------- JSON ----------

  const SCANNER_KEYS := ["name", "version", "bridgeCodeAuditTarget", "scannerSourceCommit"]
  const SOLANA_IDENTITY_KEYS := ["chain", "eid", "endpoint", "oftProgram", "oftStore"]
  const ROBINHOOD_IDENTITY_KEYS := ["chainId", "eid", "endpoint", "oft"]

  const PROVENANCE_KEYS := ["model", "solanaProviders", "robinhoodProviders", "sourceEvidenceAgreement",
    "destinationEvidenceAgreement", "layerZeroApiCorroborated", "layerZeroApiDisagreements"]

  const SUMMARY_KEYS := ["resultCount", "unresolvedPacketCount", "solanaToRobinhoodRaw", "robinhoodToSolanaRaw"]

  const MANIFEST_KEYS := ["schemaVersion", "inventoryId", "scanner", "generatedAt", "identities", "ranges",
    "provenance", "messages", "summary"]

  function ScannerJson(s: Scanner): Json {
    Record(SCANNER_KEYS, [Str(s.name), Str(s.version), Str(s.bridgeCodeAuditTarget), Str(s.scannerSourceCommit)])
  }

  function SolanaIdentityJson(i: SolanaIdentity): Json {
    Record(SOLANA_IDENTITY_KEYS, [Str(i.chain), Num(i.eid), Str(i.endpoint), Str(i.oftProgram), Str(i.oftStore)])
  }

  function RobinhoodIdentityJson(i: RobinhoodIdentity): Json {
    Record(ROBINHOOD_IDENTITY_KEYS, [Num(i.chainId), Num(i.eid), Str(i.endpoint), Str(i.oft)])
  }

  function IdentitiesJson(i: Identities): Json {
    Record(CHAIN_KEYS, [SolanaIdentityJson(i.solana), RobinhoodIdentityJson(i.robinhood)])
  }

  function TextJson(t: string): Json {
    Str(t)
  }

  function TextsJson(ts: seq<string>): Json {
    Arr(Mapped(TextJson, ts))
  }

  function ProvenanceParts(p: Provenance): (r: seq<Json>)
    ensures |r| == 7
  {
    [Str(p.model), TextsJson(p.solanaProviders), TextsJson(p.robinhoodProviders),
     Bool(p.sourceEvidenceAgreement), Bool(p.destinationEvidenceAgreement),
     Bool(p.layerZeroApiCorroborated), TextsJson(p.layerZeroApiDisagreements)]
  }

  function ProvenanceJson(p: Provenance): Json {
    Record(PROVENANCE_KEYS, ProvenanceParts(p))
  }

  function SummaryJson(s: Summary): Json {
    Record(SUMMARY_KEYS,
           [Num(s.resultCount), Num(s.unresolvedPacketCount), Str(s.solanaToRobinhoodRaw), Str(s.robinhoodToSolanaRaw)])
  }

  /** The nine values of a manifest record. */
  datatype Parts = Parts(
    schemaVersion: Json, inventoryId: Json, scanner: Json, generatedAt: Json, identities: Json, ranges: Json,
    provenance: Json, messages: Json, summary: Json)

  function Listed(p: Parts): (r: seq<Json>)
    ensures |r| == 9
  {
    [p.schemaVersion, p.inventoryId, p.scanner, p.generatedAt, p.identities, p.ranges, p.provenance, p.messages,
     p.summary]
  }

  function ManifestParts(m: Manifest): Parts {
    Parts(Num(m.schemaVersion), Str(m.inventoryId), ScannerJson(m.scanner), Str(m.generatedAt),
          IdentitiesJson(m.identities),
          RangesJson(m.ranges), ProvenanceJson(m.provenance), MessagesJson(m.messages), SummaryJson(m.summary))
  }

  function ManifestJson(m: Manifest): Json {
    Record(MANIFEST_KEYS, Listed(ManifestParts(m)))
  }

  function ChecksumText(m: Manifest): string {
    "SAN_IN_FLIGHT_MANIFEST_V2\n" + CanonicalJson(ManifestJson(m))
  }

  /** `manifestChecksum` */
  function ManifestChecksum(sha256: string -> string, m: Manifest): string {
    "0x" + sha256(ChecksumText(m))
  }

  // ---------- the JSON form determines the manifest ----------

  lemma KeysDistinct()
    ensures NoRepeats(SCANNER_KEYS) && NoRepeats(SOLANA_IDENTITY_KEYS) && NoRepeats(ROBINHOOD_IDENTITY_KEYS)
    ensures NoRepeats(SUMMARY_KEYS)
  {
    var a, b, c, d := SCANNER_KEYS, SOLANA_IDENTITY_KEYS, ROBINHOOD_IDENTITY_KEYS, SUMMARY_KEYS;
    assert |a[0]| == 4 && |a[1]| == 7 && |a[2]| == 21 && |a[3]| == 19;
    assert |b[0]| == 5 && |b[1]| == 3 && |b[2]| == 8 && |b[3]| == 10 && |b[4]| == 8;
    assert b[2][0] == 'e' && b[4][0] == 'o';
    assert |c[0]| == 7 && |c[1]| == 3 && |c[2]| == 8 && |c[3]| == 3;
    assert c[1][0] == 'e' && c[3][0] == 'o';
    assert |d[0]| == 11 && |d[1]| == 21 && |d[2]| == 20 && |d[3]| == 20;
    assert d[2][0] == 's' && d[3][0] == 'r';
  }

  lemma ManifestKeysDistinct()
    ensures NoRepeats(PROVENANCE_KEYS) && NoRepeats(MANIFEST_KEYS)
  {
    var p, m := PROVENANCE_KEYS, MANIFEST_KEYS;
    assert |p[0]| == 5 && |p[1]| == 15 && |p[2]| == 18 && |p[3]| == 23 && |p[4]| == 28 && |p[5]| == 24 && |p[6]| == 25;
    assert |m[0]| == 13 && |m[1]| == 11 && |m[2]| == 7 && |m[3]| == 11 && |m[4]| == 10 && |m[5]| == 6;
    assert |m[6]| == 10 && |m[7]| == 8 && |m[8]| == 7;
    assert m[1][0] == 'i' && m[3][0] == 'g' && m[4][0] == 'i' && m[6][0] == 'p' && m[2][1] == 'c' && m[8][1] == 'u';
  }

  lemma ScannerSame(s: Scanner, t: Scanner)
    ensures WellFormed(ScannerJson(s))
    ensures SameJson(ScannerJson(s), ScannerJson(t)) <==> s == t
  {
    KeysDistinct();
    var v := [Str(s.name), Str(s.version), Str(s.bridgeCodeAuditTarget), Str(s.scannerSourceCommit)];
    var w := [Str(t.name), Str(t.version), Str(t.bridgeCodeAuditTarget), Str(t.scannerSourceCommit)];
    ScalarRecordWellFormed(SCANNER_KEYS, v);
    ScalarRecordsSame(SCANNER_KEYS, v, w);
    assert v == w <==> v[0] == w[0] && v[1] == w[1] && v[2] == w[2] && v[3] == w[3];
  }

  lemma SolanaIdentitySame(i: SolanaIdentity, j: SolanaIdentity)
    ensures WellFormed(SolanaIdentityJson(i))
    ensures SameJson(SolanaIdentityJson(i), SolanaIdentityJson(j)) <==> i == j
  {
    KeysDistinct();
    var v := [Str(i.chain), Num(i.eid), Str(i.endpoint), Str(i.oftProgram), Str(i.oftStore)];
    var w := [Str(j.chain), Num(j.eid), Str(j.endpoint), Str(j.oftProgram), Str(j.oftStore)];
    ScalarRecordWellFormed(SOLANA_IDENTITY_KEYS, v);
    ScalarRecordsSame(SOLANA_IDENTITY_KEYS, v, w);
    assert v == w <==> v[0] == w[0] && v[1] == w[1] && v[2] == w[2] && v[3] == w[3] && v[4] == w[4];
  }

  lemma RobinhoodIdentitySame(i: RobinhoodIdentity, j: RobinhoodIdentity)
    ensures WellFormed(RobinhoodIdentityJson(i))
    ensures SameJson(RobinhoodIdentityJson(i), RobinhoodIdentityJson(j)) <==> i == j
  {
    KeysDistinct();
    var v := [Num(i.chainId), Num(i.eid), Str(i.endpoint), Str(i.oft)];
    var w := [Num(j.chainId), Num(j.eid), Str(j.endpoint), Str(j.oft)];
    ScalarRecordWellFormed(ROBINHOOD_IDENTITY_KEYS, v);
    ScalarRecordsSame(ROBINHOOD_IDENTITY_KEYS, v, w);
    assert v == w <==> v[0] == w[0] && v[1] == w[1] && v[2] == w[2] && v[3] == w[3];
  }

  lemma SummarySame(s: Summary, t: Summary)
    ensures WellFormed(SummaryJson(s))
    ensures SameJson(SummaryJson(s), SummaryJson(t)) <==> s == t
  {
    KeysDistinct();
    var v := [Num(s.resultCount), Num(s.unresolvedPacketCount), Str(s.solanaToRobinhoodRaw),
              Str(s.robinhoodToSolanaRaw)];
    var w := [Num(t.resultCount), Num(t.unresolvedPacketCount), Str(t.solanaToRobinhoodRaw),
              Str(t.robinhoodToSolanaRaw)];
    ScalarRecordWellFormed(SUMMARY_KEYS, v);
    ScalarRecordsSame(SUMMARY_KEYS, v, w);
    assert v == w <==> v[0] == w[0] && v[1] == w[1] && v[2] == w[2] && v[3] == w[3];
  }

  /** Records of two chains, whatever the two values are. */
  lemma TwoSame(a: Json, b: Json, x: Json, y: Json)
    ensures WellFormed(a) && WellFormed(b) ==> WellFormed(Record(CHAIN_KEYS, [a, b]))
    ensures SameJson(Record(CHAIN_KEYS, [a, b]), Record(CHAIN_KEYS, [x, y])) <==> SameJson(a, x) && SameJson(b, y)
  {
    RangeKeysDistinct();
    var v, w := [a, b], [x, y];
    if WellFormed(a) && WellFormed(b) {
      RecordWellFormed(CHAIN_KEYS, v);
    }
    RecordsSame(CHAIN_KEYS, v, w);
    assert (forall i :: 0 <= i < 2 ==> SameJson(v[i], w[i])) <==> SameJson(v[0], w[0]) && SameJson(v[1], w[1]);
  }

  lemma IdentitiesSame(i: Identities, j: Identities)
    ensures WellFormed(IdentitiesJson(i))
    ensures SameJson(IdentitiesJson(i), IdentitiesJson(j)) <==> i == j
  {
    SolanaIdentitySame(i.solana, j.solana);
    RobinhoodIdentitySame(i.robinhood, j.robinhood);
    TwoSame(SolanaIdentityJson(i.solana), RobinhoodIdentityJson(i.robinhood),
            SolanaIdentityJson(j.solana), RobinhoodIdentityJson(j.robinhood));
  }

  lemma TextsSame(s: seq<string>, t: seq<string>)
    ensures WellFormed(TextsJson(s))
    ensures SameJson(TextsJson(s), TextsJson(t)) <==> s == t
  {
    ListWellFormed(TextJson, s);
    ListsSame(TextJson, s, t);
  }

  lemma SevenFold(v: seq<Json>, w: seq<Json>)
    requires |v| == |w| == 7
    ensures (forall i :: 0 <= i < 7 ==> SameJson(v[i], w[i]))
            <==> SameJson(v[0], w[0]) && SameJson(v[1], w[1]) && SameJson(v[2], w[2]) && SameJson(v[3], w[3])
                 && SameJson(v[4], w[4]) && SameJson(v[5], w[5]) && SameJson(v[6], w[6])
  {
  }

  lemma SevenSame(v: seq<Json>, w: seq<Json>)
    requires |v| == |w| == 7
    ensures SameJson(Record(PROVENANCE_KEYS, v), Record(PROVENANCE_KEYS, w))
            <==> SameJson(v[0], w[0]) && SameJson(v[1], w[1]) && SameJson(v[2], w[2]) && SameJson(v[3], w[3])
                 && SameJson(v[4], w[4]) && SameJson(v[5], w[5]) && SameJson(v[6], w[6])
  {
    ManifestKeysDistinct();
    RecordsSame(PROVENANCE_KEYS, v, w);
    SevenFold(v, w);
  }

  lemma ProvenanceWellFormed(p: Provenance)
    ensures WellFormed(ProvenanceJson(p))
  {
    ManifestKeysDistinct();
    TextsSame(p.solanaProviders, []);
    TextsSame(p.robinhoodProviders, []);
    TextsSame(p.layerZeroApiDisagreements, []);
    RecordWellFormed(PROVENANCE_KEYS, ProvenanceParts(p));
  }

  lemma ProvenanceDetermined(p: Provenance, q: Provenance)
    requires SameJson(ProvenanceJson(p), ProvenanceJson(q))
    ensures p == q
  {
    SevenSame(ProvenanceParts(p), ProvenanceParts(q));
    TextsSame(p.solanaProviders, q.solanaProviders);
    TextsSame(p.robinhoodProviders, q.robinhoodProviders);
    TextsSame(p.layerZeroApiDisagreements, q.layerZeroApiDisagreements);
  }

  ghost predicate SameParts(p: Parts, q: Parts) {
    && SameJson(p.schemaVersion, q.schemaVersion) && SameJson(p.inventoryId, q.inventoryId)
    && SameJson(p.scanner, q.scanner) && SameJson(p.generatedAt, q.generatedAt)
    && SameJson(p.identities, q.identities) && SameJson(p.ranges, q.ranges) && SameJson(p.provenance, q.provenance)
    && SameJson(p.messages, q.messages) && SameJson(p.summary, q.summary)
  }

  lemma NineFold(v: seq<Json>, w: seq<Json>)
    requires |v| == |w| == 9
    ensures (forall i :: 0 <= i < 9 ==> SameJson(v[i], w[i]))
            <==> SameJson(v[0], w[0]) && SameJson(v[1], w[1]) && SameJson(v[2], w[2]) && SameJson(v[3], w[3])
                 && SameJson(v[4], w[4]) && SameJson(v[5], w[5]) && SameJson(v[6], w[6]) && SameJson(v[7], w[7])
                 && SameJson(v[8], w[8])
  {
  }

  lemma PartsSame(p: Parts, q: Parts)
    ensures SameJson(Record(MANIFEST_KEYS, Listed(p)), Record(MANIFEST_KEYS, Listed(q))) <==> SameParts(p, q)
  {
    ManifestKeysDistinct();
    var v, w := Listed(p), Listed(q);
    RecordsSame(MANIFEST_KEYS, v, w);
    NineFold(v, w);
  }

  lemma PartsWellFormed(p: Parts)
    requires WellFormed(p.schemaVersion) && WellFormed(p.inventoryId) && WellFormed(p.scanner)
             && WellFormed(p.generatedAt)
    requires WellFormed(p.identities) && WellFormed(p.ranges) && WellFormed(p.provenance) && WellFormed(p.messages)
    requires WellFormed(p.summary)
    ensures WellFormed(Record(MANIFEST_KEYS, Listed(p)))
  {
    ManifestKeysDistinct();
    RecordWellFormed(MANIFEST_KEYS, Listed(p));
  }

  lemma ManifestWellFormed(m: Manifest)
    ensures WellFormed(ManifestJson(m))
  {
    ScannerSame(m.scanner, m.scanner);
    IdentitiesSame(m.identities, m.identities);
    RangesWellFormed(m.ranges);
    ProvenanceWellFormed(m.provenance);
    MessagesWellFormed(m.messages);
    SummarySame(m.summary, m.summary);
    PartsWellFormed(ManifestParts(m));
  }

  lemma HeadDetermined(m: Manifest, n: Manifest)
    requires SameParts(ManifestParts(m), ManifestParts(n))
    ensures m.schemaVersion == n.schemaVersion && m.inventoryId == n.inventoryId && m.scanner == n.scanner
    ensures m.generatedAt == n.generatedAt && m.identities == n.identities
  {
    ScannerSame(m.scanner, n.scanner);
    IdentitiesSame(m.identities, n.identities);
  }

  lemma TailDetermined(m: Manifest, n: Manifest)
    requires SameParts(ManifestParts(m), ManifestParts(n))
    ensures m.ranges == n.ranges && m.provenance == n.provenance && m.messages == n.messages && m.summary == n.summary
  {
    RangesJsonInjective(m.ranges, n.ranges);
    ProvenanceDetermined(m.provenance, n.provenance);
    MessagesJsonInjective(m.messages, n.messages);
    SummarySame(m.summary, n.summary);
  }

  /** The JSON form determines the manifest. */
  lemma ManifestDetermined(m: Manifest, n: Manifest)
    requires SameJson(ManifestJson(m), ManifestJson(n))
    ensures m == n
  {
    PartsSame(ManifestParts(m), ManifestParts(n));
    HeadDetermined(m, n);
    TailDetermined(m, n);
  }

  lemma SameTail(a: string, s: string, t: string)
    requires a + s == a + t
    ensures s == t
  {
    assert (a + s)[|a|..] == s && (a + t)[|a|..] == t;
  }

  /**
   The checksum binds every field: unless the hash collides on the two texts, two manifests have the same checksum
   exactly when they are equal.
   */
  lemma ChecksumBinds(sha256: string -> string, m: Manifest, n: Manifest)
    requires var (s, t) := (ChecksumText(m), ChecksumText(n)); sha256(s) == sha256(t) ==> s == t
    ensures ManifestChecksum(sha256, m) == ManifestChecksum(sha256, n) <==> m == n
  {
    ManifestWellFormed(m);
    ManifestWellFormed(n);
    CanonicalJsonInjective(ManifestJson(m), ManifestJson(n));
    if ManifestChecksum(sha256, m) == ManifestChecksum(sha256, n) {
      SameTail("0x", sha256(ChecksumText(m)), sha256(ChecksumText(n)));
      SameTail("SAN_IN_FLIGHT_MANIFEST_V2\n", CanonicalJson(ManifestJson(m)), CanonicalJson(ManifestJson(n)));
      ManifestDetermined(m, n);
    }
  }
}
