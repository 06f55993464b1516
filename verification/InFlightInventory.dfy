/**
 The in-flight manifest and its parser (scripts/inFlightInventory.ts).

 A rejected manifest is `None`.  The manifest arrives as typed data: `JSON.parse` and key sets are not part of this
 model.
 */
module InFlightInventory {
  import opened Num
  import opened Text
  import opened Pathway
  import opened Lists
  import opened Sorting
  import opened Json
  import opened Evidence
  import opened InFlightManifest

  datatype Inventory = Inventory(
    messageCount: nat, unresolvedPacketCount: nat, solanaToRobinhoodRaw: nat, robinhoodToSolanaRaw: nat)

  /** What the parser returns. */
  datatype Parsed = Parsed(inventoryId: string, inventorySha256: string, inventory: Inventory)

  const IN_FLIGHT_SCHEMA_VERSION := 2
  const IN_FLIGHT_SCANNER_NAME := "scanProductionInFlight"
  const IN_FLIGHT_SCANNER_VERSION := "1.0.0"
  const BRIDGE_CODE_AUDIT_TARGET := "d28762288bb5180ff292f57eef7132191f2037ec"
  const PROVENANCE_MODEL := "DUAL_RPC_RECONCILED"
  const MAX_SAFE_INTEGER := 0x1F_FFFF_FFFF_FFFF
  const SOLANA_MAINNET_GENESIS_HASH := "5eykt4UsFv8P8NJdTREpY1vzqKqZKvdpKuc147dw2N9d"

  // ---------- field checks ----------

  predicate Nonblank(s: string) {
    exists i :: 0 <= i < |s| && !IsBlank(s[i])
  }

  predicate PresentNonblank(s: Option<string>) {
    s.Some? && Nonblank(s.value)
  }

  predicate Positive(s: string) {
    BigIntOf(s).Some? && BigIntOf(s).value > 0
  }

  predicate Within(height: string, from: string, to: string) {
    var (h, a, b) := (BigIntOf(height), BigIntOf(from), BigIntOf(to));
    h.Some? && a.Some? && b.Some? && a.value <= h.value <= b.value
  }

  predicate StartsWith0x(s: string) {
    |s| >= 2 && s[0] == '0' && s[1] == 'x'
  }

  /** Hex identities compare without case, others exactly. */
  predicate EqualIdentity(a: string, b: string) {
    if StartsWith0x(a) || StartsWith0x(b) then ToLower(a) == ToLower(b) else a == b
  }

  /** A finalized range that ends at the finalized head and does not start after it. */
  predicate ValidSpan(from: string, to: string, finalized: string) {
    var (a, b, f) := (BigIntOf(from), BigIntOf(to), BigIntOf(finalized));
    a.Some? && b.Some? && f.Some? && a.value <= b.value && b.value == f.value && b.value > 0
  }

  predicate ValidRange(r: Ranges) {
    && ValidSpan(r.solana.fromSlot, r.solana.toSlot, r.solana.finalizedSlot)
    && ValidSpan(r.robinhood.fromBlock, r.robinhood.toBlock, r.robinhood.finalizedBlock)
    && r.solana.complete && r.solana.paginationComplete && r.robinhood.complete && r.robinhood.paginationComplete
    && r.solana.genesisHash == SOLANA_MAINNET_GENESIS_HASH
    && Nonblank(r.solana.startBlockhash) && Nonblank(r.solana.endBlockhash)
    && IsHash32(r.robinhood.startBlockHash) && IsHash32(r.robinhood.endBlockHash)
  }

  /** Two different providers are listed. */
  predicate Independent(providers: seq<string>) {
    exists i, j :: 0 <= i < j < |providers| && providers[i] != providers[j]
  }

  predicate Reconciled(p: Provenance) {
    && p.model == PROVENANCE_MODEL
    && Independent(p.solanaProviders) && Independent(p.robinhoodProviders)
    && p.sourceEvidenceAgreement && p.destinationEvidenceAgreement && p.layerZeroApiCorroborated
    && p.layerZeroApiDisagreements == []
  }

  /** A text with digits where the pattern has `d`, and the pattern's own characters elsewhere. */
  predicate Matches(s: string, pattern: string) {
    |s| == |pattern| && forall i :: 0 <= i < |s| ==> if pattern[i] == 'd' then IsDigit(s[i]) else s[i] == pattern[i]
  }

  predicate IsUtcTimestamp(s: string) {
    Matches(s, "dddd-dd-ddTdd:dd:ddZ") || Matches(s, "dddd-dd-ddTdd:dd:dd.dddZ")
  }

  predicate IsCommit(s: string) {
    |s| == 40 && forall i :: 0 <= i < 40 ==> IsLowerHex(s[i])
  }

  predicate ProductionChains(ids: Identities) {
    && ids.solana.chain == "solana-mainnet" && ids.solana.eid == 30168
    && ids.robinhood.chainId == 4663 && ids.robinhood.eid == 30416
  }

  /** Schema, scanner, time and chains: what a manifest says of itself. */
  predicate Identified(m: Manifest) {
    && m.schemaVersion == IN_FLIGHT_SCHEMA_VERSION && Nonblank(m.inventoryId) && IsUtcTimestamp(m.generatedAt)
    && m.scanner.name == IN_FLIGHT_SCANNER_NAME && m.scanner.version == IN_FLIGHT_SCANNER_VERSION
    && m.scanner.bridgeCodeAuditTarget == BRIDGE_CODE_AUDIT_TARGET && IsCommit(m.scanner.scannerSourceCommit)
    && ProductionChains(m.identities)
  }

  /** Every field of the send side of a packet, and the API status that must come with it. */
  predicate SourceSideOk(m: Message, ids: Identities, r: Ranges) {
    var outbound := m.direction == SolanaToRobinhood;
    && IsHash32(m.guid) && Positive(m.sourceNonce) && Positive(m.amountRaw)
    && Nonblank(m.sourceTransaction) && Nonblank(m.sourceBlockHash) && Nonblank(m.sourceOft)
    && Nonblank(m.destinationOft) && Nonblank(m.receiver)
    && 0 <= m.sourceEventIndex <= MAX_SAFE_INTEGER
    && EqualIdentity(m.sourceOft, if outbound then ids.solana.oftStore else ids.robinhood.oft)
    && EqualIdentity(m.destinationOft, if outbound then ids.robinhood.oft else ids.solana.oftStore)
    && (if outbound then Within(m.sourceHeight, r.solana.fromSlot, r.solana.toSlot)
        else Within(m.sourceHeight, r.robinhood.fromBlock, r.robinhood.toBlock))
    && (!outbound ==> IsHash32(m.sourceBlockHash))
  }

  predicate CorroboratesDelivery(api: string) {
    ToUpper(api) == "DELIVERED" || ToUpper(api) == "CONFIRMING"
  }

  predicate DeliveredOk(m: Message, r: Ranges, api: string) {
    && m.destinationTransaction.Some? && m.destinationTransaction.value != ""
    && m.destinationHeight.Some? && m.destinationBlockHash.Some?
    && (if m.direction == SolanaToRobinhood
        then Within(m.destinationHeight.value, r.robinhood.fromBlock, r.robinhood.toBlock)
             && IsHash32(m.destinationBlockHash.value)
        else Within(m.destinationHeight.value, r.solana.fromSlot, r.solana.toSlot)
             && Nonblank(m.destinationBlockHash.value))
    && CorroboratesDelivery(api)
  }

  predicate UndeliveredOk(m: Message, api: string) {
    m.destinationTransaction.None? && m.destinationHeight.None? && m.destinationBlockHash.None?
      && ToUpper(api) != "DELIVERED"
  }

  predicate MessageOk(m: Message, ids: Identities, r: Ranges) {
    && SourceSideOk(m, ids, r)
    && PresentNonblank(m.layerZeroApiStatus)
    && (if m.status == Delivered then DeliveredOk(m, r, m.layerZeroApiStatus.value)
        else UndeliveredOk(m, m.layerZeroApiStatus.value))
  }

  // ---------- what a manifest says ----------

  function Guid(m: Message): string {
    ToLower(m.guid)
  }

  function AmountOf(m: Message): nat {
    var a := BigIntOf(m.amountRaw);
    if a.Some? then a.value else 0
  }

  /** The amount a message contributes to a direction, delivered or not. */
  function AmountIn(d: Direction): Message -> nat {
    (m: Message) => if m.direction == d then AmountOf(m) else 0
  }

  /** The amount a message contributes to what is in flight in a direction. */
  function OpenIn(d: Direction): Message -> nat {
    (m: Message) => if m.direction == d && m.status != Delivered then AmountOf(m) else 0
  }

  function OpenOne(): Message -> nat {
    (m: Message) => if m.status != Delivered then 1 else 0
  }

  predicate DistinctGuids(ms: seq<Message>) {
    forall i, j :: 0 <= i < j < |ms| ==> Guid(ms[i]) != Guid(ms[j])
  }

  /** The count and totals of a list of messages. */
  function InventoryOf(ms: seq<Message>): Inventory {
    Inventory(|ms|, SumOf(OpenOne(), ms), SumOf(OpenIn(SolanaToRobinhood), ms), SumOf(OpenIn(RobinhoodToSolana), ms))
  }

  /** The summary states these totals, its amounts in decimal. */
  predicate States(s: Summary, t: Inventory) {
    && s.resultCount == t.messageCount && s.unresolvedPacketCount == t.unresolvedPacketCount
    && BigIntOf(s.solanaToRobinhoodRaw) == Some(t.solanaToRobinhoodRaw)
    && BigIntOf(s.robinhoodToSolanaRaw) == Some(t.robinhoodToSolanaRaw)
  }

  predicate SummaryReconciles(s: Summary, ms: seq<Message>) {
    States(s, InventoryOf(ms))
  }

  predicate HeaderOk(m: Manifest) {
    Identified(m) && ValidRange(m.ranges) && Reconciled(m.provenance)
  }

  /** Ordered, distinct, well-formed messages, and a summary that agrees with them. */
  ghost predicate MessagesOk(m: Manifest) {
    && Sorted(Mapped(WithKey, m.messages))
    && (forall i :: 0 <= i < |m.messages| ==> MessageOk(m.messages[i], m.identities, m.ranges))
    && DistinctGuids(m.messages)
    && SummaryReconciles(m.summary, m.messages)
  }

  /** What the parser accepts, apart from the checksum. */
  ghost predicate Acceptable(m: Manifest) {
    HeaderOk(m) && MessagesOk(m)
  }

  /** The supplied checksum is a 32-byte hash, and the one of the contents. */
  predicate Sealed(m: SignedManifest, sha256: string -> string) {
    IsHash32(m.manifestChecksum) && ToLower(m.manifestChecksum) == ManifestChecksum(sha256, m.unsigned)
  }

  // ---------- the parser ----------

  lemma {:induction false} SortedIsFixed<T>(xs: seq<Keyed<T>>)
    requires Sorted(xs)
    ensures Sort(xs) == xs
    decreases |xs|
  {
    if xs != [] {
      SortedIsFixed(xs[1..]);
      assert xs == [xs[0]] + xs[1..];
    }
  }

  /** Sorting keeps every element with its key. */
  lemma SortItems(k: seq<Keyed<Message>>)
    requires forall i :: 0 <= i < |k| ==> k[i] == WithKey(k[i].item)
    ensures forall i :: 0 <= i < |k| ==> Sort(k)[i] == WithKey(Sort(k)[i].item)
  {
    forall i | 0 <= i < |k|
      ensures Sort(k)[i] == WithKey(Sort(k)[i].item)
    {
      InSameMultiset(Sort(k), k, Sort(k)[i]);
    }
  }

  /** The canonical order leaves a list alone exactly when its keys ascend. */
  lemma CanonicalOrderMeansSorted(ms: seq<Message>)
    ensures SortMessages(ms) == ms <==> Sorted(Mapped(WithKey, ms))
  {
    var k := Mapped(WithKey, ms);
    SortSorted(k);
    SortItems(k);
    if Sorted(k) {
      SortedIsFixed(k);
    }
    if SortMessages(ms) == ms {
      assert Sort(k) == k;
    }
  }

  lemma {:induction false} SubsetSize<T>(a: set<T>, b: set<T>)
    requires a <= b
    ensures |a| <= |b|
    decreases |a|
  {
    if a != {} {
      var x :| x in a;
      SubsetSize(a - {x}, b - {x});
    }
  }

  /** `new Set(providers).size >= 2` */
  lemma IndependentBySet(providers: seq<string>)
    ensures |set p | p in providers| >= 2 <==> Independent(providers)
  {
    var s := set p | p in providers;
    if |s| >= 2 {
      var x := providers[0];
      assert |s - {x}| >= 1;
      var y :| y in s - {x};
      var j :| 0 <= j < |providers| && providers[j] == y;
      assert providers[0] != providers[j];
    }
    if Independent(providers) {
      var i, j :| 0 <= i < j < |providers| && providers[i] != providers[j];
      assert {providers[i], providers[j]} <= s;
      SubsetSize({providers[i], providers[j]}, s);
    }
  }

  /** `provenance` checks of the parser. */
  method CheckProvenance(p: Provenance) returns (ok: bool)
    ensures ok <==> Reconciled(p)
  {
    IndependentBySet(p.solanaProviders);
    IndependentBySet(p.robinhoodProviders);
    ok := !(p.model != PROVENANCE_MODEL || |p.solanaProviders| < 2 || |set x | x in p.solanaProviders| < 2
            || |p.robinhoodProviders| < 2 || |set x | x in p.robinhoodProviders| < 2
            || !p.sourceEvidenceAgreement || !p.destinationEvidenceAgreement || !p.layerZeroApiCorroborated)
          && |p.layerZeroApiDisagreements| == 0;
  }

  method CheckOrder(ms: seq<Message>) returns (ok: bool)
    ensures ok <==> Sorted(Mapped(WithKey, ms))
  {
    MessageTextsIdentify(SortMessages(ms), ms);
    CanonicalOrderMeansSorted(ms);
    ok := CanonicalJson(MessagesJson(SortMessages(ms))) == CanonicalJson(MessagesJson(ms));
  }

  function GuidSet(ms: seq<Message>): set<string> {
    if ms == [] then {} else GuidSet(ms[..|ms| - 1]) + {Guid(ms[|ms| - 1])}
  }

  lemma {:induction false} GuidSetMember(ms: seq<Message>, g: string)
    ensures g in GuidSet(ms) <==> exists i :: 0 <= i < |ms| && Guid(ms[i]) == g
    decreases |ms|
  {
    if ms != [] {
      var n := |ms| - 1;
      GuidSetMember(ms[..n], g);
      if i :| 0 <= i < n && Guid(ms[..n][i]) == g {
        assert Guid(ms[i]) == g;
      }
      if i :| 0 <= i < |ms| && Guid(ms[i]) == g {
        assert i == n || ms[..n][i] == ms[i];
      }
    }
  }

  lemma NotDistinct(ms: seq<Message>, i: nat)
    requires i < |ms| && Guid(ms[i]) in GuidSet(ms[..i])
    ensures !DistinctGuids(ms)
  {
    GuidSetMember(ms[..i], Guid(ms[i]));
    var j :| 0 <= j < i && Guid(ms[..i][j]) == Guid(ms[i]);
    assert Guid(ms[j]) == Guid(ms[i]);
  }

  lemma DistinctSnoc(ms: seq<Message>, i: nat)
    requires i < |ms| && DistinctGuids(ms[..i]) && forall k :: 0 <= k < i ==> Guid(ms[k]) != Guid(ms[i])
    ensures DistinctGuids(ms[..i + 1])
  {
    var a, b := ms[..i], ms[..i + 1];
    forall j, k | 0 <= j < k < |b|
      ensures Guid(b[j]) != Guid(b[k])
    {
      assert b[j] == ms[j] && b[k] == ms[k];
      if k < i {
        assert a[j] == ms[j] && a[k] == ms[k];
      }
    }
  }

  lemma GuidsGrow(ms: seq<Message>, i: nat)
    requires i < |ms| && DistinctGuids(ms[..i]) && |GuidSet(ms[..i])| == i && Guid(ms[i]) !in GuidSet(ms[..i])
    ensures DistinctGuids(ms[..i + 1]) && GuidSet(ms[..i + 1]) == GuidSet(ms[..i]) + {Guid(ms[i])}
    ensures |GuidSet(ms[..i + 1])| == i + 1
  {
    assert ms[..i + 1][..i] == ms[..i];
    forall k | 0 <= k < i
      ensures Guid(ms[k]) != Guid(ms[i])
    {
      GuidSetMember(ms[..i], Guid(ms[k]));
      assert Guid(ms[..i][k]) == Guid(ms[k]);
    }
    DistinctSnoc(ms, i);
  }

  /** The tally after one more message. */
  function Counted(t: Inventory, m: Message): Inventory {
    if m.status == Delivered then t.(messageCount := t.messageCount + 1)
    else if m.direction == SolanaToRobinhood then
      Inventory(t.messageCount + 1, t.unresolvedPacketCount + 1, t.solanaToRobinhoodRaw + AmountOf(m),
                t.robinhoodToSolanaRaw)
    else
      Inventory(t.messageCount + 1, t.unresolvedPacketCount + 1, t.solanaToRobinhoodRaw,
                t.robinhoodToSolanaRaw + AmountOf(m))
  }

  function Tally(ms: seq<Message>, n: nat): Inventory
    requires n <= |ms|
  {
    if n == 0 then Inventory(0, 0, 0, 0) else Counted(Tally(ms, n - 1), ms[n - 1])
  }

  lemma {:induction false} TallyMeaning(ms: seq<Message>, n: nat)
    requires n <= |ms|
    ensures Tally(ms, n) == InventoryOf(ms[..n])
  {
    if n > 0 {
      TallyMeaning(ms, n - 1);
      SumPrefix(OpenOne(), ms, n - 1);
      SumPrefix(OpenIn(SolanaToRobinhood), ms, n - 1);
      SumPrefix(OpenIn(RobinhoodToSolana), ms, n - 1);
    }
  }

  /** The checks of one message, apart from duplicates. */
  method CheckMessage(message: Message, ids: Identities, r: Ranges) returns (ok: bool)
    ensures ok <==> MessageOk(message, ids, r)
  {
    if !SourceSideOk(message, ids, r) || !PresentNonblank(message.layerZeroApiStatus) {
      return false;
    }
    if message.status == Delivered {
      return DeliveredOk(message, r, message.layerZeroApiStatus.value);
    }
    return UndeliveredOk(message, message.layerZeroApiStatus.value);
  }

  function Checker(ids: Identities, r: Ranges): Message -> bool {
    (m: Message) => MessageOk(m, ids, r)
  }

  /** The loop over messages: duplicates, the checks of each, and the running totals. */
  method ReadMessages(ms: seq<Message>, ids: Identities, r: Ranges) returns (t: Option<Inventory>)
    ensures t.Some? <==> Passes(Checker(ids, r), ms, |ms|) && DistinctGuids(ms)
    ensures t.Some? ==> t.value == Tally(ms, |ms|)
  {
    var seen: set<string> := {};
    var totals := Inventory(0, 0, 0, 0);
    assert ms[..0] == [];
    for i := 0 to |ms|
      invariant Passes(Checker(ids, r), ms, i)
      invariant DistinctGuids(ms[..i]) && seen == GuidSet(ms[..i]) && |seen| == i
      invariant totals == Tally(ms, i)
    {
      if ToLower(ms[i].guid) in seen {
        NotDistinct(ms, i);
        return None;
      }
      var ok := CheckMessage(ms[i], ids, r);
      if !ok {
        NotPassing(Checker(ids, r), ms, i, |ms|);
        return None;
      }
      GuidsGrow(ms, i);
      seen := seen + {ToLower(ms[i].guid)};
      totals := Counted(totals, ms[i]);
    }
    assert ms[..|ms|] == ms;
    return Some(totals);
  }

  lemma ReadMeaning(ms: seq<Message>, ids: Identities, r: Ranges)
    ensures Passes(Checker(ids, r), ms, |ms|) <==> forall i :: 0 <= i < |ms| ==> MessageOk(ms[i], ids, r)
    ensures Tally(ms, |ms|) == InventoryOf(ms)
  {
    PassesMeaning(Checker(ids, r), ms, |ms|);
    TallyMeaning(ms, |ms|);
    assert ms[..|ms|] == ms;
  }

  /** The checks that come before the messages. */
  method CheckHeader(m: Manifest) returns (ok: bool)
    ensures ok <==> HeaderOk(m)
  {
    if !Identified(m) || !ValidRange(m.ranges) {
      return false;
    }
    ok := CheckProvenance(m.provenance);
  }

  method CheckSummary(s: Summary, t: Inventory) returns (ok: bool)
    ensures ok <==> States(s, t)
  {
    if s.resultCount != t.messageCount || s.unresolvedPacketCount != t.unresolvedPacketCount {
      return false;
    }
    var fromSolana, fromRobinhood := BigIntOf(s.solanaToRobinhoodRaw), BigIntOf(s.robinhoodToSolanaRaw);
    return fromSolana == Some(t.solanaToRobinhoodRaw) && fromRobinhood == Some(t.robinhoodToSolanaRaw);
  }

  /** The messages, their order and the summary. */
  method CheckMessages(m: Manifest) returns (r: Option<Inventory>)
    ensures r.Some? <==> MessagesOk(m)
    ensures r.Some? ==> r.value == InventoryOf(m.messages)
  {
    var ordered := CheckOrder(m.messages);
    if !ordered {
      return None;
    }
    ReadMeaning(m.messages, m.identities, m.ranges);
    var totals := ReadMessages(m.messages, m.identities, m.ranges);
    if totals.None? {
      return None;
    }
    var stated := CheckSummary(m.summary, totals.value);
    return if stated then totals else None;
  }

  /**
   `parseInFlightInventory` accepts exactly the manifests with the approved identity, in canonical order and without
   duplicates, whose messages are all well formed, whose summary agrees with them and whose checksum is that of
   their contents, and reports the count and totals of those messages.
   */
  method ParseInFlightInventory(m: SignedManifest, sha256: string -> string) returns (r: Option<Parsed>)
    ensures r.Some? <==> Acceptable(m.unsigned) && Sealed(m, sha256)
    ensures r.Some? ==>
              r.value
              == Parsed(m.unsigned.inventoryId, ManifestChecksum(sha256, m.unsigned), InventoryOf(m.unsigned.messages))
  {
    var approved := CheckHeader(m.unsigned);
    if !approved {
      return None;
    }
    var inventory := CheckMessages(m.unsigned);
    if inventory.None? {
      return None;
    }
    var expectedChecksum := ManifestChecksum(sha256, m.unsigned);
    if !IsHash32(m.manifestChecksum) || ToLower(m.manifestChecksum) != expectedChecksum {
      return None;
    }
    return Some(Parsed(m.unsigned.inventoryId, expectedChecksum, inventory.value));
  }
}
