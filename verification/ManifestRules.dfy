/**
 Why the parser rejects a manifest: the defects scripts/inFlightInventory.ts throws on, one by one.

 A manifest is acceptable exactly when it has none of them.
 */
module ManifestRules {
  import opened Num
  import opened Text
  import opened Pathway
  import opened Lists
  import opened Sorting
  import opened Evidence
  import opened InFlightManifest
  import opened InFlightInventory

  // ---------- texts ----------

  /** Digits from `i` to `j`. */
  predicate DigitsAt(s: string, i: nat, j: nat) {
    j <= |s| && forall k :: i <= k < j ==> IsDigit(s[k])
  }

  /** Year, month, day, hour, minute and second in digits, milliseconds or not, and the mark of UTC. */
  predicate Timestamp(s: string) {
    && (|s| == 20 || |s| == 24)
    && DigitsAt(s, 0, 4) && s[4] == '-' && DigitsAt(s, 5, 7) && s[7] == '-' && DigitsAt(s, 8, 10) && s[10] == 'T'
    && DigitsAt(s, 11, 13) && s[13] == ':' && DigitsAt(s, 14, 16) && s[16] == ':' && DigitsAt(s, 17, 19)
    && (if |s| == 20 then s[19] == 'Z' else s[19] == '.' && DigitsAt(s, 20, 23) && s[23] == 'Z')
  }

  lemma PatternAt(i: nat)
    requires i < 24
    ensures "dddd-dd-ddTdd:dd:dd.dddZ"[i]
            == (if i == 4 || i == 7 then '-' else if i == 10 then 'T' else if i == 13 || i == 16 then ':'
                else if i == 19 then '.' else if i == 23 then 'Z' else 'd')
    ensures i < 20 ==> "dddd-dd-ddTdd:dd:ddZ"[i] == if i == 19 then 'Z' else "dddd-dd-ddTdd:dd:dd.dddZ"[i]
  {
  }

  lemma SecondsMatch(s: string)
    ensures Matches(s, "dddd-dd-ddTdd:dd:ddZ") <==> Timestamp(s) && |s| == 20
  {
    forall i | 0 <= i < |s| && |s| == 20
      ensures "dddd-dd-ddTdd:dd:ddZ"[i]
              == (if i == 4 || i == 7 then '-' else if i == 10 then 'T' else if i == 13 || i == 16 then ':'
                  else if i == 19 then 'Z' else 'd')
    {
      PatternAt(i);
    }
  }

  lemma MillisecondsMatch(s: string)
    ensures Matches(s, "dddd-dd-ddTdd:dd:dd.dddZ") <==> Timestamp(s) && |s| == 24
  {
    forall i | 0 <= i < |s| && |s| == 24
      ensures "dddd-dd-ddTdd:dd:dd.dddZ"[i]
              == (if i == 4 || i == 7 then '-' else if i == 10 then 'T' else if i == 13 || i == 16 then ':'
                  else if i == 19 then '.' else if i == 23 then 'Z' else 'd')
    {
      PatternAt(i);
    }
  }

  lemma TimestampMeaning(s: string)
    ensures IsUtcTimestamp(s) <==> Timestamp(s)
  {
    SecondsMatch(s);
    MillisecondsMatch(s);
  }

  /** Forty lower-case hexadecimal digits. */
  predicate CommitHash(s: string) {
    |s| == 40 && forall i :: 0 <= i < 40 ==> s[i] in HEX_DIGITS
  }

  lemma CommitMeaning(s: string)
    ensures IsCommit(s) <==> CommitHash(s)
  {
    forall i | 0 <= i < |s|
      ensures IsLowerHex(s[i]) <==> s[i] in HEX_DIGITS
    {
      HexMeaning(s[i]);
    }
  }

  /** `0x` and sixty-four hexadecimal digits of either case. */
  predicate Hash(s: string) {
    |s| == 66 && s[0] == '0' && s[1] == 'x' && forall i :: 2 <= i < 66 ==> HexValue(s[i]) < 16
  }

  lemma HashMeaning(s: string)
    ensures IsHash32(s) <==> Hash(s)
  {
    forall i | 0 <= i < |s|
      ensures IsHex(s[i]) <==> HexValue(s[i]) < 16
    {
      HexMeaning(s[i]);
    }
    if |s| == 66 {
      assert s[..2] == [s[0], s[1]];
    }
  }

  /** Equal but for the case of letters. */
  predicate EqualButCase(a: string, b: string) {
    |a| == |b| && forall i :: 0 <= i < |a| ==> LowerChar(a[i]) == LowerChar(b[i])
  }

  lemma LowerMeaning(a: string, b: string)
    ensures ToLower(a) == ToLower(b) <==> EqualButCase(a, b)
  {
    if ToLower(a) == ToLower(b) {
      assert |a| == |b|;
      forall i | 0 <= i < |a|
        ensures LowerChar(a[i]) == LowerChar(b[i])
      {
        assert ToLower(a)[i] == ToLower(b)[i];
      }
    }
  }

  lemma SameLetter(c: char, d: char)
    ensures LowerChar(c) == LowerChar(d) <==> UpperChar(c) == UpperChar(d)
  {
    assert (c as int) as char == c && (d as int) as char == d;
  }

  /** Upper-casing identifies the same texts. */
  lemma UpperMeaning(a: string, b: string)
    requires forall i :: 0 <= i < |b| ==> UpperChar(b[i]) == b[i]
    ensures ToUpper(a) == b <==> EqualButCase(a, b)
  {
    if ToUpper(a) == b {
      forall i | 0 <= i < |a|
        ensures LowerChar(a[i]) == LowerChar(b[i])
      {
        SameLetter(a[i], b[i]);
        assert ToUpper(a)[i] == b[i];
      }
    }
    if EqualButCase(a, b) {
      forall i | 0 <= i < |a|
        ensures ToUpper(a)[i] == b[i]
      {
        SameLetter(a[i], b[i]);
      }
    }
  }

  /** The API names in any case. */
  predicate SaysDelivered(api: string) {
    EqualButCase(api, "DELIVERED")
  }

  predicate SaysConfirming(api: string) {
    EqualButCase(api, "CONFIRMING")
  }

  lemma ApiMeaning(api: string)
    ensures ToUpper(api) == "DELIVERED" <==> SaysDelivered(api)
    ensures CorroboratesDelivery(api) <==> SaysDelivered(api) || SaysConfirming(api)
  {
    UpperMeaning(api, "DELIVERED");
    UpperMeaning(api, "CONFIRMING");
  }

  // ---------- one message ----------

  /** One chain as the manifest states it: its OFT, its scanned range, and whether its blocks have 32-byte hashes. */
  datatype Side = Side(oft: string, from: string, to: string, hashed: bool)

  function SolanaSide(ids: Identities, r: Ranges): Side {
    Side(ids.solana.oftStore, r.solana.fromSlot, r.solana.toSlot, false)
  }

  function RobinhoodSide(ids: Identities, r: Ranges): Side {
    Side(ids.robinhood.oft, r.robinhood.fromBlock, r.robinhood.toBlock, true)
  }

  function SourceSide(d: Direction, ids: Identities, r: Ranges): Side {
    match d
    case SolanaToRobinhood => SolanaSide(ids, r)
    case RobinhoodToSolana => RobinhoodSide(ids, r)
  }

  /** A packet arrives where packets of the other direction leave. */
  function DestinationSide(d: Direction, ids: Identities, r: Ranges): Side {
    SourceSide(if d == SolanaToRobinhood then RobinhoodToSolana else SolanaToRobinhood, ids, r)
  }

  /** Decimal digits that stand for this number. */
  predicate Reads(s: string, n: nat) {
    s != "" && AllDigits(s) && DigitsValue(s) == n
  }

  /** A height inside the scanned range of a side. */
  ghost predicate InRange(height: string, side: Side) {
    exists a, h, b :: Reads(side.from, a) && Reads(height, h) && Reads(side.to, b) && a <= h <= b
  }

  lemma RangeMeaning(height: string, side: Side)
    ensures Within(height, side.from, side.to) <==> InRange(height, side)
  {
    if Within(height, side.from, side.to) {
      assert Reads(side.from, DigitsValue(side.from)) && Reads(height, DigitsValue(height))
             && Reads(side.to, DigitsValue(side.to));
    }
  }

  predicate StartsWithHex(s: string) {
    "0x" <= s
  }

  /** The OFT of a side is named; texts that start with `0x` on either side compare without case. */
  predicate Names(oft: string, side: Side) {
    oft == side.oft || ((StartsWithHex(oft) || StartsWithHex(side.oft)) && EqualButCase(oft, side.oft))
  }

  lemma NamesMeaning(oft: string, side: Side)
    ensures EqualIdentity(oft, side.oft) <==> Names(oft, side)
  {
    LowerMeaning(oft, side.oft);
  }

  datatype MessageDefect =
    | BadGuid | NonceNotPositive | AmountNotPositive | NoSourceTransaction | BadSourceBlock | BlankName | BadEventIndex
    | WrongSource | WrongDestination | SourceOutOfRange | NoApiStatus
    | NotShownDelivered | DestinationOutOfRange | BadDestinationBlock | DeliveryNotCorroborated
    | ClaimsDestination | ApiClaimsDelivery

  ghost predicate BadBlock(hash: string, side: Side) {
    AllBlank(hash) || (side.hashed && !Hash(hash))
  }

  ghost predicate NotPositive(s: string) {
    forall n: nat :: Reads(s, n) ==> n == 0
  }

  ghost predicate HasDefect(m: Message, ids: Identities, r: Ranges, d: MessageDefect) {
    var (from, to) := (SourceSide(m.direction, ids, r), DestinationSide(m.direction, ids, r));
    var delivered := m.status == Delivered;
    match d
    case BadGuid => !Hash(m.guid)
    case NonceNotPositive => NotPositive(m.sourceNonce)
    case AmountNotPositive => NotPositive(m.amountRaw)
    case NoSourceTransaction => AllBlank(m.sourceTransaction)
    case BadSourceBlock => BadBlock(m.sourceBlockHash, from)
    case BlankName => AllBlank(m.sourceOft) || AllBlank(m.destinationOft) || AllBlank(m.receiver)
    case BadEventIndex => m.sourceEventIndex < 0 || m.sourceEventIndex > 9_007_199_254_740_991
    case WrongSource => !Names(m.sourceOft, from)
    case WrongDestination => !Names(m.destinationOft, to)
    case SourceOutOfRange => !InRange(m.sourceHeight, from)
    case NoApiStatus => m.layerZeroApiStatus.None? || AllBlank(m.layerZeroApiStatus.value)
    case NotShownDelivered =>
      delivered && (m.destinationTransaction == None || m.destinationTransaction == Some("")
                    || m.destinationHeight == None || m.destinationBlockHash == None)
    case DestinationOutOfRange => delivered && m.destinationHeight.Some? && !InRange(m.destinationHeight.value, to)
    case BadDestinationBlock =>
      delivered && m.destinationBlockHash.Some? && BadBlock(m.destinationBlockHash.value, to)
    case DeliveryNotCorroborated =>
      delivered && m.layerZeroApiStatus.Some? && !SaysDelivered(m.layerZeroApiStatus.value)
      && !SaysConfirming(m.layerZeroApiStatus.value)
    case ClaimsDestination =>
      !delivered
      && (m.destinationTransaction.Some? || m.destinationHeight.Some? || m.destinationBlockHash.Some?)
    case ApiClaimsDelivery =>
      !delivered && m.layerZeroApiStatus.Some? && SaysDelivered(m.layerZeroApiStatus.value)
  }

  ghost predicate Flawless(m: Message, ids: Identities, r: Ranges) {
    forall d :: !HasDefect(m, ids, r, d)
  }

  lemma PositiveMeaning(s: string)
    ensures Positive(s) <==> !NotPositive(s)
  {
    if s != "" && AllDigits(s) {
      assert Reads(s, DigitsValue(s));
    }
  }

  /** A 32-byte hash is not blank. */
  lemma HashNotBlank(s: string)
    ensures Hash(s) ==> !AllBlank(s)
  {
    if Hash(s) {
      assert !IsBlank(s[0]);
    }
  }

  lemma SideNames(m: Message, ids: Identities, r: Ranges)
    ensures var (from, to) := (SourceSide(m.direction, ids, r), DestinationSide(m.direction, ids, r));
      SourceSideOk(m, ids, r)
      <==> && Hash(m.guid) && !NotPositive(m.sourceNonce) && !NotPositive(m.amountRaw)
           && !AllBlank(m.sourceTransaction) && !BadBlock(m.sourceBlockHash, from)
           && !AllBlank(m.sourceOft) && !AllBlank(m.destinationOft) && !AllBlank(m.receiver)
           && 0 <= m.sourceEventIndex <= 9_007_199_254_740_991
           && Names(m.sourceOft, from) && Names(m.destinationOft, to) && InRange(m.sourceHeight, from)
  {
    var (from, to) := (SourceSide(m.direction, ids, r), DestinationSide(m.direction, ids, r));
    HashMeaning(m.guid);
    HashMeaning(m.sourceBlockHash);
    HashNotBlank(m.sourceBlockHash);
    PositiveMeaning(m.sourceNonce);
    PositiveMeaning(m.amountRaw);
    NamesMeaning(m.sourceOft, from);
    NamesMeaning(m.destinationOft, to);
    RangeMeaning(m.sourceHeight, from);
  }

  /** Every part of the destination evidence is there and in order. */
  ghost predicate Shown(m: Message, to: Side, api: string) {
    && m.destinationTransaction.Some? && m.destinationTransaction.value != ""
    && m.destinationHeight.Some? && InRange(m.destinationHeight.value, to)
    && m.destinationBlockHash.Some? && !BadBlock(m.destinationBlockHash.value, to)
    && (SaysDelivered(api) || SaysConfirming(api))
  }

  lemma ShownMeaning(m: Message, ids: Identities, r: Ranges, api: string)
    ensures DeliveredOk(m, r, api) <==> Shown(m, DestinationSide(m.direction, ids, r), api)
  {
    ApiMeaning(api);
    if m.destinationHeight.Some? && m.destinationBlockHash.Some? {
      RangeMeaning(m.destinationHeight.value, DestinationSide(m.direction, ids, r));
      HashMeaning(m.destinationBlockHash.value);
      HashNotBlank(m.destinationBlockHash.value);
    }
  }

  lemma DeliveryShown(m: Message, ids: Identities, r: Ranges, api: string)
    requires m.status == Delivered && m.layerZeroApiStatus == Some(api)
    ensures DeliveredOk(m, r, api)
            <==> && !HasDefect(m, ids, r, NotShownDelivered) && !HasDefect(m, ids, r, DestinationOutOfRange)
                 && !HasDefect(m, ids, r, BadDestinationBlock) && !HasDefect(m, ids, r, DeliveryNotCorroborated)
  {
    ShownMeaning(m, ids, r, api);
  }

  lemma OpenShown(m: Message, ids: Identities, r: Ranges, api: string)
    requires m.status != Delivered && m.layerZeroApiStatus == Some(api)
    ensures UndeliveredOk(m, api)
            <==> !HasDefect(m, ids, r, ClaimsDestination) && !HasDefect(m, ids, r, ApiClaimsDelivery)
  {
    ApiMeaning(api);
  }

  lemma DefectRejects(m: Message, ids: Identities, r: Ranges, d: MessageDefect)
    requires MessageOk(m, ids, r)
    ensures !HasDefect(m, ids, r, d)
  {
    SideNames(m, ids, r);
    if m.status == Delivered {
      DeliveryShown(m, ids, r, m.layerZeroApiStatus.value);
    } else {
      OpenShown(m, ids, r, m.layerZeroApiStatus.value);
    }
  }

  lemma TextsFlawless(m: Message, ids: Identities, r: Ranges)
    requires Flawless(m, ids, r)
    ensures Hash(m.guid) && !NotPositive(m.sourceNonce) && !NotPositive(m.amountRaw)
    ensures !AllBlank(m.sourceTransaction) && !BadBlock(m.sourceBlockHash, SourceSide(m.direction, ids, r))
    ensures !AllBlank(m.sourceOft) && !AllBlank(m.destinationOft) && !AllBlank(m.receiver)
  {
    assert !HasDefect(m, ids, r, BadGuid);
    assert !HasDefect(m, ids, r, NonceNotPositive);
    assert !HasDefect(m, ids, r, AmountNotPositive);
    assert !HasDefect(m, ids, r, NoSourceTransaction);
    assert !HasDefect(m, ids, r, BadSourceBlock);
    assert !HasDefect(m, ids, r, BlankName);
  }

  lemma PlacesFlawless(m: Message, ids: Identities, r: Ranges)
    requires Flawless(m, ids, r)
    ensures 0 <= m.sourceEventIndex <= 9_007_199_254_740_991
    ensures Names(m.sourceOft, SourceSide(m.direction, ids, r))
    ensures Names(m.destinationOft, DestinationSide(m.direction, ids, r))
    ensures InRange(m.sourceHeight, SourceSide(m.direction, ids, r))
    ensures m.layerZeroApiStatus.Some? && !AllBlank(m.layerZeroApiStatus.value)
  {
    assert !HasDefect(m, ids, r, BadEventIndex);
    assert !HasDefect(m, ids, r, WrongSource);
    assert !HasDefect(m, ids, r, WrongDestination);
    assert !HasDefect(m, ids, r, SourceOutOfRange);
    assert !HasDefect(m, ids, r, NoApiStatus);
  }

  lemma SourceFlawless(m: Message, ids: Identities, r: Ranges)
    requires Flawless(m, ids, r)
    ensures SourceSideOk(m, ids, r) && PresentNonblank(m.layerZeroApiStatus)
  {
    SideNames(m, ids, r);
    TextsFlawless(m, ids, r);
    PlacesFlawless(m, ids, r);
  }

  /** The parser accepts a message exactly when it has none of these defects. */
  lemma MessageRules(m: Message, ids: Identities, r: Ranges)
    ensures MessageOk(m, ids, r) <==> Flawless(m, ids, r)
  {
    if MessageOk(m, ids, r) {
      forall d
        ensures !HasDefect(m, ids, r, d)
      {
        DefectRejects(m, ids, r, d);
      }
    }
    if Flawless(m, ids, r) {
      SourceFlawless(m, ids, r);
      if m.status == Delivered {
        DeliveryShown(m, ids, r, m.layerZeroApiStatus.value);
      } else {
        OpenShown(m, ids, r, m.layerZeroApiStatus.value);
      }
    }
  }

  // ---------- the header ----------

  datatype HeaderDefect =
    | WrongSchema | BlankId | BadTimestamp | WrongScanner | BadCommit | WrongChains
    | SolanaRangeOpen | RobinhoodRangeOpen | IncompleteScan | WrongGenesis | BadRangeHash
    | WrongModel | OneProvider | NoAgreement | ApiDisagrees

  /** The range starts no later than it ends, and ends at the finalized head. */
  ghost predicate ClosedRange(from: string, to: string, finalized: string) {
    exists a: nat, b: nat :: Reads(from, a) && Reads(to, b) && Reads(finalized, b) && a <= b && b > 0
  }

  /** No two different names. */
  predicate AllAlike(names: seq<string>) {
    forall p, q :: p in names && q in names ==> p == q
  }

  ghost predicate HeaderHas(m: Manifest, d: HeaderDefect) {
    var (s, r, p) := (m.ranges.solana, m.ranges.robinhood, m.provenance);
    match d
    case WrongSchema => m.schemaVersion != 2
    case BlankId => AllBlank(m.inventoryId)
    case BadTimestamp => !Timestamp(m.generatedAt)
    case WrongScanner =>
      m.scanner.name != "scanProductionInFlight" || m.scanner.version != "1.0.0"
      || m.scanner.bridgeCodeAuditTarget != "d28762288bb5180ff292f57eef7132191f2037ec"
    case BadCommit => !CommitHash(m.scanner.scannerSourceCommit)
    case WrongChains =>
      m.identities.solana.chain != "solana-mainnet" || m.identities.solana.eid != 30168
      || m.identities.robinhood.chainId != 4663 || m.identities.robinhood.eid != 30416
    case SolanaRangeOpen => !ClosedRange(s.fromSlot, s.toSlot, s.finalizedSlot)
    case RobinhoodRangeOpen => !ClosedRange(r.fromBlock, r.toBlock, r.finalizedBlock)
    case IncompleteScan => !s.complete || !s.paginationComplete || !r.complete || !r.paginationComplete
    case WrongGenesis => s.genesisHash != "5eykt4UsFv8P8NJdTREpY1vzqKqZKvdpKuc147dw2N9d"
    case BadRangeHash =>
      AllBlank(s.startBlockhash) || AllBlank(s.endBlockhash) || !Hash(r.startBlockHash) || !Hash(r.endBlockHash)
    case WrongModel => p.model != "DUAL_RPC_RECONCILED"
    case OneProvider => AllAlike(p.solanaProviders) || AllAlike(p.robinhoodProviders)
    case NoAgreement =>
      !p.sourceEvidenceAgreement || !p.destinationEvidenceAgreement || !p.layerZeroApiCorroborated
    case ApiDisagrees => p.layerZeroApiDisagreements != []
  }

  ghost predicate FlawlessHeader(m: Manifest) {
    forall d :: !HeaderHas(m, d)
  }

  lemma SpanMeaning(from: string, to: string, finalized: string)
    ensures ValidSpan(from, to, finalized) <==> ClosedRange(from, to, finalized)
  {
    if ValidSpan(from, to, finalized) {
      assert Reads(from, DigitsValue(from)) && Reads(to, DigitsValue(to)) && Reads(finalized, DigitsValue(to));
    }
  }

  lemma AlikeMeaning(names: seq<string>)
    ensures Independent(names) <==> !AllAlike(names)
  {
    if Independent(names) {
      var i, j :| 0 <= i < j < |names| && names[i] != names[j];
      assert names[i] in names && names[j] in names;
    }
    if !AllAlike(names) {
      var p, q :| p in names && q in names && p != q;
      var i :| 0 <= i < |names| && names[i] == p;
      var j :| 0 <= j < |names| && names[j] == q;
      if i < j {
        assert names[i] != names[j];
      } else {
        assert names[j] != names[i];
      }
    }
  }

  lemma IdentifiedMeaning(m: Manifest)
    ensures Identified(m)
            <==> && !HeaderHas(m, WrongSchema) && !HeaderHas(m, BlankId) && !HeaderHas(m, BadTimestamp)
                 && !HeaderHas(m, WrongScanner) && !HeaderHas(m, BadCommit) && !HeaderHas(m, WrongChains)
  {
    TimestampMeaning(m.generatedAt);
    CommitMeaning(m.scanner.scannerSourceCommit);
  }

  lemma ScannedMeaning(m: Manifest)
    ensures ValidRange(m.ranges)
            <==> && !HeaderHas(m, SolanaRangeOpen) && !HeaderHas(m, RobinhoodRangeOpen)
                 && !HeaderHas(m, IncompleteScan) && !HeaderHas(m, WrongGenesis) && !HeaderHas(m, BadRangeHash)
  {
    var (s, r) := (m.ranges.solana, m.ranges.robinhood);
    SpanMeaning(s.fromSlot, s.toSlot, s.finalizedSlot);
    SpanMeaning(r.fromBlock, r.toBlock, r.finalizedBlock);
    HashMeaning(r.startBlockHash);
    HashMeaning(r.endBlockHash);
  }

  lemma ProvenanceMeaning(m: Manifest)
    ensures Reconciled(m.provenance)
            <==> && !HeaderHas(m, WrongModel) && !HeaderHas(m, OneProvider) && !HeaderHas(m, NoAgreement)
                 && !HeaderHas(m, ApiDisagrees)
  {
    AlikeMeaning(m.provenance.solanaProviders);
    AlikeMeaning(m.provenance.robinhoodProviders);
  }

  /** The header passes exactly when it has none of these defects. */
  lemma HeaderRules(m: Manifest)
    ensures HeaderOk(m) <==> FlawlessHeader(m)
  {
    IdentifiedMeaning(m);
    ScannedMeaning(m);
    ProvenanceMeaning(m);
    if HeaderOk(m) {
      forall d
        ensures !HeaderHas(m, d)
      {
      }
    }
  }

  // ---------- counts ----------

  function Open(): Message -> bool {
    (m: Message) => m.status != Delivered
  }

  function OpenToward(d: Direction): Message -> bool {
    (m: Message) => m.status != Delivered && m.direction == d
  }

  /** What the amount reads as, if it is a number. */
  function Worth(): Message -> nat {
    (m: Message) => if m.amountRaw != "" && AllDigits(m.amountRaw) then DigitsValue(m.amountRaw) else 0
  }

  lemma {:induction false} CountFilter(ms: seq<Message>)
    ensures SumOf(OpenOne(), ms) == |Filter(Open(), ms)|
    decreases |ms|
  {
    if ms != [] {
      CountFilter(ms[..|ms| - 1]);
    }
  }

  lemma {:induction false} SumFilter(ms: seq<Message>, d: Direction)
    ensures SumOf(OpenIn(d), ms) == SumOf(Worth(), Filter(OpenToward(d), ms))
    decreases |ms|
  {
    if ms != [] {
      var n := |ms| - 1;
      SumFilter(ms[..n], d);
      var kept := Filter(OpenToward(d), ms[..n]);
      SumSnoc(Worth(), kept, ms[n]);
      assert kept + [] == kept;
    }
  }

  /** GUIDs that differ in more than the case of their letters. */
  ghost predicate DifferentGuids(ms: seq<Message>) {
    forall i, j :: 0 <= i < j < |ms| ==> !EqualButCase(ms[i].guid, ms[j].guid)
  }

  lemma GuidsMeaning(ms: seq<Message>)
    ensures DistinctGuids(ms) <==> DifferentGuids(ms)
  {
    forall i, j | 0 <= i < j < |ms|
      ensures Guid(ms[i]) == Guid(ms[j]) <==> EqualButCase(ms[i].guid, ms[j].guid)
    {
      LowerMeaning(ms[i].guid, ms[j].guid);
    }
  }

  /** The summary states how many messages there are, how many are open, and the open amounts of each direction. */
  ghost predicate Summarizes(s: Summary, ms: seq<Message>) {
    && s.resultCount == |ms| && s.unresolvedPacketCount == |Filter(Open(), ms)|
    && Reads(s.solanaToRobinhoodRaw, SumOf(Worth(), Filter(OpenToward(SolanaToRobinhood), ms)))
    && Reads(s.robinhoodToSolanaRaw, SumOf(Worth(), Filter(OpenToward(RobinhoodToSolana), ms)))
  }

  lemma SummaryMeaning(s: Summary, ms: seq<Message>)
    ensures SummaryReconciles(s, ms) <==> Summarizes(s, ms)
  {
    CountFilter(ms);
    SumFilter(ms, SolanaToRobinhood);
    SumFilter(ms, RobinhoodToSolana);
  }

  /**
   A manifest is acceptable exactly when its header and every message are without defect, keys ascend, no GUID repeats
   in any case of its letters, and the summary counts the open messages and adds up their amounts.
   */
  lemma ParserRules(m: Manifest)
    ensures Acceptable(m)
            <==> && FlawlessHeader(m) && (forall x :: x in m.messages ==> Flawless(x, m.identities, m.ranges))
                 && Sorted(Mapped(WithKey, m.messages)) && DifferentGuids(m.messages)
                    && Summarizes(m.summary, m.messages)
  {
    HeaderRules(m);
    GuidsMeaning(m.messages);
    SummaryMeaning(m.summary, m.messages);
    forall x | x in m.messages
      ensures MessageOk(x, m.identities, m.ranges) <==> Flawless(x, m.identities, m.ranges)
    {
      MessageRules(x, m.identities, m.ranges);
    }
  }

  // ---------- the seal ----------

  /** The supplied checksum is a hash, and spells, in either case, the one of the contents. */
  lemma SealMeaning(m: SignedManifest, sha256: string -> string)
    ensures Sealed(m, sha256)
            <==> && Hash(m.manifestChecksum) && |m.manifestChecksum| == 2 + |sha256(ChecksumText(m.unsigned))|
                 && forall i :: 0 <= i < |m.manifestChecksum| ==>
                      LowerChar(m.manifestChecksum[i]) == ("0x" + sha256(ChecksumText(m.unsigned)))[i]
  {
    HashMeaning(m.manifestChecksum);
    var lower := ToLower(m.manifestChecksum);
    if Sealed(m, sha256) {
      assert forall i :: 0 <= i < |lower| ==> lower[i] == LowerChar(m.manifestChecksum[i]);
    }
  }

  /** One checksum seals one manifest, unless the hash collides on the two texts. */
  lemma SealBinds(m: SignedManifest, n: SignedManifest, sha256: string -> string)
    requires var (s, t) := (ChecksumText(m.unsigned), ChecksumText(n.unsigned)); sha256(s) == sha256(t) ==> s == t
    requires Sealed(m, sha256) && Sealed(n, sha256) && m.manifestChecksum == n.manifestChecksum
    ensures m == n
  {
    ChecksumBinds(sha256, m.unsigned, n.unsigned);
  }
}
