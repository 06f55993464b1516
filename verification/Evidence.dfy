/**
 Message evidence (scripts/inFlightInventory.ts, scripts/scanProductionInFlight.ts): its JSON form, its canonical
 order, and the comparison of two providers.
 */
module Evidence {
  import opened Num
  import opened Text
  import opened Pathway
  import opened Lists
  import opened Sorting
  import opened Json

  datatype PacketStatus = InFlight | Delivered | Failed | Blocked | Unresolved

  datatype Message = Message(
    guid: string,
    direction: Direction,
    sourceNonce: string,
    sourceTransaction: string,
    sourceHeight: string,
    sourceBlockHash: string,
    sourceEventIndex: int,
    sourceOft: string,
    destinationOft: string,
    amountRaw: string,
    receiver: string,
    status: PacketStatus,
    destinationTransaction: Option<string>,
    destinationHeight: Option<string>,
    destinationBlockHash: Option<string>,
    layerZeroApiStatus: Option<string>)

  datatype SolanaRange = SolanaRange(
    fromSlot: string, toSlot: string, finalizedSlot: string, genesisHash: string, startBlockhash: string,
    endBlockhash: string, complete: bool, paginationComplete: bool)

  datatype RobinhoodRange = RobinhoodRange(
    fromBlock: string, toBlock: string, finalizedBlock: string, startBlockHash: string, endBlockHash: string,
    complete: bool, paginationComplete: bool)

  datatype Ranges = Ranges(solana: SolanaRange, robinhood: RobinhoodRange)

  datatype ProviderResult = ProviderResult(ranges: Ranges, sources: seq<Message>, destinations: seq<Message>)

  // ---------- canonical order ----------

  function KeyPrefix(m: Message): string {
    DirectionName(m.direction) + ":" + PadStart(m.sourceHeight, 24, '0') + ":" + m.sourceTransaction + ":"
    + IntToString(m.sourceEventIndex) + ":"
  }

  function SortKey(m: Message): string {
    KeyPrefix(m) + m.guid
  }

  function WithKey(m: Message): Keyed<Message> {
    Keyed(SortKey(m), m)
  }

  function SortMessages(ms: seq<Message>): (r: seq<Message>)
    ensures |r| == |ms|
  {
    Mapped((k: Keyed<Message>) => k.item, Sort(Mapped(WithKey, ms)))
  }

  ghost predicate DistinctSortKeys(ms: seq<Message>) {
    forall i, j :: 0 <= i < j < |ms| ==> SortKey(ms[i]) != SortKey(ms[j])
  }

  /** Sorting messages rearranges them. */
  lemma SortMessagesPermutes(ms: seq<Message>)
    ensures multiset(SortMessages(ms)) == multiset(ms)
  {
    var item := (k: Keyed<Message>) => k.item;
    MappedMultiset(item, Sort(Mapped(WithKey, ms)), Mapped(WithKey, ms));
    assert Mapped(item, Mapped(WithKey, ms)) == ms;
  }

  /**
   With distinct sort keys, the canonical arrangements of two lists agree exactly when they hold the same messages.
   */
  lemma SortMessagesIdentifies(ms: seq<Message>, ns: seq<Message>)
    requires DistinctSortKeys(ms)
    ensures SortMessages(ms) == SortMessages(ns) <==> multiset(ms) == multiset(ns)
  {
    SortMessagesPermutes(ms);
    SortMessagesPermutes(ns);
    if multiset(ms) == multiset(ns) {
      MappedMultiset(WithKey, ms, ns);
      SortIdentifiesMultisets(Mapped(WithKey, ms), Mapped(WithKey, ns));
    }
  }

  // ---------- JSON ----------

  function Fields(keys: seq<string>, values: seq<Json>): (r: seq<Keyed<Json>>)
    requires |keys| == |values|
    ensures |r| == |keys|
    ensures forall i :: 0 <= i < |keys| ==> r[i] == Keyed(keys[i], values[i])
  {
    if keys == [] then [] else [Keyed(keys[0], values[0])] + Fields(keys[1..], values[1..])
  }

  function Record(keys: seq<string>, values: seq<Json>): (r: Json)
    requires |keys| == |values|
  {
    Obj(Fields(keys, values))
  }

  predicate NoRepeats(keys: seq<string>) {
    forall i, j :: 0 <= i < j < |keys| ==> keys[i] != keys[j]
  }

  /** Records over the same keys are equal up to order exactly when their values are, one by one. */
  lemma RecordsSame(keys: seq<string>, v: seq<Json>, w: seq<Json>)
    requires |keys| == |v| == |w| && NoRepeats(keys)
    ensures SameJson(Record(keys, v), Record(keys, w)) <==> forall i :: 0 <= i < |keys| ==> SameJson(v[i], w[i])
  {
    var f, g := Fields(keys, v), Fields(keys, w);
    if SameJson(Record(keys, v), Record(keys, w)) {
      forall i | 0 <= i < |keys|
        ensures SameJson(v[i], w[i])
      {
        assert HasField(f[i], g);
        var j :| 0 <= j < |g| && f[i].key == g[j].key && SameJson(f[i].item, g[j].item);
        assert keys[i] == keys[j];
      }
    }
    if forall i :: 0 <= i < |keys| ==> SameJson(v[i], w[i]) {
      forall i | 0 <= i < |f|
        ensures HasField(f[i], g)
      {
        assert SameJson(f[i].item, g[i].item);
      }
    }
  }

  function StatusName(s: PacketStatus): string {
    match s
    case InFlight => "in_flight"
    case Delivered => "delivered"
    case Failed => "failed"
    case Blocked => "blocked"
    case Unresolved => "unresolved"
  }

  lemma StatusNameInjective(s: PacketStatus, t: PacketStatus)
    ensures StatusName(s) == StatusName(t) ==> s == t
  {
    assert StatusName(InFlight)[0] == 'i' && StatusName(Delivered)[0] == 'd' && StatusName(Failed)[0] == 'f'
           && StatusName(Blocked)[0] == 'b' && StatusName(Unresolved)[0] == 'u';
  }

  function Nullable(s: Option<string>): Json {
    if s.None? then Null else Str(s.value)
  }

  const MESSAGE_KEYS := ["guid", "direction", "sourceNonce", "sourceTransaction", "sourceHeight", "sourceBlockHash",
    "sourceEventIndex", "sourceOft", "destinationOft", "amountRaw", "receiver", "status",
    "destinationTransaction", "destinationHeight", "destinationBlockHash", "layerZeroApiStatus"]

  predicate Scalars(v: seq<Json>) {
    forall i :: 0 <= i < |v| ==> !v[i].Arr? && !v[i].Obj?
  }

  function MessageValues(m: Message): (r: seq<Json>)
    ensures |r| == 16 && Scalars(r)
  {
    [Str(m.guid), Str(DirectionName(m.direction)), Str(m.sourceNonce), Str(m.sourceTransaction), Str(m.sourceHeight),
     Str(m.sourceBlockHash), Num(m.sourceEventIndex), Str(m.sourceOft), Str(m.destinationOft), Str(m.amountRaw),
     Str(m.receiver), Str(StatusName(m.status)), Nullable(m.destinationTransaction), Nullable(m.destinationHeight),
     Nullable(m.destinationBlockHash), Nullable(m.layerZeroApiStatus)]
  }

  function MessageJson(m: Message): Json {
    Record(MESSAGE_KEYS, MessageValues(m))
  }

  const SOLANA_RANGE_KEYS := ["fromSlot", "toSlot", "finalizedSlot", "genesisHash", "startBlockhash", "endBlockhash",
    "complete", "paginationComplete"]

  const ROBINHOOD_RANGE_KEYS := ["fromBlock", "toBlock", "finalizedBlock", "startBlockHash", "endBlockHash",
    "complete", "paginationComplete"]

  function SolanaRangeValues(r: SolanaRange): (v: seq<Json>)
    ensures |v| == 8 && Scalars(v)
  {
    [Str(r.fromSlot), Str(r.toSlot), Str(r.finalizedSlot), Str(r.genesisHash), Str(r.startBlockhash),
     Str(r.endBlockhash),
     Bool(r.complete), Bool(r.paginationComplete)]
  }

  function RobinhoodRangeValues(r: RobinhoodRange): (v: seq<Json>)
    ensures |v| == 7 && Scalars(v)
  {
    [Str(r.fromBlock), Str(r.toBlock), Str(r.finalizedBlock), Str(r.startBlockHash), Str(r.endBlockHash),
     Bool(r.complete), Bool(r.paginationComplete)]
  }

  function SolanaRangeJson(r: SolanaRange): Json {
    Record(SOLANA_RANGE_KEYS, SolanaRangeValues(r))
  }

  function RobinhoodRangeJson(r: RobinhoodRange): Json {
    Record(ROBINHOOD_RANGE_KEYS, RobinhoodRangeValues(r))
  }

  const CHAIN_KEYS := ["solana", "robinhood"]

  function RangesJson(r: Ranges): Json {
    Record(CHAIN_KEYS, [SolanaRangeJson(r.solana),
                         RobinhoodRangeJson(r.robinhood)])
  }

  function MessagesJson(ms: seq<Message>): Json {
    Arr(Mapped(MessageJson, ms))
  }

  const PROVIDER_KEYS := ["ranges", "sourceMessages", "destinationMessages"]

  function ProviderJson(r: ProviderResult): Json {
    Record(PROVIDER_KEYS,
           [RangesJson(r.ranges), MessagesJson(SortMessages(r.sources)), MessagesJson(SortMessages(r.destinations))])
  }

  function ProviderComparable(r: ProviderResult): string {
    CanonicalJson(ProviderJson(r))
  }

  lemma MessageKeysDistinct()
    ensures NoRepeats(MESSAGE_KEYS)
  {
    var k := MESSAGE_KEYS;
    assert |k[0]| == 4 && |k[1]| == 9 && |k[2]| == 11 && |k[3]| == 17 && |k[4]| == 12 && |k[5]| == 15 && |k[6]| == 16;
    assert |k[7]| == 9 && |k[8]| == 14 && |k[9]| == 9 && |k[10]| == 8 && |k[11]| == 6 && |k[12]| == 22;
    assert |k[13]| == 17 && |k[14]| == 20 && |k[15]| == 18;
    assert k[1][0] == 'd' && k[7][0] == 's' && k[9][0] == 'a' && k[3][0] == 's' && k[13][0] == 'd';
  }

  lemma RangeKeysDistinct()
    ensures NoRepeats(SOLANA_RANGE_KEYS) && NoRepeats(ROBINHOOD_RANGE_KEYS)
    ensures NoRepeats(CHAIN_KEYS) && NoRepeats(PROVIDER_KEYS)
  {
    var s, r := SOLANA_RANGE_KEYS, ROBINHOOD_RANGE_KEYS;
    assert |s[0]| == 8 && |s[1]| == 6 && |s[2]| == 13 && |s[3]| == 11 && |s[4]| == 14 && |s[5]| == 12 && |s[6]| == 8
           && |s[7]| == 18;
    assert s[0][0] == 'f' && s[6][0] == 'c';
    assert |r[0]| == 9 && |r[1]| == 7 && |r[2]| == 14 && |r[3]| == 14 && |r[4]| == 12 && |r[5]| == 8 && |r[6]| == 18;
    assert r[2][0] == 'f' && r[3][0] == 's';
    var t, p := CHAIN_KEYS, PROVIDER_KEYS;
    assert |t[0]| == 6 && |t[1]| == 9 && |p[0]| == 6 && |p[1]| == 14 && |p[2]| == 19;
  }

  lemma ScalarRecordsSame(keys: seq<string>, v: seq<Json>, w: seq<Json>)
    requires |keys| == |v| == |w| && NoRepeats(keys) && Scalars(v)
    ensures SameJson(Record(keys, v), Record(keys, w)) <==> v == w
  {
    RecordsSame(keys, v, w);
    if forall i :: 0 <= i < |v| ==> SameJson(v[i], w[i]) {
      forall i | 0 <= i < |v|
        ensures v[i] == w[i]
      {
        assert SameJson(v[i], w[i]);
      }
    }
  }

  lemma MessageValuesInjective(m: Message, n: Message)
    ensures MessageValues(m) == MessageValues(n) ==> m == n
  {
    var v, w := MessageValues(m), MessageValues(n);
    if v == w {
      assert v[0] == w[0] && v[1] == w[1] && v[2] == w[2] && v[3] == w[3] && v[4] == w[4] && v[5] == w[5]
             && v[6] == w[6] && v[7] == w[7];
      assert v[8] == w[8] && v[9] == w[9] && v[10] == w[10] && v[11] == w[11] && v[12] == w[12] && v[13] == w[13]
             && v[14] == w[14] && v[15] == w[15];
      DirectionNameInjective(m.direction, n.direction);
      StatusNameInjective(m.status, n.status);
    }
  }

  lemma MessageJsonInjective(m: Message, n: Message)
    ensures SameJson(MessageJson(m), MessageJson(n)) <==> m == n
  {
    MessageKeysDistinct();
    ScalarRecordsSame(MESSAGE_KEYS, MessageValues(m), MessageValues(n));
    MessageValuesInjective(m, n);
  }

  lemma ListsSame<T>(f: T -> Json, xs: seq<T>, ys: seq<T>)
    requires forall x, y :: x in xs && y in ys ==> (SameJson(f(x), f(y)) <==> x == y)
    ensures SameJson(Arr(Mapped(f, xs)), Arr(Mapped(f, ys))) <==> xs == ys
  {
    var v, w := Mapped(f, xs), Mapped(f, ys);
    if SameJson(Arr(v), Arr(w)) {
      forall i | 0 <= i < |xs|
        ensures xs[i] == ys[i]
      {
        assert SameJson(v[i], w[i]);
      }
    }
  }

  lemma MessagesJsonInjective(ms: seq<Message>, ns: seq<Message>)
    ensures SameJson(MessagesJson(ms), MessagesJson(ns)) <==> ms == ns
  {
    forall m, n | m in ms && n in ns
      ensures SameJson(MessageJson(m), MessageJson(n)) <==> m == n
    {
      MessageJsonInjective(m, n);
    }
    ListsSame(MessageJson, ms, ns);
  }

  lemma SolanaValuesInjective(r: SolanaRange, s: SolanaRange)
    ensures SolanaRangeValues(r) == SolanaRangeValues(s) ==> r == s
  {
    var v, w := SolanaRangeValues(r), SolanaRangeValues(s);
    if v == w {
      assert v[0] == w[0] && v[1] == w[1] && v[2] == w[2] && v[3] == w[3] && v[4] == w[4] && v[5] == w[5]
             && v[6] == w[6] && v[7] == w[7];
    }
  }

  lemma SolanaRangeInjective(r: SolanaRange, s: SolanaRange)
    ensures SameJson(SolanaRangeJson(r), SolanaRangeJson(s)) <==> r == s
  {
    RangeKeysDistinct();
    ScalarRecordsSame(SOLANA_RANGE_KEYS, SolanaRangeValues(r), SolanaRangeValues(s));
    SolanaValuesInjective(r, s);
  }

  lemma RobinhoodValuesInjective(r: RobinhoodRange, s: RobinhoodRange)
    ensures RobinhoodRangeValues(r) == RobinhoodRangeValues(s) ==> r == s
  {
    var v, w := RobinhoodRangeValues(r), RobinhoodRangeValues(s);
    if v == w {
      assert v[0] == w[0] && v[1] == w[1] && v[2] == w[2] && v[3] == w[3] && v[4] == w[4] && v[5] == w[5]
             && v[6] == w[6];
    }
  }

  lemma RobinhoodRangeInjective(r: RobinhoodRange, s: RobinhoodRange)
    ensures SameJson(RobinhoodRangeJson(r), RobinhoodRangeJson(s)) <==> r == s
  {
    RangeKeysDistinct();
    ScalarRecordsSame(ROBINHOOD_RANGE_KEYS, RobinhoodRangeValues(r), RobinhoodRangeValues(s));
    RobinhoodValuesInjective(r, s);
  }

  lemma RangesJsonInjective(r: Ranges, s: Ranges)
    ensures SameJson(RangesJson(r), RangesJson(s)) <==> r == s
  {
    RangeKeysDistinct();
    var v := [SolanaRangeJson(r.solana), RobinhoodRangeJson(r.robinhood)];
    var w := [SolanaRangeJson(s.solana), RobinhoodRangeJson(s.robinhood)];
    RecordsSame(CHAIN_KEYS, v, w);
    SolanaRangeInjective(r.solana, s.solana);
    RobinhoodRangeInjective(r.robinhood, s.robinhood);
    assert (forall i :: 0 <= i < 2 ==> SameJson(v[i], w[i])) <==> SameJson(v[0], w[0]) && SameJson(v[1], w[1]);
  }

  lemma RecordWellFormed(keys: seq<string>, v: seq<Json>)
    requires |keys| == |v| && NoRepeats(keys) && forall i :: 0 <= i < |v| ==> WellFormed(v[i])
    ensures WellFormed(Record(keys, v))
  {
  }

  lemma ScalarRecordWellFormed(keys: seq<string>, v: seq<Json>)
    requires |keys| == |v| && NoRepeats(keys) && Scalars(v)
    ensures WellFormed(Record(keys, v))
  {
    RecordWellFormed(keys, v);
  }

  lemma RangesWellFormed(r: Ranges)
    ensures WellFormed(RangesJson(r))
  {
    RangeKeysDistinct();
    ScalarRecordWellFormed(SOLANA_RANGE_KEYS, SolanaRangeValues(r.solana));
    ScalarRecordWellFormed(ROBINHOOD_RANGE_KEYS, RobinhoodRangeValues(r.robinhood));
    RecordWellFormed(CHAIN_KEYS, [SolanaRangeJson(r.solana), RobinhoodRangeJson(r.robinhood)]);
  }

  lemma ThreeWellFormed(a: Json, b: Json, c: Json)
    requires WellFormed(a) && WellFormed(b) && WellFormed(c)
    ensures WellFormed(Record(PROVIDER_KEYS, [a, b, c]))
  {
    RangeKeysDistinct();
    RecordWellFormed(PROVIDER_KEYS, [a, b, c]);
  }

  lemma ListWellFormed<T>(f: T -> Json, xs: seq<T>)
    requires forall x :: x in xs ==> WellFormed(f(x))
    ensures WellFormed(Arr(Mapped(f, xs)))
  {
  }

  lemma MessagesWellFormed(ms: seq<Message>)
    ensures WellFormed(MessagesJson(ms))
  {
    forall m | m in ms
      ensures WellFormed(MessageJson(m))
    {
      MessageKeysDistinct();
      ScalarRecordWellFormed(MESSAGE_KEYS, MessageValues(m));
    }
    ListWellFormed(MessageJson, ms);
  }

  lemma ProviderWellFormed(r: ProviderResult)
    ensures WellFormed(ProviderJson(r))
  {
    RangesWellFormed(r.ranges);
    MessagesWellFormed(SortMessages(r.sources));
    MessagesWellFormed(SortMessages(r.destinations));
    ThreeWellFormed(RangesJson(r.ranges), MessagesJson(SortMessages(r.sources)),
                    MessagesJson(SortMessages(r.destinations)));
  }

  lemma ThreeSame(a: Json, b: Json, c: Json, x: Json, y: Json, z: Json)
    ensures SameJson(Record(PROVIDER_KEYS, [a, b, c]), Record(PROVIDER_KEYS, [x, y, z]))
            <==> SameJson(a, x) && SameJson(b, y) && SameJson(c, z)
  {
    RangeKeysDistinct();
    var v, w := [a, b, c], [x, y, z];
    RecordsSame(PROVIDER_KEYS, v, w);
    assert (forall i :: 0 <= i < 3 ==> SameJson(v[i], w[i]))
           <==> SameJson(v[0], w[0]) && SameJson(v[1], w[1]) && SameJson(v[2], w[2]);
  }

  /** Two message lists print alike exactly when they are equal, order included. */
  lemma MessageTextsIdentify(ms: seq<Message>, ns: seq<Message>)
    ensures CanonicalJson(MessagesJson(ms)) == CanonicalJson(MessagesJson(ns)) <==> ms == ns
  {
    MessagesWellFormed(ms);
    MessagesWellFormed(ns);
    CanonicalJsonInjective(MessagesJson(ms), MessagesJson(ns));
    MessagesJsonInjective(ms, ns);
  }

  /** The same ranges, and messages that coincide in canonical order. */
  predicate SameEvidence(a: ProviderResult, b: ProviderResult) {
    && a.ranges == b.ranges && SortMessages(a.sources) == SortMessages(b.sources)
    && SortMessages(a.destinations) == SortMessages(b.destinations)
  }

  lemma ProviderJsonSame(a: ProviderResult, b: ProviderResult)
    ensures SameJson(ProviderJson(a), ProviderJson(b)) <==> SameEvidence(a, b)
  {
    var sa, da := SortMessages(a.sources), SortMessages(a.destinations);
    var sb, db := SortMessages(b.sources), SortMessages(b.destinations);
    ThreeSame(RangesJson(a.ranges), MessagesJson(sa), MessagesJson(da), RangesJson(b.ranges), MessagesJson(sb),
              MessagesJson(db));
    RangesJsonInjective(a.ranges, b.ranges);
    MessagesJsonInjective(sa, sb);
    MessagesJsonInjective(da, db);
  }

  lemma ComparableMeaning(a: ProviderResult, b: ProviderResult)
    ensures ProviderComparable(a) == ProviderComparable(b) <==> SameEvidence(a, b)
  {
    ProviderWellFormed(a);
    ProviderWellFormed(b);
    CanonicalJsonInjective(ProviderJson(a), ProviderJson(b));
    ProviderJsonSame(a, b);
  }

  /** The comparison of two providers as the builder makes it, on their canonical texts. */
  method CompareProviders(a: ProviderResult, b: ProviderResult) returns (same: bool)
    ensures same <==> SameEvidence(a, b)
  {
    ComparableMeaning(a, b);
    same := ProviderComparable(a) == ProviderComparable(b);
  }

  /**
   Given distinct sort keys, two providers compare equal exactly when they report the same ranges and the same
   messages in any order.
   */
  lemma ProvidersAgree(a: ProviderResult, b: ProviderResult)
    requires DistinctSortKeys(a.sources) && DistinctSortKeys(a.destinations)
    ensures ProviderComparable(a) == ProviderComparable(b)
            <==> a.ranges == b.ranges && multiset(a.sources) == multiset(b.sources)
                 && multiset(a.destinations) == multiset(b.destinations)
  {
    ComparableMeaning(a, b);
    SortMessagesIdentifies(a.sources, b.sources);
    SortMessagesIdentifies(a.destinations, b.destinations);
  }

  lemma SameSuffix(a: string, b: string, x: string, y: string)
    requires |x| == |y| && a + x == b + y
    ensures x == y
  {
    assert (a + x)[|a + x| - |x|..] == x && (b + y)[|b + y| - |y|..] == y;
  }

  /** GUIDs end the sort keys, so messages with different GUIDs of one length have different keys. */
  lemma DistinctGuidsDistinctKeys(ms: seq<Message>, width: nat)
    requires forall i :: 0 <= i < |ms| ==> |ms[i].guid| == width
    requires forall i, j :: 0 <= i < j < |ms| ==> ms[i].guid != ms[j].guid
    ensures DistinctSortKeys(ms)
  {
    forall i, j | 0 <= i < j < |ms|
      ensures SortKey(ms[i]) != SortKey(ms[j])
    {
      if SortKey(ms[i]) == SortKey(ms[j]) {
        SameSuffix(KeyPrefix(ms[i]), KeyPrefix(ms[j]), ms[i].guid, ms[j].guid);
      }
    }
  }
}
