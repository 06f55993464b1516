/**
 Where the manifest builder and the manifest parser part: inputs the one accepts and the other rejects.
 `InFlightScan.BuildThenParse` says exactly when; these are the cases, and what one of them means for every later scan.
 */
module BuilderAndParser {
  import opened Num
  import opened Text
  import opened Lists
  import opened Evidence
  import opened InFlightManifest
  import opened InFlightInventory
  import opened InFlightScan
  import opened Bridge
  import opened Reconciliation
  import opened HonestScan

  // ---------- a zero amount, for good ----------

  /** Whatever evidence tells of a zero-amount packet, the parser does not accept it. */
  lemma ZeroAmountNeverPresentable(input: BuildInput, ps: seq<Packet>, j: nat)
    requires LongReceivers(ps) && Exact(input, ps) && j < |ps| && ps[j].sentLd == 0
    ensures !Presentable(input)
  {
    var ss := input.primary.sources;
    var i := SendOfPacket(ss, ps, j);
    BigIntOfNat(0);
    assert !EvidenceOkAt(input, i);
    HoldsBelowMeaning(EvidenceChecker(input), |ss|);
    assert !EvidenceChecker(input)(i);
  }

  /** Every send stays on record; only its delivery may be added. */
  predicate SendsStay(ps: seq<Packet>, qs: seq<Packet>) {
    && |ps| <= |qs|
    && forall i :: 0 <= i < |ps| ==> qs[i] == ps[i].(delivered := qs[i].delivered, creditedLd := qs[i].creditedLd)
  }

  lemma NextKeepsSends(b: State, st: Step)
    requires Sane(b)
    ensures SendsStay(b.packets, Next(b, st).packets)
  {
  }

  lemma {:induction false} RunKeepsSends(b: State, steps: seq<Step>)
    requires Sane(b)
    ensures SendsStay(b.packets, Run(b, steps).packets)
    decreases |steps|
  {
    if steps != [] {
      NextKeepsSends(b, steps[0]);
      RunKeepsSends(Next(b, steps[0]), steps[1..]);
    }
  }

  /** Once a zero-amount packet was sent, no exact evidence of any later state is ever parsed. */
  lemma UnparseableForever(b: State, more: seq<Step>, input: BuildInput, j: nat)
    requires Sane(b) && j < |b.packets| && b.packets[j].sentLd == 0
    requires LongReceivers(Run(b, more).packets) && Exact(input, Run(b, more).packets)
    ensures !Presentable(input) && (Consistent(input) ==> !Acceptable(ManifestOf(input)))
  {
    RunKeepsSends(b, more);
    ZeroAmountNeverPresentable(input, Run(b, more).packets, j);
    if Consistent(input) {
      BuildThenParse(input);
    }
  }

  // ---------- a missing status ----------

  lemma ClaimsAreNonblank(api: Option<string>)
    ensures ClaimsDelivery(api) ==> PresentNonblank(api)
  {
    if ClaimsDelivery(api) {
      assert ToUpper(api.value)[0] == 'D';
      assert !IsBlank(api.value[0]);
    }
  }

  /** An absent or blank API status is never parsed. */
  lemma BlankStatusNeverPresentable(input: BuildInput, i: nat)
    requires i < |input.primary.sources| && !PresentNonblank(ApiStatus(input.statuses, Guid(input.primary.sources[i])))
    ensures !Presentable(input)
  {
    assert !EvidenceOkAt(input, i);
    HoldsBelowMeaning(EvidenceChecker(input), |input.primary.sources|);
    assert !EvidenceChecker(input)(i);
  }

  /** The evidence of one packet, with these API statuses. */
  function OneWith(ids: Identities, p: Packet, statuses: Option<map<string, string>>): BuildInput
    requires |p.receiver| == 66
  {
    HonestInput(ids, [p]).(statuses := statuses)
  }

  lemma OneAccepted(ids: Identities, p: Packet, statuses: Option<map<string, string>>)
    requires PacketsOk([p], 1) && |p.receiver| == 66 && !p.delivered && !ClaimsDelivery(ApiStatus(statuses, p.guid))
    ensures Exact(OneWith(ids, p, statuses), [p]) && Accepts(OneWith(ids, p, statuses))
  {
    var input := OneWith(ids, p, statuses);
    HonestIsExact(ids, [p], 1);
    assert Exact(input, [p]);
    assert Reconcilable(input, [p]);
    ConsistentExactly(input, [p], 1);
  }

  /** An absent or blank API status of a packet in flight: built, but not parsed. */
  lemma BlankStatusUnparseable(ids: Identities, p: Packet, statuses: Option<map<string, string>>)
    requires PacketsOk([p], 1) && |p.receiver| == 66 && !p.delivered && !PresentNonblank(ApiStatus(statuses, p.guid))
    ensures Accepts(OneWith(ids, p, statuses)) && !Acceptable(ManifestOf(OneWith(ids, p, statuses)))
  {
    var input := OneWith(ids, p, statuses);
    ClaimsAreNonblank(ApiStatus(statuses, p.guid));
    OneAccepted(ids, p, statuses);
    assert PacketOk([p][0], 1);
    Bytes32IsLower(p.guid);
    assert Guid(input.primary.sources[0]) == p.guid;
    BlankStatusNeverPresentable(input, 0);
    BuildThenParse(input);
  }

  /** No statuses, none for this packet, and an empty one: all three are built and not parsed. */
  lemma BlankStatuses(ids: Identities, p: Packet)
    requires PacketsOk([p], 1) && |p.receiver| == 66 && !p.delivered
    ensures forall statuses :: statuses in [None, Some(map[]), Some(map[p.guid := ""])] ==>
                Accepts(OneWith(ids, p, statuses)) && !Acceptable(ManifestOf(OneWith(ids, p, statuses)))
  {
    forall statuses | statuses in [None, Some(map[]), Some(map[p.guid := ""])]
      ensures Accepts(OneWith(ids, p, statuses)) && !Acceptable(ManifestOf(OneWith(ids, p, statuses)))
    {
      BlankStatusUnparseable(ids, p, statuses);
    }
  }

  // ---------- a repeated send ----------

  /** Both providers report the send of this packet twice. */
  function Twice(ids: Identities, p: Packet): BuildInput
    requires |p.receiver| == 66
  {
    var one := HonestInput(ids, [p]);
    var seen := one.primary.(sources := one.primary.sources + one.primary.sources);
    one.(primary := seen, secondary := seen)
  }

  lemma TwiceReported(ids: Identities, p: Packet)
    requires |p.receiver| == 66 && !p.delivered
    ensures Twice(ids, p).primary.sources == [SendEvent(ids)(p), SendEvent(ids)(p)]
    ensures Twice(ids, p).primary.destinations == []
  {
    assert ReceiveEvents(ids, [p]) == ReceiveEvents(ids, [p][..0]) + [];
  }

  lemma TwiceStatus(ids: Identities, p: Packet)
    requires PacketsOk([p], 1) && |p.receiver| == 66 && !p.delivered
    ensures ApiStatus(Twice(ids, p).statuses, Guid(SendEvent(ids)(p))) == Some("INFLIGHT")
  {
    assert PacketOk([p][0], 1);
    Bytes32IsLower(p.guid);
    StatusFound([p], 0);
  }

  lemma TwiceAt(ids: Identities, p: Packet, i: nat)
    requires PacketsOk([p], 1) && |p.receiver| == 66 && !p.delivered && i < 2
    ensures var input := Twice(ids, p);
      && |input.primary.sources| == 2 && input.primary.sources[i] == SendEvent(ids)(p)
      && MatchOf(input.primary.sources, input.primary.destinations, i) == None
      && ApiStatus(input.statuses, Guid(input.primary.sources[i])) == Some("INFLIGHT")
  {
    TwiceReported(ids, p);
    TwiceStatus(ids, p);
  }

  /** The event of a packet in flight, unmatched: annotated, readable, and in order when its amount is positive. */
  lemma InFlightEvent(ids: Identities, p: Packet)
    requires IsBytes32(p.guid) && IsBytes32(p.receiver)
    ensures var m := Annotate(SendEvent(ids)(p), None, Some("INFLIGHT")); m.Some? && Readable(m.value)
    ensures NamedOfts(ids) && p.sentLd > 0 ==> EvidenceOk(SendEvent(ids)(p), None, Some("INFLIGHT"), ids, ScanRanges())
  {
    UpperCase();
    BigIntOfNat(p.sentLd);
    BigIntPlain(NatToString(p.sentLd));
    StatusPresent(p.(delivered := false));
    if NamedOfts(ids) {
      SendEventOk(ids, p);
    }
  }

  lemma TwiceAnnotatedAt(ids: Identities, p: Packet, i: nat)
    requires PacketsOk([p], 1) && |p.receiver| == 66 && !p.delivered && i < 2
    ensures |Twice(ids, p).primary.sources| == 2
    ensures AnnotatedAt(Twice(ids, p), i).Some? && Readable(AnnotatedAt(Twice(ids, p), i).value)
  {
    assert PacketOk([p][0], 1);
    TwiceAt(ids, p, i);
    InFlightEvent(ids, p);
    assert AnnotatedAt(Twice(ids, p), i) == Annotate(SendEvent(ids)(p), None, Some("INFLIGHT"));
  }

  lemma TwiceAnnotated(ids: Identities, p: Packet)
    requires PacketsOk([p], 1) && |p.receiver| == 66 && !p.delivered
    ensures MessagesOf(Twice(ids, p)).Some? && AllReadable(MessagesOf(Twice(ids, p)).value)
  {
    TwiceReported(ids, p);
    forall i | 0 <= i < |Twice(ids, p).primary.sources|
      ensures AnnotatedAt(Twice(ids, p), i).Some? && Readable(AnnotatedAt(Twice(ids, p), i).value)
    {
      TwiceAnnotatedAt(ids, p, i);
    }
    AllAnnotatedReadable(Twice(ids, p));
  }

  /** Apart from the repetition this evidence is in order. */
  lemma TwiceInOrder(ids: Identities, p: Packet)
    requires PacketsOk([p], 1) && |p.receiver| == 66 && !p.delivered && NamedOfts(ids) && p.sentLd > 0
    ensures HeaderPresentable(Twice(ids, p)) && EvidenceInOrder(Twice(ids, p))
  {
    var q := EvidenceChecker(Twice(ids, p));
    assert PacketOk([p][0], 1);
    InFlightEvent(ids, p);
    TwiceAt(ids, p, 0);
    TwiceAt(ids, p, 1);
    assert q(0) && q(1);
    HoldsBelowMeaning(q, 2);
    HonestHeader(ids, [p]);
  }

  /** A send reported twice: built, as one transfer more in flight, but not parsed, for the repetition alone. */
  lemma RepeatedSendUnparseable(ids: Identities, p: Packet)
    requires PacketsOk([p], 1) && |p.receiver| == 66 && !p.delivered && NamedOfts(ids) && p.sentLd > 0
    ensures Accepts(Twice(ids, p)) && !Acceptable(ManifestOf(Twice(ids, p)))
    ensures HeaderPresentable(Twice(ids, p)) && EvidenceInOrder(Twice(ids, p))
  {
    var input := Twice(ids, p);
    TwiceReported(ids, p);
    TwiceAnnotated(ids, p);
    TwiceInOrder(ids, p);
    assert Guid(input.primary.sources[0]) == Guid(input.primary.sources[1]);
    BuildThenParse(input);
  }

  // ---------- an amount that is no plain number ----------

  /** Both providers report the amount of this packet in another spelling. */
  function Respelled(ids: Identities, p: Packet, amountRaw: string): BuildInput
    requires |p.receiver| == 66
  {
    var one := HonestInput(ids, [p]);
    var seen := one.primary.(sources := [SendEvent(ids)(p).(amountRaw := amountRaw)]);
    one.(primary := seen, secondary := seen)
  }

  lemma RespelledReported(ids: Identities, p: Packet, amountRaw: string)
    requires PacketsOk([p], 1) && |p.receiver| == 66 && !p.delivered
    ensures var input := Respelled(ids, p, amountRaw);
      && input.primary.sources == [SendEvent(ids)(p).(amountRaw := amountRaw)] && input.primary.destinations == []
      && ApiStatus(input.statuses, Guid(input.primary.sources[0])) == Some("INFLIGHT")
  {
    TwiceReported(ids, p);
    TwiceStatus(ids, p);
  }

  lemma UnmatchedRead(m: Message)
    requires BigIntFrom(m.amountRaw).Some?
    ensures var a := Annotate(m, None, Some("INFLIGHT")); a.Some? && Readable(a.value)
  {
    UpperCase();
  }

  lemma RespelledAnnotated(ids: Identities, p: Packet, amountRaw: string)
    requires PacketsOk([p], 1) && |p.receiver| == 66 && !p.delivered && BigIntFrom(amountRaw).Some?
    ensures |Respelled(ids, p, amountRaw).primary.sources| == 1
    ensures var a := AnnotatedAt(Respelled(ids, p, amountRaw), 0); a.Some? && Readable(a.value)
  {
    var input := Respelled(ids, p, amountRaw);
    RespelledReported(ids, p, amountRaw);
    UnmatchedRead(input.primary.sources[0]);
    assert AnnotatedAt(input, 0) == Annotate(input.primary.sources[0], None, Some("INFLIGHT"));
  }

  lemma RespelledAccepted(ids: Identities, p: Packet, amountRaw: string)
    requires PacketsOk([p], 1) && |p.receiver| == 66 && !p.delivered && BigIntFrom(amountRaw).Some?
    ensures Accepts(Respelled(ids, p, amountRaw))
  {
    RespelledReported(ids, p, amountRaw);
    RespelledAnnotated(ids, p, amountRaw);
    AllAnnotatedReadable(Respelled(ids, p, amountRaw));
  }

  /** Whatever `BigInt` reads but is no plain positive number: built, but not parsed. */
  lemma RespelledUnparseable(ids: Identities, p: Packet, amountRaw: string)
    requires PacketsOk([p], 1) && |p.receiver| == 66 && !p.delivered && BigIntFrom(amountRaw).Some?
             && !Positive(amountRaw)
    ensures Accepts(Respelled(ids, p, amountRaw)) && !Acceptable(ManifestOf(Respelled(ids, p, amountRaw)))
  {
    var input := Respelled(ids, p, amountRaw);
    RespelledReported(ids, p, amountRaw);
    RespelledAccepted(ids, p, amountRaw);
    assert !EvidenceOkAt(input, 0);
    HoldsBelowMeaning(EvidenceChecker(input), 1);
    assert !EvidenceChecker(input)(0);
    BuildThenParse(input);
  }

  /** For instance the empty text, a negative number and hexadecimal. */
  lemma Spellings()
    ensures BigIntFrom("") == Some(0) && BigIntFrom("-1") == Some(-1) && BigIntFrom("0x10") == Some(16)
    ensures !Positive("") && !Positive("-1") && !Positive("0x10")
  {
    assert TrimEnd(TrimStart("-1")) == "-1" && TrimEnd(TrimStart("0x10")) == "0x10";
    assert "-1"[1..] == "1" && DigitsValue("1") == DigitsValue("") * 10 + 1;
    assert "0x10"[2..] == "10" && RadixValue("10", 16) == RadixValue("1", 16) * 16 + 0;
    assert "10"[..1] == "1" && RadixValue("1", 16) == RadixValue("", 16) * 16 + 1;
    assert !IsDigit("0x10"[1]) && !IsDigit("-1"[0]);
  }
}
