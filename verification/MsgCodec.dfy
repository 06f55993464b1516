/** The cross-chain message (programs/oft/src/msg_codec.rs): recipient, shared-decimal amount, optional compose part. */
module MsgCodec {
  import opened Num
  import opened Bytes

  const SEND_TO_OFFSET := 0
  const SEND_AMOUNT_SD_OFFSET := 32
  const COMPOSE_MSG_OFFSET := 40

  function Encoded(sendTo: seq<byte>, amountSd: u64, sender: seq<byte>, composeMsg: Option<seq<byte>>): (r: seq<byte>)
  {
    if composeMsg.Some? then sendTo + ToBe(amountSd, 8) + sender + composeMsg.value else sendTo + ToBe(amountSd, 8)
  }

  method Encode(sendTo: seq<byte>, amountSd: u64, sender: seq<byte>, composeMsg: Option<seq<byte>>)
    returns (encoded: seq<byte>)
    requires |sendTo| == 32 && |sender| == 32
    ensures encoded == Encoded(sendTo, amountSd, sender, composeMsg)
    ensures |encoded| == if composeMsg.Some? then 72 + |composeMsg.value| else 40
  {
    encoded := [];
    encoded := encoded + sendTo;
    encoded := encoded + ToBe(amountSd, 8);
    if composeMsg.Some? {
      encoded := encoded + sender;
      encoded := encoded + composeMsg.value;
    }
  }

  function SendToOf(message: seq<byte>): Option<seq<byte>> {
    Slice(message, SEND_TO_OFFSET, SEND_AMOUNT_SD_OFFSET)
  }

  function AmountSdOf(message: seq<byte>): Option<nat> {
    ReadBe(message, SEND_AMOUNT_SD_OFFSET, COMPOSE_MSG_OFFSET)
  }

  function ComposeMsgOf(message: seq<byte>): Option<seq<byte>> {
    if |message| > COMPOSE_MSG_OFFSET then Some(message[COMPOSE_MSG_OFFSET..]) else None
  }

  method SendTo(message: seq<byte>) returns (r: Option<seq<byte>>)
    ensures r == SendToOf(message)
  {
    r := ReadArray(message, SEND_TO_OFFSET, SEND_AMOUNT_SD_OFFSET);
  }

  method AmountSd(message: seq<byte>) returns (r: Option<nat>)
    ensures r == AmountSdOf(message)
    ensures r.Some? ==> r.value <= U64_MAX
  {
    var bytes := ReadArray(message, SEND_AMOUNT_SD_OFFSET, COMPOSE_MSG_OFFSET);
    if bytes.None? {
      return None;
    }
    ToFromBe(bytes.value);
    Widths();
    return Some(FromBe(bytes.value));
  }

  method ComposeMsg(message: seq<byte>) returns (r: Option<seq<byte>>)
    ensures r == ComposeMsgOf(message)
    ensures r.Some? ==> r.value != [] && message == message[..COMPOSE_MSG_OFFSET] + r.value
    ensures r.None? ==> |message| <= COMPOSE_MSG_OFFSET
  {
    if |message| > COMPOSE_MSG_OFFSET {
      return Some(message[COMPOSE_MSG_OFFSET..]);
    }
    return None;
  }

  /** Where everything is: recipient, amount, and then sender and compose bytes if there are any. */
  lemma Layout(sendTo: seq<byte>, amountSd: u64, sender: seq<byte>, composeMsg: Option<seq<byte>>)
    requires |sendTo| == 32 && |sender| == 32
    ensures var m := Encoded(sendTo, amountSd, sender, composeMsg);
      && |m| >= 40 && m[0..32] == sendTo && FromBe(m[32..40]) == amountSd
      && (composeMsg.None? ==> |m| == 40)
      && (composeMsg.Some? ==> |m| >= 72 && m[40..72] == sender && m[72..] == composeMsg.value)
  {
    var m := Encoded(sendTo, amountSd, sender, composeMsg);
    Widths();
    FromToBe(amountSd, 8);
    assert m[32..40] == ToBe(amountSd, 8);
  }

  /**
   Reading what was encoded: the compose part is the sender followed by the bytes given, and absent iff none were
   given.
   */
  lemma ReadBack(sendTo: seq<byte>, amountSd: u64, sender: seq<byte>, composeMsg: Option<seq<byte>>)
    requires |sendTo| == 32 && |sender| == 32
    ensures var m := Encoded(sendTo, amountSd, sender, composeMsg);
      && SendToOf(m) == Some(sendTo) && AmountSdOf(m) == Some(amountSd)
      && ComposeMsgOf(m) == if composeMsg.Some? then Some(sender + composeMsg.value) else None
  {
    var m := Encoded(sendTo, amountSd, sender, composeMsg);
    Widths();
    FromToBe(amountSd, 8);
    assert m[0..32] == sendTo;
    assert m[32..40] == ToBe(amountSd, 8);
    if composeMsg.Some? {
      assert m[40..] == sender + composeMsg.value;
    }
  }

  /**
   Every message without compose part, or with one that holds at least a sender, is the encoding of what it reads as.
   */
  lemma EncodeBack(m: seq<byte>)
    requires |m| == 40 || |m| >= 72
    ensures SendToOf(m).Some? && AmountSdOf(m).Some? && AmountSdOf(m).value <= U64_MAX
    ensures |m| == 40 ==> forall sender :: Encoded(SendToOf(m).value, AmountSdOf(m).value, sender, None) == m
    ensures |m| >= 72 ==> Encoded(SendToOf(m).value, AmountSdOf(m).value, m[40..72], Some(m[72..])) == m
  {
    ToFromBe(m[32..40]);
    Widths();
    assert m[0..32] + m[32..40] == m[..40];
    if |m| >= 72 {
      assert m == m[..40] + m[40..72] + m[72..];
    }
  }
}
