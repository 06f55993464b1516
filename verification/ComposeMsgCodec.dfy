/** The message handed to a composed call (programs/oft/src/compose_msg_codec.rs). */
module ComposeMsgCodec {
  import opened Num
  import opened Bytes

  const NONCE_OFFSET := 0
  const SRC_EID_OFFSET := 8
  const AMOUNT_LD_OFFSET := 12
  const COMPOSE_FROM_OFFSET := 20
  const COMPOSE_MSG_OFFSET := 52

  type u32 = x: int | 0 <= x < 0x1_0000_0000

  function Encoded(nonce: u64, srcEid: u32, amountLd: u64, composeMsg: seq<byte>): seq<byte> {
    ToBe(nonce, 8) + ToBe(srcEid, 4) + ToBe(amountLd, 8) + composeMsg
  }

  method Encode(nonce: u64, srcEid: u32, amountLd: u64, composeMsg: seq<byte>) returns (encoded: seq<byte>)
    ensures encoded == Encoded(nonce, srcEid, amountLd, composeMsg)
    ensures |encoded| == 20 + |composeMsg|
  {
    encoded := [];
    encoded := encoded + ToBe(nonce, 8);
    encoded := encoded + ToBe(srcEid, 4);
    encoded := encoded + ToBe(amountLd, 8);
    encoded := encoded + composeMsg;
  }

  function NonceOf(message: seq<byte>): Option<nat> {
    ReadBe(message, NONCE_OFFSET, SRC_EID_OFFSET)
  }

  function SrcEidOf(message: seq<byte>): Option<nat> {
    ReadBe(message, SRC_EID_OFFSET, AMOUNT_LD_OFFSET)
  }

  function AmountLdOf(message: seq<byte>): Option<nat> {
    ReadBe(message, AMOUNT_LD_OFFSET, COMPOSE_FROM_OFFSET)
  }

  function ComposeFromOf(message: seq<byte>): Option<seq<byte>> {
    Slice(message, COMPOSE_FROM_OFFSET, COMPOSE_MSG_OFFSET)
  }

  function ComposeMsgOf(message: seq<byte>): seq<byte> {
    if |message| > COMPOSE_MSG_OFFSET then message[COMPOSE_MSG_OFFSET..] else []
  }

  method Nonce(message: seq<byte>) returns (r: Option<nat>)
    ensures r == NonceOf(message)
  {
    var bytes := ReadArray(message, NONCE_OFFSET, SRC_EID_OFFSET);
    r := if bytes.Some? then Some(FromBe(bytes.value)) else None;
  }

  method SrcEid(message: seq<byte>) returns (r: Option<nat>)
    ensures r == SrcEidOf(message)
  {
    var bytes := ReadArray(message, SRC_EID_OFFSET, AMOUNT_LD_OFFSET);
    r := if bytes.Some? then Some(FromBe(bytes.value)) else None;
  }

  method AmountLd(message: seq<byte>) returns (r: Option<nat>)
    ensures r == AmountLdOf(message)
  {
    var bytes := ReadArray(message, AMOUNT_LD_OFFSET, COMPOSE_FROM_OFFSET);
    r := if bytes.Some? then Some(FromBe(bytes.value)) else None;
  }

  method ComposeFrom(message: seq<byte>) returns (r: Option<seq<byte>>)
    ensures r == ComposeFromOf(message)
  {
    r := ReadArray(message, COMPOSE_FROM_OFFSET, COMPOSE_MSG_OFFSET);
  }

  method ComposeMsg(message: seq<byte>) returns (r: seq<byte>)
    ensures r == ComposeMsgOf(message)
    ensures if |message| >= COMPOSE_MSG_OFFSET then message == message[..COMPOSE_MSG_OFFSET] + r else r == []
  {
    if |message| > COMPOSE_MSG_OFFSET {
      return message[COMPOSE_MSG_OFFSET..];
    }
    return [];
  }

  lemma Parts(nonce: u64, srcEid: u32, amountLd: u64, composeMsg: seq<byte>)
    ensures var m := Encoded(nonce, srcEid, amountLd, composeMsg);
      && m[0..8] == ToBe(nonce, 8) && m[8..12] == ToBe(srcEid, 4) && m[12..20] == ToBe(amountLd, 8)
      && m[20..] == composeMsg
  {
  }

  /** All five readers return what was encoded, when the compose part starts with a 32-byte sender. */
  lemma ReadBack(nonce: u64, srcEid: u32, amountLd: u64, from: seq<byte>, composeMsg: seq<byte>)
    requires |from| == 32
    ensures var m := Encoded(nonce, srcEid, amountLd, from + composeMsg);
      && NonceOf(m) == Some(nonce) && SrcEidOf(m) == Some(srcEid) && AmountLdOf(m) == Some(amountLd)
      && ComposeFromOf(m) == Some(from) && ComposeMsgOf(m) == composeMsg
  {
    var m := Encoded(nonce, srcEid, amountLd, from + composeMsg);
    Widths();
    FromToBe(nonce, 8);
    FromToBe(srcEid, 4);
    FromToBe(amountLd, 8);
    Parts(nonce, srcEid, amountLd, from + composeMsg);
    assert m[20..52] == m[20..][..32] == from;
    if |m| > 52 {
      assert m[52..] == m[20..][32..] == composeMsg;
    }
  }
}
