/** From a Solana send to the receiving application: both codecs together with the decimal conversion. */
module Delivery {
  import opened Num
  import opened Bytes
  import opened FeeMath
  import opened TokenLedger
  import opened SolanaAdapter
  import M = MsgCodec
  import C = ComposeMsgCodec

  /** The message `send` hands to the Endpoint. */
  function SentMessage(rate: u64, to: seq<byte>, receivedLd: u64, sender: seq<byte>,
                       composeMsg: Option<seq<byte>>): seq<byte>
    requires rate > 0
  {
    M.Encoded(to, Ld2Sd(rate, receivedLd), sender, composeMsg)
  }

  /** The message `quote_send` quotes for: the amount is in local decimals and the sender is the default key. */
  function QuotedMessage(to: seq<byte>, receivedLd: u64, composeMsg: Option<seq<byte>>): seq<byte> {
    M.Encoded(to, receivedLd, seq(32, _ => 0), composeMsg)
  }

  /** There is a composed call iff compose bytes were given, and all its readers return what was put in. */
  predicate ComposedArrives(composed: Option<seq<byte>>, nonce: u64, srcEid: C.u32, creditedLd: u64,
                            sender: seq<byte>, composeMsg: Option<seq<byte>>) {
    && (composed.Some? <==> composeMsg.Some?)
    && (composed.Some? ==>
          && C.NonceOf(composed.value) == Some(nonce) && C.SrcEidOf(composed.value) == Some(srcEid)
          && C.AmountLdOf(composed.value) == Some(creditedLd) && C.ComposeFromOf(composed.value) == Some(sender)
          && C.ComposeMsgOf(composed.value) == composeMsg.value)
  }

  /**
   A send goes out exactly when it succeeds, the sender account matches and the Endpoint accepts.  The amount it adds
   to recorded principal is the amount its message carries, to the recipient given, and a composed call reads back the
   nonce, source, credited amount, sender and compose bytes; there is one iff compose bytes were given.
   */
  lemma SendArrives(s: AdapterState, source: Key, amount: u64, minAmount: u64, to: seq<byte>, sender: seq<byte>,
                    composeMsg: Option<seq<byte>>, reply: SendReply, nonce: u64, srcEid: C.u32, creditedLd: u64)
    requires AdapterInv(s) && |to| == 32 && |sender| == 32
    ensures var m := SendMessage(s, source, amount, minAmount, to, sender, composeMsg, reply);
      && (m.Some? <==> reply.senderMatches && reply.accepted && Send(s, source, amount, minAmount).Some?)
      && (m.Some? ==>
            && m.value.state == Send(s, source, amount, minAmount).value.state
            && m.value.message == SentMessage(s.rate, to, m.value.amounts.received, sender, composeMsg)
            && M.SendToOf(m.value.message) == Some(to)
            && M.AmountSdOf(m.value.message).Some?
            && Sd2Ld(s.rate, M.AmountSdOf(m.value.message).value) == Some(m.value.state.tvl - s.tvl)
            && ComposedArrives(ComposedMessage(m.value.message, nonce, srcEid, creditedLd), nonce, srcEid, creditedLd,
                               sender, composeMsg))
  {
    if Send(s, source, amount, minAmount).Some? {
      var r := Send(s, source, amount, minAmount).value;
      SendKeeps(s, source, amount, minAmount);
      M.ReadBack(to, r.amountSd, sender, composeMsg);
      if composeMsg.Some? {
        C.ReadBack(nonce, srcEid, creditedLd, sender, composeMsg.value);
      }
    }
  }

  /**
   A received message is taken exactly when it clears, holds 40 bytes, its part beyond them (if any) is accepted as a
   composed call, and its amount, the big-endian number at bytes 32 to 40, can be released.
   */
  lemma ReceiveTakes(s: AdapterState, to: Key, message: seq<byte>, reply: ReceiveReply)
    requires AdapterInv(s)
    ensures ReceiveMessage(s, to, message, reply).Some?
            <==> reply.cleared && |message| >= 40 && (|message| > 40 ==> reply.composeAccepted)
                 && Receive(s, to, FromBe(message[32..40])).Some?
    ensures ReceiveMessage(s, to, message, reply).Some? ==>
              ReceiveMessage(s, to, message, reply) == Receive(s, to, FromBe(message[32..40]))
  {
  }

  lemma QuotientSmaller(a: nat, rate: nat)
    requires rate > 0
    ensures a / rate == a <==> rate == 1 || a == 0
  {
    if a > 0 && rate > 1 {
      DivModUnique(a, rate, a / rate, a % rate);
      MulMono(2, rate, a / rate);
    }
  }

  /**
   A quote is for a message of the same length, recipient and compose bytes as the one sent, but its amount
   field agrees only when the conversion rate is one or the amount is zero.
   */
  lemma QuoteIsForSameLength(rate: u64, to: seq<byte>, receivedLd: u64, sender: seq<byte>,
                             composeMsg: Option<seq<byte>>)
    requires rate > 0 && |to| == 32 && |sender| == 32
    ensures var q, m := QuotedMessage(to, receivedLd, composeMsg),
            SentMessage(rate, to, receivedLd, sender, composeMsg);
      && |q| == |m| && M.SendToOf(q) == M.SendToOf(m)
      && (M.AmountSdOf(q) == M.AmountSdOf(m) <==> rate == 1 || receivedLd == 0)
  {
    M.ReadBack(to, receivedLd, seq(32, _ => 0), composeMsg);
    M.ReadBack(to, Ld2Sd(rate, receivedLd), sender, composeMsg);
    QuotientSmaller(receivedLd, rate);
  }
}
