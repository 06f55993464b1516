/**
 When a send goes on record and when a packet is delivered, and what exactly either writes.
 */
module PacketLog {
  import opened Num
  import opened Text
  import opened Pathway
  import opened FeeMath
  import opened TokenLedger
  import opened SolanaRateLimiter
  import opened SanOftBucket
  import opened Bridge
  import Sol = SolanaAdapter
  import Rh = RobinhoodOft

  /** The outbound or inbound limiter, if there is one, holds this much. */
  predicate LimiterAllows(l: Option<Limiter>, amount: nat, now: u64) {
    l.Some? ==>
      && amount <= l.value.capacity
      && amount <= l.value.tokens + (if now > l.value.lastRefillTime
                                     then (now - l.value.lastRefillTime) * l.value.refillPerSecond else 0)
  }

  /** The bucket holds this much: what is there, its fraction and the refill so far pay for it. */
  predicate BucketAllows(b: Bucket, amount: nat, now: nat) {
    && amount <= b.capacity
    && amount * b.refillDuration
       <= b.available * b.refillDuration + b.remainder
          + (if now > b.lastUpdated then (now - b.lastUpdated) * b.refillAmount else 0)
  }

  lemma LevelAllows(l: Option<Limiter>, amount: u64, now: u64)
    ensures (l.Some? ==> amount <= Level(l.value, 0, now)) <==> LimiterAllows(l, amount, now)
  {
    if l.Some? {
      ConsumableExactly(l.value, amount, now);
    }
  }

  // ---------- sends ----------

  /** Enough arrives, the limiter allows it, the source holds it, and neither GUID nor recipient stands in the way. */
  ghost predicate SolanaSendable(b: State, guid: string, source: Key, receiver: string, minAmount: nat, a: Amounts) {
    && !b.sol.paused && source != Sol.ESCROW && source in b.sol.ledger.accounts
    && minAmount <= a.received && a.sent <= b.sol.ledger.accounts[source]
    && LimiterAllows(b.sol.limits.outbound, a.received, b.sol.clock)
    && IsBytes32(guid) && IsBytes32(receiver) && forall i :: 0 <= i < |b.packets| ==> b.packets[i].guid != guid
  }

  /** One new packet at the end of the record, on its way. */
  predicate Appended(before: seq<Packet>, after: seq<Packet>, guid: string, d: Direction, receiver: string,
                     sentLd: nat, rate: nat)
  {
    && |after| == |before| + 1 && after[..|before|] == before
    && var p := after[|before|];
    && p.guid == guid && p.direction == d && p.receiver == receiver && !p.delivered && p.creditedLd == 0
    && p.sentLd == sentLd && (d == SolanaToRobinhood ==> p.amountSd * rate == sentLd)
    && (d == RobinhoodToSolana ==> p.amountSd == sentLd)
  }

  /** A send from Solana goes on record exactly then, with what is received; otherwise nothing changes anywhere. */
  lemma SolanaSendRecords(b: State, st: Step)
    requires Sane(b) && BridgeInv(b) && st.SolSend?
    ensures ComputeFeeAndAdjustAmount(st.amountLd, Sol.Fees(b.sol), b.sol.mintFee).Some?
    ensures var a := ComputeFeeAndAdjustAmount(st.amountLd, Sol.Fees(b.sol), b.sol.mintFee).value;
      var c := Next(b, st);
      if SolanaSendable(b, st.guid, st.source, st.receiver, st.minAmountLd, a) then
        && Appended(b.packets, c.packets, st.guid, SolanaToRobinhood, st.receiver, a.received, b.sol.rate)
        && c.rh == b.rh && c.sol.tvl == b.sol.tvl + a.received && c.books == b.books.(fees := b.books.fees + a.fee)
        && Some(c.sol.limits) == AfterSend(b.sol.limits, a.received, b.sol.clock)
      else c == b
  {
    Sol.SendEnabled(b.sol, st.source, st.amountLd, st.minAmountLd);
    var a := ComputeFeeAndAdjustAmount(st.amountLd, Sol.Fees(b.sol), b.sol.mintFee).value;
    LevelAllows(b.sol.limits.outbound, a.received, b.sol.clock);
    Sol.SendKeeps(b.sol, st.source, st.amountLd, st.minAmountLd);
  }

  ghost predicate RobinhoodSendable(b: State, guid: string, from: Key, receiver: string, amount: nat, minAmount: nat) {
    && !b.rh.paused && minAmount <= amount <= BalanceOf(b.rh.balances, from)
    && BucketAllows(b.rh.outbound, amount, b.rh.clock)
    && IsBytes32(guid) && IsBytes32(receiver) && forall i :: 0 <= i < |b.packets| ==> b.packets[i].guid != guid
  }

  lemma SendableOnRobinhood(s: Rh.OftState, from: Key, amount: nat, minAmount: nat)
    requires Rh.OftInv(s)
    ensures Rh.Send(s, from, amount, minAmount).Some?
            <==> !s.paused && minAmount <= amount <= BalanceOf(s.balances, from)
                 && BucketAllows(s.outbound, amount, s.clock)
    ensures Rh.Send(s, from, amount, minAmount).Some? ==>
              var s' := Rh.Send(s, from, amount, minAmount).value;
              Some(s'.outbound) == Drawn(s.outbound, amount, s.clock) && s'.inbound == s.inbound
  {
    Rh.SendKeeps(s, from, amount, minAmount);
    DrawableExactly(s.outbound, amount, s.clock);
  }

  /** A send from Robinhood goes on record exactly then; otherwise nothing changes anywhere. */
  lemma RobinhoodSendRecords(b: State, st: Step)
    requires Sane(b) && BridgeInv(b) && st.RhSend?
    ensures var c := Next(b, st);
      if RobinhoodSendable(b, st.guid, st.from, st.receiver, st.amount, st.minAmount) then
        && Appended(b.packets, c.packets, st.guid, RobinhoodToSolana, st.receiver, st.amount, b.sol.rate)
        && c.sol == b.sol && c.books == b.books && c.rh.supply == b.rh.supply - st.amount
        && Some(c.rh.outbound) == Drawn(b.rh.outbound, st.amount, b.rh.clock) && c.rh.inbound == b.rh.inbound
      else c == b
  {
    SendableOnRobinhood(b.rh, st.from, st.amount, st.minAmount);
    Rh.SendKeeps(b.rh, st.from, st.amount, st.minAmount);
  }

  // ---------- deliveries ----------

  /** The packet of this GUID is the one pending. */
  lemma PendingIs(b: State, i: nat)
    requires PacketsOk(b.packets, b.sol.rate) && i < |b.packets| && !b.packets[i].delivered
    ensures Pending(b.packets, b.packets[i].guid, b.packets[i].direction) == Some(i)
  {
  }

  /** An undelivered packet is delivered on Robinhood exactly when it is unpaused and the inbound bucket allows it. */
  lemma RobinhoodDeliversExactly(b: State, i: nat)
    requires Sane(b) && BridgeInv(b) && i < |b.packets|
    requires !b.packets[i].delivered && b.packets[i].direction == SolanaToRobinhood
    ensures var (p, c) := (b.packets[i], Next(b, RhReceive(b.packets[i].guid)));
      if !b.rh.paused && BucketAllows(b.rh.inbound, p.amountSd, b.rh.clock) then
        && c.packets == b.packets[i := p.(delivered := true, creditedLd := p.amountSd)]
        && c.sol == b.sol && c.books == b.books && c.rh.supply == b.rh.supply + p.amountSd
        && Some(c.rh.inbound) == Drawn(b.rh.inbound, p.amountSd, b.rh.clock) && c.rh.outbound == b.rh.outbound
      else c == b
  {
    PendingIs(b, i);
    DrawableExactly(b.rh.inbound, b.packets[i].amountSd, b.rh.clock);
  }

  lemma ReceivableOnSolana(s: Sol.AdapterState, to: Key, amountSd: nat)
    requires Sol.AdapterInv(s) && to != Sol.ESCROW && amountSd * s.rate <= s.tvl
    ensures Sol.Receive(s, to, amountSd).Some?
            <==> !s.paused && LimiterAllows(s.limits.inbound, amountSd * s.rate, s.clock)
  {
    Sol.ReceiveEnabled(s, to, amountSd);
    LevelAllows(s.limits.inbound, amountSd * s.rate, s.clock);
  }

  /**
   An undelivered packet is delivered on Solana exactly when it is unpaused and the inbound limiter allows it:
   principal always covers it.
   */
  lemma SolanaDeliversExactly(b: State, i: nat)
    requires Sane(b) && BridgeInv(b) && i < |b.packets|
    requires !b.packets[i].delivered && b.packets[i].direction == RobinhoodToSolana
    ensures var (p, c) := (b.packets[i], Next(b, SolReceive(b.packets[i].guid)));
      var ld := p.amountSd * b.sol.rate;
      && ld <= b.sol.tvl
      && if !b.sol.paused && LimiterAllows(b.sol.limits.inbound, ld, b.sol.clock) then
           && c.packets == b.packets[i := p.(delivered := true,
                                             creditedLd := GetPostFeeAmount(b.sol.mintFee, ld))]
           && c.rh == b.rh && c.books == b.books && c.sol.tvl == b.sol.tvl - ld
           && Some(c.sol.limits) == AfterReceive(b.sol.limits, ld, b.sol.clock)
         else c == b
  {
    var p := b.packets[i];
    PendingIs(b, i);
    assert PacketOk(p, b.sol.rate);
    ReceiverIsNotEscrow(p);
    PacketAtMostUndelivered(b.packets, i);
    MulMono(p.amountSd, Undelivered(b.packets, RobinhoodToSolana), b.sol.rate);
    LiabilitiesCovered(b);
    ReceivableOnSolana(b.sol, p.receiver, p.amountSd);
  }

  /** A receive without an undelivered packet of its GUID toward its chain changes nothing. */
  lemma NothingPending(b: State, st: Step)
    requires Sane(b) && (st.SolReceive? || st.RhReceive?)
    requires var d := if st.SolReceive? then RobinhoodToSolana else SolanaToRobinhood;
      forall i :: 0 <= i < |b.packets| && b.packets[i].guid == st.guid && b.packets[i].direction == d ==>
            b.packets[i].delivered
    ensures Next(b, st) == b
  {
  }
}
