/**
 Gross flow over runs of the bridge.  The Solana limiters alone bound only the net movement; together with the
 Robinhood bucket they bound the gross one, because what comes back to Solana was burned on Robinhood.
 */
module GrossFlow {
  import opened Num
  import opened Pathway
  import Text
  import opened Bridge
  import opened Throughput
  import Rh = RobinhoodOft

  // ---------- supply is what was minted less what was burned ----------

  /** From `b` to `c`, supply moved by what was minted less what was burned. */
  predicate SupplyMoved(b: State, c: State) {
    c.rh.supply - b.rh.supply == (Passed(c, true) - Passed(b, true)) - (Passed(c, false) - Passed(b, false))
  }

  lemma RhSendSupply(b: State, st: Step)
    requires Sane(b) && Rh.OftInv(b.rh) && st.RhSend?
    ensures SupplyMoved(b, Next(b, st))
  {
    var c := Next(b, st);
    Rh.SendKeeps(b.rh, st.from, st.amount, st.minAmount);
    if c != b {
      SumsAppend(b.packets, c.packets[|b.packets|], SolanaToRobinhood);
      SumsAppend(b.packets, c.packets[|b.packets|], RobinhoodToSolana);
    }
  }

  lemma RhReceiveSupply(b: State, st: Step)
    requires Sane(b) && Rh.OftInv(b.rh) && st.RhReceive?
    ensures SupplyMoved(b, Next(b, st))
  {
    var i := Pending(b.packets, st.guid, SolanaToRobinhood);
    if i.Some? {
      var p := b.packets[i.value];
      if Rh.Receive(b.rh, Text.PadAddress(p.receiver), p.amountSd).Some? {
        Rh.ReceiveKeeps(b.rh, Text.PadAddress(p.receiver), p.amountSd);
        SumsDeliver(b.packets, i.value, p.amountSd, SolanaToRobinhood);
        SumsDeliver(b.packets, i.value, p.amountSd, RobinhoodToSolana);
      }
    }
  }

  lemma OtherSupply(b: State, st: Step)
    requires Sane(b) && !st.SolSend? && !st.SolReceive? && !st.RhSend? && !st.RhReceive?
    ensures Next(b, st).rh.supply == b.rh.supply && Next(b, st).packets == b.packets
  {
  }

  lemma NextSupply(b: State, st: Step)
    requires Sane(b) && Rh.OftInv(b.rh)
    ensures SupplyMoved(b, Next(b, st))
  {
    if st.SolSend? || st.SolReceive? {
      PacketsMove(b, st);
    } else if st.RhSend? {
      RhSendSupply(b, st);
    } else if st.RhReceive? {
      RhReceiveSupply(b, st);
    } else {
      OtherSupply(b, st);
    }
  }

  lemma {:induction false} RunSupply(b: State, steps: seq<Step>)
    requires Sane(b) && BridgeInv(b)
    ensures SupplyMoved(b, Run(b, steps))
    decreases |steps|
  {
    if steps != [] {
      NextKeeps(b, steps[0]);
      NextSupply(b, steps[0]);
      RunSupply(Next(b, steps[0]), steps[1..]);
    }
  }

  // ---------- principal is what was sent less what came back ----------

  /** Everything ever sent from Solana, and everything ever received there, in shared-decimal units. */
  function Outbound(b: State): nat {
    GrossSent(b.packets, SolanaToRobinhood)
  }

  function Returned(b: State): int {
    GrossSent(b.packets, RobinhoodToSolana) - Undelivered(b.packets, RobinhoodToSolana)
  }

  lemma NextRate(b: State, st: Step)
    requires Sane(b)
    ensures Next(b, st).sol.rate == b.sol.rate
  {
  }

  lemma {:induction false} RunRate(b: State, steps: seq<Step>)
    requires Sane(b)
    ensures Run(b, steps).sol.rate == b.sol.rate
    decreases |steps|
  {
    if steps != [] {
      NextRate(b, steps[0]);
      RunRate(Next(b, steps[0]), steps[1..]);
    }
  }

  predicate PrincipalMoved(b: State, c: State) {
    c.sol.tvl - b.sol.tvl == b.sol.rate * ((Outbound(c) - Outbound(b)) - (Returned(c) - Returned(b)))
  }

  lemma PrincipalFromSupply(b: State, c: State)
    requires b.sol.tvl == b.sol.rate * Liabilities(b) && c.sol.tvl == b.sol.rate * Liabilities(c) && SupplyMoved(b, c)
    ensures PrincipalMoved(b, c)
  {
    ProductSum(b.sol.rate, Liabilities(b), Liabilities(c) - Liabilities(b));
    assert Liabilities(c) - Liabilities(b) == (Outbound(c) - Outbound(b)) - (Returned(c) - Returned(b));
  }

  lemma InvariantTvl(b: State)
    requires BridgeInv(b)
    ensures b.sol.tvl == b.sol.rate * Liabilities(b)
  {
  }

  /** Over every run, recorded principal moves by what was sent less what came back. */
  lemma PrincipalIsNetFlow(b: State, steps: seq<Step>)
    requires Sane(b) && BridgeInv(b)
    ensures PrincipalMoved(b, Run(b, steps))
  {
    RunKeeps(b, steps);
    RunSupply(b, steps);
    RunRate(b, steps);
    InvariantTvl(b);
    InvariantTvl(Run(b, steps));
    PrincipalFromSupply(b, Run(b, steps));
  }

  // ---------- gross bounds ----------

  /** What can come back to Solana between `b` and `c`: what is on its way, and what the bucket lets go. */
  function ReturnCeiling(b: State, c: State): int
    requires b.rh.outbound.refillDuration > 0
  {
    Undelivered(b.packets, RobinhoodToSolana) + b.rh.outbound.capacity
    + ((c.rh.clock - b.rh.clock) * b.rh.outbound.refillAmount) / b.rh.outbound.refillDuration
  }

  ghost predicate ReturnBounded(b: State, c: State)
    requires b.rh.outbound.refillDuration > 0
  {
    Returned(c) - Returned(b) <= ReturnCeiling(b, c)
  }

  lemma ReturnFromGross(b: State, c: State)
    requires b.rh.outbound.refillDuration > 0 && GrossBounded(b, c, false)
    ensures ReturnBounded(b, c)
  {
    assert Passed(c, false) - Passed(b, false) >= Returned(c) - Returned(b) - Undelivered(b.packets, RobinhoodToSolana);
  }

  /** While the Robinhood outbound bucket is left alone, gross receives on Solana are bounded. */
  lemma GrossReceiveBound(b: State, steps: seq<Step>)
    requires Sane(b) && BridgeInv(b) && forall i :: 0 <= i < |steps| ==> LeavesBucket(steps[i], false)
    ensures ReturnBounded(b, Run(b, steps))
  {
    RobinhoodGrossBound(b, steps, false);
    ReturnFromGross(b, Run(b, steps));
  }

  /** Gross sends are at most a full limiter, its refill, and what could come back to refill it further. */
  ghost predicate SendBounded(b: State, c: State)
    requires b.rh.outbound.refillDuration > 0 && b.sol.limits.outbound.Some?
  {
    var l := b.sol.limits.outbound.value;
    b.sol.rate * (Outbound(c) - Outbound(b))
    <= l.capacity + (c.sol.clock - b.sol.clock) * l.refillPerSecond + b.sol.rate * ReturnCeiling(b, c)
  }

  lemma SendFromNet(rate: nat, out: int, back: int, ceiling: int, net: int, bound: int)
    requires net == rate * (out - back) && net <= bound && back <= ceiling
    ensures rate * out <= bound + rate * ceiling
  {
    assert rate * (out - back) == rate * out - rate * back;
    MulMono(0, ceiling - back, rate);
    assert rate * ceiling - rate * back == rate * (ceiling - back) >= 0;
  }

  lemma SendFromParts(b: State, c: State)
    requires b.rh.outbound.refillDuration > 0 && b.sol.limits.outbound.Some?
    requires PrincipalMoved(b, c) && GrowthBounded(b.sol, c.sol) && ReturnBounded(b, c)
    ensures SendBounded(b, c)
  {
    var l := b.sol.limits.outbound.value;
    SendFromNet(b.sol.rate, Outbound(c) - Outbound(b), Returned(c) - Returned(b), ReturnCeiling(b, c),
                c.sol.tvl - b.sol.tvl, l.capacity + (c.sol.clock - b.sol.clock) * l.refillPerSecond);
  }

  /**
   Gross sends over every interleaving.  The limiter pair alone bounds none; but a round trip needs a burn on
   Robinhood, so while the Solana outbound limiter and the Robinhood outbound bucket stand as configured, everything
   sent from Solana is within one bound.
   */
  lemma GrossSendBound(b: State, steps: seq<Step>)
    requires Sane(b) && BridgeInv(b) && b.sol.limits.outbound.Some?
    requires forall i :: 0 <= i < |steps| ==> LeavesOutboundLimit(steps[i]) && LeavesBucket(steps[i], false)
    ensures SendBounded(b, Run(b, steps))
  {
    PrincipalIsNetFlow(b, steps);
    PrincipalGrowthBound(b, steps);
    GrossReceiveBound(b, steps);
    SendFromParts(b, Run(b, steps));
  }
}
