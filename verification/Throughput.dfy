/**
 What the rate limiters bound over whole runs of the bridge: the net movement of principal on Solana, and
 the gross burned and minted amounts on Robinhood.
 */
module Throughput {
  import opened Num
  import opened Pathway
  import Text
  import opened TokenLedger
  import opened SolanaRateLimiter
  import opened SanOftBucket
  import opened Bridge
  import Sol = SolanaAdapter
  import Rh = RobinhoodOft

  // ---------- Solana: net movement of tvl ----------

  predicate LeavesOutboundLimit(st: Step) {
    !(st.SolSetPeerConfig? && st.peer.OutboundRateLimit?)
  }

  predicate LeavesInboundLimit(st: Step) {
    !(st.SolSetPeerConfig? && st.peer.InboundRateLimit?)
  }

  function OutboundLevel(s: Sol.AdapterState): nat
    requires s.limits.outbound.Some?
  {
    Level(s.limits.outbound.value, 0, s.clock)
  }

  function InboundLevel(s: Sol.AdapterState): nat
    requires s.limits.inbound.Some?
  {
    Level(s.limits.inbound.value, 0, s.clock)
  }

  lemma LevelGrowth(l: Limiter, now: u64, later: u64)
    requires l.lastRefillTime <= now <= later
    ensures Level(l, 0, later) <= Level(l, 0, now) + (later - now) * l.refillPerSecond
  {
    Distribute(now - l.lastRefillTime, later - now, l.refillPerSecond);
  }

  /** The outbound limiter of `b` is still there in `c`, and its settled level plus tvl grew at most by the refill. */
  ghost predicate OutboundStep(b: Sol.AdapterState, c: Sol.AdapterState)
    requires b.limits.outbound.Some?
  {
    var r := b.limits.outbound.value.refillPerSecond;
    && c.limits.outbound.Some? && c.limits.outbound.value.refillPerSecond == r
    && c.limits.outbound.value.capacity == b.limits.outbound.value.capacity
    && b.clock <= c.clock
    && OutboundLevel(c) + c.tvl <= OutboundLevel(b) + b.tvl + (c.clock - b.clock) * r
  }

  /** The same for the inbound limiter, against the decrease of tvl. */
  ghost predicate InboundStep(b: Sol.AdapterState, c: Sol.AdapterState)
    requires b.limits.inbound.Some?
  {
    var r := b.limits.inbound.value.refillPerSecond;
    && c.limits.inbound.Some? && c.limits.inbound.value.refillPerSecond == r
    && c.limits.inbound.value.capacity == b.limits.inbound.value.capacity
    && b.clock <= c.clock
    && InboundLevel(c) - c.tvl <= InboundLevel(b) - b.tvl + (c.clock - b.clock) * r
  }

  lemma SendMoves(s: Sol.AdapterState, source: Key, amount: u64, minAmount: u64)
    requires Sol.AdapterInv(s)
    ensures Sol.Send(s, source, amount, minAmount).Some? ==>
              var c := Sol.Send(s, source, amount, minAmount).value.state;
              (s.limits.outbound.Some? ==> OutboundStep(s, c)) && (s.limits.inbound.Some? ==> InboundStep(s, c))
  {
    if Sol.Send(s, source, amount, minAmount).Some? {
      var r := Sol.Send(s, source, amount, minAmount).value;
      FlowMovesLevels(s.limits, Outflow(r.amounts.received), s.clock);
    }
  }

  lemma ReceiveMoves(s: Sol.AdapterState, to: Key, amountSd: nat)
    requires Sol.AdapterInv(s) && Sol.Receive(s, to, amountSd).Some?
    ensures var c := Sol.Receive(s, to, amountSd).value.state;
      (s.limits.outbound.Some? ==> OutboundStep(s, c)) && (s.limits.inbound.Some? ==> InboundStep(s, c))
  {
    FlowMovesLevels(s.limits, Inflow(amountSd * s.rate), s.clock);
  }

  /** A step that leaves limits, clock and tvl alone moves no level. */
  lemma StandingStep(b: Sol.AdapterState, c: Sol.AdapterState)
    requires c.tvl == b.tvl && c.clock == b.clock
    ensures b.limits.outbound.Some? && c.limits.outbound == b.limits.outbound ==> OutboundStep(b, c)
    ensures b.limits.inbound.Some? && c.limits.inbound == b.limits.inbound ==> InboundStep(b, c)
  {
  }

  lemma TickMoves(b: Sol.AdapterState, n: nat)
    requires LimitsCurrent(b.limits, b.clock) && b.clock + n <= U64_MAX
    ensures var c := b.(clock := b.clock + n);
      (b.limits.outbound.Some? ==> OutboundStep(b, c)) && (b.limits.inbound.Some? ==> InboundStep(b, c))
  {
    if b.limits.outbound.Some? {
      LevelGrowth(b.limits.outbound.value, b.clock, b.clock + n);
    }
    if b.limits.inbound.Some? {
      LevelGrowth(b.limits.inbound.value, b.clock, b.clock + n);
    }
  }

  lemma TransferMoves(b: State, st: Step)
    requires Sane(b) && Sol.AdapterInv(b.sol) && (st.SolSend? || st.SolReceive? || st.SolTick?)
    ensures b.sol.limits.outbound.Some? ==> OutboundStep(b.sol, Next(b, st).sol)
    ensures b.sol.limits.inbound.Some? ==> InboundStep(b.sol, Next(b, st).sol)
  {
    StandingStep(b.sol, b.sol);
    if st.SolSend? {
      if Sol.Send(b.sol, st.source, st.amountLd, st.minAmountLd).Some? {
        SendMoves(b.sol, st.source, st.amountLd, st.minAmountLd);
      }
    } else if st.SolReceive? {
      var i := Pending(b.packets, st.guid, RobinhoodToSolana);
      if i.Some? && Sol.Receive(b.sol, b.packets[i.value].receiver, b.packets[i.value].amountSd).Some? {
        ReceiveMoves(b.sol, b.packets[i.value].receiver, b.packets[i.value].amountSd);
      }
    } else if b.sol.clock + st.seconds <= I64_MAX {
      TickMoves(b.sol, st.seconds);
    }
  }

  lemma OtherMoves(b: State, st: Step)
    requires Sane(b) && !st.SolSend? && !st.SolReceive? && !st.SolTick?
    ensures var c := Next(b, st).sol;
      && c.tvl == b.sol.tvl && c.clock == b.sol.clock
      && (LeavesOutboundLimit(st) ==> c.limits.outbound == b.sol.limits.outbound)
      && (LeavesInboundLimit(st) ==> c.limits.inbound == b.sol.limits.inbound)
  {
  }

  lemma NextMoves(b: State, st: Step)
    requires Sane(b) && Sol.AdapterInv(b.sol)
    ensures b.sol.limits.outbound.Some? && LeavesOutboundLimit(st) ==> OutboundStep(b.sol, Next(b, st).sol)
    ensures b.sol.limits.inbound.Some? && LeavesInboundLimit(st) ==> InboundStep(b.sol, Next(b, st).sol)
  {
    if st.SolSend? || st.SolReceive? || st.SolTick? {
      TransferMoves(b, st);
    } else {
      OtherMoves(b, st);
      StandingStep(b.sol, Next(b, st).sol);
    }
  }

  lemma OutboundStepsCompose(a: Sol.AdapterState, b: Sol.AdapterState, c: Sol.AdapterState)
    requires a.limits.outbound.Some? && OutboundStep(a, b) && OutboundStep(b, c)
    ensures OutboundStep(a, c)
  {
    Distribute(b.clock - a.clock, c.clock - b.clock, a.limits.outbound.value.refillPerSecond);
  }

  lemma InboundStepsCompose(a: Sol.AdapterState, b: Sol.AdapterState, c: Sol.AdapterState)
    requires a.limits.inbound.Some? && InboundStep(a, b) && InboundStep(b, c)
    ensures InboundStep(a, c)
  {
    Distribute(b.clock - a.clock, c.clock - b.clock, a.limits.inbound.value.refillPerSecond);
  }

  lemma {:induction false} OutboundRun(b: State, steps: seq<Step>)
    requires Sane(b) && BridgeInv(b) && b.sol.limits.outbound.Some?
    requires forall i :: 0 <= i < |steps| ==> LeavesOutboundLimit(steps[i])
    ensures OutboundStep(b.sol, Run(b, steps).sol)
    decreases |steps|
  {
    if steps == [] {
      StandingStep(b.sol, b.sol);
    } else {
      NextKeeps(b, steps[0]);
      NextMoves(b, steps[0]);
      OutboundRun(Next(b, steps[0]), steps[1..]);
      OutboundStepsCompose(b.sol, Next(b, steps[0]).sol, Run(b, steps).sol);
    }
  }

  lemma {:induction false} InboundRun(b: State, steps: seq<Step>)
    requires Sane(b) && BridgeInv(b) && b.sol.limits.inbound.Some?
    requires forall i :: 0 <= i < |steps| ==> LeavesInboundLimit(steps[i])
    ensures InboundStep(b.sol, Run(b, steps).sol)
    decreases |steps|
  {
    if steps == [] {
      StandingStep(b.sol, b.sol);
    } else {
      NextKeeps(b, steps[0]);
      NextMoves(b, steps[0]);
      InboundRun(Next(b, steps[0]), steps[1..]);
      InboundStepsCompose(b.sol, Next(b, steps[0]).sol, Run(b, steps).sol);
    }
  }

  /** From `b` to `c` principal grew by no more than a full outbound limiter and its refill. */
  ghost predicate GrowthBounded(b: Sol.AdapterState, c: Sol.AdapterState)
    requires b.limits.outbound.Some?
  {
    var l := b.limits.outbound.value;
    c.tvl - b.tvl <= l.capacity + (c.clock - b.clock) * l.refillPerSecond
  }

  ghost predicate ReleaseBounded(b: Sol.AdapterState, c: Sol.AdapterState)
    requires b.limits.inbound.Some?
  {
    var l := b.limits.inbound.value;
    b.tvl - c.tvl <= l.capacity + (c.clock - b.clock) * l.refillPerSecond
  }

  lemma GrowthFromStep(b: Sol.AdapterState, c: Sol.AdapterState)
    requires b.limits.outbound.Some? && OutboundStep(b, c)
    ensures GrowthBounded(b, c)
  {
  }

  lemma ReleaseFromStep(b: Sol.AdapterState, c: Sol.AdapterState)
    requires b.limits.inbound.Some? && InboundStep(b, c)
    ensures ReleaseBounded(b, c)
  {
  }

  /**
   While the outbound limiter is not reconfigured, principal cannot grow by more than its capacity plus its refill
   over the elapsed time, whatever traffic goes back and forth.
   */
  lemma PrincipalGrowthBound(b: State, steps: seq<Step>)
    requires Sane(b) && BridgeInv(b) && b.sol.limits.outbound.Some?
    requires forall i :: 0 <= i < |steps| ==> LeavesOutboundLimit(steps[i])
    ensures GrowthBounded(b.sol, Run(b, steps).sol)
  {
    OutboundRun(b, steps);
    GrowthFromStep(b.sol, Run(b, steps).sol);
  }

  /** While the inbound limiter is not reconfigured, no more principal than this can be released on balance. */
  lemma PrincipalReleaseBound(b: State, steps: seq<Step>)
    requires Sane(b) && BridgeInv(b) && b.sol.limits.inbound.Some?
    requires forall i :: 0 <= i < |steps| ==> LeavesInboundLimit(steps[i])
    ensures ReleaseBounded(b.sol, Run(b, steps).sol)
  {
    InboundRun(b, steps);
    ReleaseFromStep(b.sol, Run(b, steps).sol);
  }

  // ---------- Robinhood: gross burned and minted ----------

  predicate LeavesBucket(st: Step, inboundSide: bool) {
    !(st.RhSetRateLimit? && st.inboundSide == inboundSide)
  }

  function BucketOf(b: State, inboundSide: bool): Bucket {
    if inboundSide then b.rh.inbound else b.rh.outbound
  }

  /** Everything ever minted by deliveries, or ever burned by sends. */
  function Passed(b: State, inboundSide: bool): int {
    if inboundSide then GrossSent(b.packets, SolanaToRobinhood) - Undelivered(b.packets, SolanaToRobinhood)
    else GrossSent(b.packets, RobinhoodToSolana)
  }

  ghost predicate BucketStep(b: State, c: State, inboundSide: bool) {
    var x, y := BucketOf(b, inboundSide), BucketOf(c, inboundSide);
    && y.capacity == x.capacity && y.refillAmount == x.refillAmount && y.refillDuration == x.refillDuration
    && b.rh.clock <= c.rh.clock
    && CreditAt(y, c.rh.clock) + x.refillDuration * (Passed(c, inboundSide) - Passed(b, inboundSide))
       <= CreditAt(x, b.rh.clock) + (c.rh.clock - b.rh.clock) * x.refillAmount
  }

  lemma StandingBucket(b: State, c: State, inboundSide: bool)
    requires BucketOf(c, inboundSide) == BucketOf(b, inboundSide) && c.rh.clock == b.rh.clock
    requires Passed(c, inboundSide) == Passed(b, inboundSide)
    ensures BucketStep(b, c, inboundSide)
  {
  }

  /** Drawing spends exactly its amount of credit. */
  lemma DrawnCredit(x: Bucket, amount: nat, now: nat)
    requires ValidBucket(x) && Drawn(x, amount, now).Some?
    ensures var y := Drawn(x, amount, now).value;
      && y.capacity == x.capacity && y.refillAmount == x.refillAmount && y.refillDuration == x.refillDuration
      && CreditAt(y, now) + x.refillDuration * amount == CreditAt(x, now)
  {
    DrawnIsValid(x, amount, now);
    CreditNow(Drawn(x, amount, now).value);
  }

  lemma DrawnStep(b: State, c: State, inboundSide: bool, amount: nat)
    requires ValidBucket(BucketOf(b, inboundSide))
    requires Drawn(BucketOf(b, inboundSide), amount, b.rh.clock) == Some(BucketOf(c, inboundSide))
    requires c.rh.clock == b.rh.clock && Passed(c, inboundSide) - Passed(b, inboundSide) == amount
    ensures BucketStep(b, c, inboundSide)
  {
    DrawnCredit(BucketOf(b, inboundSide), amount, b.rh.clock);
  }

  lemma TickStep(b: State, c: State, inboundSide: bool)
    requires BucketOf(c, inboundSide) == BucketOf(b, inboundSide) && ValidBucket(BucketOf(b, inboundSide))
    requires c.packets == b.packets && BucketOf(b, inboundSide).lastUpdated <= b.rh.clock <= c.rh.clock
    ensures BucketStep(b, c, inboundSide)
  {
    assert Passed(c, inboundSide) - Passed(b, inboundSide) == 0;
    CreditGrowth(BucketOf(b, inboundSide), b.rh.clock, c.rh.clock - b.rh.clock);
  }

  lemma RhTickMoves(b: State, n: nat, inboundSide: bool)
    requires Rh.OftInv(b.rh) && b.rh.clock + n <= U64_MAX
    ensures BucketStep(b, b.(rh := b.rh.(clock := b.rh.clock + n)), inboundSide)
  {
    TickStep(b, b.(rh := b.rh.(clock := b.rh.clock + n)), inboundSide);
  }

  lemma PacketsMove(b: State, st: Step)
    requires Sane(b) && (st.SolSend? || st.SolReceive?)
    ensures Passed(Next(b, st), true) == Passed(b, true) && Passed(Next(b, st), false) == Passed(b, false)
    ensures Next(b, st).rh == b.rh
  {
    var c := Next(b, st);
    if st.SolSend? && c != b {
      var p := c.packets[|b.packets|];
      SumsAppend(b.packets, p, SolanaToRobinhood);
      SumsAppend(b.packets, p, RobinhoodToSolana);
    }
    if st.SolReceive? {
      var i := Pending(b.packets, st.guid, RobinhoodToSolana);
      if i.Some? {
        var r := Sol.Receive(b.sol, b.packets[i.value].receiver, b.packets[i.value].amountSd);
        if r.Some? {
          SumsDeliver(b.packets, i.value, r.value.creditedLd, SolanaToRobinhood);
          SumsDeliver(b.packets, i.value, r.value.creditedLd, RobinhoodToSolana);
        }
      }
    }
  }

  lemma RhSendMoves(b: State, st: Step, inboundSide: bool)
    requires Sane(b) && Rh.OftInv(b.rh) && st.RhSend?
    ensures BucketStep(b, Next(b, st), inboundSide)
  {
    var c := Next(b, st);
    if c == b {
      StandingBucket(b, b, inboundSide);
    } else {
      var p := c.packets[|b.packets|];
      SumsAppend(b.packets, p, SolanaToRobinhood);
      SumsAppend(b.packets, p, RobinhoodToSolana);
      if inboundSide {
        StandingBucket(b, c, true);
      } else {
        DrawnStep(b, c, false, st.amount);
      }
    }
  }

  lemma RhReceiveMoves(b: State, st: Step, inboundSide: bool)
    requires Sane(b) && Rh.OftInv(b.rh) && st.RhReceive?
    ensures BucketStep(b, Next(b, st), inboundSide)
  {
    var i := Pending(b.packets, st.guid, SolanaToRobinhood);
    if i.None? || Rh.Receive(b.rh, Text.PadAddress(b.packets[i.value].receiver), b.packets[i.value].amountSd).None? {
      StandingBucket(b, b, inboundSide);
    } else {
      var c := Next(b, st);
      var p := b.packets[i.value];
      SumsDeliver(b.packets, i.value, p.amountSd, SolanaToRobinhood);
      SumsDeliver(b.packets, i.value, p.amountSd, RobinhoodToSolana);
      if inboundSide {
        DrawnStep(b, c, true, p.amountSd);
      } else {
        StandingBucket(b, c, false);
      }
    }
  }

  /** Steps that touch neither this bucket, nor the Robinhood clock, nor any packet. */
  lemma OtherMovesBucket(b: State, st: Step, inboundSide: bool)
    requires Sane(b) && LeavesBucket(st, inboundSide)
    requires !st.SolSend? && !st.SolReceive? && !st.RhSend? && !st.RhReceive? && !st.RhTick?
    ensures BucketStep(b, Next(b, st), inboundSide)
  {
    var c := Next(b, st);
    assert c.packets == b.packets && c.rh.clock == b.rh.clock && BucketOf(c, inboundSide) == BucketOf(b, inboundSide);
    StandingBucket(b, c, inboundSide);
  }

  lemma NextMovesBucket(b: State, st: Step, inboundSide: bool)
    requires Sane(b) && Rh.OftInv(b.rh) && LeavesBucket(st, inboundSide)
    ensures BucketStep(b, Next(b, st), inboundSide)
  {
    match st
    case SolSend(_, _, _, _, _) => PacketsMove(b, st); StandingBucket(b, Next(b, st), inboundSide);
    case SolReceive(_) => PacketsMove(b, st); StandingBucket(b, Next(b, st), inboundSide);
    case RhSend(_, _, _, _, _) => RhSendMoves(b, st, inboundSide);
    case RhReceive(_) => RhReceiveMoves(b, st, inboundSide);
    case RhTick(n) =>
      if b.rh.clock + n <= U64_MAX {
        RhTickMoves(b, n, inboundSide);
      } else {
        StandingBucket(b, b, inboundSide);
      }
    case _ => OtherMovesBucket(b, st, inboundSide);
  }

  lemma BucketStepsCompose(a: State, b: State, c: State, inboundSide: bool)
    requires BucketStep(a, b, inboundSide) && BucketStep(b, c, inboundSide)
    ensures BucketStep(a, c, inboundSide)
  {
    var x := BucketOf(a, inboundSide);
    Distribute(b.rh.clock - a.rh.clock, c.rh.clock - b.rh.clock, x.refillAmount);
    ProductSum(x.refillDuration, Passed(b, inboundSide) - Passed(a, inboundSide),
               Passed(c, inboundSide) - Passed(b, inboundSide));
  }

  lemma RunDelta(d: nat, passed: int, level: nat, cap: nat, growth: nat)
    requires d > 0 && level + d * passed <= cap * d + growth
    ensures passed <= cap + growth / d
  {
    FloorAdjoint(growth, d, passed - cap);
    Distribute(passed - cap, cap, d);
  }

  ghost predicate GrossBounded(b: State, c: State, inboundSide: bool)
    requires BucketOf(b, inboundSide).refillDuration > 0
  {
    var x := BucketOf(b, inboundSide);
    && c.rh.clock >= b.rh.clock
    && Passed(c, inboundSide) - Passed(b, inboundSide)
       <= x.capacity + ((c.rh.clock - b.rh.clock) * x.refillAmount) / x.refillDuration
  }

  lemma GrossFromStep(b: State, c: State, inboundSide: bool)
    requires BucketOf(b, inboundSide).refillDuration > 0 && BucketStep(b, c, inboundSide)
    ensures GrossBounded(b, c, inboundSide)
  {
    var x, y := BucketOf(b, inboundSide), BucketOf(c, inboundSide);
    RunDelta(x.refillDuration, Passed(c, inboundSide) - Passed(b, inboundSide), CreditAt(y, c.rh.clock), x.capacity,
             (c.rh.clock - b.rh.clock) * x.refillAmount);
  }

  /**
   Over every interleaving that leaves the bucket's configuration alone, the gross amount minted (or burned) on
   Robinhood is at most the capacity plus the refill of the elapsed time.
   */
  lemma {:induction false} RobinhoodGrossBound(b: State, steps: seq<Step>, inboundSide: bool)
    requires Sane(b) && BridgeInv(b)
    requires forall i :: 0 <= i < |steps| ==> LeavesBucket(steps[i], inboundSide)
    ensures BucketStep(b, Run(b, steps), inboundSide)
    ensures GrossBounded(b, Run(b, steps), inboundSide)
    decreases |steps|
  {
    if steps == [] {
      StandingBucket(b, b, inboundSide);
    } else {
      NextKeeps(b, steps[0]);
      NextMovesBucket(b, steps[0], inboundSide);
      RobinhoodGrossBound(Next(b, steps[0]), steps[1..], inboundSide);
      BucketStepsCompose(b, Next(b, steps[0]), Run(b, steps), inboundSide);
    }
    GrossFromStep(b, Run(b, steps), inboundSide);
  }
}
