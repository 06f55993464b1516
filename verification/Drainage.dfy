/**
 Draining the bridge: under a validated plan, a schedule of waits and receives delivers everything in flight.

 The schedule takes two steps per packet; a descent argument over an abstract transition function carries the
 facts about one delivery to the whole schedule.
 */
module Drainage {
  import opened Num
  import opened Pathway
  import opened Bridge
  import opened RateLimitPlan

  /** A validated plan, everything in flight fits it, and both sides run. */
  ghost predicate Ready(s: State, p: Profile) {
    && Sane(s) && BridgeInv(s) && s.sol.rate == 1 && ValidatePlan(PlanOf(s), p) && PacketsFit(s.packets, p.capacity)
    && !s.sol.paused && !s.rh.paused
  }

  /** Waiting and receiving only. */
  predicate Quiet(st: Step) {
    st.SolTick? || st.RhTick? || st.SolReceive? || st.RhReceive?
  }

  /** A run of such steps. */
  predicate AllQuiet(steps: seq<Step>) {
    forall i :: 0 <= i < |steps| ==> Quiet(steps[i])
  }

  lemma QuietSolKeepsPlan(s: State, st: Step, p: Profile)
    requires Sane(s) && (st.SolTick? || st.SolReceive?)
    requires LimiterMatches(s.sol.limits.outbound, p) && LimiterMatches(s.sol.limits.inbound, p)
    ensures var t := Next(s, st);
      && LimiterMatches(t.sol.limits.outbound, p) && LimiterMatches(t.sol.limits.inbound, p)
      && t.sol.paused == s.sol.paused && t.rh == s.rh
  {
  }

  lemma QuietRhKeepsPlan(s: State, st: Step, p: Profile)
    requires Sane(s) && (st.RhTick? || st.RhReceive?)
    requires BucketMatches(s.rh.outbound, p) && BucketMatches(s.rh.inbound, p)
    ensures var t := Next(s, st);
      && BucketMatches(t.rh.outbound, p) && BucketMatches(t.rh.inbound, p)
      && t.rh.paused == s.rh.paused && t.sol == s.sol
  {
  }

  lemma QuietKeepsReady(s: State, st: Step, p: Profile)
    requires Ready(s, p) && Quiet(st)
    ensures Ready(Next(s, st), p)
  {
    ValidatedMeansMatched(s, p);
    NextKeeps(s, st);
    NextFits(s, st, p);
    if st.SolTick? || st.SolReceive? {
      QuietSolKeepsPlan(s, st, p);
    } else {
      QuietRhKeepsPlan(s, st, p);
    }
    ValidatedMeansMatched(Next(s, st), p);
  }

  /** What a wait and a receive change: one packet, and the clocks by no more than the wait. */
  ghost predicate DeliversOnly(s: State, t: State, i: nat, p: Profile)
    requires i < |s.packets| && p.capacity > 0 && p.refillPerSecond > 0
  {
    && |t.packets| == |s.packets| && t.packets[i].delivered
    && (forall j :: 0 <= j < |s.packets| && j != i ==> t.packets[j] == s.packets[j])
    && t.sol.clock <= s.sol.clock + SolanaWait(p) && t.rh.clock <= s.rh.clock + DAY
  }

  function WaitStep(d: Direction, p: Profile): Step
    requires p.capacity > 0 && p.refillPerSecond > 0
  {
    if d == RobinhoodToSolana then SolTick(SolanaWait(p)) else RhTick(DAY)
  }

  function ReceiveStep(d: Direction, guid: string): Step {
    if d == RobinhoodToSolana then SolReceive(guid) else RhReceive(guid)
  }

  lemma WaitChanges(s: State, d: Direction, p: Profile)
    requires Sane(s) && p.capacity > 0 && p.refillPerSecond > 0
    ensures var t := Next(s, WaitStep(d, p));
      t.packets == s.packets && t.sol.clock <= s.sol.clock + SolanaWait(p) && t.rh.clock <= s.rh.clock + DAY
  {
  }

  lemma ReceiveChanges(s: State, d: Direction, i: nat)
    requires Sane(s) && i < |s.packets| && Pending(s.packets, s.packets[i].guid, d) == Some(i)
    ensures var t := Next(s, ReceiveStep(d, s.packets[i].guid));
      && |t.packets| == |s.packets| && t.sol.clock == s.sol.clock && t.rh.clock == s.rh.clock
      && forall j :: 0 <= j < |s.packets| && j != i ==> t.packets[j] == s.packets[j]
  {
  }

  lemma DeliverOne(s: State, p: Profile, i: nat)
    requires Ready(s, p) && p.capacity > 0 && p.refillPerSecond > 0
    requires i < |s.packets| && !s.packets[i].delivered
    requires s.sol.clock + SolanaWait(p) <= I64_MAX && s.rh.clock + DAY <= U64_MAX
    ensures var d := s.packets[i].direction;
      var t := Next(Next(s, WaitStep(d, p)), ReceiveStep(d, s.packets[i].guid));
      Ready(t, p) && DeliversOnly(s, t, i, p)
  {
    var d := s.packets[i].direction;
    var u := Next(s, WaitStep(d, p));
    DeliverableAfterWait(s, p, i);
    QuietKeepsReady(s, WaitStep(d, p), p);
    QuietKeepsReady(u, ReceiveStep(d, s.packets[i].guid), p);
    WaitChanges(s, d, p);
    PendingIsUnique(u.packets, u.sol.rate, i);
    ReceiveChanges(u, d, i);
  }

  predicate DeliveredUpTo(ps: seq<Packet>, n: nat)
    requires n <= |ps|
  {
    forall i :: 0 <= i < n ==> ps[i].delivered
  }

  /** The clocks can still move by `n` waits. */
  predicate Headroom(s: State, p: Profile, n: nat)
    requires p.capacity > 0 && p.refillPerSecond > 0
  {
    s.sol.clock + n * SolanaWait(p) <= I64_MAX && s.rh.clock + n * DAY <= U64_MAX
  }

  lemma HeadroomSplits(s: State, t: State, p: Profile, n: nat)
    requires p.capacity > 0 && p.refillPerSecond > 0 && n > 0 && Headroom(s, p, n)
    ensures Headroom(s, p, 1) && Headroom(s, p, n - 1)
    ensures t.sol.clock <= s.sol.clock + SolanaWait(p) && t.rh.clock <= s.rh.clock + DAY ==> Headroom(t, p, n - 1)
  {
    Distribute(n - 1, 1, SolanaWait(p));
    MulMono(0, n - 1, SolanaWait(p));
  }

  /** All but the last `k` packets are delivered, and the clocks have room for `k` waits. */
  ghost predicate Draining(s: State, p: Profile, k: nat) {
    && Ready(s, p) && p.capacity > 0 && p.refillPerSecond > 0
    && k <= |s.packets| && DeliveredUpTo(s.packets, |s.packets| - k) && Headroom(s, p, k)
  }

  lemma DrainingGoesOn(s: State, t: State, p: Profile, k: nat)
    requires Draining(s, p, k) && k > 0 && Ready(t, p) && DeliversOnly(s, t, |s.packets| - k, p)
    ensures Draining(t, p, k - 1)
  {
    HeadroomSplits(s, t, p, k);
  }

  lemma AlreadyDelivered(s: State, p: Profile, k: nat)
    requires Draining(s, p, k) && k > 0 && s.packets[|s.packets| - k].delivered
    ensures Draining(s, p, k - 1)
  {
    HeadroomSplits(s, s, p, k);
  }

  lemma Idle(s: State)
    requires Sane(s)
    ensures Next(s, SolTick(0)) == s
  {
  }

  lemma RoomForOne(s: State, p: Profile, k: nat)
    requires Draining(s, p, k) && k > 0
    ensures s.sol.clock + SolanaWait(p) <= I64_MAX && s.rh.clock + DAY <= U64_MAX
  {
    HeadroomSplits(s, s, p, k);
  }

  /** There is nothing to deliver at this rank. */
  predicate Skips(s: State, p: Profile, k: nat) {
    !(0 < k <= |s.packets|) || s.packets[|s.packets| - k].delivered || p.capacity <= 0 || p.refillPerSecond <= 0
  }

  function DrainWait(s: State, p: Profile, k: nat): Step {
    if Skips(s, p, k) then SolTick(0) else WaitStep(s.packets[|s.packets| - k].direction, p)
  }

  function DrainReceive(s: State, p: Profile, k: nat): Step {
    if Skips(s, p, k) then SolTick(0)
    else ReceiveStep(s.packets[|s.packets| - k].direction, s.packets[|s.packets| - k].guid)
  }

  /** `Next` on every state. */
  function Advance(s: State, st: Step): State {
    if Sane(s) then Next(s, st) else s
  }

  function DrainState(next: (State, Step) -> State, s: State, p: Profile, k: nat): State {
    next(next(s, DrainWait(s, p, k)), DrainReceive(s, p, k))
  }

  lemma DrainSkips(s: State, p: Profile, k: nat)
    requires Draining(s, p, k) && k > 0 && s.packets[|s.packets| - k].delivered
    ensures Draining(DrainState(Advance, s, p, k), p, k - 1)
  {
    Idle(s);
    AlreadyDelivered(s, p, k);
    assert DrainState(Advance, s, p, k) == s;
  }

  lemma AdvanceOnce(s: State, a: Step)
    requires Sane(s)
    ensures Sane(Advance(s, a)) && Advance(s, a) == Next(s, a)
  {
  }

  lemma PicksForDelivery(s: State, p: Profile, k: nat)
    requires !Skips(s, p, k)
    ensures var pkt := s.packets[|s.packets| - k];
      DrainWait(s, p, k) == WaitStep(pkt.direction, p) && DrainReceive(s, p, k) == ReceiveStep(pkt.direction, pkt.guid)
  {
  }

  lemma StateAfterDelivery(s: State, p: Profile, k: nat)
    requires Sane(s)
    ensures DrainState(Advance, s, p, k) == Next(Next(s, DrainWait(s, p, k)), DrainReceive(s, p, k))
  {
    AdvanceOnce(s, DrainWait(s, p, k));
    AdvanceOnce(Next(s, DrainWait(s, p, k)), DrainReceive(s, p, k));
  }

  lemma DeliveryDrains(s: State, p: Profile, k: nat)
    requires Draining(s, p, k) && k > 0 && !s.packets[|s.packets| - k].delivered
    ensures var pkt := s.packets[|s.packets| - k];
      Draining(Next(Next(s, WaitStep(pkt.direction, p)), ReceiveStep(pkt.direction, pkt.guid)), p, k - 1)
  {
    var pkt := s.packets[|s.packets| - k];
    RoomForOne(s, p, k);
    DeliverOne(s, p, |s.packets| - k);
    DrainingGoesOn(s, Next(Next(s, WaitStep(pkt.direction, p)), ReceiveStep(pkt.direction, pkt.guid)), p, k);
  }

  lemma DrainDelivers(s: State, p: Profile, k: nat)
    requires Draining(s, p, k) && k > 0 && !s.packets[|s.packets| - k].delivered
    ensures Draining(DrainState(Advance, s, p, k), p, k - 1)
  {
    StateAfterDelivery(s, p, k);
    PicksForDelivery(s, p, k);
    DeliveryDrains(s, p, k);
  }

  /** The two steps take the drain one packet further. */
  lemma DrainOne(s: State, p: Profile, k: nat)
    requires Draining(s, p, k) && k > 0
    ensures Draining(DrainState(Advance, s, p, k), p, k - 1)
  {
    if s.packets[|s.packets| - k].delivered {
      DrainSkips(s, p, k);
    } else {
      DrainDelivers(s, p, k);
    }
  }

  function AdvanceAll(next: (State, Step) -> State, s: State, steps: seq<Step>): State
    decreases |steps|
  {
    if steps == [] then s else AdvanceAll(next, next(s, steps[0]), steps[1..])
  }

  lemma {:induction false} AdvanceAllIsRun(s: State, steps: seq<Step>)
    requires Sane(s)
    ensures AdvanceAll(Advance, s, steps) == Run(s, steps)
    decreases |steps|
  {
    if steps != [] {
      AdvanceAllIsRun(Next(s, steps[0]), steps[1..]);
    }
  }

  lemma AdvanceTwo(next: (State, Step) -> State, s: State, a: Step, b: Step, rest: seq<Step>)
    ensures AdvanceAll(next, s, [a, b] + rest) == AdvanceAll(next, next(next(s, a), b), rest)
  {
    var steps := [a, b] + rest;
    assert steps[1..] == [b] + rest && steps[1..][1..] == rest;
  }

  /** Two steps, picked for the state and its rank, repeated until the rank is zero. */
  function Schedule(next: (State, Step) -> State, first: (State, nat) -> Step, second: (State, nat) -> Step, s: State,
                    k: nat): seq<Step>
    decreases k
  {
    if k == 0 then []
    else
      [first(s, k), second(s, k)] + Schedule(next, first, second, next(next(s, first(s, k)), second(s, k)), k - 1)
  }

  /** Every picked step is quiet. */
  ghost predicate PicksQuietly(first: (State, nat) -> Step, second: (State, nat) -> Step) {
    forall u: State, n: nat {:trigger first(u, n)} {:trigger second(u, n)} :: Quiet(first(u, n)) && Quiet(second(u, n))
  }

  /** Two picked steps are a turn. */
  ghost predicate MakesTurns(next: (State, Step) -> State, first: (State, nat) -> Step, second: (State, nat) -> Step,
                             turn: (State, nat) -> State) {
    forall u: State, n: nat {:trigger turn(u, n)} :: next(next(u, first(u, n)), second(u, n)) == turn(u, n)
  }

  /** Above rank zero a turn lowers the rank. */
  ghost predicate Lowers(turn: (State, nat) -> State, ranked: (State, nat) -> bool) {
    forall u: State, n: nat {:trigger turn(u, n)} :: n > 0 && ranked(u, n) ==> ranked(turn(u, n), n - 1)
  }

  lemma {:induction false} ScheduleQuiet(next: (State, Step) -> State, first: (State, nat) -> Step,
                                         second: (State, nat) -> Step, s: State, k: nat)
    requires PicksQuietly(first, second)
    ensures AllQuiet(Schedule(next, first, second, s, k))
    decreases k
  {
    if k > 0 {
      var t := next(next(s, first(s, k)), second(s, k));
      ScheduleQuiet(next, first, second, t, k - 1);
      assert Quiet(first(s, k)) && Quiet(second(s, k));
    }
  }

  /** Descent: the schedule lowers the rank to zero. */
  lemma {:induction false} Descend(next: (State, Step) -> State, first: (State, nat) -> Step,
                                   second: (State, nat) -> Step,
                                   turn: (State, nat) -> State, ranked: (State, nat) -> bool, s: State, k: nat)
    requires ranked(s, k) && MakesTurns(next, first, second, turn) && Lowers(turn, ranked)
    ensures ranked(AdvanceAll(next, s, Schedule(next, first, second, s, k)), 0)
    decreases k
  {
    if k > 0 {
      var a, b := first(s, k), second(s, k);
      assert next(next(s, a), b) == turn(s, k);
      Descend(next, first, second, turn, ranked, turn(s, k), k - 1);
      AdvanceTwo(next, s, a, b, Schedule(next, first, second, turn(s, k), k - 1));
    }
  }

  function Waits(p: Profile): (State, nat) -> Step {
    (u: State, n: nat) => DrainWait(u, p, n)
  }

  function Receives(p: Profile): (State, nat) -> Step {
    (u: State, n: nat) => DrainReceive(u, p, n)
  }

  function Turns(next: (State, Step) -> State, p: Profile): (State, nat) -> State {
    (u: State, n: nat) => DrainState(next, u, p, n)
  }

  ghost function StillDraining(p: Profile): (State, nat) -> bool {
    (u: State, n: nat) => Draining(u, p, n)
  }

  lemma PicksAreQuiet(p: Profile)
    ensures PicksQuietly(Waits(p), Receives(p))
  {
  }

  lemma PicksMakeTurns(next: (State, Step) -> State, p: Profile)
    ensures MakesTurns(next, Waits(p), Receives(p), Turns(next, p))
  {
  }

  /** Two steps of `next` take the drain one packet further. */
  ghost predicate Drains(next: (State, Step) -> State, p: Profile) {
    forall s, k: nat {:trigger DrainState(next, s, p, k)} :: k > 0 && Draining(s, p, k)
      ==> Draining(DrainState(next, s, p, k), p, k - 1)
  }

  lemma AdvanceDrains(p: Profile)
    ensures Drains(Advance, p)
  {
    forall s, k: nat {:trigger DrainState(Advance, s, p, k)} | k > 0 && Draining(s, p, k)
      ensures Draining(DrainState(Advance, s, p, k), p, k - 1)
    {
      DrainOne(s, p, k);
    }
  }

  lemma TurnsLower(next: (State, Step) -> State, p: Profile)
    requires Drains(next, p)
    ensures Lowers(Turns(next, p), StillDraining(p))
  {
    var turn, ranked := Turns(next, p), StillDraining(p);
    forall u: State, n: nat {:trigger turn(u, n)} | n > 0 && ranked(u, n)
      ensures ranked(turn(u, n), n - 1)
    {
      assert turn(u, n) == DrainState(next, u, p, n);
    }
  }

  /** Deliver every packet in turn. */
  function DrainSchedule(s: State, p: Profile): seq<Step> {
    Schedule(Advance, Waits(p), Receives(p), s, |s.packets|)
  }

  lemma DrainScheduleDrains(s: State, p: Profile)
    requires Draining(s, p, |s.packets|)
    ensures AllQuiet(DrainSchedule(s, p))
    ensures Draining(AdvanceAll(Advance, s, DrainSchedule(s, p)), p, 0)
  {
    PicksAreQuiet(p);
    ScheduleQuiet(Advance, Waits(p), Receives(p), s, |s.packets|);
    PicksMakeTurns(Advance, p);
    AdvanceDrains(p);
    TurnsLower(Advance, p);
    Descend(Advance, Waits(p), Receives(p), Turns(Advance, p), StillDraining(p), s, |s.packets|);
  }

  /** Nothing is in flight, and recorded principal is exactly the Robinhood supply. */
  predicate Drained(t: State) {
    && Undelivered(t.packets, SolanaToRobinhood) == 0 && Undelivered(t.packets, RobinhoodToSolana) == 0
    && t.sol.tvl == t.rh.supply
  }

  lemma {:induction false} NothingUndelivered(ps: seq<Packet>, d: Direction)
    requires DeliveredUpTo(ps, |ps|)
    ensures Undelivered(ps, d) == 0
    decreases |ps|
  {
    if ps != [] {
      NothingUndelivered(ps[..|ps| - 1], d);
    }
  }

  lemma DrainedWhenDone(t: State, p: Profile)
    requires Draining(t, p, 0)
    ensures Drained(t)
  {
    NothingUndelivered(t.packets, SolanaToRobinhood);
    NothingUndelivered(t.packets, RobinhoodToSolana);
  }

  /**
   Drainage.  Under a validated plan with both sides running and enough time left on both clocks, a schedule of
   waits and receives alone empties both directions, and then recorded principal is exactly the Robinhood supply.
   */
  lemma ReadyDrains(s: State, p: Profile)
    requires Ready(s, p) && p.capacity > 0 && p.refillPerSecond > 0 && Headroom(s, p, |s.packets|)
    ensures AllQuiet(DrainSchedule(s, p))
    ensures Drained(Run(s, DrainSchedule(s, p)))
  {
    DrainScheduleDrains(s, p);
    DrainedWhenDone(AdvanceAll(Advance, s, DrainSchedule(s, p)), p);
    AdvanceAllIsRun(s, DrainSchedule(s, p));
  }

  /**
   From any state with nothing oversized in flight, a run that keeps a validated plan in force and ends with both
   sides unpaused and time left can be continued by waits and receives until the bridge is drained.
   */
  lemma EveryRunDrains(b: State, steps: seq<Step>, p: Profile)
    requires Sane(b) && BridgeInv(b) && b.sol.rate == 1 && PacketsFit(b.packets, p.capacity) && InForce(b, steps, p)
    requires p.capacity > 0 && p.refillPerSecond > 0
    requires !Run(b, steps).sol.paused && !Run(b, steps).rh.paused
    requires Headroom(Run(b, steps), p, |Run(b, steps).packets|)
    ensures var s := Run(b, steps);
      AllQuiet(DrainSchedule(s, p)) && Drained(Run(s, DrainSchedule(s, p)))
  {
    RunFits(b, steps, p);
    ReadyDrains(Run(b, steps), p);
  }
}
