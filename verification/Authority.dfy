/**
 Who can change what: over every run, pause flags, roles, fees and limits stand unless their holder signs.
 */
module Authority {
  import opened Num
  import opened TokenLedger
  import opened SolanaRateLimiter
  import opened SanOftBucket
  import opened Bridge
  import Sol = SolanaAdapter
  import Rh = RobinhoodOft

  /** The configured part of a limiter or bucket: what traffic and time leave alone. */
  datatype Terms = Terms(capacity: nat, refill: nat, duration: nat)

  function LimiterTerms(l: Option<Limiter>): Option<Terms> {
    if l.None? then None else Some(Terms(l.value.capacity, l.value.refillPerSecond, 1))
  }

  function BucketTerms(b: Bucket): Terms {
    Terms(b.capacity, b.refillAmount, b.refillDuration)
  }

  datatype SolanaControls = SolanaControls(
    paused: bool, admin: Key, pauser: Option<Key>, unpauser: Option<Key>, defaultFeeBps: nat, peerFeeBps: Option<u16>,
    outbound: Option<Terms>, inbound: Option<Terms>)

  datatype RobinhoodControls = RobinhoodControls(paused: bool, owner: Key, outbound: Terms, inbound: Terms)

  /** Everything a role decides, and the fees withdrawn so far. */
  datatype Controls = Controls(solana: SolanaControls, robinhood: RobinhoodControls, withdrawals: nat)

  function SolanaControlsOf(s: Sol.AdapterState): SolanaControls {
    SolanaControls(s.paused, s.admin, s.pauser, s.unpauser, s.defaultFeeBps, s.peerFeeBps,
                   LimiterTerms(s.limits.outbound), LimiterTerms(s.limits.inbound))
  }

  function RobinhoodControlsOf(r: Rh.OftState): RobinhoodControls {
    RobinhoodControls(r.paused, r.owner, BucketTerms(r.outbound), BucketTerms(r.inbound))
  }

  function ControlsOf(b: State): Controls {
    Controls(SolanaControlsOf(b.sol), RobinhoodControlsOf(b.rh), b.books.withdrawals)
  }

  /** A step of a kind its signer holds the role for. */
  predicate Privileged(b: State, st: Step) {
    match st
    case SolSetOftConfig(signer, _) => signer == b.sol.admin
    case SolSetPeerConfig(signer, _) => signer == b.sol.admin
    case SolWithdrawFee(signer, _, _) => signer == b.sol.admin
    case SolSetPause(signer, paused) => if paused then b.sol.pauser == Some(signer) else b.sol.unpauser == Some(signer)
    case RhSetPaused(caller, _) => caller == b.rh.owner
    case RhSetRateLimit(caller, _, _, _, _) => caller == b.rh.owner
    case _ => false
  }

  lemma TransfersKeepControls(b: State, st: Step)
    requires Sane(b) && (st.SolSend? || st.SolReceive? || st.RhSend? || st.RhReceive?)
    ensures ControlsOf(Next(b, st)) == ControlsOf(b)
  {
  }

  lemma OthersKeepControls(b: State, st: Step)
    requires Sane(b) && !Privileged(b, st) && !st.SolSend? && !st.SolReceive? && !st.RhSend? && !st.RhReceive?
    ensures ControlsOf(Next(b, st)) == ControlsOf(b)
  {
  }

  lemma UnprivilegedNext(b: State, st: Step)
    requires Sane(b) && !Privileged(b, st)
    ensures ControlsOf(Next(b, st)) == ControlsOf(b)
  {
    if st.SolSend? || st.SolReceive? || st.RhSend? || st.RhReceive? {
      TransfersKeepControls(b, st);
    } else {
      OthersKeepControls(b, st);
    }
  }

  // ---------- what each role can do ----------

  /** Terms with what a parameter block gives, and otherwise what was there. */
  function NewTerms(t: Option<Terms>, p: Option<RateLimitParams>): Option<Terms> {
    if p.None? then None
    else
      var was := if t.Some? then t.value else Terms(0, 0, 1);
      Some(Terms(if p.value.capacity.Some? then p.value.capacity.value else was.capacity,
                 if p.value.refillPerSecond.Some? then p.value.refillPerSecond.value else was.refill, 1))
  }

  /** The Solana controls after the admin configures the store. */
  function AfterOftConfig(c: SolanaControls, config: Sol.OftConfig): SolanaControls {
    match config
    case SetAdmin(k) => c.(admin := k)
    case SetDefaultFee(bps) => if bps < 10_000 then c.(defaultFeeBps := bps) else c
    case SetPaused(p) => c.(paused := p)
    case SetPauser(k) => c.(pauser := k)
    case SetUnpauser(k) => c.(unpauser := k)
  }

  function AfterPeerConfig(c: SolanaControls, config: Sol.PeerConfig): SolanaControls {
    match config
    case FeeBps(bps) => if bps.Some? && bps.value >= 10_000 then c else c.(peerFeeBps := bps)
    case OutboundRateLimit(p) => c.(outbound := NewTerms(c.outbound, p))
    case InboundRateLimit(p) => c.(inbound := NewTerms(c.inbound, p))
  }

  /** A bucket takes these terms: capacity, refill and duration in this order. */
  function AfterRateLimit(c: RobinhoodControls, inboundSide: bool, t: Terms): RobinhoodControls {
    if !(1 <= t.capacity <= U64_MAX && 1 <= t.refill <= t.capacity && 1 <= t.duration) then c
    else if inboundSide then c.(inbound := t) else c.(outbound := t)
  }

  /** The controls after a step: only the holder of its role changes anything, and only what the step is about. */
  function ControlsAfter(b: State, st: Step): Controls {
    var c := ControlsOf(b);
    match st
    case SolSetOftConfig(signer, config) =>
      if signer == c.solana.admin then c.(solana := AfterOftConfig(c.solana, config)) else c
    case SolSetPeerConfig(signer, config) =>
      if signer == c.solana.admin then c.(solana := AfterPeerConfig(c.solana, config)) else c
    case SolSetPause(signer, paused) =>
      if (if paused then c.solana.pauser else c.solana.unpauser) == Some(signer)
      then c.(solana := c.solana.(paused := paused)) else c
    case SolWithdrawFee(signer, dest, fee) =>
      if signer == c.solana.admin && fee <= Sol.EscrowOf(b.sol) - b.sol.tvl && dest in b.sol.ledger.accounts
         && dest != Sol.ESCROW
      then c.(withdrawals := c.withdrawals + fee) else c
    case RhSetPaused(caller, paused) =>
      if caller == c.robinhood.owner then c.(robinhood := c.robinhood.(paused := paused)) else c
    case RhSetRateLimit(caller, inboundSide, capacity, refill, duration) =>
      if caller == c.robinhood.owner
      then c.(robinhood := AfterRateLimit(c.robinhood, inboundSide, Terms(capacity, refill, duration))) else c
    case _ => c
  }

  lemma OftConfigOf(s: Sol.AdapterState, signer: Key, c: Sol.OftConfig)
    ensures var s' := Sol.SetOftConfig(s, signer, c);
      SolanaControlsOf(if s'.Some? then s'.value else s)
      == if signer == s.admin then AfterOftConfig(SolanaControlsOf(s), c) else SolanaControlsOf(s)
  {
  }

  lemma OftConfigEffect(b: State, st: Step)
    requires Sane(b) && (st.SolSetOftConfig? || st.SolSetPause?)
    ensures ControlsOf(Next(b, st)) == ControlsAfter(b, st)
  {
    if st.SolSetOftConfig? {
      OftConfigOf(b.sol, st.signer, st.config);
    }
  }

  lemma UpdatedTerms(l: Option<Limiter>, p: Option<RateLimitParams>, now: u64)
    ensures LimiterTerms(Sol.UpdatedLimiter(l, p, now)) == NewTerms(LimiterTerms(l), p)
  {
  }

  lemma PeerConfigOf(s: Sol.AdapterState, signer: Key, c: Sol.PeerConfig)
    ensures var s' := Sol.SetPeerConfig(s, signer, c);
      SolanaControlsOf(if s'.Some? then s'.value else s)
      == if signer == s.admin then AfterPeerConfig(SolanaControlsOf(s), c) else SolanaControlsOf(s)
  {
    match c
    case FeeBps(_) =>
    case OutboundRateLimit(p) => UpdatedTerms(s.limits.outbound, p, s.clock);
    case InboundRateLimit(p) => UpdatedTerms(s.limits.inbound, p, s.clock);
  }

  lemma PeerConfigEffect(b: State, st: Step)
    requires Sane(b) && st.SolSetPeerConfig?
    ensures ControlsOf(Next(b, st)) == ControlsAfter(b, st)
  {
    PeerConfigOf(b.sol, st.signer, st.peer);
  }

  lemma WithdrawEffect(b: State, st: Step)
    requires Sane(b) && Sol.AdapterInv(b.sol) && st.SolWithdrawFee?
    ensures ControlsOf(Next(b, st)) == ControlsAfter(b, st)
  {
    Sol.WithdrawFeeKeeps(b.sol, st.signer, st.dest, st.fee);
  }

  lemma RobinhoodEffect(b: State, st: Step)
    requires Sane(b) && (st.RhSetPaused? || st.RhSetRateLimit?)
    ensures ControlsOf(Next(b, st)) == ControlsAfter(b, st)
  {
  }

  /** What every step does to the controls, exactly. */
  lemma ControlsChange(b: State, st: Step)
    requires Sane(b) && BridgeInv(b)
    ensures ControlsOf(Next(b, st)) == ControlsAfter(b, st)
  {
    match st
    case SolSetOftConfig(_, _) => OftConfigEffect(b, st);
    case SolSetPause(_, _) => OftConfigEffect(b, st);
    case SolSetPeerConfig(_, _) => PeerConfigEffect(b, st);
    case SolWithdrawFee(_, _, _) => WithdrawEffect(b, st);
    case RhSetPaused(_, _) => RobinhoodEffect(b, st);
    case RhSetRateLimit(_, _, _, _, _) => RobinhoodEffect(b, st);
    case _ => UnprivilegedNext(b, st);
  }

  // ---------- without a role nothing changes ----------

  /** Who is privileged depends on the roles alone. */
  lemma PrivilegedByRoles(b: State, c: State, st: Step)
    requires ControlsOf(b) == ControlsOf(c)
    ensures Privileged(b, st) == Privileged(c, st)
  {
    assert SolanaControlsOf(b.sol) == SolanaControlsOf(c.sol) && RobinhoodControlsOf(b.rh) == RobinhoodControlsOf(c.rh);
  }

  /**
   Over every run in which no holder of a role signs a step of its kind, nothing a role decides changes: pause
   flags, the roles themselves, fees, limiter terms and withdrawals all stand, whatever else happens.
   */
  lemma {:induction false} ControlsStand(b: State, steps: seq<Step>)
    requires Sane(b) && forall i :: 0 <= i < |steps| ==> !Privileged(b, steps[i])
    ensures ControlsOf(Run(b, steps)) == ControlsOf(b)
    decreases |steps|
  {
    if steps != [] {
      var c := Next(b, steps[0]);
      UnprivilegedNext(b, steps[0]);
      forall i | 0 <= i < |steps[1..]|
        ensures !Privileged(c, steps[1..][i])
      {
        assert steps[1..][i] == steps[i + 1];
        PrivilegedByRoles(b, c, steps[i + 1]);
      }
      ControlsStand(c, steps[1..]);
    }
  }

  /** So a change over a run is always the work of someone who held a role when it began. */
  lemma ChangeNeedsARole(b: State, steps: seq<Step>)
    requires Sane(b) && ControlsOf(Run(b, steps)) != ControlsOf(b)
    ensures exists i :: 0 <= i < |steps| && Privileged(b, steps[i])
  {
    if forall i :: 0 <= i < |steps| ==> !Privileged(b, steps[i]) {
      ControlsStand(b, steps);
    }
  }
}
