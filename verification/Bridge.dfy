/**
 The two chains, the packets between them, and every interleaving of their steps.

 A step either commits fully or changes nothing.  The Endpoint contributes two assumptions, built into the
 steps: a send gets a GUID no packet has had, and a packet is cleared at most once.
 */
module Bridge {
  import opened Num
  import opened Text
  import opened Pathway
  import opened FeeMath
  import opened TokenLedger
  import Sol = SolanaAdapter
  import Rh = RobinhoodOft

  /** A packet and what its two OFT events report: `sentLd` at the source, `creditedLd` once delivered. */
  datatype Packet = Packet(
    guid: string,
    direction: Direction,
    receiver: string,
    amountSd: nat,
    sentLd: nat,
    delivered: bool,
    creditedLd: nat)

  /** Running totals of what entered and left escrow outside the bridged principal. */
  datatype Books = Books(fees: nat, donations: nat, withdrawals: nat)

  datatype State = State(sol: Sol.AdapterState, rh: Rh.OftState, packets: seq<Packet>, books: Books)

  datatype Step =
    | SolSend(guid: string, source: Key, receiver: string, amountLd: u64, minAmountLd: u64)
    | SolReceive(guid: string)
    | SolWithdrawFee(signer: Key, dest: Key, fee: u64)
    | SolTransfer(from: Key, to: Key, amountLd: u64)
    | SolSetOftConfig(signer: Key, config: Sol.OftConfig)
    | SolSetPause(signer: Key, paused: bool)
    | SolSetPeerConfig(signer: Key, peer: Sol.PeerConfig)
    | SolMintFee(mintFee: Option<TransferFee>)
    | SolTick(seconds: nat)
    | RhSend(guid: string, from: Key, receiver: string, amount: nat, minAmount: nat)
    | RhReceive(guid: string)
    | RhTransfer(from: Key, to: Key, amount: nat)
    | RhSetPaused(caller: Key, paused: bool)
    | RhSetRateLimit(caller: Key, inboundSide: bool, capacity: nat, refillAmount: nat, refillDuration: u64)
    | RhTick(seconds: nat)

  /** What the step functions need to be defined. */
  predicate Sane(b: State) {
    && b.sol.rate > 0 && ValidMintFee(b.sol.mintFee)
    && b.rh.outbound.refillDuration > 0 && b.rh.inbound.refillDuration > 0
    && forall i :: 0 <= i < |b.packets| ==> |b.packets[i].receiver| == 66
  }

  predicate FreshGuid(ps: seq<Packet>, guid: string) {
    IsBytes32(guid) && forall i :: 0 <= i < |ps| ==> ps[i].guid != guid
  }

  /** The authorized, not yet consumed message of this GUID on this pathway. */
  function Pending(ps: seq<Packet>, guid: string, d: Direction): Option<nat>
    ensures Pending(ps, guid, d).Some? ==>
              var i := Pending(ps, guid, d).value;
              i < |ps| && ps[i].guid == guid && ps[i].direction == d && !ps[i].delivered
    ensures Pending(ps, guid, d).None? ==>
              forall i :: 0 <= i < |ps| ==> !(ps[i].guid == guid && ps[i].direction == d && !ps[i].delivered)
  {
    if ps == [] then None
    else
      var n := |ps| - 1;
      if ps[n].guid == guid && ps[n].direction == d && !ps[n].delivered then Some(n) else Pending(ps[..n], guid, d)
  }

  function Deliver(ps: seq<Packet>, i: nat, creditedLd: nat): seq<Packet>
    requires i < |ps|
  {
    ps[i := ps[i].(delivered := true, creditedLd := creditedLd)]
  }

  function WithSol(b: State, s: Option<Sol.AdapterState>): State {
    if s.Some? then b.(sol := s.value) else b
  }

  function WithRh(b: State, s: Option<Rh.OftState>): State {
    if s.Some? then b.(rh := s.value) else b
  }

  function AfterSolSend(b: State, guid: string, source: Key, receiver: string, amount: u64, minAmount: u64): State
    requires Sane(b)
  {
    var r := Sol.Send(b.sol, source, amount, minAmount);
    if r.None? || !FreshGuid(b.packets, guid) || !IsBytes32(receiver) then b
    else State(r.value.state, b.rh,
               b.packets + [Packet(guid, SolanaToRobinhood, receiver, r.value.amountSd, r.value.amounts.received,
                                   false, 0)],
               b.books.(fees := b.books.fees + r.value.amounts.fee))
  }

  function AfterSolReceive(b: State, guid: string): State
    requires Sane(b)
  {
    var i := Pending(b.packets, guid, RobinhoodToSolana);
    if i.None? then b
    else
      var r := Sol.Receive(b.sol, b.packets[i.value].receiver, b.packets[i.value].amountSd);
      if r.None? then b
      else b.(sol := r.value.state, packets := Deliver(b.packets, i.value, r.value.creditedLd))
  }

  function AfterWithdrawFee(b: State, signer: Key, dest: Key, fee: u64): State
    requires Sane(b)
  {
    var s := Sol.WithdrawFee(b.sol, signer, dest, fee);
    if s.None? then b
    else State(s.value, b.rh, b.packets,
               b.books.(withdrawals := b.books.withdrawals + (if dest == Sol.ESCROW then 0 else fee)))
  }

  function AfterSolTransfer(b: State, from: Key, to: Key, amount: u64): State
    requires Sane(b)
  {
    var s := Sol.WalletTransfer(b.sol, from, to, amount);
    if s.None? then b
    else
      var gift := if to == Sol.ESCROW then GetPostFeeAmount(b.sol.mintFee, amount) else 0;
      State(s.value, b.rh, b.packets, b.books.(donations := b.books.donations + gift))
  }

  function AfterRhSend(b: State, guid: string, from: Key, receiver: string, amount: nat, minAmount: nat): State
    requires Sane(b)
  {
    var r := Rh.Send(b.rh, from, amount, minAmount);
    if r.None? || !FreshGuid(b.packets, guid) || !IsBytes32(receiver) then b
    else b.(rh := r.value,
            packets := b.packets + [Packet(guid, RobinhoodToSolana, receiver, amount, amount, false, 0)])
  }

  function AfterRhReceive(b: State, guid: string): State
    requires Sane(b)
  {
    var i := Pending(b.packets, guid, SolanaToRobinhood);
    if i.None? then b
    else
      var p := b.packets[i.value];
      var r := Rh.Receive(b.rh, PadAddress(p.receiver), p.amountSd);
      if r.None? then b
      else b.(rh := r.value, packets := Deliver(b.packets, i.value, p.amountSd))
  }

  function Next(b: State, st: Step): (b': State)
    requires Sane(b)
    ensures Sane(b')
  {
    match st
    case SolSend(guid, source, receiver, amount, minAmount) =>
      AfterSolSend(b, guid, source, receiver, amount, minAmount)
    case SolReceive(guid) => AfterSolReceive(b, guid)
    case SolWithdrawFee(signer, dest, fee) => AfterWithdrawFee(b, signer, dest, fee)
    case SolTransfer(from, to, amount) => AfterSolTransfer(b, from, to, amount)
    case SolSetOftConfig(signer, c) => WithSol(b, Sol.SetOftConfig(b.sol, signer, c))
    case SolSetPause(signer, p) => WithSol(b, Sol.SetPause(b.sol, signer, p))
    case SolSetPeerConfig(signer, c) => WithSol(b, Sol.SetPeerConfig(b.sol, signer, c))
    case SolMintFee(f) => if ValidMintFee(f) then b.(sol := b.sol.(mintFee := f)) else b
    case SolTick(n) => if b.sol.clock + n <= I64_MAX then b.(sol := b.sol.(clock := b.sol.clock + n)) else b
    case RhSend(guid, from, receiver, amount, minAmount) => AfterRhSend(b, guid, from, receiver, amount, minAmount)
    case RhReceive(guid) => AfterRhReceive(b, guid)
    case RhTransfer(from, to, amount) => WithRh(b, Rh.Erc20Transfer(b.rh, from, to, amount))
    case RhSetPaused(caller, p) => WithRh(b, Rh.SetPaused(b.rh, caller, p))
    case RhSetRateLimit(caller, side, cap, refill, duration) =>
      WithRh(b, Rh.SetRateLimit(b.rh, caller, side, cap, refill, duration))
    case RhTick(n) => if b.rh.clock + n <= U64_MAX then b.(rh := b.rh.(clock := b.rh.clock + n)) else b
  }

  function Run(b: State, steps: seq<Step>): (b': State)
    requires Sane(b)
    ensures Sane(b')
    decreases |steps|
  {
    if steps == [] then b else Run(Next(b, steps[0]), steps[1..])
  }

  lemma {:induction false} RunConcat(b: State, first: seq<Step>, rest: seq<Step>)
    requires Sane(b)
    ensures Run(b, first + rest) == Run(Run(b, first), rest)
    decreases |first|
  {
    if first == [] {
      assert first + rest == rest;
    } else {
      assert (first + rest)[1..] == first[1..] + rest;
      RunConcat(Next(b, first[0]), first[1..], rest);
    }
  }

  /** What the deployers of both chains choose, and the token accounts that exist by then. */
  datatype Deployment = Deployment(
    clock: u64, admin: Key, decimals: u8, sharedDecimals: u8, mintFee: Option<TransferFee>, ledger: Ledger,
    rhClock: u64, owner: Key)

  /** Both applications freshly deployed: paused, no packet, nothing locked and nothing minted. */
  function Genesis(d: Deployment): Option<State> {
    var s := Sol.Initialized(d.clock, d.admin, d.decimals, d.sharedDecimals, d.mintFee, d.ledger);
    if s.None? then None else Some(State(s.value, Rh.Deployed(d.rhClock, d.owner), [], Books(0, 0, 0)))
  }

  ghost predicate IsGenesisOf(b: State, d: Deployment) {
    ValidMintFee(d.mintFee) && Issued(d.ledger) <= U64_MAX && Genesis(d) == Some(b)
  }

  ghost predicate IsGenesis(b: State) {
    exists d :: IsGenesisOf(b, d)
  }

  // ---------- sums over packets ----------

  function Undelivered(ps: seq<Packet>, d: Direction): nat {
    if ps == [] then 0
    else
      var n := |ps| - 1;
      Undelivered(ps[..n], d) + (if ps[n].direction == d && !ps[n].delivered then ps[n].amountSd else 0)
  }

  /** Everything ever sent in a direction. */
  function GrossSent(ps: seq<Packet>, d: Direction): nat {
    if ps == [] then 0
    else
      var n := |ps| - 1;
      GrossSent(ps[..n], d) + (if ps[n].direction == d then ps[n].amountSd else 0)
  }

  lemma SumsAppend(ps: seq<Packet>, p: Packet, d: Direction)
    ensures GrossSent(ps + [p], d) == GrossSent(ps, d) + (if p.direction == d then p.amountSd else 0)
    ensures Undelivered(ps + [p], d)
            == Undelivered(ps, d) + (if p.direction == d && !p.delivered then p.amountSd else 0)
  {
    assert (ps + [p])[..|ps|] == ps;
  }

  lemma {:induction false} SumsDeliver(ps: seq<Packet>, i: nat, creditedLd: nat, d: Direction)
    requires i < |ps| && !ps[i].delivered
    ensures GrossSent(Deliver(ps, i, creditedLd), d) == GrossSent(ps, d)
    ensures Undelivered(Deliver(ps, i, creditedLd), d)
            == Undelivered(ps, d) - (if ps[i].direction == d then ps[i].amountSd else 0)
    decreases |ps|
  {
    var n := |ps| - 1;
    var after := Deliver(ps, i, creditedLd);
    if i == n {
      assert after[..n] == ps[..n];
    } else {
      assert after[..n] == Deliver(ps[..n], i, creditedLd);
      SumsDeliver(ps[..n], i, creditedLd, d);
    }
  }

  lemma {:induction false} PacketAtMostUndelivered(ps: seq<Packet>, i: nat)
    requires i < |ps| && !ps[i].delivered
    ensures ps[i].amountSd <= Undelivered(ps, ps[i].direction)
    decreases |ps|
  {
    var n := |ps| - 1;
    if i < n {
      PacketAtMostUndelivered(ps[..n], i);
    }
  }

  // ---------- the custody invariant ----------

  predicate PacketOk(p: Packet, rate: nat) {
    && IsBytes32(p.guid) && IsBytes32(p.receiver) && p.amountSd <= U64_MAX
    && p.sentLd == (if p.direction == SolanaToRobinhood then p.amountSd * rate else p.amountSd)
  }

  ghost predicate PacketsOk(ps: seq<Packet>, rate: nat) {
    && (forall i :: 0 <= i < |ps| ==> PacketOk(ps[i], rate))
    && (forall i, j :: 0 <= i < j < |ps| ==> ps[i].guid != ps[j].guid)
  }

  /** Robinhood supply plus everything in flight, in shared-decimal units. */
  function Liabilities(b: State): nat {
    b.rh.supply + Undelivered(b.packets, SolanaToRobinhood) + Undelivered(b.packets, RobinhoodToSolana)
  }

  ghost predicate BridgeInv(b: State) {
    && Sol.AdapterInv(b.sol) && Rh.OftInv(b.rh) && PacketsOk(b.packets, b.sol.rate)
    && b.sol.tvl == b.sol.rate * Liabilities(b)
    && Sol.EscrowOf(b.sol) + b.books.withdrawals == b.sol.tvl + b.books.fees + b.books.donations
  }

  lemma GenesisKeeps(b: State)
    requires IsGenesis(b)
    ensures Sane(b) && BridgeInv(b) && b.sol.paused && b.rh.paused && b.packets == []
    ensures b.sol.tvl == 0 && b.rh.supply == 0
  {
    var d :| IsGenesisOf(b, d);
    Sol.InitializedKeeps(d.clock, d.admin, d.decimals, d.sharedDecimals, d.mintFee, d.ledger);
    Rh.DeployedKeeps(d.rhClock, d.owner);
    assert Liabilities(b) == 0;
  }

  /** Each side belongs to the one who deployed it, and every account holds what it held. */
  lemma GenesisExactly(b: State, d: Deployment, k: Key)
    requires IsGenesisOf(b, d)
    ensures b.sol.admin == d.admin && b.sol.clock == d.clock && b.sol.mintFee == d.mintFee
    ensures b.rh.owner == d.owner && b.rh.clock == d.rhClock
    ensures b.sol.rate * Pow10(d.sharedDecimals) == Pow10(d.decimals)
    ensures BalanceOf(b.sol.ledger.accounts, k) == BalanceOf(d.ledger.accounts, k) && BalanceOf(b.rh.balances, k) == 0
  {
    Sol.InitializedExactly(d.clock, d.admin, d.decimals, d.sharedDecimals, d.mintFee, d.ledger);
    Rh.DeployedExactly(d.rhClock, d.owner, 0);
  }

  lemma ProductSum(rate: nat, a: int, b: int)
    ensures rate * (a + b) == rate * a + rate * b
  {
  }

  /** A step that leaves principal and rate alone and accounts for any change of escrow in the books. */
  lemma SolOnlyKeeps(b: State, s: Sol.AdapterState, books: Books)
    requires BridgeInv(b) && Sol.AdapterInv(s) && s.tvl == b.sol.tvl && s.rate == b.sol.rate
    requires Sol.EscrowOf(s) + books.withdrawals == s.tvl + books.fees + books.donations
    ensures BridgeInv(State(s, b.rh, b.packets, books))
  {
  }

  lemma RhOnlyKeeps(b: State, r: Rh.OftState)
    requires BridgeInv(b) && Rh.OftInv(r) && r.supply == b.rh.supply
    ensures BridgeInv(b.(rh := r))
  {
  }

  lemma PacketsAppend(ps: seq<Packet>, p: Packet, rate: nat)
    requires PacketsOk(ps, rate) && PacketOk(p, rate) && FreshGuid(ps, p.guid)
    ensures PacketsOk(ps + [p], rate)
  {
  }

  lemma SolSendKeeps(b: State, guid: string, source: Key, receiver: string, amount: u64, minAmount: u64)
    requires Sane(b) && BridgeInv(b)
    ensures BridgeInv(AfterSolSend(b, guid, source, receiver, amount, minAmount))
  {
    var r := Sol.Send(b.sol, source, amount, minAmount);
    if r.Some? && FreshGuid(b.packets, guid) && IsBytes32(receiver) {
      Sol.SendKeeps(b.sol, source, amount, minAmount);
      var p := Packet(guid, SolanaToRobinhood, receiver, r.value.amountSd, r.value.amounts.received, false, 0);
      PacketsAppend(b.packets, p, b.sol.rate);
      SumsAppend(b.packets, p, SolanaToRobinhood);
      SumsAppend(b.packets, p, RobinhoodToSolana);
      ProductSum(b.sol.rate, Liabilities(b), p.amountSd);
    }
  }

  lemma ReceiverIsNotEscrow(p: Packet)
    requires IsBytes32(p.receiver)
    ensures p.receiver != Sol.ESCROW
  {
  }

  lemma PacketsDeliver(ps: seq<Packet>, i: nat, credited: nat, rate: nat)
    requires PacketsOk(ps, rate) && i < |ps|
    ensures PacketsOk(Deliver(ps, i, credited), rate)
  {
  }

  /** Principal moves with the packets, and escrow with principal. */
  lemma PrincipalMoves(b: State, s: Sol.AdapterState, ps: seq<Packet>)
    requires BridgeInv(b) && Sol.AdapterInv(s) && s.rate == b.sol.rate && PacketsOk(ps, s.rate)
    requires s.tvl == s.rate * Liabilities(b.(packets := ps))
    requires Sol.EscrowOf(s) - s.tvl == Sol.EscrowOf(b.sol) - b.sol.tvl
    ensures BridgeInv(State(s, b.rh, ps, b.books))
  {
  }

  lemma SolReceiveKeeps(b: State, guid: string)
    requires Sane(b) && BridgeInv(b)
    ensures BridgeInv(AfterSolReceive(b, guid))
  {
    var i := Pending(b.packets, guid, RobinhoodToSolana);
    if i.Some? {
      var p := b.packets[i.value];
      assert PacketOk(p, b.sol.rate);
      ReceiverIsNotEscrow(p);
      var r := Sol.Receive(b.sol, p.receiver, p.amountSd);
      if r.Some? {
        var ps := Deliver(b.packets, i.value, r.value.creditedLd);
        Sol.ReceiveKeeps(b.sol, p.receiver, p.amountSd);
        PacketsDeliver(b.packets, i.value, r.value.creditedLd, b.sol.rate);
        SumsDeliver(b.packets, i.value, r.value.creditedLd, SolanaToRobinhood);
        SumsDeliver(b.packets, i.value, r.value.creditedLd, RobinhoodToSolana);
        ProductSum(b.sol.rate, Liabilities(b.(packets := ps)), p.amountSd);
        PrincipalMoves(b, r.value.state, ps);
      }
    }
  }

  lemma RhSendKeeps(b: State, guid: string, from: Key, receiver: string, amount: nat, minAmount: nat)
    requires Sane(b) && BridgeInv(b)
    ensures BridgeInv(AfterRhSend(b, guid, from, receiver, amount, minAmount))
  {
    var b' := AfterRhSend(b, guid, from, receiver, amount, minAmount);
    Rh.SendKeeps(b.rh, from, amount, minAmount);
    if b' != b {
      var p := b'.packets[|b.packets|];
      SumsAppend(b.packets, p, SolanaToRobinhood);
      SumsAppend(b.packets, p, RobinhoodToSolana);
    }
  }

  lemma RhReceiveKeeps(b: State, guid: string)
    requires Sane(b) && BridgeInv(b)
    ensures BridgeInv(AfterRhReceive(b, guid))
  {
    var i := Pending(b.packets, guid, SolanaToRobinhood);
    if i.Some? {
      var p := b.packets[i.value];
      var to := PadAddress(p.receiver);
      if Rh.Receive(b.rh, to, p.amountSd).Some? {
        Rh.ReceiveKeeps(b.rh, to, p.amountSd);
        SumsDeliver(b.packets, i.value, p.amountSd, SolanaToRobinhood);
        SumsDeliver(b.packets, i.value, p.amountSd, RobinhoodToSolana);
      }
    }
  }

  lemma SolConfigKeeps(b: State, st: Step)
    requires Sane(b) && BridgeInv(b)
    requires st.SolSetOftConfig? || st.SolSetPause? || st.SolSetPeerConfig? || st.SolMintFee? || st.SolTick?
    ensures BridgeInv(Next(b, st))
  {
    if st.SolSetPeerConfig? && Sol.SetPeerConfig(b.sol, st.signer, st.peer).Some? {
      Sol.SetPeerConfigKeeps(b.sol, st.signer, st.peer);
    }
    SolOnlyKeeps(b, Next(b, st).sol, b.books);
  }

  lemma SolTokenKeeps(b: State, st: Step)
    requires Sane(b) && BridgeInv(b)
    requires st.SolWithdrawFee? || st.SolTransfer?
    ensures BridgeInv(Next(b, st))
  {
    if st.SolWithdrawFee? {
      Sol.WithdrawFeeKeeps(b.sol, st.signer, st.dest, st.fee);
    } else if Sol.WalletTransfer(b.sol, st.from, st.to, st.amountLd).Some? {
      Sol.WalletTransferKeeps(b.sol, st.from, st.to, st.amountLd);
    }
    SolOnlyKeeps(b, Next(b, st).sol, Next(b, st).books);
  }

  lemma RhConfigKeeps(b: State, st: Step)
    requires Sane(b) && BridgeInv(b)
    requires st.RhTransfer? || st.RhSetPaused? || st.RhSetRateLimit? || st.RhTick?
    ensures BridgeInv(Next(b, st))
  {
    if st.RhTransfer? && Rh.Erc20Transfer(b.rh, st.from, st.to, st.amount).Some? {
      Rh.Erc20TransferKeeps(b.rh, st.from, st.to, st.amount);
    }
    if st.RhSetRateLimit?
      && Rh.SetRateLimit(b.rh, st.caller, st.inboundSide, st.capacity, st.refillAmount, st.refillDuration).Some? {
      Rh.SetRateLimitKeeps(b.rh, st.caller, st.inboundSide, st.capacity, st.refillAmount, st.refillDuration);
    }
    RhOnlyKeeps(b, Next(b, st).rh);
  }

  /** Every step of every kind keeps the custody invariant. */
  lemma NextKeeps(b: State, st: Step)
    requires Sane(b) && BridgeInv(b)
    ensures BridgeInv(Next(b, st))
  {
    match st
    case SolSend(guid, source, receiver, amount, minAmount) =>
      SolSendKeeps(b, guid, source, receiver, amount, minAmount);
    case SolReceive(guid) => SolReceiveKeeps(b, guid);
    case RhSend(guid, from, receiver, amount, minAmount) => RhSendKeeps(b, guid, from, receiver, amount, minAmount);
    case RhReceive(guid) => RhReceiveKeeps(b, guid);
    case SolWithdrawFee(_, _, _) => SolTokenKeeps(b, st);
    case SolTransfer(_, _, _) => SolTokenKeeps(b, st);
    case RhTransfer(_, _, _) => RhConfigKeeps(b, st);
    case RhSetPaused(_, _) => RhConfigKeeps(b, st);
    case RhSetRateLimit(_, _, _, _, _) => RhConfigKeeps(b, st);
    case RhTick(_) => RhConfigKeeps(b, st);
    case _ => SolConfigKeeps(b, st);
  }

  lemma {:induction false} RunKeeps(b: State, steps: seq<Step>)
    requires Sane(b) && BridgeInv(b)
    ensures BridgeInv(Run(b, steps))
    decreases |steps|
  {
    if steps != [] {
      NextKeeps(b, steps[0]);
      RunKeeps(Next(b, steps[0]), steps[1..]);
    }
  }

  lemma PartsCovered(rate: nat, supply: nat, outward: nat, homeward: nat)
    ensures supply * rate <= rate * (supply + outward + homeward)
    ensures outward * rate <= rate * (supply + outward + homeward)
    ensures homeward * rate <= rate * (supply + outward + homeward)
  {
    var all := supply + outward + homeward;
    MulMono(supply, all, rate);
    MulMono(outward, all, rate);
    MulMono(homeward, all, rate);
  }

  lemma LiabilitiesCovered(s: State)
    requires BridgeInv(s)
    ensures s.rh.supply * s.sol.rate <= s.sol.tvl
    ensures Undelivered(s.packets, SolanaToRobinhood) * s.sol.rate <= s.sol.tvl
    ensures Undelivered(s.packets, RobinhoodToSolana) * s.sol.rate <= s.sol.tvl
  {
    PartsCovered(s.sol.rate, s.rh.supply, Undelivered(s.packets, SolanaToRobinhood),
                 Undelivered(s.packets, RobinhoodToSolana));
  }

  /** Recorded principal is what both chains owe, it covers the supply, and escrow covers it. */
  ghost predicate Conserved(s: State) {
    && s.sol.tvl == s.sol.rate * (s.rh.supply + Undelivered(s.packets, SolanaToRobinhood)
                                  + Undelivered(s.packets, RobinhoodToSolana))
    && s.rh.supply * s.sol.rate <= s.sol.tvl <= Sol.EscrowOf(s.sol)
    && s.rh.supply == Total(s.rh.balances)
  }

  lemma CustodyFacts(s: State)
    requires BridgeInv(s)
    ensures Conserved(s)
  {
    LiabilitiesCovered(s);
  }

  /**
   Conservation, over every interleaving from deployment: recorded principal is exactly the Robinhood supply
   plus both in-flight directions, it covers the supply, and escrow covers it.
   */
  lemma Conservation(b: State, steps: seq<Step>)
    requires IsGenesis(b) && Sane(b)
    ensures Conserved(Run(b, steps))
  {
    GenesisKeeps(b);
    RunKeeps(b, steps);
    CustodyFacts(Run(b, steps));
  }

  /**
   The surplus over principal is exactly application fees plus donations less withdrawals, so the
   subtraction in `withdraw_fee` never underflows and withdrawals never reach principal.
   */
  lemma SurplusIsFeesAndDonations(b: State, steps: seq<Step>)
    requires IsGenesis(b) && Sane(b)
    ensures var s := Run(b, steps);
      && Sol.EscrowOf(s.sol) - s.sol.tvl == s.books.fees + s.books.donations - s.books.withdrawals
      && s.books.withdrawals <= s.books.fees + s.books.donations
  {
    GenesisKeeps(b);
    RunKeeps(b, steps);
  }

  lemma SendIssue(b: State, guid: string, source: Key, receiver: string, amount: u64, minAmount: u64)
    requires Sane(b) && Sol.AdapterInv(b.sol)
    ensures Issued(AfterSolSend(b, guid, source, receiver, amount, minAmount).sol.ledger) == Issued(b.sol.ledger)
  {
    if Sol.Send(b.sol, source, amount, minAmount).Some? {
      Sol.SendKeeps(b.sol, source, amount, minAmount);
    }
  }

  lemma TokenIssue(b: State, st: Step)
    requires Sane(b) && Sol.AdapterInv(b.sol) && (st.SolWithdrawFee? || st.SolTransfer?)
    ensures Issued(Next(b, st).sol.ledger) == Issued(b.sol.ledger)
  {
    if st.SolWithdrawFee? {
      Sol.WithdrawFeeKeeps(b.sol, st.signer, st.dest, st.fee);
    } else if Sol.WalletTransfer(b.sol, st.from, st.to, st.amountLd).Some? {
      Sol.WalletTransferKeeps(b.sol, st.from, st.to, st.amountLd);
    }
  }

  lemma OtherIssue(b: State, st: Step)
    requires Sane(b) && !st.SolSend? && !st.SolReceive? && !st.SolWithdrawFee? && !st.SolTransfer?
    ensures Next(b, st).sol.ledger == b.sol.ledger
  {
  }

  lemma ReceiveIssue(b: State, guid: string)
    requires Sane(b) && BridgeInv(b)
    ensures Issued(AfterSolReceive(b, guid).sol.ledger) == Issued(b.sol.ledger)
  {
    var i := Pending(b.packets, guid, RobinhoodToSolana);
    if i.Some? {
      var p := b.packets[i.value];
      assert PacketOk(p, b.sol.rate);
      ReceiverIsNotEscrow(p);
      if Sol.Receive(b.sol, p.receiver, p.amountSd).Some? {
        Sol.ReceiveKeeps(b.sol, p.receiver, p.amountSd);
      }
    }
  }

  lemma NextIssue(b: State, st: Step)
    requires Sane(b) && BridgeInv(b)
    ensures Issued(Next(b, st).sol.ledger) == Issued(b.sol.ledger)
  {
    match st
    case SolSend(guid, source, receiver, amount, minAmount) => SendIssue(b, guid, source, receiver, amount, minAmount);
    case SolReceive(guid) => ReceiveIssue(b, guid);
    case SolWithdrawFee(_, _, _) => TokenIssue(b, st);
    case SolTransfer(_, _, _) => TokenIssue(b, st);
    case _ => OtherIssue(b, st);
  }

  /** No step of the bridge creates or destroys canonical tokens. */
  lemma {:induction false} IssueIsConstant(b: State, steps: seq<Step>)
    requires Sane(b) && BridgeInv(b)
    ensures Issued(Run(b, steps).sol.ledger) == Issued(b.sol.ledger)
    decreases |steps|
  {
    if steps != [] {
      NextIssue(b, steps[0]);
      NextKeeps(b, steps[0]);
      IssueIsConstant(Next(b, steps[0]), steps[1..]);
    }
  }

  // ---------- activation order ----------

  predicate UnpausesSolana(st: Step) {
    || (st.SolSetPause? && !st.paused)
    || (st.SolSetOftConfig? && st.config.SetPaused? && !st.config.paused)
  }

  lemma {:induction false} PausedSolanaStands(b: State, steps: seq<Step>)
    requires Sane(b) && b.sol.paused && forall i :: 0 <= i < |steps| ==> !UnpausesSolana(steps[i])
    ensures Run(b, steps).sol.paused && Run(b, steps).sol.tvl == b.sol.tvl && Run(b, steps).sol.rate == b.sol.rate
    decreases |steps|
  {
    if steps != [] {
      PausedSolanaStands(Next(b, steps[0]), steps[1..]);
    }
  }

  /**
   While Solana has never been unpaused no value exists anywhere, whatever else is configured and even if
   Robinhood is unpaused: supply, every balance, both in-flight totals and recorded principal stay zero,
   although zero-amount packets may exist.
   */
  lemma NoValueBeforeSolanaActivation(b: State, steps: seq<Step>)
    requires IsGenesis(b) && Sane(b) && forall i :: 0 <= i < |steps| ==> !UnpausesSolana(steps[i])
    ensures var s := Run(b, steps);
      && s.sol.tvl == 0 && s.rh.supply == 0
      && Undelivered(s.packets, SolanaToRobinhood) == 0 && Undelivered(s.packets, RobinhoodToSolana) == 0
      && forall k :: BalanceOf(s.rh.balances, k) == 0
  {
    GenesisKeeps(b);
    PausedSolanaStands(b, steps);
    RunKeeps(b, steps);
    var s := Run(b, steps);
    MulMono(1, s.sol.rate, Liabilities(s));
    forall k
      ensures BalanceOf(s.rh.balances, k) == 0
    {
      BalanceAtMostTotal(s.rh.balances, k);
    }
  }

  predicate UnpausesRobinhood(st: Step) {
    st.RhSetPaused? && !st.paused
  }

  lemma PausedNext(b: State, st: Step)
    requires Sane(b) && b.sol.paused && b.rh.paused && !UnpausesSolana(st) && !UnpausesRobinhood(st)
    ensures var s := Next(b, st);
      s.sol.paused && s.rh.paused && s.sol.tvl == b.sol.tvl && s.rh.supply == b.rh.supply && s.packets == b.packets
  {
  }

  /**
   While both applications stay paused, recorded principal, supply and every packet stand still, so evidence
   gathered at any moment of the interval describes all of it.
   */
  lemma {:induction false} PausedBridgeStands(b: State, steps: seq<Step>)
    requires Sane(b) && b.sol.paused && b.rh.paused
    requires forall i :: 0 <= i < |steps| ==> !UnpausesSolana(steps[i]) && !UnpausesRobinhood(steps[i])
    ensures var s := Run(b, steps);
      s.sol.paused && s.rh.paused && s.sol.tvl == b.sol.tvl && s.rh.supply == b.rh.supply && s.packets == b.packets
    decreases |steps|
  {
    if steps != [] {
      PausedNext(b, steps[0]);
      PausedBridgeStands(Next(b, steps[0]), steps[1..]);
    }
  }
}
