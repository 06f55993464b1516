/**
 The Solana OFT Adapter (programs/oft/src/instructions): lock, unlock, fee withdrawal and configuration.

 Each instruction is a function on the account data that is None when the transaction aborts.  The class
 `OftAdapter` runs the instruction bodies statement by statement on mutable accounts: a body may fail
 half-way, and the transaction around it restores every account.
 */
module SolanaAdapter {
  import opened Num
  import opened FeeMath
  import opened TokenLedger
  import opened SolanaRateLimiter
  import opened Bytes
  import M = MsgCodec
  import C = ComposeMsgCodec

  /** The escrow token account; its authority is the store itself, so no signer can name it as a source. */
  const ESCROW: Key := "escrow"

  datatype AdapterState = AdapterState(
    clock: u64,
    rate: u64,
    tvl: u64,
    admin: Key,
    defaultFeeBps: u16,
    paused: bool,
    pauser: Option<Key>,
    unpauser: Option<Key>,
    peerFeeBps: Option<u16>,
    limits: Limits,
    mintFee: Option<TransferFee>,
    ledger: Ledger)

  function Fees(s: AdapterState): FeeConfig {
    FeeConfig(Adapter, s.rate, s.defaultFeeBps, s.peerFeeBps)
  }

  function EscrowOf(s: AdapterState): nat {
    BalanceOf(s.ledger.accounts, ESCROW)
  }

  ghost predicate AdapterInv(s: AdapterState) {
    && AllowedFees(Fees(s)) && ValidMintFee(s.mintFee) && LimitsOk(s.limits) && LimitsCurrent(s.limits, s.clock)
    && ESCROW in s.ledger.accounts
    && s.tvl <= EscrowOf(s)
    && Issued(s.ledger) <= U64_MAX
  }

  // ---------- instructions ----------

  function Initialized(clock: u64, admin: Key, decimals: u8, sharedDecimals: u8, mintFee: Option<TransferFee>,
                       ledger: Ledger)
    : Option<AdapterState>
  {
    if decimals < sharedDecimals || Pow10(decimals - sharedDecimals) > U64_MAX || ESCROW in ledger.accounts then None
    else Some(AdapterState(clock, Pow10(decimals - sharedDecimals), 0, admin, 0, true, None, None, None,
                           Limits(None, None), mintFee, Opened(ledger, ESCROW)))
  }

  datatype Sent = Sent(state: AdapterState, amounts: Amounts, amountSd: nat)

  function Send(s: AdapterState, source: Key, amount: u64, minAmount: u64): Option<Sent>
    requires s.rate > 0 && ValidMintFee(s.mintFee)
  {
    if s.paused || source == ESCROW then None
    else
      var a := ComputeFeeAndAdjustAmount(amount, Fees(s), s.mintFee);
      if a.None? || a.value.received < minAmount then None
      else
        var received := a.value.received;
        var limits := AfterSend(s.limits, received, s.clock);
        if limits.None? || s.tvl + received > U64_MAX then None
        else
          var ledger := Transfer(s.ledger, s.mintFee, source, ESCROW, a.value.sent);
          if ledger.None? then None
          else Some(Sent(s.(limits := limits.value, tvl := s.tvl + received, ledger := ledger.value),
                         a.value, Ld2Sd(s.rate, received)))
  }

  datatype Received = Received(state: AdapterState, creditedLd: u64)

  function Receive(s: AdapterState, to: Key, amountSd: nat): Option<Received>
    requires ValidMintFee(s.mintFee)
  {
    var ld := Sd2Ld(s.rate, amountSd);
    if s.paused || ld.None? then None
    else
      var limits := AfterReceive(s.limits, ld.value, s.clock);
      if limits.None? || ld.value > s.tvl then None
      else
        var ledger := Transfer(Opened(s.ledger, to), s.mintFee, ESCROW, to, ld.value);
        if ledger.None? then None
        else Some(Received(s.(limits := limits.value, tvl := s.tvl - ld.value, ledger := ledger.value),
                           GetPostFeeAmount(s.mintFee, ld.value)))
  }

  /** What the accounts passed in and the Endpoint answer during a send. */
  datatype SendReply = SendReply(senderMatches: bool, accepted: bool)

  lemma QuotientFits(amount: u64, rate: u64)
    requires rate > 0
    ensures 0 <= Ld2Sd(rate, amount) <= amount
  {
    FloorAdjoint(amount, rate, amount + 1);
    MulMono(1, rate, amount + 1);
  }

  datatype Messaged = Messaged(state: AdapterState, amounts: Amounts, message: seq<byte>)

  /** A send with its message: the sender account matches and the Endpoint accepts. */
  function SendMessage(s: AdapterState, source: Key, amount: u64, minAmount: u64, to: seq<byte>, signer: seq<byte>,
                       composeMsg: Option<seq<byte>>, reply: SendReply): Option<Messaged>
    requires s.rate > 0 && ValidMintFee(s.mintFee)
  {
    var sent := Send(s, source, amount, minAmount);
    if !reply.senderMatches || !reply.accepted || sent.None? then None
    else
      QuotientFits(sent.value.amounts.received, s.rate);
      Some(Messaged(sent.value.state, sent.value.amounts, M.Encoded(to, sent.value.amountSd, signer, composeMsg)))
  }

  /** What the Endpoint answers during a receive. */
  datatype ReceiveReply = ReceiveReply(cleared: bool, composeAccepted: bool)

  /** A receive from its message: the payload clears, is long enough, and its compose part is accepted. */
  function ReceiveMessage(s: AdapterState, to: Key, message: seq<byte>, reply: ReceiveReply): Option<Received>
    requires ValidMintFee(s.mintFee)
  {
    if !reply.cleared || M.AmountSdOf(message).None?
      || (M.ComposeMsgOf(message).Some? && !reply.composeAccepted) then None
    else Receive(s, to, M.AmountSdOf(message).value)
  }

  /** What a receive hands to the composed call, if there is one. */
  function ComposedMessage(message: seq<byte>, nonce: u64, srcEid: C.u32, creditedLd: u64): Option<seq<byte>> {
    var part := M.ComposeMsgOf(message);
    if part.None? then None else Some(C.Encoded(nonce, srcEid, creditedLd, part.value))
  }

  function WithdrawFee(s: AdapterState, signer: Key, dest: Key, fee: u64): Option<AdapterState>
    requires ValidMintFee(s.mintFee)
  {
    if signer != s.admin || EscrowOf(s) < s.tvl || EscrowOf(s) - s.tvl < fee then None
    else
      var ledger := Transfer(s.ledger, s.mintFee, ESCROW, dest, fee);
      if ledger.None? then None else Some(s.(ledger := ledger.value))
  }

  datatype OftConfig =
    | SetAdmin(admin: Key)
    | SetDefaultFee(bps: u16)
    | SetPaused(paused: bool)
    | SetPauser(pauser: Option<Key>)
    | SetUnpauser(unpauser: Option<Key>)

  function SetOftConfig(s: AdapterState, signer: Key, c: OftConfig): Option<AdapterState> {
    if signer != s.admin then None
    else match c
      case SetAdmin(k) => Some(s.(admin := k))
      case SetDefaultFee(bps) => if bps < MAX_FEE_BASIS_POINTS then Some(s.(defaultFeeBps := bps)) else None
      case SetPaused(p) => Some(s.(paused := p))
      case SetPauser(k) => Some(s.(pauser := k))
      case SetUnpauser(k) => Some(s.(unpauser := k))
  }

  predicate IsValidSigner(s: AdapterState, signer: Key, paused: bool) {
    if paused then s.pauser == Some(signer) else s.unpauser == Some(signer)
  }

  function SetPause(s: AdapterState, signer: Key, paused: bool): Option<AdapterState> {
    if IsValidSigner(s, signer, paused) then Some(s.(paused := paused)) else None
  }

  datatype PeerConfig =
    | FeeBps(bps: Option<u16>)
    | OutboundRateLimit(params: Option<RateLimitParams>)
    | InboundRateLimit(params: Option<RateLimitParams>)

  function UpdatedLimiter(l: Option<Limiter>, p: Option<RateLimitParams>, now: u64): Option<Limiter> {
    if p.None? then None else Some(Reconfigured(l, p.value, now))
  }

  function SetPeerConfig(s: AdapterState, signer: Key, c: PeerConfig): Option<AdapterState> {
    if signer != s.admin then None
    else match c
      case FeeBps(bps) =>
        if bps.Some? && bps.value >= MAX_FEE_BASIS_POINTS then None else Some(s.(peerFeeBps := bps))
      case OutboundRateLimit(p) =>
        Some(s.(limits := s.limits.(outbound := UpdatedLimiter(s.limits.outbound, p, s.clock))))
      case InboundRateLimit(p) =>
        Some(s.(limits := s.limits.(inbound := UpdatedLimiter(s.limits.inbound, p, s.clock))))
  }

  /** An ordinary token transfer between wallets; into the escrow it is a donation. */
  function WalletTransfer(s: AdapterState, from: Key, to: Key, amount: u64): Option<AdapterState>
    requires ValidMintFee(s.mintFee)
  {
    if from == ESCROW then None
    else
      var ledger := Transfer(s.ledger, s.mintFee, from, to, amount);
      if ledger.None? then None else Some(s.(ledger := ledger.value))
  }

  // ---------- what each instruction keeps ----------

  lemma InitializedKeeps(clock: u64, admin: Key, decimals: u8, sharedDecimals: u8, mintFee: Option<TransferFee>,
                         ledger: Ledger)
    requires ValidMintFee(mintFee) && Issued(ledger) <= U64_MAX
    requires Initialized(clock, admin, decimals, sharedDecimals, mintFee, ledger).Some?
    ensures var s := Initialized(clock, admin, decimals, sharedDecimals, mintFee, ledger).value;
      AdapterInv(s) && s.paused && s.tvl == 0 && EscrowOf(s) == 0
  {
    OpenedConserves(ledger, ESCROW);
  }

  /** A send locks the principal it announces, plus the application fee, and nothing else moves. */
  lemma SendKeeps(s: AdapterState, source: Key, amount: u64, minAmount: u64)
    requires AdapterInv(s)
    ensures var o := Send(s, source, amount, minAmount);
      o.Some? ==>
        var r := o.value;
        && AdapterInv(r.state)
        && r.state.tvl == s.tvl + r.amounts.received
        && EscrowOf(r.state) == EscrowOf(s) + r.amounts.received + r.amounts.fee
        && r.amounts.received == r.amountSd * s.rate
        && r.amountSd <= U64_MAX
        && r.amounts.received >= minAmount && r.amounts.sent <= amount
        && Issued(r.state.ledger) == Issued(s.ledger)
  {
    var o := Send(s, source, amount, minAmount);
    if o.Some? {
      var r := o.value;
      AdapterAmounts(amount, Fees(s), s.mintFee);
      DustFreeFixed(s.rate, r.amounts.received);
      MulMono(1, s.rate, r.amountSd);
      TransferConserves(s.ledger, s.mintFee, source, ESCROW, r.amounts.sent);
      if s.limits.outbound.Some? {
        assert WellFilled(r.state.limits.outbound.value);
      }
    }
  }

  lemma ReceiveKeeps(s: AdapterState, to: Key, amountSd: nat)
    requires AdapterInv(s) && to != ESCROW && Receive(s, to, amountSd).Some?
    ensures var r := Receive(s, to, amountSd).value;
      && AdapterInv(r.state)
      && s.tvl == r.state.tvl + amountSd * s.rate
      && EscrowOf(s) == EscrowOf(r.state) + amountSd * s.rate
      && BalanceOf(r.state.ledger.accounts, to) == BalanceOf(s.ledger.accounts, to) + r.creditedLd
      && Issued(r.state.ledger) == Issued(s.ledger)
  {
    OpenedConserves(s.ledger, to);
    TransferConserves(Opened(s.ledger, to), s.mintFee, ESCROW, to, amountSd * s.rate);
  }

  /** An unpaused receive fails only for want of recorded principal or limiter tokens: escrow always suffices. */
  lemma ReceiveEnabled(s: AdapterState, to: Key, amountSd: nat)
    requires AdapterInv(s) && to != ESCROW
    ensures Receive(s, to, amountSd).Some?
            <==> !s.paused && amountSd * s.rate <= s.tvl
                 && (s.limits.inbound.Some? ==> amountSd * s.rate <= Level(s.limits.inbound.value, 0, s.clock))
  {
    OpenedConserves(s.ledger, to);
    if amountSd * s.rate <= s.tvl {
      TransferConserves(Opened(s.ledger, to), s.mintFee, ESCROW, to, amountSd * s.rate);
    }
  }

  /** The admin can take exactly the surplus over recorded principal, and never principal. */
  lemma WithdrawFeeKeeps(s: AdapterState, signer: Key, dest: Key, fee: u64)
    requires AdapterInv(s)
    ensures WithdrawFee(s, signer, dest, fee).Some?
            <==> signer == s.admin && fee <= EscrowOf(s) - s.tvl && dest in s.ledger.accounts
    ensures WithdrawFee(s, signer, dest, fee).Some? ==>
              var s' := WithdrawFee(s, signer, dest, fee).value;
              && AdapterInv(s') && s'.tvl == s.tvl
              && EscrowOf(s') == (if dest == ESCROW then EscrowOf(s) else EscrowOf(s) - fee)
              && Issued(s'.ledger) == Issued(s.ledger)
  {
    TransferConserves(s.ledger, s.mintFee, ESCROW, dest, fee);
  }

  lemma WalletTransferKeeps(s: AdapterState, from: Key, to: Key, amount: u64)
    requires AdapterInv(s) && WalletTransfer(s, from, to, amount).Some?
    ensures var s' := WalletTransfer(s, from, to, amount).value;
      && AdapterInv(s') && s'.tvl == s.tvl
      && EscrowOf(s') == EscrowOf(s) + (if to == ESCROW then GetPostFeeAmount(s.mintFee, amount) else 0)
      && Issued(s'.ledger) == Issued(s.ledger)
  {
    TransferConserves(s.ledger, s.mintFee, from, to, amount);
  }

  lemma SetPeerConfigKeeps(s: AdapterState, signer: Key, c: PeerConfig)
    requires AdapterInv(s) && SetPeerConfig(s, signer, c).Some?
    ensures var s' := SetPeerConfig(s, signer, c).value;
      AdapterInv(s') && s'.tvl == s.tvl && s'.ledger == s.ledger && s'.rate == s.rate && s'.paused == s.paused
  {
  }

  /**
   An unpaused send succeeds exactly when enough arrives, the outbound limiter has it, and the source can pay for it;
   principal never overflows.
   */
  lemma SendEnabled(s: AdapterState, source: Key, amount: u64, minAmount: u64)
    requires AdapterInv(s)
    ensures ComputeFeeAndAdjustAmount(amount, Fees(s), s.mintFee).Some?
    ensures var a := ComputeFeeAndAdjustAmount(amount, Fees(s), s.mintFee).value;
      Send(s, source, amount, minAmount).Some?
      <==> && !s.paused && source != ESCROW && minAmount <= a.received
           && (s.limits.outbound.Some? ==> a.received <= Level(s.limits.outbound.value, 0, s.clock))
           && source in s.ledger.accounts && a.sent <= s.ledger.accounts[source]
  {
    AdapterAmounts(amount, Fees(s), s.mintFee);
    var a := ComputeFeeAndAdjustAmount(amount, Fees(s), s.mintFee).value;
    NetAtMost(s.mintFee, a.sent);
    TransferConserves(s.ledger, s.mintFee, source, ESCROW, a.sent);
    if source != ESCROW {
      TwoBalancesAtMostTotal(s.ledger.accounts, source, ESCROW);
    }
  }

  // ---------- who pays and who is paid ----------

  /** A send is paid by its source, into escrow. */
  lemma SendPays(s: AdapterState, source: Key, amount: u64, minAmount: u64)
    requires AdapterInv(s) && Send(s, source, amount, minAmount).Some?
    ensures var r := Send(s, source, amount, minAmount).value;
      && Some(r.amounts) == ComputeFeeAndAdjustAmount(amount, Fees(s), s.mintFee) && source != ESCROW && !s.paused
      && BalanceOf(r.state.ledger.accounts, source) == BalanceOf(s.ledger.accounts, source) - r.amounts.sent
      && (forall k :: k != source && k != ESCROW ==>
                BalanceOf(r.state.ledger.accounts, k) == BalanceOf(s.ledger.accounts, k))
      && r.state == s.(tvl := r.state.tvl, limits := r.state.limits, ledger := r.state.ledger)
  {
    TransferPays(s.ledger, s.mintFee, source, ESCROW, Send(s, source, amount, minAmount).value.amounts.sent);
  }

  /** A receive pays its recipient, out of escrow. */
  lemma ReceivePays(s: AdapterState, to: Key, amountSd: nat)
    requires AdapterInv(s) && to != ESCROW && Receive(s, to, amountSd).Some?
    ensures var r := Receive(s, to, amountSd).value;
      && r.creditedLd == GetPostFeeAmount(s.mintFee, amountSd * s.rate) && !s.paused
      && BalanceOf(r.state.ledger.accounts, to) == BalanceOf(s.ledger.accounts, to) + r.creditedLd
      && (forall k :: k != to && k != ESCROW ==>
                BalanceOf(r.state.ledger.accounts, k) == BalanceOf(s.ledger.accounts, k))
      && r.state == s.(tvl := r.state.tvl, limits := r.state.limits, ledger := r.state.ledger)
  {
    TransferPays(Opened(s.ledger, to), s.mintFee, ESCROW, to, amountSd * s.rate);
  }

  /** A fee withdrawal pays its destination, out of escrow. */
  lemma WithdrawFeePays(s: AdapterState, signer: Key, dest: Key, fee: u64)
    requires AdapterInv(s) && WithdrawFee(s, signer, dest, fee).Some?
    ensures var s' := WithdrawFee(s, signer, dest, fee).value;
      && s' == s.(ledger := s'.ledger)
      && (forall k :: k != dest && k != ESCROW ==> BalanceOf(s'.ledger.accounts, k) == BalanceOf(s.ledger.accounts, k))
      && (dest != ESCROW ==>
            BalanceOf(s'.ledger.accounts, dest)
            == BalanceOf(s.ledger.accounts, dest) + GetPostFeeAmount(s.mintFee, fee))
  {
    TransferPays(s.ledger, s.mintFee, ESCROW, dest, fee);
  }

  /** A wallet transfer succeeds exactly for a holder of the amount, and moves it. */
  lemma WalletTransferPays(s: AdapterState, from: Key, to: Key, amount: u64)
    requires AdapterInv(s)
    ensures WalletTransfer(s, from, to, amount).Some?
            <==> from != ESCROW && from in s.ledger.accounts && to in s.ledger.accounts
                 && amount <= BalanceOf(s.ledger.accounts, from)
    ensures WalletTransfer(s, from, to, amount).Some? ==>
              var s' := WalletTransfer(s, from, to, amount).value;
              && s' == s.(ledger := s'.ledger)
              && (forall k :: k != from && k != to ==>
                        BalanceOf(s'.ledger.accounts, k) == BalanceOf(s.ledger.accounts, k))
              && (if from == to then s' == s
                  else BalanceOf(s'.ledger.accounts, from) == BalanceOf(s.ledger.accounts, from) - amount
                       && BalanceOf(s'.ledger.accounts, to)
                          == BalanceOf(s.ledger.accounts, to) + GetPostFeeAmount(s.mintFee, amount))
  {
    TransferConserves(s.ledger, s.mintFee, from, to, amount);
    if WalletTransfer(s, from, to, amount).Some? {
      TransferPays(s.ledger, s.mintFee, from, to, amount);
    }
  }

  /** The store is created for the admin named, at the rate between local and shared decimals. */
  lemma InitializedExactly(clock: u64, admin: Key, decimals: u8, sharedDecimals: u8, mintFee: Option<TransferFee>,
                           ledger: Ledger)
    ensures var s := Initialized(clock, admin, decimals, sharedDecimals, mintFee, ledger);
      && (s.Some? <==> decimals >= sharedDecimals && Pow10(decimals) <= U64_MAX * Pow10(sharedDecimals)
                       && ESCROW !in ledger.accounts)
      && (s.Some? ==>
            && s.value.rate * Pow10(sharedDecimals) == Pow10(decimals)
            && s.value.admin == admin && s.value.pauser == None && s.value.unpauser == None
            && s.value.defaultFeeBps == 0 && s.value.peerFeeBps == None && s.value.limits == Limits(None, None)
            && s.value.clock == clock && s.value.mintFee == mintFee
            && forall k :: BalanceOf(s.value.ledger.accounts, k) == BalanceOf(ledger.accounts, k))
  {
    if decimals >= sharedDecimals {
      Pow10Sum(decimals - sharedDecimals, sharedDecimals);
      var (r, q) := (Pow10(decimals - sharedDecimals), Pow10(sharedDecimals));
      if r <= U64_MAX {
        MulMono(r, U64_MAX, q);
      } else {
        MulMono(U64_MAX + 1, r, q);
        Distribute(U64_MAX, 1, q);
      }
    }
  }

  /** With a side paused nothing is sent or received. */
  lemma PausedRefuses(s: AdapterState, source: Key, amount: u64, minAmount: u64, to: Key, amountSd: nat)
    requires s.rate > 0 && ValidMintFee(s.mintFee) && s.paused
    ensures Send(s, source, amount, minAmount).None? && Receive(s, to, amountSd).None?
  {
  }

  // ---------- the program on mutable accounts ----------

  class OftAdapter {
    var clock: u64
    var rate: u64
    var tvl: u64
    var admin: Key
    var defaultFeeBps: u16
    var paused: bool
    var pauser: Option<Key>
    var unpauser: Option<Key>
    var peerFeeBps: Option<u16>
    var hasOutbound: bool
    var hasInbound: bool

    const outbound: RateLimiter
    const inbound: RateLimiter

    var mintFee: Option<TransferFee>
    var ledger: Ledger

    predicate Valid()
      reads this
    {
      outbound != inbound && rate > 0 && ValidMintFee(mintFee)
    }

    function View(): AdapterState
      reads this, outbound, inbound
    {
      AdapterState(clock, rate, tvl, admin, defaultFeeBps, paused, pauser, unpauser, peerFeeBps,
                   Limits(if hasOutbound then Some(outbound.View()) else None,
                          if hasInbound then Some(inbound.View()) else None),
                   mintFee, ledger)
    }

    constructor (now: u64, fee: Option<TransferFee>, tokens: Ledger)
      requires ValidMintFee(fee)
      ensures Valid() && fresh(outbound) && fresh(inbound)
      ensures clock == now && mintFee == fee && ledger == tokens && !hasOutbound && !hasInbound && peerFeeBps == None
    {
      clock, rate, tvl, admin, defaultFeeBps := now, 1, 0, "", 0;
      paused, pauser, unpauser, peerFeeBps := false, None, None, None;
      hasOutbound, hasInbound := false, false;
      mintFee, ledger := fee, tokens;
      outbound := new RateLimiter();
      inbound := new RateLimiter();
    }

    /** Writes the fields of the store account. */
    method WriteStore(newRate: u64, newTvl: u64, newAdmin: Key, feeBps: u16, pausedFlag: bool,
                      newPauser: Option<Key>, newUnpauser: Option<Key>)
      modifies this`rate, this`tvl, this`admin, this`defaultFeeBps, this`paused, this`pauser, this`unpauser
      ensures rate == newRate && tvl == newTvl && admin == newAdmin && defaultFeeBps == feeBps
      ensures paused == pausedFlag && pauser == newPauser && unpauser == newUnpauser
    {
      rate := newRate;
      tvl := newTvl;
      admin := newAdmin;
      defaultFeeBps := feeBps;
      paused := pausedFlag;
      pauser := newPauser;
      unpauser := newUnpauser;
    }

    /** Writes the optional limiter stored in `slot`. */
    method WriteLimiter(slot: RateLimiter, l: Option<Limiter>)
      modifies slot
      ensures l.Some? ==> slot.View() == l.value
    {
      if l.Some? {
        slot.Store(l.value);
      }
    }

    method Restore(s: AdapterState)
      requires Valid() && s.rate > 0 && ValidMintFee(s.mintFee)
      modifies this, outbound, inbound
      ensures Valid() && View() == s
    {
      WriteStore(s.rate, s.tvl, s.admin, s.defaultFeeBps, s.paused, s.pauser, s.unpauser);
      clock, peerFeeBps, mintFee, ledger := s.clock, s.peerFeeBps, s.mintFee, s.ledger;
      hasOutbound, hasInbound := s.limits.outbound.Some?, s.limits.inbound.Some?;
      WriteLimiter(outbound, s.limits.outbound);
      WriteLimiter(inbound, s.limits.inbound);
    }

    method InitOft(initialAdmin: Key, decimals: u8, sharedDecimals: u8) returns (ok: bool)
      requires Valid() && !hasOutbound && !hasInbound && peerFeeBps == None
      modifies this
      ensures Valid()
      ensures ok <==> Initialized(clock, initialAdmin, decimals, sharedDecimals, mintFee, old(ledger)).Some?
      ensures ok ==> View() == Initialized(clock, initialAdmin, decimals, sharedDecimals, mintFee, old(ledger)).value
      ensures clock == old(clock) && mintFee == old(mintFee)
      ensures !ok ==> View() == old(View())
    {
      if decimals < sharedDecimals {
        return false;
      }
      var newRate := Pow10(decimals - sharedDecimals);
      if newRate > U64_MAX || ESCROW in ledger.accounts {
        return false;
      }
      ledger := Opened(ledger, ESCROW);
      WriteStore(newRate, 0, initialAdmin, 0, true, None, None);
      return true;
    }

    /** The token part of `Send::apply`: limiters, then tvl, then the transfer; it may stop after any of them. */
    method Lock(source: Key, amount: u64, minAmount: u64) returns (r: Option<(Amounts, u64)>)
      requires Valid()
      modifies this, outbound, inbound
      ensures Valid()
      ensures r.Some? <==> Send(old(View()), source, amount, minAmount).Some?
      ensures r.Some? ==>
                var sent := Send(old(View()), source, amount, minAmount).value;
                View() == sent.state && r.value == (sent.amounts, sent.amountSd)
    {
      if paused {
        return None;
      }
      var amounts := ComputeFeeAndAdjustAmount(amount, FeeConfig(Adapter, rate, defaultFeeBps, peerFeeBps), mintFee);
      if amounts.None? || amounts.value.received < minAmount {
        return None;
      }
      var received := amounts.value.received;
      if hasOutbound {
        var ok := outbound.TryConsume(received, clock);
        if !ok {
          return None;
        }
      }
      if hasInbound {
        inbound.Refill(received, clock);
      }
      if tvl + received > U64_MAX {
        return None;
      }
      tvl := tvl + received;
      if source == ESCROW {
        return None;
      }
      var moved := Transfer(ledger, mintFee, source, ESCROW, amounts.value.sent);
      if moved.None? {
        return None;
      }
      ledger := moved.value;
      QuotientFits(received, rate);
      return Some((amounts.value, Ld2Sd(rate, received)));
    }

    /**
     `Send::apply`: lock, check the sender account, then hand the encoded message to the Endpoint, whose answers
     are parameters.
     */
    method SendApply(source: Key, amount: u64, minAmount: u64, to: seq<byte>, signer: seq<byte>,
                     composeMsg: Option<seq<byte>>, reply: SendReply) returns (r: Option<(Amounts, seq<byte>)>)
      requires Valid() && |to| == 32 && |signer| == 32
      modifies this, outbound, inbound
      ensures Valid()
      ensures r.Some? <==> SendMessage(old(View()), source, amount, minAmount, to, signer, composeMsg, reply).Some?
      ensures r.Some? ==>
                var sent := SendMessage(old(View()), source, amount, minAmount, to, signer, composeMsg, reply).value;
                View() == sent.state && r.value == (sent.amounts, sent.message)
    {
      var locked := Lock(source, amount, minAmount);
      if locked.None? || !reply.senderMatches {
        return None;
      }
      var message := M.Encode(to, locked.value.1, signer, composeMsg);
      if !reply.accepted {
        return None;
      }
      return Some((locked.value.0, message));
    }

    /** The transaction around `SendApply`: a failure anywhere leaves every account as it was. */
    method SendTransaction(source: Key, amount: u64, minAmount: u64, to: seq<byte>, signer: seq<byte>,
                           composeMsg: Option<seq<byte>>, reply: SendReply) returns (r: Option<(Amounts, seq<byte>)>)
      requires Valid() && |to| == 32 && |signer| == 32
      modifies this, outbound, inbound
      ensures Valid()
      ensures r.Some? <==> SendMessage(old(View()), source, amount, minAmount, to, signer, composeMsg, reply).Some?
      ensures r.Some? ==>
                var sent := SendMessage(old(View()), source, amount, minAmount, to, signer, composeMsg, reply).value;
                View() == sent.state && r.value == (sent.amounts, sent.message)
      ensures r.None? ==> View() == old(View())
    {
      var before := View();
      r := SendApply(source, amount, minAmount, to, signer, composeMsg, reply);
      if r.None? {
        Restore(before);
      }
    }

    /** The token part of `LzReceive::apply`. */
    method Release(to: Key, amountSd: nat) returns (r: Option<u64>)
      requires Valid() && !paused
      modifies this, outbound, inbound
      ensures Valid()
      ensures r.Some? <==> Receive(old(View()), to, amountSd).Some?
      ensures r.Some? ==>
                var received := Receive(old(View()), to, amountSd).value;
                View() == received.state && r.value == received.creditedLd
    {
      var ld := Sd2Ld(rate, amountSd);
      if ld.None? {
        return None;
      }
      if hasInbound {
        var ok := inbound.TryConsume(ld.value, clock);
        if !ok {
          return None;
        }
      }
      if hasOutbound {
        outbound.Refill(ld.value, clock);
      }
      if ld.value > tvl {
        return None;
      }
      tvl := tvl - ld.value;
      ledger := Opened(ledger, to);
      var moved := Transfer(ledger, mintFee, ESCROW, to, ld.value);
      if moved.None? {
        return None;
      }
      ledger := moved.value;
      return Some(GetPostFeeAmount(mintFee, ld.value));
    }

    /**
     `LzReceive::apply`: clear the payload, read the amount from the message, release it, and pass the compose part
     on if there is one.
     */
    method ReceiveApply(to: Key, message: seq<byte>, nonce: u64, srcEid: C.u32, reply: ReceiveReply)
      returns (r: Option<(u64, Option<seq<byte>>)>)
      requires Valid()
      modifies this, outbound, inbound
      ensures Valid()
      ensures r.Some? <==> ReceiveMessage(old(View()), to, message, reply).Some?
      ensures r.Some? ==>
                var received := ReceiveMessage(old(View()), to, message, reply).value;
                View() == received.state
                && r.value == (received.creditedLd, ComposedMessage(message, nonce, srcEid, received.creditedLd))
    {
      if paused || !reply.cleared {
        return None;
      }
      var amountSd := M.AmountSd(message);
      if amountSd.None? {
        return None;
      }
      var credited := Release(to, amountSd.value);
      if credited.None? {
        return None;
      }
      var part := M.ComposeMsg(message);
      if part.None? {
        return Some((credited.value, None));
      }
      var composed := C.Encode(nonce, srcEid, credited.value, part.value);
      if !reply.composeAccepted {
        return None;
      }
      return Some((credited.value, Some(composed)));
    }

    /** The transaction around `ReceiveApply`: a failure anywhere leaves every account as it was. */
    method ReceiveTransaction(to: Key, message: seq<byte>, nonce: u64, srcEid: C.u32, reply: ReceiveReply)
      returns (r: Option<(u64, Option<seq<byte>>)>)
      requires Valid()
      modifies this, outbound, inbound
      ensures Valid()
      ensures r.Some? <==> ReceiveMessage(old(View()), to, message, reply).Some?
      ensures r.Some? ==>
                var received := ReceiveMessage(old(View()), to, message, reply).value;
                View() == received.state
                && r.value == (received.creditedLd, ComposedMessage(message, nonce, srcEid, received.creditedLd))
      ensures r.None? ==> View() == old(View())
    {
      var before := View();
      r := ReceiveApply(to, message, nonce, srcEid, reply);
      if r.None? {
        Restore(before);
      }
    }

    method WithdrawFeeTransaction(signer: Key, dest: Key, fee: u64) returns (ok: bool)
      requires Valid()
      modifies this`ledger
      ensures Valid()
      ensures ok <==> WithdrawFee(old(View()), signer, dest, fee).Some?
      ensures View() == if ok then WithdrawFee(old(View()), signer, dest, fee).value else old(View())
    {
      var escrow := BalanceOf(ledger.accounts, ESCROW);
      if signer != admin || escrow < tvl || escrow - tvl < fee {
        return false;
      }
      var moved := Transfer(ledger, mintFee, ESCROW, dest, fee);
      if moved.None? {
        return false;
      }
      ledger := moved.value;
      return true;
    }

    method SetOftConfigTransaction(signer: Key, c: OftConfig) returns (ok: bool)
      requires Valid()
      modifies this
      ensures Valid()
      ensures ok <==> SetOftConfig(old(View()), signer, c).Some?
      ensures View() == if ok then SetOftConfig(old(View()), signer, c).value else old(View())
    {
      if signer != admin {
        return false;
      }
      match c {
        case SetAdmin(k) => admin := k;
        case SetDefaultFee(bps) =>
          if bps >= MAX_FEE_BASIS_POINTS {
            return false;
          }
          defaultFeeBps := bps;
        case SetPaused(p) => paused := p;
        case SetPauser(k) => pauser := k;
        case SetUnpauser(k) => unpauser := k;
      }
      return true;
    }

    method SetPauseTransaction(signer: Key, newPaused: bool) returns (ok: bool)
      requires Valid()
      modifies this`paused
      ensures Valid()
      ensures ok <==> SetPause(old(View()), signer, newPaused).Some?
      ensures View() == if ok then SetPause(old(View()), signer, newPaused).value else old(View())
    {
      if (newPaused && pauser != Some(signer)) || (!newPaused && unpauser != Some(signer)) {
        return false;
      }
      paused := newPaused;
      return true;
    }

    /** `update_rate_limiter`: start from the stored limiter or a zero one, then set capacity, then rate. */
    method UpdateRateLimiter(slot: RateLimiter, present: bool, p: RateLimitParams)
      modifies slot
      ensures slot.View() == Reconfigured(if present then Some(old(slot.View())) else None, p, clock)
    {
      if !present {
        slot.Store(DEFAULT_LIMITER);
      }
      if p.capacity.Some? {
        slot.SetCapacity(p.capacity.value, clock);
      }
      if p.refillPerSecond.Some? {
        slot.SetRate(p.refillPerSecond.value, clock);
      }
    }

    method SetPeerConfigTransaction(signer: Key, c: PeerConfig) returns (ok: bool)
      requires Valid()
      modifies this, outbound, inbound
      ensures Valid()
      ensures ok <==> SetPeerConfig(old(View()), signer, c).Some?
      ensures View() == if ok then SetPeerConfig(old(View()), signer, c).value else old(View())
    {
      if signer != admin {
        return false;
      }
      match c {
        case FeeBps(bps) =>
          if bps.Some? && bps.value >= MAX_FEE_BASIS_POINTS {
            return false;
          }
          peerFeeBps := bps;
        case OutboundRateLimit(p) =>
          if p.Some? {
            UpdateRateLimiter(outbound, hasOutbound, p.value);
          }
          hasOutbound := p.Some?;
        case InboundRateLimit(p) =>
          if p.Some? {
            UpdateRateLimiter(inbound, hasInbound, p.value);
          }
          hasInbound := p.Some?;
      }
      return true;
    }
  }
}
