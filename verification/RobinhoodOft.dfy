/**
 Robinhood `SanOFT` (contracts/SanOFT.sol): burn on send, mint on authenticated receive, pause and buckets.

 Burning, minting and transferring are the inherited ERC-20 steps.  SAN has six local and six shared
 decimals, so amounts on this chain are shared-decimal amounts and there is no dust.
 */
module RobinhoodOft {
  import opened Num
  import opened TokenLedger
  import opened SanOftBucket

  datatype OftState = OftState(
    clock: u64,
    owner: Key,
    paused: bool,
    outbound: Bucket,
    inbound: Bucket,
    balances: map<Key, nat>,
    supply: nat)

  ghost predicate OftInv(s: OftState) {
    && ValidBucket(s.outbound) && ValidBucket(s.inbound)
    && s.outbound.lastUpdated <= s.clock && s.inbound.lastUpdated <= s.clock
    && s.supply == Total(s.balances)
  }

  function Deployed(clock: u64, owner: Key): OftState {
    OftState(clock, owner, true, InitialBucket(clock), InitialBucket(clock), map[], 0)
  }

  function Burned(s: OftState, from: Key, amount: nat): Option<OftState> {
    if BalanceOf(s.balances, from) < amount || s.supply < amount then None
    else Some(s.(balances := s.balances[from := BalanceOf(s.balances, from) - amount], supply := s.supply - amount))
  }

  function Minted(s: OftState, to: Key, amount: nat): OftState {
    s.(balances := s.balances[to := BalanceOf(s.balances, to) + amount], supply := s.supply + amount)
  }

  /** The guard of quotes and debits. */
  predicate DebitViewPasses(s: OftState, amount: nat, minAmount: nat)
    requires s.outbound.refillDuration > 0
  {
    !s.paused && amount >= minAmount && amount <= Settled(s.outbound, s.clock).available
  }

  function Send(s: OftState, from: Key, amount: nat, minAmount: nat): Option<OftState>
    requires s.outbound.refillDuration > 0
  {
    if !DebitViewPasses(s, amount, minAmount) then None
    else
      var burned := Burned(s, from, amount);
      var drawn := Drawn(s.outbound, amount, s.clock);
      if burned.None? || drawn.None? then None else Some(burned.value.(outbound := drawn.value))
  }

  function Receive(s: OftState, to: Key, amount: nat): Option<OftState>
    requires s.inbound.refillDuration > 0
  {
    var drawn := Drawn(s.inbound, amount, s.clock);
    if s.paused || drawn.None? then None else Some(Minted(s.(inbound := drawn.value), to, amount))
  }

  function Erc20Transfer(s: OftState, from: Key, to: Key, amount: nat): Option<OftState> {
    if BalanceOf(s.balances, from) < amount then None
    else
      var debited := s.balances[from := BalanceOf(s.balances, from) - amount];
      Some(s.(balances := debited[to := BalanceOf(debited, to) + amount]))
  }

  function SetPaused(s: OftState, caller: Key, paused: bool): Option<OftState> {
    if caller != s.owner || s.paused == paused then None else Some(s.(paused := paused))
  }

  function SetRateLimit(s: OftState, caller: Key, inboundSide: bool, capacity: nat, refillAmount: nat,
                        refillDuration: u64)
    : Option<OftState>
    requires s.outbound.refillDuration > 0 && s.inbound.refillDuration > 0
  {
    var b := Configured(if inboundSide then s.inbound else s.outbound, s.clock, capacity, refillAmount, refillDuration);
    if caller != s.owner || b.None? then None
    else Some(if inboundSide then s.(inbound := b.value) else s.(outbound := b.value))
  }

  // ---------- what each operation keeps ----------

  lemma DeployedKeeps(clock: u64, owner: Key)
    ensures OftInv(Deployed(clock, owner))
  {
  }

  /**
   A fresh contract is paused and empty and belongs to its delegate.  Each direction can draw 500,000 SAN at once, and
   refills as much in a day.
   */
  lemma DeployedExactly(clock: u64, owner: Key, amount: nat)
    ensures var s := Deployed(clock, owner);
      && s.owner == owner && s.clock == clock && s.paused && s.supply == 0
      && (forall k :: BalanceOf(s.balances, k) == 0)
      && (Drawn(s.outbound, amount, clock).Some? <==> amount <= 500_000_000_000)
      && (Drawn(s.inbound, amount, clock).Some? <==> amount <= 500_000_000_000)
      && s.inbound == s.outbound && s.outbound.capacity == s.outbound.refillAmount
      && s.outbound.refillDuration == 24 * 60 * 60
  {
    DrawableExactly(InitialBucket(clock), amount, clock);
    MulMono(0, amount, 86_400);
  }

  /** Supply is the sum of balances, so a burn that the balance allows is allowed by the supply. */
  lemma SendKeeps(s: OftState, from: Key, amount: nat, minAmount: nat)
    requires OftInv(s)
    ensures Send(s, from, amount, minAmount).Some?
            <==> DebitViewPasses(s, amount, minAmount) && amount <= BalanceOf(s.balances, from)
    ensures Send(s, from, amount, minAmount).Some? ==>
              var s' := Send(s, from, amount, minAmount).value;
              OftInv(s') && s'.supply == s.supply - amount && amount <= s.outbound.capacity <= U64_MAX
  {
    BalanceAtMostTotal(s.balances, from);
    if Send(s, from, amount, minAmount).Some? {
      DrawnIsValid(s.outbound, amount, s.clock);
      TotalUpdated(s.balances, from, BalanceOf(s.balances, from) - amount);
    }
  }

  lemma ReceiveKeeps(s: OftState, to: Key, amount: nat)
    requires OftInv(s) && Receive(s, to, amount).Some?
    ensures var s' := Receive(s, to, amount).value;
      && OftInv(s') && s'.supply == s.supply + amount
      && BalanceOf(s'.balances, to) == BalanceOf(s.balances, to) + amount
  {
    DrawnIsValid(s.inbound, amount, s.clock);
    TotalUpdated(s.balances, to, BalanceOf(s.balances, to) + amount);
  }

  lemma Erc20TransferKeeps(s: OftState, from: Key, to: Key, amount: nat)
    requires OftInv(s) && Erc20Transfer(s, from, to, amount).Some?
    ensures OftInv(Erc20Transfer(s, from, to, amount).value)
    ensures Erc20Transfer(s, from, to, amount).value.supply == s.supply
  {
    var debited := s.balances[from := BalanceOf(s.balances, from) - amount];
    TotalUpdated(s.balances, from, BalanceOf(s.balances, from) - amount);
    TotalUpdated(debited, to, BalanceOf(debited, to) + amount);
  }

  lemma SetRateLimitKeeps(s: OftState, caller: Key, inboundSide: bool, capacity: nat, refillAmount: nat,
                          refillDuration: u64)
    requires OftInv(s) && SetRateLimit(s, caller, inboundSide, capacity, refillAmount, refillDuration).Some?
    ensures OftInv(SetRateLimit(s, caller, inboundSide, capacity, refillAmount, refillDuration).value)
  {
    ConfiguredNeverAdds(if inboundSide then s.inbound else s.outbound, s.clock, capacity, refillAmount, refillDuration);
  }

  /**
   The owner reconfigures one direction within the bounds and leaves the other alone: what could be drawn there just
   before still can, up to the new capacity.
   */
  lemma SetRateLimitConfigures(s: OftState, caller: Key, inboundSide: bool, capacity: nat, refillAmount: nat,
                               refillDuration: u64, amount: nat)
    requires OftInv(s)
    ensures SetRateLimit(s, caller, inboundSide, capacity, refillAmount, refillDuration).Some?
            <==> caller == s.owner && 1 <= capacity <= U64_MAX && 1 <= refillAmount <= capacity && 1 <= refillDuration
    ensures SetRateLimit(s, caller, inboundSide, capacity, refillAmount, refillDuration).Some? ==>
              var s' := SetRateLimit(s, caller, inboundSide, capacity, refillAmount, refillDuration).value;
              var (mine, mine') := if inboundSide then (s.inbound, s'.inbound) else (s.outbound, s'.outbound);
              && s' == (if inboundSide then s.(inbound := mine') else s.(outbound := mine'))
              && ValidBucket(mine') && mine'.capacity == capacity
              && mine'.refillAmount == refillAmount && mine'.refillDuration == refillDuration
              && (Drawn(mine', amount, s.clock).Some? <==> Drawn(mine, amount, s.clock).Some? && amount <= capacity)
  {
    var mine := if inboundSide then s.inbound else s.outbound;
    ConfigurableExactly(mine, s.clock, capacity, refillAmount, refillDuration);
    if Configured(mine, s.clock, capacity, refillAmount, refillDuration).Some? {
      ConfiguredNeverAdds(mine, s.clock, capacity, refillAmount, refillDuration);
      ConfiguredKeepsLevel(mine, s.clock, capacity, refillAmount, refillDuration, amount);
    }
  }

  // ---------- who pays and who is paid ----------

  /** A send is paid by its sender alone. */
  lemma SendPays(s: OftState, from: Key, amount: nat, minAmount: nat)
    requires OftInv(s) && Send(s, from, amount, minAmount).Some?
    ensures var s' := Send(s, from, amount, minAmount).value;
      && BalanceOf(s'.balances, from) == BalanceOf(s.balances, from) - amount
      && (forall k :: k != from ==> BalanceOf(s'.balances, k) == BalanceOf(s.balances, k))
      && s'.clock == s.clock && s'.owner == s.owner && s'.paused == s.paused && s'.inbound == s.inbound
  {
  }

  /** A receive pays its recipient alone. */
  lemma ReceivePays(s: OftState, to: Key, amount: nat)
    requires OftInv(s) && Receive(s, to, amount).Some?
    ensures var s' := Receive(s, to, amount).value;
      && BalanceOf(s'.balances, to) == BalanceOf(s.balances, to) + amount
      && (forall k :: k != to ==> BalanceOf(s'.balances, k) == BalanceOf(s.balances, k))
      && s'.clock == s.clock && s'.owner == s.owner && s'.paused == s.paused && s'.outbound == s.outbound
  {
  }

  /** A token transfer succeeds exactly when the sender has the amount, and moves it. */
  lemma Erc20TransferPays(s: OftState, from: Key, to: Key, amount: nat)
    ensures Erc20Transfer(s, from, to, amount).Some? <==> amount <= BalanceOf(s.balances, from)
    ensures Erc20Transfer(s, from, to, amount).Some? ==>
              var s' := Erc20Transfer(s, from, to, amount).value;
              && s' == s.(balances := s'.balances)
              && (forall k :: k != from && k != to ==> BalanceOf(s'.balances, k) == BalanceOf(s.balances, k))
              && (if from == to then BalanceOf(s'.balances, from) == BalanceOf(s.balances, from)
                  else BalanceOf(s'.balances, from) == BalanceOf(s.balances, from) - amount
                       && BalanceOf(s'.balances, to) == BalanceOf(s.balances, to) + amount)
  {
  }

  // ---------- the contract on mutable storage ----------

  class SanOft {
    var clock: u64
    var owner: Key
    var paused: bool

    const outboundBucket: TokenBucket
    const inboundBucket: TokenBucket

    var balances: map<Key, nat>
    var totalSupply: nat

    predicate Valid()
      reads this, outboundBucket, inboundBucket
    {
      outboundBucket != inboundBucket && ValidBucket(outboundBucket.View()) && ValidBucket(inboundBucket.View())
    }

    function View(): OftState
      reads this, outboundBucket, inboundBucket
    {
      OftState(clock, owner, paused, outboundBucket.View(), inboundBucket.View(), balances, totalSupply)
    }

    constructor (now: u64, delegate: Key)
      ensures Valid() && View() == Deployed(now, delegate)
      ensures fresh(outboundBucket) && fresh(inboundBucket)
    {
      clock, owner, balances, totalSupply := now, delegate, map[], 0;
      outboundBucket := new TokenBucket(now);
      inboundBucket := new TokenBucket(now);
      paused := true;
    }

    method Restore(s: OftState)
      requires Valid() && ValidBucket(s.outbound) && ValidBucket(s.inbound)
      modifies this, outboundBucket, inboundBucket
      ensures Valid() && View() == s
    {
      clock, owner, paused, balances, totalSupply := s.clock, s.owner, s.paused, s.balances, s.supply;
      outboundBucket.Store(s.outbound);
      inboundBucket.Store(s.inbound);
    }

    /** `_debitView`: the quote-time check, which reads the bucket and does not consume it. */
    method DebitView(amount: nat, minAmount: nat) returns (ok: bool)
      requires Valid()
      ensures ok <==> DebitViewPasses(View(), amount, minAmount)
    {
      if paused || amount < minAmount {
        return false;
      }
      var available, rest := outboundBucket.Preview(clock);
      DivModUnique(CreditAt(outboundBucket.View(), clock), outboundBucket.refillDuration, available, rest);
      return amount <= available;
    }

    /** `_burn` of the inherited ERC-20. */
    method Burn(from: Key, amount: nat) returns (ok: bool)
      modifies this`balances, this`totalSupply
      ensures ok <==> amount <= old(BalanceOf(balances, from)) && amount <= old(totalSupply)
      ensures ok ==> balances == old(balances)[from := old(BalanceOf(balances, from)) - amount]
      ensures ok ==> totalSupply == old(totalSupply) - amount
      ensures !ok ==> balances == old(balances) && totalSupply == old(totalSupply)
    {
      if BalanceOf(balances, from) < amount || totalSupply < amount {
        return false;
      }
      balances := balances[from := BalanceOf(balances, from) - amount];
      totalSupply := totalSupply - amount;
      return true;
    }

    /**
     `_debit`: check, burn, then consume.  Once the check has passed the consumption cannot fail, so the
     only failure after it is a missing balance.
     */
    method Debit(from: Key, amount: nat, minAmount: nat) returns (ok: bool)
      requires Valid()
      modifies this`balances, this`totalSupply, outboundBucket
      ensures Valid()
      ensures ok <==> Send(old(View()), from, amount, minAmount).Some?
      ensures ok ==> View() == Send(old(View()), from, amount, minAmount).value
      ensures !ok ==> View() == old(View())
    {
      var passes := DebitView(amount, minAmount);
      if !passes {
        return false;
      }
      var burned := Burn(from, amount);
      if !burned {
        return false;
      }
      var consumed := outboundBucket.Consume(amount, clock);
      assert consumed;
      return true;
    }

    /** `_credit`: consume the inbound bucket, then mint. */
    method Credit(to: Key, amount: nat) returns (ok: bool)
      requires Valid()
      modifies this`balances, this`totalSupply, inboundBucket
      ensures Valid()
      ensures ok <==> Receive(old(View()), to, amount).Some?
      ensures ok ==> View() == Receive(old(View()), to, amount).value
    {
      if paused {
        return false;
      }
      var consumed := inboundBucket.Consume(amount, clock);
      if !consumed {
        return false;
      }
      balances := balances[to := BalanceOf(balances, to) + amount];
      totalSupply := totalSupply + amount;
      return true;
    }

    /** The transaction around `Credit`: a revert undoes the settlement `Consume` wrote before failing. */
    method ReceiveTransaction(to: Key, amount: nat) returns (ok: bool)
      requires Valid()
      modifies this, outboundBucket, inboundBucket
      ensures Valid()
      ensures ok <==> Receive(old(View()), to, amount).Some?
      ensures View() == if ok then Receive(old(View()), to, amount).value else old(View())
    {
      var before := View();
      ok := Credit(to, amount);
      if !ok {
        Restore(before);
      }
    }

    method TransferTransaction(from: Key, to: Key, amount: nat) returns (ok: bool)
      requires Valid()
      modifies this`balances
      ensures Valid()
      ensures ok <==> Erc20Transfer(old(View()), from, to, amount).Some?
      ensures View() == if ok then Erc20Transfer(old(View()), from, to, amount).value else old(View())
    {
      if BalanceOf(balances, from) < amount {
        return false;
      }
      balances := balances[from := BalanceOf(balances, from) - amount];
      balances := balances[to := BalanceOf(balances, to) + amount];
      return true;
    }

    /** `pause` and `unpause`: owner only, and only from the other state. */
    method SetPausedTransaction(caller: Key, newPaused: bool) returns (ok: bool)
      requires Valid()
      modifies this`paused
      ensures Valid()
      ensures ok <==> SetPaused(old(View()), caller, newPaused).Some?
      ensures View() == if ok then SetPaused(old(View()), caller, newPaused).value else old(View())
    {
      if caller != owner || paused == newPaused {
        return false;
      }
      paused := newPaused;
      return true;
    }

    method SetRateLimitTransaction(caller: Key, inboundSide: bool, capacity: nat, refillAmount: nat,
                                   refillDuration: u64)
      returns (ok: bool)
      requires Valid()
      modifies outboundBucket, inboundBucket
      ensures Valid()
      ensures ok <==> SetRateLimit(old(View()), caller, inboundSide, capacity, refillAmount, refillDuration).Some?
      ensures View() == if ok
                then SetRateLimit(old(View()), caller, inboundSide, capacity, refillAmount, refillDuration).value
                else old(View())
    {
      if caller != owner {
        return false;
      }
      if inboundSide {
        ok := inboundBucket.Configure(capacity, refillAmount, refillDuration, clock);
      } else {
        ok := outboundBucket.Configure(capacity, refillAmount, refillDuration, clock);
      }
    }
  }
}
