/** Token balances: finite maps with a total, and the transfer of the Solana token programs. */
module TokenLedger {
  import opened Num
  import opened FeeMath

  type Key = string

  function BalanceOf(m: map<Key, nat>, k: Key): nat {
    if k in m then m[k] else 0
  }

  ghost function Total(m: map<Key, nat>): nat
    decreases |m|
  {
    if m == map[] then 0
    else
      var k :| k in m;
      m[k] + Total(m - {k})
  }

  lemma {:induction false} TotalWithout(m: map<Key, nat>, k: Key)
    requires k in m
    ensures Total(m) == m[k] + Total(m - {k})
    decreases |m|
  {
    var c :| c in m && Total(m) == m[c] + Total(m - {c});
    if c != k {
      TotalWithout(m - {c}, k);
      TotalWithout(m - {k}, c);
      assert m - {c} - {k} == m - {k} - {c};
    }
  }

  lemma TotalUpdated(m: map<Key, nat>, k: Key, v: nat)
    ensures Total(m[k := v]) == Total(m) - BalanceOf(m, k) + v
  {
    TotalWithout(m[k := v], k);
    assert m[k := v] - {k} == m - {k};
    if k in m {
      TotalWithout(m, k);
    } else {
      assert m - {k} == m;
    }
  }

  lemma BalanceAtMostTotal(m: map<Key, nat>, k: Key)
    ensures BalanceOf(m, k) <= Total(m)
  {
    if k in m {
      TotalWithout(m, k);
    }
  }

  lemma TwoBalancesAtMostTotal(m: map<Key, nat>, j: Key, k: Key)
    requires j != k
    ensures BalanceOf(m, j) + BalanceOf(m, k) <= Total(m)
  {
    if j in m {
      TotalWithout(m, j);
      BalanceAtMostTotal(m - {j}, k);
    } else {
      BalanceAtMostTotal(m, k);
    }
  }

  /** Moving `amount` between two accounts of which the second is credited `credit`. */
  lemma TotalMoved(m: map<Key, nat>, from: Key, to: Key, amount: nat, credit: nat)
    requires from != to && amount <= BalanceOf(m, from)
    ensures Total(m[from := BalanceOf(m, from) - amount][to := BalanceOf(m, to) + credit]) == Total(m) - amount + credit
  {
    TotalUpdated(m, from, BalanceOf(m, from) - amount);
    TotalUpdated(m[from := BalanceOf(m, from) - amount], to, BalanceOf(m, to) + credit);
  }

  /** The accounts of one mint; `withheld` is what transfer fees have set aside in them. */
  datatype Ledger = Ledger(accounts: map<Key, nat>, withheld: nat)

  ghost function Issued(l: Ledger): nat {
    Total(l.accounts) + l.withheld
  }

  /** `transfer_checked`: both accounts exist, the source holds the amount, the credit fits u64. */
  function Transfer(l: Ledger, mintFee: Option<TransferFee>, from: Key, to: Key, amount: u64): Option<Ledger>
    requires ValidMintFee(mintFee)
  {
    if from !in l.accounts || to !in l.accounts || l.accounts[from] < amount then None
    else if from == to then Some(l)
    else
      var credit := GetPostFeeAmount(mintFee, amount);
      if l.accounts[to] + credit > U64_MAX then None
      else Some(Ledger(l.accounts[from := l.accounts[from] - amount][to := l.accounts[to] + credit],
                       l.withheld + (amount - credit)))
  }

  /**
   A transfer neither creates nor destroys tokens, and within a u64 issue it fails only for want of funds or accounts.
   */
  lemma TransferConserves(l: Ledger, mintFee: Option<TransferFee>, from: Key, to: Key, amount: u64)
    requires ValidMintFee(mintFee)
    ensures Transfer(l, mintFee, from, to, amount).Some?
            ==> Issued(Transfer(l, mintFee, from, to, amount).value) == Issued(l)
    ensures Issued(l) <= U64_MAX ==>
              (Transfer(l, mintFee, from, to, amount).Some?
               <==> from in l.accounts && to in l.accounts && amount <= l.accounts[from])
  {
    NetAtMost(mintFee, amount);
    if from in l.accounts && to in l.accounts && amount <= l.accounts[from] && from != to {
      TotalMoved(l.accounts, from, to, amount, GetPostFeeAmount(mintFee, amount));
      TwoBalancesAtMostTotal(l.accounts, from, to);
    }
  }

  /** Without any bound on the issue, a transfer also fails where the receiving balance would exceed u64. */
  lemma TransferableExactly(l: Ledger, mintFee: Option<TransferFee>, from: Key, to: Key, amount: u64)
    requires ValidMintFee(mintFee)
    ensures Transfer(l, mintFee, from, to, amount).Some?
            <==> from in l.accounts && to in l.accounts && amount <= l.accounts[from]
                 && (from != to ==> l.accounts[to] + GetPostFeeAmount(mintFee, amount) < 0x1_0000_0000_0000_0000)
  {
  }

  /** Who pays a transfer and who gets it; every other account stands. */
  lemma TransferPays(l: Ledger, mintFee: Option<TransferFee>, from: Key, to: Key, amount: u64)
    requires ValidMintFee(mintFee) && Transfer(l, mintFee, from, to, amount).Some?
    ensures var m := Transfer(l, mintFee, from, to, amount).value;
      && m.accounts.Keys == l.accounts.Keys
      && (forall k :: k != from && k != to ==> BalanceOf(m.accounts, k) == BalanceOf(l.accounts, k))
      && (if from == to then m == l
          else BalanceOf(m.accounts, from) == BalanceOf(l.accounts, from) - amount
               && BalanceOf(m.accounts, to) == BalanceOf(l.accounts, to) + GetPostFeeAmount(mintFee, amount)
               && m.withheld == l.withheld + amount - GetPostFeeAmount(mintFee, amount))
  {
  }

  /** `init_if_needed` on a token account. */
  function Opened(l: Ledger, k: Key): Ledger {
    l.(accounts := l.accounts[k := BalanceOf(l.accounts, k)])
  }

  lemma OpenedConserves(l: Ledger, k: Key)
    ensures Issued(Opened(l, k)) == Issued(l)
  {
    TotalUpdated(l.accounts, k, BalanceOf(l.accounts, k));
  }
}
