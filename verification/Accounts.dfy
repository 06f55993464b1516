/**
 Whom the bridge pays: every account of either chain, over every run.

 What an account holds is what it held, plus what deliveries brought it, less what it sent, plus its own token
 transfers.
 */
module Accounts {
  import opened Num
  import opened Text
  import opened Pathway
  import opened Lists
  import opened FeeMath
  import opened TokenLedger
  import opened Bridge
  import Sol = SolanaAdapter
  import Rh = RobinhoodOft

  // ---------- one delivery ----------

  /**
   A delivery on Robinhood pays the recipient its packet names, the amount it carries, and nobody else; and it
   delivers that packet alone.
   */
  lemma RobinhoodDeliveryPays(b: State, guid: string, i: nat)
    requires Sane(b) && BridgeInv(b) && i < |b.packets|
    requires !b.packets[i].delivered && Next(b, RhReceive(guid)).packets[i].delivered
    ensures var (c, p) := (Next(b, RhReceive(guid)), b.packets[i]);
      && p.guid == guid && p.direction == SolanaToRobinhood
      && BalanceOf(c.rh.balances, PadAddress(p.receiver))
         == BalanceOf(b.rh.balances, PadAddress(p.receiver)) + p.amountSd
      && (forall k :: k != PadAddress(p.receiver) ==> BalanceOf(c.rh.balances, k) == BalanceOf(b.rh.balances, k))
      && c.packets == b.packets[i := p.(delivered := true, creditedLd := p.amountSd)] && c.sol == b.sol
  {
    var p := b.packets[i];
    assert Pending(b.packets, guid, SolanaToRobinhood) == Some(i);
    Rh.ReceivePays(b.rh, PadAddress(p.receiver), p.amountSd);
  }

  /** A delivery on Solana pays its recipient what arrives, out of escrow, and nobody else. */
  lemma SolanaDeliveryPays(b: State, guid: string, i: nat)
    requires Sane(b) && BridgeInv(b) && i < |b.packets|
    requires !b.packets[i].delivered && Next(b, SolReceive(guid)).packets[i].delivered
    ensures var (c, p) := (Next(b, SolReceive(guid)), b.packets[i]);
      var (before, after) := (b.sol.ledger.accounts, c.sol.ledger.accounts);
      && p.guid == guid && p.direction == RobinhoodToSolana
      && c.packets[i].creditedLd == GetPostFeeAmount(b.sol.mintFee, p.amountSd * b.sol.rate)
      && BalanceOf(after, p.receiver) == BalanceOf(before, p.receiver) + c.packets[i].creditedLd
      && (forall k :: k != p.receiver && k != Sol.ESCROW ==> BalanceOf(after, k) == BalanceOf(before, k))
      && c.packets == b.packets[i := p.(delivered := true, creditedLd := c.packets[i].creditedLd)] && c.rh == b.rh
  {
    var p := b.packets[i];
    assert Pending(b.packets, guid, RobinhoodToSolana) == Some(i);
    assert PacketOk(p, b.sol.rate);
    ReceiverIsNotEscrow(p);
    Sol.ReceivePays(b.sol, p.receiver, p.amountSd);
  }

  // ---------- Robinhood accounts over runs ----------

  function BroughtTo(k: Key): Packet -> nat {
    (p: Packet) =>
      if p.delivered && p.direction == SolanaToRobinhood && |p.receiver| == 66 && PadAddress(p.receiver) == k
      then p.amountSd else 0
  }

  /** Everything deliveries ever brought this account. */
  function Brought(b: State, k: Key): nat {
    SumOf(BroughtTo(k), b.packets)
  }

  /** A send is on record exactly when the list of packets grew. */
  predicate Recorded(b: State, st: Step)
    requires Sane(b)
  {
    |Next(b, st).packets| > |b.packets|
  }

  /** What this step takes from an account: its own send, or its own transfer to another. */
  function RobinhoodOut(b: State, st: Step, k: Key): nat
    requires Sane(b)
  {
    match st
    case RhSend(_, from, _, amount, _) => if from == k && Recorded(b, st) then amount else 0
    case RhTransfer(from, to, amount) =>
      if from == k && to != k && amount <= BalanceOf(b.rh.balances, from) then amount else 0
    case _ => 0
  }

  /** What a token transfer in this step brings it. */
  function RobinhoodIn(b: State, st: Step, k: Key): nat {
    match st
    case RhTransfer(from, to, amount) =>
      if to == k && from != k && amount <= BalanceOf(b.rh.balances, from) then amount else 0
    case _ => 0
  }

  /** From `b` to `c` an account gained what deliveries brought and `inflow`, and lost `outflow`. */
  predicate RobinhoodMoved(b: State, c: State, k: Key, inflow: nat, outflow: nat) {
    BalanceOf(c.rh.balances, k) - BalanceOf(b.rh.balances, k) == Brought(c, k) - Brought(b, k) + inflow - outflow
  }

  lemma RhReceiveMoves(b: State, st: Step, k: Key)
    requires Sane(b) && BridgeInv(b) && st.RhReceive?
    ensures RobinhoodMoved(b, Next(b, st), k, 0, 0)
  {
    var i := Pending(b.packets, st.guid, SolanaToRobinhood);
    if i.Some? {
      var p := b.packets[i.value];
      if Rh.Receive(b.rh, PadAddress(p.receiver), p.amountSd).Some? {
        RobinhoodDeliveryPays(b, st.guid, i.value);
        SumUpdated(BroughtTo(k), b.packets, i.value, p.(delivered := true, creditedLd := p.amountSd));
      }
    }
  }

  lemma RhSendMoves(b: State, st: Step, k: Key)
    requires Sane(b) && BridgeInv(b) && st.RhSend?
    ensures RobinhoodMoved(b, Next(b, st), k, 0, RobinhoodOut(b, st, k))
  {
    var c := Next(b, st);
    if Recorded(b, st) {
      Rh.SendPays(b.rh, st.from, st.amount, st.minAmount);
      SumSnoc(BroughtTo(k), b.packets, c.packets[|b.packets|]);
    }
  }

  /** Solana's own packet steps bring no Robinhood account anything. */
  lemma SolanaStepsBringNothing(b: State, st: Step, k: Key)
    requires Sane(b) && (st.SolSend? || st.SolReceive?)
    ensures RobinhoodMoved(b, Next(b, st), k, 0, 0)
  {
    var c := Next(b, st);
    if st.SolSend? {
      if c != b {
        SumSnoc(BroughtTo(k), b.packets, c.packets[|b.packets|]);
      }
    } else {
      var i := Pending(b.packets, st.guid, RobinhoodToSolana);
      if i.Some? && Sol.Receive(b.sol, b.packets[i.value].receiver, b.packets[i.value].amountSd).Some? {
        SumUpdated(BroughtTo(k), b.packets, i.value, c.packets[i.value]);
      }
    }
  }

  lemma OthersMoveTokens(b: State, st: Step, k: Key)
    requires Sane(b) && !st.SolSend? && !st.SolReceive? && !st.RhSend? && !st.RhReceive?
    ensures RobinhoodMoved(b, Next(b, st), k, RobinhoodIn(b, st, k), RobinhoodOut(b, st, k))
  {
    if st.RhTransfer? {
      Rh.Erc20TransferPays(b.rh, st.from, st.to, st.amount);
    }
  }

  lemma RobinhoodStep(b: State, st: Step, k: Key)
    requires Sane(b) && BridgeInv(b)
    ensures RobinhoodMoved(b, Next(b, st), k, RobinhoodIn(b, st, k), RobinhoodOut(b, st, k))
  {
    if st.RhReceive? {
      RhReceiveMoves(b, st, k);
    } else if st.RhSend? {
      RhSendMoves(b, st, k);
    } else if st.SolSend? || st.SolReceive? {
      SolanaStepsBringNothing(b, st, k);
    } else {
      OthersMoveTokens(b, st, k);
    }
  }

  /** What the steps of a run take from an account. */
  function RobinhoodOutflow(b: State, steps: seq<Step>, k: Key): nat
    requires Sane(b)
    decreases |steps|
  {
    if steps == [] then 0 else RobinhoodOut(b, steps[0], k) + RobinhoodOutflow(Next(b, steps[0]), steps[1..], k)
  }

  function RobinhoodInflow(b: State, steps: seq<Step>, k: Key): nat
    requires Sane(b)
    decreases |steps|
  {
    if steps == [] then 0 else RobinhoodIn(b, steps[0], k) + RobinhoodInflow(Next(b, steps[0]), steps[1..], k)
  }

  /**
   Every Robinhood account, over every run: its balance moves by what deliveries brought it, less what it sent, plus
   its own token transfers.
   */
  lemma {:induction false} RobinhoodAccount(b: State, steps: seq<Step>, k: Key)
    requires Sane(b) && BridgeInv(b)
    ensures RobinhoodMoved(b, Run(b, steps), k, RobinhoodInflow(b, steps, k), RobinhoodOutflow(b, steps, k))
    decreases |steps|
  {
    if steps != [] {
      NextKeeps(b, steps[0]);
      RobinhoodStep(b, steps[0], k);
      RobinhoodAccount(Next(b, steps[0]), steps[1..], k);
    }
  }

  // ---------- Solana accounts over runs ----------

  function PaidTo(k: Key): Packet -> nat {
    (p: Packet) => if p.delivered && p.direction == RobinhoodToSolana && p.receiver == k then p.creditedLd else 0
  }

  /** Everything deliveries ever paid this account. */
  function Paid(b: State, k: Key): nat {
    SumOf(PaidTo(k), b.packets)
  }

  /** A wallet transfer goes through exactly then. */
  predicate Affords(b: State, from: Key, to: Key, amount: nat) {
    && from != Sol.ESCROW && from in b.sol.ledger.accounts && to in b.sol.ledger.accounts
    && amount <= BalanceOf(b.sol.ledger.accounts, from)
  }

  function SolanaOut(b: State, st: Step, k: Key): nat
    requires Sane(b)
  {
    match st
    case SolSend(_, source, _, amount, _) =>
      var a := ComputeFeeAndAdjustAmount(amount, Sol.Fees(b.sol), b.sol.mintFee);
      if source == k && Recorded(b, st) && a.Some? then a.value.sent else 0
    case SolTransfer(from, to, amount) => if from == k && to != k && Affords(b, from, to, amount) then amount else 0
    case _ => 0
  }

  function SolanaIn(b: State, st: Step, k: Key): nat
    requires Sane(b)
  {
    match st
    case SolTransfer(from, to, amount) =>
      if to == k && from != k && Affords(b, from, to, amount) then GetPostFeeAmount(b.sol.mintFee, amount) else 0
    case SolWithdrawFee(signer, dest, fee) =>
      if dest == k && signer == b.sol.admin && fee <= Sol.EscrowOf(b.sol) - b.sol.tvl && dest in b.sol.ledger.accounts
      then GetPostFeeAmount(b.sol.mintFee, fee) else 0
    case _ => 0
  }

  predicate SolanaMoved(b: State, c: State, k: Key, inflow: nat, outflow: nat) {
    BalanceOf(c.sol.ledger.accounts, k) - BalanceOf(b.sol.ledger.accounts, k)
      == Paid(c, k) - Paid(b, k) + inflow - outflow
  }

  lemma SolReceiveMoves(b: State, st: Step, k: Key)
    requires Sane(b) && BridgeInv(b) && st.SolReceive? && k != Sol.ESCROW
    ensures SolanaMoved(b, Next(b, st), k, 0, 0)
  {
    var i := Pending(b.packets, st.guid, RobinhoodToSolana);
    if i.Some? {
      var p := b.packets[i.value];
      if Sol.Receive(b.sol, p.receiver, p.amountSd).Some? {
        SolanaDeliveryPays(b, st.guid, i.value);
        SumUpdated(PaidTo(k), b.packets, i.value, Next(b, st).packets[i.value]);
      }
    }
  }

  lemma SolSendMoves(b: State, st: Step, k: Key)
    requires Sane(b) && BridgeInv(b) && st.SolSend? && k != Sol.ESCROW
    ensures SolanaMoved(b, Next(b, st), k, 0, SolanaOut(b, st, k))
  {
    var c := Next(b, st);
    if Recorded(b, st) {
      Sol.SendPays(b.sol, st.source, st.amountLd, st.minAmountLd);
      SumSnoc(PaidTo(k), b.packets, c.packets[|b.packets|]);
    }
  }

  lemma RobinhoodStepsPayNothing(b: State, st: Step, k: Key)
    requires Sane(b) && (st.RhSend? || st.RhReceive?)
    ensures SolanaMoved(b, Next(b, st), k, 0, 0)
  {
    var c := Next(b, st);
    if st.RhSend? {
      if c != b {
        SumSnoc(PaidTo(k), b.packets, c.packets[|b.packets|]);
      }
    } else {
      var i := Pending(b.packets, st.guid, SolanaToRobinhood);
      if i.Some? && Rh.Receive(b.rh, PadAddress(b.packets[i.value].receiver), b.packets[i.value].amountSd).Some? {
        SumUpdated(PaidTo(k), b.packets, i.value, c.packets[i.value]);
      }
    }
  }

  lemma WithdrawMoves(b: State, st: Step, k: Key)
    requires Sane(b) && BridgeInv(b) && st.SolWithdrawFee? && k != Sol.ESCROW
    ensures SolanaMoved(b, Next(b, st), k, SolanaIn(b, st, k), SolanaOut(b, st, k))
  {
    Sol.WithdrawFeeKeeps(b.sol, st.signer, st.dest, st.fee);
    if Sol.WithdrawFee(b.sol, st.signer, st.dest, st.fee).Some? {
      Sol.WithdrawFeePays(b.sol, st.signer, st.dest, st.fee);
    }
  }

  lemma WalletMoves(b: State, st: Step, k: Key)
    requires Sane(b) && BridgeInv(b) && st.SolTransfer? && k != Sol.ESCROW
    ensures SolanaMoved(b, Next(b, st), k, SolanaIn(b, st, k), SolanaOut(b, st, k))
  {
    Sol.WalletTransferPays(b.sol, st.from, st.to, st.amountLd);
  }

  lemma OthersMoveNoSan(b: State, st: Step)
    requires Sane(b) && !st.SolSend? && !st.SolReceive? && !st.RhSend? && !st.RhReceive?
    requires !st.SolTransfer? && !st.SolWithdrawFee?
    ensures Next(b, st).sol.ledger == b.sol.ledger && Next(b, st).packets == b.packets
  {
  }

  lemma SolanaStep(b: State, st: Step, k: Key)
    requires Sane(b) && BridgeInv(b) && k != Sol.ESCROW
    ensures SolanaMoved(b, Next(b, st), k, SolanaIn(b, st, k), SolanaOut(b, st, k))
  {
    match st
    case SolReceive(_) => SolReceiveMoves(b, st, k);
    case SolSend(_, _, _, _, _) => SolSendMoves(b, st, k);
    case RhSend(_, _, _, _, _) => RobinhoodStepsPayNothing(b, st, k);
    case RhReceive(_) => RobinhoodStepsPayNothing(b, st, k);
    case SolWithdrawFee(_, _, _) => WithdrawMoves(b, st, k);
    case SolTransfer(_, _, _) => WalletMoves(b, st, k);
    case _ => OthersMoveNoSan(b, st);
  }

  function SolanaOutflow(b: State, steps: seq<Step>, k: Key): nat
    requires Sane(b)
    decreases |steps|
  {
    if steps == [] then 0 else SolanaOut(b, steps[0], k) + SolanaOutflow(Next(b, steps[0]), steps[1..], k)
  }

  function SolanaInflow(b: State, steps: seq<Step>, k: Key): nat
    requires Sane(b)
    decreases |steps|
  {
    if steps == [] then 0 else SolanaIn(b, steps[0], k) + SolanaInflow(Next(b, steps[0]), steps[1..], k)
  }

  /**
   Every Solana account but escrow, over every run: its balance moves by what deliveries paid it, less what its sends
   took, plus its own token transfers and the fees withdrawn to it.
   */
  lemma {:induction false} SolanaAccount(b: State, steps: seq<Step>, k: Key)
    requires Sane(b) && BridgeInv(b) && k != Sol.ESCROW
    ensures SolanaMoved(b, Run(b, steps), k, SolanaInflow(b, steps, k), SolanaOutflow(b, steps, k))
    decreases |steps|
  {
    if steps != [] {
      NextKeeps(b, steps[0]);
      SolanaStep(b, steps[0], k);
      SolanaAccount(Next(b, steps[0]), steps[1..], k);
    }
  }

  /** From deployment, a Robinhood account holds what deliveries brought it, less its sends, plus its transfers. */
  lemma RobinhoodHolds(b: State, steps: seq<Step>, k: Key)
    requires IsGenesis(b) && Sane(b)
    ensures BalanceOf(Run(b, steps).rh.balances, k)
            == Brought(Run(b, steps), k) + RobinhoodInflow(b, steps, k) - RobinhoodOutflow(b, steps, k)
  {
    GenesisKeeps(b);
    RobinhoodAccount(b, steps, k);
    BalanceAtMostTotal(b.rh.balances, k);
  }
}
