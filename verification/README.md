# SAN bridge: value path and reconciliation

A Dafny model of the SAN cross-chain bridge and proofs about it.  The bridge locks canonical SAN in a Solana OFT
Adapter and mints a standard OFT representation on Robinhood; off-chain tools scan both chains, match sends to
receives and check the accounting.  The project follows the value from one end to the other:

- **Two token buckets.** `SolanaRateLimiter` (saturating u64, no remainder, each direction refills the other) and
  `SanOftBucket` (exact, with a fractional remainder).  Each is a class with the source's own steps, proved to be an
  ideal bucket; lemmas then say what each kind bounds: net movement on Solana, gross volume on Robinhood.
- **Fees and dust.** `FeeMath` proves the pre-fee computation to be the exact inverse of the Token-2022 transfer fee
  and follows one amount through netting, dust and application fee.
- **Two-chain custody.** `SolanaAdapter` and `RobinhoodOft` run the instruction bodies on mutable accounts, with the
  rollback of a failed transaction.  `Bridge` interleaves fifteen kinds of steps over both chains and the packets
  between them; `PacketLog` says when each send and delivery happens and what it writes, `Accounts` whom the bridge
  pays over every run.  `Throughput` and `GrossFlow` bound its runs, `RateLimitPlan` and `Drainage` prove that what is in
  flight can be delivered, `Authority` says who can change what, `FirstDelivery` shows a run that delivers and
  `Activation` one that puts a plan in force.
- **Off-chain reconciliation.** `Json`, `Sorting`, `Evidence` and `InFlightManifest` give the canonical text of
  evidence and the checksum over it; `CanonicalOrder` and `ManifestText` say what they mean, by reading them back.
  `InFlightInventory` and `InFlightScan` are the parser and the builder of the in-flight manifest, `ManifestRules`
  lists what the parser rejects, and `BuilderAndParser` tells where the two part.  `Reconciliation` and
  `MainnetPolicy` join them to the bridge: in every reachable state the production accounting equation holds of what
  the scanner reports; `RangeEnds` lets the two chains be read at different moments.  `HonestScan` builds the evidence
  these theorems speak of.
- **Around it.** `MsgCodec`, `ComposeMsgCodec` and `Delivery` (message formats end to end), `MockEndpoint` (exactly-once
  clear), `Pagination`, `Decimals`, `UlnPolicy`.  `Num`, `Lists`, `Text`, `Bytes`, `Pathway` and `TokenLedger` hold
  what these share.

Each instruction or loop is a method tied by its `ensures` to a function on values; the properties are lemmas about
those functions.  An aborted transaction, a revert or a thrown error is `None`.

What the proofs turned up:

- The Robinhood scan shows a recipient as a 20-byte address padded to 32 bytes.  A packet whose recipient
  has other bytes in front is delivered, but its two events never agree and the manifest builder fails from then on.
  `Reconciliation.ConsistentExactly` gives the exact condition, `FirstDelivery.UnreconcilableReachable` a reachable case.
- The conservation law of the manifest builder does not need distinct source GUIDs; only the parser does.
- The builder and the parser differ: a zero amount, a repeated source GUID, an absent or blank API status, or an amount
  not written as a plain number builds but does not parse.  `InFlightScan.BuildThenParse` states the difference exactly
  and `BuilderAndParser` gives each case.  The scanner itself throws on an absent or empty status before it builds
  (`scripts/scanProductionInFlight.ts` line 556) and parses its own result (line 608), so it fails where only the
  parser does.  A zero-amount packet stays on record, so after one every later scan fails
  (`BuilderAndParser.UnparseableForever`).
- `docs/PARTIAL_CONFIGURATION_SECURITY.md` (line 93) says that zero supply leaves no holder able to burn on Robinhood
  between the two unpauses.  That is so of any value; a send of amount zero needs no balance, and the canary check
  fails from then on (`Activation.StraySendBlocksCanary`).
- The accounting equation does not need both chains read at one moment: it holds of accounts read at the range ends,
  each chain at its own (`RangeEnds.EquationAtRangeEnds`).
- Canonical order compares event indices as text, so index 10 comes before index 9 (`CanonicalOrder.TenBeforeNine`).
- `parseDecimalToUnits` applies a minus sign to the whole part only.
- The verifier-list checks accept only rearrangements of the expected list exactly when that list has no repetition,
  is one entry repeated, or holds a deprecated verifier (`UlnPolicy.ExactlyWhen`).
- The Solana limiters alone bound no gross flow when one is missing or both capacities and some level are positive
  (`SolanaRateLimiter.GrossFlowUnbounded`); over runs of the bridge the Robinhood bucket bounds it
  (`GrossFlow.GrossSendBound`).
- Solana's `set_capacity` fills the bucket, while reconfiguring the Robinhood bucket never adds tokens.

## Model

| member | source | states |
|---|---|---|
| `SolanaRateLimiter.RateLimiter.Refill` | programs/oft/src/state/peer_config.rs:39-51 | the saturating u64 refill stores min(capacity, tokens + extra + elapsed * rate) computed without saturation |
| `SolanaRateLimiter.RateLimiter.TryConsume` | programs/oft/src/state/peer_config.rs:53-62 | succeeds exactly when the ideal level covers the amount; a failure leaves the refill written, which the transaction must undo |
| `SolanaRateLimiter.RateLimiter.SetCapacity` | programs/oft/src/state/peer_config.rs:32-37 | a new capacity fills the bucket |
| `SolanaRateLimiter.RateLimiter.SetRate` | programs/oft/src/state/peer_config.rs:26-30 | a new rate settles at the old rate first |
| `SolanaRateLimiter.RefillComposes` | programs/oft/src/state/peer_config.rs:39-51 | settling at t1 and then at t2 is settling once at t2 |
| `SolanaRateLimiter.ReconfiguredIsWellFilled` | programs/oft/src/instructions/set_peer_config.rs:60-77 | no reconfiguration stores more tokens than capacity; one with a capacity fills the bucket |
| `SolanaRateLimiter.PingPongAdmitted` | programs/oft/src/instructions/send.rs:67-72 | any amount that can leave now and fits the way back goes out and back any number of times in one second, because each direction refills the other |
| `SolanaRateLimiter.GrossFlowUnbounded` | programs/oft/src/instructions/lz_receive.rs:100-107 | gross flow in one second is unbounded exactly when a limiter is missing, or both capacities are positive and some settled level is; otherwise the two levels bound it |
| `SolanaRateLimiter.FlowMovesLevels` | programs/oft/src/instructions/send.rs:67-72 | one transfer lowers its own settled level by its amount and raises the other by at most that |
| `SolanaRateLimiter.ConsumableExactly` | programs/oft/src/state/peer_config.rs:53-62 | an amount can be consumed exactly when it fits the capacity and tokens and refill so far cover it |
| `SolanaRateLimiter.ReconfiguredConsumes` | programs/oft/src/instructions/set_peer_config.rs:60-77 | after a reconfiguration and a wait an amount can be consumed exactly when it fits the capacity in force and the new rate makes up for what the old one had not settled; a new capacity starts full |
| `SolanaRateLimiter.FlowSettles` | programs/oft/src/instructions/send.rs:67-72 | a transfer settles both limiters: its own goes down by the amount, the other up by it, to its capacity at most |
| `SanOftBucket.TokenBucket.Preview` | contracts/SanOFT.sol:204-223 | mulDiv, mulmod and the carried remainder compute the saturating linear level exactly, with remainder below the duration |
| `SanOftBucket.TokenBucket.Refill` | contracts/SanOFT.sol:184-189 | stores that level and the time |
| `SanOftBucket.TokenBucket.Consume` | contracts/SanOFT.sol:177-182 | succeeds exactly when the settled whole tokens cover the amount, and takes them |
| `SanOftBucket.TokenBucket.Configure` | contracts/SanOFT.sol:150-175 | computes the configured bucket of the next rows, or changes nothing |
| `SanOftBucket.TokenBucket.constructor` | contracts/SanOFT.sol:135-148 | the deployed bucket is full and valid |
| `SanOftBucket.SettledIsValid` | contracts/SanOFT.sol:184-223 | settling keeps remainder < duration and a full bucket without remainder, and its credit is the ideal credit |
| `SanOftBucket.SettleComposes` | contracts/SanOFT.sol:184-189 | refilling at t1 and then at t2 equals refilling once at t2 |
| `SanOftBucket.DrawnIsValid` | contracts/SanOFT.sol:177-182 | a draw spends exactly its amount of credit, keeps the bucket valid and fits uint64 |
| `SanOftBucket.DrawableExactly` | contracts/SanOFT.sol:177-182 | an amount can be drawn exactly when it fits the capacity and the level, its fraction and the refill so far pay for it |
| `SanOftBucket.ConfigurableExactly` | contracts/SanOFT.sol:150-164 | accepted exactly for capacity and refill from 1 to u64 max with refill at most capacity, and a positive duration |
| `SanOftBucket.ConfiguredDraws` | contracts/SanOFT.sol:165-175 | after it and a wait an amount can be drawn exactly when it fits the new capacity and the new refill of the wait makes up for what could not be drawn before |
| `SanOftBucket.ConfiguredKeepsLevel` | contracts/SanOFT.sol:166-167 | right after it exactly what could be drawn just before and fits the new capacity can be drawn |
| `SanOftBucket.ConfiguredThroughput` | contracts/SanOFT.sol:168-172 | from then on the three arguments are the capacity, refill and duration of the throughput bound and of the fill time |
| `SanOftBucket.DrawsSpendCredit` | contracts/SanOFT.sol:177-223 | over any sequence of draws, the total drawn is paid for by the initial credit and the refill of the elapsed time |
| `SanOftBucket.GrossThroughput` | contracts/SanOFT.sol:177-223 | everything admitted in a window is at most capacity + floor(window * refillAmount / refillDuration) |
| `SanOftBucket.ThroughputIsTight` | contracts/SanOFT.sol:177-223 | that bound is attained over every window from a full bucket |
| `SanOftBucket.EventuallyDrawable` | contracts/SanOFT.sol:177-223 | an amount can ever be drawn exactly when it is at most the capacity |
| `SanOftBucket.PreviewFitsUint256` | contracts/SanOFT.sol:210-222 | no intermediate value of the preview overflows uint256 |
| `FeeMath.PreFeeIsAdjoint` | programs/oft/src/instructions/quote_send.rs:155-182 | post(x) >= goal iff x >= pre(goal), for every rate 0..10000, cap and amount; where it returns nothing no u64 amount nets the goal |
| `FeeMath.PreFeeIsExact` | programs/oft/src/instructions/quote_send.rs:155-182 | post(pre(goal)) == goal |
| `FeeMath.GeneralPreFee` | programs/oft/src/instructions/quote_send.rs:165-176 | the general case is the lesser of the ceiling-division inverse and goal + cap, and fails exactly when that exceeds u64 |
| `FeeMath.PostFeeStepsByOne` | programs/oft/src/instructions/quote_send.rs:118-132 | one more unit sent nets at most one more, and never less |
| `FeeMath.DustFree` | programs/oft/src/state/oft.rs:30-40 | removing dust leaves the largest multiple of the rate, the same shared-decimal amount |
| `FeeMath.FeeCharged` | programs/oft/src/instructions/quote_send.rs:107-116 | the fee charged is the peer rate (the default without one) of received plus fee, rounded down to whole units |
| `FeeMath.NativeAmounts` | programs/oft/src/instructions/quote_send.rs:93-104 | the Native branch sends the largest whole amount offered and splits it into fee and received amount |
| `FeeMath.QuoteNamesFees` | programs/oft/src/instructions/quote_oft.rs:38-53 | a quote is given exactly when unpaused and enough arrives, and names exactly the two fees that are not zero |
| `FeeMath.AdapterAmounts` | programs/oft/src/instructions/quote_send.rs:79-92 | for every amount the Adapter branch succeeds, sends no more than offered, credits exactly received + fee in whole units, gives up less than a unit, and no smaller transfer nets as much |
| `FeeMath.AdjustmentIsIdempotent` | programs/oft/src/instructions/quote_send.rs:73-105 | offering the adjusted amount again changes nothing |
| `FeeMath.DeliveryIsMonotone` | programs/oft/src/instructions/quote_send.rs:73-105 | offering more never delivers less |
| `FeeMath.QuoteAddsUp` | programs/oft/src/instructions/quote_oft.rs:38-53 | the quoted fee details and the received amount sum to the sent amount, and no detail is zero |
| `TokenLedger.TransferConserves` | programs/oft/src/instructions/send.rs:77-89 | a transfer keeps the issue (withheld transfer fees included), and with an issue within u64 fails only for want of accounts or funds |
| `TokenLedger.TransferableExactly` | programs/oft/src/instructions/send.rs:77-89 | a transfer succeeds exactly between existing accounts, for a holder of the amount, where the receiving balance fits u64 |
| `TokenLedger.TransferPays` | programs/oft/src/instructions/send.rs:77-89 | a transfer takes the amount from its source, gives the destination what is left after the transfer fee, and touches no other account |
| `SolanaAdapter.OftAdapter.InitOft` | programs/oft/src/instructions/init_oft.rs:40-79 | writes the inert initial store, or changes nothing when the decimals are invalid |
| `SolanaAdapter.OftAdapter.Lock` | programs/oft/src/instructions/send.rs:57-89 | the token part, which may stop after any of its writes, computes the send step when it succeeds |
| `SolanaAdapter.OftAdapter.SendApply` | programs/oft/src/instructions/send.rs:53-142 | for the Adapter: limiters, tvl, escrow transfer, sender check and the encoded message in order; succeeds exactly when the send step does, the sender account matches and the Endpoint accepts (the last two are parameters) |
| `SolanaAdapter.OftAdapter.SendTransaction` | programs/oft/src/instructions/send.rs:53-162 | a send commits the whole step and its message, or leaves every account as it was, wherever it fails |
| `SolanaAdapter.OftAdapter.Release` | programs/oft/src/instructions/lz_receive.rs:96-129 | the token part: inbound limiter, outbound refill, tvl, transfer out of escrow; computes the receive step when it succeeds |
| `SolanaAdapter.OftAdapter.ReceiveApply` | programs/oft/src/instructions/lz_receive.rs:73-182 | for the Adapter: clear, amount read from the message, release, compose; succeeds exactly when the Endpoint clears, the message holds an amount, the release step succeeds and a compose part is accepted (the Endpoint answers are parameters) |
| `SolanaAdapter.OftAdapter.ReceiveTransaction` | programs/oft/src/instructions/lz_receive.rs:73-182 | a receive commits the whole step and its compose message, or leaves every account as it was, wherever it fails |
| `SolanaAdapter.OftAdapter.WithdrawFeeTransaction` | programs/oft/src/instructions/withdraw_fee.rs:36-61 | succeeds exactly on the admin taking no more than escrow - tvl to an existing account |
| `SolanaAdapter.OftAdapter.SetOftConfigTransaction` | programs/oft/src/instructions/set_oft_config.rs:17-49 | for the admin assigns the one configured field, with the fee bound (every arm but the delegate, which lives in the Endpoint) |
| `SolanaAdapter.OftAdapter.SetPauseTransaction` | programs/oft/src/instructions/set_pause.rs:17-35 | pauses for the pauser only and unpauses for the unpauser only |
| `SolanaAdapter.OftAdapter.UpdateRateLimiter` | programs/oft/src/instructions/set_peer_config.rs:60-77 | starts from the stored or the zero limiter, then sets capacity, then rate |
| `SolanaAdapter.OftAdapter.SetPeerConfigTransaction` | programs/oft/src/instructions/set_peer_config.rs:26-58 | for the admin assigns the fee or the limiter of one direction, or removes the limiter (the peer address and enforced option arms are not modelled) |
| `SolanaAdapter.InitializedKeeps` | programs/oft/src/instructions/init_oft.rs:58-65 | the initial store is paused, holds nothing and satisfies the Adapter invariant |
| `SolanaAdapter.SendKeeps` | programs/oft/src/instructions/send.rs:74-89 | tvl grows by the announced amount, escrow by that amount plus the fee, the message amount converts back exactly, no token is created |
| `SolanaAdapter.ReceiveKeeps` | programs/oft/src/instructions/lz_receive.rs:97-125 | tvl and escrow fall by the message amount and the recipient is credited what arrives |
| `SolanaAdapter.ReceiveEnabled` | programs/oft/src/instructions/lz_receive.rs:96-125 | an unpaused receive succeeds exactly when recorded principal and the inbound level cover it; escrow always does |
| `SolanaAdapter.WithdrawFeeKeeps` | programs/oft/src/instructions/withdraw_fee.rs:36-60 | exactly the surplus over tvl can be withdrawn, and never principal |
| `SolanaAdapter.WalletTransferKeeps` | programs/oft/src/instructions/withdraw_fee.rs:37-40 | a wallet transfer into escrow adds surplus and leaves principal alone |
| `SolanaAdapter.SetPeerConfigKeeps` | programs/oft/src/instructions/set_peer_config.rs:26-58 | configuration keeps the invariant and touches neither principal nor tokens |
| `SolanaAdapter.InitializedExactly` | programs/oft/src/instructions/init_oft.rs:40-79 | the store is created exactly for fitting decimals and a new escrow, for the admin named, without pauser, unpauser, fees or limiters, at the rate between local and shared decimals |
| `SolanaAdapter.SendEnabled` | programs/oft/src/instructions/send.rs:57-89 | an unpaused send succeeds exactly when enough arrives, the outbound limiter has it and the source can pay; principal never overflows |
| `SolanaAdapter.SendPays` | programs/oft/src/instructions/send.rs:77-89 | a send is paid by its source into escrow, and by nobody else |
| `SolanaAdapter.ReceivePays` | programs/oft/src/instructions/lz_receive.rs:114-129 | a receive pays its recipient what arrives, out of escrow, and nobody else |
| `SolanaAdapter.WithdrawFeePays` | programs/oft/src/instructions/withdraw_fee.rs:41-60 | a withdrawal pays its destination, out of escrow |
| `RobinhoodOft.SanOft.DebitView` | contracts/SanOFT.sol:103-114 | passes exactly when unpaused, above the minimum and within the available tokens |
| `RobinhoodOft.SanOft.Debit` | contracts/SanOFT.sol:116-124 | burns and consumes together; after a passing check the consumption at the same timestamp cannot fail |
| `RobinhoodOft.SanOft.Credit` | contracts/SanOFT.sol:126-133 | consumes the inbound bucket and mints, exactly when unpaused and within it |
| `RobinhoodOft.SanOft.ReceiveTransaction` | contracts/SanOFT.sol:126-133 | a credit commits fully or changes nothing |
| `RobinhoodOft.SanOft.TransferTransaction` | contracts/SanOFT.sol:63-71 | token transfers move balances only and do not look at the pause flag |
| `RobinhoodOft.SanOft.SetPausedTransaction` | contracts/SanOFT.sol:64-71 | only the owner pauses or unpauses, and only from the other state |
| `RobinhoodOft.SanOft.SetRateLimitTransaction` | contracts/SanOFT.sol:79-85 | only the owner configures, one direction at a time |
| `RobinhoodOft.SanOft.constructor` | contracts/SanOFT.sol:44-55 | the contract is deployed paused with both canary buckets and no supply |
| `RobinhoodOft.SendKeeps` | contracts/SanOFT.sol:103-124 | a send succeeds exactly when its check passes and the holder has the balance, and supply falls by the amount |
| `RobinhoodOft.ReceiveKeeps` | contracts/SanOFT.sol:126-133 | supply and the recipient grow by the amount |
| `RobinhoodOft.Erc20TransferKeeps` | contracts/SanOFT.sol:63-71 | token transfers keep the supply, and supply stays the sum of balances |
| `RobinhoodOft.SetRateLimitKeeps` | contracts/SanOFT.sol:150-175 | configuration keeps the bucket invariants |
| `RobinhoodOft.SetRateLimitConfigures` | contracts/SanOFT.sol:79-85 | the owner reconfigures one direction within the bounds and leaves the other alone; what could be drawn there still can, up to the new capacity |
| `RobinhoodOft.DeployedExactly` | contracts/SanOFT.sol:44-55 | a fresh contract belongs to its delegate, is paused and empty, and each direction draws 500,000 SAN at once and as much a day |
| `RobinhoodOft.SendPays` | contracts/SanOFT.sol:116-124 | a send is paid by its sender alone |
| `RobinhoodOft.ReceivePays` | contracts/SanOFT.sol:126-133 | a receive pays its recipient alone |
| `RobinhoodOft.Erc20TransferPays` | contracts/SanOFT.sol:63-71 | a token transfer succeeds exactly for a holder of the amount, and moves it |
| `Bridge.GenesisKeeps` | programs/oft/src/instructions/init_oft.rs:58-65 | freshly deployed, both sides are paused, empty and satisfy the custody invariant |
| `Bridge.GenesisExactly` | programs/oft/src/instructions/init_oft.rs:40-79 | each side belongs to the one who deployed it, at the rate between local and shared decimals, and every account holds what it held |
| `Bridge.NextKeeps` | programs/oft/src/instructions/send.rs:74-89 | every kind of step on either chain keeps the custody invariant |
| `Bridge.RunKeeps` | programs/oft/src/instructions/lz_receive.rs:97-125 | so does every run |
| `Bridge.Conservation` | README.md:31-37 | over every interleaving, tvl == rate * (Robinhood supply + undelivered both ways), supply <= tvl <= escrow, and supply is the sum of balances |
| `Bridge.SurplusIsFeesAndDonations` | programs/oft/src/instructions/withdraw_fee.rs:36-60 | over every run, escrow - tvl is exactly fees + donations - withdrawals |
| `Bridge.IssueIsConstant` | programs/oft/src/instructions/send.rs:77-89 | no run creates or destroys canonical tokens |
| `Bridge.SolSendKeeps` | programs/oft/src/instructions/send.rs:128-142 | a send locks what its new packet carries |
| `Bridge.SolReceiveKeeps` | programs/oft/src/instructions/lz_receive.rs:79-125 | a receive releases what the cleared packet carried |
| `Bridge.RhSendKeeps` | contracts/SanOFT.sol:116-124 | a burn equals what the new packet carries |
| `Bridge.RhReceiveKeeps` | contracts/SanOFT.sol:126-133 | a mint equals what the cleared packet carried; whom it pays is `Accounts.RobinhoodDeliveryPays` |
| `Bridge.PausedSolanaStands` | programs/oft/src/instructions/send.rs:57 | while Solana stays paused its principal and rate never change |
| `Bridge.NoValueBeforeSolanaActivation` | docs/PARTIAL_CONFIGURATION_SECURITY.md:88-106 | until Solana is first unpaused, supply, every balance, both in-flight totals and tvl stay zero, even with Robinhood unpaused and zero-amount packets about |
| `Bridge.PausedBridgeStands` | docs/IN_FLIGHT_EVIDENCE_MODEL.md:54-62 | while both sides stay paused, tvl, supply and every packet stand still |
| `PacketLog.SolanaSendRecords` | programs/oft/src/instructions/send.rs:57-142 | a send from Solana goes on record exactly when unpaused, funded, above the minimum and within the limiter; it writes one new packet with its GUID, recipient and received amount, principal, fee and limiters, and nothing else |
| `PacketLog.RobinhoodSendRecords` | contracts/SanOFT.sol:103-124 | a send from Robinhood goes on record exactly when unpaused, held, above the minimum and within the bucket, and writes one new packet, supply and the outbound bucket |
| `PacketLog.SolanaDeliversExactly` | programs/oft/src/instructions/lz_receive.rs:73-129 | an undelivered packet is delivered on Solana exactly when it is unpaused and the inbound limiter allows it: principal always covers it |
| `PacketLog.RobinhoodDeliversExactly` | contracts/SanOFT.sol:126-133 | an undelivered packet is delivered on Robinhood exactly when it is unpaused and the inbound bucket allows it |
| `Accounts.RobinhoodDeliveryPays` | contracts/SanOFT.sol:126-133 | the step that delivers a packet pays the recipient it names the amount it carries, leaves every other balance alone and delivers that packet only |
| `Accounts.SolanaDeliveryPays` | programs/oft/src/instructions/lz_receive.rs:79-129 | the step that delivers a packet pays its recipient what is credited, out of escrow, leaves every other account alone and delivers that packet only |
| `Accounts.RobinhoodAccount` | contracts/SanOFT.sol:116-133 | over every run the balance of every account moves by what deliveries brought it, less what it sent, plus its own token transfers |
| `Accounts.RobinhoodHolds` | contracts/SanOFT.sol:116-133 | from deployment it holds exactly that |
| `Accounts.SolanaAccount` | programs/oft/src/instructions/send.rs:77-89 | over every run every account but escrow moves by what deliveries paid it, less what its sends took, plus its token transfers and the fees withdrawn to it |
| `Authority.ControlsStand` | programs/oft/src/instructions/set_pause.rs:29-35 | over every run no step of which is signed by the holder of its role, pause flags, roles, fees, limiter terms and withdrawals all stand |
| `Authority.ChangeNeedsARole` | docs/PARTIAL_CONFIGURATION_SECURITY.md:88-106 | so any change over a run takes a step signed by someone holding a role when the run began |
| `Authority.ControlsChange` | programs/oft/src/instructions/set_oft_config.rs:17-49 | every step changes exactly the controls it is about: the configured field, the pause flag asked for, the terms given in their order, for the holder of its role, and nothing for anyone else |
| `Throughput.NextMoves` | programs/oft/src/instructions/send.rs:67-72 | no step raises a settled level plus the principal it guards by more than the refill of the elapsed time |
| `Throughput.PrincipalGrowthBound` | programs/oft/src/state/peer_config.rs:39-62 | over any run that leaves the outbound limiter alone, principal grows by at most capacity + elapsed * rate |
| `Throughput.PrincipalReleaseBound` | programs/oft/src/state/peer_config.rs:39-62 | over any run that leaves the inbound limiter alone, principal falls by at most capacity + elapsed * rate |
| `Throughput.RobinhoodGrossBound` | contracts/SanOFT.sol:177-223 | over any run that leaves a bucket configured as it is, the gross amount minted (or burned) is at most capacity + floor(elapsed * refill / duration) |
| `GrossFlow.PrincipalIsNetFlow` | programs/oft/src/instructions/send.rs:74-89 | over every run principal moves by what was sent less what came back |
| `GrossFlow.GrossReceiveBound` | programs/oft/src/instructions/lz_receive.rs:96-112 | gross receives on Solana are at most what was on its way plus what the Robinhood outbound bucket lets go |
| `GrossFlow.GrossSendBound` | programs/oft/src/instructions/send.rs:67-72 | gross sends are at most the outbound capacity, its refill and those receives, over every run that leaves that limiter and that bucket alone |
| `RateLimitPlan.ValidatedMeansMatched` | scripts/productionRateLimitPolicy.ts:96-123 | the plan read back from both chains is accepted exactly when all four limiters match a non-zero profile |
| `RateLimitPlan.ProfilesFloorADay` | scripts/productionRateLimitPolicy.ts:1-6 | each approved profile refills by the floor of its capacity over a day |
| `RateLimitPlan.LevelsAlwaysWithin` | scripts/productionMainnetPolicy.ts:559-570 | in every reachable state the observed levels lie within their capacities exactly when no Solana limiter is missing |
| `RateLimitPlan.PlanShows` | scripts/checkProductionMainnet.ts:396-424 | each direction of the observed plan shows the terms of its limiter, with the stored tokens on Solana and exactly what can be drawn on Robinhood |
| `RateLimitPlan.RunFits` | scripts/productionRateLimitPolicy.ts:96-123 | with the plan in force, every undelivered packet fits the destination capacity |
| `RateLimitPlan.ReceivableOnSolana` | programs/oft/src/instructions/lz_receive.rs:96-125 | after the fill time a fitting packet passes limiter, principal and escrow on Solana |
| `RateLimitPlan.ReceivableOnRobinhood` | contracts/SanOFT.sol:126-133 | after a day a fitting packet passes the bucket on Robinhood |
| `RateLimitPlan.NoStranding` | scripts/productionRateLimitPolicy.ts:92-123 | with a validated plan in force, every undelivered packet fits and, with the destination unpaused, is delivered after a computable wait |
| `RateLimitPlan.OversizeIsStranded` | contracts/SanOFT.sol:177-182 | above the destination capacity no wait ever helps |
| `Drainage.ReadyDrains` | scripts/productionRateLimitPolicy.ts:92-123 | under a validated plan with both sides running and time left, a schedule of waits and receives empties both directions and ends with tvl == supply |
| `Drainage.EveryRunDrains` | docs/IN_FLIGHT_EVIDENCE_MODEL.md:54-62 | every run that keeps a validated plan in force can be continued so |
| `Json.PrintUnique` | scripts/inFlightInventory.ts:102-110 | printed JSON is uniquely readable, whatever follows it |
| `Json.PrintRead` | scripts/inFlightInventory.ts:102-110 | a reader of the grammar of RFC 8259 reads printed JSON back, whatever follows it |
| `Json.EscapesAreMinimal` | scripts/inFlightInventory.ts:103 | only quotes, backslashes and control characters are escaped, in the short form where there is one |
| `Json.SortKeysMeaning` | scripts/inFlightInventory.ts:105-109 | sorted forms agree exactly when the values are equal up to key order |
| `Json.SortKeysAscend` | scripts/inFlightInventory.ts:107 | in the sorted form the keys of every object, at every depth, ascend by their UTF-16 code units |
| `Json.CanonicalJsonReads` | scripts/inFlightInventory.ts:102-110 | canonical text reads back as a value equal up to key order in which every object has ascending keys |
| `Json.CanonicalJsonInjective` | scripts/inFlightInventory.ts:102-110 | two values have the same canonical text exactly when they are equal up to object key order |
| `Sorting.SortIdentifiesMultisets` | scripts/scanProductionInFlight.ts:71-76 | with distinct keys, two lists sort to the same list exactly when they hold the same elements |
| `Sorting.LexLeIsUtf16` | scripts/inFlightInventory.ts:107 | the order of strings is the lexicographic order of their UTF-16 code units, surrogate pairs included |
| `Sorting.SortIsStable` | scripts/scanProductionInFlight.ts:71-76 | elements of one key keep their order |
| `CanonicalOrder.CanonicallyOrdered` | scripts/inFlightInventory.ts:274-281 | in canonical order all messages from Robinhood precede all from Solana, and heights of up to 24 digits never fall within a direction |
| `CanonicalOrder.HeightDecides` | scripts/scanProductionInFlight.ts:71-76 | within a direction the lower height comes first, compared as a number |
| `CanonicalOrder.TransactionDecides` | scripts/scanProductionInFlight.ts:71-76 | at one height, different transactions of one length decide |
| `CanonicalOrder.IndexDecides` | scripts/scanProductionInFlight.ts:71-76 | within a transaction, event indices of equally many digits compare as numbers |
| `CanonicalOrder.TenBeforeNine` | scripts/scanProductionInFlight.ts:71-76 | but event index ten comes before nine |
| `CanonicalOrder.GuidDecides` | scripts/scanProductionInFlight.ts:71-76 | with everything else alike the GUIDs decide |
| `Evidence.MessageTextsIdentify` | scripts/inFlightInventory.ts:279-281 | two message lists print alike exactly when they are equal, order included |
| `Evidence.CompareProviders` | scripts/scanProductionInFlight.ts:78-83 | the textual comparison decides equal ranges and equal canonically ordered messages |
| `Evidence.ProvidersAgree` | scripts/scanProductionInFlight.ts:78-83 | given distinct sort keys, providers compare equal exactly when ranges and message multisets agree |
| `Evidence.DistinctGuidsDistinctKeys` | scripts/scanProductionInFlight.ts:71-76 | messages with different GUIDs have different sort keys |
| `InFlightManifest.ChecksumBinds` | scripts/inFlightInventory.ts:112-115 | the checksum binds every field: unless the hash collides on the two texts, two manifests have the same checksum exactly when they are equal |
| `ManifestText.ChecksumTextReads` | scripts/inFlightInventory.ts:112-115 | the text under the checksum is its heading and JSON that reads back, field by field under its name, as the manifest |
| `ManifestText.ComparableReads` | scripts/scanProductionInFlight.ts:78-83 | the text two providers are compared by reads back as the ranges and both message lists, each under its name and in canonical order |
| `InFlightInventory.CanonicalOrderMeansSorted` | scripts/inFlightInventory.ts:274-281 | the canonical-order check passes exactly on ascending sort keys |
| `InFlightInventory.CheckOrder` | scripts/inFlightInventory.ts:274-281 | the textual comparison with the sorted list decides ascending sort keys |
| `InFlightInventory.CheckProvenance` | scripts/inFlightInventory.ts:235-262 | demands the approved model, two different providers on each chain and full agreement |
| `InFlightInventory.ReadMessages` | scripts/inFlightInventory.ts:270-386 | accepts exactly distinct, well-formed messages, and counts and totals them |
| `InFlightInventory.CheckMessages` | scripts/inFlightInventory.ts:264-397 | decides order, messages and summary together, and returns their count and totals |
| `InFlightInventory.ParseInFlightInventory` | scripts/inFlightInventory.ts:186-411 | accepts exactly the identified, ordered, duplicate-free, well-formed manifests whose summary agrees and whose checksum is that of their contents, and reports their count and totals |
| `ManifestRules.ParserRules` | scripts/inFlightInventory.ts:186-397 | a manifest is acceptable exactly when header and messages have none of the listed defects, keys ascend, GUIDs differ in more than case, and the summary counts and adds up the open messages |
| `ManifestRules.HeaderRules` | scripts/inFlightInventory.ts:186-262 | the header passes exactly without any of fifteen defects of schema, time, scanner, chains, ranges and provenance |
| `ManifestRules.MessageRules` | scripts/inFlightInventory.ts:282-385 | a message passes exactly without any of seventeen defects; heights, block hashes and OFTs are checked against the chain the packet left or arrives at |
| `ManifestRules.SealMeaning` | scripts/inFlightInventory.ts:398-402 | the supplied checksum is a 32-byte hash that spells, in either case, the hash of the text of the contents |
| `ManifestRules.SealBinds` | scripts/inFlightInventory.ts:398-402 | unless the hash collides on the two texts, one checksum seals one manifest |
| `ManifestRules.TimestampMeaning` | scripts/inFlightInventory.ts:205-207 | the accepted times are UTC to the second or the millisecond |
| `InFlightScan.BuiltStatuses` | scripts/scanProductionInFlight.ts:85-134 | in the manifest a send with a receive is delivered; one without is failed, blocked or in flight exactly for the API statuses that name it, in any case, and otherwise unresolved |
| `InFlightScan.BuiltMessage` | scripts/scanProductionInFlight.ts:103-134 | every reported message is its send, with the destination evidence of its receive and the API status, and every send is reported |
| `InFlightScan.RefusedExactly` | scripts/scanProductionInFlight.ts:108-131 | the builder refuses a message exactly when the two events name different transfers, or the API status contradicts the chains |
| `InFlightScan.BuiltFields` | scripts/scanProductionInFlight.ts:147-176 | schema, scanner, times, identities, ranges, providers and summary of the manifest are those of the input and of its messages |
| `InFlightScan.IndexDestinations` | scripts/scanProductionInFlight.ts:97-102 | fails exactly on a repeated receive GUID |
| `InFlightScan.MatchSources` | scripts/scanProductionInFlight.ts:103-136 | the mutating match equals taking, for each send, the receive of a GUID not seen before; fails on a contradiction or a left-over receive |
| `InFlightScan.AddUp` | scripts/scanProductionInFlight.ts:138-146 | totals of the open messages over the integers, failing exactly where BigInt throws on one |
| `InFlightScan.BuildUnsigned` | scripts/scanProductionInFlight.ts:93-176 | succeeds exactly on agreeing, consistent evidence, with the identity, the annotated messages in canonical order and their totals |
| `InFlightScan.AcceptsExactly` | scripts/scanProductionInFlight.ts:93-146 | it succeeds exactly when the providers agree, no receive repeats, every receive has its send, nothing contradicts a send, and what is open is read by BigInt |
| `InFlightScan.BuildInFlightManifest` | scripts/scanProductionInFlight.ts:93-177 | attaches to that manifest the checksum of its contents |
| `InFlightScan.BuiltManifestConserves` | scripts/scanProductionInFlight.ts:97-146 | in each direction everything sent was received or is reported in flight, whatever BigInt reads in the amounts and even if source GUIDs repeat |
| `InFlightScan.EveryReceiveMatchedOnce` | scripts/scanProductionInFlight.ts:103-136 | every receive is matched with exactly one send, of the same transfer |
| `InFlightScan.AnnotatedOk` | scripts/inFlightInventory.ts:305-385 | the parser accepts an annotated message exactly when its evidence is in order |
| `InFlightScan.BuildThenParse` | scripts/inFlightInventory.ts:186-411 | the parser accepts what the builder built exactly on presentable evidence (approved identity, plain positive amounts, distinct GUIDs, in-range heights, API statuses), and then their totals agree |
| `BuilderAndParser.UnparseableForever` | scripts/inFlightInventory.ts:305-330 | once a packet of amount zero was sent, no exact evidence of any later state is parsed |
| `BuilderAndParser.BlankStatusUnparseable` | scripts/scanProductionInFlight.ts:107-132 | an absent or blank API status of a packet in flight builds but does not parse |
| `BuilderAndParser.RepeatedSendUnparseable` | scripts/scanProductionInFlight.ts:103-134 | a send reported twice builds but does not parse, for the repetition alone |
| `BuilderAndParser.RespelledUnparseable` | scripts/scanProductionInFlight.ts:138-146 | an amount that BigInt reads but that is no plain positive number builds but does not parse |
| `InFlightScan.BuiltIsSealed` | scripts/inFlightInventory.ts:398-402 | the checksum the builder attaches passes the parser |
| `Reconciliation.MatchesDelivery` | scripts/scanProductionInFlight.ts:103-118 | on exact evidence a send is matched exactly when its packet was delivered, and with that delivery |
| `Reconciliation.EventsAgree` | scripts/scanProductionInFlight.ts:110-116 | the two events of a packet agree exactly when it was credited in full to an address the event can show |
| `Reconciliation.ConsistentExactly` | scripts/scanProductionInFlight.ts:93-136 | on exact evidence the builder succeeds exactly when every packet reconciles and no API status contradicts the chains |
| `Reconciliation.ReportedIsInFlight` | scripts/scanProductionInFlight.ts:138-146 | on exact evidence the reported total of a direction is what is undelivered on the bridge |
| `Reconciliation.RunStaysSan` | programs/oft/src/instructions/quote_send.rs:118-132 | without a transfer fee and at rate one, every delivery credits its packet in full |
| `HonestScan.HonestIsExact` | scripts/scanProductionInFlight.ts:75-136 | for any packets of the bridge there is exact evidence, on which both providers agree |
| `HonestScan.HonestIsPresentable` | scripts/inFlightInventory.ts:186-411 | and it is presentable exactly when all amounts are positive |
| `MainnetPolicy.BuilderSucceeds` | scripts/scanProductionInFlight.ts:93-177 | on the events of a reachable state the builder succeeds exactly when the providers agree and those events reconcile |
| `MainnetPolicy.PassesWithoutAlarm` | scripts/productionMainnetPolicy.ts:490-592 | whatever the figures, the checker passes exactly when none of nine alarms is raised |
| `MainnetPolicy.EquationHolds` | scripts/productionMainnetPolicy.ts:502-508 | in every reachable state the reported totals make tvl == supply + both in-flight totals true, with escrow >= tvl |
| `MainnetPolicy.PublishedManifestReconciles` | scripts/productionMainnetPolicy.ts:502-508 | on the reconciling events of a reachable state the manifest makes the equation hold; it is built iff the providers agree, and parses iff it is presentable |
| `MainnetPolicy.EquationDetects` | scripts/productionMainnetPolicy.ts:502-508 | on evidence of any packets the equation holds exactly when their open amounts add up to what is really in flight |
| `MainnetPolicy.OmissionCaught` | docs/IN_FLIGHT_EVIDENCE_MODEL.md:66-79 | evidence that omits one packet fails the equation exactly when value of that packet is in flight |
| `RangeEnds.SkewedTotals` | scripts/scanProductionInFlight.ts:138-146 | with range ends at two moments, accepted evidence reports exactly the principal at the Solana end less the supply at the Robinhood end |
| `RangeEnds.EquationAtRangeEnds` | docs/IN_FLIGHT_EVIDENCE_MODEL.md:54-62 | so the equation holds of accounts read at the range ends, each chain at its own |
| `RangeEnds.EquationElsewhere` | scripts/productionMainnetPolicy.ts:502-508 | of accounts read at any other moment it holds exactly when principal less supply is the same there |
| `RangeEnds.PausedEvidenceStays` | docs/IN_FLIGHT_EVIDENCE_MODEL.md:54-62 | evidence exact for a paused moment keeps the equation true for as long as the pause lasts |
| `RangeEnds.OrphanRejected` | scripts/scanProductionInFlight.ts:135-136 | a packet received before one range end but sent after the other makes the builder fail |
| `MainnetPolicy.PreActivationPasses` | scripts/productionMainnetPolicy.ts:558-576 | the accounting, rate-limit and activation checks pass before activation exactly when both sides are paused, the four limiters match the profile and the approved figures are true |
| `MainnetPolicy.AcceptedMeansDeliverable` | scripts/productionMainnetPolicy.ts:558-576 | if an accepted check approves in-flight figures within the profile, every packet in flight is deliverable after a computable wait once both sides are unpaused |
| `MainnetPolicy.CanaryPasses` | scripts/productionMainnetPolicy.ts:577-592 | at the first unpause the same checks pass exactly when Robinhood is unpaused, the limiters match, escrow is empty and no packet exists |
| `MainnetPolicy.CanaryNeedsNoPackets` | scripts/productionMainnetPolicy.ts:577-592 | any packet on record, of whatever amount, fails the canary check |
| `MainnetPolicy.WideRecipientNeverReconciles` | scripts/scanProductionInFlight.ts:475 | counterexample family: a packet delivered to any recipient that is not a 20-byte address makes the builder fail |
| `MainnetPolicy.HonestScanPublishes` | scripts/productionMainnetPolicy.ts:502-508 | in every reachable state with showable recipients an honest scan is built and makes the equation hold, and is parsed exactly when no packet has amount zero |
| `FirstDelivery.DeliveryReachable` | docs/PARTIAL_CONFIGURATION_SECURITY.md:88-99 | from any deployment with a funded account a packet is sent and delivered in four steps |
| `Activation.ActiveIsReady` | docs/PARTIAL_CONFIGURATION_SECURITY.md:88-99 | after the activation steps from any deployment the canary plan validates and both sides run |
| `Activation.DrainableReachable` | scripts/productionRateLimitPolicy.ts:92-123 | so a packet can be on its way with the plan in force, and the drainage schedule delivers it |
| `Activation.CanaryPassesAfterCeremony` | docs/PARTIAL_CONFIGURATION_SECURITY.md:88-99 | right after the documented ceremony the canary check passes |
| `Activation.StraySendReachable` | docs/PARTIAL_CONFIGURATION_SECURITY.md:92-95 | between the two unpauses an account that holds nothing can send amount zero; everything else the canary check asks for still holds |
| `Activation.StraySendBlocksCanary` | scripts/productionMainnetPolicy.ts:577-592 | from then on the canary check fails, on any exact evidence, whatever happens next |
| `FirstDelivery.UnreconcilableReachable` | scripts/scanProductionInFlight.ts:475 | such a delivery is reachable, and there is exact evidence of it, agreed by both providers, that the builder rejects |
| `FirstDelivery.PublicationReachable` | docs/PARTIAL_CONFIGURATION_SECURITY.md:88-99 | a delivery to an address is reachable whose evidence is built and accounted for, and parsed exactly when its amount is positive |
| `FirstDelivery.ZeroAmountUnparseable` | scripts/inFlightInventory.ts:305-330 | so a state is reachable whose exact evidence the builder accepts and the parser does not |
| `Text.PadAddressKeeps` | scripts/scanProductionInFlight.ts:475 | padding a 20-byte address to 32 bytes keeps a recipient exactly when its first twelve bytes are zero |
| `Text.CaseMeaning` | scripts/inFlightInventory.ts:134-137 | letter by letter each alphabet becomes the other, and no other character changes |
| `Text.PrefixReads` | scripts/scanProductionInFlight.ts:143-144 | the mark decides the radix `BigInt` reads a text in, and a digit beyond it makes it throw |
| `Bytes.FromToBe` | programs/oft/src/msg_codec.rs:16-37 | big-endian writing and reading are inverse |
| `Bytes.ToFromBe` | programs/oft/src/msg_codec.rs:34-38 | and in the other order |
| `Bytes.ReadArray` | programs/oft/src/msg_codec.rs:28-38 | a fixed-width reader returns the slice, or fails beyond the end of the message |
| `MsgCodec.Encode` | programs/oft/src/msg_codec.rs:7-26 | appends recipient, amount and, if given, sender and compose bytes |
| `MsgCodec.SendTo` | programs/oft/src/msg_codec.rs:28-32 | reads the first 32 bytes |
| `MsgCodec.AmountSd` | programs/oft/src/msg_codec.rs:34-38 | reads the next eight bytes as a u64 |
| `MsgCodec.ReadBack` | programs/oft/src/msg_codec.rs:7-46 | the readers return what was encoded; a compose part is present iff one was given |
| `MsgCodec.EncodeBack` | programs/oft/src/msg_codec.rs:7-46 | every message of 40 bytes or at least 72 is the encoding of what it reads as |
| `MsgCodec.Layout` | programs/oft/src/msg_codec.rs:3-26 | recipient at bytes 0 to 32, amount at 32 to 40, then sender and compose bytes |
| `Bytes.FirstByte` | programs/oft/src/msg_codec.rs:34-38 | the first byte is the most significant one |
| `ComposeMsgCodec.Encode` | programs/oft/src/compose_msg_codec.rs:7-19 | appends nonce, source, amount and the compose part |
| `ComposeMsgCodec.Nonce` | programs/oft/src/compose_msg_codec.rs:21-25 | reads bytes 0 to 8 |
| `ComposeMsgCodec.SrcEid` | programs/oft/src/compose_msg_codec.rs:27-31 | reads bytes 8 to 12 |
| `ComposeMsgCodec.AmountLd` | programs/oft/src/compose_msg_codec.rs:33-37 | reads bytes 12 to 20 |
| `ComposeMsgCodec.ComposeFrom` | programs/oft/src/compose_msg_codec.rs:39-43 | reads bytes 20 to 52, or fails on a shorter message |
| `ComposeMsgCodec.ReadBack` | programs/oft/src/compose_msg_codec.rs:7-51 | all five readers return what was encoded |
| `Delivery.SendArrives` | programs/oft/src/instructions/send.rs:128-142 | the amount a send adds to tvl is recovered from its message, and a composed call reads back nonce, source, amount, sender and bytes |
| `Delivery.ReceiveTakes` | programs/oft/src/instructions/lz_receive.rs:73-97 | a message is taken exactly when it clears, holds 40 bytes, its part beyond them is accepted, and the number at bytes 32 to 40 can be released |
| `Delivery.QuoteIsForSameLength` | programs/oft/src/instructions/quote_send.rs:56-61 | a quoted message has the length and recipient of the sent one, and its amount iff the rate is one or the amount zero |
| `Decimals.FormatThenParse` | scripts/sanMintConfig.ts:76-84 | reading a printed amount returns it, for every amount and number of decimals |
| `Decimals.FormatIsShortest` | scripts/sanMintConfig.ts:76-84 | a raw amount is printed in its shortest form: whole units, then the fractional digits without trailing zeros |
| `Decimals.ParseTruncates` | tasks/solana/utils.ts:65-75 | excess fractional digits are dropped: the result is the amount scaled and rounded down |
| `Decimals.NegativeAmountsMisread` | tasks/solana/utils.ts:66-74 | a negative amount reads as the negation of its absolute value exactly when no kept fractional digit is non-zero |
| `Decimals.NegativeExample` | tasks/solana/utils.ts:66-74 | "-1.5" with one decimal reads as -5 |
| `Pagination.ScanSignatures` | scripts/scanProductionInFlight.ts:269-289 | the signature loop ends with exactly the successful signatures of the slot range, for every page limit |
| `Pagination.ReadPage` | scripts/scanProductionInFlight.ts:279-285 | the loop over a page stops at the first slot before the range |
| `Pagination.ScanLogs` | scripts/scanProductionInFlight.ts:407-409 | block pages tile the range and the logs collected are those of the whole range |
| `Pagination.TilesPartition` | scripts/scanProductionInFlight.ts:407-408 | every block of the range is in exactly one page |
| `Pagination.AdjacentRanges` | scripts/scanProductionInFlight.ts:407-409 | logs of adjacent ranges concatenate to the logs of their union |
| `UlnPolicy.ValidateDvnList` | scripts/layerZeroConfigPolicy.ts:119-126 | the count and both inclusion loops decide the list check |
| `UlnPolicy.AcceptsRearrangements` | scripts/layerZeroConfigPolicy.ts:117-126 | without repeated expected verifiers, exactly the rearrangements of the expected list that hold no deprecated one pass |
| `UlnPolicy.ExactlyWhen` | scripts/layerZeroConfigPolicy.ts:117-126 | only rearrangements pass exactly when the expected list has no repetition, is one entry repeated, or holds a deprecated verifier |
| `UlnPolicy.RepeatedExpectation` | scripts/layerZeroConfigPolicy.ts:117-126 | an instance: ["a","b","b"] passes for the expected ["a","a","b"] |
| `MockEndpoint.Endpoint.AuthorizeMessage` | programs/endpoint-mock/src/instructions/oapp/runtime.rs:4-39 | for the delegate of a registered receiver creates the message account, which must not exist |
| `MockEndpoint.Endpoint.Clear` | programs/endpoint-mock/src/instructions/oapp/runtime.rs:172-206 | clears, for a registered receiver signing itself, exactly an unconsumed account with every field as given, and consumes it |
| `MockEndpoint.ClearedAtMostOnce` | programs/endpoint-mock/src/instructions/oapp/runtime.rs:192-206 | along every run a receiver clears a GUID at most once |
| `MockEndpoint.ClearedWasAuthorized` | programs/endpoint-mock/src/instructions/oapp/runtime.rs:4-39 | only a message authorized by the delegate of its receiver can be cleared, with every field as authorized |
| `MockEndpoint.EndpointAccepts` | programs/endpoint-mock/src/instructions/oapp/runtime.rs:4-39 | after every run a message can be authorized exactly by the delegate if none was before, and cleared exactly by its receiver if it is the one authorized and not cleared yet |
| `MockEndpoint.RunRecounts` | programs/endpoint-mock/src/instructions/oapp/runtime.rs:172-206 | the accounts are the history: an account holds what was first authorized there, and whether that was cleared |

## Left out

- Peer addresses are fixed in runs; changing a peer or the Endpoint delegate, and upgrading the program, end the custody argument.
- LayerZero Endpoint, DVN and Executor internals: a send gets a fresh GUID and a packet is cleared at most once; `MockEndpoint` shows the shape with an ideal hash.
- Account ownership, PDA derivation and option combining are replaced by explicit guards or left out.
- SolanaAdapter.OftAdapter.SendApply: has the Adapter arm only, takes the sender check and the Endpoint's answer as parameters, and leaves out options and messaging fees.
- SolanaAdapter.OftAdapter.SendTransaction: covers what `SendApply` covers.
- SolanaAdapter.OftAdapter.ReceiveApply: has the Adapter arm only and takes the Endpoint's answers to the clear and compose calls as parameters.
- SolanaAdapter.OftAdapter.ReceiveTransaction: covers what `ReceiveApply` covers.
- SolanaAdapter.OftAdapter.SetOftConfigTransaction: leaves out the delegate arm, which only calls the Endpoint.
- SolanaAdapter.OftAdapter.SetPeerConfigTransaction: leaves out the peer address and enforced option arms, which touch no value.
- Bridge.Pending: finds a packet by GUID and direction; comparing sender, nonce and payload hash is in `MockEndpoint.Clear`.
- Native-mode send and receive: only the amount computation has the Native branch; the deployment is an Adapter.
- The Token-2022 transfer fee, the ERC-20 and OFT base contracts and `transfer_checked` are library behaviour, modelled by their documented effect; the base contract's treatment of the zero address is not modelled.
- Clocks only move forward; negative Unix timestamps are not modelled.
- The total issue of canonical SAN is at most u64, as a token mint guarantees.
- Limiters can be configured before a peer account exists in this model; the peer account is taken to exist.
- InFlightInventory.ParseInFlightInventory: starts from a manifest of the right shape; `JSON.parse`, the schema version and the key sets are settled by its type.
- SHA-256 is a parameter; `InFlightManifest.ChecksumBinds` assumes of it only that the two texts at hand do not collide.
- `JSON.parse`, non-integer numbers and lone surrogates: manifests hold strings, integers, booleans and null.
- `localeCompare` is replaced by the order of UTF-16 code units, as a fixed total order.
- `toLowerCase` and `toUpperCase` act on ASCII letters only.
- Identity, address, range-anchor, role and layout comparisons of the production checker.
- MainnetPolicy.PreActivationPasses: has the accounting, rate-limit and activation checks; identity, roles, enforced options, verifier policy and range anchors are not part of it.
- MainnetPolicy.CanaryPasses: covers the same checks.
- Extracting events from transactions and packets from receipts: the paging loops are modelled, the decoding of what they return is not.
- RPC, HTTP, deployment tasks and wallet code.
- RateLimitPlan.NoStranding: assumes that nothing in flight exceeded the profile when the plan came into force, because a packet sent earlier under other limits may exceed it (`RateLimitPlan.OversizeIsStranded`).
- MainnetPolicy.EquationHolds: is stated for a mint without transfer fee at six decimals on both chains, which is what the checked deployment is.
- Decimals.ParseTruncates: is stated for non-negative decimal amounts; `Decimals.NegativeAmountsMisread` covers the others.
