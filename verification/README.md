# Verified models of the Setheum runtime modules

This project models five FRAME modules of the Setheum runtime in Dafny and proves what they keep over
whole runs: democracy, the exchange, transaction payment, the account mapping of the EVM, and the
exchange's incentives. `dafny verify dfyconfig.toml` checks all of it.

Each module is written twice. A specification gives the effect of every operation as a function on an
immutable storage value, with every error case; a class with the storage items as fields carries the
operations out step by step, with the loops of the original, and each of its methods is proved to have
exactly the specified effect, an error leaving the storage alone. The theorems are about the
specification, and so about the class. The table below lists the methods with a loop, a rollback or
several dependent updates; the other methods are proved against their specification function in the same
way.

| files | subject |
|---|---|
| `Numbers`, `FixedPoint`, `Wrappers`, `MapSums`, `Currencies`, `Ledgers` | 128- and 256-bit arithmetic, `FixedU128`, sums over maps, currency identifiers and pairs, a multi-currency ledger |
| `Voting`, `VoteVectors`, `Tallies`, `VotingRoundTrips`, `Locks`, `VotingOutcomes` | ballots, delegations, tallies and conviction locks |
| `Democracy`, `Deposits`, `Lifecycle`, `Tabling`, `DemocracyRuns`, `Decisions`, `ProposalOutcomes`, `Council` | proposals, deposits, preimages, tabling, the work of a block, whole runs, and the class `Pallet` |
| `Pricing`, `Dex`, `DexPaths`, `DexAccounts`, `DexProducts`, `DexShares`, `DexMaxima`, `DexProvision`, `DexParties`, `DexCustody`, `DexRoundTrips`, `DexRuns`, `DexEmptyPools`, `DexRepeatedHop`, `DexInstances`, `DexOutcomes`, `DexListings`, `Exchange` | prices, paths, liquidity shares, provisioning, custody, whole runs, and the class `Exchange` |
| `FeeMultiplier`, `Fees`, `FeeSwaps`, `Charging`, `ChargingOutcomes`, `Cashier` | the fee multiplier, fee settlement, buying native currency for a fee, conservation over runs, and the class `Cashier`, which works on an `Exchange` object |
| `EvmMessages`, `EvmMapping`, `EvmOutcomes`, `EvmAccounts` | the signed message, the two-way mapping, and the class `Registry` |
| `Incentives`, `Farm` | staking and rewards, and the class `Farm` |

## Readings

The repository does not compile as it stands. These readings were taken:

- The exchange fee is declared as a map (`lib-serml/dex/dex/src/lib.rs:217`) but read as a numerator and a
  denominator (908, 928); it is a pair here.
- Line 644 of the exchange subtracts the second provision from the reserve although the comment (641) and the
  event (650-655) say that it is injected. The model adds it. `DexCustody.SubtractingLosesTheProvision` says
  what the text as written would do.
- `second` (`lib-serml/democracy/src/lib.rs:656-658`) reserves the currency in place of the amount. The model
  reserves the recorded amount in the recorded currency, as line 632 documents.
- `backing_for` (1250) is the recorded amount times the number of depositors.
- `LowestUnbaked` is read (1257, 1702) but written only at genesis, as zero (420), so the scan always starts at
  zero.
- The helpers of `pallet_democracy` (52-57) and `FixedU128` are libraries and not part of the repository.
  `conviction.votes`, the lock periods, the approval rule and the hash of a preimage are arbitrary functions;
  tallies, prior locks and locked balances behave as those libraries document. Fixed-point operations round
  down.
- The target weight of a block is a proportion of the limit, given as a number.

## Where the code and its documentation part

- Tabling is meant to alternate. Taking the flag clears it, so the turn is lost in a slot in which nothing is
  tabled (`EmptySlotForgetsTheTurn`); between consecutive slots that do table something it alternates.
- A lock is meant to be extended, not replaced; re-delegating forgets the old one
  (`RedelegatedBalanceIsForgotten`).
- A referendum whose preimage is missing when it ends stops the baking of all later ones in that block and is
  never looked at again (`BakesExactlyWhenAtHand`, `MissedIsNeverDecided`).
- Blacklisting is meant to keep a proposal from ever being proposed again. Two of the external calls do not ask
  the blacklist, as their comments say, and a veto of what they proposed replaces the entry by one for the
  cool-off period (`VetoLiftsBlacklisting`); without such a veto the proposal stays out (`StaysOut`). Of several
  public proposals with the hash only the first leaves the queue (`BlacklistOutcome`).
- The maxima given to `add_liquidity` are not always respected by its first branch
  (`FirstBranchRespectsMaximumExactlyWhen` says when, `MissingPriceExceedsMaximum` and
  `UnderflowingPriceExceedsMaximum` which accepted calls break them).
- A quoted supply does not always buy its target, because the product of the fee is computed in 128 bits
  (`SupplyAmountSufficesExactlyWhen`).
- Amounts are quoted for a path from the pools as they are before the swap. A path that takes a hop twice in
  the same direction can therefore draw a pool below zero, where the subtraction saturates, or pay out more
  than a single hop would have. Custody is kept exactly when no pool is overdrawn
  (`SettleKeepsCustodyExactlyWhen`, `RepeatedHopLosesCustody`), the value of shares exactly when the net trade
  through the pool is fair (`SwapKeepsValueExactlyWhen`, `RepeatedHopLosesValue`). The shortest such paths have
  five currencies; all shipped runtimes limit paths to three
  (`runtime/setheum/src/lib.rs:1404`, `runtime/neom/src/lib.rs:1395`, `runtime/newrome/src/lib.rs:1404`), for
  which `ShortRunsKeepCustody` and `ShortRunsKeepValue` need no assumption on the swaps' paths.
- The comment at `lib-serml/transaction-payment/src/lib.rs:755-756` credits a library check for the refund not
  exceeding the payment. It cannot in any case. In `refund_fee` (821) it can, and value is then created.

## Assumptions of the theorems over runs

- The account that holds the exchange's (or the keeper's) funds signs nothing.
- Custody: no swap overdraws a pool on its way. Every path that repeats no hop in the same direction, and
  every path of up to four currencies with distinct neighbours, is of that kind. Enabled pairs may consist of
  one currency twice, except in the theorems about short paths.
- Value per share: every swap repeats no hop or is short, with exact-target quotes that are charged in full
  (`SupplyAmountKeepsProductExactlyWhen`; always so when the 256-bit product does not saturate), or its net
  trade through the pair is fair.
- Tallies: the exact sums of votes fit into 128 bits.
- Deposits: other modules leave alone what this one has reserved.
- Account mapping: no two accounts that take part have the same default address, nobody signs for the default
  address of an account that takes part, and padded accounts do not sign.
- Fees: other modules neither create nor destroy native currency between the steps, and a refund by weight is
  not larger than what was paid.

## Model

| member | source | states |
|---|---|---|
| DemocracyRuns.TalliesOverRuns | lib-serml/democracy/src/lib.rs:1319-1524 | On every run of calls and blocks, each ongoing tally equals the sum over all voters of own vote power plus, for standard votes, the delegations they hold, and each account's delegations equal the sum of what is lent to it; votes stay sorted, below the referendum count, and nobody delegates to itself. The only assumption is that these sums are 128-bit numbers |
| DemocracyRuns.GenesisIsExact | lib-serml/democracy/src/lib.rs:405-423 | On the empty chain all the invariants hold from which the theorems over runs start: tallies, locks, deposits, queue and punctuality |
| Tallies.VoteKeepsInv | lib-serml/democracy/src/lib.rs:1319-1358 | A first or repeated vote leaves every tally exactly the sum over all ballots |
| Tallies.RemoveVoteKeepsInv | lib-serml/democracy/src/lib.rs:1366-1397 | So does removing a vote, whether its referendum is ongoing, finished or cancelled |
| Tallies.VotingNeverUnderflows | lib-serml/democracy/src/lib.rs:1325-1330 | The graceful underflow errors can never occur in a reachable state |
| Tallies.UpstreamKeepsTallies | lib-serml/democracy/src/lib.rs:1400-1445 | A change of one account's delegations moves every tally it has a standard vote in by exactly that amount and disturbs nobody else's delegations |
| Tallies.DelegateKeepsInv | lib-serml/democracy/src/lib.rs:1450-1491 | Delegating or re-delegating keeps all tallies and all held delegations exact |
| Tallies.UndelegateKeepsInv | lib-serml/democracy/src/lib.rs:1496-1524 | Undelegating takes back exactly what was lent; no subtraction saturates |
| VotingRoundTrips.FirstStandardVote | lib-serml/democracy/src/lib.rs:1325-1347 | A first standard vote moves its own side by its power and the delegations the account holds, the turnout by their capital, and leaves the other side alone |
| VotingRoundTrips.FirstSplitVote | lib-serml/democracy/src/lib.rs:1325-1347 | A first split vote moves both sides without conviction and brings no delegations with it |
| VotingRoundTrips.VoteThenRemove | lib-serml/democracy/src/lib.rs:1319-1397 | A vote taken back while its referendum is ongoing leaves every tally and every ballot as if it had never been cast |
| VotingRoundTrips.VoteTwice | lib-serml/democracy/src/lib.rs:1327-1335 | Changing a vote gives the same ballots and tallies as casting the second one in the first place |
| VotingRoundTrips.DelegateThenUndelegate | lib-serml/democracy/src/lib.rs:1450-1524 | Delegating and undelegating again restores every referendum and every other ballot; only the lock of the delegation stays with the account |
| VotingOutcomes.VoteAcceptedExactlyWhen | lib-serml/democracy/src/lib.rs:1319-1358 | A vote is accepted if and only if the referendum is ongoing, the account has what it votes with, does not delegate, has room for the vote or replaces one, and its power fits on top of the votes of all others; the first refusals come in the order of the checks |
| VotingOutcomes.VoteIsRecorded | lib-serml/democracy/src/lib.rs:1319-1358 | It records that vote and leaves every other vote, every other ballot and lock, and everything of the referendum but its tally as it was; the lock becomes the larger of the old one and the stake |
| VotingOutcomes.RemovalAcceptedExactlyWhen | lib-serml/democracy/src/lib.rs:1366-1397 | A removal is accepted if and only if the vote is there and the voter asks for it or it has expired: its referendum was cancelled, or is finished and the vote is split, on the losing side, or past its lock period |
| VotingOutcomes.OnlyVoterRemovesEarly | lib-serml/democracy/src/lib.rs:1140-1149 | So somebody else can remove a vote if and only if it has expired |
| VotingOutcomes.RemovalEffect | lib-serml/democracy/src/lib.rs:1366-1397 | It removes that vote and no other; a winning vote leaves its stake and its time to the prior lock until its lock period is over, any other leaves nothing |
| VotingOutcomes.DelegationAcceptedExactlyWhen | lib-serml/democracy/src/lib.rs:1450-1491 | A delegation is accepted if and only if it is to somebody else, of no more than the account has, and the account has no votes |
| VotingOutcomes.DelegationEffect | lib-serml/democracy/src/lib.rs:1450-1491 | It records the delegation and the lock; of all other ballots only the delegations they hold may change |
| VotingOutcomes.UndelegationEffect | lib-serml/democracy/src/lib.rs:1496-1524 | A delegation can be ended if and only if there is one; its balance joins the prior lock until its conviction is over |
| VotingOutcomes.UnlockLeavesWhatIsNeeded | lib-serml/democracy/src/lib.rs:1526-1538 | Unlocking leaves the largest amount still needed by a vote, the delegation or an unexpired prior lock, and nothing when there is none |
| DemocracyRuns.WinningVoteStaysLocked | lib-serml/democracy/src/lib.rs:1350-1538 | On every run, what a winning vote (or an ended delegation) secures stays locked until its conviction expires, through any votes, removals, delegations and unlocks, unless that finished referendum is cancelled by name |
| Locks.WinningVoteIsSecured | lib-serml/democracy/src/lib.rs:1381-1389 | A standard vote on the winning side of a finished referendum is secured until the end block plus the enactment period times its lock periods |
| Locks.SecuredIsLocked | lib-serml/democracy/src/lib.rs:1350-1355 | Whatever is secured is covered by the lock on the account |
| Locks.UndelegatedBalanceIsSecured | lib-serml/democracy/src/lib.rs:1509-1515 | Ending a delegation secures its balance for its conviction |
| Locks.RedelegatedBalanceIsForgotten | lib-serml/democracy/src/lib.rs:1465-1487 | Re-delegating does not accumulate the old lock: after the next unlock the old balance is still locked if and only if the new delegation is as large or an unexpired merged lock is |
| Locks.UpdateLockOnlyLoosens | lib-serml/democracy/src/lib.rs:1526-1538 | Re-evaluating a lock leaves it exactly as required and never tightens it, nor anybody else's |
| DemocracyRuns.DepositsOverRuns | lib-serml/democracy/src/lib.rs:576-661 | On every run, for every currency and account the reserve covers all recorded deposits (as often as the account occurs in them) and preimage deposits, and moves exactly with them unless another module interferes |
| Deposits.DepositIsHeld | lib-serml/democracy/src/lib.rs:1193-1198 | Hence every depositor can be slashed or refunded in full |
| Deposits.SlashKeeps | lib-serml/democracy/src/lib.rs:1226-1240 | Slashing a deposit takes from each depositor's reserve exactly what it recorded, repeated depositors included |
| Deposits.SecondKeeps | lib-serml/democracy/src/lib.rs:640-661 | Seconding records exactly what it reserves |
| Deposits.NoteKeeps | lib-serml/democracy/src/lib.rs:1784-1810 | Noting a preimage records exactly what it reserves |
| Deposits.ReapKeeps | lib-serml/democracy/src/lib.rs:1042-1072 | Reaping removes from the provider's reserve exactly what was recorded, for any reaper |
| Deposits.EnactKeeps | lib-serml/democracy/src/lib.rs:1612-1633 | Enacting settles the whole preimage deposit: unreserved if the data decodes, slashed otherwise |
| Deposits.LaunchPublicKeeps | lib-serml/democracy/src/lib.rs:1583-1610 | Tabling refunds each depositor as often as it deposited and forgets the record |
| DemocracyRuns.ReferendaOverRuns | lib-serml/democracy/src/lib.rs:1541-1554 | On every run indices are never reused and nothing that is finished changes or begins again |
| Lifecycle.OnTime | lib-serml/democracy/src/lib.rs:1690-1714 | After the beginning of a block no ongoing referendum is past its end if and only if none had been missed before and all due ones were baked |
| Lifecycle.BakesExactlyWhenAtHand | lib-serml/democracy/src/lib.rs:1635-1714 | All due referenda are baked if and only if each finds an available preimage that no earlier one has used up |
| Lifecycle.BakeAllOutcome | lib-serml/democracy/src/lib.rs:1704-1711 | Only due referenda change, only to finished in this block, and a missing preimage is the only thing that leaves one ongoing |
| Lifecycle.MaturingExactly | lib-serml/democracy/src/lib.rs:1262-1274 | The maturing referenda are exactly the ongoing ones that end now, each once, in order |
| Decisions.BakedAsApproved | lib-serml/democracy/src/lib.rs:1635-1714 | Every due referendum that is baked had a preimage and ends as finished now, approved if and only if the rule approves its tally for its threshold and the issuance of the currency of its preimage |
| Decisions.BlockDecides | lib-serml/democracy/src/lib.rs:1690-1714 | The same of the work at the beginning of a block, whatever it tables first; when all are baked, every referendum that ends now is decided |
| Decisions.BakedPreimage | lib-serml/democracy/src/lib.rs:1635-1680 | A rejected proposal keeps its preimage, an approved one with a delay has it expire after the delay, and one without has used it up, when no other due referendum is about the same proposal |
| Decisions.StepDecides | lib-serml/democracy/src/lib.rs:1635-1714 | In any run, a step that finishes a referendum is the block in which it ends, and the outcome is the rule applied to the sums over all ballots of own power and held delegations |
| DemocracyRuns.OnTimeOverRuns | lib-serml/democracy/src/lib.rs:1690-1714 | On every punctual run no referendum is ever ongoing past its end |
| DemocracyRuns.MissedIsNeverDecided | lib-serml/democracy/src/lib.rs:1262-1274 | A referendum missed once is never decided on any run; it stays ongoing until cancelled |
| DemocracyRuns.ConsecutiveSlotsAlternate | lib-serml/democracy/src/lib.rs:1557-1563 | Of two consecutive launch slots, not both table an external proposal while a public one waits at the second, nor both a public one while an external one waits; whatever happens in between |
| DemocracyRuns.EmptySlotForgetsTheTurn | lib-serml/democracy/src/lib.rs:1557-1563 | The turn does not survive a slot in which nothing is tabled: the next one serves the external queue exactly when something waits there, and the public one only when nothing does |
| DemocracyRuns.PublicSlot | lib-serml/democracy/src/lib.rs:1583-1610 | What a slot tables from the public queue has maximal backing and becomes a referendum; the rest of the queue is kept as a multiset |
| Tabling.TurnTaken | lib-serml/democracy/src/lib.rs:1557-1580 | Exactly which queue a slot serves, and when the flag is set afterwards |
| Tabling.BestHasMostBacking | lib-serml/democracy/src/lib.rs:1584-1590 | The winner has the highest backing and is the last such proposal |
| Tabling.CancelProposalKeepsQueue | lib-serml/democracy/src/lib.rs:1226-1240 | After cancelling, the queue is still distinct and every queued proposal still has its deposit |
| ProposalOutcomes.ProposalOutcome | lib-serml/democracy/src/lib.rs:576-635 | A proposal is accepted if and only if the currency governs, the value reaches its minimum, there is room, the proposal is not blacklisted now, and the account has the value; it is queued last, backed by the value, which is reserved |
| ProposalOutcomes.SecondingOutcome | lib-serml/democracy/src/lib.rs:640-661 | Seconding appends the seconder, adds the recorded amount to the backing and reserves it; it is accepted if and only if the account has it and the bound is kept |
| ProposalOutcomes.CancellationOutcome | lib-serml/democracy/src/lib.rs:1226-1240 | Cancelling takes exactly the proposal with this index out of the queue and slashes each of its depositors by what it put in |
| ProposalOutcomes.NotingOutcome | lib-serml/democracy/src/lib.rs:1784-1810 | A preimage is noted if and only if it is not there yet, the currency governs, and the account has the price of its length, which is reserved |
| ProposalOutcomes.ImminentOutcome | lib-serml/democracy/src/lib.rs:1813-1836 | A missing preimage can be noted for nothing, and cannot be reaped before its proposal is due |
| ProposalOutcomes.ReapingOutcome | lib-serml/democracy/src/lib.rs:1042-1072 | A preimage can be reaped if and only if it is there, fits the bound, is a voting period old (and an enactment period more for anybody but its provider), and is past its expiry if it has one |
| ProposalOutcomes.ExternalOutcome | lib-serml/democracy/src/lib.rs:715-728 | An external proposal is accepted if and only if none waits and it is not blacklisted now |
| ProposalOutcomes.FastTrackOutcome | lib-serml/democracy/src/lib.rs:786-821 | Fast tracking is accepted if and only if the waiting proposal is the one named and not one for super-majority approval; it opens a referendum under the waiting threshold with the given period and delay |
| ProposalOutcomes.ExternalSlot | lib-serml/democracy/src/lib.rs:1566-1580 | The slot that tables the waiting external proposal opens a referendum for a voting period under its own threshold |
| ProposalOutcomes.LaunchesEveryPeriod | lib-serml/democracy/src/lib.rs:1690-1699 | Something is tabled only in blocks whose number is a multiple of the launch period |
| ProposalOutcomes.VetoOutcome | lib-serml/democracy/src/lib.rs:833-855 | A veto is accepted if and only if the waiting proposal is the one named and the account has not vetoed it since it was last blacklisted by name; it is out for the cool-off period and the account joins its vetoers, who stay sorted |
| ProposalOutcomes.EmergencyOutcome | lib-serml/democracy/src/lib.rs:693-703 | A referendum can be cancelled in an emergency if and only if it is ongoing and none about its proposal was before |
| ProposalOutcomes.BlacklistOutcome | lib-serml/democracy/src/lib.rs:1178-1216 | Blacklisting takes the proposal out of the external queue, the first of its kind out of the public one with its deposit, and cancels the named referendum if and only if it is about that proposal |
| ProposalOutcomes.StaysOut | lib-serml/democracy/src/lib.rs:604-728 | On any run a proposal that is out until some block is refused by both ways of proposing that ask the blacklist, unless a veto sets an earlier block |
| ProposalOutcomes.VetoLiftsBlacklisting | lib-serml/democracy/src/lib.rs:740-855 | A proposal blacklisted for good that waits because it was proposed past the blacklist can be vetoed and is then out for the cool-off period only |
| Tabling.BlacklistKeepsQueue | lib-serml/democracy/src/lib.rs:1178-1219 | The same after blacklisting |
| Council.Pallet.Vote | lib-serml/democracy/src/lib.rs:1319-1358 | The update of vector, tally, lock and referendum is the specified vote; an error changes nothing |
| Council.Pallet.CountVote | lib-serml/democracy/src/lib.rs:1322-1346 | Counting a previous vote out, recording the new one and counting it in, in the order of the source |
| Council.Pallet.RemoveVote | lib-serml/democracy/src/lib.rs:1366-1397 | The stepwise removal is the specified one in all three cases of the referendum |
| Council.Pallet.RemoveOtherVote | lib-serml/democracy/src/lib.rs:1140-1149 | The call picks the scope by whether the signer is the voter |
| Council.Pallet.FollowVotes | lib-serml/democracy/src/lib.rs:1409-1418 | The loop over the votes reaches each ongoing referendum with a standard vote exactly once |
| Council.Pallet.ChangeUpstream | lib-serml/democracy/src/lib.rs:1400-1445 | Increase and reduce of upstream delegations, and the number of votes reported |
| Council.Pallet.Delegate | lib-serml/democracy/src/lib.rs:1450-1491 | Delegation with both upstream changes and the lock, returning the number of votes it reaches; an error changes nothing |
| Council.Pallet.Undelegate | lib-serml/democracy/src/lib.rs:1496-1524 | Undelegation with the upstream change and the accumulated lock, returning the number of votes it reached |
| Council.Pallet.SlashDepositors | lib-serml/democracy/src/lib.rs:1232-1237 | The loop slashes every depositor in turn |
| Council.Pallet.FindWinner | lib-serml/democracy/src/lib.rs:1585-1590 | The loop over the queue finds the last proposal of maximal backing |
| Council.Pallet.RefundDepositors | lib-serml/democracy/src/lib.rs:1594-1597 | The loop unreserves every depositor in turn |
| Council.Pallet.MaturingReferenda | lib-serml/democracy/src/lib.rs:1262-1274 | The scan over all indices collects the due referenda with their status at that time |
| Council.Pallet.OnBeginBlock | lib-serml/democracy/src/lib.rs:1690-1714 | The loop bakes in order and stops at the first failure, keeping what was done |
| Pricing.TargetAmountIsExact | lib-serml/dex/dex/src/lib.rs:904-922 | The target is the exact floored constant-product quotient; none of the wide products saturates, and the target is below the reserve |
| Pricing.TargetAmountMonotone | lib-serml/dex/dex/src/lib.rs:904-922 | More supply never buys less, even where the fee product saturates |
| Pricing.TargetAmountInNumbers | lib-serml/dex/dex/src/lib.rs:904-922 | Without saturation the target is floor(x * (den - num) * tp / (sp * den + x * (den - num))) |
| Pricing.SupplyAmountInNumbers | lib-serml/dex/dex/src/lib.rs:924-942 | Without saturation the supply is floor(sp * t * den / ((tp - t) * (den - num))) + 1, or zero if that exceeds 128 bits |
| Pricing.NothingLeftAfterFee | lib-serml/dex/dex/src/lib.rs:904-942 | A fee of everything leaves nothing to buy and no supply to quote |
| Pricing.SupplyAmountOfTooMuchIsZero | lib-serml/dex/dex/src/lib.rs:924-942 | A target of the whole reserve or more is quoted as zero |
| Pricing.SupplyAmountSufficesExactlyWhen | lib-serml/dex/dex/src/lib.rs:904-942 | The quoted supply really buys the target if and only if sp * t * denominator <= (2^128 - 1) * (tp - t); nothing is assumed about saturation |
| Pricing.ReachedIsReachable | lib-serml/dex/dex/src/lib.rs:904-922 | A target that fails this condition is not bought by any supply at all |
| Pricing.SupplyAmountOverchargesByAtMostOne | lib-serml/dex/dex/src/lib.rs:924-942 | Any supply that buys the target is at least the quoted one less one unit, saturation or not |
| Pricing.SupplyAmountIsMinimal | lib-serml/dex/dex/src/lib.rs:924-942 | For a reachable target the quoted supply is one unit too much if and only if the exact quotient has no remainder |
| Pricing.SaturatedSupplyFallsShort | lib-serml/dex/dex/src/lib.rs:908-910 | A concrete quote whose 256-bit products are exact and which falls short because the product of the fee is cut to 128 bits |
| Pricing.TargetAmountKeepsProduct | lib-serml/dex/dex/src/lib.rs:904-922 | An exact-supply hop never lowers the product, saturated or not |
| Pricing.SupplyAmountKeepsProductExactlyWhen | lib-serml/dex/dex/src/lib.rs:924-942 | An exact-target hop, saturated or not, keeps the product if and only if floor((sp * t - 1) / (tp - t)) * (tp - t) * (denominator - numerator) fits 256 bits |
| Pricing.SupplyAmountKeepsProduct | lib-serml/dex/dex/src/lib.rs:924-942 | In particular whenever the 256-bit product does not saturate |
| Pricing.SaturatedChargeInstances | lib-serml/dex/dex/src/lib.rs:924-942 | Among saturated quotes there are some that keep the product and some that do not |
| DexPaths.QuotedSupplyReachesTarget | lib-serml/dex/dex/src/lib.rs:945-1030 | Multi-hop round trip: when each quoted target is reachable from its pool, what the backward quote asks for yields, quoted forward, at least the target |
| DexPaths.OneHopRoundTripExactlyWhen | lib-serml/dex/dex/src/lib.rs:945-1030 | Over one hop the round trip succeeds if and only if the target is reachable |
| DexInstances.ShortfallMadeUpFor | lib-serml/dex/dex/src/lib.rs:945-1030 | Over two hops the converse fails: a quote that arrives although its first target is not reachable |
| DexPaths.UnreachableNeverArrives | lib-serml/dex/dex/src/lib.rs:945-986 | A target not reachable from the last pool never arrives, whatever is supplied |
| DexProducts.PathMovesPool | lib-serml/dex/dex/src/lib.rs:1032-1066 | A settled path moves each pool by exactly what it pays into and draws from it |
| DexProducts.ProductKeptExactlyWhen | lib-serml/dex/dex/src/lib.rs:1032-1066 | A settled path that overdraws nothing keeps the product of a pool if and only if the net trade through that pool, read off the quote, is one that a single hop could have made |
| DexProducts.UnrepeatedKeepsProducts | lib-serml/dex/dex/src/lib.rs:1032-1066 | A path that repeats no hop in the same direction, or has at most four currencies with distinct neighbours, leaves both reserves of each touched pool positive and its product at least as large, and no other pool changed; A-B-A included |
| DexPaths.TargetQuoteIsGood | lib-serml/dex/dex/src/lib.rs:945-986 | Every accepted exact-supply quote consists of covered, product-keeping hops |
| DexOutcomes.TargetQuoteExactlyWhen | lib-serml/dex/dex/src/lib.rs:945-986 | A path is quoted by a vector if and only if it has an allowed length, the vector starts with the supply, each entry is the price of the one before, and every hop is enabled, funded, positive and within the price impact |
| DexOutcomes.SupplyQuoteExactlyWhen | lib-serml/dex/dex/src/lib.rs:988-1030 | The same backwards from the target |
| DexOutcomes.ExactSupplyOutcome | lib-serml/dex/dex/src/lib.rs:1068-1095 | A swap is made if and only if it is quoted, the quote ends with at least the minimum, and trader and exchange can pay; it returns what the trader gets, which is at least the minimum |
| DexOutcomes.ExactTargetOutcome | lib-serml/dex/dex/src/lib.rs:1098-1121 | The same for an exact target and the maximum supply |
| DexPaths.SupplyQuoteIsGoodExactlyWhen | lib-serml/dex/dex/src/lib.rs:988-1030 | The hops of an exact-target quote keep the products of their pools if and only if each is charged in full in that sense |
| DexAccounts.PathAccounts | lib-serml/dex/dex/src/lib.rs:1032-1066 | Along any path the reserves give up exactly what is paid out, less what a pool that ran dry could not give |
| DexAccounts.DirectedOnceIsSound | lib-serml/dex/dex/src/lib.rs:945-1066 | A quoted path that repeats no hop in the same direction never overdraws a pool |
| DexAccounts.UnrepeatedIsSound | lib-serml/dex/dex/src/lib.rs:945-1066 | Neither does any quoted path of at most four currencies with distinct neighbours |
| DexCustody.SettleKeepsCustodyExactlyWhen | lib-serml/dex/dex/src/lib.rs:1068-1121 | Provided no reserve outgrows 128 bits on the way, a settled swap leaves the custody of every currency as it was if and only if it overdraws no pool; the shortfall is exactly what is overdrawn |
| DexRepeatedHop.RepeatedHopLosesCustody | lib-serml/dex/dex/src/lib.rs:945-1095 | A concrete accepted swap over five currencies that repeats a hop and leaves the exchange eight units short |
| DexRepeatedHop.RepeatedHopLosesValue | lib-serml/dex/dex/src/lib.rs:945-1095 | A concrete accepted swap along the same path that overdraws nothing, keeps custody, and lowers the value of the outstanding shares of the repeated pair |
| DexShares.SharesAreBacked | lib-serml/dex/dex/src/lib.rs:780-801 | Shares issued by either branch are backed in full on both sides despite rounding |
| DexShares.AddingKeepsPerShare | lib-serml/dex/dex/src/lib.rs:734-833 | Adding lowers neither reserve per share |
| DexShares.RemovingKeepsPerShare | lib-serml/dex/dex/src/lib.rs:835-890 | Removing lowers neither reserve per share |
| DexShares.FirstProviderGainsTheRest | lib-serml/dex/dex/src/lib.rs:762-779 | For the first provider redeeming at once gains nothing if and only if the pool was empty |
| DexRoundTrips.HoldersCanLeave | lib-serml/dex/dex/src/lib.rs:835-890 | In any reachable state whoever holds shares can redeem them |
| DexOutcomes.IncrementIsProportional | lib-serml/dex/dex/src/lib.rs:780-806 | One maximum is added in full and the other currency and the shares in proportion to the pool, with bounds from both sides |
| DexOutcomes.FirstIncrement | lib-serml/dex/dex/src/lib.rs:762-779 | The first provider adds both maxima, for twice the larger one in shares less the rounding of the price |
| DexOutcomes.AddingAcceptedExactlyWhen | lib-serml/dex/dex/src/lib.rs:734-833 | Liquidity is accepted if and only if the pair is enabled, something of both is added for at least the shares asked for, and the books can carry it |
| DexOutcomes.RedemptionIsProportional | lib-serml/dex/dex/src/lib.rs:858-880 | An accepted redemption takes the shares and pays the account, out of the pool, their proportion of each reserve, with bounds from both sides and at least the minima |
| DexOutcomes.RemovingAcceptedExactlyWhen | lib-serml/dex/dex/src/lib.rs:835-890 | It is accepted if and only if the account has the shares, they are worth the minima, and the exchange can pay |
| DexRoundTrips.JoinThenLeave | lib-serml/dex/dex/src/lib.rs:734-890 | An accepted addition can be undone at once by removing the same shares, and the account gains nothing by it if and only if the pair had shares before or its pool was empty |
| DexShares.AllSharesRedeemEverything | lib-serml/dex/dex/src/lib.rs:856-863 | Redeeming all shares returns both reserves to the last unit |
| DexMaxima.SecondBranchRespectsMaximum | lib-serml/dex/dex/src/lib.rs:793-800 | The second branch takes the whole first maximum and at most the second |
| DexMaxima.FirstBranchRespectsMaximumExactlyWhen | lib-serml/dex/dex/src/lib.rs:781-792 | The first branch takes the whole second maximum, and at most the first if and only if floor(10^18 * pool_0 / pool_1) * max_1 < (max_0 + 1) * 10^18 (or max_0 is the largest number) |
| DexMaxima.FirstBranchRespectsMaximum | lib-serml/dex/dex/src/lib.rs:781-792 | So it does whenever the offered price exists and max_0 * pool_0 is at most 10^18 * pool_1 |
| DexMaxima.MissingPriceExceedsMaximum | lib-serml/dex/dex/src/lib.rs:774-792 | Every accepted call whose offered price is not a 128-bit number takes more of the first currency than offered |
| DexMaxima.ZeroMaximumIsExceeded | lib-serml/dex/dex/src/lib.rs:774-792 | In particular every accepted call that offers none of it |
| DexMaxima.UnderflowingPriceExceedsMaximum | lib-serml/dex/dex/src/lib.rs:774-792 | Of the accepted calls whose offered price rounds to zero, exactly which take more than offered |
| DexInstances.OverchargedCall | lib-serml/dex/dex/src/lib.rs:734-833 | Such a call, accepted in a state that meets the invariant, takes twice what was offered |
| DexCustody.EnablingIssues | lib-serml/dex/dex/src/lib.rs:586-658 | Enabling issues at most twice the larger accumulated side; when that fits 128 bits each contributor gets exactly the shares of its contribution and nobody else any, and the total falls short by less than one unit per contributor and the rounding of the price |
| DexProvision.OverflowingInitialPrice | lib-serml/dex/dex/src/lib.rs:600-618 | When the initial price overflows only the larger side counts |
| DexProvision.IssueInitialEffect | lib-serml/dex/dex/src/lib.rs:599-637 | In any order each contributor receives exactly the shares of its contribution, when the total fits 128 bits |
| DexProvision.RefundPaysExactly | lib-serml/dex/dex/src/lib.rs:540-553 | In any order each contributor is refunded exactly, and nobody else is paid |
| DexCustody.DisableRefundsExactly | lib-serml/dex/dex/src/lib.rs:524-560 | Disabling a provisioning pair always succeeds, refunds each contributor exactly, empties the record and keeps custody |
| DexCustody.AddProvisionKeepsCustody | lib-serml/dex/dex/src/lib.rs:661-732 | The accumulated provision stays the sum of all contributions, and custody is kept |
| DexCustody.ConvertKeepsCustody | lib-serml/dex/dex/src/lib.rs:586-658 | Enabling with both provisions added keeps the custody of every currency exactly |
| DexCustody.SubtractingLosesTheProvision | lib-serml/dex/dex/src/lib.rs:641-645 | With the second provision subtracted, as written, the provision and as much again of what the pool held is left unaccounted for in the second currency, and nothing in any other |
| DexParties.ProviderPays | lib-serml/dex/dex/src/lib.rs:801-818 | A provider pays exactly what enters the pool and receives exactly the issued shares, at least the minimum; nobody else is affected |
| DexParties.ProviderIsPaid | lib-serml/dex/dex/src/lib.rs:858-880 | A withdrawing provider gives up exactly its shares and receives exactly what leaves the pool, at least the minima |
| DexParties.ContributorPays | lib-serml/dex/dex/src/lib.rs:661-732 | A contributor pays exactly its provision, which is added in full to its record, and to nobody else's |
| DexParties.AddingIsSymmetric | lib-serml/dex/dex/src/lib.rs:734-833 | Naming the currencies the other way round, each with its own maximum, is the same call |
| DexParties.RemovingIsSymmetric | lib-serml/dex/dex/src/lib.rs:835-890 | The same for removing |
| DexParties.ProvisioningIsSymmetric | lib-serml/dex/dex/src/lib.rs:661-732 | The same for provisions |
| DexListings.ListingOutcome | lib-serml/dex/dex/src/lib.rs:433-490 | A pair is listed if and only if it consists of two different tokens, is not in use and has no shares; minima and targets follow the currencies they were given for |
| DexListings.EnablingOutcome | lib-serml/dex/dex/src/lib.rs:500-515 | A pair is enabled without provision if and only if it consists of tokens and is not in use |
| DexListings.DisablingOutcome | lib-serml/dex/dex/src/lib.rs:524-560 | A pair in use can always be disabled; an enabled one keeps its pool and its shares |
| DexListings.ProvidingAcceptedExactlyWhen | lib-serml/dex/dex/src/lib.rs:661-732 | A provision is accepted if and only if the pair takes provisions, one of the two amounts reaches its minimum, and the account can pay |
| DexListings.EnabledExactlyWhen | lib-serml/dex/dex/src/lib.rs:586-658 | A provisioning pair is enabled if and only if its time has come, both currencies were provided and one reaches its target; both provisions then enter the pool |
| DexListings.AddingFollowsTheStatus | lib-serml/dex/dex/src/lib.rs:361-393 | The call adds liquidity to an enabled pair, takes a provision for a provisioning one, and refuses any other |
| DexListings.LastProvisionEnables | lib-serml/dex/dex/src/lib.rs:361-393 | The provision that completes a pair enables it in the same call |
| FeeSwaps.SettleExchanges | lib-serml/dex/dex/src/lib.rs:1068-1121 | A settled swap takes exactly the supply from the trader and pays exactly the target; nobody but the exchange is affected and no currency is created |
| DexRuns.CustodyOverRuns | lib-serml/dex/dex/src/lib.rs:524-1121 | On every run whose swaps overdraw no pool on their way, the module account covers all pools plus all pending provisions, in every currency; without donations what it holds beyond them never changes |
| DexRuns.ShortRunsKeepCustody | lib-serml/dex/dex/src/lib.rs:524-1121 | Where paths have at most four currencies and no pair of one currency twice is enabled, this holds for all runs, whatever is swapped |
| DexRuns.SwapKeepsValueExactlyWhen | lib-serml/dex/dex/src/lib.rs:1068-1121 | An accepted swap keeps the value of the outstanding shares of a funded pair if and only if its net trade through that pair is fair |
| DexRuns.ShortRunsKeepValue | lib-serml/dex/dex/src/lib.rs:734-1121 | With at most four currencies to a path, value per share never decreases over any run in which shares are outstanding and exact-target quotes are charged in full |
| DexRuns.GenesisKeepsNothing | lib-serml/dex/dex/src/lib.rs:239-300 | An empty exchange meets the invariant with nothing to spare |
| DexEmptyPools.EmptyPoolsOverRuns | lib-serml/dex/dex/src/lib.rs:586-1121 | On every run from an exchange without pools, a pair of which no shares are outstanding has nothing in its pool |
| DexEmptyPools.JoiningNeverPays | lib-serml/dex/dex/src/lib.rs:734-890 | In every state that a run from genesis reaches, joining a pool and leaving it at once succeeds, gains nothing, and takes nothing out of the pool |
| DexEmptyPools.AsWrittenLosesTheProvision | lib-serml/dex/dex/src/lib.rs:641-645 | In every such state, enabling a pair as written would leave its pool with nothing of the second currency and exactly the second provision in no pool |
| DexRuns.ValuePerShareOverRuns | lib-serml/dex/dex/src/lib.rs:734-1121 | On every run during which shares are outstanding and every swap repeats no hop, is short, or trades fairly with the pair in question, pool_0 * pool_1 / shares^2 never decreases |
| Exchanges.Exchange.GetTargetAmounts | lib-serml/dex/dex/src/lib.rs:945-986 | The loop fills the vector with the specified quote or stops with its error |
| Exchanges.Exchange.GetSupplyAmounts | lib-serml/dex/dex/src/lib.rs:988-1030 | The backward loop does the same from the target end |
| Exchanges.Exchange.SwapAlong | lib-serml/dex/dex/src/lib.rs:1051-1066 | The loop moves the reserves hop by hop |
| Exchanges.Exchange.Execute | lib-serml/dex/dex/src/lib.rs:1080-1091 | Transfer in, swap, transfer out, all or nothing |
| Exchanges.Exchange.DoSwapWithExactSupply | lib-serml/dex/dex/src/lib.rs:1068-1095 | The exact-supply swap |
| Exchanges.Exchange.DoSwapWithExactTarget | lib-serml/dex/dex/src/lib.rs:1098-1121 | The exact-target swap |
| Exchanges.Exchange.DoAddLiquidity | lib-serml/dex/dex/src/lib.rs:734-833 | Adding liquidity, all or nothing |
| Exchanges.Exchange.DoRemoveLiquidity | lib-serml/dex/dex/src/lib.rs:835-890 | Removing liquidity, all or nothing |
| Exchanges.Exchange.DoAddProvision | lib-serml/dex/dex/src/lib.rs:661-732 | Adding a provision, all or nothing |
| Exchanges.Exchange.IssueToContributors | lib-serml/dex/dex/src/lib.rs:598-638 | The loop drains the contributions in an arbitrary order, issuing the initial shares |
| Exchanges.Exchange.ConvertToEnabledIfPossible | lib-serml/dex/dex/src/lib.rs:586-658 | A pair whose provision is complete gets its shares, its pool and its status |
| Exchanges.Exchange.RefundAll | lib-serml/dex/dex/src/lib.rs:540-553 | The refund loop in an arbitrary order, undone on failure |
| Exchanges.Exchange.DoDisableTradingPair | lib-serml/dex/dex/src/lib.rs:524-560 | Disabling a pair |
| Currencies.PairIsSymmetric | primitives/src/lib.rs:121-127 | A pair does not depend on the order in which its currencies are named |
| Currencies.PairIsOrdered | primitives/src/lib.rs:121-127 | It names them in ascending order |
| Currencies.TokenPairsHaveShares | primitives/src/lib.rs:121-140 | Pairs of tokens, and only those, can be formed for trading and have a share currency |
| Currencies.ShareCurrencyIsInjective | primitives/src/lib.rs:138-140 | Different pairs have different share currencies |
| FeeMultiplier.NextMultiplierInNumbers | lib-serml/transaction-payment/src/lib.rs:167-211 | Without saturation the next multiplier m' is m + (v*d + v^2*d^2/2)*m at or above the target and max(minimum, m - (v*d - v^2*d^2/2)*m) below, each product rounded down |
| FeeMultiplier.NeverBelowMinimum | lib-serml/transaction-payment/src/lib.rs:167-211 | The multiplier is never below the minimum |
| FeeMultiplier.MovesWithTheLoad | lib-serml/transaction-payment/src/lib.rs:185-211 | At or above the target it does not fall below max(previous, minimum); below the target it does not rise above it |
| FeeMultiplier.RisesExactlyWhen | lib-serml/transaction-payment/src/lib.rs:202-204 | It rises strictly if and only if the rounded step is worth one unit |
| FeeMultiplier.FallsExactlyWhen | lib-serml/transaction-payment/src/lib.rs:205-210 | It falls strictly if and only if the rounded step is worth one unit and the minimum is not reached |
| FeeMultiplier.FirstTermDominates | lib-serml/transaction-payment/src/lib.rs:195-207 | For a variability of at most two the first term is at least the second after rounding |
| FeeMultiplier.VariabilityLimit | lib-serml/transaction-payment/src/lib.rs:195-207 | Without saturation the subtraction is exact for all distances if and only if the variability is at most two |
| FeeMultiplier.GrowthOverRuns | lib-serml/transaction-payment/src/lib.rs:160-211 | k blocks of any weights multiply max(previous, minimum) by at most (1 + v + v^2/2)^k |
| FeeMultiplier.DecayOverRuns | lib-serml/transaction-payment/src/lib.rs:160-211 | k blocks leave at least (1 - v)^k of it, for a variability of at most one |
| FeeMultiplier.CongestionIsAtLeastLinear | lib-serml/transaction-payment/src/lib.rs:95-113 | The documented bound for congestion: k blocks at least d above the target raise the multiplier by at least v * k * d of it, less two roundings per block, unless it reaches the largest number |
| FeeMultiplier.IdlenessIsAtMostLinear | lib-serml/transaction-payment/src/lib.rs:95-113 | The documented bound for an empty chain: k blocks at most d below the target take away at most v * k * d of it |
| FeeMultiplier.MinimumIsNoTrap | lib-serml/transaction-payment/src/lib.rs:324-340 | Some run leads away from the minimum if and only if a full block's rounded step on it is worth one unit; then one full block is enough |
| FeeMultiplier.StuckAtMinimum | lib-serml/transaction-payment/src/lib.rs:324-340 | Otherwise no run of any blocks ever leaves it |
| FeeMultiplier.StartUpCheckSuffices | lib-serml/transaction-payment/src/lib.rs:317-343 | If one percent over the target lifts the minimum, so does every fuller block |
| Fees.FeeInNumbers | lib-serml/transaction-payment/src/lib.rs:451-540 | The fee is the price of the base weight, plus the bytes, plus the multiplier times the price of the weight, plus the tip, cut to 128 bits; the tip alone if the call does not pay; the actual fee is the same for the weight used, if smaller, and only the tip if either side waives it |
| Fees.FeeGrows | lib-serml/transaction-payment/src/lib.rs:498-532 | The fee grows with the multiplier, the length and the tip |
| Fees.ActualFeeAtMostFee | lib-serml/transaction-payment/src/lib.rs:452-540 | For a monotone tariff the actual fee lies between the tip and the fee withdrawn, also under saturation and the weight cap |
| Fees.NeverOwesMoreExactlyWhen | lib-serml/transaction-payment/src/lib.rs:452-540 | For a tariff whose fees fit 128 bits, no dispatch ever owes more than was withdrawn if and only if the tariff is monotone |
| Fees.UnorderedTariffOwesMore | lib-serml/transaction-payment/src/lib.rs:535-540 | An instance of a tariff that is not |
| Fees.SettlementConserves | lib-serml/transaction-payment/src/lib.rs:741-772 | After dispatch the refund never exceeds the payment whatever the tariff, so the error arm is unreachable; what is handed over is exactly what the payer is out of pocket, with the tip in full |
| FeeSwaps.DedupIsSound | lib-serml/transaction-payment/src/lib.rs:546-552 | Dropping repeated currencies does not change the outcome |
| FeeSwaps.AtMostOneSwap | lib-serml/transaction-payment/src/lib.rs:556-591 | Whatever the order, at most one swap is made and nothing else changes |
| FeeSwaps.AttemptOutcome | lib-serml/transaction-payment/src/lib.rs:556-591 | Either nothing changed, or one accepted currency was exchanged for exactly the fee within what the payer had of it; no other account but the exchange is touched and no currency is created |
| FeeSwaps.CoveredOrUnchanged | lib-serml/transaction-payment/src/lib.rs:556-591 | The attempt ends with the native balance raised by exactly the fee, or with every balance and pool as before |
| FeeSwaps.UnchangedExactlyWhen | lib-serml/transaction-payment/src/lib.rs:556-591 | Nothing changes if and only if no currency before the native one with enough, or before the end, can be swapped |
| FeeSwaps.PayableExactlyWhen | lib-serml/transaction-payment/src/lib.rs:556-660 | Afterwards the fee can be withdrawn if and only if it could before, or something was swapped and the balance before was not below the frozen amount |
| FeeSwaps.EnoughNeedsNoSwap | lib-serml/transaction-payment/src/lib.rs:546-569 | Without a preferred currency, a payer with enough native currency never swaps |
| FeeSwaps.AttemptKeepsCustody | lib-serml/transaction-payment/src/lib.rs:577-586 | The exchange's custody survives every attempt |
| ChargingOutcomes.FeeSwapExactlyWhen | lib-serml/transaction-payment/src/lib.rs:570-586 | A currency can be swapped for a fee if and only if the fee is quoted along the path through the common currency within the slippage, for no more than the account has, and can be settled |
| ChargingOutcomes.FirstThatHelps | lib-serml/transaction-payment/src/lib.rs:556-591 | The first currency in the order that helps decides: nothing happens if it is the native one, and otherwise it is the one that is swapped |
| ChargingOutcomes.PreferenceComesFirst | lib-serml/transaction-payment/src/lib.rs:546-569 | A preferred currency that can be swapped is swapped even if there is enough native currency; failing that, enough native currency is left alone |
| ChargingOutcomes.OthersFollow | lib-serml/transaction-payment/src/lib.rs:546-569 | When neither helps, the other accepted currencies follow in their order |
| Charging.TransactionIsSettled | lib-serml/transaction-payment/src/lib.rs:637-772 | From withdrawal to settlement, whatever the dispatch did to balances: the payer's net loss is exactly what is handed over, the tip part is exact, and an accepted refund leaves exactly the actual fee |
| Charging.WithdrawFeeConserves | lib-serml/transaction-payment/src/lib.rs:637-665 | The payment is exactly what was withdrawn; a failed withdrawal loses nothing |
| ChargingOutcomes.WithdrawalOutcome | lib-serml/transaction-payment/src/lib.rs:637-665 | The fee is withdrawn if and only if the balance less the fee stays above what is frozen, or something was swapped and the balance was above it before; the payment is the fee |
| ChargingOutcomes.ReservationOutcome | lib-serml/transaction-payment/src/lib.rs:780-785 | A fee by weight is reserved under the same condition, if it fits beside what is reserved |
| ChargingOutcomes.ChargeOutcome | lib-serml/transaction-payment/src/lib.rs:835-859 | A direct charge hands over exactly the fee, under the same condition |
| ChargingOutcomes.ConclusionOutcome | lib-serml/transaction-payment/src/lib.rs:745-769 | The refund is returned if and only if the account can take it; of the rest the tip comes first |
| ChargingOutcomes.EndOfBlockOutcome | lib-serml/transaction-payment/src/lib.rs:296-301 | The end of a block changes nothing but the multiplier |
| Charging.ConcludeConserves | lib-serml/transaction-payment/src/lib.rs:745-769 | Concluding a payment splits it without loss; an oversized refund creates exactly the difference |
| Charging.RefundConservesExactlyWhen | lib-serml/transaction-payment/src/lib.rs:806-833 | A refund by weight conserves native currency if and only if it is not larger than the payment or is not accepted; otherwise the account keeps it and nothing is handed over |
| Charging.ReservedFeeIsCharged | lib-serml/transaction-payment/src/lib.rs:788-803 | A fee reserved in full can be charged if and only if the free balance is not below the frozen amount; free and reserved together fall by exactly the fee |
| Charging.FeesConservedOverRuns | lib-serml/transaction-payment/src/lib.rs:637-859 | Over any run of withdrawals, settlements, reservations, refunds and direct charges, free, reserved, open and handed-over native currency add up to the same |
| Cashiers.Cashier.EnsureCanChargeFee | lib-serml/transaction-payment/src/lib.rs:542-592 | The loop over the accepted currencies, swapping through the exchange object and stopping at the first success |
| EvmMapping.MappingOverRuns | lib-serml/evm/evm-accounts/src/lib.rs:136-325 | Over any run of claims, default claims, lookups and deaths the two maps stay inverse, and every address leads to an account that leads back to it |
| EvmMapping.BindingLasts | lib-serml/evm/evm-accounts/src/lib.rs:136-325 | A mapped address stays with its account until that account dies |
| EvmMapping.KillKeepsMutualExactlyWhen | lib-serml/evm/evm-accounts/src/lib.rs:313-325 | Killing an account keeps the maps inverse if and only if its default address is not mapped to somebody else |
| EvmMapping.DefaultKeepsMutualExactlyWhen | lib-serml/evm/evm-accounts/src/lib.rs:286-297 | Creating a default address does if and only if nobody holds it |
| EvmMapping.AddressRoundTripExactlyWhen | lib-serml/evm/evm-accounts/src/lib.rs:257-284 | get_evm_address(get_account_id(e)) is e if and only if e is mapped or its padded account is not |
| EvmMapping.AccountRoundTripExactlyWhen | lib-serml/evm/evm-accounts/src/lib.rs:257-284 | The other way round: if and only if the account is mapped, or is the zero-padded account of an unmapped address |
| EvmOutcomes.ClaimOutcome | lib-serml/evm/evm-accounts/src/lib.rs:136-170 | A claim is accepted if and only if neither side is mapped, the address's own key signed for this account, the padded account could be emptied and the hook agrees; the two are then bound to each other and nobody but the padded account is disturbed |
| EvmOutcomes.MappedIsOwned | lib-serml/evm/evm-accounts/src/lib.rs:136-325 | On any run the address of an account is the one it had, its default one, or one whose key has signed for this account |
| EvmOutcomes.DefaultClaimOutcome | lib-serml/evm/evm-accounts/src/lib.rs:176-190 | An unmapped account gets its default address, even if the hook then refuses |
| EvmOutcomes.LookUpOutcome | lib-serml/evm/evm-accounts/src/lib.rs:286-297 | Looking an address up finds the one there is and otherwise makes the default one |
| EvmOutcomes.UnclaimedAddress | lib-serml/evm/evm-accounts/src/lib.rs:257-270 | An unclaimed address stands for the account that spells "evm:", the address and zeros |
| EvmOutcomes.DeathOutcome | lib-serml/evm/evm-accounts/src/lib.rs:313-325 | A dead account loses its address and its default address; everybody else keeps theirs |
| EvmMessages.MessageDeterminesContent | lib-serml/evm/evm-accounts/src/lib.rs:196-210 | Two signed messages are equal if and only if what and extra put together are; only their concatenation matters |
| EvmMessages.DecimalIsInvertible | lib-serml/evm/evm-accounts/src/lib.rs:198-203 | The decimal length can be read back |
| EvmMessages.EthereumSignableMessage | lib-serml/evm/evm-accounts/src/lib.rs:196-210 | The loop that produces the digits in reverse builds the specified message |
| EvmMessages.ToAsciiHex | lib-serml/evm/evm-accounts/src/lib.rs:345-353 | The nibble loop produces the hexadecimal text |
| EvmMessages.HexIsInjective | lib-serml/evm/evm-accounts/src/lib.rs:345-353 | Hexadecimal text is twice as long and equal only for equal data |
| EvmMessages.ClaimMessagesDiffer | lib-serml/evm/evm-accounts/src/lib.rs:151-153 | Claims of different accounts are signed as different messages |
| EvmOutcomes.MessageLayout | lib-serml/evm/evm-accounts/src/lib.rs:196-210 | The signed message is the Ethereum header, the length of the rest in decimal without leading zeros, the prefix, and the two parts |
| EvmOutcomes.FixedParts | lib-serml/evm/evm-accounts/src/lib.rs:196-210 | The fixed parts spell the texts they are meant to |
| EvmOutcomes.HexDigits | lib-serml/evm/evm-accounts/src/lib.rs:345-353 | Each byte becomes its two lower-case hexadecimal digits, in order |
| EvmAccounts.Registry.Claim | lib-serml/evm/evm-accounts/src/lib.rs:136-170 | Claiming with its checks in order, undone when the transfer or the hook fails |
| Incentives.StakesOverRuns | lib-serml/dex/incentives/src/lib.rs:263-305 | Over any run both reward pools agree on every account's shares, the keeper holds at least their sum, and everybody can withdraw exactly what they have staked |
| Incentives.SurplusOverRuns | lib-serml/dex/incentives/src/lib.rs:263-384 | Without interference the keeper holds, over any run, exactly the staked shares and what it held beyond them at the start |
| Incentives.DepositKeepsStakes | lib-serml/dex/incentives/src/lib.rs:263-280 | A deposit adds the same to the share in both pools and to what the keeper holds |
| Incentives.WithdrawKeepsStakes | lib-serml/dex/incentives/src/lib.rs:282-305 | A withdrawal succeeds if and only if the account has the shares, and takes exactly them |
| Incentives.DepositThenWithdraw | lib-serml/dex/incentives/src/lib.rs:263-305 | A deposit can be withdrawn at once, and every balance and share is then as before |
| Incentives.DepositAcceptedExactlyWhen | lib-serml/dex/incentives/src/lib.rs:263-280 | Staking is accepted if and only if the currency is a share and the account has the amount |
| Incentives.AnnouncedExactlyWhen | lib-serml/dex/incentives/src/lib.rs:326-361 | When its turn comes a pool is announced, at its rate, if and only if it has shares and a rate and the reward fits |
| Incentives.PayoutExactlyWhen | lib-serml/dex/incentives/src/lib.rs:374-384 | A reward is paid if and only if the vault has it |
| Incentives.VaultsGrowAsAnnounced | lib-serml/dex/incentives/src/lib.rs:326-361 | In any order the vaults grow by exactly what is announced to their pools, at the configured rate, and nothing else changes |
| Incentives.PayoutKeepsStakes | lib-serml/dex/incentives/src/lib.rs:374-384 | A payout moves exactly its amount from the vault or changes nothing |
| Farms.Farm.AccumulateReward | lib-serml/dex/incentives/src/lib.rs:314-373 | The loop over the pools in arbitrary order returns totals that equal both the announced amounts and the growth of the vaults; the running sums never saturate |

## Left out

- Origins, call filters, council proportions, weights, events, benchmarking, genesis configuration, RPC and the node.
- Cryptography: hashing, signature recovery and decoding are parameters.
- `Council.Pallet.CallPropose`: takes the minimum deposit of a currency as a parameter; the price look-ups that compute it are not modelled.
- `Council.Pallet.DoEnactProposal`: does not dispatch the enacted call, and the scheduler that calls it later is a separate action of a run.
- `Council.Pallet.OnBeginBlock`: takes the issuance of each currency as a parameter, constant over the block.
- `Council.Pallet.CallReapPreimage`: reads the length of the data from the stored value; the shortcuts that decode raw storage are not modelled.
- `Council.Pallet.CallExternalReplace`: covers both variants, which differ only in the threshold they store.
- `Exchanges.Exchange.CallAddLiquidity`: leaves out the flag that stakes the new shares at once; a run models that as a second step, as it does for removing staked shares.
- `Charging.FeesConservedOverRuns`: does not model total issuance; imbalances are amounts that are open or handed over.
- `DexRuns.CustodyOverRuns`: excludes swaps that overdraw a pool on their way, because `DexCustody.SettleKeepsCustodyExactlyWhen` shows that exactly those break custody.
- `DexRuns.ValuePerShareOverRuns`: excludes swaps whose net trade through the pair is unfair, because `DexRuns.SwapKeepsValueExactlyWhen` shows that exactly those lower the value.
- `DexPaths.QuotedSupplyReachesTarget`: over several hops the condition is sufficient, and necessary for the last hop only (`DexInstances.ShortfallMadeUpFor`): an earlier hop that falls short by one unit may be made up for by the unit the next quote adds.
- `Incentives.StakesOverRuns`: models the share effect of the reward pools only; how rewards are divided among shares belongs to a library.
- Block numbers, referendum indices, the ballots' balances and the reserves of the democracy module are unbounded numbers; tallies and delegations are 128-bit.
- Existential deposits: an account with a zero balance is like any other, except where a refund asks whether it still exists.
- Transaction priority, fee queries and the conversion of weights for information only.
- Ethereum key and signing helpers, `is_linked` and address look-up for transactions, which only read the mapping.
- The prices, bridge, treasury and currency modules.
