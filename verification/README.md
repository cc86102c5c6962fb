# Verified model of the susu money engine

A rotating-savings group collects a daily contribution from each of its `n` members and pays the
pool of each cycle to one of them. This project models the part of the backend that moves the money,
and proves what it keeps:

- a double-entry ledger with idempotency keys, non-negative accounts and running balances;
- the life of a group: create, join (deposit into escrow), activate, pay one day (inflow, and one
  unit of the payer's guarantee reserve unlocked), compliance sync (late, defaulted, deposit
  forfeited, missed amount covered from the reserve or member sent to the back of the queue),
  finalize a cycle (recipient, available / reserved / margin split, next cycle), complete;
- many groups over one ledger, as a state machine whose runs are arbitrary sequences of operations,
  accepted or refused;
- beside it, the finance preview, the reconciliation report and the ledger explorer's paging.

Amounts are whole pesewas, days are integers, and the clock is a parameter of a sync.

## How it is built

Specification functions describe each transaction on values. Classes with mutable fields
(`LedgerService`, `SusuBackend`) do the same work step by step, as the services do, and every method
is proved to produce exactly the state that its specification names. The properties are then proved
about the specification, so they hold of what the methods do. For each operation a second description,
which does not use the specification, says from the rows, the clock and the balances alone when the
operation is accepted, what every row is afterwards and how far every balance has moved.

| file | holds |
|---|---|
| `Sums.dfy`, `Wrappers.dfy`, `Accounts.dfy`, `Faults.dfy`, `Rows.dfy` | sums over tables, accounts and keys, errors, row types |
| `Ledger.dfy` | postings, their invariant, replay, the ledger service class |
| `Calculations.dfy`, `Preview.dfy`, `ReserveMath.dfy`, `PayoutQueue.dfy` | the shared arithmetic and the payout queue |
| `Engine.dfy` | each transaction of one group as a function of ledger and rows |
| `Accounting.dfy`, `RowInvariants.dfy`, `GroupSafety.dfy`, `Protocol.dfy` | rows and ledger agree after every transaction, and over every run |
| `Solvency.dfy`, `Overdraft.dfy`, `PoolSolvency.dfy` | reserve, escrow and pool balances; when operations are accepted |
| `Creation.dfy`, `Payments.dfy`, `Defaults.dfy`, `Deadlines.dfy`, `Finalization.dfy`, `Refusals.dfy` | each operation told from rows, clock and balances alone: exactly when it is accepted, everything it changes, and the reason it gives when refused |
| `QueueSafety.dfy`, `Turns.dfy`, `UnlockTiming.dfy`, `Compliance.dfy`, `SyncFaults.dfy`, `Progress.dfy`, `Closing.dfy` | who is paid when, how reserves unlock, syncs and when they fail, termination, final balances |
| `Reconciliation.dfy`, `Explorer.dfy` | the report stays silent; pages add up to the sorted table |
| `Scenario.dfy`, `Witness.dfy`, `WitnessTurns.dfy`, `WitnessReserve.dfy` | concrete runs from the empty system in which the code falls short |
| `Backend.dfy` | the services as a class, proved against the above |

`dafny verify dfyconfig.toml` checks everything. Proofs that only put other lemmas together begin by
hiding the definitions they do not look into; this keeps each of them quick.

## Where the code falls short of its intent

The code is modelled as it is. Where it falls short, the exact condition is proved; the first six
also come with a run from the empty system, or the input that never gets anywhere.

- A payment under an external reference that is already recorded counts a day but collects nothing
  (financial-allocation.service.ts, lines 70-99). Agreement of rows and ledger then breaks, always
  (`RepeatedReferenceBreaksBooks`), and otherwise never: it lasts exactly as long as no such payment is
  accepted (`RunsKeepSysOkExactly`). Statements about runs ask for just that (`NoRecounts`); repeated
  references that are refused do no harm. Run: `RepeatedReferenceRun`.
- A non-final unit release is not capped at what a default cover left (contribution-reserve.ts,
  lines 66-72). If the wallet holds no other money, the member's payment is refused
  (`PaymentAcceptedExactly`; run: `PaymentRefusedRun`). If it does, the payment is accepted and the
  row loses conservation: `StepOverdrawsExactly` says when, `RowsConservedExactly` that nothing else
  does it, `ReservedAgreesExactly` what it costs the wallet. Run: `OverdraftRun`.
- The cover of a default is refused when the wallet holds less than it, and only then
  (`DefaultAcceptedExactly`); it takes an overdrawn reserve of that user in some group
  (`DefaultNeverRefused`). The sync stops at that member, those behind are not assessed
  (`SyncFaultsExactly`), and later syncs stop there again (`SyncStabilises`). As finalization syncs
  first, the group stands still. Run: `CoverRefusedRun`.
- A margin that floors to zero makes a zero journal line, so no cycle is ever finalized
  (`AllocateAcceptedExactly`, `FlooredNeverPays`). Input: `TinyIsAccepted`.
- Two missed cycles of one member are not made up for by one deposit, and the pool lacks the
  difference (`PoolFundedExactly`, `MissedCyclesUnderfund`). Run: `TwoMissesRun`.
- Finalization pays whom the walk over the queue meets first, whether paid before or not
  (`SecondPayoutExactly`). This happens when everyone still waiting is defaulted without override, and
  also later, to a member who was paid out of turn when another was skipped: a skip sends nobody to
  another place in the queue (`RestOfTurns`, `SkippedTurnIsLost`). Run: `SecondPayoutRun`.
- The last finalization is refused when a reserved wallet holds less than the group's open reserves
  release from it (`FinalizeAcceptedExactly`). Again this takes an overdrawn reserve of an owner, so
  an earlier short unit (`UnbackedNeedsShortUnit`).
- Deposits forfeited beyond what missed cycles used up stay in the pool of a completed group
  (`CompletedPoolExactly`).

## Model

| member | source | states |
|---|---|---|
| `Ledger.PostKeepsBooksOk` | services/backend-api/src/ledger-accounts/ledger-posting.service.ts:32-102 | one posting, accepted or not, keeps the books sound: each balance is the sum of its lines, each stamped balanceAfter is its running total, every journal balances without zero lines, keys are unique, nothing inside the system is negative |
| `Ledger.PostingsKeepBooksOk` | services/backend-api/src/ledger-accounts/ledger-posting.service.ts:32-102 | the same over every sequence of accepted, duplicate and rejected postings from the empty ledger |
| `Ledger.PostedExactly` | services/backend-api/src/ledger-accounts/ledger-posting.service.ts:33-54 | a journal is accepted if and only if it has two lines, sums to zero, has a fresh key, and every line is non-zero and covered after the lines before it |
| `Ledger.BalancesCancel` | services/backend-api/src/ledger-accounts/ledger-posting.service.ts:142-155 | the balances of all accounts ever posted to, the external one included, sum to zero |
| `Ledger.ReplayInsensitive` | services/backend-api/src/ledger-accounts/ledger-posting.service.ts:33-41 | a run with repeated and rejected posts ends where the run of its accepted posts alone ends; those have pairwise different, previously unused keys |
| `Ledger.RepeatIsIgnored` | services/backend-api/src/ledger-accounts/ledger-posting.service.ts:33-41 | a key once posted is ignored for ever after, whatever was posted in between and whatever the new lines; balanced ones are answered as a duplicate, never as refused |
| `Ledger.FlowsCoverLedger` | services/backend-api/src/ledger-accounts/ledger-posting.service.ts:56-102 | when every journal belongs to a group, each balance splits into the groups' own flows |
| `Ledger.LedgerService.CheckLines` | services/backend-api/src/ledger-accounts/ledger-posting.service.ts:157-179 | the dry run over projected balances reports exactly the first line that is zero or would overdraw |
| `Ledger.LedgerService.ApplyLines` | services/backend-api/src/ledger-accounts/ledger-posting.service.ts:68-101 | updates balances line by line and stamps each line with the balance it left |
| `Ledger.LedgerService.PostJournal` | services/backend-api/src/ledger-accounts/ledger-posting.service.ts:32-102 | the loops over projected and real balances implement the posting that the lemmas above are about, and a refused posting changes nothing |
| `Ledger.LedgerService.PostTransfer` | services/backend-api/src/ledger-accounts/ledger-posting.service.ts:109-140 | a transfer is a two-line journal; non-positive amounts and equal accounts are refused without change |
| `Calculations.BpsShare` | packages/shared/src/calculations.ts:30-39 | a basis-point share is the exact floor and lies between nothing and the whole |
| `Calculations.SummaryConserves` | packages/shared/src/calculations.ts:11-81 | a cycle summary exists exactly for valid inputs; net, admin and platform share add up to the gross; the margin is positive if and only if gross * bps reaches 10000 |
| `Calculations.TiersAgree` | packages/shared/src/margin-tiers.ts:40-125 | clamping lands in the accepted range and changes exactly what validation refuses; the default is always accepted; bigger pools accept at least as much |
| `Calculations.TierLimits` | packages/shared/src/margin-tiers.ts:40-125 | the accepted margins are 2 to 5 percent, and up to 10, 15, 20 percent for pools above 1000, 5000, 20000 whole cedis; the default is 10 percent where that is allowed, otherwise 5 |
| `Preview.ComputeGroupFinancePreview` | packages/shared/src/finance.ts:192-361 | the branches and the schedule loop of the preview compute, error by error, the preview of which `Creation.PreviewKeepsRequest` says that it keeps what was asked for |
| `Preview.PreviewMatchesSettlement` | packages/shared/src/finance.ts:294-337 | the previewed margin is the settled one or exactly one pesewa more, decided by the dropped fraction; the payout moves the other way; the group total is off by at most one pesewa a cycle |
| `Preview.MarginRoundsHalfUp` | packages/shared/src/finance.ts:318-320 | the previewed margin is the half-up rounding of what settlement floors |
| `Preview.ScheduleEndsTheGroup` | packages/shared/src/finance.ts:286-292 | one row per member, evenly spaced, the last on the end date |
| `ReserveMath.ReserveFallsWithPosition` | packages/shared/src/contribution-reserve.ts:16-33 | the reserve rate never rises with the payout position and is 0 at the last; at most maxBps unless the minimum is larger |
| `ReserveMath.RateExactly` | packages/shared/src/contribution-reserve.ts:16-33 | before the last position the rate is the declining share in whole basis points, or the minimum where that is more; the cap never bites |
| `ReserveMath.SplitExactly` | packages/shared/src/contribution-reserve.ts:36-43 | what is held back is exactly that rate of the net, in whole pesewas, and the rest is available |
| `ReserveMath.SplitConserves` | services/backend-api/src/ledger-accounts/contribution-guarantee-reserve.service.ts:58-94 | reserve and available add up to the net payout, units are the days still to pay, the last position holds nothing back, and below a full minimum something is always available |
| `ReserveMath.UnitCeiling` | packages/shared/src/contribution-reserve.ts:36-52 | without a minimum one unit never exceeds net * maxBps / (10000 * n * days), the same at every position |
| `ReserveMath.ReleasesDrain` | packages/shared/src/contribution-reserve.ts:60-73 | without covers: equal instalments never larger than what is left, and the last one clears the row and exceeds the others by less than the number of units |
| `ReserveMath.SmallReserveWaits` | packages/shared/src/contribution-reserve.ts:60-73 | a reserve smaller than its unit count unlocks nothing before its last unit |
| `ReserveMath.ReleaseCanExceedRemaining` | packages/shared/src/contribution-reserve.ts:66-72 | a concrete non-final release larger than what a cover left |
| `PayoutQueue.WalkQueue` | packages/shared/src/payout-recipient.ts:40-59 | the loop over rotated positions finds the first eligible member of the walk and collects those passed over |
| `PayoutQueue.SelectRecipient` | packages/shared/src/payout-recipient.ts:23-60 | the selection is the first eligible member of the queue rotated to the nominal place, or the nominal one under override |
| `PayoutQueue.OrderIsUnique` | packages/shared/src/payout-recipient.ts:33-37 | a set of members has exactly one queue order |
| `PayoutQueue.SelectionIsEligible` | packages/shared/src/payout-recipient.ts:23-60 | nobody is found exactly when everyone is defaulted without override; without override the recipient is never defaulted; the nominal one is paid exactly when eligible or overridden, and exactly then nobody is skipped |
| `PayoutQueue.PaysTwiceExactly` | packages/shared/src/payout-recipient.ts:47-59 | with the paid members in front, someone is paid again if and only if every waiting member is defaulted and the override is off |
| `PayoutQueue.DequeueMovesToEnd` | services/backend-api/src/cycle-risk/default-protection.service.ts:198-213 | sending a member behind the largest payout order moves exactly that member to the end of the queue |
| `PayoutQueue.TurnOrderQueue` | services/backend-api/src/groups/groups.service.ts:675-759 | members as they join queue up in turn order |
| `Accounting.SettleReconcilesExactly` | services/backend-api/src/ledger-accounts/financial-allocation.service.ts:55-166 | a recorded day keeps ledger and rows in agreement on every account if and only if its reference was not recorded before |
| `Accounting.MissedIsExact` | packages/shared/src/payout-recipient.ts:62-71 | the missed amount is the daily contribution times the unpaid days, without rounding loss |
| `Accounting.AllocateReconciles` | services/backend-api/src/ledger-accounts/financial-allocation.service.ts:171-275 | payout, earning and reserve rows and the allocation journal move every account alike |
| `Accounting.CoverReconciles` | services/backend-api/src/ledger-accounts/contribution-guarantee-reserve.service.ts:359-460 | reserve, coverage and contribution rows of a cover, full or partial, agree with its transfer |
| `Accounting.ForfeitReconciles` | services/backend-api/src/cycle-risk/cycle-deposits.service.ts:154-205 | so do the deposit row and the transfer of a forfeit |
| `Accounting.ReturnDepositReconciles` | services/backend-api/src/cycle-risk/cycle-deposits.service.ts:208-249 | and those of a returned deposit |
| `Accounting.CloseReserveReconciles` | services/backend-api/src/ledger-accounts/contribution-guarantee-reserve.service.ts:598-745 | and those of the completion release, also when nothing remains |
| `GroupSafety.SettleKeepsGroupOk` | services/backend-api/src/ledger-accounts/financial-allocation.service.ts:55-166 | a payment keeps the row invariant, the key bookkeeping and the agreement with the ledger |
| `GroupSafety.CoverKeepsGroupOk` | services/backend-api/src/ledger-accounts/contribution-guarantee-reserve.service.ts:294-469 | so does a default cover |
| `GroupSafety.SyncKeepsGroupOk` | services/backend-api/src/cycle-risk/cycle-compliance.service.ts:39-182 | so does a whole compliance sync, fault or no fault |
| `GroupSafety.AllocateKeepsGroupOk` | services/backend-api/src/payouts/payouts.service.ts:90-274 | so does a finalization up to the next cycle or completion |
| `GroupSafety.AllocateShape` | services/backend-api/src/payouts/payouts.service.ts:152-226 | an accepted finalization wrote exactly the award of its recipient, with a split that conserves the net and the units of the cycles to come |
| `Protocol.BalanceIsDue` | services/backend-api/src/ledger-accounts/ledger-posting.service.ts:56-102 | every ledger balance is the sum over all groups of what their rows call for |
| `Protocol.SweepIsIdle` | services/backend-api/src/ledger-accounts/contribution-guarantee-reserve.service.ts:562-596 | the orphan sweep never moves money in any consistent state, overdrawn reserves included |
| `Protocol.RunsKeepSysOk` | services/backend-api/src/payouts/payouts.service.ts:46-291 | over every run of all seven operations in which no payment under a recorded reference is accepted, ledger and rows agree on every account, row invariants hold, and completed groups hold nothing back |
| `Protocol.RunsKeepSysOkExactly` | services/backend-api/src/ledger-accounts/financial-allocation.service.ts:70-99 | they do at every point of a run if and only if no payment of it is such a one |
| `Protocol.RepeatedReferenceBreaksBooks` | services/backend-api/src/ledger-accounts/financial-allocation.service.ts:70-99 | an accepted payment under a recorded reference always counts a day without money and breaks that agreement |
| `Creation.PreviewKeepsRequest` | packages/shared/src/finance.ts:192-315 | a preview is given if and only if the request makes sense, with the days asked for (1 in DAILY mode) and the margin asked for, or the default when none was |
| `Creation.CreatesWhatWasAsked` | services/backend-api/src/groups/groups.service.ts:106-176 | a group is created if and only if that holds, as an empty draft with exactly the contribution, size, mode, days, margin and start day asked for, 2 grace days and no override |
| `Creation.UnresolvedByRows` | services/backend-api/src/cycle-risk/default-protection.service.ts:57-110 | who is kept from joining: whoever is defaulted in a running group and still owes a day of its current cycle |
| `Creation.JoinsExactly` | services/backend-api/src/groups/groups.service.ts:625-759 | a join is accepted if and only if the draft has a free slot, does not list the user and the user owes nothing in default elsewhere; the row goes to the end of the queue, and one whole cycle (nothing in DAILY mode) from outside into escrow; no other row or balance changes |
| `Creation.ActivatesExactly` | services/backend-api/src/groups/groups.service.ts:243-285 | exactly full drafts are opened, with one wholly unpaid contribution a member |
| `Creation.SetsRiskExactly` | services/backend-api/src/groups/groups.service.ts:1007-1041 | settings are accepted until completion with 0 to 30 grace days; what is given is stored, what is not given stays |
| `Payments.UnitByRows` | services/backend-api/src/ledger-accounts/contribution-guarantee-reserve.service.ts:175-288 | a payment unlocks from the payer's oldest open reserve, if that is of an earlier cycle: an equal share of the original, or with the last unit all that remains |
| `Payments.PaysExactly` | services/backend-api/src/payments/payments.service.ts:77-94 | under a fresh reference a payment is accepted if and only if the group runs, the cycle is the current one, fewer days are paid than the cycle has payment days, and the reserved wallet holds what the payment unlocks |
| `Payments.PaymentChanges` | services/backend-api/src/ledger-accounts/financial-allocation.service.ts:55-166 | an accepted payment counts one day (Paid with the last), brings the daily amount from outside into the pool and one unit from reserved to available; no other row, reference or balance changes |
| `Payments.DaysArePayable` | services/backend-api/src/payments/payments.service.ts:77-123 | a member without an open reserve can pay exactly the days still owed: of any number of attempts just so many are accepted, and the contribution is paid exactly when all are |
| `Defaults.CoverByRows` | services/backend-api/src/ledger-accounts/contribution-guarantee-reserve.service.ts:294-372 | a cover is due if and only if reserves are enabled, days are owed, the member has an open reserve and no earlier cover of that cycle came from it; it takes the smaller of what is owed and what remains in the oldest one |
| `Defaults.DefaultChanges` | services/backend-api/src/cycle-risk/default-protection.service.ts:132-222 | an accepted default marks the member, moves the held deposit to the pool, and covers a member paid out before (contribution paid, or reserve emptied and closed), or sends one not yet paid out behind everyone; no other row or balance changes |
| `Deadlines.SyncByClock` | services/backend-api/src/cycle-risk/cycle-compliance.service.ts:39-182 | a sync assesses everyone up to the first member whose cover exceeds the wallet, and nobody from there on: paid up is good; unpaid after start + payment days + grace days is defaulted with a forfeited deposit, covered or sent back in the order of the visits; before that, late if and only if fewer days are paid than have passed. Every balance moves by the sum of these deposits and covers |
| `Deadlines.InTimeNobodyDefaults` | services/backend-api/src/cycle-risk/cycle-compliance.service.ts:92-112 | up to that day a sync never fails, moves no money, touches no deposit, and nobody newly defaults |
| `Deadlines.OtherSyncs` | services/backend-api/src/cycle-risk/cycle-compliance.service.ts:49-56 | a sync makes all DAILY members good, and leaves a group that does not run alone |
| `Deadlines.RefusedByRows` | services/backend-api/src/cycle-risk/cycle-compliance.service.ts:110-137 | the member at whom a sync stops, told from rows, clock and wallet |
| `Finalization.ReadyExactly` | services/backend-api/src/payouts/payout-contribution-readiness.ts:18-36 | in a consistent state the guards of a finalization pass if and only if the cycle is the running one and every member owes no day of it or is defaulted |
| `Finalization.FinalizesExactly` | services/backend-api/src/payouts/payouts.service.ts:90-291 | and it is accepted if and only if also someone can be paid, the pool holds contribution * members * payment days, the margin is at least one pesewa, and in the last cycle the wallets hold the open reserves |
| `Finalization.AllocationChanges` | services/backend-api/src/ledger-accounts/financial-allocation.service.ts:171-262 | the recipient gets the gross less margin and reserve, each rounded down; payout, earning and reserve rows say so; the next cycle starts wholly unpaid with lateness forgiven; every balance moves by just these amounts |
| `Finalization.CompletionChanges` | services/backend-api/src/payouts/payouts.service.ts:265-281 | completion returns every held deposit and pays out and closes every open reserve, row by row and on every balance |
| `Finalization.FinalizationChanges` | services/backend-api/src/payouts/payouts.service.ts:90-291 | both together, as a step of the whole system: no other group, row or balance changes |
| `Refusals.CreateRefusals` | packages/shared/src/finance.ts:192-315 | a refused creation names the first of days, amount, size and margin that makes no sense |
| `Refusals.JoinRefusals` | services/backend-api/src/groups/groups.service.ts:625-759 | a refused join names an unknown group, a group that is no draft or is full, an existing membership, or an unpaid default elsewhere, in this order |
| `Refusals.PayRefusals` | services/backend-api/src/payments/payments.service.ts:53-94 | a refused payment names a missing contribution, a group that does not run, another cycle, a contribution without days left, or else the payer's reserved wallet |
| `Refusals.SyncRefusals` | services/backend-api/src/cycle-risk/cycle-compliance.service.ts:110-137 | a failing sync names the reserved wallet of the first member whose cover it does not hold |
| `Refusals.FinalizeRefusals` | services/backend-api/src/payouts/payouts.service.ts:90-291 | a refused finalization names, in this order: a group that does not run, another cycle, unpaid contributions, nobody to pay, the pool, the zero margin line, or at the end the wallet of an open reserve's owner |
| `Solvency.ReservedAgreesExactly` | services/backend-api/src/ledger-accounts/contribution-guarantee-reserve.service.ts:209-279 | a reserved wallet is at most the sum of remaining over the user's reserves, and equal to it if and only if none of them is overdrawn |
| `Solvency.RowConservedExactly` | services/backend-api/src/ledger-accounts/contribution-guarantee-reserve.service.ts:209-279 | original = remaining + released + usedForDefault if and only if the row is not overdrawn; open and never-used rows are not |
| `Solvency.ReleaseOverdrawsExactly` | packages/shared/src/contribution-reserve.ts:66-72 | a due release overdraws if and only if it is not the last and less than one unit remains, and then a cover was used |
| `Solvency.EscrowAgrees` | services/backend-api/src/cycle-risk/cycle-deposits.service.ts:88-152 | a user's escrow is the sum of held deposits over all groups and backs each of them |
| `Solvency.ForfeitNeverRefused` | services/backend-api/src/cycle-risk/cycle-deposits.service.ts:154-205 | a forfeit never meets an insufficient balance |
| `Solvency.ReturnNeverRefused` | services/backend-api/src/cycle-risk/cycle-deposits.service.ts:208-249 | nor does the return of a deposit |
| `Solvency.DefaultAcceptedExactly` | services/backend-api/src/cycle-risk/default-protection.service.ts:132-222 | the default transaction of a member is refused if and only if the member was already paid out and the cover exceeds what the reserved wallet holds |
| `Solvency.DefaultNeverRefused` | services/backend-api/src/cycle-risk/default-protection.service.ts:132-222 | so it never is for a user without overdrawn reserves |
| `Solvency.ReservedIsResidual` | services/backend-api/src/ledger-accounts/contribution-guarantee-reserve.service.ts:209-279 | a reserved wallet is always the sum of original - released - usedForDefault over the user's reserves, overdrawn ones included |
| `Solvency.PaymentAcceptedExactly` | services/backend-api/src/ledger-accounts/contribution-guarantee-reserve.service.ts:175-288 | a due payment under a fresh reference is accepted if and only if the reserved wallet holds the unit it unlocks |
| `Solvency.PaymentNeverStuck` | services/backend-api/src/ledger-accounts/contribution-guarantee-reserve.service.ts:175-288 | so it always is for a member whose reserves in the group were never used for a default and none of whose reserves is overdrawn |
| `PoolSolvency.PoolSurplus` | services/backend-api/src/cycle-risk/cycle-deposits.service.ts:28-39 | the pool of a running group exceeds the gross it owes by exactly the members' net positions and the partial covers |
| `PoolSolvency.MissedMeansForfeited` | services/backend-api/src/payouts/payout-contribution-readiness.ts:18-36 | whoever missed a cycle that is ready to finalize has forfeited a full obligation |
| `PoolSolvency.ReadyPoolIsFunded` | services/backend-api/src/payouts/payouts.service.ts:126-132 | a ready cycle is fully funded if nobody missed more than one cycle, and always in DAILY mode |
| `PoolSolvency.PoolFundedExactly` | services/backend-api/src/payouts/payouts.service.ts:126-132 | in any running group the pool holds the gross if and only if net positions and partial covers are not negative in sum |
| `PoolSolvency.MissedCyclesUnderfund` | services/backend-api/src/cycle-risk/cycle-deposits.service.ts:154-205 | when one member misses cycles as a whole and all others pay and never forfeit, the pool of a ready cycle is short of one obligation for every miss after the first, and from the second miss on the finalization is refused |
| `PoolSolvency.CompletedPoolExactly` | services/backend-api/src/payouts/payouts.service.ts:265-281 | the pool of a completed group holds exactly the net positions and partial covers: unused forfeited deposits stay there |
| `PoolSolvency.AllocateAcceptedExactly` | services/backend-api/src/ledger-accounts/financial-allocation.service.ts:187-251 | a ready finalization with a recipient is accepted if and only if pool >= gross, gross * margin >= 10000 and the available share is non-zero and affordable |
| `PoolSolvency.AllocateAcceptedUsually` | services/backend-api/src/ledger-accounts/financial-allocation.service.ts:187-251 | with a reserve minimum below 100% only the pool and the margin decide |
| `PoolSolvency.FinalizeAcceptedExactly` | services/backend-api/src/payouts/payouts.service.ts:265-281 | completion adds exactly one way to fail: a reserved wallet that holds less than the open reserves of the group release |
| `PoolSolvency.SoundOwnersAreBacked` | services/backend-api/src/ledger-accounts/contribution-guarantee-reserve.service.ts:519-557 | the wallets hold it when no owner of an open reserve of the group has an overdrawn one |
| `PoolSolvency.FundedCyclesFinalize` | services/backend-api/src/payouts/payouts.service.ts:90-291 | over every run: a ready cycle with at most one miss a member finalizes if and only if someone is eligible, the margin does not floor to nothing and, in the last cycle, the reserved wallets back the open reserves |
| `QueueSafety.FinalizeKeepsOrderExactly` | services/backend-api/src/payouts/payouts.service.ts:152-193 | a finalization continues the payouts in queue order if and only if the nominal recipient is not defaulted or the override is on, and exactly then records no skip |
| `QueueSafety.SecondPayoutExactly` | services/backend-api/src/payouts/payouts.service.ts:152-193 | for every group: the first member of the walk who is not defaulted (under override the nominal one) is paid, those before are recorded as skipped, and the payout repeats an earlier one if and only if that member already has a payout |
| `QueueSafety.SecondPayoutInOrder` | services/backend-api/src/payouts/payouts.service.ts:152-193 | while payouts went in queue order that is so if and only if all who wait are defaulted without override |
| `QueueSafety.EveryMemberPaidOnce` | services/backend-api/src/payouts/payouts.service.ts:152-193 | over every run, whatever dequeues happen: without recorded skips the payouts are the front of the queue in order, nobody twice, and everybody once on completion |
| `Turns.RestOfTurns` | packages/shared/src/payout-recipient.ts:47-56 | from any state on, if a group completes without a further dequeue or skip: a member is paid in the end if and only if already paid or still ahead in the queue, and a second time if and only if both (or twice before) |
| `Turns.SkippedTurnIsLost` | packages/shared/src/payout-recipient.ts:47-56 | after the first recorded skip, under the same condition, the member passed over is never paid and the one paid instead is paid twice |
| `Turns.OneWithoutOneTwice` | services/backend-api/src/payouts/payouts.service.ts:228-274 | in a completed group somebody goes without if and only if somebody is paid twice |
| `Closing.ClosingBalances` | services/backend-api/src/payouts/payouts.service.ts:228-281 | over every run: a completed group without forfeits has pool 0, revenue of one margin per cycle, and each member one net payout plus the deposit, nothing reserved or in escrow |
| `Closing.DailyNeverForfeits` | services/backend-api/src/cycle-risk/cycle-deposits.service.ts:28-39 | which covers every completed DAILY group |
| `UnlockTiming.UnlocksWithPayments` | packages/shared/src/contribution-reserve.ts:88-98 | over every run, whatever others do: for an owner paid once whose reserve was never drawn on, units released equal the days paid since the payout, the reserve reaches 0 exactly with the last of (n - k) * days, and a reserve smaller than its units stays whole |
| `UnlockTiming.SettleShape` | services/backend-api/src/ledger-accounts/contribution-guarantee-reserve.service.ts:175-288 | an accepted payment really moved the due unit: its key was fresh |
| `Compliance.SyncStabilises` | services/backend-api/src/cycle-risk/cycle-compliance.service.ts:39-182 | at a fixed clock the sync after any sync moves no money and meets the same fault, if any, and the third equals the second |
| `Compliance.LeavesDefaultOnlyWhenPaid` | services/backend-api/src/cycle-risk/cycle-compliance.service.ts:73-137 | a CYCLE member leaves DEFAULTED only in a sync that finds the running contribution paid |
| `SyncFaults.SyncFaultsExactly` | services/backend-api/src/cycle-risk/cycle-compliance.service.ts:39-182 | a sync fails exactly at the first member whose cover exceeds the wallet, read off the state before the sync; that member and all later ones are left as they were |
| `SyncFaults.ReadySyncNeverFaults` | services/backend-api/src/payouts/payouts.service.ts:52 | the sync of a ready cycle meets no fault, moves no money and leaves the cycle ready |
| `SyncFaults.SyncedCycleFinalizes` | services/backend-api/src/payouts/payouts.service.ts:46-291 | over every run, sync and finalization of a ready cycle together are accepted under the conditions of the transaction, read off the standings that the sync leaves |
| `Progress.PaymentUsesOneDay` | services/backend-api/src/payments/payments.service.ts:77-123 | an accepted payment uses exactly one of the unpaid days |
| `Progress.FinalizeUsesOneCycle` | services/backend-api/src/payouts/payouts.service.ts:228-274 | an accepted finalization uses one cycle, adds no days, and completes the group exactly when none is left |
| `Progress.StepDescends` | services/backend-api/src/payouts/payouts.service.ts:109-139 | every operation keeps or lowers (cycles left, unpaid days), payments and finalizations strictly |
| `Progress.GroupsTerminate` | services/backend-api/src/groups/groups.service.ts:263-285 | over every run: at most n * n * days payments, exactly one finalization per payout, and completion exactly at the n-th |
| `Reconciliation.GetSummary` | services/backend-api/src/reconciliation/reconciliation-summary.service.ts:216-378 | the report holds exactly the findings the books call for, and is empty if and only if all checks pass |
| `Reconciliation.NegativeAccounts` | services/backend-api/src/reconciliation/reconciliation-summary.service.ts:257-269 | one finding for each negative account other than the external one |
| `Reconciliation.UnbalancedJournals` | services/backend-api/src/reconciliation/reconciliation-summary.service.ts:365-378 | one finding for each journal whose lines do not cancel |
| `Reconciliation.RevenueIsRecordedMargin` | services/backend-api/src/reconciliation/reconciliation-summary.service.ts:218-227 | the revenue balance is the recorded margin to the pesewa, not only within 5 |
| `Reconciliation.CollectedEnteredLedger` | services/backend-api/src/reconciliation/reconciliation-summary.service.ts:247-251 | everything collected entered the ledger and nothing else did |
| `Reconciliation.EveryRunReconciles` | services/backend-api/src/reconciliation/reconciliation-summary.service.ts:216-378 | over every such run all checks stay silent |
| `Explorer.PageAt` | services/backend-api/src/ledger-accounts/hq-ledger-explorer.service.ts:227-271 | a page holds the next rows of the sorted table, and its cursor points just behind them |
| `Explorer.PageIsAsLongAsAsked` | services/backend-api/src/ledger-accounts/hq-ledger-explorer.util.ts:17-21 | a page has as many rows as asked for from 1 to 200 (50 without a usable number, 200 at most), unless the rows run out, and a cursor if and only if they do not |
| `Explorer.PagesAreTheSortedTable` | services/backend-api/src/ledger-accounts/hq-ledger-explorer.service.ts:227-271 | following the cursors ends, and the pages together are exactly the matching rows, newest first, each once, for any limit and filter |
| `Explorer.CursorRoundTripsExactly` | services/backend-api/src/ledger-accounts/hq-ledger-explorer.util.ts:78-94 | cursor text decodes to what was encoded if and only if the id is non-empty and has no separator |
| `Overdraft.StepOverdrawsExactly` | packages/shared/src/contribution-reserve.ts:66-72 | from any consistent state, row by row: a reserve is overdrawn after a step if and only if it was before, or the step is a due payment whose unit exceeds what the reserve has left and is within the wallet |
| `Overdraft.RowsConservedExactly` | services/backend-api/src/ledger-accounts/contribution-guarantee-reserve.service.ts:209-279 | over every run, for every reserve row: original = remaining + released + usedForDefault if and only if no payment was such a short unit on it |
| `Overdraft.WalletsAgreeWithRows` | services/backend-api/src/ledger-accounts/contribution-guarantee-reserve.service.ts:175-596 | over every run: escrow equals held deposits, the sweep is idle, completed groups are drained, and a reserved wallet equals the remaining reserves if and only if none of the rows of the user met a short unit |
| `Overdraft.UnbackedNeedsShortUnit` | services/backend-api/src/ledger-accounts/contribution-guarantee-reserve.service.ts:519-557 | over every run: when the wallets do not back a group's open reserves, a payment was a short unit on some reserve of one of their owners |
| `Witness.RepeatedReferenceRun` | services/backend-api/src/ledger-accounts/financial-allocation.service.ts:70-99 | a run in which two members pay under one reference: the second contribution is paid, nothing is posted, the books break |
| `Witness.TinyIsAccepted` | packages/shared/src/finance.ts:192-361 | five members at one pesewa a day are accepted, with a margin below one pesewa a cycle |
| `Witness.FlooredNeverFinalizes` | services/backend-api/src/ledger-accounts/ledger-posting.service.ts:45-47 | no cycle of a group with such a margin is finalized in any consistent state |
| `Witness.FlooredNeverPays` | services/backend-api/src/ledger-accounts/ledger-posting.service.ts:45-47 | over every run such a group makes no payout and never completes |
| `Witness.TwoMissesRun` | services/backend-api/src/ledger-accounts/financial-allocation.service.ts:187-251 | a run in which a member misses two cycles: the second is ready and has a recipient, but the pool holds 4000 of 5000 and the finalization is refused |
| `WitnessTurns.SecondPayoutRun` | packages/shared/src/payout-recipient.ts:47-56 | a run of five cycles in which the last pays member 4 again although nobody is defaulted or skipped, and member 3 is never paid |
| `WitnessReserve.PaymentRefusedRun` | packages/shared/src/contribution-reserve.ts:66-72 | a run in which a cover leaves 140 of a reserve with units of 285: every later payment for that cycle is refused |
| `WitnessReserve.OverdraftRun` | packages/shared/src/contribution-reserve.ts:66-72 | the same with a second group of the user: the payment is accepted, and the row and the wallet no longer agree |
| `WitnessReserve.CoverRefusedRun` | services/backend-api/src/cycle-risk/cycle-compliance.service.ts:73-132 | its continuation: a cover of 1000 meets a wallet of 995, every late sync of the second group fails and changes nothing, and the cycle does not get ready |
| `Backend.SusuBackend.Create` | services/backend-api/src/groups/groups.service.ts:106-176 | the creation step, of which `Creation.CreatesWhatWasAsked` says that it stores exactly the terms asked for |
| `Backend.SusuBackend.JoinWithInvite` | services/backend-api/src/groups/groups.service.ts:625-759 | guards in order, then member row and deposit together or not at all |
| `Backend.SusuBackend.ActivateGroup` | services/backend-api/src/groups/groups.service.ts:243-285 | a full draft opens cycle 1 with one unpaid contribution a member |
| `Backend.SusuBackend.UpdateCycleRiskSettings` | services/backend-api/src/groups/groups.service.ts:1007-1041 | override and grace days change only as given and only in range |
| `Backend.SusuBackend.TryReleaseOnPaymentSettled` | services/backend-api/src/ledger-accounts/contribution-guarantee-reserve.service.ts:175-288 | the unit release as the specification of one unit says |
| `Backend.SusuBackend.CountDay` | services/backend-api/src/ledger-accounts/financial-allocation.service.ts:70-86 | the day counter rises by one and the contribution is paid exactly when it reaches the expected days |
| `Backend.SusuBackend.CollectDay` | services/backend-api/src/ledger-accounts/financial-allocation.service.ts:100-166 | payment row, inflow journal and unit release of one counted day |
| `Backend.SusuBackend.RecordContributionSettlement` | services/backend-api/src/ledger-accounts/financial-allocation.service.ts:55-166 | counter first, duplicate check second, money third, all or nothing; the payment step, of which `Payments.PaysExactly` and `Payments.PaymentChanges` say when it is accepted and what it changes |
| `Backend.SusuBackend.RecordContributionPayment` | services/backend-api/src/payments/payments.service.ts:53-174 | that payment, followed by a sync of its group unless it was a duplicate |
| `Backend.SusuBackend.ForfeitDepositForDefaulted` | services/backend-api/src/cycle-risk/cycle-deposits.service.ts:154-205 | the deposit goes to the pool, or only its status changes when there is none |
| `Backend.SusuBackend.CoverDefaultFromReserve` | services/backend-api/src/ledger-accounts/contribution-guarantee-reserve.service.ts:294-469 | the cover, of which `Defaults.CoverByRows` says when it is due and that it takes the smaller of what is owed and what remains |
| `Backend.SusuBackend.OnMemberNewlyDefaulted` | services/backend-api/src/cycle-risk/default-protection.service.ts:132-222 | mark, forfeit, then cover or dequeue, undone as a whole on failure; what it changes is `Defaults.DefaultChanges` |
| `Backend.SusuBackend.SyncOneMember` | services/backend-api/src/cycle-risk/cycle-compliance.service.ts:73-181 | restores, marks late or defaults one member, by the deadlines of `Deadlines.SyncByClock` |
| `Backend.SusuBackend.SyncGroupCompliance` | services/backend-api/src/cycle-risk/cycle-compliance.service.ts:39-182 | the loop carries out the sync that `Deadlines.SyncByClock` is about, stopping at the first fault with earlier members kept |
| `Backend.SusuBackend.AllocateCycle` | services/backend-api/src/payouts/payouts.service.ts:109-226 | guards, summary, selection, split and journal in the source's order, first failure reported |
| `Backend.SusuBackend.PayOutCycle` | services/backend-api/src/ledger-accounts/financial-allocation.service.ts:187-262 | the allocation journal and the rows that go with it |
| `Backend.SusuBackend.RecordFinalization` | services/backend-api/src/payouts/payouts.service.ts:183-274 | payout, earning and reserve rows, then the next cycle or completion |
| `Backend.SusuBackend.ReleaseHeldDeposits` | services/backend-api/src/cycle-risk/cycle-deposits.service.ts:208-249 | the loop returns every positive held deposit of members not defaulted |
| `Backend.SusuBackend.ReleaseFinalReserves` | services/backend-api/src/ledger-accounts/contribution-guarantee-reserve.service.ts:519-557 | the loop closes every open reserve and pays out what remains |
| `Backend.SusuBackend.SweepOrphanedBalances` | services/backend-api/src/ledger-accounts/contribution-guarantee-reserve.service.ts:562-596 | the sweep of users whose reserves were open |
| `Backend.SusuBackend.CompleteGroup` | services/backend-api/src/payouts/payouts.service.ts:265-281 | deposits, reserves, sweep, in that order |
| `Backend.SusuBackend.FinalizeTransaction` | services/backend-api/src/payouts/payouts.service.ts:90-291 | the transaction is the finalization step of the protocol, or leaves no trace |
| `Backend.SusuBackend.FinalizeCycle` | services/backend-api/src/payouts/payouts.service.ts:46-291 | sync, look for a recipient, finalize: a faulty sync ends it with its own fault; otherwise the finalization is carried out whenever its transaction is accepted, and else refused with the state of the sync kept |

## Left out

- UnlockTiming.UnlocksWithPayments: is about reserves never drawn on for a default whose owner has one payout in the group; a cover changes the instalments, and a second payout adds a second reserve that waits for the first.
- Preview.PreviewMatchesSettlement: previews in exact arithmetic; IEEE floats and the epsilon added before rounding are not modelled, and contributions are whole pesewas.
- Preview.ComputeGroupFinancePreview: computes in exact rationals, and takes the start date as a day number, so the check of its text is gone.
- Preview.MarginRoundsHalfUp: is about exact rationals, as above.
- Explorer.CursorRoundTripsExactly: is about the text between the separators; base64url, ISO dates and number parsing are not modelled.
- Reconciliation.GetSummary: looks at all rows; the caps (10 accounts, 500 payouts, 5 journals) and the seven-day window are dropped.
- Reconciliation.NegativeAccounts: lists all of them, not the first ten.
- Reconciliation.UnbalancedJournals: lists all of them, not the first five.
- Progress.GroupsTerminate: asks that no day is counted under a recorded reference (`NoRecounts`), although the counts alone would not need it, because it rests on the invariant that ties rows to the ledger.
- QueueSafety.EveryMemberPaidOnce: asks for it for the same reason.
- Finalization.FinalizesExactly: asks for a reserve minimum below 100% and a maximum within 0 to 100%; without the first the recipient's share decides too (`PoolSolvency.AllocateAcceptedExactly`), without the second every split is refused (`ReserveMath.SplitConserves`).
- Refusals.FinalizeRefusals: asks for the same.
- Payments.PaysExactly: is about payments under a fresh reference, as are `PaymentChanges` and `PayRefusals`; under a recorded one see `Protocol.RepeatedReferenceBreaksBooks`.
- A run in which a completion is refused, which takes two groups with a cover each and all their payments in between; the exact condition is proved (`FinalizeAcceptedExactly`).
- Withdrawals, the clearing account and their reconciliation checks.
- Payment requests, providers, webhooks, authentication, role checks, notifications, audit rows and metadata other than the skipped members of a payout.
- Migration of legacy wallets and escrow, and the legacy admin-earnings balance check: the model starts without legacy balances.
- Editing a draft after members joined and replacing a defaulting member: terms and roster are fixed once given. Group status CANCELLED does not occur.
- Idempotency keys and row ids are values of a datatype, named by group, cycle, member, reserve position and day; generated external references are taken as fresh and references are not trimmed.
- Account rows come into being with their first posting; until then they read as 0.
- A lookup without an order (`findFirst` for the open reserve) takes the oldest row.
- Reserve settings are constant over a run; they come from the environment in the source.
- Timestamps other than the group's start day and the sync's day, and the cycleDefaultFlagged mark, which no modelled branch reads.
- Explorer filters are one arbitrary predicate on rows; search terms and account listings are not modelled.
- Cycle numbers below 1 are never current and are not representable.
- Database concurrency: each transaction is atomic, as the source asks of the database.
