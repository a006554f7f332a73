# Treasury: a verified model of settlement, cashbox days, access and accounting codecs

The project models the parts of the treasury service that keep money and
authority consistent, and proves what they promise over every run.

- **Settlement ledger** (`Settlement`, `SettlementBalances`, `SettlementInvariant`,
  `SettlementSteps`, `SettlementRuns`, `SettlementConservation`,
  `SettlementReversal`, `SettlementAcceptance`, `SettlementChecks`,
  `SettlementReplies`, `SettlementStore`):
  collection items, batches with their allocation lines and effects, and bank
  movements; creating, confirming and reversing batches, and their idempotency keys.
- **Cashbox days** (`Cashbox`, `CashboxDays`, `CashboxInvariant`, `CashboxSteps`,
  `CashboxTheorems`, `CashboxAcceptance`, `CashboxBooks`, `CashboxKeys`,
  `CashboxScenario`, `CashboxStore`): approvals, closing a day in
  two transactions, reopening, variance postings, number reservations and idempotent
  replies.
- **Password throttle** (`Throttle`) and **sessions** (`Sessions`,
  `SessionLookup`, `SessionStore`).
- **Authority** (`Grants`, `Delegations`, `Policies`, `TransferPolicies`).
- **Codecs** (`Decimals`, `StableJson`, `JsonParser`, `Crc32`, `CrcPolynomial`, `Zip`,
  `Csv`).
- `Common`, `Foundation` and `Sums` hold what several of them use.

`dafny verify dfyconfig.toml` checks everything.

## How to read it

A state is a datatype of tables. Every command has an `...Outcome` function, the
guards in the order the service checks them, and an `After...` function, the
tables it leaves; `Next` is one transaction and `Run` any sequence of them. The
classes (`SettlementStore.Store`, `CashboxStore.Store`, `Throttle.Bucket`,
`SessionStore.Store`, `Policies.PolicyTable`) follow the services statement by
statement, with their loops and their rollback, and are proved to compute exactly
those functions. The theorems are then about the functions and their runs.
`SettlementAcceptance` and `CashboxAcceptance` state when each command goes through on
the fields of the request and of the rows, without those functions.

Conventions and preconditions:

- A database transaction is one atomic step. Its rows are locked, and a thrown
  error leaves the tables unchanged. A close is two steps that anything may
  separate.
- Row ids are positions in append-only tables; random ids and tokens are fresh
  numbers; there is one clock that never goes back.
- What a transaction reads elsewhere (bank accounts, attachments, users, decimal
  places, the answer of an authority check, step-up proofs) is a parameter of the
  step and may be different at every step.
- Digests are the values they are taken of, so they are injective by definition.
- Amounts are integers of 10^-8. `Decimals` proves that this is what the services
  compute for texts of at most eight fraction digits, and that longer fractions
  are misread; the positive-amount pattern of settlement requests admits them.
  The unsigned reader of payment effects in cashboxes is not used.
- One total order stands for `localeCompare` and for the order of the database.
- An organization-wide grant has an empty scope, as preparing a grant enforces.

Where the code and its intent part, the model follows the code:

- `grantContains` takes a ceiling for a currency restriction that payment checks
  do not make. `Grants.SoundForPaymentsIff` says for which grants that matters, with
  `Grants.CeilingIsNoRestriction` as the smallest case; `Grants.SoundForTransfersIff`
  and `Grants.SoundForCashboxesIff` say it for transfers and cashboxes. The other way round,
  `Grants.WithinIsContainedIff` says which of the grants that are within are refused:
  those that list a currency the container does not, as in
  `Grants.SecondCurrencyCounts`.
- An administrator's revocation skips sessions that have idled out, and refreshing
  the XSRF token does not look at the idle limit: `SessionLookup.AdminRevocationKills`
  and `SessionLookup.RefreshRevivesIdle` state both exactly.
- The scope that views show for a delegation and the scope merged in SQL list
  different currencies. For settlements that never shows
  (`Delegations.MergedAgreesWithEffective`); for payments
  `Delegations.MergedAgreesOnPaymentsIff` says exactly when it does not.
- A delegation that only repeats its source's ceiling is accepted when the source
  lists several currencies, but the database function never finds it current:
  `Delegations.AcceptedIsCurrentIff`, `Delegations.AcceptedButNeverCurrent`.
- Closing a reopened day without variance keeps the approval id of its reopening in
  the row, so a closed row can name an approval without a variance;
  `CashboxTheorems.CloseApprovalIffVariance` says which approval a row names.
- A close subject (cashbox, date, source row, counts with their reasons, observed
  instruments) can be requested once. A close with a variance that has all but an
  approval can get one exactly when the request for its subject is approved, was made
  by the closer, and the cashbox and its books are as in the snapshot of the request
  (`CashboxTheorems.ClosableOnRequestIff`). So it is blocked while the cashbox and its
  books differ from the snapshot, and when the request is rejected it is blocked for
  ever, since nobody can request the subject again (`CashboxTheorems.RejectedIsFinal`).
  `CashboxScenario.BooksMoveAndReturn` and `CashboxScenario.RefusedForEver` are runs
  into the one and the other.
- A key whose cycle was closed under another key while its reservation waited can
  never be answered: `CashboxKeys.OvertakenKeyIsDead`.
- The guard that keeps approval policies apart compares method categories for every
  document type; the selection of a transfer's policy does not. Two transfer policies
  that differ in their category only are both accepted, and leave the transfers they
  match without a policy (`TransferPolicies.CategoriesLeaveUndecided`,
  `TransferPolicies.TransfersWithoutPolicy`).
  For one transfer a policy is selected exactly when one matching scope, category
  dropped, is narrower than every other matching one (`Policies.OnlyUndominatedIff`).
  A table selects one for every transfer that it matches exactly when every two
  policies that are ambiguous with categories dropped are bridged by narrower ones
  (`TransferPolicies.TransfersDecidedIff`); so while no active transfer policy names a
  category (`Policies.ReachableMostSpecific`), or while the guard holds with
  categories dropped (`Policies.UniqueMostSpecific`).
- A discrepancy reason of blanks beside a zero difference passes the validation of a
  proposal and is then refused by a table constraint whose name turns the answer into
  a reversal conflict: `SettlementRuns.BlankReasonIff`.

## Model

| member | source | states |
|---|---|---|
| Common.TrimmedIff | src/collection-and-settlement/settlement.service.ts:585-589 | trimming leaves a text if and only if some character is not white space |
| SettlementBalances.SnapshotExactIffDistinct | src/collection-and-settlement/settlement.service.ts:304-320 | the loop that writes balances from rows locked before it gives every item its exact share if and only if no item has two lines |
| SettlementBalances.LengthCheckForcesDistinct | src/collection-and-settlement/settlement.service.ts:645-650 | as many locked items as lines is equivalent to pairwise distinct items |
| SettlementBalances.SnapshotExact | src/collection-and-settlement/settlement.service.ts:466-486 | on distinct items the confirmation and reversal loops equal updating each item from its own current row |
| SettlementBalances.TotalMoved | src/collection-and-settlement/settlement.service.ts:304-320 | confirming moves the sum of the lines into one account and currency and nothing anywhere else; reversing moves it back |
| SettlementSteps.ConfirmKeepsItem | src/collection-and-settlement/settlement.service.ts:304-320 | confirming keeps every item's balances equal to its confirmed allocations, non-negative, adding up to gross, with the dictated state |
| SettlementSteps.ReverseKeepsItem | src/collection-and-settlement/settlement.service.ts:466-486 | the same for reversing |
| SettlementSteps.ShareIsAllocated | src/collection-and-settlement/settlement.service.ts:470-473 | a confirmed batch's share is part of what each item has allocated, whatever other batches did |
| SettlementSteps.ConfirmedHasEffects | src/collection-and-settlement/settlement.service.ts:322-363 | the effects written at confirmation are exactly those the confirmed row describes, with its credit movement |
| SettlementSteps.ReversalHasEffects | src/collection-and-settlement/settlement.service.ts:487-522 | a reversal writes one mirrored effect per effect and exactly one debit movement |
| SettlementRuns.CollectIsIdempotent | src/collection-and-settlement/collection-effects.service.ts:116-141 | whatever runs in between, repeating an accepted collection command is answered with the same item and changes nothing; another payload for its source is refused |
| SettlementRuns.CollectKeeps | src/collection-and-settlement/collection-effects.service.ts:28-65 | a new item starts with nothing allocated, and sources and provider references stay unique |
| SettlementRuns.CreateKeeps | src/collection-and-settlement/settlement.service.ts:211-236 | an accepted proposal balances and names distinct items of one account and currency, as the invariant says of the new row; no item and no movement is touched |
| SettlementRuns.ConfirmKeeps | src/collection-and-settlement/settlement.service.ts:265-371 | confirming keeps the whole invariant and only extends the history |
| SettlementRuns.ReverseKeeps | src/collection-and-settlement/settlement.service.ts:421-522 | reversing keeps the whole invariant and only extends the history |
| SettlementRuns.RunKeeps | src/collection-and-settlement/settlement.service.ts:167-561 | so does every run of commands and movements of other domains |
| SettlementRuns.ReachableItems | src/collection-and-settlement/settlement.repository.ts:397-416 | in every reachable state an item's allocated amount is the sum of its confirmed allocations over all batches, both balances are non-negative and add up, and its state is the one they dictate |
| SettlementRuns.ReachableBatches | src/collection-and-settlement/settlement.service.ts:287-303 | in every reachable state creator, confirmer and reverser of a batch differ, differences are approved, figures balance and lines add up to gross |
| SettlementConservation.RunConserves | src/collection-and-settlement/settlement.service.ts:322-363 | per bank account and currency the settlement movements net to the actual nets of the batches now confirmed, and the items' allocated total is that net plus fees plus deductions minus differences |
| SettlementConservation.ReverseConserves | src/collection-and-settlement/settlement.service.ts:487-522 | a reversal keeps that balance |
| SettlementReversal.LoopGuardsPass | src/collection-and-settlement/settlement.service.ts:466-489 | the guards inside the reversal loops cannot fire on a confirmed batch in any reachable state |
| SettlementReversal.ReversibleIff | src/collection-and-settlement/settlement.service.ts:439-448 | a confirmed batch can be reversed if and only if reason, authority, version, separation of duties and step-up proof are right; never blocked by arithmetic |
| SettlementReversal.ReversalIsExact | src/collection-and-settlement/settlement.service.ts:466-486 | whatever runs between confirmation and reversal, every item loses exactly what the batch had taken |
| SettlementReversal.ReversalMirrors | src/collection-and-settlement/settlement.service.ts:487-522 | each effect of a reversal undoes the effect of its original at the same position; the debit cancels the credit at the same endpoint |
| SettlementReversal.ReversedOnce | src/collection-and-settlement/settlement.repository.ts:418-438 | no effect is reversed twice anywhere in the table |
| SettlementReversal.ReversedCompletely | src/collection-and-settlement/settlement.service.ts:487-522 | every effect of a reversed batch is reversed, by its one reversal |
| SettlementReversal.ConfirmableIff | src/collection-and-settlement/settlement.service.ts:274-293 | whatever has run since, a proposal can be confirmed if and only if none of its items has moved on, an authorized other user asks with the current version, the difference is approved and the evidence holds; never blocked by balances alone |
| SettlementReversal.StaleNeverConfirms | src/collection-and-settlement/settlement.service.ts:651-662 | a proposal one of whose items has moved on stays a proposal in every later state |
| SettlementReversal.TouchingMakesStale | src/collection-and-settlement/settlement.repository.ts:397-416 | confirming or reversing a batch makes every open proposal on one of its items stale |
| SettlementReversal.ConfirmedOncePerVersion | src/collection-and-settlement/settlement.service.ts:645-663 | of all proposals against one version of an item at most one is ever confirmed |
| SettlementAcceptance.CollectableIff | src/collection-and-settlement/collection-effects.service.ts:28-65 | an item is written if and only if its amount is positive, its source has none, and its provider reference, if it has text, is not taken in its channel or, without one, for its account |
| SettlementAcceptance.CollectionIsRecorded | src/collection-and-settlement/collection-effects.service.ts:28-65 | the row of a collected item carries its payload with the reference trimmed, everything left and nothing allocated |
| SettlementAcceptance.CreatableIff | src/collection-and-settlement/settlement.service.ts:167-236 | a proposal is accepted if and only if the actor is authorized and active, the account takes the money, figures balance and texts fit, attachments are found, every item is at its version with enough left, and a replaced batch is reversed, alike and not yet replaced |
| SettlementAcceptance.ProposalIsRecorded | src/collection-and-settlement/settlement.repository.ts:233-288 | the row of an accepted proposal carries its terms as asked for |
| SettlementAcceptance.ConfirmableOnFields | src/collection-and-settlement/settlement.service.ts:245-303 | the exact condition of a confirmation on the fields of the request, the account, the attachments and the items |
| SettlementAcceptance.ConfirmationPaysProposal | src/collection-and-settlement/settlement.service.ts:304-341 | whatever runs between proposal and confirmation, one credit of the proposed net goes to the proposed account on the proposed date, and each item gives the amount proposed for it |
| SettlementAcceptance.ReversalRepays | src/collection-and-settlement/settlement.service.ts:487-522 | a reversal appends one debit of that net, on its own date, which names the credit |
| SettlementChecks.ConfirmedCheckPasses | migrations/0023_settlement_lifecycle.sql:273-348 | the deferred check of a confirmed batch's effect set passes in every reachable state |
| SettlementChecks.ReversedCheckPasses | migrations/0023_settlement_lifecycle.sql:350-381 | so does the check of a reversed batch |
| SettlementChecks.ReversalCheckPasses | migrations/0023_settlement_lifecycle.sql:383-412 | and the check of a reversal |
| SettlementChecks.InsertedEffectsPass | migrations/0023_settlement_lifecycle.sql:184-245 | the evidence check of every inserted effect passes: batch, date and version; for a reversing effect the settlement effect it names, of the reversed batch with the same key, type, currency, amount and item; for a bank credit its movement, with its key and the movement it reverses |
| SettlementReplies.ServiceRefinesRun | src/collection-and-settlement/settlement.service.ts:167-561 | with idempotency keys the tables still go through a run of the commands, those not answered from a stored reply: all theorems about runs hold of the service |
| SettlementReplies.SameProposalIff | src/collection-and-settlement/settlement.service.ts:176-182 | two proposals are one command if and only if the same actor sends them and they differ at most in white space around their texts |
| SettlementReplies.SameReversalIff | src/collection-and-settlement/settlement.service.ts:405-417 | the same for reversals |
| SettlementReplies.KeysHideNothing | src/collection-and-settlement/settlement.service.ts:175-212 | an invalid request is refused whatever its key was answered with; under a new key the guards decide |
| SettlementReplies.OneKeyOneProposal | src/collection-and-settlement/settlement.service.ts:175-236 | whatever is requested in between, a proposal sent again is answered with its batch and makes no other; another one under its key is refused |
| SettlementReplies.OneKeyOneConfirmation | src/collection-and-settlement/settlement.service.ts:254-273 | the same for confirming |
| SettlementReplies.OneKeyOneReversal | src/collection-and-settlement/settlement.service.ts:418-435 | the same for reversing |
| SettlementStore.Store.Collect | src/collection-and-settlement/collection-effects.service.ts:116-141 | the command computes the specified outcome and tables and keeps the invariant |
| SettlementRuns.BlankReasonIff | migrations/0023_settlement_lifecycle.sql:60-64 | of the proposals that pass validation, the table refuses exactly those that give a reason beside a zero difference, which can only be a blank one |
| SettlementStore.Store.Create | src/collection-and-settlement/settlement.service.ts:167-243 | replays a stored reply, or computes the specified outcome and tables; keeps the invariant |
| SettlementStore.Store.ValidateFacts | src/collection-and-settlement/settlement.service.ts:611-643 | the checks in order, the items in a loop |
| SettlementStore.Store.ConsumeLines | src/collection-and-settlement/settlement.service.ts:304-320 | the loop over allocations, balances from the locked snapshot |
| SettlementStore.Store.AppendSettlementEffects | src/collection-and-settlement/settlement.service.ts:322-363 | the bank credit, one effect per allocation, then evidence for what is not zero |
| SettlementStore.Store.AppendEvidence | src/collection-and-settlement/settlement.service.ts:665-689 | evidence of one kind, none for zero |
| SettlementStore.Store.Confirm | src/collection-and-settlement/settlement.service.ts:245-399 | lock, authority, stored reply, guards in order, writes; unchanged tables on refusal |
| SettlementStore.Store.ValidateLockedAllocations | src/collection-and-settlement/settlement.service.ts:645-663 | the check on the locked rows, in a loop |
| SettlementStore.Store.ReleaseLines | src/collection-and-settlement/settlement.service.ts:466-486 | the reversal loop with its guards; refused exactly when some line cannot be given back |
| SettlementStore.Store.MirrorAllEffects | src/collection-and-settlement/settlement.service.ts:487-522 | the loop over effects with their debit movements |
| SettlementStore.Store.Reverse | src/collection-and-settlement/settlement.service.ts:401-561 | the same for reversing, rolled back when a guard inside a loop fires |
| Foundation.DefaultReversalCancels | src/foundation-effects/foundation-effects.service.ts:31-54 | a command that refers to a movement and leaves its direction open cancels it if and only if that movement is a credit, or of nothing |
| CashboxDays.LatestIsLast | src/cashbox-and-custody/cashbox-operations.repository.ts:446-465 | the row of the highest cycle is the last one written for its cashbox and date |
| CashboxDays.ChainIsCycles | src/cashbox-and-custody/cashbox-operations.repository.ts:753-855 | linked rows are cycles 1, 2, ..., each naming the one before, all but the last closed |
| CashboxSteps.RequestCloseKeeps | src/cashbox-and-custody/cashbox-operations.service.ts:219-284 | requesting a close keeps the invariant, in which a request is bound to an existing source row and each subject has one request, and only extends the history |
| CashboxSteps.RequestReopenKeeps | src/cashbox-and-custody/cashbox-operations.service.ts:286-336 | the same for requesting a reopening |
| CashboxSteps.ActKeeps | src/cashbox-and-custody/cashbox-operations.service.ts:401-461 | a request is decided once, by someone else |
| CashboxSteps.ReserveKeeps | src/cashbox-and-custody/cashbox-operations.service.ts:473-541 | the first transaction of a close reserves one number per key |
| CashboxSteps.CommitKeeps | src/cashbox-and-custody/cashbox-operations.service.ts:546-634 | the second transaction keeps the invariant and only extends the history |
| CashboxSteps.CommitFacts | src/cashbox-and-custody/cashbox-operations.service.ts:726-776 | what a committed close has been checked for: an open latest row, a matching reservation, an approval if and only if there is a variance |
| CashboxSteps.ReopenKeeps | src/cashbox-and-custody/cashbox-operations.service.ts:637-710 | reopening continues a closed row with the next cycle |
| CashboxSteps.RunKeeps | src/cashbox-and-custody/cashbox-operations.service.ts:463-710 | every interleaving of all transactions keeps the invariant |
| CashboxTheorems.ReachableCycles | src/cashbox-and-custody/cashbox-operations.repository.ts:753-855 | in every reachable state the rows of a cashbox date are linked cycles, all but the last closed |
| CashboxTheorems.ClosedOnce | src/cashbox-and-custody/cashbox-operations.repository.ts:771-792 | a closed row is never written again |
| CashboxTheorems.ReservationOfRow | src/cashbox-and-custody/cashbox-operations.repository.ts:735-751 | every closed row has exactly one consumed reservation, with its cycle and number |
| CashboxTheorems.RowOfReservation | src/cashbox-and-custody/cashbox-operations.repository.ts:735-751 | every consumed reservation has its closed row |
| CashboxTheorems.NumbersUnique | src/cashbox-and-custody/cashbox-operations.service.ts:507-541 | no two closed rows carry one business number |
| CashboxTheorems.ReservationStillReserved | src/cashbox-and-custody/cashbox-operations.service.ts:576-580 | the compare-and-set that consumes a reservation cannot fail while its key is unanswered |
| CashboxTheorems.OneKeyOneDay | src/cashbox-and-custody/cashbox-operations.service.ts:483-497 | an answered key is answered with the same day for ever, by either transaction of any later attempt |
| CashboxTheorems.OneKeyOneReopening | src/cashbox-and-custody/cashbox-operations.service.ts:637-662 | whatever runs in between, a reopening sent again is answered with the same row; another one under its key is refused |
| CashboxTheorems.OneKeyOneCloseRequest | src/cashbox-and-custody/cashbox-operations.service.ts:226-243 | the same for requesting a close |
| CashboxTheorems.OneKeyOneReopenRequest | src/cashbox-and-custody/cashbox-operations.service.ts:295-306 | the same for requesting a reopening |
| CashboxTheorems.OneKeyOneDecision | src/cashbox-and-custody/cashbox-operations.service.ts:413-425 | the same for deciding a request |
| CashboxTheorems.ApprovalSpentOnce | src/cashbox-and-custody/cashbox-operations.service.ts:660-682 | an approval action backs at most one close or one reopening in any run |
| CashboxTheorems.PastStays | src/cashbox-and-custody/cashbox-operations.service.ts:1179-1183 | the row a spent approval is bound to never becomes current again |
| CashboxTheorems.ApproverIsNotSpender | src/cashbox-and-custody/cashbox-operations.service.ts:428-430 | whoever spends an approval is not the one who gave it |
| CashboxTheorems.VariancesAreApproved | src/cashbox-and-custody/cashbox-operations.service.ts:748-774 | every row closed with a variance names an approval by someone other than its closer, for this row |
| CashboxTheorems.CloseApprovalIffVariance | src/cashbox-and-custody/cashbox-operations.repository.ts:771-824 | in every reachable state a closed row names an approval to close if and only if it was closed with a variance; without one it names none as a first close and otherwise the approval to reopen the row before it |
| CashboxTheorems.NamesApprovalIff | src/cashbox-and-custody/cashbox-operations.repository.ts:771-824 | so it names an approval at all if and only if it had a variance or had been reopened |
| CashboxKeys.ConsumedIffAnswered | src/cashbox-and-custody/cashbox-operations.repository.ts:735-751 | in every reachable state a reservation is consumed if and only if its key has been answered |
| CashboxKeys.OvertakenStays | src/cashbox-and-custody/cashbox-operations.service.ts:553-580 | a reservation whose cycle was closed without it stays as it is in every later state |
| CashboxKeys.OvertakenKeyIsDead | src/cashbox-and-custody/cashbox-operations.service.ts:473-580 | in every later state its key is unanswered, the first transaction returns this reservation or refuses, and the second refuses |
| CashboxTheorems.OnlyItsRequest | src/cashbox-and-custody/cashbox-operations.service.ts:748-774 | a close with a variance goes through only on the one request for its subject, approved and made by its closer, while cashbox and books are as they were then |
| CashboxTheorems.ClosableOnRequestIff | src/cashbox-and-custody/cashbox-operations.service.ts:748-774 | when everything else is right, some approval lets a close with a variance through if and only if the request for its subject is approved, was made by the closer, and has the snapshot of the cashbox and books as they are |
| CashboxTheorems.ClosableIff | src/cashbox-and-custody/cashbox-operations.service.ts:748-774 | so some approval does if and only if such a request exists |
| CashboxTheorems.RejectedIsFinal | migrations/0026_petty_cash_cashbox_close.sql:81-88 | after a rejection no close with a variance for that subject goes through and nobody requests it again, in any later state |
| CashboxTheorems.VarianceSum | src/cashbox-and-custody/cashbox-operations.service.ts:581-597 | direction and absolute amount of the postings carry the signed variances |
| CashboxTheorems.BookEqualsCount | src/cashbox-and-custody/cashbox-operations.repository.ts:191-215 | after a close the recomputed book of every controlled currency is the counted amount |
| CashboxTheorems.RecloseIsEven | src/cashbox-and-custody/cashbox-operations.service.ts:959-999 | a later close of the day with the same amounts, after any run that leaves the controlled books alone, has no variance in any currency and posts nothing |
| CashboxBooks.BookAfter | src/cashbox-and-custody/cashbox-operations.repository.ts:191-215 | a movement adds its amount to the book if it is a credit and takes it off if it is a debit, exactly when it is of the cashbox, in the currency and dated on or before the date |
| CashboxBooks.PostedVariances | src/cashbox-and-custody/cashbox-operations.service.ts:581-597 | a close posts, for every count that differs and no other, one credit of what is too much or one debit of what is missing |
| CashboxBooks.OthersChangeNoClose | src/cashbox-and-custody/cashbox-operations.repository.ts:191-215 | movements of other endpoints, of later days or in currencies not controlled change no close |
| CashboxAcceptance.CountedIff | src/cashbox-and-custody/cashbox-operations.service.ts:959-999 | submitted counts are taken if and only if every controlled currency is counted once and no other, digits fit, and exactly the counts that differ from the book have a reason |
| CashboxAcceptance.PreparedIff | src/cashbox-and-custody/cashbox-operations.service.ts:726-776 | a close is prepared if and only if custodian, authority, latest row, counts, instruments and approval are right, each on its fields |
| CashboxAcceptance.CommitsIff | src/cashbox-and-custody/cashbox-operations.service.ts:546-580 | the second transaction closes if and only if its key is unanswered, the close is prepared and the reservation is of the cycle, branch and unit as they are |
| CashboxAcceptance.CloseRequestableIff | src/cashbox-and-custody/cashbox-operations.service.ts:219-284 | when a close can be requested |
| CashboxAcceptance.ReopenRequestableIff | src/cashbox-and-custody/cashbox-operations.service.ts:286-336 | when a reopening can be requested |
| CashboxAcceptance.DecidableIff | src/cashbox-and-custody/cashbox-operations.service.ts:401-461 | when a request can be decided, and what the decision leaves |
| CashboxAcceptance.ReopenableIff | src/cashbox-and-custody/cashbox-operations.service.ts:637-682 | when a closed day can be reopened |
| CashboxScenario.ClosedReopenedClosed | src/cashbox-and-custody/cashbox-operations.service.ts:463-710 | a run from empty tables in which a variance close and a reopening each spend an approval and the second close is even: what the theorems ask for is reachable |
| CashboxScenario.RefusedForEver | src/cashbox-and-custody/cashbox-operations.service.ts:401-461 | a run that ends with the request of a close refused: the close lacks only an approval, and no approval lets it through, then or in any later state in which the day still has no row |
| CashboxScenario.BooksMoveAndReturn | src/cashbox-and-custody/cashbox-operations.service.ts:765-771 | a run in which the books move after the approval and no approval lets the close through, until they move back and the same one does |
| CashboxStore.Store.CloseDay | src/cashbox-and-custody/cashbox-operations.repository.ts:753-824 | compare-and-set on the latest row, or the first row |
| CashboxStore.Store.ConsumeReservation | src/cashbox-and-custody/cashbox-operations.repository.ts:735-751 | compare-and-set from reserved |
| CashboxStore.Store.CompleteApprovalAction | src/cashbox-and-custody/cashbox-operations.repository.ts:639-673 | action inserted, request decided by compare-and-set |
| CashboxStore.Store.RequestClose | src/cashbox-and-custody/cashbox-operations.service.ts:219-284 | stored reply, guards in order, unique index, insertion |
| CashboxStore.Store.RequestReopen | src/cashbox-and-custody/cashbox-operations.service.ts:286-336 | the same |
| CashboxStore.Store.Act | src/cashbox-and-custody/cashbox-operations.service.ts:401-461 | stored reply, guards in order, action and decision |
| CashboxStore.Store.Reserve | src/cashbox-and-custody/cashbox-operations.service.ts:473-541 | the same for the first transaction of a close |
| CashboxStore.Store.AppendVariances | src/cashbox-and-custody/cashbox-operations.service.ts:581-597 | the loop over the variances |
| CashboxStore.Store.Commit | src/cashbox-and-custody/cashbox-operations.service.ts:546-634 | the same for the second transaction |
| CashboxStore.Store.Reopen | src/cashbox-and-custody/cashbox-operations.service.ts:637-710 | the same for reopening |
| Throttle.NextThrottle | src/access-control/auth.service.ts:975-1000 | one more failure, never more than ten; from the fifth to the ninth a delay of 1, 2, 4, 8 and 16 seconds, at the tenth a lock of fifteen minutes, each told as the seconds to wait |
| Throttle.ReserveKeeps | src/access-control/auth.service.ts:859-906 | reserving keeps failures plus live leases within ten |
| Throttle.FailKeeps | src/access-control/auth.service.ts:908-942 | so does a failure |
| Throttle.ReachableWithinLimit | src/access-control/auth.service.ts:859-957 | in every interleaving, with leases expiring at any time |
| Throttle.OldFailureChangesNothing | src/access-control/auth.service.ts:915-930 | a failure of an older generation, or after its lease, changes nothing else |
| Throttle.FailureCountsOnce | src/access-control/auth.repository.ts:286-301 | a failure counts once and its attempt never again |
| Throttle.SettledNeverCounts | src/access-control/auth.repository.ts:286-313 | a settled attempt never counts in any later state |
| Throttle.ReachingLimitLocks | src/access-control/auth.service.ts:982-989 | reaching ten locks for fifteen minutes, and no lease is live then |
| Throttle.LockHolds | src/access-control/auth.service.ts:862-869 | until the lock ends nothing is granted and nothing changes in any run without a clear |
| Throttle.LockEnds | src/access-control/auth.service.ts:871-881 | afterwards the next attempt is granted in a new generation without failures |
| Throttle.WaitIsRight | src/access-control/auth.service.ts:859-906 | the seconds a throttled attempt is told are right: left alone, the bucket refuses every attempt until the last of them and grants one at their end, unless after a delay attempts in progress fill it |
| Throttle.GrantedIff | src/access-control/auth.service.ts:860-905 | an attempt is granted if and only if no lock or delay runs and, unless a lock has just ended, failures and attempts in progress are fewer than ten |
| Throttle.GrantLasts | src/access-control/auth.service.ts:860-905 | a granted attempt counts as a failure for two minutes and no longer |
| Throttle.FailWaitIsRight | src/access-control/auth.service.ts:907-942 | after a failure every attempt is refused for the seconds it tells, and one is granted after them unless others fill the bucket |
| Throttle.ReleaseMakesRoom | src/access-control/auth.service.ts:944-957 | a release removes its lease and nothing else, so a full bucket grants again |
| Throttle.ClearForgives | src/access-control/auth.repository.ts:242-258 | after a clear there is no failure, lease, delay or lock, the generation is higher, and the next attempt is granted at any time |
| Throttle.ClearSettles | src/access-control/auth.repository.ts:242-258 | in every later run no attempt granted before a clear changes the row |
| Throttle.FirstFailureAfterClear | src/access-control/auth.repository.ts:242-258 | the first failure after a clear counts one and delays nothing |
| Throttle.Bucket.ReserveAttempt | src/access-control/auth.service.ts:859-906 | computes the specified outcome and rows, rolling back when throttled |
| Throttle.Bucket.FinalizeFailure | src/access-control/auth.service.ts:908-942 | the same |
| Throttle.Bucket.ReleaseAttempt | src/access-control/auth.service.ts:944-957 | the same |
| Throttle.Bucket.ClearThrottle | src/access-control/auth.repository.ts:242-258 | the same |
| Sessions.OnlyLastActive | src/access-control/auth.repository.ts:847-909 | only the last row of a logical session can be active |
| Sessions.TailIsLast | src/access-control/auth.repository.ts:788-795 | a row without a successor is the last of its logical session |
| Sessions.OneSuccessor | src/access-control/auth.repository.ts:847-909 | no row is rotated twice |
| Sessions.RotateKeeps | src/access-control/auth.repository.ts:847-909 | rotation keeps chains linear and limits in force |
| Sessions.RevokeKeeps | src/access-control/auth.repository.ts:998-1025 | so does revocation |
| Sessions.RunKeeps | src/access-control/auth.repository.ts:726-1042 | so does every run |
| Sessions.ReachableChains | src/access-control/auth.repository.ts:726-909 | in every run a logical session is a linear chain whose only possibly active row is its last, and no row outlives eight hours from the first authentication |
| SessionLookup.LookupIsUnique | src/access-control/auth.repository.ts:762-845 | the recursive query finds at most one pair of rows, the tail being the last of its session |
| SessionLookup.AcceptedIff | src/access-control/auth.repository.ts:762-845 | a token is accepted if and only if it presents a row and its session still has a usable one |
| SessionLookup.OldTokenExpires | src/access-control/auth.repository.ts:899-906 | after a rotation the old token is accepted for less than thirty seconds, in any later state |
| SessionLookup.BothTokensWork | src/access-control/auth.repository.ts:762-845 | within the grace period both tokens lead to the new row |
| SessionLookup.LostRotationIsServed | src/access-control/auth.service.ts:603-655 | whatever runs after a rotation, another one of the same row misses, and a retry is served exactly while the token is accepted, by touching a newer row |
| SessionLookup.NewSessionLasts | src/access-control/auth.repository.ts:726-760 | a new session's token is accepted for exactly fifteen minutes |
| SessionLookup.TouchExtends | src/access-control/auth.repository.ts:911-965 | after a touch the token is accepted for exactly fifteen minutes more, up to eight hours after the first authentication |
| SessionLookup.RotationLasts | src/access-control/auth.repository.ts:847-909 | after a rotation the new token lasts as long and the old one exactly thirty seconds |
| SessionLookup.KeptInUseIsAccepted | src/access-control/auth.repository.ts:911-965 | in any run, a current token touched at gaps under fifteen minutes stays accepted up to the eight-hour limit |
| SessionLookup.TouchNeedsOwnToken | src/access-control/auth.repository.ts:933-955 | a token that is not of the row's own session touches nothing |
| SessionLookup.RefreshedOnce | src/access-control/auth.repository.ts:967-996 | the XSRF token is refreshed if and only if both tokens are those of a current row, and that pair works once |
| SessionLookup.ActivationIff | src/access-control/auth.repository.ts:806-809 | deactivating an account refuses its tokens and no others, reactivating gives back those still usable |
| SessionLookup.RevokesExactly | src/access-control/auth.repository.ts:998-1025 | exactly which rows a revocation writes |
| SessionLookup.RevokedAreDead | src/access-control/auth.repository.ts:998-1025 | logout and account-wide revocation leave no presentable row |
| SessionLookup.NeverAcceptedAgain | src/access-control/auth.repository.ts:998-1025 | after them no earlier token is accepted in any later state |
| SessionLookup.AdminRevocationKills | src/access-control/access-admin.repository.ts:788-838 | an administrator's revocation ends exactly the sessions selected as usable, besides those already ended |
| SessionLookup.AdminNeverAcceptedAgain | src/access-control/access-admin.repository.ts:820-838 | their tokens are never accepted again |
| SessionLookup.RefreshRevivesIdle | src/access-control/auth.repository.ts:967-996 | refreshing the XSRF token makes an idled-out current row usable again if and only if the eight-hour limit is ahead and the account active |
| SessionStore.Store.CreateSession | src/access-control/auth.repository.ts:726-760 | the row a new session starts with |
| SessionStore.Store.FindSession | src/access-control/auth.repository.ts:762-845 | finds the pair of rows, or nothing exactly when the token is not accepted |
| SessionStore.Store.RotateSession | src/access-control/auth.repository.ts:847-909 | the guarded rotation |
| SessionStore.Store.TouchSession | src/access-control/auth.repository.ts:911-965 | the guarded touch |
| SessionStore.Store.RevokeWhere | src/access-control/auth.repository.ts:998-1025 | every row the revocation is about, and no other |
| SessionLookup.WriteIff | src/access-control/auth.repository.ts:847-965 | whatever runs after a lookup, the touch or rotation of the row found goes through if and only if the token is still accepted and that row has not been rotated away |
| SessionStore.RotatedWhenDue | src/access-control/auth.service.ts:624-655 | a current token that is served is kept if and only if its row is younger than fifteen minutes and the account was not authorized anew; otherwise a new row takes over |
| SessionStore.Store.Attempt | src/access-control/auth.service.ts:607-655 | a lookup and its write with anything in between: served exactly when that holds at the write; rotates exactly when the current token is presented and rotation is due, touches otherwise |
| SessionStore.Store.Authenticate | src/access-control/auth.service.ts:603-655 | the same with one retry after a missed write, under any other transactions: a token accepted at every step is refused only when its row was rotated away before both writes |
| Grants.FiltersOnFields | src/access-control/access-authorization.service.ts:107-137 | what each of the filters of authority looks at, value by value |
| Grants.ContainsValuesMeaning | src/access-control/access-admin.service.ts:634-639 | one list contains another if and only if it covers all that the other covers |
| Grants.GrantContainsReflexive | src/access-control/access-admin.service.ts:592-626 | containment is reflexive |
| Grants.GrantContainsTransitive | src/access-control/access-admin.service.ts:592-626 | containment is transitive |
| Grants.SoundForSettlements | src/access-control/access-authorization.service.ts:347-376 | whatever a contained grant authorizes for a settlement, at any time, its container authorizes |
| Grants.SoundForOneCurrencyPayments | src/access-control/access-authorization.service.ts:382-404 | the same for payments in the currency of their amount, under the full, the payment-request and the accounting filter |
| Grants.SoundForAccounting | src/access-control/access-authorization.service.ts:388-404 | the same for accounting in any currencies |
| Grants.ContainsIffWithin | src/access-control/access-admin.service.ts:592-626 | containment of prepared grants holds if and only if the container authorizes, at every time, all payments the contained grant does, and lists all currencies that one lists or none |
| Grants.WithinIsContainedIff | src/access-control/access-admin.service.ts:608-613 | of grants that are within, exactly those are refused that list a currency the container does not |
| Grants.ContainsIffAskedWithin | src/access-control/access-admin.service.ts:592-626 | over the payments the service asks about, of one document type each: containment holds if and only if the container authorizes all of them at every time, lists the currencies the contained grant lists, and for a grant of payment requests alone contains the sources of money that nothing looks at |
| Grants.SecondCurrencyCounts | src/access-control/access-admin.service.ts:611-613 | a smallest grant that is refused although it is within |
| Grants.SoundForPaymentsIff | src/access-control/access-authorization.service.ts:382-404 | for payments in several currencies containment is sound if and only if accounting asks or not a ceiling alone stands against listed currencies |
| Grants.CeilingIsNoRestriction | src/access-control/access-authorization.service.ts:388-404 | two prepared grants and a payment for which it is not |
| Grants.SoundForOneCurrencyTransfers | src/access-control/access-authorization.service.ts:322-336 | whatever a contained grant authorizes for a transfer in the currency of its amount, at any time, its container authorizes |
| Grants.SoundForCashboxes | src/access-control/access-authorization.service.ts:107-137 | the same for cashbox operations with an amount in their one currency, or without an amount in any currencies |
| Grants.SoundForTransfersIff | src/access-control/access-authorization.service.ts:322-336 | for transfers in several currencies containment is sound if and only if the contained scope is not for transfers or not a ceiling alone stands against listed currencies |
| Grants.SoundForCashboxesIff | src/access-control/access-authorization.service.ts:107-137 | the same for cashbox operations in several currencies and scopes for cashboxes |
| Grants.ResolveMeaning | src/access-control/access-authorization.service.ts:369-375 | an own grant wins; otherwise all applying delegations must come from one user |
| Delegations.CheckNarrows | src/access-control/access-admin.repository.ts:1591-1622 | the loop decides strict narrowing |
| Delegations.AcceptedIsStrictlyInside | src/access-control/access-admin.repository.ts:1727-1757 | an accepted delegation's effective scope is contained in its source and does not contain it |
| Delegations.PeriodFitsIff | src/access-control/access-admin.repository.ts:709-713 | a period fits if and only if the source is valid at every time of it |
| Delegations.DelegatedInsideSource | src/access-control/access-admin.repository.ts:709-713 | the same as grants, periods included |
| Delegations.AcceptedStillFits | migrations/0025_approval_policy_delegation.sql:102-132 | an accepted delegation passes the containment checks repeated at use |
| Delegations.AcceptedIsCurrentIff | migrations/0025_approval_policy_delegation.sql:102-146 | it passes all checks repeated at use if and only if it does more than repeat its source's ceiling; where it only does that, the source lists several currencies |
| Delegations.AcceptedButNeverCurrent | migrations/0025_approval_policy_delegation.sql:133-146 | a delegation that is accepted and can never be used |
| Delegations.MergedWithinSource | src/access-control/access-authorization.repository.ts:335-374 | the merged scope of a current delegation authorizes no payment its source would refuse, in one or several currencies, under any of the payment filters |
| Delegations.MergedWithinSourceSettlement | src/access-control/access-authorization.repository.ts:335-374 | nor any settlement |
| Delegations.BeyondIsNotCurrent | migrations/0025_approval_policy_delegation.sql:102-146 | a delegation whose merged scope goes beyond its source, as that is then, is not found current |
| Delegations.MergedAgreesWithEffective | src/access-control/access-authorization.repository.ts:335-374 | for settlements merged and effective scope authorize the same |
| Delegations.MergedAgreesOnPaymentsIff | src/access-control/access-admin.repository.ts:1727-1757 | on payments they agree if and only if accounting asks, the delegation selects a currency or has no ceiling, or its source lists the currency of the ceiling and no other |
| Delegations.MergedDiffersForSeveralCurrencies | src/access-control/access-admin.repository.ts:1742-1746 | a smallest delegation and payment on which they differ |
| Policies.CheckNarrower | src/access-control/access-admin.repository.ts:1570-1589 | the loop decides strict narrowing of policies |
| Policies.StrictPartialOrder | src/access-control/access-admin.repository.ts:1570-1589 | strict narrowing is irreflexive, asymmetric and transitive |
| Policies.StrictIsWithinAndDifferent | src/access-control/access-admin.repository.ts:1570-1589 | it is keeping every restriction without being the same |
| Policies.CheckDominates | src/transfers/transfer.service.ts:761-785 | the comparison of the services decides strict narrowing, over three keys for transfers and over four otherwise |
| Policies.Climb | src/payments/payment-approval.service.ts:580-584 | every candidate is, or is dominated by, one that no other dominates |
| Policies.OnlyUndominatedIff | src/transfers/transfer.service.ts:756-759 | the only candidate that no other dominates is the one that dominates every other |
| Policies.DecidedIff | src/transfers/transfer.service.ts:756-759 | there is such a candidate if and only if of every two one dominates the other or a third one both |
| Policies.UniqueMaximal | src/payments/payment-approval.service.ts:580-584 | the selection returns the candidate that dominates every other, and nothing exactly when there is none |
| Policies.OverlapIffCommonDocument | src/access-control/access-admin.repository.ts:1558-1568 | two policies overlap, in the keys a document type looks at, if and only if some document of the type matches both; absent branches and units match unrestricted policies only |
| Policies.MatchingAreChain | src/access-control/access-admin.repository.ts:1553-1556 | of two matching policies that are not ambiguous, in those keys, one dominates the other |
| Policies.UniqueMostSpecific | src/payments/payment-approval.repository.ts:206-227 | if no two policies are ambiguous in those keys, every document that some policy matches has exactly one that dominates all other matching ones |
| Policies.CreatesIff | src/access-control/access-admin.repository.ts:570-640 | a policy is created if and only if its bounds are in order, authority and separation are given, and every active policy of its type that overlaps it is comparable with it |
| Policies.RunKeepsGuarded | src/access-control/access-admin.repository.ts:603-615 | any run of creations keeps the active policies of a type apart, whole scopes compared, if the migrated ones were |
| Policies.ReachableMostSpecific | src/access-control/access-admin.repository.ts:570-668 | so after any run of creations every payment or receipt some active policy matches has exactly one most specific policy, and so has every transfer while no active transfer policy names a category |
| TransferPolicies.CategoriesLeaveUndecided | src/transfers/transfer.repository.ts:632-639 | two transfer policies that differ in their category only are both accepted, and the transfers they match have none |
| TransferPolicies.TransfersWithoutPolicy | src/transfers/transfer.service.ts:141-151 | two such pairs of policies under which no transfer at all has a most specific policy |
| TransferPolicies.TransfersDecidedIff | src/transfers/transfer.repository.ts:632-639 | a table has a most specific policy for every transfer it matches if and only if, for every two policies ambiguous with categories dropped and every amount both admit, some policy that names exactly what both name dominates them |
| Policies.PolicyTable.CreatePolicy | src/access-control/access-admin.repository.ts:603-615 | inserts unless some active policy of the document type conflicts |
| Policies.ChecksAgree | src/access-control/access-admin.repository.ts:1505-1539 | for currently valid grants the check in the transaction equals containment of the policy as a grant |
| Decimals.UnitsOfAmount | src/collection-and-settlement/settlement.service.ts:886-898 | printing any integer and reading it back is the identity |
| Decimals.PrintedTextIsCanonical | src/cashbox-and-custody/cashbox-operations.service.ts:1247-1268 | up to eight fraction digits, equal readings and equal printed texts mean equal numbers, both ways |
| Decimals.ReadExactWhen | src/collection-and-settlement/settlement.service.ts:886-891 | the reading denotes the number of the text if and only if the text has at most eight fraction digits or a zero fraction |
| Decimals.NineDigitsMisread | src/collection-and-settlement/settlement.dto.ts:24 | an amount the pattern admits that is misread |
| Decimals.VarianceTexts | src/cashbox-and-custody/cashbox-operations.service.ts:1270-1281 | subtraction and absolute value on texts compute on the integers, and posting the absolute variance by sign carries book to count |
| Decimals.UnitsOfNumeric | src/cashbox-and-custody/cashbox-operations.repository.ts:191-215 | database amounts, always with eight fraction digits, are read exactly |
| Decimals.CanonicalIffSameNumber | src/collection-and-settlement/collection-effects.service.ts:168-174 | two texts get one canonical text if and only if they denote the same number, for any number of digits |
| Decimals.ComparisonsAgree | src/access-control/access-authorization.service.ts:424-427 | the three comparisons of amounts in use agree |
| JsonParser.ValueBack | src/common/http.ts:62-71 | a parser for the JSON grammar reads the text of every value back |
| JsonParser.StableTextParses | src/common/http.ts:62-71 | and recovers the key-sorted value from the stable text |
| JsonParser.StableTextIffSame | src/common/http.ts:62-71 | stable texts are equal if and only if the values are equal up to the order of keys |
| StableJson.EscapedForms | src/common/http.ts:62-71 | which characters are written as two, six or one |
| StableJson.NormalIffSame | src/common/http.ts:64-69 | sorting keys gives one form exactly for values equal as maps |
| Crc32.Compute | src/accounting-integration/accounting-artifacts.ts:177-184 | the two loops compute the checksum register by register |
| CrcPolynomial.ChecksumIff | src/accounting-integration/accounting-artifacts.ts:177-184 | the checksum is CRC-32: the one number that, complemented and reflected, is the remainder over GF(2) of the message of reflected bytes times x^32, its highest 32 coefficients complemented, by the generator of exponents 32, 26, 23, 22, 16, 12, 11, 10, 8, 7, 5, 4, 2, 1, 0 |
| CrcPolynomial.RemainderIsUnique | src/accounting-integration/accounting-artifacts.ts:177-184 | a division by that generator leaves one remainder |
| Crc32.OneByteChangesChecksum | src/accounting-integration/accounting-artifacts.ts:177-184 | equally long buffers that differ in one byte have different checksums |
| Zip.Write | src/accounting-integration/accounting-artifacts.ts:131-175 | the loop builds the archive, and fails exactly when a number does not fit its field |
| Zip.LocalBuffer | src/accounting-integration/accounting-artifacts.ts:138-147 | the bytes written into a zeroed buffer are the fields of the local header in order |
| Zip.CentralBuffer | src/accounting-integration/accounting-artifacts.ts:150-163 | the same for the directory header, with what is skipped staying zero |
| Zip.EndBuffer | src/accounting-integration/accounting-artifacts.ts:168-173 | the same for the end record |
| Zip.HeaderReads | src/accounting-integration/accounting-artifacts.ts:138-166 | every header field is read back at its offset |
| Zip.FitsIff | src/accounting-integration/accounting-artifacts.ts:131-175 | the limits of 16 and 32 bits within which an archive can be written |
| Zip.LocalHeaderBytes | src/accounting-integration/accounting-artifacts.ts:138-147 | signature, version, flag, method and date of the local header, byte for byte |
| Zip.CentralHeaderBytes | src/accounting-integration/accounting-artifacts.ts:150-163 | the same of the directory header |
| Zip.EndRecordBytes | src/accounting-integration/accounting-artifacts.ts:168-173 | the same of the end record |
| Zip.ReadBack | src/accounting-integration/accounting-artifacts.ts:131-175 | reading an archive from its end record returns exactly the names and bytes written |
| Csv.CellBack | src/accounting-integration/accounting-artifacts.ts:202-206 | any cell is read back as its guarded text |
| Csv.DocumentBack | src/accounting-integration/accounting-artifacts.ts:67-72 | a parser for the CSV grammar returns exactly the matrix of guarded cell texts |
| Csv.GuardedIsSafe | src/accounting-integration/accounting-artifacts.ts:204 | no cell text starts a formula, and exactly the cells that would have get one apostrophe |
| Csv.ColumnLabel | src/accounting-integration/accounting-artifacts.ts:186-195 | the loop computes the bijective base-26 label |
| Csv.ColumnOfLabel | src/accounting-integration/accounting-artifacts.ts:186-195 | labels are capital letters and determine their column |

## Left out

- Views, lists, cursors, labels, audit and outbox rows: they decide nothing above.
- How authority is looked up inside a command: the answer is a parameter; `Grants`
  and `Delegations` model the decision itself.
- Item states that no modelled command enters (delayed, disputed, returned,
  cancelled) and the day state OPEN.
- Formats of business numbers, numbering rules and fiscal years: numbers come from
  a fresh counter.
- The revocation of all secrets of an account when TOTP is enrolled
  (src/access-control/auth.repository.ts:593-606): one more account-wide revocation,
  which the step `RevokeAccount` covers.
- The predecessor token columns of sessions: no command sets them.
- Argon2, scrypt, TOTP, HMAC and SHA-256, recovery attempts and enrolment.
- The step list, separation rules and aggregation of a policy beyond one boolean.
- JSON texts of `undefined` members and of numbers JSON cannot write, insignificant
  whitespace, and surrogate pairs written as escapes.
- UTF-8 encoding of archive names and the XML of the workbook sheets; the CSV header
  line is written without guarding, which its fixed column names do not need.
- Policies migrated from the older tables were not created under the guard
  (migrations/0025_approval_policy_delegation.sql:268-330): runs start from any table
  of them, and the theorems ask that the guard would have kept the active ones apart,
  which no policies at all satisfy. Policies are never updated or deleted.
- The bodies of stored replies: a reply names the row it is about.
- The filters of receipts and of cashbox handovers, which are SQL of their own: that
  of receipts compares the lists line by line and looks at no document types of a grant.
- SettlementStore.Store.Confirm: keeps the lines and effects of a batch inside its
  row; the tables they live in are not modelled as shared rows.
