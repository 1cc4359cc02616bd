# Verified model of the errand platform

A Dafny model of the hardest parts of the platform, with proofs of what they promise:

- **The Credit ledger**: a double-entry bank with wallets, one reservation and one terminal operation per
  order, and six audit checks. The movements are functions (`CreditLedger`), run in place by a class with a
  fault at every boundary (`CreditRepository`), and again statement by statement under row locks
  (`CreditConcurrency`). What every entry and every answer says is told from the ledger and its transactions
  (`CreditPostings`, `CreditAnswers`).
- **The Order/Credit saga**: Order's state machine, the whole lives of errands and the causes of every turn in
  them (`OrderTypes`, `OrderTransitions`, `OrderCauses`), reply handlers (`OrderHandlers`, `OrderService`), its
  reconciler, and Credit, joined by messages that may be lost, repeated, delayed and reordered without bound
  (`Saga`, `SagaTheorems`, `SagaReceipts`, `SagaConvergence`, `SagaRepair`), the same with Credit's statements
  interleaved (`SagaConcurrency`), and the race between a reservation reply and its requester's suspension
  (`SuspensionRace`).
- **The identity cache** (`IdentityCache`, `IdentityFreshness`, `IdentityServing`, `IdentityNames`,
  `IdentityClient`): a bounded cache with an index, single-flight lookups and invalidation.
- **Chat** (`ChatStorage`, `ChatConcurrency`, `ChatPaging`, `ChatRepository`, `ChatService`, `ChatAccess`,
  `ChatHistory`): numbered messages, idempotent sends, a sliding-window rate limit under two locks, paging, and
  who may open and send; and the **retention sweep** (`Retention`).
- **The in-memory broker** (`TopicMatching`, `BrokerQueues`, `BrokerRuns`, `BrokerContents`, `MemoryBroker`):
  topic matching, the account of every copy in every queue, and where every message goes.
- **The contract comparison** (`Compat`, `CompatValues`, `CompatFlat`, `CompatMeaning`, `CompatPlaces`,
  `CompatRequests`, `CompatLimits`, `CompatReport`): what a report and an empty one mean for readers and writers,
  when folding `allOf` loses something, and what the comparison lets through, with the condition under which
  that does harm.

`dafny verify dfyconfig.toml` checks everything.

## How the code is modelled

- A table is a map or a sequence; its primary and unique keys are map keys. A thrown error leaves the tables
  as they were. A column of type `integer` that would overflow, or a failed `CHECK`, is the error
  `ConstraintViolated`. A fresh random identifier is the next unused number.
- Row and advisory locks are ownership; a lock-wait timeout is a step that gives up. The clock is an integer
  that does not run backwards, in milliseconds for the cache and the sweep and in microseconds for chat. The
  identity cache reads it once per call.
- Everything ever sent may be delivered at any later time, any number of times, in any order; nothing is
  ever taken out of an outbox. Every message is one the handlers wrote.
- A reconciler's candidate may be any waiting errand, at any time: its waiting period, retry period and
  outbox filters only choose among these. The User Service's answers are arbitrary in the saga.
- Order's transition table and reconciliation decision are taken from
  `order-service/src/orders/order-state-machine.ts` and `order-service/src/orders/credit-status.client.ts`.
- Advisory locks on hashed sender identifiers are modelled as one lock per sender; two senders whose hashes
  meet only wait for one another more often.
- A broker queue also carries the account of its copies (how many arrived, which were acknowledged, which
  left by rejection or expiry); the code keeps no such record.
- Schema references are resolved beforehand. A comparison's report is a set: the order of its lines is not
  modelled.

## What the proofs found

- `agreementViolations` has no row for a disputed errand, so it reports every one of them, although Credit
  holds exactly the reservation, as it should (`SagaTheorems.AgreementViolations`).
- `creditEconomyViolations` runs five of the six checks; the ledger audit service adds the sixth.
- The check that `reserved` is backed by open reservations does not follow from the other five
  (`DoubleEntry.BackingIsIndependent`).
- The suspension race is closed by two design choices, and by both of them: without either there is a run
  that leaves an errand open (`SuspensionRace.SafeExactlyAsBuilt`).
- The identity cache is fresh over a set of user identifiers exactly when none of them ends in a colon and
  another, or nothing is kept (`IdentityNames.FreshExactly`). It keeps its bound exactly when that is at least
  one entry, or nothing is kept: a cache told to hold no entries holds one (`IdentityNames.BoundedExactly`).
- The identity cache's iteration order is not always the order of age: an answer renewed after it has expired, in
  a cache that is not full, keeps its place, and may then be dropped before an older one
  (`IdentityServing.PutAgesExactly`, `IdentityServing.YoungerGoesFirst`).
- A message is on some page exactly when its number is not the last one a column can hold
  (`ChatPaging.OnSomePageExactly`).
- Under interleaving a reservation can be denied after enough credit has come back. The credits were short at
  an earlier moment, and as reported at one no earlier (`CreditConcurrency.DenialsWereShort`).
- A sweep that asks only about channels opened before the cutoff misses exactly those to be deleted that were
  opened since (`Retention.CutoffMissesNone`).
- A requeued message goes behind the others its consumer holds, so the order of arrival survives a requeue
  exactly when it was the last delivered (`BrokerRuns.RequeueKeeps`).
- The comparison lets through a request's integer that becomes a string, a response's new enum value, a
  response that stops saying its type, and changes nested more than 25 deep. When that breaks a reader or a
  writer is stated exactly for the types and values of one level (`CompatMeaning.StaysReadableExactly`,
  `CompatRequests.StaysAcceptedExactly`) and for depth (`CompatLimits.NestedExactly`).
- Folding `allOf` drops a part's `enum`, its `items`, its type when one is known already, its
  `additionalProperties: false`, and the earlier of two declarations of one property; changes in these go
  unreported (`CompatLimits.PartListPasses`, `PartItemsPass`, `LaterTypePasses`, `PartClosedPasses`,
  `LaterDeclarationWins`). Read openly, it loses something exactly when the folded view does not narrow the
  schema, as long as something fits the view's required fields and its elements
  (`CompatFlat.FaithfulExactly`). It loses nothing of an object extended by another that declares other
  properties (`CompatLimits.ExtendedObjectIsFaithful`), the form every `allOf` of the platform's contracts has.

## Model

| member | source | states |
| --- | --- | --- |
| CreditRepository.CreditDatabase.IssueInitial | credit-service/src/credits/credit.repository.ts:131-159 | funds a wallet once, and leaves exactly the tables of the issue movement; a second activation changes nothing |
| CreditRepository.CreditDatabase.Reserve | credit-service/src/credits/credit.repository.ts:164-266 | a reservation, with an abort possible at every fault boundary, ends as the whole movement or as no change |
| CreditRepository.CreditDatabase.ReserveUnderTransaction | credit-service/src/credits/credit.repository.ts:164-266 | statement by statement the reservation leaves what the movement says, and raises exactly its errors |
| CreditRepository.CreditDatabase.FinishReservation | credit-service/src/credits/credit.repository.ts:839-883 | the pending operation becomes the decision and its one reply |
| CreditRepository.CreditDatabase.ReplayOrRejectConflict | credit-service/src/credits/credit.repository.ts:784-837 | a repeat answers the recorded decision; a different request for the order conflicts, with one alert |
| CreditRepository.CreditDatabase.Transfer | credit-service/src/credits/credit.repository.ts:268-380 | a transfer, with an abort possible at every fault boundary, ends as the whole movement or as no change |
| CreditRepository.CreditDatabase.TransferUnderTransaction | credit-service/src/credits/credit.repository.ts:268-380 | its branches raise exactly the movement's errors and leave exactly its tables |
| CreditRepository.CreditDatabase.FinishTransfer | credit-service/src/credits/credit.repository.ts:331-380 | transaction, two entries, final operation and reply are those of the payment |
| CreditRepository.CreditDatabase.ReplayTransferOrReject | credit-service/src/credits/credit.repository.ts:656-684 | a repeat answers the recorded transfer; anything else is refused |
| CreditRepository.CreditDatabase.RejectTerminal | credit-service/src/credits/credit.repository.ts:715-739 | a refusal records one alert and sends nothing |
| CreditRepository.CreditDatabase.Release | credit-service/src/credits/credit.repository.ts:382-460 | a release, with an abort possible at every fault boundary, ends as the whole movement or as no change |
| CreditRepository.CreditDatabase.ReleaseUnderTransaction | credit-service/src/credits/credit.repository.ts:382-460 | its branches raise exactly the movement's errors and leave exactly its tables |
| CreditRepository.CreditDatabase.FinishRelease | credit-service/src/credits/credit.repository.ts:418-460 | transaction, two entries, final operation and reply are those of the return |
| CreditRepository.CreditDatabase.ReplayReleaseOrReject | credit-service/src/credits/credit.repository.ts:686-713 | a repeat answers the recorded release; anything else is refused |
| CreditPreservation.IssueKeeps | credit-service/src/credits/credit.repository.ts:131-162 | issuing keeps the strengthened invariant that ties operations, transactions, ledger and open reservations |
| CreditPreservation.HoldKeeps | credit-service/src/credits/credit.repository.ts:193-266 | holding credit keeps the invariant: one more open reservation, as much more reserved |
| CreditPreservation.PayKeeps | credit-service/src/credits/credit.repository.ts:307-380 | paying keeps the invariant: nothing is created, and the reservation paid leaves the open ones |
| CreditPreservation.ReturnKeeps | credit-service/src/credits/credit.repository.ts:401-460 | returning keeps the invariant |
| CreditPreservation.ReservationIsBacked | credit-service/src/credits/credit.repository.ts:309-321 | in every reachable state the requester of an unsettled reservation holds at least its amount reserved |
| CreditPreservation.RunKeeps | credit-service/src/credits/invariants.ts:146-159 | any movements with any inputs keep the invariant |
| CreditPreservation.EveryRunIsClosed | credit-service/src/credits/invariants.ts:146-159 | from empty tables, after any movements with any inputs, repeated, conflicting or failing, no check has a violation |
| CreditInvariants.InvariantClosesEconomy | credit-service/src/credits/invariants.ts:15-143 | the inductive invariant implies all six checks |
| CreditInvariants.OutcomeCounts | credit-service/src/credits/invariants.ts:88-117 | a decided order has exactly one reservation and a settled one exactly one terminal transaction, and no other order has any |
| CreditPostings.EveryEntryTells | credit-service/src/credits/credit.repository.ts:193-460 | in every reachable state each transaction debits and credits the accounts its kind says, a transfer the courier its operation names; each entry of a user carries the wallet that the ledger's sums give that user once its transaction is posted, none exactly for the debits of an issue; and so do the balances of every recorded transfer and release |
| CreditAnswers.NewReservationDecided | credit-service/src/credits/credit.repository.ts:164-266 | a new reservation is held if and only if its amount may be reserved and the ledger leaves its requester that much; one refused for want of credit is told what the ledger leaves |
| CreditAnswers.TransferMoves | credit-service/src/credits/credit.repository.ts:307-380 | by the ledger's sums a first transfer takes the amount from what the requester has reserved, adds it to what the courier has left and moves nothing of anyone else's; a repeat moves nothing |
| CreditAnswers.ReleaseMoves | credit-service/src/credits/credit.repository.ts:401-460 | a first release moves the amount from the requester's reserved to available, and nothing else; a repeat moves nothing |
| CreditAnswers.TransferRefusedExactly | credit-service/src/credits/credit.repository.ts:615-739 | a decided order's transfer is refused for a reason if and only if the order's transactions give that reason, and leaves exactly one alert of that order, kind and reason |
| CreditAnswers.ReleaseRefusedExactly | credit-service/src/credits/credit.repository.ts:615-739 | the same for a release |
| CreditAnswers.AlertsAreRefusals | credit-service/src/credits/credit.repository.ts:715-739 | over any run the alerts are, in order, one for each conflicting reservation and each refused transfer or release, and none for anything else |
| CreditAnswers.StatusIsHistory | credit-service/src/credits/credit.repository.ts:472-530 | the status told of an order is its transactions: what settled it, that it is reserved, or nothing, and then whether it was ever decided |
| CreditAnswers.EveryWalletIssuedOnce | credit-service/src/credits/credit.repository.ts:131-162 | in every run each wallet was funded by exactly one issue and nobody else was issued anything |
| CreditAnswers.IssueMoves | credit-service/src/credits/credit.repository.ts:131-159 | by the ledger's sums a first issue gives its user the allocation and nobody else anything; another gives nothing |
| CreditChecks.WalletLedgerViolations | credit-service/src/credits/invariants.ts:15-41 | reports exactly the wallets that differ from their ledger sums |
| CreditChecks.BalanceViolations | credit-service/src/credits/invariants.ts:44-57 | reports exactly the wallets with a negative balance |
| CreditChecks.UnbalancedTransactionViolations | credit-service/src/credits/invariants.ts:59-74 | reports exactly the transactions whose debits differ from their credits |
| CreditChecks.ConservationViolations | credit-service/src/credits/invariants.ts:76-86 | reports exactly when credits held differ from credits issued |
| CreditChecks.OrderOutcomeViolations | credit-service/src/credits/invariants.ts:88-117 | reports exactly the orders with more than one reservation or terminal, or a terminal without a reservation |
| CreditChecks.ReservedBackingViolations | credit-service/src/credits/invariants.ts:119-143 | reports exactly the wallets whose reserved balance differs from their open reservations |
| CreditChecks.CreditEconomyViolations | credit-service/src/credits/invariants.ts:155-159 | the five checks it runs, together, and nothing in any reachable state |
| CreditChecks.ClosedExactly | credit-service/src/credits/invariants.ts:15-143 | the six checks together find nothing if and only if wallets are what the ledger sums to, never negative and reserving what open orders hold, transactions balance, credit held is credit issued, and no order is settled more often than reserved or reserved twice |
| CreditFinality.ReserveAnswerIsFinal | credit-service/src/credits/credit.repository.ts:784-837 | once decided, the same reservation request gets the same answer after any further run, changes no wallet, transaction, ledger or operation row, and sends the one reply again |
| CreditFinality.TransferAnswerIsFinal | credit-service/src/credits/credit.repository.ts:656-684 | the same for a transfer: its transaction and both balance snapshots, or its refusal |
| CreditFinality.ReleaseAnswerIsFinal | credit-service/src/credits/credit.repository.ts:686-713 | the same for a release |
| CreditFinality.StatusNeverMovesBack | credit-service/src/credits/credit.repository.ts:472-530 | no committed operation is pending, and the reported status of an order never moves backwards |
| CreditFinality.OneTerminalPerOrder | credit-service/src/db/schema.ts:175-178 | after a transfer every later release of the order is refused, and after a release every later transfer |
| CreditFinality.TwoWalletsFit | credit-service/src/credits/invariants.ts:76-86 | two wallets never hold more than was issued, so no balance overflows while less was issued than a column holds |
| CreditFinality.ReserveFailsOnlyUnready | credit-service/src/credits/credit.repository.ts:164-214 | in every reachable state a reservation throws WalletNotReady if and only if it is new, admissible and its requester's wallet is missing, ConstraintViolated if and only if its amount cannot be stored or the wallet's `reserved` would overflow, and nothing else; an overflow needs more credit issued than a column holds |
| CreditFinality.TransferFailsOnlyUnready | credit-service/src/credits/credit.repository.ts:268-328 | in every reachable state a transfer throws if and only if its reservation is missing, the courier's wallet is missing, or the courier's `available` would overflow, which needs more credit issued than a column holds; "not backed by reserved credit" is never raised |
| CreditFinality.ReleaseFailsOnlyUnready | credit-service/src/credits/credit.repository.ts:382-417 | in every reachable state a release throws if and only if its reservation is missing or the requester's `available` would overflow, which needs more credit issued than a column holds |
| DoubleEntry.DoubleEntryConserves | credit-service/src/credits/invariants.ts:15-86 | for any ledger, balanced transactions, matching wallets and ISSUE debits as the only entries without a wallet imply that credits held equal credits issued |
| DoubleEntry.GroupedByTransaction | credit-service/src/credits/invariants.ts:59-74 | the signed total of a ledger is the sum of its transactions' nets |
| DoubleEntry.GroupedByWallet | credit-service/src/credits/invariants.ts:15-41 | it is also the sum over wallets and accounts plus the entries that have none |
| DoubleEntry.BackingIsIndependent | credit-service/src/credits/invariants.ts:119-143 | tables on which the backing check alone reports, and reports one wallet |
| CreditConcurrency.CommitIsSerial | credit-service/src/credits/credit.repository.ts:164-460 | what a transaction commits from values it read statement by statement is what its whole movement does at that moment, or, of a reservation only, its denial for credits found short by its earlier unlocked reads |
| CreditConcurrency.CurrentSurvives | credit-service/src/credits/credit.repository.ts:599-654 | what a transaction has read stays true while others commit, by the rows it holds |
| CreditConcurrency.EveryRunIsSerial | credit-service/src/credits/credit.repository.ts:164-460 | every interleaving of statements leaves the tables of its committed movements run one after another, where a reservation may be denied late, for credits it found short at an earlier moment |
| CreditConcurrency.WaitsUpwards | credit-service/src/credits/credit.repository.ts:268-328 | a transaction waits only for a row above all it holds: its order's rows first, then wallets by user |
| CreditConcurrency.NoDeadlock | credit-service/src/credits/credit.repository.ts:268-328 | no ring of transactions each waiting for the next, in any reachable state |
| CreditConcurrency.EveryInterleaving | credit-service/src/credits/credit.repository.ts:164-460 | from empty tables, for every interleaving: serial but for late denials, the six checks empty, and no deadlock |
| CreditConcurrency.DenialsWereShort | credit-service/src/credits/credit.repository.ts:194-214 | in every interleaving, when a reservation is denied for want of credits: they were short at an earlier moment of the run, and at one no earlier they were what the denial reports |
| CreditConcurrency.EveryEntryTells | credit-service/src/credits/credit.repository.ts:193-460 | in every interleaving, too, every entry and recorded result tells the wallets as the ledger's sums up to its transaction give them |
| OrderService.OrderDatabase.Transition | order-service/src/orders/orders.repository.ts:1040-1135 | under the row lock, exactly what the transition table decides, with the request it emits |
| OrderService.OrderDatabase.HandleReservationResult | order-service/src/reservation-results.consumer.ts:61-115 | opens, rejects or cancels the errand, or ignores a repeat or a stale reply, as the handler's rule says |
| OrderService.OrderDatabase.HandleTransfer | order-service/src/credit-terminal-results.consumer.ts:114-167 | completes the errand once and writes its receipt; exact duplicates change nothing; a mismatch is set aside |
| OrderService.OrderDatabase.HandleRelease | order-service/src/credit-terminal-results.consumer.ts:65-112 | cancels or expires the errand once; exact duplicates change nothing; a mismatch is set aside |
| OrderService.OrderDatabase.Record | order-service/src/orders/orders.repository.ts:576-648 | a decision is recorded only for the version it was made about |
| OrderService.OrderDatabase.RunReconciler | order-service/src/orders/credit-reconciler.ts:84-155 | the loop leaves the tables of recording each attempt in turn, and its counters are what those attempts came to |
| OrderService.OrderDatabase.LockActiveErrandsOf | order-service/src/orders/orders.repository.ts:893-908 | exactly the errands a suspension can change, in identifier order |
| OrderService.OrderDatabase.SuspendAll | order-service/src/user-suspensions.consumer.ts:64-88 | the loop leaves the tables of suspending each locked errand in turn, marks exactly those to be asked about again and counts those that changed |
| OrderService.OrderDatabase.HandleUserSuspended | order-service/src/user-suspensions.consumer.ts:60-98 | afterwards each errand is as the suspension is to leave it: the user's own open and accepted ones called off and their rewards asked back, their late picked-up ones disputed and the others marked; those they run for others open again without a courier, or disputed if picked up; and nothing else changed, sent, marked or counted |
| OrderService.RequesterHasNothingOpen | order-service/src/orders/order-state-machine.ts:35-52 | the transition table's effect of a suspension on every status |
| OrderService.SuspensionIsRight | order-service/src/orders/order-state-machine.ts:35-55 | a suspension leaves every errand, of requester, courier or neither and of any status, column by column as it is to |
| OrderService.SuspensionLasts | order-service/src/user-suspensions.consumer.ts:60-98 | once handled, the suspended user is on the way with nothing and offers nothing, and over any run it stays so until they take an errand, or one is funded for a requester in good standing |
| OrderService.ReconcileIs | order-service/src/orders/credit-reconciler.ts:84-155 | a run of the reconciler moves no errand, sends again in order the last request of exactly the current candidates whose record may be met, alerts exactly those whose record may not, and counts each outcome |
| OrderTransitions.CreditMovesExactlyWhatWaits | order-service/README.md:26-58 | nothing leaves a final status, and Credit moves exactly the errands that wait for it |
| OrderTransitions.RequestsMatchWaiting | order-service/README.md:26 | a request to Credit is sent exactly on coming to wait for it, and it is the one waited for |
| OrderTransitions.AskedOnce | order-service/src/orders/orders.repository.ts:1040-1135 | in every run of postings, acceptances and commands, whoever gives them: the requests ever sent about an errand are its reservation and then at most one settlement, a completion to the courier it names or a release, as its status says; a release ended as the reason recorded |
| OrderTransitions.ComesExactlyTo | order-service/src/orders/order-state-machine.ts:102-311 | from every reachable state some commands bring an errand to a status if and only if that is still ahead of it: after pickup it never opens again or expires, it can always be settled, and settled it never changes in any column |
| OrderTransitions.RecursExactly | order-service/README.md:28-58 | an errand can come to a status any number of times if and only if it is OPEN, ACCEPTED or DISPUTED, and to any other, such as PICKED_UP, at most once in any run |
| OrderCauses.EntersExactly | order-service/README.md:28-58 | in any reachable state a step brings an errand to a status if and only if it is one of the documented causes of that status, told by the person or timer that acts and by what the errand then is |
| OrderCauses.WritesExactly | order-service/src/orders/orders.repository.ts:1040-1135 | without a cause a step writes nothing of an errand, and with one a new version and exactly the courier, reason and reservation mark that go with it |
| OrderCauses.SendsExactly | order-service/src/orders/orders.repository.ts:1125-1132 | each step asks Credit for exactly what it causes, and leaves every other errand alone |
| OrderCauses.PaidExactly | order-service/src/orders/order-state-machine.ts:232-257 | in any run Credit is asked to pay for an errand if and only if its requester or the timer confirms its delivery, or an administrator without a part in it awards it with a reason; and then to pay the courier it names |
| OrderCauses.DisputedExactly | order-service/src/orders/order-state-machine.ts:206-245 | in any run an errand becomes disputed if and only if, delivered, its requester reports it in time, or, picked up, its requester reports it late, its courier is suspended, or its delivery period ends with the requester suspended |
| OrderCauses.DecidedByArbiter | order-service/README.md:28-58 | a disputed errand stays so until an administrator without a part in it decides it with a reason, for the courier or the requester |
| OrderCauses.AbandonedExactly | order-service/README.md:28-58 | a withdrawal or pickup timeout takes the courier off: before the acceptance deadline the errand is open again, after it the reward is asked back and the errand ends, in any run, as expired if at all |
| OrderCauses.WhyItIsSo | order-service/README.md:28-58 | whatever status an errand has after any run, a documented cause of it brought it there at some step, and nothing has moved it since |
| OrderCauses.VersionCounts | order-service/src/orders/orders.repository.ts:1040-1135 | an errand's version is the number of steps that changed it, and its requester and reward are those posted |
| Saga.MoveAdvances | order-service/src/orders/order-state-machine.ts:102-311 | every transition of a person or a timer leads from a state that agrees with Credit to another |
| Saga.ReplyMoves | order-service/src/reservation-results.consumer.ts:61-155 | every genuine reply, however old, leads the errand it names to a state that agrees with Credit, or changes nothing |
| Saga.ReplyIsQuiet | order-service/src/credit-terminal-results.consumer.ts:65-167 | no reply is ever set aside for an operator, however late or often it comes |
| Saga.RequestServed | credit-service/src/credits/credit.repository.ts:164-460 | every genuine request, however old, leaves Credit in agreement with its errand |
| Saga.LateDenialKeeps | credit-service/src/credits/credit.repository.ts:194-214 | a reservation denied late, for credits seen short a moment ago, leaves the two services in agreement too |
| Saga.RecordIsQuiet | order-service/src/orders/credit-reconciler.ts:103-126 | a decision recorded for an unchanged version is never a CREDIT_STATE_CONFLICT alert, though Credit was read unlocked |
| Saga.StepKeeps | system-tests/src/bus.ts:9-64 | every step of the two services, with messages dropped, repeated and reordered, keeps the saga's invariant |
| Saga.RunKeeps | system-tests/src/bus.ts:9-64 | so does every run |
| SagaTheorems.EveryRunAgrees | system-tests/src/invariants.ts:15-27 | in every reachable state Credit's transactions for an errand are one of those the table allows for its status; the table lacks exactly the disputed errands, which hold their reservation |
| SagaTheorems.KindsFromRows | system-tests/src/invariants.ts:33-44 | Credit's transactions for an errand, read off its two operation rows |
| SagaTheorems.AgreementViolations | system-tests/src/invariants.ts:33-51 | reports exactly the disagreements, which in a reachable state are exactly the disputed errands |
| SagaTheorems.DecisionFollowsTable | order-service/src/orders/credit-status.client.ts:72-82 | the reconciler asks again if and only if the agreement table allows what Credit answers, and alerts otherwise |
| SagaTheorems.AnswersItsTransactions | credit-service/src/credits/credit.repository.ts:472-530 | what Credit answers about an order stands for the transactions it has recorded |
| SagaTheorems.NoFalseAlarm | order-service/src/credit-terminal-results.consumer.ts:65-167 | in every run nothing is alerted or set aside, no terminal request is refused, no reservation conflicts and no movement lacks its reserved credit; a movement fails only for a missing wallet, or for a column's overflow once more credit was issued than a column holds |
| SagaTheorems.CompletionWelcome | credit-service/src/credits/credit.repository.ts:268-380 | a completion request ever sent pays, waits for the courier's wallet, or overflows a column, which needs more credit issued than one holds |
| SagaTheorems.ReleaseWelcome | credit-service/src/credits/credit.repository.ts:382-460 | a release request ever sent returns the credit, or overflows a column, which needs more credit issued than one holds |
| SagaReceipts.ReceiptsAreFinal | order-service/src/orders/orders.repository.ts:1137-1158 | in every reachable state an errand has a receipt if and only if it is completed; the receipt names the errand's transaction, which is Credit's one transfer of that order and reward; and no run changes it |
| SagaReceipts.ReceiptsAmongInterleavings | order-service/src/orders/orders.repository.ts:1137-1158 | the same however Credit's statements interleave |
| SagaReceipts.ReplyMeetsItsFate | order-service/src/reservation-results.consumer.ts:61-155 | any reply, genuine or not, is taken if awaited, passed over if taken before, late if the errand has moved on since, and set aside otherwise; only one that is taken changes anything |
| SagaReceipts.TakenReplyWrites | order-service/src/credit-terminal-results.consumer.ts:65-167 | what a taken reply writes of its errand, sends and keeps as receipt, and nothing of any other |
| SagaReceipts.RepliesOnce | order-service/src/credit-terminal-results.consumer.ts:65-167 | handling a reply again changes nothing more, and one once taken is never set aside |
| SagaConvergence.DecidesToReissue | order-service/src/orders/credit-status.client.ts:72-82 | for a waiting errand of a reachable state the decision is always to send its request again |
| SagaConvergence.RoundProgresses | order-service/src/orders/credit-reconciler.ts:84-155 | once the participants have wallets and while no more credit was issued than a column holds, one round of reading, deciding, re-issuing and delivering brings any waiting errand strictly closer to rest |
| SagaConvergence.Converges | order-service/src/orders/credit-reconciler.ts:84-155 | from any reachable state, once the participants have wallets and while no more credit was issued than a column holds, at most five steps for each remaining transition leave no errand waiting and no credit moved twice |
| SagaRepair.QuietOnward | order-service/src/orders/credit-reconciler.ts:84-155 | no delivery of any message, however old or repeated, and no read or re-issue of a reconciler takes any errand further from rest |
| SagaRepair.NextStepHelps | order-service/src/orders/credit-reconciler.ts:84-155 | once the participants have wallets and while no more credit was issued than a column holds, the next step of a waiting errand's round always brings it strictly closer |
| SagaRepair.DisorderConverges | order-service/src/orders/credit-reconciler.ts:84-155 | from any reachable state, once the participants have wallets and while no more credit was issued than a column holds, in any run in which nobody commands anything, with deliveries repeated and mixed in any order: errands at rest stay as they are, a step that helps can always be taken while an errand waits, at most five for each remaining transition can be, and once they have been nothing waits and the services agree |
| SagaConcurrency.CommitMatches | credit-service/src/credits/credit.repository.ts:164-460 | what a transaction commits is one whole movement of the message it carries, or its late denial |
| SagaConcurrency.EveryInterleavingIsARun | credit-service/src/credits/credit.repository.ts:164-460 | with Credit's transactions interleaved statement by statement, any number carrying one message, the tables and messages are those of some run of whole movements |
| SagaConcurrency.EveryInterleavingAgrees | system-tests/src/invariants.ts:15-51 | so in every such interleaving the services agree about every errand, nothing is alerted or set aside, the six checks find nothing and there is no deadlock |
| SuspensionRace.StepKeeps | order-service/src/user-suspensions.consumer.ts:60-88 | the race's invariant over every statement of the reply, the suspension and everyone else |
| SuspensionRace.FollowsTheService | order-service/src/user-suspensions.consumer.ts:60-88 | of a requester's errands the race locks those the service locks and leaves each as the service does |
| SuspensionRace.SafeExactlyAsBuilt | order-service/src/reservation-results.consumer.ts:66-75 | of the designs that lock waiting errands or not, and ask before locking or after, exactly the one built leaves nothing of a suspended requester open or accepted |
| SuspensionRace.UnsafeRun | order-service/src/reservation-results.consumer.ts:66-75 | for each other design, a run that does |
| IdentityCache.GroupsAreScans | auth-client/src/identity-client.ts:44-47 | the index is a grouping exactly when each user's keys are those a scan of the cache finds and no group is empty |
| IdentityCache.RememberIndexes | auth-client/src/identity-client.ts:134-148 | an answer remembered keeps the index exactly when no other user's entry survives under its key |
| IdentityCache.EvictMakesRoom | auth-client/src/identity-client.ts:136-142 | eviction removes whole entries only and makes room |
| IdentityCache.InvalidateScans | auth-client/src/identity-client.ts:97-101 | dropping a user through the index equals scanning the whole cache |
| IdentityServing.RememberLosesExactly | auth-client/src/identity-client.ts:134-148 | a remembered answer is there to be served, and costs another entry if and only if the cache is full and that entry has expired, or as many as it may hold are live and it is the first of them |
| IdentityServing.RememberLosesOne | auth-client/src/identity-client.ts:136-142 | it costs at most one live entry |
| IdentityServing.PutAgesExactly | auth-client/src/identity-client.ts:138-145 | an order of age stays one if and only if the key was not there or nothing after it expires sooner |
| IdentityServing.YoungerGoesFirst | auth-client/src/identity-client.ts:138-142 | an answer renewed in place dropped before an older one |
| IdentityClient.Client.Introspect | auth-client/src/identity-client.ts:66-91 | answers from an unexpired entry, joins the lookup in flight, or starts the one it records |
| IdentityClient.Client.Then | auth-client/src/identity-client.ts:79-84 | caches an answer only while its lookup is the current one |
| IdentityClient.Client.Finally | auth-client/src/identity-client.ts:85-87 | ends only the current lookup |
| IdentityClient.Client.InvalidateUser | auth-client/src/identity-client.ts:97-105 | leaves exactly the cache without the user's entries and lookups |
| IdentityClient.Client.Remember | auth-client/src/identity-client.ts:134-148 | stores the answer after making room, and indexes it |
| IdentityClient.Client.MakeRoom | auth-client/src/identity-client.ts:136-142 | drops the expired entries, and then the first in order if it is still full, and no other |
| IdentityClient.Client.Forget | auth-client/src/identity-client.ts:150-157 | removes one entry from the order, the cache and the index |
| IdentityFreshness.FreshAfterInvalidation | auth-client/src/identity-client.ts:66-105 | over all interleavings, for users none of whose names ends in a colon and another's, a question asked after a user was invalidated is answered by a lookup that began after that |
| IdentityFreshness.CachedAnswersAreRecent | auth-client/src/identity-client.ts:68-91 | for any names, a cached answer is what a lookup of that key answered less than the time to live ago, never a failure |
| IdentityServing.ServedFromCache | auth-client/src/identity-client.ts:66-91 | over all runs an answer a current lookup gave less than the time to live ago, for a user not invalidated since, is what is served, while no more keys were ever asked for than the cache may hold |
| IdentityServing.LookupIsShared | auth-client/src/identity-client.ts:72-90 | over all runs everyone who asks under a key shares its lookup in flight, until it is over or a user the key ends with is invalidated |
| IdentityServing.FinishedIsNotJoined | auth-client/src/identity-client.ts:85-87 | once a lookup is over nobody joins it |
| IdentityFreshness.SharedKeyEndsOne | auth-client/src/identity-client.ts:66-69 | two users share a key, under some sessions, only if one's name ends in a colon and the other's |
| IdentityNames.FreshExactly | auth-client/src/identity-client.ts:66-105 | over all runs with these names a question after an invalidation is answered afresh if and only if nothing is kept or no name ends in a colon and another |
| IdentityNames.OwnExactly | auth-client/src/identity-client.ts:66-91 | every answer is a lookup's for that very user if and only if no name ends in a colon and another |
| IdentityNames.IndexedExactly | auth-client/src/identity-client.ts:134-157 | the index groups the cache in every run if and only if nothing is kept, or at most one entry, or no name ends in a colon and another |
| IdentityNames.BoundedExactly | auth-client/src/identity-client.ts:134-148 | the cache never exceeds `maxCacheEntries` in any run if and only if that is at least one, or nothing is kept and it is zero |
| IdentityNames.StaleStory | auth-client/src/identity-client.ts:97-105 | for every such pair of names, a run in which the invalidated user is answered with the other's entry |
| ChatStorage.RunKeeps | chat-service/src/chat/chat.repository.ts:147-176 | over any run, messages are numbered exactly 1 to latest_seq, stored once per client identifier, and no minute holds more than twenty of one sender's |
| ChatStorage.AdmittedKeepsRate | chat-service/src/chat/chat.repository.ts:185-195 | one more message, counted before it is stamped, keeps every sixty-second window within the limit |
| ChatStorage.ResendAnswersTheStored | chat-service/src/chat/chat.repository.ts:154-164 | a repeated send answers the first message after any run that keeps the channel, even over the limit, and stores nothing |
| ChatStorage.RetryAfterIsLeast | chat-service/src/chat/chat.repository.ts:177-195 | the seconds told are the least whole number, at least one and at most sixty, after which a send is admitted if the sender stores nothing meanwhile |
| ChatRepository.Repository.Open | chat-service/src/chat/chat.repository.ts:79-84 | opens the channel or finds the one there is |
| ChatRepository.Repository.FindSent | chat-service/src/chat/chat.repository.ts:111-123 | the one message stored under a client identifier |
| ChatRepository.Repository.RetryAfter | chat-service/src/chat/chat.repository.ts:185-195 | nothing under the limit, and otherwise the wait for the oldest recent message |
| ChatRepository.Repository.Send | chat-service/src/chat/chat.repository.ts:133-176 | leaves and answers exactly what the send says, and keeps the invariant |
| ChatRepository.Repository.MarkRead | chat-service/src/chat/chat.repository.ts:198-207 | moves a read position forward, never back |
| ChatRepository.Repository.DeleteChannel | chat-service/src/chat/chat.repository.ts:245-248 | the channel goes with its messages and read positions, and nothing else |
| ChatConcurrency.LastStatementIsSerial | chat-service/src/chat/chat.repository.ts:147-176 | a send's last statement does and answers what the whole send would, run alone at that moment |
| ChatConcurrency.CommitSpares | chat-service/src/chat/chat.repository.ts:125-132 | a commit by another sender on another channel changes nothing a send has read under its locks |
| ChatConcurrency.EveryInterleavingIsSerial | chat-service/src/chat/chat.repository.ts:133-176 | however statements interleave, what is stored is what whole sends run one at a time store |
| ChatConcurrency.EveryRefusalIsLeast | chat-service/src/chat/chat.repository.ts:177-195 | in every interleaving a refused sender is told the least wait |
| ChatConcurrency.SomeSendGoesOn | chat-service/src/chat/chat.repository.ts:125-132 | sends never all wait for one another: one of them can always go on |
| ChatPaging.PageIsConsecutive | chat-service/src/chat/chat.repository.ts:98-109 | a page is the first numbers above `after` or the last below `before`, without a gap, and hasMore says whether there are more |
| ChatPaging.ForwardVisitsAll | chat-service/src/chat/chat.repository.ts:94-109 | walking with `after` visits every number once and in order while the channel grows, and all of them when hasMore ends it |
| ChatPaging.BackVisitsAll | chat-service/src/chat/chat.repository.ts:94-109 | walking with `before` visits every number down to the first once each |
| ChatPaging.VisitsAllExactly | chat-service/src/chat/chat.repository.ts:94-109 | a walk can visit every message of a channel if and only if the last number a column can hold is unused |
| ChatPaging.OnSomePageExactly | chat-service/src/chat/chat.repository.ts:98-106 | a message is on some page that may be asked for if and only if its number is below MAX_SEQ |
| ChatService.AdmittedExactly | chat-service/src/chat/chat.service.ts:133-156 | who is admitted: if and only if, in terms of the errand, the caller and the channel |
| ChatService.GrantIs | chat-service/src/chat/chat.service.ts:133-156 | what is granted: the caller's own part in the errand, whether it is open, and how far its channel goes |
| ChatService.RefusedExactly | chat-service/src/chat/chat.service.ts:133-156 | who is told they are no participant, and who that there is nothing |
| ChatService.ParticipantsExactly | chat-service/src/chat/chat.service.ts:119-124 | sending and marking are for the requester and the courier alone |
| ChatService.OpenedOnlyByParticipants | chat-service/src/chat/chat.service.ts:151-154 | only a participant's request opens a channel, on an errand with a courier that has not ended |
| ChatService.StrangersLearnNothing | chat-service/src/chat/chat.service.ts:145-150 | a stranger's answer about a hidden errand is that of an unknown one |
| ChatService.ResendSurvivesClosing | chat-service/src/chat/chat.service.ts:77-107 | a participant's repeated send answers the stored message after closing or over the limit, and a different body is refused |
| ChatService.StoredOnlyWhileOpen | chat-service/src/chat/chat.service.ts:82-107 | a message is stored only for a participant of an open errand under the limit, and the storage keeps its invariant |
| ChatService.Service.Access | chat-service/src/chat/chat.service.ts:133-156 | decides and opens exactly as the rule says |
| ChatService.Service.Send | chat-service/src/chat/chat.service.ts:82-107 | answers and stores exactly as the rule says |
| ChatService.Service.MarkRead | chat-service/src/chat/chat.service.ts:109-117 | answers and marks exactly as the rule says: never past the latest message and never back |
| ChatAccess.AloneIsTheSame | chat-service/src/chat/chat.service.ts:82-107 | a send between whose statements nobody acts is the send run as one |
| ChatAccess.AloneMarksTheSame | chat-service/src/chat/chat.service.ts:109-117 | a marking between whose statements nobody acts is the marking run as one |
| ChatAccess.StoredOnlyWhenAdmitted | chat-service/src/chat/chat.service.ts:82-107 | whatever others do between its statements, a send stores only for a participant of the open errand it asked about, in tables without a message under its identifier and with its sender under the limit |
| ChatAccess.ResendAmongOthers | chat-service/src/chat/chat.service.ts:77-107 | whatever others do in between, short of deleting the channel, a repeated send answers the stored message and stores nothing |
| ChatAccess.MarkedAmongOthers | chat-service/src/chat/chat.service.ts:109-117 | whatever others do in between, short of deleting the channel, a position is marked never past the latest message and never back |
| ChatHistory.StoredAsAsked | chat-service/src/chat/chat.repository.ts:133-176 | the send that stored a message stored its text, sender, client identifier and stamp as the next number of its channel, and nothing else |
| ChatHistory.SentThenRepeated | chat-service/src/chat/chat.service.ts:77-107 | sent again at any later time, short of the channel's deletion, a message is told as first stored if the text is the same and refused if it is not |
| ChatHistory.SendStoresExactly | chat-service/src/chat/chat.service.ts:82-107 | a send stores if and only if its sender takes part in an ongoing errand, has not sent it before, stored fewer than twenty in the last minute and numbers are left; over twenty it is told to wait |
| ChatHistory.MarkCountsExactly | chat-service/src/chat/chat.service.ts:109-117 | a position is marked if and only if the caller takes part, there is a channel to read and the number is not past its latest |
| ChatHistory.PositionIsFurthest | chat-service/src/chat/chat.repository.ts:198-207 | over any run that keeps the channel a reader's position is the furthest they have marked |
| ChatHistory.OpenedWhenItSays | chat-service/src/chat/chat.repository.ts:79-84 | a channel's time of opening is that of the request that opened it |
| ChatHistory.DeletedLeavesNothing | chat-service/src/chat/chat.repository.ts:245-248 | a channel deleted leaves no message and no position |
| Retention.Cleanup.ChannelsOpenedBefore | chat-service/src/chat/chat.repository.ts:229-243 | the first candidates beyond `after`, in order, leaving one out only past the limit |
| Retention.Cleanup.EachAtMost | chat-service/src/chat/retention.ts:50-64 | every item is tried once, by at most `limit` workers in any interleaving, and a failure stops nothing else |
| Retention.Cleanup.Settle | chat-service/src/chat/retention.ts:165-182 | acts on one answer and counts it; a delete that fails counts as nothing |
| Retention.Cleanup.Sweep | chat-service/src/chat/retention.ts:145-163 | ends though rows vanish between pages, having settled each candidate exactly once, or, when a delete failed, all those before some point and none after |
| Retention.SweepIsTheSimpleOne | chat-service/src/chat/retention.ts:145-182 | without failures, for channels opened no later than their errands ended, it deletes exactly what asking about every channel would, and its four counts add up to the candidates |
| Retention.DeletesExactlyTheOld | chat-service/src/chat/retention.ts:165-182 | without failures a sweep deletes exactly the channels of errands that ended more than the retention days ago, and keeps those unknown, unanswered or more recent |
| Retention.TallyCounts | chat-service/src/chat/retention.ts:34-43 | each count is how many channels got that answer, whatever the order |
| Retention.CutoffMissesNone | chat-service/src/chat/chat.repository.ts:229-243 | asking only about channels opened before the cutoff equals asking about all if and only if none to be deleted was opened since |
| TopicMatching.MatchIsDivision | test-harness/src/memory-broker.ts:50-58 | the matcher accepts exactly the keys whose words divide into one for `*`, any number for `#` and the word itself otherwise, as section 3.1.3.3 of AMQP 0-9-1 says |
| TopicMatching.WordsAreUnique | test-harness/src/memory-broker.ts:57 | splitting at dots undoes joining with dots |
| TopicMatching.SplitParts | test-harness/src/memory-broker.ts:57 | joining undoes splitting, and no word holds a dot |
| BrokerQueues.DepthIsBalance | test-harness/src/memory-broker.ts:310-313 | a queue's depth is what arrived less what was acknowledged and what left by rejection or expiry |
| BrokerRuns.EveryRunConserves | test-harness/src/memory-broker.ts:96-190 | in every run each copy put in a queue is held once, or acknowledged, or gone, and in one of these only; tags are unique; without a requeue copies keep the order of arrival |
| BrokerRuns.RequeueKeeps | test-harness/src/memory-broker.ts:181-183 | a requeue keeps the account, and the order of arrival if and only if the copy was the last delivered |
| BrokerRuns.TagIsUnique | test-harness/src/memory-broker.ts:175-190 | at most one delivery of one queue answers to a tag |
| BrokerRuns.CloseKeeps | test-harness/src/memory-broker.ts:276-289 | closing a channel returns what it held to its place, keeping the account and the order |
| BrokerRuns.DrainedHands | test-harness/src/memory-broker.ts:130-150 | a consumer is handed everything waiting, oldest first, under rising tags |
| BrokerRuns.TopicReaches | test-harness/src/memory-broker.ts:81-114 | a message published to a topic exchange reaches exactly the queues with a binding its key divides into, one copy each, and changes no other account |
| BrokerContents.SentReaches | test-harness/src/memory-broker.ts:81-128 | what is sent reaches exactly the queues that receive it, by key, by any binding, by the same key or by words, as the last message there with its body, key and deaths, and changes no other queue |
| BrokerContents.BoundReceives | test-harness/src/memory-broker.ts:220-229 | binding lets a queue receive, besides what it did, exactly what the exchange's kind lets the pattern take |
| BrokerContents.DeclaredReceives | test-harness/src/memory-broker.ts:193-208 | a new exchange gives nothing to anyone and a new queue is empty; declaring what there is changes nothing |
| BrokerContents.DeadReaches | test-harness/src/memory-broker.ts:152-173 | a dead message goes to exactly the queues that receive it from the dead-letter exchange, with its body, one death more and the queue's key or its own; without one, or when it is missing, nowhere |
| BrokerContents.AcknowledgedLeaves | test-harness/src/memory-broker.ts:175-190 | acknowledged, a message leaves its queue, and nothing else changes |
| BrokerContents.RequeuedLeaves | test-harness/src/memory-broker.ts:175-190 | requeued, it comes last of what its consumer holds, marked as redelivered, and nothing else changes |
| BrokerContents.RejectedGoes | test-harness/src/memory-broker.ts:175-190 | rejected, it leaves its queue and goes where dead messages go |
| BrokerContents.ExpiredGoes | test-harness/src/memory-broker.ts:118-126 | expired, so does one that waits and was never delivered |
| BrokerContents.ExpiresNothingElse | test-harness/src/memory-broker.ts:118-126 | and no other does |
| BrokerContents.ClosedLeaves | test-harness/src/memory-broker.ts:276-289 | what a closed channel held waits again, first and in order, marked as redelivered |
| BrokerContents.ConsumedLeaves | test-harness/src/memory-broker.ts:233-240 | a consumer is handed all that waited, and nothing else changes |
| MemoryBroker.Memory.Publish | test-harness/src/memory-broker.ts:241-267 | one copy to each queue routed to, or nothing when the exchange is unknown |
| MemoryBroker.Memory.Send | test-harness/src/memory-broker.ts:96-114 | one copy to each distinct queue, in order |
| MemoryBroker.Memory.Enqueue | test-harness/src/memory-broker.ts:116-128 | the copy waits last, and is handed on if there is a consumer |
| MemoryBroker.Memory.Dispatch | test-harness/src/memory-broker.ts:130-150 | the loop hands on everything waiting |
| MemoryBroker.Memory.DeadLetter | test-harness/src/memory-broker.ts:152-173 | goes to the dead-letter exchange with one more death, is dropped without one, and is lost when it is missing |
| MemoryBroker.Memory.Settle | test-harness/src/memory-broker.ts:175-190 | settles the one delivery of this channel under the tag, or nothing |
| MemoryBroker.Memory.OnTimer | test-harness/src/memory-broker.ts:118-126 | expires the message only while it waits and was never delivered |
| MemoryBroker.Memory.Consume | test-harness/src/memory-broker.ts:233-240 | the channel consumes, and is handed everything waiting |
| MemoryBroker.Memory.CloseChannel | test-harness/src/memory-broker.ts:276-289 | every queue the channel consumed gets back what was unsettled |
| MemoryBroker.Memory.BindQueue | test-harness/src/memory-broker.ts:220-229 | adds a binding once, of a queue and an exchange there are |
| CompatMeaning.ResponsesStayReadable | test-harness/src/compat.ts:53-140 | when comparing two versions of a response reports nothing, what it leaves unchecked stays readable at every level, and folding the old one's `allOf` loses nothing, a reader of the old accepts every value the new writes, in the sense of sections 6.1.1 and 6.5.3 of JSON Schema Validation 2020-12; enums included |
| CompatMeaning.StaysReadableExactly | test-harness/src/compat.ts:70-91 | of a level of a response not reported, the old lets through every type and value the new does if and only if what the comparison does not check stays readable: a type no longer said, and a list of values that grew or went |
| CompatMeaning.SelfComparison | test-harness/src/compat.ts:53-140 | a schema compared with itself reports nothing if and only if it is a request's or every required name, as deep as compared, is declared |
| CompatFlat.AllLevelsWeaken | test-harness/src/compat.ts:35-51 | the flattened view of `allOf` never asks for more than the schema, at any level |
| CompatFlat.AllLevelsKeep | test-harness/src/compat.ts:35-51 | and no less when it narrows the schema: when what each part says of types, values, required names, properties and items, the view says already |
| CompatFlat.NarrowsExactly | test-harness/src/compat.ts:35-51 | one schema narrows another if and only if the other accepts every value the one does, for any parts in the other, when the one has none and something fits its required fields and its elements |
| CompatFlat.FaithfulExactly | test-harness/src/compat.ts:35-51 | the flattened view accepts exactly what the schema does, if and only if it narrows the schema, for any parts in parts, properties and items, when something fits the view's required fields and its elements |
| CompatFlat.StrictlyKeeps | test-harness/src/compat.ts:35-51 | what the view accepts strictly the schema accepts, openly or strictly, if nothing is lost in that reading |
| CompatMeaning.CleanIs | test-harness/src/compat.ts:65-140 | nothing is reported if and only if the types are allowed and nothing is said of the names, the shared fields and the items |
| CompatMeaning.CleanIsOnlyAdding | test-harness/src/compat.ts:4-16 | nothing is reported if and only if the new version only adds to the old: nothing a reader relies on is taken away, nothing more is asked of a writer, at every level compared |
| CompatPlaces.ReportsExactly | test-harness/src/compat.ts:53-140 | a finding is reported if and only if what it says is so of the two versions at the place it names, within the depth compared and with no change of type above it |
| CompatRequests.RequestsStayAccepted | test-harness/src/compat.ts:53-140 | when comparing two versions of a request reports nothing, and what it leaves unchecked stays accepted at every level, the new one's flattened view accepts every value an old client writes, even closed; and if folding the new one's `allOf` loses nothing, so does the new one itself, read openly or strictly |
| CompatRequests.IntegerChangeExactly | test-harness/src/compat.ts:74-82 | types a request may change to accept every old value if and only if an integer stays an integer or becomes a number |
| CompatRequests.StaysAcceptedExactly | test-harness/src/compat.ts:70-91 | of a level of a request not reported, the new lets through every type and value the old did if and only if what the comparison does not check stays accepted |
| CompatRequests.EventsStayReadable | test-harness/src/compat.ts:265-284 | when the event check reports nothing, every event is still there, and each direction holds under its own condition: old readers accept what new writers write as `ResponsesStayReadable` says, and the new what old writers wrote as `RequestsStayAccepted` says |
| CompatRequests.SameEvents | test-harness/src/compat.ts:265-284 | events compared with themselves report nothing if and only if each declares what it requires |
| CompatValues.TypesIncludeExactly | test-harness/src/compat.ts:70-82 | types include others, integers being numbers, if and only if every value of those is of these |
| CompatValues.LevelFitsExactly | test-harness/src/compat.ts:70-91 | the types and values of one level let through all that another's do, if and only if the types include its types and a list holds all it lets through |
| CompatLimits.NestedExactly | test-harness/src/compat.ts:63 | a change under any number of levels goes unreported if and only if it would at the top or lies below the depth compared |
| CompatLimits.LeafResponseExactly | test-harness/src/compat.ts:70-91 | of leaves a response comparison passes, the old accepts all the new does if and only if what was left unchecked stays readable |
| CompatLimits.LeafRequestExactly | test-harness/src/compat.ts:70-91 | of leaves a request comparison passes, the new accepts all the old does if and only if what was left unchecked stays accepted |
| CompatLimits.IntegerToStringPasses | test-harness/src/compat.ts:74-82 | a request's integer may become a string unreported |
| CompatLimits.NewResponseValuePasses | test-harness/src/compat.ts:85-91 | a response may gain an enum value unreported |
| CompatLimits.DroppedTypePasses | test-harness/src/compat.ts:72-82 | a response may stop saying its type unreported |
| CompatLimits.ExtendedObjectIsFaithful | contracts/user-service.openapi.yaml:1291-1297 | folding an object extended by another with other properties loses nothing, though both say they are objects |
| CompatLimits.PartListPasses | test-harness/src/compat.ts:42-49 | a part's list of values is dropped: a response may write another value unreported |
| CompatLimits.PartItemsPass | test-harness/src/compat.ts:42-49 | so are a part's items |
| CompatLimits.LaterTypePasses | test-harness/src/compat.ts:47 | and a type that comes after another |
| CompatLimits.PartClosedPasses | test-harness/src/compat.ts:42-49 | and a part's refusal of other fields, so a request's field may be refused unreported |
| CompatLimits.OverlapExactly | test-harness/src/compat.ts:35-51 | of two parts declaring one property only the later is compared, which asks for as much as both if and only if it lets through only what the earlier does |
| CompatReport.Report.CompareSchemas | test-harness/src/compat.ts:53-140 | adds to the report exactly what the comparison reports, and drops nothing |
| CompatReport.FindEventBreakingChanges | test-harness/src/compat.ts:269-284 | finds exactly what is reported of some event in some direction |

## Left out

- HTTP controllers, guards, configuration, logging, metrics and health: plumbing.
- JWT and JWKS verification, key digests and cursors: the work of libraries.
- The platform's inbox, outbox and relay: only that an effect and its message commit together and that delivery is at least once.
- `listLedger`, its millisecond cursors and listing order: nothing is claimed of them.
- CreditConcurrency.EveryRunIsSerial: a late denial's reported balance is any value there; that it is one the wallet had is `DenialsWereShort`.
- Order read projections, dispute referral to administrators, idempotent command keys and deadlines' arithmetic: a deadline is a fact given to a transition.
- The clock of the identity cache between the lines of one call, and case folding beyond ASCII letters.
- `parse` of the User Service's reply, and `fetchFresh`: an answer or a failure arrives.
- Administrator read records, the chat socket and display names.
- `RetentionCleanup.tick` and its timers; channels opened while a sweep runs, which are never candidates.
- Message properties of the broker other than the body and the deaths; publisher confirms and returns; `prefetch`, which it ignores.
- `$ref`, `const`, `oneOf` and `anyOf` schemas, and names inherited by every JavaScript object.
- `findOpenApiBreakingChanges`: parameters and bodies around the same comparison.
- ChatService.Service.MarkRead: the method runs its steps together; others acting between them are in `ChatAccess`.
- ChatService.Service.Send: the method runs its steps together; others acting between them are in `ChatAccess`, and the last step's own interleavings in `ChatConcurrency`.
- The message with a random identifier that repeats: an identifier is always new.
