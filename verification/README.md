# Verified model of the agent task economy

This project models the parts of the platform that decide who gets paid and what becomes public, and proves
properties of them with Dafny 4.11. `dafny verify dfyconfig.toml` checks everything.

* **Money.** `Ledger` and `LedgerStore` are the central bank's in-memory ledger with escrow; `LedgerTheorems` says
  what it promises over whole runs. `SqlBank`, `SqlWriter` and `SqlTheorems` are the database gateway's bank
  transactions with their commit and rollback paths, `GatewayClient` the client between them; `Refinement` says
  exactly when the two implementations agree, and `Refusals` when they name the same error. `LedgerAudit` reads the
  journals as a trail of the calls, and `SqlAnswers` says what the gateway answers and what its client leaves.
* **Escrow release.** `TaskStore` is the board's store with compare-and-set updates and bids. `Deadlines` is the
  deadline evaluator and the escrow coordinator run alone; `EscrowProtocol` runs any number of them interleaved, with
  stale rows, crashes and a network that loses requests and replies or delivers them late. `EscrowFlag` says when the
  flag of an unpaid release can come down, `EscrowBids` when a task with bids expires.
* **Court.** `Median` is the panel's vote, `DisputeStore` the store and the service's synchronous calls,
  `RulingOrchestrator` the ruling in one piece, and `RulingProtocol` rulings interleaved at their awaits and with
  the task board's own handling of their shares. `RulingOutcome` says what becomes of a dispute when court and board
  come apart, `DisputeTerms` what becomes of what the parties said.
* **Reputation.** `Feedback` is the sealed feedback store with mutual reveal, and its readers.
* **Algorithms.** `Scheduling` (critical path), `Digits` (digit rearrangement and series), `Base64Url`, `Base64Text` and
  `Jws` (compact tokens); `Sorting` and `Common` are shared tools.

A store that the program updates in place is a class whose methods are proved against step functions on its
snapshot; the theorems are about these step functions. Clocks, fresh identifiers and what the network does are
arguments.

## Where code and documentation differ

The model follows the code.

* A split paid to one account that is worker and poster loses the worker's share in memory, and only there
  (`LedgerTheorems.WealthConservedIff`, `SqlTheorems.ExecMovesWealth`).
* A constraint column that is no identifier leaves the gateway's transaction open (`SqlTheorems.AllOrNothing`).
* A credit refused because its account is missing leaves no trace, so its repeat is booked once the account is there
  (`LedgerTheorems.AtLeastOnceIsExactlyOnceIff`).
* The coordinator's comments promise a retry on the next read; the evaluator, its only caller, returns first on exactly
  the statuses on which the retry acts. A flag raised by a failed release therefore stays up for good, even while the
  bank still holds the escrow (`Deadlines.RetryIsIdleInsideEvaluate`, `EscrowFlag.FlagComesDownIff`).
  `EscrowFlag.FlagCanComeDownIff` is only about a caller that would invoke the coordinator itself.
* The bid count that keeps an open task from expiring is the one that was loaded. A single evaluation follows its load
  without an await between; in a batch all rows are loaded first, and the later ones go stale while an earlier item
  awaits its release (`EscrowBids.ExpiredBidsCameAfterLoad`).
* A failed ruling comes back as rebuttal_pending even from rebuttal_submitted; no call of the store or the service
  reaches that status (`DisputeStore.RevertRestoresIff`).
* The task board checks a task, has its escrow paid out and only then writes the share. A ruling that fails after the
  payment, written or not, is put back as if it could be tried again, but the bank does not pay twice and every later
  attempt fails (`RulingOutcome.CanBeRuledIff`, `RulingOutcome.UnwrittenShareLosesDispute`).
* The handlers of execute_ruling do not catch a cancellation (`RulingProtocol.AbandonedForGood`).
* The digit exercise asks for a smallest number without leading zero (`Digits.SmallestIsProperIff`).
* The in-memory ledger and the gateway name some refusals differently (`Refusals.RefusalsAlikeIff`).

## What is assumed

* Fresh ids are fresh: escrow, dispute and feedback ids collide with no earlier one. The gateway's calls are taken with
  any ids; only `Refinement` and `Refusals` ask for new ones.
* The unique indexes and foreign keys of the bank tables are those of `docs/specifications/schema.sql`, lines 31-72.
* In `EscrowProtocol` the rest of the platform posts a task together with an escrow locked for it by its poster, and
  calls the bank freely except on the escrow of a task that is not yet in dispute. Accept, submit and
  dispute are compare-and-sets: the board evaluates a task and then writes it with no await between, which on one event
  loop over the in-memory store is the same (task_manager.py, lines 780-812, 864-902 and 1032-1070). A ruling is
  recorded only on a task in dispute.
* In `RulingProtocol` a task with a dispute at the court is in dispute at the board until the board writes its share.
  An announcement that board or bank refuses for any other reason is one that was dropped (task_manager.py, lines
  1182-1229). The bank may resolve the escrow for others at any time.
* In `Jws` the signature verifies what was signed with the key, and JSON reads back what it wrote.

## Model

| member | source | states |
|---|---|---|
| `LedgerStore.InMemoryLedgerStore.CreateAccount` | services/central-bank/src/central_bank_service/services/in_memory_ledger_store.py:49-90 | a negative opening balance or a known account is refused and changes nothing; otherwise the account opens with that balance, journalled unless it is zero, and the opening entry is not indexed as a credit |
| `LedgerStore.InMemoryLedgerStore.Credit` | services/central-bank/src/central_bank_service/services/in_memory_ledger_store.py:103-139 | the first credit with a reference is booked and indexed; a repeat with the same amount answers with the first entry and changes nothing, one with another amount is refused |
| `LedgerStore.InMemoryLedgerStore.EscrowLock` | services/central-bank/src/central_bank_service/services/in_memory_ledger_store.py:148-208 | a replay of a held lock is answered before funds are looked at; otherwise the amount leaves the payer and a locked escrow and its index entry appear together |
| `LedgerStore.InMemoryLedgerStore.EscrowRelease` | services/central-bank/src/central_bank_service/services/in_memory_ledger_store.py:210-254 | existence, recipient and status are checked in this order; the whole amount goes to the recipient and the escrow leaves the index |
| `LedgerStore.InMemoryLedgerStore.EscrowSplit` | services/central-bank/src/central_bank_service/services/in_memory_ledger_store.py:256-325 | both new balances are computed from the balances before the call, so an account that is worker and poster at once keeps only the poster's share |
| `LedgerStore.InMemoryLedgerStore.TotalEscrowed` | services/central-bank/src/central_bank_service/services/in_memory_ledger_store.py:331-337 | the loop adds up exactly the amounts of the locked escrows |
| `LedgerTheorems.RunKeepsInv` | services/central-bank/src/central_bank_service/services/in_memory_ledger_store.py:49-325 | over every run with fresh escrow ids no balance is negative, every indexed credit is in its journal, and the index of locked escrows is exactly the inverse of the locked escrows |
| `LedgerTheorems.RejectedCallChangesNothing` | services/central-bank/src/central_bank_service/services/in_memory_ledger_store.py:49-325 | a call that is answered with an error leaves the whole ledger as it was |
| `LedgerTheorems.RunAccountsForWealth` | services/central-bank/src/central_bank_service/services/in_memory_ledger_store.py:49-325 | over every run balances plus locked escrows equal what was there, plus opening balances and first-time credits, minus what self-splits lost |
| `LedgerTheorems.WealthConservedIff` | services/central-bank/src/central_bank_service/services/in_memory_ledger_store.py:49-325 | money is conserved over a run if and only if no call of it splits a locked escrow onto one account that is worker and poster with a worker share of at least one coin |
| `LedgerTheorems.SelfSplitLosesMoney` | services/central-bank/src/central_bank_service/services/in_memory_ledger_store.py:288-291 | a concrete ledger and split that lose the worker's share |
| `LedgerTheorems.RunStaysSolvent` | services/central-bank/src/central_bank_service/services/in_memory_ledger_store.py:49-337 | from the empty ledger no run makes a balance or the total in escrow negative |
| `LedgerTheorems.JournalReplaysIff` | services/central-bank/src/central_bank_service/services/in_memory_ledger_store.py:46-47 | in every reachable ledger each balance_after is the signed prefix sum of its journal and the full sum is the balance, if and only if the account lost nothing to a self-split |
| `LedgerTheorems.ReplaysSnoc` | services/central-bank/src/central_bank_service/services/in_memory_ledger_store.py:46-47 | when appending an entry keeps a journal replayable: exactly when the journal replays and the entry announces the next sum |
| `LedgerTheorems.RunRowsPersist` | services/central-bank/src/central_bank_service/services/in_memory_ledger_store.py:148-325 | over any stretch of a run an escrow keeps payer, amount and task, and once resolved keeps its status |
| `LedgerTheorems.EscrowPaysExactlyOnce` | services/central-bank/src/central_bank_service/services/in_memory_ledger_store.py:210-325 | counting what a call adds to the balances: over every run an escrow has paid nothing while locked; once it is resolved exactly one call has paid its amount less what that call lost to a self-split, and no other call has paid anything |
| `LedgerTheorems.PaysInFullIff` | services/central-bank/src/central_bank_service/services/in_memory_ledger_store.py:281-325 | a resolved escrow has paid exactly its amount into balances if and only if it was not resolved by a split onto one account that is worker and poster with a worker share of at least one coin |
| `LedgerTheorems.LeavesLockedAtMostOnce` | services/central-bank/src/central_bank_service/services/in_memory_ledger_store.py:239-316 | an escrow leaves the locked status at most once in a run |
| `LedgerTheorems.LockReplays` | services/central-bank/src/central_bank_service/services/in_memory_ledger_store.py:157-173 | as long as an escrow is locked, repeating its lock with any later id answers with the first escrow and changes nothing, whatever happened in between and however little is left |
| `LedgerTheorems.RedeliveredCredit` | services/central-bank/src/central_bank_service/services/in_memory_ledger_store.py:103-125 | a credit repeated anywhere later in a run answers what its first delivery answered and changes nothing, provided the account was there at the first delivery |
| `LedgerTheorems.AtLeastOnceIsExactlyOnceIff` | services/central-bank/src/central_bank_service/services/in_memory_ledger_store.py:103-139 | from any ledger and over any calls: delivering credits again and again ends in the same ledger as delivering each once if and only if no repeat of a credit is booked |
| `LedgerTheorems.AtLeastOnceIsExactlyOnce` | services/central-bank/src/central_bank_service/services/in_memory_ledger_store.py:103-139 | in particular if every credit finds its account when it is made, accounts opened during the run included |
| `LedgerTheorems.EarlyCreditIsBookedOnRepeat` | services/central-bank/src/central_bank_service/services/in_memory_ledger_store.py:107-125 | a concrete run in which a credit comes before its account, is refused, and is booked when it comes again |
| `LedgerAudit.StepTraces` | services/central-bank/src/central_bank_service/services/in_memory_ledger_store.py:49-325 | each call adds to the journals exactly the entries it owes, none if it is refused or a replay, each with the caller's identifier, the amount moved, the balance after it and what it refers to |
| `LedgerAudit.JournalIsTrace` | services/central-bank/src/central_bank_service/services/in_memory_ledger_store.py:46-47 | over every run every journal entry is such a trace of one of the calls made |
| `LedgerAudit.AnswerTellsWhatWasDone` | services/central-bank/src/central_bank_service/services/in_memory_ledger_store.py:49-325 | whenever a call is accepted, replays included, every field of the answer is what the ledger then holds |
| `GatewayClient.ShareIsFloor` | services/central-bank/src/central_bank_service/services/ledger_db_client.py:297-299 | the worker's share is the exact share rounded down, within one coin, and all or nothing at 100 and 0 percent |
| `GatewayClient.ShareIsMonotone` | services/central-bank/src/central_bank_service/services/ledger_db_client.py:297-299 | a higher percentage never pays the worker less nor the poster more |
| `GatewayClient.SplitWriteCommitsIff` | services/db-gateway/src/db_gateway_service/services/db_writer.py:695-790 | the write of a split commits if and only if the escrow is locked, the accounts with a positive share exist and the transaction ids are new; a zero share's account is not looked at |
| `GatewayClient.TwoStepSplit` | services/central-bank/src/central_bank_service/services/ledger_db_client.py:273-328 | whatever the gateway serves before the client's read and between it and the write, the write commits exactly when the escrow is still locked and the accounts to pay exist, and its amounts are never out of date |
| `SqlAnswers.CreateAnswers` | services/db-gateway/src/db_gateway_service/services/db_writer.py:288-339 | exactly when an account is opened, and when it is refused and as what |
| `SqlAnswers.CreditAnswers` | services/db-gateway/src/db_gateway_service/services/db_writer.py:356-428 | exactly when a credit is booked, when a repeat is answered with the first transaction, and when it is refused and as what |
| `SqlAnswers.LockAnswers` | services/db-gateway/src/db_gateway_service/services/db_writer.py:446-553 | exactly when an escrow is locked, when a repeat is answered with the active one, and when it is refused and as what, funds first |
| `SqlAnswers.ReleaseAnswers` | services/db-gateway/src/db_gateway_service/services/db_writer.py:571-656 | exactly when a release commits, for any constraints, and each refusal with its condition |
| `SqlAnswers.SplitAnswers` | services/db-gateway/src/db_gateway_service/services/db_writer.py:682-800 | exactly when a split commits, for any constraints, and each refusal with its condition |
| `SqlAnswers.IdentifierByCharacter` | services/db-gateway/src/db_gateway_service/services/db_writer.py:103-110 | which names the gateway takes for identifiers, character by character |
| `SqlAnswers.NamesByConstraint` | services/db-gateway/src/db_gateway_service/services/db_writer.py:92-114 | each constraint must name an identifier, and a column of the table |
| `SqlAnswers.ConstraintAsks` | services/db-gateway/src/db_gateway_service/services/db_writer.py:92-150 | a constraint on a column asks exactly that the column has the text |
| `SqlAnswers.ExplanationAsks` | services/db-gateway/src/db_gateway_service/services/db_writer.py:115-150 | the look at the row that explains a refusal takes NULL for the word None and else asks what the update asks |
| `SqlAnswers.ClientLeaves` | services/central-bank/src/central_bank_service/services/ledger_db_client.py:41-351 | what a committed call of the client leaves: balances, log rows with their references, the escrow with the client's time, and the one event that names the call |
| `SqlAnswers.ClientAsksForLocked` | services/central-bank/src/central_bank_service/services/ledger_db_client.py:216-327 | release and split ask the bank for exactly this, that the escrow is still locked |
| `SqlWriter.DbWriter.CheckConstraintViolation` | services/db-gateway/src/db_gateway_service/services/db_writer.py:115-150 | a read-only check that answers exactly whether a named column differs from the row, and leaves the transaction alone |
| `SqlWriter.DbWriter.CreateAccount` | services/db-gateway/src/db_gateway_service/services/db_writer.py:288-339 | the connection ends with the whole outcome committed or as it was; an account that exists is answered without a write |
| `SqlWriter.DbWriter.CreditAccount` | services/db-gateway/src/db_gateway_service/services/db_writer.py:356-428 | the balance is raised before the insert that can fail on the idempotency index; a collision rolls the raise back and answers with the first credit |
| `SqlWriter.DbWriter.LockEscrow` | services/db-gateway/src/db_gateway_service/services/db_writer.py:446-553 | funds are tested before uniqueness; a collision on the index of active escrows rolls the debit back and answers with the active escrow if the amounts agree |
| `SqlWriter.DbWriter.Finish` | services/db-gateway/src/db_gateway_service/services/db_writer.py:611-656 | the resolving update with its constraints, the event and the commit, including the one path that neither commits nor rolls back |
| `SqlWriter.DbWriter.EscrowRelease` | services/db-gateway/src/db_gateway_service/services/db_writer.py:571-656 | credit, log, resolve and event commit together or not at all, up to the column names that are no identifiers |
| `SqlWriter.DbWriter.EscrowSplit` | services/db-gateway/src/db_gateway_service/services/db_writer.py:682-800 | two updates in sequence, each skipped for a share that is not positive, then as for a release |
| `SqlWriter.PostKeepsSchema` | docs/specifications/schema.sql:43-55 | a balance update with a logged row of new id keeps the unique indexes and foreign keys |
| `SqlWriter.LockKeepsSchema` | docs/specifications/schema.sql:70-72 | a lock that passed its checks keeps at most one locked escrow per payer and task |
| `SqlTheorems.AllOrNothing` | services/db-gateway/src/db_gateway_service/services/db_writer.py:288-800 | every bank call that commits leaves exactly the balances, log rows and escrow row it asks for and one event more; every other call leaves the tables as they were; a transaction is left open if and only if a release or split reached its resolving update with a constraint column that is no identifier |
| `SqlTheorems.BadColumnLeavesTransactionOpen` | services/db-gateway/src/db_gateway_service/services/db_writer.py:103-110 | a concrete release after which the credit is written, nothing is committed, and the transaction is open |
| `SqlTheorems.ForgottenTransactionHeals` | services/db-gateway/src/db_gateway_service/services/db_writer.py:652-656 | after a forgotten transaction the next write, whatever it is, fails and thereby restores the connection exactly |
| `SqlTheorems.ReadersSeeForgottenPayment` | services/db-gateway/src/db_gateway_service/core/lifespan.py:44-49 | until then every read, on the shared connection, sees the payment made and logged and the escrow still locked |
| `SqlTheorems.ExecMovesWealth` | services/db-gateway/src/db_gateway_service/services/db_writer.py:288-800 | each call moves the money by what it brings, plus the size of a negative share in a committed split; worker and poster being one account loses nothing here |
| `SqlTheorems.RunConservesIff` | services/db-gateway/src/db_gateway_service/services/db_writer.py:288-800 | over whole runs of a connection, forgotten transactions included, money is conserved if and only if no committed split had a negative share, which only a direct caller of the writer can bring |
| `SqlTheorems.RoutedRunsConserve` | services/db-gateway/src/db_gateway_service/routers/bank.py:22-162 | over runs of calls that passed the router, which refuses negative shares and amounts, money is always conserved and no balance goes below zero |
| `SqlTheorems.RunRowsPersist` | services/db-gateway/src/db_gateway_service/services/db_writer.py:571-800 | over any stretch of a run of a connection accounts stay, an escrow keeps payer, amount and task, and a resolved row is final |
| `SqlTheorems.RunKeepsEscrowsSettled` | services/db-gateway/src/db_gateway_service/services/db_writer.py:571-800 | over every run of a connection a read finds the committed escrow rows, even while a forgotten transaction is open |
| `Refinement.AgreesIff` | services/db-gateway/src/db_gateway_service/services/db_writer.py:288-800 | for coupled states and fresh ids the gateway and the in-memory ledger both refuse, or both accept with the same identifiers, amounts and balances, and end coupled, if and only if the call is none of four: an account opened for an owner who is not registered, a credit that reuses the opening balance's reference, a lock replayed without funds, a split that only one side accepts or in which the ledger loses coins |
| `Refusals.RefusalsAlikeIff` | services/central-bank/src/central_bank_service/services/ledger_db_client.py:41-351 | when both refuse, the caller sees the same error if and only if the call is none of three: a second lock of a task with another amount beyond the payer's means, a release of a resolved escrow to a missing account, a split with a percentage out of range or with a poster other than the payer and an account missing |
| `Refinement.RunsStayCoupled` | services/central-bank/src/central_bank_service/services/in_memory_ledger_store.py:49-325 | over runs of calls outside those four families the two stores hold the same balances, escrows, movements and credit references throughout |
| `Refinement.BankLogSumsToBalance` | services/db-gateway/src/db_gateway_service/services/db_writer.py:288-800 | over such runs the signed sum of an account's rows in the gateway's transaction table is its balance |
| `TaskStore.InMemoryTaskStore.InsertTask` | services/task-board/src/task_board_service/services/in_memory_task_store.py:62-69 | a known task id is refused, else the row is stored |
| `TaskStore.InMemoryTaskStore.UpdateTask` | services/task-board/src/task_board_service/services/in_memory_task_store.py:78-98 | nothing is written unless there is something to write, the task exists and the expected status matches; the assignments are applied in order and an unknown column stops the loop with the earlier ones written |
| `TaskStore.InMemoryTaskStore.InsertBid` | services/task-board/src/task_board_service/services/in_memory_task_store.py:135-159 | a second bid of an agent on a task is refused; otherwise bid, index entry and count change together |
| `TaskStore.CompareAndSet` | services/task-board/src/task_board_service/services/in_memory_task_store.py:85-98 | an update that expects a status either finds it, answers 1 and leaves the store with exactly that row updated, or does not, answers 0 and leaves the store as it was |
| `TaskStore.SecondCompareAndSetLoses` | services/task-board/src/task_board_service/services/in_memory_task_store.py:85-98 | after a compare-and-set that moved a task out of a status, another one that expects that status answers 0 and changes nothing |
| `TaskStore.UpdateAnswers` | services/task-board/src/task_board_service/services/in_memory_task_store.py:78-98 | exactly what an update answers, for any updates and any expected status, and that no other row and no bid changes |
| `TaskStore.LastAssignmentWins` | services/task-board/src/task_board_service/services/in_memory_task_store.py:91-97 | the last assignment to a column decides its value |
| `TaskStore.UnassignedStays` | services/task-board/src/task_board_service/services/in_memory_task_store.py:91-97 | a column that is not assigned to keeps its value, and poster, escrow, creation and periods always do |
| `TaskStore.TaskIsStoredAsGiven` | services/task-board/src/task_board_service/services/in_memory_task_store.py:62-69 | an unknown id is stored with the row as given, a known one changes nothing |
| `TaskStore.BidIsStoredAsGiven` | services/task-board/src/task_board_service/services/in_memory_task_store.py:135-159 | exactly when a bid is taken, with its amount and time as given and the count one higher, and when it is ignored or refused with nothing changed |
| `TaskStore.BidsAreKept` | services/task-board/src/task_board_service/services/in_memory_task_store.py:135-159 | no later call removes or changes a bid |
| `TaskStore.BidCountsAreRight` | services/task-board/src/task_board_service/services/in_memory_task_store.py:135-159 | in every store reachable with fresh bid ids, tasks inserted with count zero and no update of the count, each count equals the task's bids and index entries, the index is the inverse of the bids, and no agent has two bids on a task |
| `Deadlines.FiresLessThanASecondEarly` | services/task-board/src/task_board_service/services/deadline_evaluator.py:28-35 | a deadline passes exactly at the deadline cut down to a whole second, so less than a second early and never late |
| `Deadlines.EscrowCoordinator.TryReleaseEscrow` | services/task-board/src/task_board_service/services/escrow_coordinator.py:78-94 | one release request, then the flag cleared exactly if the caller saw a success and raised otherwise, whatever the status by then |
| `Deadlines.EscrowCoordinator.RetryPendingEscrow` | services/task-board/src/task_board_service/services/escrow_coordinator.py:96-129 | acts on a raised flag of an expired or approved row only; pays poster or worker; on failure writes nothing |
| `Deadlines.DeadlineEvaluator.EvaluateDeadline` | services/task-board/src/task_board_service/services/deadline_evaluator.py:37-134 | store, bank and returned row after one evaluation, for every status, deadline, compare-and-set result and network behaviour |
| `Deadlines.DeadlineEvaluator.EvaluateDeadlinesBatch` | services/task-board/src/task_board_service/services/deadline_evaluator.py:136-142 | the batch evaluates item by item, each with its own reading of the clock, handing back one row each |
| `Deadlines.EvaluateIs` | services/task-board/src/task_board_service/services/deadline_evaluator.py:57-132 | an evaluation either does nothing at all, or lands one transition, sends one release, and leaves the flag saying whether the reply was a success |
| `Deadlines.FiresIffOverdue` | services/task-board/src/task_board_service/services/deadline_evaluator.py:28-134 | a task whose status the store still has moves if and only if it is overdue: open, without bids and past its bidding time; accepted and past its delivery time; or submitted and past its review time, each time cut to a whole second. It becomes expired, expired and approved, stamped with the clock, and nothing else changes |
| `Deadlines.StaleStatusIsIdle` | services/task-board/src/task_board_service/services/deadline_evaluator.py:65-85 | an evaluation of a row whose status the store no longer has does nothing |
| `Deadlines.FiringPays` | services/task-board/src/task_board_service/services/deadline_evaluator.py:57-132 | a task that fires sends one release of its own escrow, to the poster if it expires and to the worker if it is approved; the flag stays up unless the bank accepted it and the reply arrived |
| `Deadlines.RetryPays` | services/task-board/src/task_board_service/services/escrow_coordinator.py:96-129 | the retry acts exactly on an expired or approved row with its flag up, pays poster or worker, and only a success takes the flag down |
| `Deadlines.BatchLeavesNothingOverdue` | services/task-board/src/task_board_service/services/deadline_evaluator.py:136-142 | after a batch over rows as stored, none of its tasks is overdue at the instant it was evaluated, and the rows handed back are the rows stored |
| `Deadlines.RetryIsIdleInsideEvaluate` | services/task-board/src/task_board_service/services/deadline_evaluator.py:49-53 | for every row with which evaluate_deadline reaches the retry, the retry does nothing |
| `Deadlines.EvaluateIsIdempotent` | services/task-board/src/task_board_service/services/deadline_evaluator.py:37-134 | a second evaluation at the same instant changes nothing and sends no request |
| `Deadlines.OpenTaskWithBidsStays` | services/task-board/src/task_board_service/services/deadline_evaluator.py:63 | an open task whose row shows a bid never expires |
| `Deadlines.BatchView` | services/task-board/src/task_board_service/services/deadline_evaluator.py:136-142 | the batch loop, seen on rows, balances and escrows, is the fold of single evaluations |
| `Deadlines.EvaluationsCommute` | services/task-board/src/task_board_service/services/deadline_evaluator.py:37-134 | two evaluations of tasks with different ids and escrows can be done in either order |
| `Deadlines.BatchInAnyOrder` | services/task-board/src/task_board_service/services/deadline_evaluator.py:136-142 | a batch over distinct tasks and escrows leaves the same rows, balances and escrows in any order |
| `Deadlines.EachAsIfAlone` | services/task-board/src/task_board_service/services/deadline_evaluator.py:136-142 | in such a batch every task and its escrow end as if the task had been evaluated alone |
| `Deadlines.BalancesAddUp` | services/task-board/src/task_board_service/services/deadline_evaluator.py:136-142 | in such a batch every balance grows by the sum of what each item, evaluated alone, would have paid that account |
| `Deadlines.RepeatedBatchIsIdle` | services/task-board/src/task_board_service/services/deadline_evaluator.py:136-142 | repeating the batch at the same instant, on any network and against any bank, changes nothing: no request is sent |
| `EscrowProtocol.RunKeepsInv` | services/task-board/src/task_board_service/services/deadline_evaluator.py:37-134 | the invariant of the interleaved protocol holds after every allowed run of any number of processes with stale rows, crashes, and releases that succeed, fail, lose their reply, or reach the bank after their sender gave up |
| `EscrowProtocol.MoneyFollowsTheTask` | services/task-board/src/task_board_service/services/escrow_coordinator.py:78-129 | after every such run, late releases included, an open, accepted or submitted task has its escrow locked and unpaid; an expired one has paid nobody or the poster, once and in full, an approved one nobody or the worker; with the flag down it has paid |
| `EscrowProtocol.NothingFiresEarly` | services/task-board/src/task_board_service/services/deadline_evaluator.py:57-132 | after every such run the stamp of an expired or approved task lies after the deadline that applied to it, and not in the future |
| `EscrowProtocol.RunEvolves` | services/task-board/src/task_board_service/services/in_memory_task_store.py:78-98 | along every such run a task keeps its terms, from acceptance its worker, from submission its submission time, and from firing its outcome |
| `EscrowProtocol.FiresAtMostOnce` | services/task-board/src/task_board_service/services/deadline_evaluator.py:65-70 | however many evaluators hold the same stale row, at most one transition per task lands in a run |
| `EscrowProtocol.PayoutsAreMoney` | services/central-bank/src/central_bank_service/services/in_memory_ledger_store.py:210-325 | a call that resolves an escrow raises every balance by exactly what the payout log of the protocol gains for that account, self-splits included |
| `EscrowFlag.StuckForGood` | services/task-board/src/task_board_service/services/escrow_coordinator.py:107-129 | once the bank has resolved the escrow of a fired task whose flag is up and no success is in flight, the flag stays up for good, even if the coordinator's retry is called |
| `EscrowFlag.FlagComesDownIff` | services/task-board/src/task_board_service/services/escrow_coordinator.py:78-94 | in the program, where nothing calls the retry with effect, a raised flag on a fired task can still come down, by some allowed continuation, if and only if a process is under way that is about to report a success, or is yet to send a release of an escrow that is not resolved |
| `EscrowFlag.StrandedForGood` | services/task-board/src/task_board_service/services/deadline_evaluator.py:49-53 | a fired task whose flag is up and that has no such process keeps its flag up along every allowed run without the retry, even while the bank still holds the escrow |
| `EscrowFlag.FlagCanComeDownIff` | services/task-board/src/task_board_service/services/escrow_coordinator.py:96-129 | were somebody to call the coordinator's retry, a raised flag could come down if and only if the escrow is not yet resolved or a success is in flight |
| `EscrowProtocol.UninterruptedIsEvaluate` | services/task-board/src/task_board_service/services/deadline_evaluator.py:37-134 | a process that nobody interrupts leaves store and bank exactly as one call of evaluate_deadline |
| `EscrowProtocol.UninterruptedLeavesNothingOverdue` | services/task-board/src/task_board_service/services/deadline_evaluator.py:37-134 | after a process that nobody interrupts, the task it loaded is not overdue, and it moved if and only if it was |
| `EscrowBids.ExpiredBidsCameAfterLoad` | services/task-board/src/task_board_service/services/deadline_evaluator.py:57-77 | whenever over a run an open task expires, its count is exactly the number of bids taken between the process's load of the row and that event; so a task with a bid expires if and only if a bid came in between |
| `EscrowBids.TaskWithBidExpires` | services/task-board/src/task_board_service/services/deadline_evaluator.py:136-142 | such a run: a bid on an open task, past its deadline, whose row the batch had already loaded |
| `EscrowProtocol.LosingCreationUnfundsTask` | services/task-board/src/task_board_service/services/task_manager.py:354-411 | two creations of one task share its escrow, and taking the second one back leaves the first task active and unfunded: why the environment must leave escrows of active tasks alone |
| `Median.NormalizeVote` | services/court/src/court_service/services/ruling_orchestrator.py:35-73 | the clean-up of a judge's reply, field by field, with its defaults and clamping |
| `Median.VoteIsKeptOrMended` | services/court/src/court_service/services/ruling_orchestrator.py:35-73 | what becomes of a vote, field by field: a share below 0 becomes 0, above 100 becomes 100, any other is kept; a text of nothing but blanks becomes the default, any other is kept |
| `Median.DictionaryIsReadAsVote` | services/court/src/court_service/services/ruling_orchestrator.py:40-55 | a dictionary counts as the vote of its fields, a missing share being 50 and a missing text blank; anything else is no vote |
| `Median.NormalizingIsMonotone` | services/court/src/court_service/services/ruling_orchestrator.py:57-60 | a higher share never becomes a lower one |
| `Median.CleaningCleans` | services/court/src/court_service/services/ruling_orchestrator.py:57-66 | every cleaned vote is a percentage with non-blank texts, and a clean vote is left as it is |
| `Median.EvaluateJudges` | services/court/src/court_service/services/ruling_orchestrator.py:125-148 | all votes in order and clean, or the first failure by its judge and kind; no judges is a failure |
| `Median.MedianIff` | services/court/src/court_service/services/ruling_orchestrator.py:152-153 | the share is the one value with at most half of the votes, rounded down, below it and more than that many not above it |
| `Median.HalfOnEachSide` | services/court/src/court_service/services/ruling_orchestrator.py:152-153 | at least half of the votes are no more than the share, at least half no less, and it is one of the votes |
| `Median.MedianIgnoresOrder` | services/court/src/court_service/services/ruling_orchestrator.py:152-153 | the order of the judges does not matter |
| `Median.RaisingNeverLowers` | services/court/src/court_service/services/ruling_orchestrator.py:152-153 | raising votes never lowers the share |
| `Median.MajorityDecides` | services/court/src/court_service/services/ruling_orchestrator.py:152-153 | a strict majority of votes inside an interval forces the share into it |
| `Median.RulingIsAPercentage` | services/court/src/court_service/services/ruling_orchestrator.py:150-155 | the share of clean votes lies in 0..100 and was cast by somebody |
| `Median.JoinKeepsTexts` | services/court/src/court_service/services/ruling_orchestrator.py:154 | the summary holds every judge's reasons whole and in order, one blank line between two, and nothing else |
| `DisputeStore.InMemoryDisputeStore.InsertDispute` | services/court/src/court_service/services/in_memory_dispute_store.py:75-109 | a second dispute of a task is refused; otherwise a pending, unruled record, its index entry and an empty list of votes appear together |
| `DisputeStore.InMemoryDisputeStore.UpdateRebuttal` | services/court/src/court_service/services/in_memory_dispute_store.py:119-125 | rebuttal and its time are written, the status is not |
| `DisputeStore.InMemoryDisputeStore.SetStatus` | services/court/src/court_service/services/in_memory_dispute_store.py:127-132 | the status and nothing else |
| `DisputeStore.InMemoryDisputeStore.RevertToRebuttalPending` | services/court/src/court_service/services/in_memory_dispute_store.py:134-143 | status, ruling fields and votes are put back, claim and rebuttal are kept |
| `DisputeStore.InMemoryDisputeStore.PersistRuling` | services/court/src/court_service/services/in_memory_dispute_store.py:145-174 | status, ruling fields and the votes, one stored vote for each vote in order |
| `DisputeStore.InMemoryDisputeStore.CountActive` | services/court/src/court_service/services/in_memory_dispute_store.py:205-207 | the loop counts exactly the disputes that are not ruled |
| `DisputeStore.DisputeService.FileDispute` | services/court/src/court_service/services/dispute_service.py:56-85 | a duplicate becomes the service's own error, and nothing is stored |
| `DisputeStore.DisputeService.SubmitRebuttal` | services/court/src/court_service/services/dispute_service.py:87-116 | the three refusals in the program's order, else the rebuttal is stored and the record returned |
| `DisputeStore.FiledRecord` | services/court/src/court_service/services/in_memory_dispute_store.py:75-109 | filing stores and answers a record with exactly the task, claimant, respondent, claim, escrow and deadline given, the time of filing, and no rebuttal or ruling; it fails, changing nothing, only for a task with a dispute |
| `DisputeStore.RebuttedRecord` | services/court/src/court_service/services/dispute_service.py:108-116 | a rebuttal stores and answers the text given and its time, and changes nothing else |
| `DisputeStore.RebuttalRefusedIff` | services/court/src/court_service/services/dispute_service.py:87-107 | each refusal of a rebuttal with its exact condition; none changes anything |
| `DisputeStore.RuledRecord` | services/court/src/court_service/services/in_memory_dispute_store.py:145-174 | a ruling stores share, summary, time and every vote with its own id, and leaves terms and rebuttal as they were |
| `DisputeStore.RevertRestoresIff` | services/court/src/court_service/services/in_memory_dispute_store.py:127-143 | judging followed by the revert restores the store exactly if and only if the dispute was rebuttal_pending and unruled |
| `DisputeStore.RevertKeepsRebuttal` | services/court/src/court_service/services/in_memory_dispute_store.py:134-143 | whatever the record was, claim and rebuttal survive the revert and the record is unruled after it |
| `DisputeStore.InsertKeepsOnePerTask` | services/court/src/court_service/services/in_memory_dispute_store.py:85-108 | filing keeps one dispute per task and succeeds if and only if the task has none |
| `DisputeStore.RebuttalIsTakenOnceIff` | services/court/src/court_service/services/dispute_service.py:87-116 | a rebuttal is taken if and only if the dispute is pending without one, and no second one changes anything |
| `DisputeTerms.RunKeepsTerms` | services/court/src/court_service/services/in_memory_dispute_store.py:119-174 | over any stretch of a run of the court a dispute keeps its parties, claim, escrow, deadline and time of filing, and its rebuttal once it has one |
| `DisputeTerms.FiledTermsLast` | services/court/src/court_service/services/in_memory_dispute_store.py:90-105 | a dispute has the terms of its claim ever after it was filed |
| `DisputeTerms.RebuttalAsGiven` | services/court/src/court_service/services/in_memory_dispute_store.py:119-125 | the rebuttal of a dispute is the text and the time of a rebuttal that was submitted for it |
| `DisputeTerms.ActiveMeansNoShare` | services/court/src/court_service/services/in_memory_dispute_store.py:205-207 | after every run the disputes counted as active are those without a share |
| `RulingProtocol.RunKeepsInv` | services/court/src/court_service/services/ruling_orchestrator.py:244-301 | the invariant of rulings suspended at their awaits holds after every run, with cancellations and with announcements that the board handles in its own steps, late ones included |
| `RulingProtocol.OneRulingInFlight` | services/court/src/court_service/services/ruling_orchestrator.py:91-113 | no dispute is being ruled on by two calls at once |
| `RulingProtocol.OneDisputePerTask` | services/court/src/court_service/services/in_memory_dispute_store.py:85-107 | after every run a task has at most one dispute |
| `RulingProtocol.StatusMeansWhatItSays` | services/court/src/court_service/services/ruling_orchestrator.py:244-301 | after every run a dispute is judging exactly while a call rules on it or after such a call was cancelled; it is ruled exactly when ruling fields and votes are there, its summary being the reasons of the stored votes, its share their median, a percentage, and the one share the task board wrote |
| `RulingProtocol.RefusedIff` | services/court/src/court_service/services/ruling_orchestrator.py:91-113 | each refusal of a ruling with its exact condition |
| `RulingProtocol.RuledForGood` | services/court/src/court_service/services/ruling_orchestrator.py:96-102 | along every run a ruled dispute, its votes and the share the board wrote never change again |
| `RulingProtocol.FailedRulingRestores` | services/court/src/court_service/services/ruling_orchestrator.py:285-295 | a call that ends, other than by cancellation, has ruled its dispute or leaves it exactly as it found it |
| `RulingProtocol.BeginRemembers` | services/court/src/court_service/services/ruling_orchestrator.py:252-254 | what a call will put back is the record at the moment it began |
| `RulingProtocol.RulingIsAllOrNothing` | services/court/src/court_service/services/ruling_orchestrator.py:244-295 | from the event with which a call began to the one with which it ended, other than by cancellation, whatever ran in between: its dispute is ruled or its record is the one from before |
| `RulingProtocol.AbandonedForGood` | services/court/src/court_service/services/ruling_orchestrator.py:285-295 | a dispute whose call was cancelled stays in judging for good and every later ruling is refused as not ready |
| `RulingOutcome.BoardAcceptsOnce` | services/task-board/src/task_board_service/services/task_manager.py:1182-1224 | after every run the board has written at most one share for a task, although its check and its write are two steps and announcements may overlap or come late, because the bank pays once; a ruled dispute has exactly that share |
| `RulingOutcome.CanBeRuledIff` | services/task-board/src/task_board_service/services/task_manager.py:1182-1224 | the side effects are not atomic: from every reachable state a dispute that is not ruled can still be ruled by some continuation if and only if its call was not cancelled and the escrow of its task is not resolved, unless a call on it is under way that has the board's success or whose own announcement is the one paid for |
| `RulingOutcome.DoomedForGood` | services/court/src/court_service/services/ruling_orchestrator.py:261-295 | a dispute that is not ruled, whose task's escrow is resolved, and that has no such call is never ruled, whatever happens |
| `RulingOutcome.FailedFeedbackLosesDispute` | services/court/src/court_service/services/ruling_orchestrator.py:268-287 | a feedback call that fails after the board wrote the share leaves the dispute as before the ruling, with the share standing at the board, and never to be ruled |
| `RulingOutcome.LostReplyLosesDispute` | services/court/src/court_service/services/ruling_orchestrator.py:215-240 | so does an announcement whose share the board wrote but whose reply was lost |
| `RulingOutcome.UnwrittenShareLosesDispute` | services/task-board/src/task_board_service/services/task_manager.py:1207-1229 | an announcement for which the bank paid but the board did not get to write leaves the dispute as before and never to be ruled, and the task with its escrow gone and no share |
| `RulingOutcome.BarrenForGood` | services/task-board/src/task_board_service/services/task_manager.py:1182-1229 | such a task is never given a share by any continuation |
| `RulingOrchestrator.RulingOrchestrator.ValidateRulingPreconditions` | services/court/src/court_service/services/ruling_orchestrator.py:91-113 | the refusals in the program's order, else the record |
| `RulingOrchestrator.RulingOrchestrator.ExecuteRuling` | services/court/src/court_service/services/ruling_orchestrator.py:244-301 | refused without a change, or the whole ruling stored, or the dispute put back; success exactly if context, every judge, the task board and both feedback calls succeed |
| `RulingOrchestrator.UninterruptedIsExecute` | services/court/src/court_service/services/ruling_orchestrator.py:244-301 | a call that is resumed at once after every await leaves in the store exactly what ExecuteRuling leaves, however far the board got with its announcement; the board's success takes its check, the payment and its write |
| `Feedback.SqliteFeedbackStore.InsertFeedback` | services/reputation/src/reputation_service/services/sqlite_feedback_store.py:81-174 | a taken key or id rolls back; otherwise the row is added and, unless forced, it and its reverse row are revealed together, and the returned record shows the stored visibility |
| `Feedback.InsertedRows` | services/reputation/src/reputation_service/services/sqlite_feedback_store.py:106-152 | what an accepted insert does to every row of the table, rows of other pairs included |
| `Feedback.AcceptedIff` | services/reputation/src/reputation_service/services/sqlite_feedback_store.py:55-56 | a submission is accepted if and only if it is the first for its task, sender and recipient |
| `Feedback.VisibleIff` | services/reputation/src/reputation_service/services/sqlite_feedback_store.py:106-174 | over every history, an accepted record is in the table and visible if and only if it was forced, or its reverse was accepted earlier, or its reverse was accepted later and not forced |
| `Feedback.RowHoldsSubmission` | services/reputation/src/reputation_service/services/sqlite_feedback_store.py:106-174 | the same column by column: identifier, task, sender, recipient, category, rating, comment and time of the row are the submission's, and visibility is stated by task and parties |
| `Feedback.AnswerIsStoredRow` | services/reputation/src/reputation_service/services/sqlite_feedback_store.py:106-174 | the record an accepted submission is answered with is the row then in the table, its visibility included |
| `Feedback.SealedUntilAnswered` | services/reputation/src/reputation_service/services/sqlite_feedback_store.py:133-150 | an unforced record stays sealed until its reverse is accepted |
| `Feedback.RevealIsMutual` | services/reputation/src/reputation_service/services/sqlite_feedback_store.py:144-150 | two unforced records of a pair are both visible once both are there |
| `Feedback.ForcedDoesNotUnseal` | services/reputation/src/reputation_service/services/sqlite_feedback_store.py:131-133 | a forced record leaves an earlier unforced reverse sealed |
| `Feedback.NeverWithdrawn` | services/reputation/src/reputation_service/services/sqlite_feedback_store.py:106-174 | along every history no record is lost or altered and nothing visible is sealed again |
| `Feedback.GetFeedbackForTask` | services/reputation/src/reputation_service/services/feedback.py:212-219 | exactly the rows of the task that are visible or timed out, each as often as it is stored, by submission time |
| `Feedback.GetFeedbackForAgent` | services/reputation/src/reputation_service/services/feedback.py:222-229 | exactly the rows about the agent that are visible or timed out, each as often as it is stored, by submission time |
| `Feedback.ByIdIff` | services/reputation/src/reputation_service/services/feedback.py:198-209 | the reader by id answers with a row if and only if it is visible or timed out |
| `Feedback.ReadersShowIff` | services/reputation/src/reputation_service/services/feedback.py:187-229 | after any history and at any time, all three readers show an accepted submission, and exactly once, if and only if it was revealed in the sense of VisibleIff or its time has run out |
| `Scheduling.Schedule` | tools/src/math_task_factory/generators/constraints.py:73-83 | the starts found are feasible, no feasible schedule starts a task earlier or ends earlier than the answer, and the answer is the weight of the heaviest dependency chain, for any number of tasks |
| `Digits.ReadBack` | tools/src/math_task_factory/generators/large_arithmetic.py:150-152 | reading the digits of a number back gives the number, and there is no leading zero |
| `Digits.RearrangedIsExtreme` | tools/src/math_task_factory/generators/large_arithmetic.py:149-153 | the two numbers are values of arrangements of the digits, leading zeros included, and no arrangement is smaller or larger; the difference is theirs, and a non-negative multiple of nine |
| `Digits.SmallestIsProperIff` | tools/src/math_task_factory/generators/large_arithmetic.py:150-158 | the smallest number computed is the one the exercise asks for, the smallest arrangement without a leading zero, if and only if the number has no zero |
| `Digits.ReverseDifferenceByNines` | tools/src/math_task_factory/generators/large_arithmetic.py:130-132 | the distance of a number from the value of its digits read backwards, which is a multiple of nine |
| `Digits.ArithmeticTotalIsSum` | tools/src/math_task_factory/generators/large_arithmetic.py:64-65 | the halved product is the sum of the series, with nothing lost to the division |
| `Digits.SquareTotalIsSum` | tools/src/math_task_factory/generators/large_arithmetic.py:88 | the closed form is the sum of squares, with nothing lost to the division |
| `Base64Url.RoundTrip` | agents/src/base_agent/signing.py:122-132 | every byte string survives encoding and decoding |
| `Base64Url.PaddingIsRestored` | agents/src/base_agent/signing.py:122-132 | stripping removes exactly the padding of the encoding, and decoding puts exactly that padding back |
| `Base64Url.OnlyLetters` | agents/src/base_agent/signing.py:122-124 | the output has no padding, no dot and only ASCII letters of the alphabet |
| `Base64Url.EncodedLength` | agents/src/base_agent/signing.py:122-124 | n bytes take four thirds of n characters, rounded up |
| `Base64Url.DecodedThenEncodedIff` | agents/src/base_agent/signing.py:122-132 | a text that decodes, the plus, slash and foreign characters the decoder tolerates included, is the encoding of what it decodes to if and only if all its characters are letters of the alphabet and its spare bits are zero |
| `Base64Text.AlphabetInOrder` | agents/src/base_agent/signing.py:122-124 | the letters in the order of RFC 4648, Table 2 |
| `Base64Text.LettersAreSextets` | agents/src/base_agent/signing.py:122-124 | letter k of an encoding stands for bits 6k to 6k + 5 of the data, most significant first, with zeros behind the end |
| `Base64Text.DecodingTolerates` | agents/src/base_agent/signing.py:127-132 | decoding a text is decoding it with plus and slash as the last two letters and foreign characters left out |
| `Base64Text.PaddingEndsOrIsSkipped` | agents/src/base_agent/signing.py:127-132 | padding that completes a group ends the text, padding that comes too early is skipped |
| `Base64Text.UnfinishedGroupFails` | agents/src/base_agent/signing.py:127-132 | a text that ends within a group does not decode |
| `Jws.SplitUndoesJoinIff` | agents/src/base_agent/signing.py:187 | splitting undoes joining if and only if no part holds a dot |
| `Jws.CreatedTokenSplits` | agents/src/base_agent/signing.py:157-192 | verify_jws splits a created token into exactly the three parts that create_jws joined |
| `Jws.CreatedTokenVerifies` | agents/src/base_agent/signing.py:135-200 | a created token verifies under its key and gives its payload back |
| `Jws.AcceptedTokenSignsItself` | agents/src/base_agent/signing.py:187-200 | an accepted token is its own signing input, a dot and the text of a valid signature of that input, and the payload is read from the signed text |
| `Jws.AcceptsIff` | agents/src/base_agent/signing.py:187-200 | exactly which tokens are accepted, and with which payload |
| `Jws.TwoDotsOrInvalid` | agents/src/base_agent/signing.py:187-190 | a token is refused for its format if and only if it does not have two dots |
| `Jws.RefusedInOrder` | agents/src/base_agent/signing.py:187-200 | every other refusal of a token with its exact condition, the signature being looked at before the payload |
| `Jws.AsciiIsCodes` | agents/src/base_agent/signing.py:160-193 | the bytes signed and verified are the codes of all characters of header, dot and payload |
| `Jws.SignatureFixesToken` | agents/src/base_agent/signing.py:187-200 | if a signature is good for one message only, two accepted tokens with the same signature part are the same token |

## Left out

- Cancel and explicit approve on the board (task_manager.py, lines 512-536 and 954-978): they release the escrow before they write the status, so while one is suspended the funding invariant of the protocol does not hold.
- Creating a task as separate steps: the protocol posts a task in one step; what racing creations do is stated only by the lemma about the losing one.
- The board's task store behind the gateway: the protocol is about the in-memory store.
- Row timestamps of the ledger and the gateway's ordering of transactions by timestamp and id: the order of equal timestamps is not insertion order.
- Generated reference texts such as the one of a release: they are constructors, so a caller's reference never equals one.
- SQLite's type affinity, its rowid aliases as column names (the model answers them as unknown columns), case-insensitive column names, letters beyond ASCII in identifiers, 64-bit overflow and busy timeouts; a transaction is a working copy of the tables.
- Lookups, listings, error messages, status codes, HTTP, routing and configuration.
- Columns of a task that no modelled step reads.
- Python booleans passed as votes, and blanks beyond ASCII in a judge's texts.
- The remote feedback client: it looks the reverse up and posts in two separate calls, so the reveal is not atomic there.
- The order of rows with equal timestamps in the feedback readers.
- What the court's two feedback calls say (ruling_orchestrator.py, lines 76-89 and 159-186): only whether they succeed.
- Validation of feedback submissions: submissions to oneself are covered by the store's theorem although the service refuses them.
- Ed25519, JSON and unforgeability: abstract.
- The remaining generators of exercises, the judges, prompts, agents and the user interface.
- RulingProtocol.FailedRulingRestores: does not cover a cancelled call, because the handlers do not run for it; what it leaves is stated by RulingProtocol.AbandonedForGood.
- EscrowProtocol.MoneyFollowsTheTask: claims nothing about when an expired or approved task is paid, because no retry is ever triggered by reading it.
