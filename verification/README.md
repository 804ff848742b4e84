# Banking server: verified model

The program is a multi-threaded bank server over append-only record files: users, accounts, loans, transactions
and feedback, plus an in-memory session table. This project models it in Dafny and proves what every
interleaving of client threads keeps.

## How the model is built

* `Records.dfy` holds the records, the linear searches and the modifiers that run under a record lock.
* `Bank.dfy` is the **atomic machine**. Each thread carries a program counter through `deposit_money`,
  `withdraw_money`, `transfer_funds`, `apply_loan`, loan assignment and decision, status, role and password
  changes, and login. Each step is one locked region of the source; threads interleave freely between steps, and
  connections appear at any time. `history` is an auxiliary record of what happened to money and of the answers
  given to logins; no step reads it.
* `Locking.dfy` is the **fine machine**: the same operations at the granularity of single file accesses. A search
  reads one record at a time; an update searches, drops the search lock, locks the record, reads it into a local
  copy, runs the modifier and writes. Record locks and whole-file locks belong to threads.
* `Refinement.dfy` proves that every run of the fine machine is a run of the atomic machine on the same tables, so
  `Guarantees.dfy` restates the results of `BankInvariant.dfy`, `Money.dfy`, `LoanBook.dfy`, `Directory.dfy`,
  `History.dfy` and `Statements.dfy` for the fine machine.
* `Deadlock.dfy` shows that the lock order excludes deadlock, `Completion.dfy` that the operations under way can be
  brought to their end and that steps no lock stands against are steps of the fine machine. `LostTransfer.dfy` is a concrete run
  of the fine machine in which a transfer loses its money. `Logins.dfy` says what an interleaved login answers.
* `ProcessLocks.dfy` drops the waiting: the fine machine with locks that, as `fcntl` locks do, belong to the process.
  `LostDeposit.dfy` is a concrete run of it in which a deposit is lost.
* `Sequential.dfy` says what a request does when no other thread steps in between; `Server.dfy` holds the file
  loops and operations in the source's imperative form and proves each method against that.
* `Creation.dfy` models the locked regions of customer and staff creation against each other and against deposits, and
  says exactly when a creation is the single step that the other files take it for.
* `Directory.dfy` (uniqueness and undisturbed login), `History.dfy` and `Statements.dfy` (the two history views, and what
  their rows say of events and balances), `FeedbackBoard.dfy` (the batch review) and `Sessions.dfy` (the session table) cover the remaining components; `Folds.dfy` has the sums and counts.

## Modelling assumptions

* Outside `ProcessLocks.dfy` and `LostDeposit.dfy` a record lock or a whole-file lock excludes other threads, which is
  the design README.md:60-63 of the program describes. The write lock that searches request on a descriptor opened for
  reading may fail and the code ignores that, so the fine machine has a flag `scanLocks`; every result holds for both
  values.
* Amounts are exact reals. Record reads and writes are whole and succeed. Offsets count records, and identifiers do
  not overflow. Strings fit their buffers.
* A user creation, and an edit of a user's contact details, is one step. The code releases the users file between the
  uniqueness check, the identifier and the write, so uniqueness, dense identifiers and conservation are claimed for
  serialised creations and edits only; `Creation.dfy` gives the exact conditions when creations race. In the fine
  machine an edit waits until no lock of another thread covers the user's record.
* Files start empty and are filled by the program's own operations.

## Where the code and its documentation differ

README.md:36 and README.md:60-63 of the program say that record locks prevent races between clients. The locks are `fcntl`
locks, which belong to the process, and every client is a thread of one server process (src/server.c:407), so no thread
waits for another one's lock. Two deposits to one account can then both be accepted and logged and only one of them kept
(`DepositCanBeLost`). `FreeRunIsFineIffApart` says exactly which runs are runs with excluding locks, with all that is
proved of those; `MissingIsWrittenOver` says exactly how much money any other run loses, and `OneWriterKeepsMoney` that it
loses none while no two threads are between read and write of the same account.

README.md:55 of the program says that a failed transfer is rolled back so that consistency is kept. The rollback uses
`deposit_modifier`, which refuses an inactive account, so the money is lost when the sender has been deactivated
meanwhile. `TransferCanLoseMoney` is such a run, `RollbackExactly` says when each branch is taken, and
`NothingLostIffSendersActive` says for whole runs that nothing is missing at rest if and only if no thread gave a
withdrawal back while the sender was inactive.

README.md:79 says that the uniqueness check under a file lock keeps two users from being created with the same
username, email or phone. The lock is dropped between check, identifier and write: two creations can be written with the
same contacts (`ContactsCanCollide`), a creation reported as successful can be replaced by the next one
(`CreationCanBeLost`), and the account write of the second can set an account to zero that has received a deposit
(`DepositCanBeErased`). `DistinctIffNobodyTookContacts`, `AppendsIffNobodyCameBetween` and
`NothingErasedIffNoOverwrite` say exactly when this does not happen.

README.md:35 describes the session table. A connection that logs in while it already holds a session leaves the first
session in the table for good (`SessionCanLeak`, `LeaksExactly`, `LeakIsForever`), and a login into a full table is
reported as a success although nothing is stored (`LoginCanBeLost`).

## Model

| member | source | states |
|---|---|---|
| Guarantees.Conservation | src/customer_module.c:136-186 | with creations serialised, in every state of every interleaving of file accesses balances plus money in flight plus money lost to refused rollbacks equal deposits plus loan credits minus withdrawals; no balance is negative and every stored loan amount is positive |
| Guarantees.NothingLostIffSendersActive | src/customer_module.c:169-174 | a run of file accesses that ends at rest has kept all money that entered if and only if no thread gave a withdrawal back while the account of the sender was inactive |
| Money.MoneyIsConserved | src/customer_module.c:91-186 | the same conservation and non-negative balances for every reachable state of the atomic machine |
| Money.ConservedAfter | src/customer_module.c:157-174 | one step that obeys its local ledger equation keeps the global one whatever the other threads hold in flight |
| Money.AdvanceTotal | src/customer_module.c:157-174 | the local ledger equation of every step: what leaves an account enters flight, an account, or the losses |
| Money.AtomicNothingLostIffSendersActive | src/customer_module.c:169-174 | a run of the atomic machine that ends at rest has kept all money that entered if and only if no thread gave a withdrawal back while the account of the sender was inactive |
| Money.RefusalsAdded | src/customer_module.c:14-19 | a refusal enters the history by exactly the rollback steps taken while the sender is inactive |
| Money.RollbackExactly | src/customer_module.c:168-174 | a transfer turns to rollback if and only if the recipient is inactive at the deposit, and the rollback loses the amount if and only if the sender is inactive at that step |
| Money.RollbackEntry | src/customer_module.c:168-174 | a rollback is entered only from the deposit of the same transfer, while its recipient is inactive |
| Money.NoDeactivationNoRollback | src/customer_module.c:149-174 | over any run in which the recipient stays active, no thread enters a rollback of a transfer to it |
| LostTransfer.TransferCanLoseMoney | src/customer_module.c:169-174 | between single file accesses, for either lock setting, a run that comes to rest with 100 deposited, nothing withdrawn, and every balance 0 |
| Guarantees.BalancesFollowLog | src/customer_module.c:91-186 | in every state of every interleaving of file accesses a balance is its logged effects plus the applied but unlogged ones minus refused rollbacks |
| Money.LogExplainsBalances | src/customer_module.c:91-186 | the same for the atomic machine; at rest with no refusal the log alone gives every balance |
| Money.AdvanceExplains | src/employee_module.c:52-62 | what one step does to a user's balance is what it logs plus what it leaves unlogged |
| Guarantees.LoansCreditedOnce | src/employee_module.c:26-76 | under any number of concurrent decisions a loan is credited at most once, and it has been credited if and only if it is stored as approved or its approval is between credit and write |
| LoanBook.LoanCreditedAtMostOnce | src/employee_module.c:39-64 | the same for the atomic machine |
| LoanBook.OneApprover | src/utils.c:257-284 | at most one thread is between credit and approval of a loan, and none once the loan is approved |
| LoanBook.LoanDepositsAreApprovedLoans | src/employee_module.c:60-62 | when no approval is mid-flight, the log holds for every borrower and amount exactly as many loan deposits as there are approved loans |
| Guarantees.DepositsAreApprovedLoans | src/employee_module.c:60-62 | in every state between file accesses with no approval mid-flight, the log holds for every borrower and amount exactly as many loan deposits as there are approved loans |
| LoanBook.StatusMovesForward | src/employee_module.c:30-71 | a step moves a loan at most one stage along pending, assigned, then approved or rejected, and only by the write of the thread that holds it, so an aborted approval leaves the stored loan unchanged |
| LoanBook.AssigneeStaysStaff | src/manager_module.c:38-59 | once a loan is no longer pending its assignee is fixed and is an employee or manager in all later states, despite role changes |
| Refinement.FineRunsAreAtomicRuns | src/utils.c:205-234 | every run at file-access granularity, with or without effective search locks, is a run of the atomic machine on the same tables |
| Refinement.AccessRefines | src/utils.c:205-234 | each file access is invisible or is exactly one enabled atomic find-and-modify, lookup or append |
| Refinement.SearchAnswersForItsStart | src/utils.c:185-202 | a record-by-record search with other steps in between ends on the record that was there at its start, and reaches the end of the file only if there was none |
| Refinement.OffsetStaysValid | src/utils.c:206-214 | an offset found stays the first matching record under all later steps of other threads |
| Refinement.WritesUnderLock | src/utils.c:214-231 | an account or user record is written only by a thread that holds its lock |
| Refinement.FineStepKeeps | src/utils.c:10-65 | every file access, lock release, request and administration step keeps the locks of different threads apart and every local copy current |
| Guarantees.NoUpdateIsLost | src/utils.c:222-230 | when an account is written back the local copy is the current record of the account asked for; a refusing modifier changes nothing, an accepting one changes that record only |
| Guarantees.NoUserUpdateIsLost | src/utils.c:155-182 | when a user record is written back the local copy is the current record of the identifier asked for; a refusing modifier changes nothing, an accepting one changes that record only |
| Guarantees.OneWriterPerAccount | src/utils.c:214-231 | no two threads are between read and write of the same account |
| Guarantees.SearcherIsAlone | src/utils.c:185-202 | when the locks around searches take effect, no other thread holds any lock on a file that is being searched, so none is about to write a record of it or to append to it |
| ProcessLocks.FreeRunIsFineIffApart | src/utils.c:46-54 | a run in which no thread waits for a lock is a run with excluding locks if and only if in each of its states the locks of different threads are compatible |
| ProcessLocks.MissingIsWrittenOver | src/utils.c:205-234 | over any run in which no thread waits, the money missing is exactly the sum, over the writes, of what the stored account held more than the copy written back |
| ProcessLocks.OneWriterKeepsMoney | src/utils.c:205-234 | in such a run no copy is stale and no money is missing as long as no two threads have been between read and write of the same account |
| ProcessLocks.BothKeptIffApart | src/utils.c:220-230 | of two threads that have read accounts and then write both, both changes are in the accounts if and only if the accounts differ or the first change moves no money |
| LostDeposit.DepositCanBeLost | src/customer_module.c:91-111 | for either lock setting a run in which no thread waits that comes to rest with two deposits of 100 accepted and logged, nothing refused, and 100 in the accounts |
| Deadlock.NoDeadlock | src/employee_module.c:39-64 | in every reachable state with a thread inside an operation some thread can take a step that changes the state |
| Deadlock.SomeoneMovesAbove | src/utils.c:95-106 | following blockers upward in the order loans, users, accounts, transactions ends at a thread that can move |
| Deadlock.WaitsUpward | src/manager_module.c:46-51 | a thread waits only for a lock on a file above every file it holds a lock on |
| Completion.OperationsComplete | src/utils.c:205-234 | from every state that arises between file accesses some continuation of accesses and releases alone brings all threads to rest |
| Completion.ComesToRest | src/utils.c:205-234 | from every state of the invariant, reachable or not, some continuation of accesses and releases alone brings all threads to rest |
| Completion.ProgressIsNearer | src/utils.c:205-234 | every access and every release, of whatever thread, lowers one rank of the whole machine, so no schedule of accesses and releases keeps the operations under way going for ever |
| Completion.StepsLeftNeverGrow | src/utils.c:205-234 | without new requests no step, of whatever kind, adds to the atomic steps that are left; connections and administration leave them exactly as they are |
| Completion.OnlyCreationsProlong | src/utils.c:185-202 | administration that creates no user leaves the accesses and releases that are left exactly as they are; only a creation makes the searches under way longer |
| Completion.UndisturbedStep | src/utils.c:205-234 | while no other thread holds a lock, a thread takes its atomic step by file accesses and releases of its own |
| Completion.AttainedStep | src/utils.c:205-234 | while no thread holds a lock between steps, every step of the atomic machine is one of the fine machine |
| Guarantees.SearchIsIndexing | src/utils.c:135-152 | identifiers are dense from 1001 for users and from 1 for loans and log records, so the linear searches equal direct indexing |
| Guarantees.GeneratedIdIsFresh | src/utils.c:360-388 | a generated identifier is in no record, so user and account creation append |
| Guarantees.OneAccountPerCustomer | src/employee_module.c:141-165 | a user is a customer if and only if an account carries its identifier; accounts have distinct owners and account_id equals user_id |
| BankInvariant.StepKeeps | src/admin_module.c:80-105 | every step keeps dense identifiers, one account per customer, ranges, staff behind assigned loans, exclusive loan holders and current local copies, and changes tables only by appends, with immutable keys and forward-moving loans |
| BankInvariant.RunKeeps | src/utils.c:390-474 | over every run the tables stay valid, grow only by appending and keep their keys |
| BankInvariant.AdministerKeeps | src/employee_module.c:141-165 | creation and edits keep all table invariants and touch neither loans nor log |
| BankInvariant.CreationAppends | src/utils.c:360-388 | for a new identifier the update branch of write_user and write_account is never taken |
| Sequential.AloneIsReached | src/customer_module.c:136-186 | a request run to its end with no other thread stepping is a run of the machine, it ends, and it adds to the history what the request alone adds |
| Sequential.TransferAloneIsAtomic | src/customer_module.c:136-186 | with no interleaving a transfer moves the amount and writes both log records when request and accounts allow it, and otherwise changes nothing |
| Sequential.TransferIsExact | src/customer_module.c:136-186 | the same field by field: the amount moves and the two records are written if and only if the sender is active and holds the amount and the recipient is active, and no other record changes |
| Sequential.TransferStopsAtCheck | src/customer_module.c:149-154 | a transfer to a missing or inactive recipient ends at the check and never debits the sender |
| Sequential.ApprovalAloneIsAtomic | src/employee_module.c:39-76 | with no interleaving an approval credits, logs and marks the loan together, or changes nothing |
| Sequential.OtherDecisionAlone | src/employee_module.c:65-71 | with no interleaving a rejection marks the loan only, and any other action changes nothing |
| Sequential.AssignmentAlone | src/manager_module.c:38-59 | with no interleaving a pending loan goes to an existing user whose role is employee, and otherwise nothing changes |
| Sequential.ApplicationAlone | src/customer_module.c:189-202 | with no interleaving a positive application appends one pending, unassigned loan of the applicant and the amount applied for, and any other changes nothing |
| BankServer.Server.FindAccountOffset | src/utils.c:185-202 | the scan returns the first record of the user, or -1 if and only if there is none |
| BankServer.Server.FindUserOffset | src/utils.c:135-152 | the scan returns the first record of the identifier, or -1 if and only if there is none |
| BankServer.Server.FindLoanOffset | src/utils.c:237-254 | the scan returns the first record of the identifier, or -1 if and only if there is none |
| BankServer.Server.ReadAccount | src/utils.c:291-307 | the record of the user, or nothing if there is none |
| BankServer.Server.ReadUser | src/utils.c:341-357 | the record of the identifier, or nothing if there is none |
| BankServer.Server.AtomicUpdateAccount | src/utils.c:205-234 | success if and only if the account exists and the modifier accepts; then exactly that record is rewritten, otherwise none |
| BankServer.Server.AtomicUpdateUser | src/utils.c:155-182 | success if and only if the user exists and the modifier accepts; then exactly that record is rewritten, otherwise none |
| BankServer.Server.AppendTransaction | src/utils.c:391-400 | appends the record with the next dense identifier |
| BankServer.Server.DepositMoney | src/customer_module.c:91-111 | accepted if and only if the amount is positive and the account exists and is active; then balance and log move together |
| BankServer.Server.WithdrawMoney | src/customer_module.c:114-133 | accepted if and only if the amount is positive and the account is active and holds it; then balance and log move together |
| BankServer.Server.FinishTransfer | src/customer_module.c:168-185 | from any state the deposit half succeeds if and only if the recipient may receive, and otherwise gives the money back if and only if the sender is active |
| BankServer.Server.TransferFunds | src/customer_module.c:136-186 | accepted if and only if the ids differ, the amount is positive, the sender can pay and the recipient is active; then both balances and both records change as TransferIsExact says, otherwise nothing |
| BankServer.Server.ApplyLoan | src/customer_module.c:189-202 | a positive amount appends one pending, unassigned loan of the user and that amount with the next dense identifier; any other changes nothing |
| BankServer.Server.ApproveRejectModifier | src/employee_module.c:26-76 | the decision on the local copy, the nested credit and log record on approval, and no effect on refusal |
| BankServer.Server.ApproveRejectLoan | src/employee_module.c:80-90 | an approval is accepted if and only if the loan is assigned to that employee and the borrower is active, and then marks, credits and logs together; a rejection marks only; anything else changes nothing |
| BankServer.Server.AssignLoanToEmployee | src/manager_module.c:38-73 | assigns exactly a pending loan to exactly an employee, otherwise changes nothing |
| BankServer.Server.SetAccountStatus | src/manager_module.c:13-28 | succeeds if and only if the account exists; status 1 activates, any other deactivates, the balance stays |
| BankServer.Server.ChangeRole | src/admin_module.c:80-122 | succeeds if and only if the user is an employee or manager and the new role is one of these |
| BankServer.Server.ChangePassword | src/customer_module.c:46-55 | succeeds if and only if the user exists; then the given hash is the stored one and nothing else changes |
| BankServer.Server.LoginUser | src/utils.c:91-129 | the loop that stops at the first record of the name computes the login outcome, which is the one answer of the request run alone |
| BankServer.Server.CheckUniqueness | src/utils.c:539-574 | true if and only if no record other than the skipped one shares username, email or phone |
| BankServer.Server.GenerateNewUserId | src/utils.c:527-536 | 1001 plus the number of users; with dense identifiers it is above every stored one, and a further record keeps them dense if and only if it has the new identifier |
| BankServer.Server.WriteUser | src/utils.c:360-388 | overwrites the record with the same identifier or appends |
| BankServer.Server.WriteAccount | src/utils.c:310-338 | overwrites the record of the same user or appends |
| BankServer.Server.AddNewCustomer | src/employee_module.c:141-165 | succeeds if and only if no stored user shares a contact; the appended records have the given name, hash, profile and contacts, the role customer, are active and start with balance 0; has the effect of the creation step |
| BankServer.Server.AddEmployee | src/admin_module.c:125-167 | succeeds if and only if no stored user shares a contact and the role name is employee, manager or admin; the appended record has the role so named, the given name, hash, profile and contacts, and is active; has the effect of the creation step |
| BankServer.Server.ModifyProfile | src/admin_module.c:41-56 | succeeds if and only if the user exists, is a customer where only customers may be edited, and the contacts stay unique; identifier, name, role and password stay; has the effect of the edit step of the customer or of the general command |
| Directory.UsersStayDistinct | src/utils.c:539-574 | in every reachable state usernames, emails and phones are each pairwise distinct |
| Guarantees.ContactsStayDistinct | src/utils.c:539-574 | in every state between file accesses usernames, emails and phones are each pairwise distinct |
| Directory.CreationCheckIsExact | src/employee_module.c:142-144 | the check with identifier 0 skips no record: it accepts if and only if the table stays distinct with the new user |
| Directory.EditCheckIsExact | src/employee_module.c:112-115 | the check made by an edit accepts if and only if the table stays distinct with the new contacts |
| Directory.LoginIsDeclarative | src/utils.c:91-129 | on the tables of one reachable state, an undisturbed login is accepted for a user if and only if that user exists, has the name and password, and user and account are active; the deactivated answer is characterised likewise |
| Directory.LoginAlone | src/utils.c:91-129 | a login request run alone changes no table and gives exactly one answer, the login outcome for the name and password of the request |
| Logins.LoginAnswersFromRun | src/utils.c:98-124 | in every run of file accesses, for either lock setting: from a request to log a name in with a password on, no access answers anything until the one that ends that login, and that one adds exactly one answer, the one an undisturbed login of that name and password would give on the users of the state of its own lookup and the accounts as they are |
| Logins.LoginAnswersNow | src/utils.c:96-127 | when the file lock around a login takes effect, the access that ends a requested login adds exactly one answer, the one an undisturbed login of that name and password would give at that access |
| Logins.LoginWasRequested | src/server.c:92-101 | every login under way in a run of file accesses was requested in an earlier step of the run and has not ended since |
| Creation.SerialCreationIsAtomic | src/employee_module.c:141-165 | a customer or staff creation whose regions follow one another has the effect of the atomic creation step |
| Creation.AppendsIffNobodyCameBetween | src/employee_module.c:145-158 | over any run of concurrent creations and deposits the user write appends if and only if no user was added since the identifier was generated; otherwise it replaces that other new user |
| Creation.DistinctIffNobodyTookContacts | src/employee_module.c:142-158 | over any run from a successful check to the user write, the write keeps contacts distinct if and only if no record written in between, other than the one it replaces, shares a username, email or phone with the form |
| Creation.NothingErasedIffNoOverwrite | src/utils.c:317-326 | over any run of concurrent creations and deposits, all deposits are in the accounts if and only if no creator wrote an account over one that held money |
| Creation.AccountWriteErases | src/utils.c:317-326 | the account write of a creation takes exactly the balance of an existing account of that user out of the total |
| Creation.DepositCanBeErased | src/employee_module.c:141-165 | for any two customer forms a run in which both creations succeed and a deposit of 100 is in no account |
| Creation.CreationCanBeLost | src/employee_module.c:141-165 | for a customer form and any other a run in which both creations succeed and only the second user exists, with an account even when that user is staff |
| Creation.ContactsCanCollide | src/utils.c:539-574 | for any form a run that stores two users with its username, email and phone |
| Creation.PutExactly | src/utils.c:360-388 | writing a user with an identifier generated earlier appends it or replaces exactly the record of that identifier |
| History.ScanBackward | src/customer_module.c:293-340 | the backward scan ends after one read per record and yields the rows newest first, for every way of making rows, including empty and one-record logs |
| History.EveryRecordOnce | src/customer_module.c:293-340 | when every record is shown, record i of n is row n-1-i |
| History.ViewTransactionHistory | src/customer_module.c:280-349 | the customer's view is the reversed log filtered to the user |
| History.ViewCustomerTransactions | src/employee_module.c:232-304 | the employee's view, refused when the user is not a customer |
| History.ViewsAgree | src/employee_module.c:265-285 | on every reachable log both views are the same sequence of rows |
| Guarantees.HistoriesAgree | src/employee_module.c:265-285 | in every state between file accesses the customer's and the employee's view of the log are the same sequence of rows |
| History.RowsAgreeExactly | src/employee_module.c:265-285 | on a single record the views agree for all users if and only if a deposit names no source and a withdrawal no target |
| History.TransfersShownToBoth | src/customer_module.c:316-324 | with no record of it pending, a transfer completed n times is n rows of the sender's view and n rows of the recipient's |
| Guarantees.TransfersAreShown | src/customer_module.c:316-324 | in every state between file accesses with no record of it pending, a transfer completed n times is n rows on each side |
| History.TransferRowsArePrivate | src/customer_module.c:316-324 | a transfer record is a row of its own side's view and of nobody else's |
| Statements.DepositsAreShown | src/customer_module.c:306-309 | with no record of them pending, n deposits of an amount by a user are n deposit rows of that amount, naming no other account, in the view the user is given |
| Statements.WithdrawalsAreShown | src/customer_module.c:311-314 | with no record of them pending, n withdrawals of an amount by a user are n withdrawal rows of that amount |
| Statements.LoanPaymentsAreShown | src/customer_module.c:326-330 | with no record of them pending, n loans of an amount paid to a user are n loan rows of that amount |
| Guarantees.MovementsAreShown | src/customer_module.c:293-340 | the three results in every state between file accesses |
| Statements.ViewAddsUp | src/customer_module.c:293-340 | for every log the signed sum of the rows a user is shown is what the log says of that user |
| Statements.ViewExplainsBalance | src/customer_module.c:293-340 | a balance is the sum of the rows shown plus applied but unlogged effects minus refused rollbacks; at rest with no refusal it is the sum of the rows |
| Guarantees.ViewExplainsBalance | src/customer_module.c:293-340 | the same equation in every state between file accesses |
| FeedbackBoard.Board.ReviewFeedbacks | src/manager_module.c:108-149 | the in-place loop sets the reviewed flag of every record and changes nothing else, lists each unreviewed record once in file order, counts them, and keeps identifiers dense |
| FeedbackBoard.Board.AddFeedback | src/customer_module.c:237-246 | appends an unreviewed record with the next dense identifier |
| FeedbackBoard.ReviewIsIdempotent | src/manager_module.c:108-149 | a second review changes nothing and counts zero |
| FeedbackBoard.ReviewKeepsContents | src/manager_module.c:120-136 | a review keeps identifier, user, message and action, and changes the table if and only if something was unreviewed |
| Sessions.NoDoubleLogin | src/server.c:107-143 | in every run no user has two slots, no two connections own the same user, and every owned user is in the table |
| Sessions.LeavingUndoesLogin | src/server.c:139-143 | a stored login followed by a logout restores table and connection exactly, so the connection can log in again; a disconnect frees the slot and the connection takes no further step |
| Sessions.SlotsAreOwners | src/server.c:107-143 | in runs without a login on a connection that holds a session, the occupied slots are exactly the owned users |
| Sessions.LoginFindsSlot | src/server.c:123-130 | in such runs with at most MAX_SESSIONS live connections an accepted login always finds a slot |
| Sessions.LeaksExactly | src/server.c:123-130 | a slot loses its owner if and only if its connection logs in as a user without a slot while a slot is free |
| Sessions.LeakIsForever | src/server.c:58-67 | a slot without owner is never freed and its user is refused at every later login |
| Sessions.SessionCanLeak | src/server.c:123-130 | a run from the empty table in which a connection logs in twice and leaks the slot of its first user |
| Sessions.LoginCanBeLost | src/server.c:123-138 | a run of MAX_SESSIONS + 1 connections, each logged in once, after which an accepted login changes neither table nor connection: the bound of LoginFindsSlot is tight |
| Sessions.SessionTable.Login | src/server.c:110-134 | refused if and only if the user has a slot; otherwise stored in the first free slot, or not at all when the table is full |
| Sessions.SessionTable.RemoveActiveSession | src/server.c:58-67 | frees the first slot of the user and no other |
| Sessions.RemoveExactly | src/server.c:58-67 | removing a user frees that user's slot, touches no other and keeps slots distinct |
| Sessions.ClaimExactly | src/server.c:110-130 | a claim is stored if and only if the user has no slot and one is free, and adds that user only |

## Left out

- Sockets, the accept loop, signal handling and message transport: input and output plumbing.
- Payload parsing and routing: `modify_user` is modelled as a function because its route expects six conversions from a seven-field format and rejects well-formed requests.
- The client program, its prompts and validators, `db_inspector.c`, `bootstrap.c` and the build script: interface, dump, seeding and build.
- Password hashing: a foreign call; a hash is an opaque string and verification a parameter.
- Response texts, the re-read that chooses an error text, `strncat` truncation and timestamps: results are success flags and rows.
- Rounding, NaN and infinity of `double` amounts: amounts are exact reals.
- Partial writes, crashes and failing `open` calls: the code ignores most of them, so there is no guarantee to prove.
- Truncation of over-long fields by `strncpy`: fields are assumed to fit.
- Interleaving of creation regions with withdrawals, transfers, loans and edits: outside `Creation.dfy` a creation or an edit is one step, so the nested locks on the users file during an edit are not part of the deadlock result.
- Listing functions for loans, feedback and users, `view_balance` and `view_personal_details`: plain reads and filters.
- ProcessLocks.MissingIsWrittenOver: an append stays one access in that machine, so two appends that compute the same position are not modelled there, and an edit still waits for the record it changes.
- Completion.OperationsComplete: says that the operations under way can be completed, not that a waiting thread is served while new requests keep arriving, because the lock manager's fairness is not part of the program.
