/** The results of the atomic machine, stated for the bank as it runs: threads interleaving between single
    file accesses, whether or not the locks around searches take effect. */
module Guarantees {
  import opened Folds
  import opened Records
  import opened Bank
  import opened BankInvariant
  import opened Money
  import opened LoanBook
  import opened Locking
  import opened Refinement
  import Directory
  import History
  import Statements

  ghost predicate FineRunTo(run: seq<Fine>, f: Fine) {
    |run| > 0 && FineRun(run) && run[0] == FineInitial(f.scanLocks) && run[|run| - 1] == f
  }

  ghost predicate Arises(f: Fine) {
    exists run: seq<Fine> :: FineRunTo(run, f)
  }

  lemma ArisesMeans(f: Fine)
    requires Arises(f)
    ensures Reachable(Abs(f)) && FineInv(f)
  {
    var run :| FineRunTo(run, f);
    FineRunsAreAtomicRuns(run, f.scanLocks);
  }

  lemma PcsAt(f: Fine)
    ensures |Abs(f).threads| == |f.threads|
    ensures forall k :: 0 <= k < |f.threads| ==> Abs(f).threads[k] == f.threads[k].pc
  {
  }

  // ----- Money

  /** No balance is ever negative and no money is created or destroyed, except by refused rollbacks. */
  lemma Conservation(f: Fine)
    requires Arises(f)
    ensures Sum(Balance, f.tables.accounts) + Sum(InFlight, Pcs(f.threads)) + Sum(Lost, f.history)
              == Sum(Entered, f.history)
    ensures forall i :: 0 <= i < |f.tables.accounts| ==> f.tables.accounts[i].balance >= 0.0
    ensures forall i :: 0 <= i < |f.tables.loans| ==> f.tables.loans[i].amount > 0.0
  {
    ArisesMeans(f);
    assert forall i :: 0 <= i < |f.tables.loans| ==> LoanOk(f.tables.users, f.tables.loans[i]);
    MoneyIsConserved(Abs(f));
  }

  /** A run that ends at rest has kept all the money that entered if and only if no thread gave a withdrawal
      back while the sender's account was inactive. */
  lemma NothingLostIffSendersActive(run: seq<Fine>, f: Fine)
    requires FineRunTo(run, f) && AllAtRest(f)
    ensures Sum(Balance, f.tables.accounts) == Sum(Entered, f.history)
            <==> forall i: nat :: i + 1 < |run| ==> !RollbackToInactiveAt(AbsRun(run), i)
  {
    FineRunsAreAtomicRuns(run, f.scanLocks);
    PcsAt(f);
    AtomicNothingLostIffSendersActive(AbsRun(run), Abs(f));
  }

  /** The log explains every balance up to applied but unlogged effects and refused rollbacks. */
  lemma BalancesFollowLog(f: Fine, u: nat)
    requires Arises(f)
    ensures BalanceOf(f.tables.accounts, u)
              == Sum(LoggedFor(u), f.tables.log) + Sum(UnloggedFor(u), Pcs(f.threads)) - Sum(LostFor(u), f.history)
  {
    ArisesMeans(f);
    LogExplainsBalances(Abs(f), u);
  }

  // ----- Loans

  /** Concurrent decisions credit a loan at most once, and only on its way to APPROVED. */
  lemma LoansCreditedOnce(f: Fine, id: nat)
    requires Arises(f)
    ensures Count(CreditsOf(id), f.history) <= 1
    ensures Count(CreditsOf(id), f.history) == 1 <==>
              || (exists i :: 0 <= i < |f.tables.loans| && ApprovedAs(f.tables.loans[i], id))
              || (exists k :: 0 <= k < |f.threads| && MidApproval(f.threads[k].pc, id))
  {
    ArisesMeans(f);
    LoanCreditedAtMostOnce(Abs(f), id);
    PcsAt(f);
    if k :| 0 <= k < |f.threads| && MidApproval(f.threads[k].pc, id) {
      assert MidApproval(Abs(f).threads[k], id);
    }
  }

  /** While no approval is between its log record and its write, the loan deposits in the log are, for every
      borrower and amount, as many as the approved loans. */
  lemma DepositsAreApprovedLoans(f: Fine, u: nat, a: real)
    requires Arises(f) && forall k :: 0 <= k < |f.threads| ==> !ApprovalMidFlight(f.threads[k].pc)
    ensures Count(LogsLoanOf(u, a), f.tables.log) == Count(IsApprovedOf(u, a), f.tables.loans)
  {
    ArisesMeans(f);
    PcsAt(f);
    LoanDepositsAreApprovedLoans(Abs(f), u, a);
  }

  // ----- Updates

  /** When a thread is about to write back an account, its copy is the current record of the account it was
      asked for, so the write loses no other update; a refusing modifier changes nothing, an accepting one
      changes that record only. */
  lemma NoUpdateIsLost(f: Fine, k: nat)
    requires Arises(f) && k < |f.threads| && f.threads[k].micro.LoadedAccount? && f.threads[k].pc.Update?
    ensures var (job, slot, acc) := (f.threads[k].pc.job, f.threads[k].micro.slot, f.threads[k].micro.acc);
            && slot < |f.tables.accounts| && f.tables.accounts[slot] == acc && acc.userId == JobUser(job)
            && FineDo(f, Access(k)).tables.accounts
                 == (match ModifyAccount(acc, JobChange(job))
                     case None => f.tables.accounts
                     case Some(acc') => f.tables.accounts[slot := acc'])
  {
    ArisesMeans(f);
    assert MicroOk(f.tables, f.threads[k]);
  }

  /** The same for a user record: a role or password change is made to the current record. */
  lemma NoUserUpdateIsLost(f: Fine, k: nat)
    requires Arises(f) && k < |f.threads| && f.threads[k].micro.LoadedUser? && f.threads[k].pc.UpdateRecord?
    ensures var (pc, slot, user) := (f.threads[k].pc, f.threads[k].micro.slot, f.threads[k].micro.user);
            && slot < |f.tables.users| && f.tables.users[slot] == user && user.id == pc.user
            && FineDo(f, Access(k)).tables.users
                 == (match ModifyUser(user, pc.change)
                     case None => f.tables.users
                     case Some(user') => f.tables.users[slot := user'])
  {
    ArisesMeans(f);
    assert MicroOk(f.tables, f.threads[k]);
  }

  /** Threads that have read an account and not yet written it back hold its lock. */
  lemma WriterHoldsLock(f: Fine, k: nat)
    requires k < |f.threads| && f.threads[k].micro.LoadedAccount?
    ensures Record(AccountsFile, f.threads[k].micro.slot) in Holds(f.scanLocks, f.threads[k])
  {
  }

  lemma NeverBoth(f: Fine, j: nat, k: nat, lock: Lock)
    requires Apart(f) && j < |f.threads| && k < |f.threads| && j != k && lock in Holds(f.scanLocks, f.threads[j])
    ensures lock !in Holds(f.scanLocks, f.threads[k])
  {
    assert Conflict(lock, lock);
    assert Compatible(Holds(f.scanLocks, f.threads[j]), Holds(f.scanLocks, f.threads[k]));
  }

  /** No two threads are between read and write of the same account. */
  lemma OneWriterPerAccount(f: Fine, j: nat, k: nat)
    requires Arises(f) && j < |f.threads| && k < |f.threads| && j != k
    requires f.threads[j].micro.LoadedAccount? && f.threads[k].micro.LoadedAccount?
    ensures f.threads[j].micro.slot != f.threads[k].micro.slot
  {
    ArisesMeans(f);
    WriterHoldsLock(f, j);
    WriterHoldsLock(f, k);
    NeverBoth(f, j, k, Record(AccountsFile, f.threads[j].micro.slot));
  }

  // ----- Tables

  /** Identifiers are dense, so every linear search is direct indexing. */
  lemma SearchIsIndexing(f: Fine, id: nat)
    requires Arises(f)
    ensures FindUser(f.tables.users, id)
              == if FIRST_USER_ID <= id < FIRST_USER_ID + |f.tables.users| then id - FIRST_USER_ID else |f.tables.users|
    ensures FindLoan(f.tables.loans, id) == if 1 <= id <= |f.tables.loans| then id - 1 else |f.tables.loans|
    ensures forall i :: 0 <= i < |f.tables.log| ==> f.tables.log[i].id == i + 1
  {
    ArisesMeans(f);
    var (users, loans) := (f.tables.users, f.tables.loans);
    if FIRST_USER_ID <= id < FIRST_USER_ID + |users| {
      assert users[id - FIRST_USER_ID].id == id;
    }
    if 1 <= id <= |loans| {
      assert loans[id - 1].id == id;
    }
  }

  /** A generated identifier is fresh: creation takes the append branch for user and account alike. */
  lemma GeneratedIdIsFresh(f: Fine, user: User, acc: Account)
    requires Arises(f) && user.id == NewUserId(f.tables.users) && acc.userId == user.id
    ensures PutUser(f.tables.users, user) == f.tables.users + [user]
    ensures PutAccount(f.tables.accounts, acc) == f.tables.accounts + [acc]
  {
    ArisesMeans(f);
    CreationAppends(f.tables, user);
  }

  /** Every customer has exactly one account, numbered like the customer, and nobody else has one. */
  lemma OneAccountPerCustomer(f: Fine, k: nat)
    requires Arises(f) && k < |f.tables.users|
    ensures f.tables.users[k].role == Customer <==>
              exists i :: 0 <= i < |f.tables.accounts| && f.tables.accounts[i].userId == f.tables.users[k].id
    ensures forall i, j :: 0 <= i < j < |f.tables.accounts| ==>
              f.tables.accounts[i].userId != f.tables.accounts[j].userId
    ensures forall i :: 0 <= i < |f.tables.accounts| ==>
              && f.tables.accounts[i].accountId == f.tables.accounts[i].userId
              && IsCustomer(f.tables.users, f.tables.accounts[i].userId)
  {
    ArisesMeans(f);
    var id := f.tables.users[k].id;
    assert id == FIRST_USER_ID + k;
    assert IsCustomer(f.tables.users, id) ==> HasAccount(f.tables.accounts, id);
  }

  /** No two users ever share a username, an email or a phone. */
  lemma ContactsStayDistinct(f: Fine)
    requires Arises(f)
    ensures Directory.Distinct(f.tables.users)
  {
    ArisesMeans(f);
    Directory.UsersStayDistinct(Abs(f));
  }

  // ----- Histories

  /** Customer and employee are shown the same rows in the same order. */
  lemma HistoriesAgree(f: Fine, user: nat)
    requires Arises(f)
    ensures History.Latest(History.CustomerRowFor(user), f.tables.log)
              == History.Latest(History.EmployeeRowFor(user), f.tables.log)
  {
    ArisesMeans(f);
    History.ViewsAgree(Abs(f), user);
  }

  /** With no record of it still to be written, a transfer completed n times is n rows on each side. */
  lemma TransfersAreShown(f: Fine, from: nat, to: nat, a: real)
    requires Arises(f)
    requires forall k :: 0 <= k < |f.threads| ==>
               !History.WillLogOut(f.threads[k].pc, from, to, a) && !History.WillLogIn(f.threads[k].pc, from, to, a)
    ensures Count(History.RowIs(History.Row(History.SentRow, a, to)), Statements.View(from, f.tables.log))
              == Count(History.DoneOf(from, to, a), f.history)
    ensures Count(History.RowIs(History.Row(History.ReceivedRow, a, from)), Statements.View(to, f.tables.log))
              == Count(History.DoneOf(from, to, a), f.history)
  {
    ArisesMeans(f);
    PcsAt(f);
    Statements.TransfersAreShown(Abs(f), from, to, a);
  }

  /** With no record of them still to be written, deposits, withdrawals and loan payments are rows of their kind as
      often as they happened. */
  lemma MovementsAreShown(f: Fine, u: nat, a: real)
    requires Arises(f)
    ensures (forall k :: 0 <= k < |f.threads| ==> f.threads[k].pc != Append(DepositEntry(u, a))) ==>
              Count(History.RowIs(History.Row(History.DepositRow, a, 0)), Statements.View(u, f.tables.log))
                == Count(Statements.DepositOf(u, a), f.history)
    ensures (forall k :: 0 <= k < |f.threads| ==> f.threads[k].pc != Append(WithdrawEntry(u, a))) ==>
              Count(History.RowIs(History.Row(History.WithdrawRow, a, 0)), Statements.View(u, f.tables.log))
                == Count(Statements.WithdrawalOf(u, a), f.history)
    ensures (forall k :: 0 <= k < |f.threads| ==> !Statements.LogsLoanFor(f.threads[k].pc, u, a)) ==>
              Count(History.RowIs(History.Row(History.LoanRow, a, 0)), Statements.View(u, f.tables.log))
                == Count(Statements.LoanPaidTo(u, a), f.history)
  {
    ArisesMeans(f);
    PcsAt(f);
    if forall k :: 0 <= k < |f.threads| ==> f.threads[k].pc != Append(DepositEntry(u, a)) {
      Statements.DepositsAreShown(Abs(f), u, a);
    }
    if forall k :: 0 <= k < |f.threads| ==> f.threads[k].pc != Append(WithdrawEntry(u, a)) {
      Statements.WithdrawalsAreShown(Abs(f), u, a);
    }
    if forall k :: 0 <= k < |f.threads| ==> !Statements.LogsLoanFor(f.threads[k].pc, u, a) {
      Statements.LoanPaymentsAreShown(Abs(f), u, a);
    }
  }

  /** A balance is the sum of the rows the user is shown, up to unlogged effects and refused rollbacks. */
  lemma ViewExplainsBalance(f: Fine, u: nat)
    requires Arises(f)
    ensures BalanceOf(f.tables.accounts, u)
              == Sum(Statements.RowValue, Statements.View(u, f.tables.log)) + Sum(UnloggedFor(u), Pcs(f.threads))
                 - Sum(LostFor(u), f.history)
  {
    ArisesMeans(f);
    Statements.ViewExplainsBalance(Abs(f), u);
  }

  // ----- Searches and their locks

  /** When the locks around searches take effect, a thread that is searching a file is the only one to hold any lock
      on it: nobody is about to write a record of it or to append to it. */
  lemma SearcherIsAlone(f: Fine, k: nat, j: nat)
    requires Arises(f) && f.scanLocks && k < |f.threads| && j < |f.threads| && j != k && f.threads[k].micro.Scanning?
    ensures Searches(f.threads[k].pc)
    ensures var file := AccessOf(f.threads[k].pc).file;
            && (forall held :: held in Holds(f.scanLocks, f.threads[j]) ==> held.file != file)
            && !(f.threads[j].micro.LoadedAccount? && file == AccountsFile)
            && !(f.threads[j].micro.LoadedUser? && file == UsersFile)
            && !(f.threads[j].micro.Appending? && AccessOf(f.threads[j].pc) == AppendTo(file))
            && !(f.threads[j].pc.WriteLoan? && file == LoansFile)
  {
    ArisesMeans(f);
    var file := AccessOf(f.threads[k].pc).file;
    assert MicroOk(f.tables, f.threads[k]) && MicroOk(f.tables, f.threads[j]);
    assert Whole(file) in Holds(f.scanLocks, f.threads[k]);
    assert Compatible(Holds(f.scanLocks, f.threads[k]), Holds(f.scanLocks, f.threads[j]));
    HolderHolds(f.scanLocks, f.threads[j]);
  }

  /** What a thread holds a lock for. */
  lemma HolderHolds(scanLocks: bool, th: Thread)
    ensures th.micro.LoadedAccount? ==> Record(AccountsFile, th.micro.slot) in Holds(scanLocks, th)
    ensures th.micro.LoadedUser? ==> Record(UsersFile, th.micro.slot) in Holds(scanLocks, th)
    ensures th.micro.Appending? && AccessOf(th.pc).AppendTo? ==> Whole(AccessOf(th.pc).file) in Holds(scanLocks, th)
    ensures th.pc.WriteLoan? ==> Record(LoansFile, th.pc.slot) in Holds(scanLocks, th)
  {
  }
}
