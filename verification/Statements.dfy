/** A customer's history as a statement of account: every deposit, withdrawal, loan payment and transfer is a row
    of its own kind, exactly as often as it happened, and the rows add up to the balance. */
module Statements {
  import opened Folds
  import opened Records
  import opened Bank
  import opened BankInvariant
  import opened History
  import Money

  /** The view a customer is given. */
  function View(user: nat, log: seq<Txn>): seq<Row> { Latest(CustomerRowFor(user), log) }

  lemma {:induction false} CountReverse<T>(p: T -> bool, s: seq<T>)
    ensures Count(p, Reverse(s)) == Count(p, s)
  {
    if |s| > 0 {
      var front, last := s[..|s| - 1], s[|s| - 1];
      CountReverse(p, front);
      CountConcat(p, [last], Reverse(front));
      assert [last][..0] == [];
    }
  }

  lemma {:induction false} SumReverse<T>(f: T -> real, s: seq<T>)
    ensures Sum(f, Reverse(s)) == Sum(f, s)
  {
    if |s| > 0 {
      var front, last := s[..|s| - 1], s[|s| - 1];
      SumReverse(f, front);
      SumConcat(f, [last], Reverse(front));
      assert [last][..0] == [];
    }
  }

  // ----- Rows of deposits, withdrawals and loan payments

  datatype Movement = PaidIn(user: nat, amount: real) | PaidOut(user: nat, amount: real) | Lent(user: nat, amount: real)

  predicate Happened(e: Event, m: Movement) {
    match m
    case PaidIn(u, a) => e == Deposited(u, a)
    case PaidOut(u, a) => e == Withdrawn(u, a)
    case Lent(u, a) => e.LoanCredited? && e.user == u && e.amount == a
  }

  predicate Recorded(tx: Txn, m: Movement) {
    match m
    case PaidIn(u, a) => tx.note == DepositNote && tx.to == u && tx.amount == a
    case PaidOut(u, a) => tx.note == WithdrawNote && tx.from == u && tx.amount == a
    case Lent(u, a) => tx.note == LoanDepositNote && tx.to == u && tx.amount == a
  }

  /** The thread has made the movement and not yet logged it. */
  predicate Pending(pc: PC, m: Movement) {
    pc.Append? &&
    match m
    case PaidIn(u, a) => pc.entry == DepositEntry(u, a)
    case PaidOut(u, a) => pc.entry == WithdrawEntry(u, a)
    case Lent(u, a) => pc.entry.LoanEntry? && pc.entry.loan.userId == u && pc.entry.loan.amount == a
  }

  function HappenedOf(m: Movement): Event -> bool { e => Happened(e, m) }
  function RecordedOf(m: Movement): Txn -> bool { tx => Recorded(tx, m) }
  function PendingOf(m: Movement): PC -> bool { pc => Pending(pc, m) }

  /** Every movement is recorded or about to be. */
  ghost predicate AllRecorded(s: State, m: Movement) {
    Count(HappenedOf(m), s.history) == Count(RecordedOf(m), s.tables.log) + Count(PendingOf(m), s.threads)
  }

  lemma UpdateMoves(job: Job, ok: bool, m: Movement)
    ensures Count(HappenedOf(m), JobEvents(job, ok)) == One(Pending(AfterUpdate(job, ok), m))
  {
  }

  lemma OnlyUpdatesMove(t: Tables, pc: PC, m: Movement)
    requires !pc.Update?
    ensures Count(HappenedOf(m), Events(t, pc)) == 0
  {
    CountZero(HappenedOf(m), Events(t, pc));
  }

  lemma EntryRecords(id: nat, entry: Entry, m: Movement)
    ensures Recorded(LogRecord(id, entry), m) == Pending(Append(entry), m)
    ensures !Pending(AfterAppend(entry), m)
  {
  }

  lemma AppendRecords(log: seq<Txn>, entry: Entry, m: Movement)
    ensures Count(RecordedOf(m), log + [LogRecord(|log| + 1, entry)])
              == Count(RecordedOf(m), log) + One(Pending(Append(entry), m))
    ensures !Pending(AfterAppend(entry), m)
  {
    CountAppend(RecordedOf(m), log, LogRecord(|log| + 1, entry));
    EntryRecords(|log| + 1, entry, m);
  }

  lemma AdvanceRecords(t: Tables, pc: PC, m: Movement)
    ensures Count(HappenedOf(m), Events(t, pc)) == One(Pending(Advance(t, pc).1, m))
    ensures Count(RecordedOf(m), Advance(t, pc).0.log) == Count(RecordedOf(m), t.log) + One(Pending(pc, m))
  {
    match pc
    case Update(job) => UpdateMoves(job, UpdateAccount(t.accounts, JobUser(job), JobChange(job)).Some?, m);
    case Append(entry) =>
      OnlyUpdatesMove(t, pc, m);
      AppendRecords(t.log, entry, m);
    case _ =>
      OnlyUpdatesMove(t, pc, m);
      QuietStep(t, pc);
  }

  lemma AllRecordedByAdvance(s: State, k: nat, m: Movement)
    requires k < |s.threads| && AllRecorded(s, m)
    ensures AllRecorded(Do(s, Advances(k)), m)
  {
    var pc' := Advance(s.tables, s.threads[k]).1;
    AdvanceRecords(s.tables, s.threads[k], m);
    CountUpdate(PendingOf(m), s.threads, k, pc');
    CountConcat(HappenedOf(m), s.history, Events(s.tables, s.threads[k]));
  }

  lemma AllRecordedByBegin(s: State, k: nat, req: Request, m: Movement)
    requires k < |s.threads| && s.threads[k].Idle? && AllRecorded(s, m)
    ensures AllRecorded(Do(s, Begin(k, req)), m)
  {
    assert !Start(req).Append?;
    CountUpdate(PendingOf(m), s.threads, k, Start(req));
  }

  lemma FollowsRecords(s: State, s': State, m: Movement)
    requires TablesOk(s.tables) && Follows(s, s') && AllRecorded(s, m)
    ensures AllRecorded(s', m)
  {
    if s != s' {
      var step :| Enabled(s, step) && s' == Do(s, step);
      match step
      case Connect => CountAppend(PendingOf(m), s.threads, Idle);
      case Begin(k, req) => AllRecordedByBegin(s, k, req, m);
      case Advances(k) => AllRecordedByAdvance(s, k, m);
      case Admins(cmd) => AdministerKeeps(s.tables, cmd);
    }
  }

  lemma NothingRecordedYet(m: Movement)
    ensures AllRecorded(INITIAL, m)
  {
  }

  lemma {:induction false} RunRecords(run: seq<State>, k: nat, m: Movement)
    requires k < |run| && IsRun(run) && run[0] == INITIAL
    ensures AllRecorded(run[k], m)
  {
    if k == 0 {
      NothingRecordedYet(m);
    } else {
      RunRecords(run, k - 1, m);
      RunInv(run, k - 1);
      assert StepAt(run, k - 1);
      FollowsRecords(run[k - 1], run[k], m);
    }
  }

  lemma RecordedWhenQuiet(s: State, m: Movement)
    requires Reachable(s) && forall k :: 0 <= k < |s.threads| ==> !Pending(s.threads[k], m)
    ensures Count(RecordedOf(m), s.tables.log) == Count(HappenedOf(m), s.history)
  {
    var run :| RunTo(run, s);
    RunRecords(run, |run| - 1, m);
    CountZero(PendingOf(m), s.threads);
  }

  lemma RowsAreRecords(log: seq<Txn>, row: Row, m: Movement)
    requires forall tx: Txn :: Recorded(tx, m) <==> CustomerRow(tx, m.user) == Some(row)
    ensures Count(RowIs(row), View(m.user, log)) == Count(RecordedOf(m), log)
  {
    RowsCountRecords(log, m.user, row, RecordedOf(m));
    CountReverse(RowIs(row), RowsOf(CustomerRowFor(m.user), log));
  }

  lemma MovementsAreShown(s: State, row: Row, m: Movement, happened: Event -> bool)
    requires Reachable(s) && forall k :: 0 <= k < |s.threads| ==> !Pending(s.threads[k], m)
    requires forall tx: Txn :: Recorded(tx, m) <==> CustomerRow(tx, m.user) == Some(row)
    requires forall e: Event :: happened(e) == Happened(e, m)
    ensures Count(RowIs(row), View(m.user, s.tables.log)) == Count(happened, s.history)
  {
    RecordedWhenQuiet(s, m);
    RowsAreRecords(s.tables.log, row, m);
    CountSame(happened, HappenedOf(m), s.history);
  }

  function DepositOf(u: nat, a: real): Event -> bool { e => e == Deposited(u, a) }
  function WithdrawalOf(u: nat, a: real): Event -> bool { e => e == Withdrawn(u, a) }
  function LoanPaidTo(u: nat, a: real): Event -> bool { (e: Event) => e.LoanCredited? && e.user == u && e.amount == a }

  /** With no record of them still to be written, n deposits of an amount by a user are n deposit rows of that
      amount in the user's view, without another account. */
  lemma DepositsAreShown(s: State, u: nat, a: real)
    requires Reachable(s) && forall k :: 0 <= k < |s.threads| ==> s.threads[k] != Append(DepositEntry(u, a))
    ensures Count(RowIs(Row(DepositRow, a, 0)), View(u, s.tables.log)) == Count(DepositOf(u, a), s.history)
  {
    MovementsAreShown(s, Row(DepositRow, a, 0), PaidIn(u, a), DepositOf(u, a));
  }

  lemma WithdrawalsAreShown(s: State, u: nat, a: real)
    requires Reachable(s) && forall k :: 0 <= k < |s.threads| ==> s.threads[k] != Append(WithdrawEntry(u, a))
    ensures Count(RowIs(Row(WithdrawRow, a, 0)), View(u, s.tables.log)) == Count(WithdrawalOf(u, a), s.history)
  {
    MovementsAreShown(s, Row(WithdrawRow, a, 0), PaidOut(u, a), WithdrawalOf(u, a));
  }

  predicate LogsLoanFor(pc: PC, u: nat, a: real) {
    pc.Append? && pc.entry.LoanEntry? && pc.entry.loan.userId == u && pc.entry.loan.amount == a
  }

  lemma LoanPaymentsAreShown(s: State, u: nat, a: real)
    requires Reachable(s) && forall k :: 0 <= k < |s.threads| ==> !LogsLoanFor(s.threads[k], u, a)
    ensures Count(RowIs(Row(LoanRow, a, 0)), View(u, s.tables.log)) == Count(LoanPaidTo(u, a), s.history)
  {
    MovementsAreShown(s, Row(LoanRow, a, 0), Lent(u, a), LoanPaidTo(u, a));
  }

  /** With no record of it still to be written, a transfer completed n times is n rows of the sender's view and n
      rows of the recipient's, each naming the other side. */
  lemma TransfersAreShown(s: State, f: nat, t: nat, a: real)
    requires Reachable(s)
    requires forall k :: 0 <= k < |s.threads| ==>
               !WillLogOut(s.threads[k], f, t, a) && !WillLogIn(s.threads[k], f, t, a)
    ensures Count(RowIs(Row(SentRow, a, t)), View(f, s.tables.log)) == Count(DoneOf(f, t, a), s.history)
    ensures Count(RowIs(Row(ReceivedRow, a, f)), View(t, s.tables.log)) == Count(DoneOf(f, t, a), s.history)
  {
    TransfersShownToBoth(s, f, t, a);
    CountReverse(RowIs(Row(SentRow, a, t)), RowsOf(CustomerRowFor(f), s.tables.log));
    CountReverse(RowIs(Row(ReceivedRow, a, f)), RowsOf(CustomerRowFor(t), s.tables.log));
  }

  // ----- The rows add up to the balance

  function RowValue(row: Row): real {
    match row.kind
    case DepositRow => row.amount
    case WithdrawRow => -row.amount
    case SentRow => -row.amount
    case ReceivedRow => row.amount
    case LoanRow => row.amount
  }

  lemma RowIsLogged(tx: Txn, u: nat)
    ensures Sum(RowValue, Shown(CustomerRow(tx, u))) == Money.Logged(tx, u)
  {
  }

  lemma {:induction false} RowsAreLogged(log: seq<Txn>, u: nat)
    ensures Sum(RowValue, RowsOf(CustomerRowFor(u), log)) == Sum(Money.LoggedFor(u), log)
  {
    if |log| > 0 {
      var front, last := log[..|log| - 1], log[|log| - 1];
      RowsAreLogged(front, u);
      SumConcat(RowValue, RowsOf(CustomerRowFor(u), front), Shown(CustomerRow(last, u)));
      RowIsLogged(last, u);
    }
  }

  /** The rows of a view add up to what the log says of the user, whatever the log. */
  lemma ViewAddsUp(log: seq<Txn>, u: nat)
    ensures Sum(RowValue, View(u, log)) == Sum(Money.LoggedFor(u), log)
  {
    SumReverse(RowValue, RowsOf(CustomerRowFor(u), log));
    RowsAreLogged(log, u);
  }

  /** A balance is the sum of the rows the user is shown, plus what is applied and not yet logged, minus refused
      rollbacks; at rest with no refusal it is the sum of the rows. */
  lemma ViewExplainsBalance(s: State, u: nat)
    requires Reachable(s)
    ensures Money.BalanceOf(s.tables.accounts, u)
              == Sum(RowValue, View(u, s.tables.log)) + Sum(Money.UnloggedFor(u), s.threads)
                 - Sum(Money.LostFor(u), s.history)
    ensures (forall k :: 0 <= k < |s.threads| ==> s.threads[k].Idle?)
            && (forall i :: 0 <= i < |s.history| ==> !s.history[i].RollbackRefused?)
            ==> Money.BalanceOf(s.tables.accounts, u) == Sum(RowValue, View(u, s.tables.log))
  {
    Money.LogExplainsBalances(s, u);
    ViewAddsUp(s.tables.log, u);
  }
}
