/** The two transaction history views: the backward scan with its file position, what it shows, and why the
    customer's and the employee's versions show the same rows. */
module History {
  import opened Folds
  import opened Records
  import opened Bank
  import opened BankInvariant

  datatype Kind = DepositRow | WithdrawRow | SentRow | ReceivedRow | LoanRow

  datatype Row = Row(kind: Kind, amount: real, other: nat)

  /** The customer's view writes 0 as the other account of a deposit or a withdrawal. */
  function CustomerRow(tx: Txn, user: nat): Option<Row> {
    if tx.note == DepositNote && tx.to == user then Some(Row(DepositRow, tx.amount, 0))
    else if tx.note == WithdrawNote && tx.from == user then Some(Row(WithdrawRow, tx.amount, 0))
    else if tx.note == TransferOutNote && tx.from == user then Some(Row(SentRow, tx.amount, tx.to))
    else if tx.note == TransferInNote && tx.to == user then Some(Row(ReceivedRow, tx.amount, tx.from))
    else if tx.note == LoanDepositNote && tx.to == user then Some(Row(LoanRow, tx.amount, 0))
    else None
  }

  /** The employee's view takes the other account of a deposit or a withdrawal from the record. */
  function EmployeeRow(tx: Txn, user: nat): Option<Row> {
    if tx.note == DepositNote && tx.to == user then Some(Row(DepositRow, tx.amount, tx.from))
    else if tx.note == WithdrawNote && tx.from == user then Some(Row(WithdrawRow, tx.amount, tx.to))
    else if tx.note == TransferOutNote && tx.from == user then Some(Row(SentRow, tx.amount, tx.to))
    else if tx.note == TransferInNote && tx.to == user then Some(Row(ReceivedRow, tx.amount, tx.from))
    else if tx.note == LoanDepositNote && tx.to == user then Some(Row(LoanRow, tx.amount, 0))
    else None
  }

  function Shown(row: Option<Row>): seq<Row> {
    if row.Some? then [row.value] else []
  }

  /** The rows of a log in order, oldest first. */
  function RowsOf(rowOf: Txn -> Option<Row>, log: seq<Txn>): seq<Row> {
    if |log| == 0 then [] else RowsOf(rowOf, log[..|log| - 1]) + Shown(rowOf(log[|log| - 1]))
  }

  function Reverse<T>(s: seq<T>): (r: seq<T>)
    ensures |r| == |s| && forall k :: 0 <= k < |s| ==> r[k] == s[|s| - 1 - k]
  {
    if |s| == 0 then [] else [s[|s| - 1]] + Reverse(s[..|s| - 1])
  }

  function CustomerRowFor(user: nat): Txn -> Option<Row> { tx => CustomerRow(tx, user) }
  function EmployeeRowFor(user: nat): Txn -> Option<Row> { tx => EmployeeRow(tx, user) }

  function Latest(rowOf: Txn -> Option<Row>, log: seq<Txn>): seq<Row> { Reverse(RowsOf(rowOf, log)) }

  /** lseek: a position before the start of the file is refused, and the position stays where it was. */
  function SeekResult(target: int): int { if target < 0 then -1 else target }

  lemma ReverseConcat<T>(s: seq<T>, t: seq<T>)
    ensures Reverse(s + t) == Reverse(t) + Reverse(s)
  {
    var (l, r) := (Reverse(s + t), Reverse(t) + Reverse(s));
    forall k | 0 <= k < |l| ensures l[k] == r[k] {
      assert l[k] == (s + t)[|s + t| - 1 - k];
    }
  }

  /** The rows of the records from position p on, read from the end of the log back to p. */
  function ReadBackTo(rowOf: Txn -> Option<Row>, log: seq<Txn>, p: nat): seq<Row>
    requires p <= |log|
    decreases |log| - p
  {
    if p == |log| then [] else ReadBackTo(rowOf, log, p + 1) + Shown(rowOf(log[p]))
  }

  lemma {:induction false} ReadingBackReverses(rowOf: Txn -> Option<Row>, log: seq<Txn>, p: nat)
    requires p <= |log|
    ensures ReadBackTo(rowOf, log, p) == Latest(rowOf, log[p..])
    decreases |log| - p
  {
    if p < |log| {
      ReadingBackReverses(rowOf, log, p + 1);
      assert [log[p]] + log[p + 1..] == log[p..];
      RowsConcat(rowOf, [log[p]], log[p + 1..]);
      OneRow(rowOf, log[p]);
      ReverseConcat(Shown(rowOf(log[p])), RowsOf(rowOf, log[p + 1..]));
    }
  }

  lemma OneRow(rowOf: Txn -> Option<Row>, tx: Txn)
    ensures RowsOf(rowOf, [tx]) == Shown(rowOf(tx)) == Reverse(Shown(rowOf(tx)))
  {
    assert [tx][..0] == [];
  }

  lemma {:induction false} RowsConcat(rowOf: Txn -> Option<Row>, a: seq<Txn>, b: seq<Txn>)
    ensures RowsOf(rowOf, a + b) == RowsOf(rowOf, a) + RowsOf(rowOf, b)
  {
    if |b| == 0 {
      assert a + b == a;
    } else {
      var n := |b| - 1;
      assert (a + b)[..|a + b| - 1] == a + b[..n];
      RowsConcat(rowOf, a, b[..n]);
    }
  }

  /** The backward scan: from the last record, read, step back two, until a seek or a read fails. It makes
      one read per record and yields the rows newest first, whatever the rows are made of. */
  method ScanBackward(log: seq<Txn>, rowOf: Txn -> Option<Row>) returns (rows: seq<Row>, readCount: nat)
    ensures rows == Latest(rowOf, log) && readCount == |log|
  {
    rows, readCount := [], 0;
    var pos := 0;
    var offset := SeekResult(|log| - 1);
    if offset >= 0 {
      pos := offset;
    }
    while offset >= 0 && pos < |log|
      invariant -1 <= offset < |log|
      invariant offset >= 0 ==> pos == offset
      invariant rows == ReadBackTo(rowOf, log, offset + 1)
      invariant readCount == |log| - 1 - offset
      decreases offset + 1
    {
      var tx := log[pos];
      readCount := readCount + 1;
      pos := pos + 1;
      rows := rows + Shown(rowOf(tx));
      offset := SeekResult(pos - 2);
      if offset >= 0 {
        pos := offset;
      }
    }
    ReadingBackReverses(rowOf, log, 0);
    assert log[0..] == log;
  }

  /** The view is the log's rows in reverse: record i of a log of which every record is shown is row n-1-i. */
  lemma {:induction false} EveryRecordOnce(rowOf: Txn -> Option<Row>, log: seq<Txn>)
    requires forall i :: 0 <= i < |log| ==> rowOf(log[i]).Some?
    ensures |Latest(rowOf, log)| == |log|
    ensures forall i :: 0 <= i < |log| ==> Latest(rowOf, log)[|log| - 1 - i] == rowOf(log[i]).value
  {
    RowPerRecord(rowOf, log);
  }

  lemma {:induction false} RowPerRecord(rowOf: Txn -> Option<Row>, log: seq<Txn>)
    requires forall i :: 0 <= i < |log| ==> rowOf(log[i]).Some?
    ensures |RowsOf(rowOf, log)| == |log|
    ensures forall i :: 0 <= i < |log| ==> RowsOf(rowOf, log)[i] == rowOf(log[i]).value
  {
    if |log| > 0 {
      RowPerRecord(rowOf, log[..|log| - 1]);
    }
  }

  method ViewTransactionHistory(log: seq<Txn>, user: nat) returns (rows: seq<Row>)
    ensures rows == Latest(CustomerRowFor(user), log)
  {
    var readCount;
    rows, readCount := ScanBackward(log, CustomerRowFor(user));
  }

  method ViewCustomerTransactions(t: Tables, user: nat) returns (result: Option<seq<Row>>)
    ensures var i := FindUser(t.users, user);
            result == if i < |t.users| && t.users[i].role == Customer then Some(Latest(EmployeeRowFor(user), t.log))
                      else None
  {
    var i := FindUser(t.users, user);
    if i == |t.users| || t.users[i].role != Customer {
      return None;
    }
    var rows, readCount := ScanBackward(t.log, EmployeeRowFor(user));
    result := Some(rows);
  }

  // ----- The views agree on reachable logs

  predicate WellShaped(tx: Txn) {
    (tx.note == DepositNote ==> tx.from == 0) && (tx.note == WithdrawNote ==> tx.to == 0)
  }

  /** On one record the two columns differ for somebody exactly when a deposit names a source or a
      withdrawal names a target. */
  lemma RowsAgreeExactly(tx: Txn)
    ensures WellShaped(tx) <==> forall user: nat :: CustomerRow(tx, user) == EmployeeRow(tx, user)
  {
    if !WellShaped(tx) {
      assert CustomerRow(tx, tx.to) != EmployeeRow(tx, tx.to) || CustomerRow(tx, tx.from) != EmployeeRow(tx, tx.from);
    }
  }

  lemma StepKeepsShape(s: State, step: Step)
    requires Enabled(s, step) && forall i :: 0 <= i < |s.tables.log| ==> WellShaped(s.tables.log[i])
    ensures forall i :: 0 <= i < |Do(s, step).tables.log| ==> WellShaped(Do(s, step).tables.log[i])
  {
  }

  lemma FollowsKeepsShape(s: State, s': State)
    requires Follows(s, s') && forall i :: 0 <= i < |s.tables.log| ==> WellShaped(s.tables.log[i])
    ensures forall i :: 0 <= i < |s'.tables.log| ==> WellShaped(s'.tables.log[i])
  {
    if s != s' {
      var step :| Enabled(s, step) && s' == Do(s, step);
      StepKeepsShape(s, step);
    }
  }

  lemma {:induction false} RunKeepsShape(run: seq<State>, k: nat)
    requires k < |run| && IsRun(run) && run[0] == INITIAL
    ensures forall i :: 0 <= i < |run[k].tables.log| ==> WellShaped(run[k].tables.log[i])
  {
    if k > 0 {
      RunKeepsShape(run, k - 1);
      assert StepAt(run, k - 1);
      FollowsKeepsShape(run[k - 1], run[k]);
    }
  }

  lemma {:induction false} SameRows(log: seq<Txn>, user: nat)
    requires forall i :: 0 <= i < |log| ==> WellShaped(log[i])
    ensures RowsOf(CustomerRowFor(user), log) == RowsOf(EmployeeRowFor(user), log)
  {
    if |log| > 0 {
      SameRows(log[..|log| - 1], user);
      RowsAgreeExactly(log[|log| - 1]);
      assert CustomerRow(log[|log| - 1], user) == EmployeeRow(log[|log| - 1], user);
    }
  }

  /** On every reachable log customer and employee see the same rows in the same order. */
  lemma ViewsAgree(s: State, user: nat)
    requires Reachable(s)
    ensures Latest(CustomerRowFor(user), s.tables.log) == Latest(EmployeeRowFor(user), s.tables.log)
  {
    var run :| RunTo(run, s);
    RunKeepsShape(run, |run| - 1);
    SameRows(s.tables.log, user);
  }

  // ----- Completed transfers in the views

  predicate IsOut(tx: Txn, f: nat, t: nat, a: real) {
    tx.note == TransferOutNote && tx.from == f && tx.to == t && tx.amount == a
  }

  predicate IsIn(tx: Txn, f: nat, t: nat, a: real) {
    tx.note == TransferInNote && tx.from == f && tx.to == t && tx.amount == a
  }
  function IsOutOf(f: nat, t: nat, a: real): Txn -> bool { tx => IsOut(tx, f, t, a) }
  function IsInOf(f: nat, t: nat, a: real): Txn -> bool { tx => IsIn(tx, f, t, a) }
  predicate WillLogOut(pc: PC, f: nat, t: nat, a: real) { pc.Append? && pc.entry == OutEntry(f, t, a) }
  predicate WillLogIn(pc: PC, f: nat, t: nat, a: real) { pc.Append? && pc.entry == InEntry(f, t, a) }
  function WillLogOutOf(f: nat, t: nat, a: real): PC -> bool { pc => WillLogOut(pc, f, t, a) }
  function WillLogInOf(f: nat, t: nat, a: real): PC -> bool { pc => WillLogIn(pc, f, t, a) }
  function DoneOf(f: nat, t: nat, a: real): Event -> bool { e => e == Transferred(f, t, a) }
  function RowIs(row: Row): Row -> bool { r => r == row }

  /** Completed transfers are those logged twice, plus those whose records are still to come. */
  ghost predicate TransfersLogged(s: State, f: nat, t: nat, a: real) {
    var done := Count(DoneOf(f, t, a), s.history);
    var outPending, inPending := Count(WillLogOutOf(f, t, a), s.threads), Count(WillLogInOf(f, t, a), s.threads);
    && done == Count(IsOutOf(f, t, a), s.tables.log) + outPending
    && done == Count(IsInOf(f, t, a), s.tables.log) + inPending + outPending
  }

  lemma AppendLogsTransfer(log: seq<Txn>, entry: Entry, f: nat, t: nat, a: real)
    ensures var log' := log + [LogRecord(|log| + 1, entry)];
            && Count(IsOutOf(f, t, a), log') == Count(IsOutOf(f, t, a), log) + One(entry == OutEntry(f, t, a))
            && Count(IsInOf(f, t, a), log') == Count(IsInOf(f, t, a), log) + One(entry == InEntry(f, t, a))
  {
    CountAppend(IsOutOf(f, t, a), log, LogRecord(|log| + 1, entry));
    CountAppend(IsInOf(f, t, a), log, LogRecord(|log| + 1, entry));
  }

  /** A transfer counts as done exactly by the deposit after which its first record is to be written. */
  lemma UpdateDoesTransfer(job: Job, ok: bool, f: nat, t: nat, a: real)
    ensures Count(DoneOf(f, t, a), JobEvents(job, ok)) == One(WillLogOut(AfterUpdate(job, ok), f, t, a))
    ensures !WillLogIn(AfterUpdate(job, ok), f, t, a)
  {
  }

  lemma OnlyUpdatesDoTransfers(tb: Tables, pc: PC, f: nat, t: nat, a: real)
    requires !pc.Update?
    ensures Count(DoneOf(f, t, a), Events(tb, pc)) == 0
  {
    CountZero(DoneOf(f, t, a), Events(tb, pc));
  }

  lemma QuietStep(tb: Tables, pc: PC)
    requires !pc.Append? && !pc.Update?
    ensures Advance(tb, pc).0.log == tb.log && !Advance(tb, pc).1.Append?
  {
  }

  /** What one step adds to the log and to the completed transfers, against the thread's own place. */
  lemma AdvanceLogsTransfers(tb: Tables, pc: PC, f: nat, t: nat, a: real)
    ensures Count(DoneOf(f, t, a), Events(tb, pc)) == One(WillLogOut(Advance(tb, pc).1, f, t, a))
    ensures Count(IsOutOf(f, t, a), Advance(tb, pc).0.log)
              == Count(IsOutOf(f, t, a), tb.log) + One(WillLogOut(pc, f, t, a))
    ensures Count(IsInOf(f, t, a), Advance(tb, pc).0.log)
              == Count(IsInOf(f, t, a), tb.log) + One(WillLogIn(pc, f, t, a))
    ensures WillLogIn(Advance(tb, pc).1, f, t, a) == WillLogOut(pc, f, t, a)
  {
    match pc
    case Update(job) =>
      UpdateDoesTransfer(job, UpdateAccount(tb.accounts, JobUser(job), JobChange(job)).Some?, f, t, a);
    case Append(entry) =>
      OnlyUpdatesDoTransfers(tb, pc, f, t, a);
      AppendLogsTransfer(tb.log, entry, f, t, a);
    case _ =>
      OnlyUpdatesDoTransfers(tb, pc, f, t, a);
      QuietStep(tb, pc);
  }

  lemma TransfersLoggedAfter(s: State, k: nat, tb': Tables, pc': PC, events: seq<Event>, f: nat, t: nat, a: real)
    requires k < |s.threads| && TransfersLogged(s, f, t, a)
    requires Count(DoneOf(f, t, a), events) == One(WillLogOut(pc', f, t, a))
    requires Count(IsOutOf(f, t, a), tb'.log)
               == Count(IsOutOf(f, t, a), s.tables.log) + One(WillLogOut(s.threads[k], f, t, a))
    requires Count(IsInOf(f, t, a), tb'.log)
               == Count(IsInOf(f, t, a), s.tables.log) + One(WillLogIn(s.threads[k], f, t, a))
    requires WillLogIn(pc', f, t, a) == WillLogOut(s.threads[k], f, t, a)
    ensures TransfersLogged(State(tb', s.history + events, s.threads[k := pc']), f, t, a)
  {
    CountUpdate(WillLogOutOf(f, t, a), s.threads, k, pc');
    CountUpdate(WillLogInOf(f, t, a), s.threads, k, pc');
    CountConcat(DoneOf(f, t, a), s.history, events);
  }

  lemma TransfersLoggedByAdvance(s: State, k: nat, f: nat, t: nat, a: real)
    requires k < |s.threads| && TransfersLogged(s, f, t, a)
    ensures TransfersLogged(Do(s, Advances(k)), f, t, a)
  {
    var (tb', pc') := Advance(s.tables, s.threads[k]);
    AdvanceLogsTransfers(s.tables, s.threads[k], f, t, a);
    TransfersLoggedAfter(s, k, tb', pc', Events(s.tables, s.threads[k]), f, t, a);
  }

  lemma TransfersLoggedByConnect(s: State, f: nat, t: nat, a: real)
    requires TransfersLogged(s, f, t, a)
    ensures TransfersLogged(Do(s, Connect), f, t, a)
  {
    CountAppend(WillLogOutOf(f, t, a), s.threads, Idle);
    CountAppend(WillLogInOf(f, t, a), s.threads, Idle);
  }

  lemma TransfersLoggedByBegin(s: State, k: nat, req: Request, f: nat, t: nat, a: real)
    requires k < |s.threads| && s.threads[k].Idle? && TransfersLogged(s, f, t, a)
    ensures TransfersLogged(Do(s, Begin(k, req)), f, t, a)
  {
    assert !Start(req).Append?;
    CountUpdate(WillLogOutOf(f, t, a), s.threads, k, Start(req));
    CountUpdate(WillLogInOf(f, t, a), s.threads, k, Start(req));
  }

  lemma TransfersLoggedByStep(s: State, step: Step, f: nat, t: nat, a: real)
    requires TablesOk(s.tables) && Enabled(s, step) && TransfersLogged(s, f, t, a)
    ensures TransfersLogged(Do(s, step), f, t, a)
  {
    match step
    case Connect => TransfersLoggedByConnect(s, f, t, a);
    case Begin(k, req) => TransfersLoggedByBegin(s, k, req, f, t, a);
    case Advances(k) => TransfersLoggedByAdvance(s, k, f, t, a);
    case Admins(cmd) => AdministerKeeps(s.tables, cmd);
  }

  lemma FollowsLogsTransfers(s: State, s': State, f: nat, t: nat, a: real)
    requires TablesOk(s.tables) && Follows(s, s') && TransfersLogged(s, f, t, a)
    ensures TransfersLogged(s', f, t, a)
  {
    if s != s' {
      var step :| Enabled(s, step) && s' == Do(s, step);
      TransfersLoggedByStep(s, step, f, t, a);
    }
  }

  lemma NoTransfersYet(f: nat, t: nat, a: real)
    ensures TransfersLogged(INITIAL, f, t, a)
  {
  }

  lemma {:induction false} RunLogsTransfers(run: seq<State>, k: nat, f: nat, t: nat, a: real)
    requires k < |run| && IsRun(run) && run[0] == INITIAL
    ensures TransfersLogged(run[k], f, t, a)
  {
    if k == 0 {
      NoTransfersYet(f, t, a);
    } else {
      RunLogsTransfers(run, k - 1, f, t, a);
      RunInv(run, k - 1);
      assert StepAt(run, k - 1);
      FollowsLogsTransfers(run[k - 1], run[k], f, t, a);
    }
  }

  /** How often a row appears in a user's view, counted in the log. */
  lemma {:induction false} RowsCountRecords(log: seq<Txn>, user: nat, row: Row, p: Txn -> bool)
    requires forall i :: 0 <= i < |log| ==> (p(log[i]) <==> CustomerRow(log[i], user) == Some(row))
    ensures Count(RowIs(row), RowsOf(CustomerRowFor(user), log)) == Count(p, log)
  {
    if |log| > 0 {
      var front, last := log[..|log| - 1], log[|log| - 1];
      RowsCountRecords(front, user, row, p);
      CountConcat(RowIs(row), RowsOf(CustomerRowFor(user), front), Shown(CustomerRow(last, user)));
    }
  }

  /** A transfer record is a row of its own side's view and of nobody else's. */
  lemma TransferRowsArePrivate(tx: Txn, user: nat)
    ensures tx.note == TransferOutNote ==> (CustomerRow(tx, user).Some? <==> user == tx.from)
    ensures tx.note == TransferInNote ==> (CustomerRow(tx, user).Some? <==> user == tx.to)
    ensures forall a: real, other: nat ::
              && (CustomerRow(tx, user) == Some(Row(SentRow, a, other)) <==> IsOut(tx, user, other, a))
              && (CustomerRow(tx, user) == Some(Row(ReceivedRow, a, other)) <==> IsIn(tx, other, user, a))
  {
  }

  lemma SentRows(log: seq<Txn>, f: nat, t: nat, a: real)
    ensures Count(RowIs(Row(SentRow, a, t)), RowsOf(CustomerRowFor(f), log)) == Count(IsOutOf(f, t, a), log)
  {
    forall i | 0 <= i < |log|
      ensures IsOut(log[i], f, t, a) <==> CustomerRow(log[i], f) == Some(Row(SentRow, a, t))
    {
      TransferRowsArePrivate(log[i], f);
    }
    RowsCountRecords(log, f, Row(SentRow, a, t), IsOutOf(f, t, a));
  }

  lemma ReceivedRows(log: seq<Txn>, f: nat, t: nat, a: real)
    ensures Count(RowIs(Row(ReceivedRow, a, f)), RowsOf(CustomerRowFor(t), log)) == Count(IsInOf(f, t, a), log)
  {
    forall i | 0 <= i < |log|
      ensures IsIn(log[i], f, t, a) <==> CustomerRow(log[i], t) == Some(Row(ReceivedRow, a, f))
    {
      TransferRowsArePrivate(log[i], t);
    }
    RowsCountRecords(log, t, Row(ReceivedRow, a, f), IsInOf(f, t, a));
  }

  /** With no record of it still to be written, a transfer completed n times appears n times in the sender's
      view and n times in the recipient's. */
  lemma TransfersShownToBoth(s: State, f: nat, t: nat, a: real)
    requires Reachable(s)
    requires forall k :: 0 <= k < |s.threads| ==>
               !WillLogOut(s.threads[k], f, t, a) && !WillLogIn(s.threads[k], f, t, a)
    ensures Count(RowIs(Row(SentRow, a, t)), RowsOf(CustomerRowFor(f), s.tables.log))
              == Count(DoneOf(f, t, a), s.history)
    ensures Count(RowIs(Row(ReceivedRow, a, f)), RowsOf(CustomerRowFor(t), s.tables.log))
              == Count(DoneOf(f, t, a), s.history)
  {
    TransfersAtRest(s, f, t, a);
    SentRows(s.tables.log, f, t, a);
    ReceivedRows(s.tables.log, f, t, a);
  }

  lemma TransfersAtRest(s: State, f: nat, t: nat, a: real)
    requires Reachable(s)
    requires forall k :: 0 <= k < |s.threads| ==>
               !WillLogOut(s.threads[k], f, t, a) && !WillLogIn(s.threads[k], f, t, a)
    ensures Count(IsOutOf(f, t, a), s.tables.log) == Count(DoneOf(f, t, a), s.history)
    ensures Count(IsInOf(f, t, a), s.tables.log) == Count(DoneOf(f, t, a), s.history)
  {
    var run :| RunTo(run, s);
    RunLogsTransfers(run, |run| - 1, f, t, a);
    CountZero(WillLogOutOf(f, t, a), s.threads);
    CountZero(WillLogInOf(f, t, a), s.threads);
  }
}
