/** The loan life cycle: exactly-once crediting under any number of concurrent decisions,
    the agreement of the log with the approved loans, and the forward-only status. */
module LoanBook {
  import opened Folds
  import opened Records
  import opened Bank
  import opened BankInvariant

  // ----- Loan deposits in the log against approved loans, for each borrower and amount

  predicate LogsLoan(tx: Txn, u: nat, a: real) {
    tx.note == LoanDepositNote && tx.to == u && tx.amount == a
  }

  predicate IsApproved(loan: Loan, u: nat, a: real) {
    loan.status == Approved && loan.userId == u && loan.amount == a
  }

  /** A thread that has logged its loan deposit and not yet written the approval. */
  predicate WritesApproval(pc: PC, u: nat, a: real) {
    pc.WriteLoan? && IsApproved(pc.loan, u, a)
  }

  function LogsLoanOf(u: nat, a: real): Txn -> bool { tx => LogsLoan(tx, u, a) }
  function IsApprovedOf(u: nat, a: real): Loan -> bool { loan => IsApproved(loan, u, a) }
  function WritesApprovalOf(u: nat, a: real): PC -> bool { pc => WritesApproval(pc, u, a) }

  ghost predicate LogMatches(s: State, u: nat, a: real) {
    Count(LogsLoanOf(u, a), s.tables.log)
      == Count(IsApprovedOf(u, a), s.tables.loans) + Count(WritesApprovalOf(u, a), s.threads)
  }

  // ----- Credits against approved loans, for each loan identifier

  predicate CreditsLoan(e: Event, id: nat) {
    e.LoanCredited? && e.loanId == id
  }

  predicate ApprovedAs(loan: Loan, id: nat) {
    loan.status == Approved && loan.id == id
  }

  /** A thread that has credited the loan and not yet written the approval. */
  predicate MidApproval(pc: PC, id: nat) {
    match pc
    case Append(LoanEntry(_, loan)) => loan.id == id
    case WriteLoan(_, loan) => ApprovedAs(loan, id)
    case _ => false
  }

  function CreditsOf(id: nat): Event -> bool { e => CreditsLoan(e, id) }
  function ApprovedAsOf(id: nat): Loan -> bool { loan => ApprovedAs(loan, id) }
  function MidApprovalOf(id: nat): PC -> bool { pc => MidApproval(pc, id) }

  ghost predicate CreditsMatch(s: State, id: nat) {
    Count(CreditsOf(id), s.history) == Count(ApprovedAsOf(id), s.tables.loans) + Count(MidApprovalOf(id), s.threads)
  }

  // ----- Each step keeps both

  /** Steps other than an append, a loan write or a loan credit neither add to the log nor approve a loan,
      and lead to no pending approval. */
  lemma QuietStep(t: Tables, pc: PC)
    requires !pc.Append? && !pc.AppendLoan? && !pc.WriteLoan?
    ensures Advance(t, pc).0.log == t.log && Advance(t, pc).0.loans == t.loans
    ensures Advance(t, pc).1.WriteLoan? ==> Advance(t, pc).1.loan.status != Approved
    ensures !pc.Update? ==> !Advance(t, pc).1.Append?
  {
  }

  lemma AdvanceLogs(t: Tables, pc: PC, u: nat, a: real)
    requires PcOk(t, pc)
    ensures Count(LogsLoanOf(u, a), Advance(t, pc).0.log)
              == Count(LogsLoanOf(u, a), t.log) + One(WritesApproval(Advance(t, pc).1, u, a))
    ensures Count(IsApprovedOf(u, a), Advance(t, pc).0.loans)
              == Count(IsApprovedOf(u, a), t.loans) + One(WritesApproval(pc, u, a))
  {
    match pc
    case Append(entry) => CountAppend(LogsLoanOf(u, a), t.log, LogRecord(|t.log| + 1, entry));
    case AppendLoan(v, b) => CountAppend(IsApprovedOf(u, a), t.loans, Loan(|t.loans| + 1, v, b, Pending, 0));
    case WriteLoan(slot, loan) => CountUpdate(IsApprovedOf(u, a), t.loans, slot, loan);
    case _ => QuietStep(t, pc);
  }

  lemma OnlyUpdatesCredit(t: Tables, pc: PC, id: nat)
    requires !pc.Update?
    ensures Count(CreditsOf(id), Events(t, pc)) == 0
  {
    CountZero(CreditsOf(id), Events(t, pc));
  }

  lemma UpdateCredits(t: Tables, job: Job, id: nat)
    ensures Count(CreditsOf(id), Events(t, Update(job))) == One(MidApproval(Advance(t, Update(job)).1, id))
  {
  }

  /** Credits and approvals one step makes, against the thread's own place in the approval. */
  lemma AdvanceCredits(t: Tables, pc: PC, id: nat)
    requires PcOk(t, pc)
    ensures Count(CreditsOf(id), Events(t, pc)) + One(MidApproval(pc, id)) + Count(ApprovedAsOf(id), t.loans)
              == Count(ApprovedAsOf(id), Advance(t, pc).0.loans) + One(MidApproval(Advance(t, pc).1, id))
  {
    if !pc.Update? {
      OnlyUpdatesCredit(t, pc, id);
    }
    match pc
    case Update(job) => UpdateCredits(t, job, id);
    case Append(entry) => assert Advance(t, pc).1 == AfterAppend(entry);
    case AppendLoan(v, b) => CountAppend(ApprovedAsOf(id), t.loans, Loan(|t.loans| + 1, v, b, Pending, 0));
    case WriteLoan(slot, loan) => CountUpdate(ApprovedAsOf(id), t.loans, slot, loan);
    case _ => QuietStep(t, pc);
  }

  lemma MatchesByAdvance(s: State, k: nat, u: nat, a: real, id: nat)
    requires k < |s.threads| && PcOk(s.tables, s.threads[k]) && LogMatches(s, u, a) && CreditsMatch(s, id)
    ensures LogMatches(Do(s, Advances(k)), u, a) && CreditsMatch(Do(s, Advances(k)), id)
  {
    var t, pc := s.tables, s.threads[k];
    var (t', pc') := Advance(t, pc);
    AdvanceLogs(t, pc, u, a);
    AdvanceCredits(t, pc, id);
    CountUpdate(WritesApprovalOf(u, a), s.threads, k, pc');
    CountUpdate(MidApprovalOf(id), s.threads, k, pc');
    CountConcat(CreditsOf(id), s.history, Events(t, pc));
  }

  lemma MatchesByConnect(s: State, u: nat, a: real, id: nat)
    requires LogMatches(s, u, a) && CreditsMatch(s, id)
    ensures LogMatches(Do(s, Connect), u, a) && CreditsMatch(Do(s, Connect), id)
  {
    CountAppend(WritesApprovalOf(u, a), s.threads, Idle);
    CountAppend(MidApprovalOf(id), s.threads, Idle);
  }

  lemma MatchesByBegin(s: State, k: nat, req: Request, u: nat, a: real, id: nat)
    requires k < |s.threads| && s.threads[k].Idle? && LogMatches(s, u, a) && CreditsMatch(s, id)
    ensures LogMatches(Do(s, Begin(k, req)), u, a) && CreditsMatch(Do(s, Begin(k, req)), id)
  {
    assert !Start(req).WriteLoan? && !Start(req).Append?;
    CountUpdate(WritesApprovalOf(u, a), s.threads, k, Start(req));
    CountUpdate(MidApprovalOf(id), s.threads, k, Start(req));
  }

  lemma MatchesByStep(s: State, step: Step, u: nat, a: real, id: nat)
    requires Inv(s) && Enabled(s, step) && LogMatches(s, u, a) && CreditsMatch(s, id)
    ensures LogMatches(Do(s, step), u, a) && CreditsMatch(Do(s, step), id)
  {
    match step
    case Connect => MatchesByConnect(s, u, a, id);
    case Begin(k, req) => MatchesByBegin(s, k, req, u, a, id);
    case Advances(k) => MatchesByAdvance(s, k, u, a, id);
    case Admins(cmd) => AdministerKeeps(s.tables, cmd);
  }

  lemma FollowsKeepsMatches(s: State, s': State, u: nat, a: real, id: nat)
    requires Inv(s) && Follows(s, s') && LogMatches(s, u, a) && CreditsMatch(s, id)
    ensures LogMatches(s', u, a) && CreditsMatch(s', id)
  {
    if s != s' {
      var step :| Enabled(s, step) && s' == Do(s, step);
      MatchesByStep(s, step, u, a, id);
    }
  }

  lemma {:induction false} RunMatches(run: seq<State>, k: nat, u: nat, a: real, id: nat)
    requires k < |run| && IsRun(run) && run[0] == INITIAL
    ensures LogMatches(run[k], u, a) && CreditsMatch(run[k], id)
  {
    if k > 0 {
      RunMatches(run, k - 1, u, a, id);
      RunInv(run, k - 1);
      assert StepAt(run, k - 1);
      FollowsKeepsMatches(run[k - 1], run[k], u, a, id);
    }
  }

  lemma ReachableMatches(s: State, u: nat, a: real, id: nat)
    requires Reachable(s)
    ensures LogMatches(s, u, a) && CreditsMatch(s, id)
  {
    var run :| RunTo(run, s);
    RunMatches(run, |run| - 1, u, a, id);
  }

  // ----- Main results

  /** Whatever decisions race, a loan is credited at most once; and it has been credited if and only if it
      is stored as approved or its approval is between credit and write. */
  lemma LoanCreditedAtMostOnce(s: State, id: nat)
    requires Reachable(s)
    ensures Count(CreditsOf(id), s.history) <= 1
    ensures Count(CreditsOf(id), s.history) == 1 <==>
              || (exists i :: 0 <= i < |s.tables.loans| && ApprovedAs(s.tables.loans[i], id))
              || (exists k :: 0 <= k < |s.threads| && MidApproval(s.threads[k], id))
  {
    ReachableInv(s);
    ReachableMatches(s, 0, 0.0, id);
    CountAtMostOne(ApprovedAsOf(id), s.tables.loans);
    OneApprover(s, id);
    CountAtMostOne(MidApprovalOf(id), s.threads);
    CountZero(ApprovedAsOf(id), s.tables.loans);
    CountZero(MidApprovalOf(id), s.threads);
  }

  /** A thread between credit and approval holds the loan's record and the record still says ASSIGNED,
      so there is at most one such thread, and none once the loan is approved. */
  lemma OneApprover(s: State, id: nat)
    requires Inv(s)
    ensures forall i, j :: 0 <= i < j < |s.threads| ==>
              !(MidApproval(s.threads[i], id) && MidApproval(s.threads[j], id))
    ensures forall i, j :: 0 <= i < |s.threads| && 0 <= j < |s.tables.loans| ==>
              !(MidApproval(s.threads[i], id) && ApprovedAs(s.tables.loans[j], id))
  {
    forall i | 0 <= i < |s.threads| && MidApproval(s.threads[i], id)
      ensures 0 < id <= |s.tables.loans| && HoldsLoan(s.threads[i], id - 1) && s.tables.loans[id - 1].status == Assigned
    {
      assert PcOk(s.tables, s.threads[i]);
      var slot := if s.threads[i].Append? then s.threads[i].entry.slot else s.threads[i].slot;
      assert slot < |s.tables.loans| && s.tables.loans[slot].id == id == slot + 1;
    }
  }

  predicate ApprovalMidFlight(pc: PC) {
    pc.WriteLoan? && pc.loan.status == Approved
  }

  /** Whenever no approval is between its log record and its write, the log holds, for every borrower and
      amount, exactly as many loan deposits as there are approved loans: the two are the same multiset. */
  lemma LoanDepositsAreApprovedLoans(s: State, u: nat, a: real)
    requires Reachable(s)
    requires forall k :: 0 <= k < |s.threads| ==> !ApprovalMidFlight(s.threads[k])
    ensures Count(LogsLoanOf(u, a), s.tables.log) == Count(IsApprovedOf(u, a), s.tables.loans)
  {
    ReachableMatches(s, u, a, 0);
    CountZero(WritesApprovalOf(u, a), s.threads);
  }

  /** One step along PENDING, ASSIGNED, then APPROVED or REJECTED. */
  predicate StatusStep(st: LoanStatus, st': LoanStatus) {
    st == st' || (st == Pending && st' == Assigned) || (st == Assigned && (st' == Approved || st' == Rejected))
  }

  /** A step moves a loan by at most one stage, and moves one only by the write of the thread that
      holds it: an approval that aborts leaves the stored loan as it was. */
  lemma StatusMovesForward(s: State, step: Step, slot: nat)
    requires Inv(s) && Enabled(s, step) && slot < |s.tables.loans|
    ensures var loans' := Do(s, step).tables.loans;
            && slot < |loans'| && LoanEvolves(s.tables.loans[slot], loans'[slot])
            && StatusStep(s.tables.loans[slot].status, loans'[slot].status)
    ensures Do(s, step).tables.loans[slot] != s.tables.loans[slot] ==>
              step.Advances? && s.threads[step.thread].WriteLoan? && s.threads[step.thread].slot == slot
  {
    StepKeeps(s, step);
    match step
    case Advances(k) =>
      assert PcOk(s.tables, s.threads[k]);
      AdvanceHolds(s.tables, s.threads[k], slot);
    case Admins(cmd) => AdministerKeeps(s.tables, cmd);
    case _ =>
  }

  /** From the moment a loan leaves PENDING its assignee is fixed, and is an employee or a manager in
      every later state, whatever roles change. */
  lemma AssigneeStaysStaff(run: seq<State>, i: nat, j: nat, slot: nat)
    requires IsRun(run) && |run| > 0 && run[0] == INITIAL && i <= j < |run|
    requires slot < |run[i].tables.loans| && run[i].tables.loans[slot].status != Pending
    ensures slot < |run[j].tables.loans| && run[j].tables.loans[slot].status != Pending
    ensures run[j].tables.loans[slot].assignedTo == run[i].tables.loans[slot].assignedTo
    ensures IsStaff(run[j].tables.users, run[i].tables.loans[slot].assignedTo)
  {
    RunInv(run, i);
    var rest := run[i..];
    forall m: nat | m + 1 < |rest| ensures StepAt(rest, m) {
      assert StepAt(run, i + m);
    }
    RunKeeps(rest, j - i);
    assert LoanEvolves(run[i].tables.loans[slot], run[j].tables.loans[slot]);
    assert LoanOk(run[j].tables.users, run[j].tables.loans[slot]);
  }
}
