/** One request run to its end with no other thread stepping in between: the meaning of a sequential call. */
module Sequential {
  import opened Records
  import opened Bank

  /** Steps left at most before an operation ends. */
  function Rank(pc: PC): nat {
    match pc
    case Idle => 0
    case OpenLoan(_, _) => 6
    case CheckBorrower(_, _) => 5
    case CheckAssignee(_, _, _) => 5
    case Update(LoanCredit(_, _)) => 4
    case Append(LoanEntry(_, _)) => 3
    case WriteLoan(_, _) => 1
    case CheckRecipient(_, _, _) => 5
    case Update(TransferOut(_, _, _)) => 4
    case Update(TransferIn(_, _, _)) => 3
    case Append(OutEntry(_, _, _)) => 2
    case Append(InEntry(_, _, _)) => 1
    case Update(Rollback(_, _, _)) => 1
    case Update(SetStatus(_, _)) => 1
    case Update(_) => 2
    case LoginLookup(_, _) => 2
    case _ => 1
  }

  /** Every operation ends: each of its steps uses up rank. */
  lemma AdvanceEnds(t: Tables, pc: PC)
    requires pc != Idle
    ensures Rank(Advance(t, pc).1) < Rank(pc)
  {
  }

  function RunAlone(t: Tables, pc: PC): Tables
    decreases Rank(pc)
  {
    if pc.Idle? then t
    else
      AdvanceEnds(t, pc);
      RunAlone(Advance(t, pc).0, Advance(t, pc).1)
  }

  /** What the request adds to the history when it runs alone. */
  function EventsAlone(t: Tables, pc: PC): seq<Event>
    decreases Rank(pc)
  {
    if pc.Idle? then []
    else
      AdvanceEnds(t, pc);
      Events(t, pc) + EventsAlone(Advance(t, pc).0, Advance(t, pc).1)
  }

  lemma StepAlone(t: Tables, pc: PC, t': Tables, pc': PC)
    requires !pc.Idle? && Advance(t, pc) == (t', pc')
    ensures RunAlone(t, pc) == RunAlone(t', pc')
  {
  }

  lemma EventsStepAlone(t: Tables, pc: PC, t': Tables, pc': PC)
    requires !pc.Idle? && Advance(t, pc) == (t', pc')
    ensures EventsAlone(t, pc) == Events(t, pc) + EventsAlone(t', pc')
  {
  }

  lemma AloneAdvances(s: State, k: nat)
    requires k < |s.threads| && !s.threads[k].Idle?
    requires forall j :: 0 <= j < |s.threads| && j != k ==> s.threads[j] == Idle
    ensures Enabled(s, Advances(k))
    ensures var s' := Do(s, Advances(k));
            && k < |s'.threads| && s'.threads == s.threads[k := s'.threads[k]]
            && Rank(s'.threads[k]) < Rank(s.threads[k])
            && RunAlone(s'.tables, s'.threads[k]) == RunAlone(s.tables, s.threads[k])
            && s'.history + EventsAlone(s'.tables, s'.threads[k]) == s.history + EventsAlone(s.tables, s.threads[k])
  {
    var (t', pc') := Advance(s.tables, s.threads[k]);
    AdvanceEnds(s.tables, s.threads[k]);
    StepAlone(s.tables, s.threads[k], t', pc');
    EventsStepAlone(s.tables, s.threads[k], t', pc');
  }

  /** Running one thread to its end from a reachable state of otherwise idle threads is a run. */
  lemma {:induction false} AloneIsReached(s: State, k: nat) returns (s': State)
    requires Reachable(s) && k < |s.threads|
    requires forall j :: 0 <= j < |s.threads| && j != k ==> s.threads[j] == Idle
    ensures Reachable(s') && s'.tables == RunAlone(s.tables, s.threads[k]) && s'.threads == s.threads[k := Idle]
    ensures s'.history == s.history + EventsAlone(s.tables, s.threads[k])
    decreases Rank(s.threads[k])
  {
    if s.threads[k].Idle? {
      s' := s;
    } else {
      var next := Do(s, Advances(k));
      AloneAdvances(s, k);
      ReachableStep(s, Advances(k), next);
      s' := AloneIsReached(next, k);
    }
  }

  /** Run alone, a positive application appends one pending loan of the amount applied for. */
  lemma ApplicationAlone(t: Tables, u: nat, a: real)
    ensures RunAlone(t, Start(ApplyLoan(u, a)))
              == if a > 0.0 then t.(loans := t.loans + [Loan(|t.loans| + 1, u, a, Pending, 0)]) else t
  {
    if a > 0.0 {
      StepAlone(t, AppendLoan(u, a), t.(loans := t.loans + [Loan(|t.loans| + 1, u, a, Pending, 0)]), Idle);
    }
  }

  // ----- A transfer alone is all or nothing

  predicate MayPay(accounts: seq<Account>, u: nat, a: real) {
    var i := FindAccount(accounts, u);
    i < |accounts| && accounts[i].active && accounts[i].balance >= a
  }

  predicate MayReceive(accounts: seq<Account>, u: nat) {
    var i := FindAccount(accounts, u);
    i < |accounts| && accounts[i].active
  }

  /** New accounts and the two log records of a transfer. */
  function BothLogged(t: Tables, accounts: seq<Account>, f: nat, to: nat, a: real): Tables {
    t.(accounts := accounts,
       log := t.log + [Txn(|t.log| + 1, f, to, a, TransferOutNote), Txn(|t.log| + 2, f, to, a, TransferInNote)])
  }

  /** Both balances moved. */
  function Moved(accounts: seq<Account>, f: nat, to: nat, a: real): seq<Account>
    requires f != to && MayPay(accounts, f, a) && MayReceive(accounts, to)
  {
    var (i, j) := (FindAccount(accounts, f), FindAccount(accounts, to));
    accounts[i := accounts[i].(balance := accounts[i].balance - a)]
            [j := accounts[j].(balance := accounts[j].balance + a)]
  }

  /** Both balances moved and both log records written. */
  function TransferDone(t: Tables, f: nat, to: nat, a: real): Tables
    requires f != to && MayPay(t.accounts, f, a) && MayReceive(t.accounts, to)
  {
    BothLogged(t, Moved(t.accounts, f, to, a), f, to, a)
  }

  /** The deposit of a transfer that runs alone cannot be refused: the account checked at the start is
      still active, and the withdrawal touched another record. */
  lemma DebitThenCredit(accounts: seq<Account>, f: nat, to: nat, a: real)
    requires f != to && MayPay(accounts, f, a) && MayReceive(accounts, to)
    ensures var paid := UpdateAccount(accounts, f, Debit(a));
            && paid.Some? && MayReceive(paid.value, to)
            && UpdateAccount(paid.value, to, Credit(a)) == Some(Moved(accounts, f, to, a))
  {
    var (i, j) := (FindAccount(accounts, f), FindAccount(accounts, to));
    var paid := accounts[i := accounts[i].(balance := accounts[i].balance - a)];
    assert paid[j] == accounts[j];
    assert forall k :: 0 <= k < |accounts| ==> paid[k].userId == accounts[k].userId;
    assert FindAccount(paid, to) == j;
  }

  lemma LogsBoth(t: Tables, f: nat, to: nat, a: real)
    ensures RunAlone(t, Append(OutEntry(f, to, a))) == BothLogged(t, t.accounts, f, to, a)
  {
    var t1 := t.(log := t.log + [LogRecord(|t.log| + 1, OutEntry(f, to, a))]);
    var t2 := t1.(log := t1.log + [LogRecord(|t1.log| + 1, InEntry(f, to, a))]);
    StepAlone(t, Append(OutEntry(f, to, a)), t1, Append(InEntry(f, to, a)));
    StepAlone(t1, Append(InEntry(f, to, a)), t2, Idle);
    assert t2 == BothLogged(t, t.accounts, f, to, a);
  }

  lemma CreditedAlone(t: Tables, f: nat, to: nat, a: real, accounts: seq<Account>)
    requires UpdateAccount(t.accounts, to, Credit(a)) == Some(accounts)
    ensures RunAlone(t, Update(TransferIn(f, to, a))) == BothLogged(t, accounts, f, to, a)
  {
    StepAlone(t, Update(TransferIn(f, to, a)), t.(accounts := accounts), Append(OutEntry(f, to, a)));
    LogsBoth(t.(accounts := accounts), f, to, a);
  }

  lemma DebitedAlone(t: Tables, f: nat, to: nat, a: real, debited: seq<Account>, credited: seq<Account>)
    requires UpdateAccount(t.accounts, f, Debit(a)) == Some(debited)
    requires UpdateAccount(debited, to, Credit(a)) == Some(credited)
    ensures RunAlone(t, Update(TransferOut(f, to, a))) == BothLogged(t, credited, f, to, a)
  {
    StepAlone(t, Update(TransferOut(f, to, a)), t.(accounts := debited), Update(TransferIn(f, to, a)));
    CreditedAlone(t.(accounts := debited), f, to, a, credited);
  }

  lemma PaidAlone(t: Tables, f: nat, to: nat, a: real)
    requires f != to && MayPay(t.accounts, f, a) && MayReceive(t.accounts, to)
    ensures RunAlone(t, Update(TransferOut(f, to, a))) == TransferDone(t, f, to, a)
  {
    DebitThenCredit(t.accounts, f, to, a);
    DebitedAlone(t, f, to, a, UpdateAccount(t.accounts, f, Debit(a)).value, TransferDone(t, f, to, a).accounts);
  }

  /** Run alone, a transfer moves the amount and writes both records when the request is valid and both
      accounts allow it, and otherwise changes nothing: the rollback is never entered. */
  lemma TransferAloneIsAtomic(t: Tables, f: nat, to: nat, a: real)
    ensures RunAlone(t, Start(TransferFunds(f, to, a)))
              == if f != to && a > 0.0 && MayPay(t.accounts, f, a) && MayReceive(t.accounts, to)
                 then TransferDone(t, f, to, a) else t
  {
    if f != to && a > 0.0 {
      if MayReceive(t.accounts, to) {
        StepAlone(t, CheckRecipient(f, to, a), t, Update(TransferOut(f, to, a)));
        if MayPay(t.accounts, f, a) {
          PaidAlone(t, f, to, a);
        } else {
          StepAlone(t, Update(TransferOut(f, to, a)), t, Idle);
        }
      } else {
        StepAlone(t, CheckRecipient(f, to, a), t, Idle);
      }
    }
  }

  /** A transfer to a missing or inactive recipient ends at its check, before the sender is debited. */
  lemma TransferStopsAtCheck(t: Tables, f: nat, to: nat, a: real)
    requires f != to && a > 0.0
    ensures var j := FindAccount(t.accounts, to);
            Advance(t, Start(TransferFunds(f, to, a)))
              == (t, if j < |t.accounts| && t.accounts[j].active then Update(TransferOut(f, to, a)) else Idle)
  {
  }

  /** The same field by field: who may pay and receive, both balances and both records. */
  lemma TransferIsExact(t: Tables, f: nat, to: nat, a: real)
    requires f != to && a > 0.0
    ensures var (i, j) := (FindAccount(t.accounts, f), FindAccount(t.accounts, to));
            var t' := RunAlone(t, Start(TransferFunds(f, to, a)));
            if i < |t.accounts| && t.accounts[i].active && t.accounts[i].balance >= a
               && j < |t.accounts| && t.accounts[j].active
            then
              && MayPay(t.accounts, f, a) && MayReceive(t.accounts, to)
              && t'.users == t.users && t'.loans == t.loans && |t'.accounts| == |t.accounts|
              && t'.accounts[i] == t.accounts[i].(balance := t.accounts[i].balance - a)
              && t'.accounts[j] == t.accounts[j].(balance := t.accounts[j].balance + a)
              && (forall k :: 0 <= k < |t.accounts| && k != i && k != j ==> t'.accounts[k] == t.accounts[k])
              && t'.log == t.log + [Txn(|t.log| + 1, f, to, a, TransferOutNote),
                                    Txn(|t.log| + 2, f, to, a, TransferInNote)]
            else
              t' == t && !(MayPay(t.accounts, f, a) && MayReceive(t.accounts, to))
  {
    TransferAloneIsAtomic(t, f, to, a);
  }

  // ----- A loan approval alone is all or nothing

  predicate MayDecide(loans: seq<Loan>, id: nat, emp: nat) {
    var i := FindLoan(loans, id);
    i < |loans| && loans[i].status == Assigned && loans[i].assignedTo == emp
  }

  /** New accounts, the log record of a loan and the loan approved. */
  function ApprovalLogged(t: Tables, accounts: seq<Account>, i: nat, loan: Loan): Tables
    requires i < |t.loans|
  {
    t.(loans := t.loans[i := loan.(status := Approved)],
       accounts := accounts,
       log := t.log + [Txn(|t.log| + 1, 0, loan.userId, loan.amount, LoanDepositNote)])
  }

  /** The loan approved, its borrower credited and the credit logged. */
  function LoanPaid(t: Tables, id: nat, emp: nat): Tables
    requires MayDecide(t.loans, id, emp) && MayReceive(t.accounts, t.loans[FindLoan(t.loans, id)].userId)
  {
    var i := FindLoan(t.loans, id);
    var loan := t.loans[i];
    var j := FindAccount(t.accounts, loan.userId);
    ApprovalLogged(t, t.accounts[j := t.accounts[j].(balance := t.accounts[j].balance + loan.amount)], i, loan)
  }

  lemma WriteAlone(t: Tables, slot: nat, loan: Loan)
    requires slot < |t.loans|
    ensures RunAlone(t, WriteLoan(slot, loan)) == t.(loans := t.loans[slot := loan])
  {
    StepAlone(t, WriteLoan(slot, loan), t.(loans := t.loans[slot := loan]), Idle);
  }

  lemma LoanIsLoggedAlone(t: Tables, i: nat, loan: Loan)
    requires i < |t.loans|
    ensures RunAlone(t, Append(LoanEntry(i, loan))) == ApprovalLogged(t, t.accounts, i, loan)
  {
    var t' := t.(log := t.log + [LogRecord(|t.log| + 1, LoanEntry(i, loan))]);
    StepAlone(t, Append(LoanEntry(i, loan)), t', WriteLoan(i, loan.(status := Approved)));
    WriteAlone(t', i, loan.(status := Approved));
  }

  /** The credit, the log record and the approval, once the borrower's account has been checked. */
  lemma LoanIsPaidAlone(t: Tables, i: nat, loan: Loan, accounts: seq<Account>)
    requires i < |t.loans| && UpdateAccount(t.accounts, loan.userId, Credit(loan.amount)) == Some(accounts)
    ensures RunAlone(t, Update(LoanCredit(i, loan))) == ApprovalLogged(t, accounts, i, loan)
  {
    StepAlone(t, Update(LoanCredit(i, loan)), t.(accounts := accounts), Append(LoanEntry(i, loan)));
    LoanIsLoggedAlone(t.(accounts := accounts), i, loan);
  }

  lemma ApprovalAloneIsAtomic(t: Tables, id: nat, emp: nat)
    ensures RunAlone(t, Start(DecideLoan(id, "approve", emp)))
              == if MayDecide(t.loans, id, emp) && MayReceive(t.accounts, t.loans[FindLoan(t.loans, id)].userId)
                 then LoanPaid(t, id, emp) else t
  {
    var open := OpenLoan(id, Decide("approve", emp));
    if MayDecide(t.loans, id, emp) {
      var i := FindLoan(t.loans, id);
      var loan := t.loans[i];
      StepAlone(t, open, t, CheckBorrower(i, loan));
      if MayReceive(t.accounts, loan.userId) {
        StepAlone(t, CheckBorrower(i, loan), t, Update(LoanCredit(i, loan)));
        LoanIsPaidAlone(t, i, loan, LoanPaid(t, id, emp).accounts);
      } else {
        StepAlone(t, CheckBorrower(i, loan), t, Idle);
      }
    } else {
      StepAlone(t, open, t, Idle);
    }
  }

  /** The loan rejected. */
  function LoanTurnedDown(t: Tables, id: nat, emp: nat): Tables
    requires MayDecide(t.loans, id, emp)
  {
    var i := FindLoan(t.loans, id);
    t.(loans := t.loans[i := t.loans[i].(status := Rejected)])
  }

  lemma OtherDecisionAlone(t: Tables, id: nat, action: string, emp: nat)
    requires action != "approve"
    ensures RunAlone(t, Start(DecideLoan(id, action, emp)))
              == if action == "reject" && MayDecide(t.loans, id, emp) then LoanTurnedDown(t, id, emp) else t
  {
    var open := OpenLoan(id, Decide(action, emp));
    if action == "reject" && MayDecide(t.loans, id, emp) {
      var i := FindLoan(t.loans, id);
      StepAlone(t, open, t, WriteLoan(i, t.loans[i].(status := Rejected)));
      WriteAlone(t, i, t.loans[i].(status := Rejected));
    } else {
      StepAlone(t, open, t, Idle);
    }
  }

  predicate MayAssign(t: Tables, id: nat, emp: nat) {
    var (i, e) := (FindLoan(t.loans, id), FindUser(t.users, emp));
    i < |t.loans| && t.loans[i].status == Pending && e < |t.users| && t.users[e].role == Employee
  }

  /** The loan assigned. */
  function LoanAssigned(t: Tables, id: nat, emp: nat): Tables
    requires MayAssign(t, id, emp)
  {
    var i := FindLoan(t.loans, id);
    t.(loans := t.loans[i := t.loans[i].(assignedTo := emp, status := Assigned)])
  }

  lemma AssignmentAlone(t: Tables, id: nat, emp: nat)
    ensures RunAlone(t, Start(AssignLoan(id, emp))) == if MayAssign(t, id, emp) then LoanAssigned(t, id, emp) else t
  {
    var i := FindLoan(t.loans, id);
    var open := OpenLoan(id, Assign(emp));
    if i < |t.loans| && t.loans[i].status == Pending {
      var loan := t.loans[i];
      StepAlone(t, open, t, CheckAssignee(i, loan, emp));
      if MayAssign(t, id, emp) {
        StepAlone(t, CheckAssignee(i, loan, emp), t, WriteLoan(i, loan.(assignedTo := emp, status := Assigned)));
        WriteAlone(t, i, loan.(assignedTo := emp, status := Assigned));
      } else {
        StepAlone(t, CheckAssignee(i, loan, emp), t, Idle);
      }
    } else {
      StepAlone(t, open, t, Idle);
    }
  }
}
