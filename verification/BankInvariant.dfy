/** What every step keeps: dense identifiers, one account per customer, balances and loan
    amounts in range, staff behind every assigned loan, exclusive loan holders, and the
    agreement between a holder's local copy and the stored loan. */
module BankInvariant {
  import opened Records
  import opened Bank

  // ----- Tables

  ghost predicate DenseIds(t: Tables) {
    && Dense(t.users)
    && (forall i :: 0 <= i < |t.loans| ==> t.loans[i].id == i + 1)
    && (forall i :: 0 <= i < |t.log| ==> t.log[i].id == i + 1)
  }

  predicate IsCustomer(users: seq<User>, id: nat) {
    FIRST_USER_ID <= id < FIRST_USER_ID + |users| && users[id - FIRST_USER_ID].role == Customer
  }

  predicate IsStaff(users: seq<User>, id: nat) {
    FIRST_USER_ID <= id < FIRST_USER_ID + |users| && users[id - FIRST_USER_ID].role in {Employee, Manager}
  }

  predicate HasAccount(accounts: seq<Account>, id: nat) {
    FindAccount(accounts, id) < |accounts|
  }

  ghost predicate AccountPerCustomer(t: Tables) {
    && (forall i :: 0 <= i < |t.accounts| ==>
          t.accounts[i].accountId == t.accounts[i].userId && IsCustomer(t.users, t.accounts[i].userId))
    && (forall i, j :: 0 <= i < j < |t.accounts| ==> t.accounts[i].userId < t.accounts[j].userId)
    && (forall id: nat :: IsCustomer(t.users, id) ==> HasAccount(t.accounts, id))
  }

  ghost predicate LoanOk(users: seq<User>, loan: Loan) {
    loan.amount > 0.0 && (loan.status != Pending ==> IsStaff(users, loan.assignedTo))
  }

  ghost predicate AmountsOk(t: Tables) {
    && (forall i :: 0 <= i < |t.accounts| ==> t.accounts[i].balance >= 0.0)
    && (forall i :: 0 <= i < |t.loans| ==> LoanOk(t.users, t.loans[i]))
  }

  ghost predicate TablesOk(t: Tables) {
    DenseIds(t) && AccountPerCustomer(t) && AmountsOk(t)
  }

  // ----- How tables may change

  predicate RoleEvolves(r: Role, r': Role) {
    r == r' || (r in {Employee, Manager} && r' in {Employee, Manager})
  }

  predicate StatusEvolves(st: LoanStatus, st': LoanStatus) {
    st == st' || st == Pending || (st == Assigned && (st' == Approved || st' == Rejected))
  }

  ghost predicate LoanEvolves(l: Loan, l': Loan) {
    && l'.id == l.id && l'.userId == l.userId && l'.amount == l.amount
    && StatusEvolves(l.status, l'.status)
    && (l.status != Pending ==> l'.assignedTo == l.assignedTo)
  }

  /** Append-only tables, immutable keys, roles that never cross the customer line and
      loans that only move forward. */
  ghost predicate Evolves(t: Tables, t': Tables) {
    && |t.users| <= |t'.users| && |t.accounts| <= |t'.accounts| && |t.loans| <= |t'.loans|
    && t.log <= t'.log
    && (forall i :: 0 <= i < |t.users| ==>
          t'.users[i].id == t.users[i].id && t'.users[i].username == t.users[i].username
          && RoleEvolves(t.users[i].role, t'.users[i].role))
    && (forall i :: 0 <= i < |t.accounts| ==>
          t'.accounts[i].userId == t.accounts[i].userId && t'.accounts[i].accountId == t.accounts[i].accountId)
    && (forall i :: 0 <= i < |t.loans| ==> LoanEvolves(t.loans[i], t'.loans[i]))
  }

  lemma EvolvesTransitive(a: Tables, b: Tables, c: Tables)
    requires Evolves(a, b) && Evolves(b, c)
    ensures Evolves(a, c)
  {
    forall i | 0 <= i < |a.loans| ensures LoanEvolves(a.loans[i], c.loans[i]) {
      assert LoanEvolves(a.loans[i], b.loans[i]) && LoanEvolves(b.loans[i], c.loans[i]);
    }
  }

  // ----- Program counters

  /** The thread's local copy of the loan it holds is the stored record. */
  ghost predicate CopyOk(t: Tables, slot: nat, loan: Loan, status: LoanStatus) {
    slot < |t.loans| && t.loans[slot] == loan && loan.status == status
  }

  /** The write in front of a loan holder is one step along the loan's life cycle. */
  ghost predicate WriteOk(t: Tables, slot: nat, loan: Loan) {
    && slot < |t.loans|
    && loan.id == t.loans[slot].id && loan.userId == t.loans[slot].userId && loan.amount == t.loans[slot].amount
    && IsStaff(t.users, loan.assignedTo)
    && (if t.loans[slot].status == Pending then loan.status == Assigned
        else t.loans[slot].status == Assigned && loan.assignedTo == t.loans[slot].assignedTo
             && loan.status in {Approved, Rejected})
  }

  ghost predicate JobOk(t: Tables, job: Job) {
    match job
    case Deposit(_, a) => a > 0.0
    case Withdraw(_, a) => a > 0.0
    case TransferOut(f, to, a) => a > 0.0 && f != to && HasAccount(t.accounts, to)
    case TransferIn(f, to, a) => a > 0.0 && f != to && HasAccount(t.accounts, f) && HasAccount(t.accounts, to)
    case Rollback(f, to, a) => a > 0.0 && f != to && HasAccount(t.accounts, f) && HasAccount(t.accounts, to)
    case LoanCredit(slot, loan) => CopyOk(t, slot, loan, Assigned)
    case SetStatus(_, _) => true
  }

  ghost predicate PcOk(t: Tables, pc: PC) {
    match pc
    case Update(job) => JobOk(t, job)
    case Append(LoanEntry(slot, loan)) => CopyOk(t, slot, loan, Assigned)
    case CheckRecipient(f, to, a) => a > 0.0 && f != to
    case AppendLoan(_, a) => a > 0.0
    case CheckAssignee(slot, loan, _) => CopyOk(t, slot, loan, Pending)
    case CheckBorrower(slot, loan) => CopyOk(t, slot, loan, Assigned)
    case WriteLoan(slot, loan) => WriteOk(t, slot, loan)
    case _ => true
  }

  ghost predicate Exclusive(threads: seq<PC>) {
    forall i, j, slot: nat :: 0 <= i < |threads| && 0 <= j < |threads| && i != j ==>
      !(HoldsLoan(threads[i], slot) && HoldsLoan(threads[j], slot))
  }

  ghost predicate Inv(s: State) {
    && TablesOk(s.tables)
    && (forall k :: 0 <= k < |s.threads| ==> PcOk(s.tables, s.threads[k]))
    && Exclusive(s.threads)
  }

  // ----- Frame: another thread's evolution of the tables keeps a program counter valid

  lemma PcFrame(t: Tables, t': Tables, pc: PC)
    requires Evolves(t, t') && PcOk(t, pc)
    requires forall slot: nat :: slot < |t.loans| && HoldsLoan(pc, slot) ==> t'.loans[slot] == t.loans[slot]
    ensures PcOk(t', pc)
  {
    AccountsPersist(t, t');
    match pc
    case CheckAssignee(slot, _, _) => assert HoldsLoan(pc, slot);
    case CheckBorrower(slot, _) => assert HoldsLoan(pc, slot);
    case Update(LoanCredit(slot, _)) => assert HoldsLoan(pc, slot);
    case Append(LoanEntry(slot, _)) => assert HoldsLoan(pc, slot);
    case WriteLoan(slot, _) => assert HoldsLoan(pc, slot);
    case _ =>
  }

  lemma AccountsPersist(t: Tables, t': Tables)
    requires Evolves(t, t')
    ensures forall id: nat :: HasAccount(t.accounts, id) ==>
              HasAccount(t'.accounts, id) && FindAccount(t'.accounts, id) == FindAccount(t.accounts, id)
  {
    forall id: nat | HasAccount(t.accounts, id)
      ensures HasAccount(t'.accounts, id) && FindAccount(t'.accounts, id) == FindAccount(t.accounts, id)
    {
      var i := FindAccount(t.accounts, id);
      assert t'.accounts[i].userId == id;
    }
  }

  // ----- One step of the acting thread

  /** Overwriting one account record with its keys kept and a balance in range. */
  lemma AccountChange(t: Tables, i: nat, acc: Account)
    requires TablesOk(t) && i < |t.accounts| && acc.balance >= 0.0
    requires acc.userId == t.accounts[i].userId && acc.accountId == t.accounts[i].accountId
    ensures var t' := t.(accounts := t.accounts[i := acc]); TablesOk(t') && Evolves(t, t')
  {
    var t' := t.(accounts := t.accounts[i := acc]);
    assert Evolves(t, t');
    AccountsPersist(t, t');
    assert AccountPerCustomer(t');
  }

  /** An accepted job changes one account, and its balance stays in range. */
  lemma JobChangeOk(t: Tables, job: Job)
    requires AmountsOk(t) && JobOk(t, job)
    requires HasAccount(t.accounts, JobUser(job))
    ensures var acc := t.accounts[FindAccount(t.accounts, JobUser(job))];
            var changed := ModifyAccount(acc, JobChange(job));
            changed.Some? ==> changed.value == acc.(balance := changed.value.balance, active := changed.value.active)
                              && changed.value.balance >= 0.0
  {
    assert job.LoanCredit? ==> LoanOk(t.users, t.loans[job.slot]);
  }

  lemma UpdateKeeps(t: Tables, job: Job)
    requires TablesOk(t) && JobOk(t, job)
    ensures var (t', pc') := Advance(t, Update(job)); TablesOk(t') && Evolves(t, t') && PcOk(t', pc')
  {
    var i := FindAccount(t.accounts, JobUser(job));
    var ok := i < |t.accounts| && ModifyAccount(t.accounts[i], JobChange(job)).Some?;
    if ok {
      JobChangeOk(t, job);
      AccountChange(t, i, ModifyAccount(t.accounts[i], JobChange(job)).value);
    }
    AfterUpdateOk(t, Advance(t, Update(job)).0, job, ok);
  }

  lemma AfterUpdateOk(t: Tables, t': Tables, job: Job, ok: bool)
    requires Evolves(t, t') && t'.loans == t.loans && JobOk(t, job)
    requires ok ==> HasAccount(t.accounts, JobUser(job))
    ensures PcOk(t', AfterUpdate(job, ok))
  {
    AccountsPersist(t, t');
  }

  lemma UpdateRecordKeeps(t: Tables, u: nat, change: UserChange)
    requires TablesOk(t)
    ensures var (t', pc') := Advance(t, UpdateRecord(u, change)); TablesOk(t') && Evolves(t, t') && PcOk(t', pc')
  {
    var (t', pc') := Advance(t, UpdateRecord(u, change));
    UsersChange(t, t');
  }

  /** Tables that differ in user records only, ids and roles evolving, stay valid. */
  lemma UsersChange(t: Tables, t': Tables)
    requires TablesOk(t) && Evolves(t, t') && t' == t.(users := t'.users) && |t'.users| == |t.users|
    ensures TablesOk(t')
  {
    assert forall id: nat :: IsCustomer(t.users, id) == IsCustomer(t'.users, id);
    assert forall id: nat :: IsStaff(t.users, id) == IsStaff(t'.users, id);
    assert forall i :: 0 <= i < |t.loans| ==> LoanOk(t.users, t.loans[i]);
  }

  lemma WriteLoanKeeps(t: Tables, slot: nat, loan: Loan)
    requires TablesOk(t) && WriteOk(t, slot, loan)
    ensures var (t', pc') := Advance(t, WriteLoan(slot, loan)); TablesOk(t') && Evolves(t, t')
  {
    assert LoanOk(t.users, t.loans[slot]);
  }

  lemma OpenLoanKeeps(t: Tables, l: nat, intent: Intent)
    requires TablesOk(t)
    ensures PcOk(t, Advance(t, OpenLoan(l, intent)).1)
  {
    var i := FindLoan(t.loans, l);
    if i < |t.loans| {
      assert LoanOk(t.users, t.loans[i]);
    }
  }

  lemma CheckAssigneeKeeps(t: Tables, slot: nat, loan: Loan, e: nat)
    requires DenseIds(t) && CopyOk(t, slot, loan, Pending)
    ensures PcOk(t, Advance(t, CheckAssignee(slot, loan, e)).1)
  {
    var i := FindUser(t.users, e);
    if i < |t.users| && t.users[i].role == Employee {
      assert IsStaff(t.users, e);
    }
  }

  lemma CheckAccountKeeps(t: Tables, pc: PC)
    requires PcOk(t, pc) && (pc.CheckRecipient? || pc.CheckBorrower? || pc.LoginCheck? || pc.LoginLookup?)
    ensures Advance(t, pc).0 == t && PcOk(t, Advance(t, pc).1)
  {
  }

  lemma AppendKeeps(t: Tables, pc: PC)
    requires TablesOk(t) && PcOk(t, pc) && (pc.Append? || pc.AppendLoan?)
    ensures var (t', pc') := Advance(t, pc); TablesOk(t') && Evolves(t, t') && PcOk(t', pc')
  {
    if pc.Append? && pc.entry.LoanEntry? {
      assert LoanOk(t.users, t.loans[pc.entry.slot]);
    }
  }

  lemma AdvanceKeeps(t: Tables, pc: PC)
    requires TablesOk(t) && PcOk(t, pc)
    ensures var (t', pc') := Advance(t, pc); TablesOk(t') && Evolves(t, t') && PcOk(t', pc')
  {
    match pc
    case Idle =>
    case Update(job) => UpdateKeeps(t, job);
    case UpdateRecord(u, change) => UpdateRecordKeeps(t, u, change);
    case WriteLoan(slot, loan) => WriteLoanKeeps(t, slot, loan);
    case Append(_) => AppendKeeps(t, pc);
    case AppendLoan(_, _) => AppendKeeps(t, pc);
    case OpenLoan(l, intent) => OpenLoanKeeps(t, l, intent);
    case CheckAssignee(slot, loan, e) => CheckAssigneeKeeps(t, slot, loan, e);
    case _ => CheckAccountKeeps(t, pc);
  }

  /** A step writes no loan record but the one its thread holds, and never acquires a second one
      without opening it. */
  lemma AdvanceHolds(t: Tables, pc: PC, slot: nat)
    ensures |t.loans| <= |Advance(t, pc).0.loans|
    ensures slot < |t.loans| && !HoldsLoan(pc, slot) ==> Advance(t, pc).0.loans[slot] == t.loans[slot]
    ensures HoldsLoan(Advance(t, pc).1, slot) ==>
              HoldsLoan(pc, slot) || (pc.OpenLoan? && slot == FindLoan(t.loans, pc.loanId))
  {
  }

  // ----- Administration

  lemma EditKeeps(t: Tables, id: nat, customersOnly: bool, p: Profile, email: string, phone: string)
    requires TablesOk(t)
    ensures var t' := t.(users := EditUser(t.users, id, customersOnly, p, email, phone)); TablesOk(t') && Evolves(t, t')
  {
    UsersChange(t, t.(users := EditUser(t.users, id, customersOnly, p, email, phone)));
  }

  /** Creation always appends: the new identifier is fresh in both tables. */
  lemma CreationAppends(t: Tables, user: User)
    requires TablesOk(t) && user.id == NewUserId(t.users)
    ensures FindUser(t.users, user.id) == |t.users| && FindAccount(t.accounts, user.id) == |t.accounts|
    ensures PutUser(t.users, user) == t.users + [user]
    ensures forall acc: Account :: acc.userId == user.id ==> PutAccount(t.accounts, acc) == t.accounts + [acc]
  {
    assert forall i :: 0 <= i < |t.accounts| ==> IsCustomer(t.users, t.accounts[i].userId);
  }

  lemma EmployeeKeeps(t: Tables, user: User)
    requires TablesOk(t) && user.id == NewUserId(t.users) && user.role != Customer
    ensures var t' := t.(users := t.users + [user]); TablesOk(t') && Evolves(t, t')
  {
    var t' := t.(users := t.users + [user]);
    assert forall i :: 0 <= i < |t.loans| ==> LoanOk(t.users, t.loans[i]);
    assert forall id: nat :: IsCustomer(t'.users, id) == IsCustomer(t.users, id);
  }

  lemma CustomerKeeps(t: Tables, user: User, acc: Account)
    requires TablesOk(t) && user.id == NewUserId(t.users) && user.role == Customer
    requires acc == Account(user.id, user.id, 0.0, true)
    ensures var t' := t.(users := t.users + [user], accounts := t.accounts + [acc]); TablesOk(t') && Evolves(t, t')
  {
    var t' := t.(users := t.users + [user], accounts := t.accounts + [acc]);
    assert Evolves(t, t');
    assert AmountsOk(t') by {
      assert forall i :: 0 <= i < |t.loans| ==> LoanOk(t.users, t.loans[i]);
    }
    assert AccountPerCustomer(t') by { CustomerHasAccount(t, user, acc); }
  }

  lemma CustomerHasAccount(t: Tables, user: User, acc: Account)
    requires DenseIds(t) && AccountPerCustomer(t) && user.id == NewUserId(t.users) && user.role == Customer
    requires acc == Account(user.id, user.id, 0.0, true)
    ensures AccountPerCustomer(t.(users := t.users + [user], accounts := t.accounts + [acc]))
  {
    var t' := t.(users := t.users + [user], accounts := t.accounts + [acc]);
    assert forall i :: 0 <= i < |t.accounts| ==> IsCustomer(t.users, t.accounts[i].userId);
    forall id: nat | IsCustomer(t'.users, id) ensures HasAccount(t'.accounts, id) {
      var i := if id == user.id then |t.accounts| else FindAccount(t.accounts, id);
      assert id != user.id ==> IsCustomer(t.users, id);
      assert t'.accounts[i].userId == id;
    }
  }

  lemma AddCustomerKeeps(t: Tables, cmd: Command)
    requires TablesOk(t) && cmd.AddCustomer?
    ensures TablesOk(Administer(t, cmd)) && Evolves(t, Administer(t, cmd))
  {
    var id := NewUserId(t.users);
    var user := User(id, cmd.username, cmd.hash, Customer, cmd.profile, cmd.email, cmd.phone, true);
    CreationAppends(t, user);
    CustomerKeeps(t, user, Account(id, id, 0.0, true));
  }

  lemma AddEmployeeKeeps(t: Tables, cmd: Command)
    requires TablesOk(t) && cmd.AddEmployee?
    ensures TablesOk(Administer(t, cmd)) && Evolves(t, Administer(t, cmd))
  {
    if RoleNamed(cmd.roleName).Some? {
      var role := RoleNamed(cmd.roleName).value;
      var user := User(NewUserId(t.users), cmd.username, cmd.hash, role, cmd.profile, cmd.email, cmd.phone, true);
      CreationAppends(t, user);
      EmployeeKeeps(t, user);
    }
  }

  lemma AdministerKeeps(t: Tables, cmd: Command)
    requires TablesOk(t)
    ensures TablesOk(Administer(t, cmd)) && Evolves(t, Administer(t, cmd))
    ensures Administer(t, cmd).loans == t.loans && Administer(t, cmd).log == t.log
  {
    match cmd
    case AddCustomer(_, _, _, _, _) => AddCustomerKeeps(t, cmd);
    case AddEmployee(_, _, _, _, _, _) => AddEmployeeKeeps(t, cmd);
    case ModifyCustomer(u, p, email, phone) => EditKeeps(t, u, true, p, email, phone);
    case ModifyAnyUser(u, p, email, phone) => EditKeeps(t, u, false, p, email, phone);
  }

  // ----- The machine

  /** A step of one thread keeps the program counter of a thread that shares no loan with it. */
  lemma OtherKeepsPc(t: Tables, pc: PC, other: PC)
    requires PcOk(t, other) && Evolves(t, Advance(t, pc).0)
    requires forall slot: nat :: !(HoldsLoan(pc, slot) && HoldsLoan(other, slot))
    ensures PcOk(Advance(t, pc).0, other)
  {
    forall slot: nat | slot < |t.loans| && HoldsLoan(other, slot)
      ensures Advance(t, pc).0.loans[slot] == t.loans[slot]
    {
      AdvanceHolds(t, pc, slot);
    }
    PcFrame(t, Advance(t, pc).0, other);
  }

  lemma StaysExclusive(s: State, k: nat)
    requires Exclusive(s.threads) && k < |s.threads| && LoanFree(s, k)
    ensures Exclusive(s.threads[k := Advance(s.tables, s.threads[k]).1])
  {
    var threads' := s.threads[k := Advance(s.tables, s.threads[k]).1];
    forall i, j, slot: nat | 0 <= i < |threads'| && 0 <= j < |threads'| && i != j
      ensures !(HoldsLoan(threads'[i], slot) && HoldsLoan(threads'[j], slot))
    {
      AdvanceHolds(s.tables, s.threads[k], slot);
    }
  }

  lemma AdvancesKeeps(s: State, k: nat)
    requires Inv(s) && Enabled(s, Advances(k))
    ensures Inv(Do(s, Advances(k))) && Evolves(s.tables, Do(s, Advances(k)).tables)
  {
    var (t', pc') := Advance(s.tables, s.threads[k]);
    AdvanceKeeps(s.tables, s.threads[k]);
    forall j | 0 <= j < |s.threads| && j != k ensures PcOk(t', s.threads[j]) {
      OtherKeepsPc(s.tables, s.threads[k], s.threads[j]);
    }
    StaysExclusive(s, k);
  }

  lemma StepKeeps(s: State, step: Step)
    requires Inv(s) && Enabled(s, step)
    ensures Inv(Do(s, step)) && Evolves(s.tables, Do(s, step).tables)
  {
    match step
    case Connect =>
    case Begin(k, req) =>
      assert forall slot: nat :: !HoldsLoan(Start(req), slot);
    case Advances(k) => AdvancesKeeps(s, k);
    case Admins(cmd) =>
      AdministerKeeps(s.tables, cmd);
      forall j | 0 <= j < |s.threads| ensures PcOk(Administer(s.tables, cmd), s.threads[j]) {
        PcFrame(s.tables, Administer(s.tables, cmd), s.threads[j]);
      }
  }

  lemma FollowsKeeps(s: State, s': State)
    requires Inv(s) && Follows(s, s')
    ensures Inv(s') && Evolves(s.tables, s'.tables)
  {
    if s != s' {
      var step :| Enabled(s, step) && s' == Do(s, step);
      StepKeeps(s, step);
    }
  }

  lemma {:induction false} RunKeeps(run: seq<State>, k: nat)
    requires k < |run| && IsRun(run) && Inv(run[0])
    ensures Inv(run[k]) && Evolves(run[0].tables, run[k].tables)
  {
    if k > 0 {
      RunKeeps(run, k - 1);
      assert StepAt(run, k - 1);
      FollowsKeeps(run[k - 1], run[k]);
      EvolvesTransitive(run[0].tables, run[k - 1].tables, run[k].tables);
    }
  }

  lemma InitialInv()
    ensures Inv(INITIAL)
  {
  }

  lemma RunInv(run: seq<State>, k: nat)
    requires k < |run| && IsRun(run) && run[0] == INITIAL
    ensures Inv(run[k])
  {
    InitialInv();
    RunKeeps(run, k);
  }

  /** The invariant holds in every reachable state of every interleaving. */
  lemma ReachableInv(s: State)
    requires Reachable(s)
    ensures Inv(s)
  {
    var run :| RunTo(run, s);
    RunInv(run, |run| - 1);
  }
}
