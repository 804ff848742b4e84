/** The bank as a step machine. Every client thread runs one operation at a time and
    carries a program counter; each step is one locked region of the server code, taken
    atomically, and threads interleave freely between steps. */
module Bank {
  import opened Records

  datatype Tables = Tables(users: seq<User>, accounts: seq<Account>, loans: seq<Loan>, log: seq<Txn>)

  /** An account update and the operation it belongs to. */
  datatype Job =
    | Deposit(user: nat, amount: real)
    | Withdraw(user: nat, amount: real)
    | TransferOut(from: nat, to: nat, amount: real)
    | TransferIn(from: nat, to: nat, amount: real)
    | Rollback(from: nat, to: nat, amount: real)
    | LoanCredit(slot: nat, loan: Loan)
    | SetStatus(user: nat, active: bool)

  /** A pending append to the transaction log. */
  datatype Entry =
    | DepositEntry(user: nat, amount: real)
    | WithdrawEntry(user: nat, amount: real)
    | OutEntry(from: nat, to: nat, amount: real)
    | InEntry(from: nat, to: nat, amount: real)
    | LoanEntry(slot: nat, loan: Loan)

  /** What a thread wants with a loan record once it holds it. */
  datatype Intent = Assign(emp: nat) | Decide(action: string, emp: nat)

  /** `slot` is the offset of a held loan record and `loan` the thread's local copy of it. */
  datatype PC =
    | Idle
    | Update(job: Job)
    | Append(entry: Entry)
    | CheckRecipient(from: nat, to: nat, amount: real)
    | AppendLoan(user: nat, amount: real)
    | OpenLoan(loanId: nat, intent: Intent)
    | CheckAssignee(slot: nat, loan: Loan, emp: nat)
    | CheckBorrower(slot: nat, loan: Loan)
    | WriteLoan(slot: nat, loan: Loan)
    | UpdateRecord(user: nat, change: UserChange)
    | LoginLookup(username: string, matches: string -> bool)
    | LoginCheck(found: User, matches: string -> bool)

  // ----- Requests; `matches` compares the password of a login with a stored hash

  datatype Request =
    | DepositMoney(user: nat, amount: real)
    | WithdrawMoney(user: nat, amount: real)
    | TransferFunds(from: nat, to: nat, amount: real)
    | ApplyLoan(user: nat, amount: real)
    | AssignLoan(loanId: nat, emp: nat)
    | DecideLoan(loanId: nat, action: string, emp: nat)
    | SetAccountStatus(user: nat, status: int)
    | ChangeRole(user: nat, roleName: string)
    | ChangePassword(user: nat, hash: string)
    | Login(username: string, matches: string -> bool)

  /** Where a request starts, after the checks made before any file is touched. */
  function Start(req: Request): PC {
    match req
    case DepositMoney(u, a) => if a <= 0.0 then Idle else Update(Deposit(u, a))
    case WithdrawMoney(u, a) => if a <= 0.0 then Idle else Update(Withdraw(u, a))
    case TransferFunds(f, t, a) => if f == t || a <= 0.0 then Idle else CheckRecipient(f, t, a)
    case ApplyLoan(u, a) => if a <= 0.0 then Idle else AppendLoan(u, a)
    case AssignLoan(l, e) => OpenLoan(l, Assign(e))
    case DecideLoan(l, act, e) => OpenLoan(l, Decide(act, e))
    case SetAccountStatus(u, st) => Update(SetStatus(u, st == 1))
    case ChangeRole(u, name) => UpdateRecord(u, SetRole(name))
    case ChangePassword(u, h) => UpdateRecord(u, SetPassword(h))
    case Login(name, matches) => LoginLookup(name, matches)
  }

  // ----- Account updates

  function JobUser(job: Job): nat {
    match job
    case Deposit(u, _) => u
    case Withdraw(u, _) => u
    case TransferOut(f, _, _) => f
    case TransferIn(_, t, _) => t
    case Rollback(f, _, _) => f
    case LoanCredit(_, loan) => loan.userId
    case SetStatus(u, _) => u
  }

  function JobChange(job: Job): AccountChange {
    match job
    case Deposit(_, a) => Credit(a)
    case Withdraw(_, a) => Debit(a)
    case TransferOut(_, _, a) => Debit(a)
    case TransferIn(_, _, a) => Credit(a)
    case Rollback(_, _, a) => Credit(a)
    case LoanCredit(_, loan) => Credit(loan.amount)
    case SetStatus(_, b) => SetActive(b)
  }

  function AfterUpdate(job: Job, ok: bool): PC {
    match job
    case Deposit(u, a) => if ok then Append(DepositEntry(u, a)) else Idle
    case Withdraw(u, a) => if ok then Append(WithdrawEntry(u, a)) else Idle
    case TransferOut(f, t, a) => if ok then Update(TransferIn(f, t, a)) else Idle
    case TransferIn(f, t, a) => if ok then Append(OutEntry(f, t, a)) else Update(Rollback(f, t, a))
    case Rollback(_, _, _) => Idle
    case LoanCredit(slot, loan) => if ok then Append(LoanEntry(slot, loan)) else Idle
    case SetStatus(_, _) => Idle
  }

  // ----- Log appends

  function LogRecord(id: nat, entry: Entry): Txn {
    match entry
    case DepositEntry(u, a) => Txn(id, 0, u, a, DepositNote)
    case WithdrawEntry(u, a) => Txn(id, u, 0, a, WithdrawNote)
    case OutEntry(f, t, a) => Txn(id, f, t, a, TransferOutNote)
    case InEntry(f, t, a) => Txn(id, f, t, a, TransferInNote)
    case LoanEntry(_, loan) => Txn(id, 0, loan.userId, loan.amount, LoanDepositNote)
  }

  function AfterAppend(entry: Entry): PC {
    match entry
    case OutEntry(f, t, a) => Append(InEntry(f, t, a))
    case LoanEntry(slot, loan) => WriteLoan(slot, loan.(status := Approved))
    case _ => Idle
  }

  // ----- Record searches

  /** What follows when a search runs off the end of its file. */
  function Miss(pc: PC): PC {
    match pc
    case Update(job) => AfterUpdate(job, false)
    case _ => Idle
  }

  function WithAccount(pc: PC, acc: Account): PC {
    match pc
    case CheckRecipient(f, t, a) => if acc.active then Update(TransferOut(f, t, a)) else Idle
    case CheckBorrower(slot, loan) => if acc.active then Update(LoanCredit(slot, loan)) else Idle
    case _ => Idle
  }

  function WithUser(pc: PC, user: User): PC {
    match pc
    case CheckAssignee(slot, loan, e) =>
      if user.role == Employee then WriteLoan(slot, loan.(assignedTo := e, status := Assigned)) else Idle
    case LoginLookup(_, matches) => if matches(user.passwordHash) then LoginCheck(user, matches) else Idle
    case _ => Idle
  }

  /** The part of a loan modifier that runs before any other file is touched. */
  function WithLoan(intent: Intent, slot: nat, loan: Loan): PC {
    match intent
    case Assign(e) => if loan.status != Pending then Idle else CheckAssignee(slot, loan, e)
    case Decide(action, e) =>
      if loan.status != Assigned || loan.assignedTo != e then Idle
      else if action == "approve" then CheckBorrower(slot, loan)
      else if action == "reject" then WriteLoan(slot, loan.(status := Rejected))
      else Idle
  }

  // ----- One atomic step of a thread

  function Advance(t: Tables, pc: PC): (Tables, PC) {
    match pc
    case Idle => (t, Idle)
    case Update(job) =>
      (match UpdateAccount(t.accounts, JobUser(job), JobChange(job))
       case None => (t, AfterUpdate(job, false))
       case Some(accounts) => (t.(accounts := accounts), AfterUpdate(job, true)))
    case UpdateRecord(u, change) =>
      (match UpdateUser(t.users, u, change)
       case None => (t, Idle)
       case Some(users) => (t.(users := users), Idle))
    case Append(entry) => (t.(log := t.log + [LogRecord(|t.log| + 1, entry)]), AfterAppend(entry))
    case AppendLoan(u, a) => (t.(loans := t.loans + [Loan(|t.loans| + 1, u, a, Pending, 0)]), Idle)
    case WriteLoan(slot, loan) =>
      (t.(loans := if slot < |t.loans| then t.loans[slot := loan] else t.loans), Idle)
    case OpenLoan(l, intent) =>
      var i := FindLoan(t.loans, l);
      (t, if i < |t.loans| then WithLoan(intent, i, t.loans[i]) else Miss(pc))
    case CheckRecipient(_, to, _) =>
      var i := FindAccount(t.accounts, to);
      (t, if i < |t.accounts| then WithAccount(pc, t.accounts[i]) else Miss(pc))
    case CheckBorrower(_, loan) =>
      var i := FindAccount(t.accounts, loan.userId);
      (t, if i < |t.accounts| then WithAccount(pc, t.accounts[i]) else Miss(pc))
    case LoginCheck(user, _) =>
      var i := FindAccount(t.accounts, user.id);
      (t, if i < |t.accounts| then WithAccount(pc, t.accounts[i]) else Miss(pc))
    case CheckAssignee(_, _, e) =>
      var i := FindUser(t.users, e);
      (t, if i < |t.users| then WithUser(pc, t.users[i]) else Miss(pc))
    case LoginLookup(name, _) =>
      var i := FindUsername(t.users, name);
      (t, if i < |t.users| then WithUser(pc, t.users[i]) else Miss(pc))
  }

  // ----- Auxiliary history: what happened to money and what logins were answered, apart from the files

  datatype LoginResult = BadCredentials | Deactivated | Accepted(user: User)

  datatype Event =
    | Deposited(user: nat, amount: real)
    | Withdrawn(user: nat, amount: real)
    | Transferred(from: nat, to: nat, amount: real)
    | LoanCredited(loanId: nat, user: nat, amount: real)
    | RollbackRefused(from: nat, amount: real)
    | LoginAnswered(username: string, answer: LoginResult)

  function JobEvents(job: Job, ok: bool): seq<Event> {
    match job
    case Deposit(u, a) => if ok then [Deposited(u, a)] else []
    case Withdraw(u, a) => if ok then [Withdrawn(u, a)] else []
    case TransferIn(f, t, a) => if ok then [Transferred(f, t, a)] else []
    case Rollback(f, _, a) => if ok then [] else [RollbackRefused(f, a)]
    case LoanCredit(_, loan) => if ok then [LoanCredited(loan.id, loan.userId, loan.amount)] else []
    case _ => []
  }

  function Answer(user: User, accountActive: bool): LoginResult {
    if user.active && accountActive then Accepted(user) else Deactivated
  }

  function MissEvents(pc: PC): seq<Event> {
    match pc
    case Update(job) => JobEvents(job, false)
    case LoginLookup(name, _) => [LoginAnswered(name, BadCredentials)]
    case LoginCheck(user, _) => [LoginAnswered(user.username, Answer(user, true))]
    case _ => []
  }

  function AccountEvents(pc: PC, acc: Account): seq<Event> {
    match pc
    case LoginCheck(user, _) => [LoginAnswered(user.username, Answer(user, acc.active))]
    case _ => []
  }

  function UserEvents(pc: PC, user: User): seq<Event> {
    match pc
    case LoginLookup(name, matches) =>
      if matches(user.passwordHash) then [] else [LoginAnswered(name, BadCredentials)]
    case _ => []
  }

  function Events(t: Tables, pc: PC): seq<Event> {
    match pc
    case Update(job) => JobEvents(job, UpdateAccount(t.accounts, JobUser(job), JobChange(job)).Some?)
    case LoginLookup(name, _) =>
      var i := FindUsername(t.users, name);
      if i < |t.users| then UserEvents(pc, t.users[i]) else MissEvents(pc)
    case LoginCheck(user, _) =>
      var i := FindAccount(t.accounts, user.id);
      if i < |t.accounts| then AccountEvents(pc, t.accounts[i]) else MissEvents(pc)
    case _ => []
  }

  // ----- Administration: user creation and profile edits, each serialised as one step

  datatype Command =
    | AddCustomer(profile: Profile, email: string, phone: string, username: string, hash: string)
    | AddEmployee(profile: Profile, roleName: string, email: string, phone: string, username: string, hash: string)
    | ModifyCustomer(user: nat, profile: Profile, email: string, phone: string)
    | ModifyAnyUser(user: nat, profile: Profile, email: string, phone: string)

  function RoleNamed(roleName: string): Option<Role> {
    if roleName == "employee" then Some(Employee)
    else if roleName == "manager" then Some(Manager)
    else if roleName == "admin" then Some(Admin)
    else None
  }

  function EditUser(users: seq<User>, id: nat, customersOnly: bool, profile: Profile, email: string, phone: string)
    : seq<User>
  {
    var i := FindUser(users, id);
    if i == |users| then users
    else if customersOnly && users[i].role != Customer then users
    else if !IsUnique(users, users[i].username, email, phone, users[i].id) then users
    else users[i := users[i].(profile := profile, email := email, phone := phone)]
  }

  function Administer(t: Tables, cmd: Command): Tables {
    match cmd
    case AddCustomer(p, email, phone, name, hash) =>
      if !IsUnique(t.users, name, email, phone, 0) then t
      else
        var id := NewUserId(t.users);
        t.(users := PutUser(t.users, User(id, name, hash, Customer, p, email, phone, true)),
           accounts := PutAccount(t.accounts, Account(id, id, 0.0, true)))
    case AddEmployee(p, roleName, email, phone, name, hash) =>
      if !IsUnique(t.users, name, email, phone, 0) then t
      else
        (match RoleNamed(roleName)
         case None => t
         case Some(role) =>
           t.(users := PutUser(t.users, User(NewUserId(t.users), name, hash, role, p, email, phone, true))))
    case ModifyCustomer(u, p, email, phone) => t.(users := EditUser(t.users, u, true, p, email, phone))
    case ModifyAnyUser(u, p, email, phone) => t.(users := EditUser(t.users, u, false, p, email, phone))
  }

  // ----- The machine

  datatype State = State(tables: Tables, history: seq<Event>, threads: seq<PC>)

  datatype Step = Connect | Begin(thread: nat, request: Request) | Advances(thread: nat) | Admins(command: Command)

  predicate HoldsLoan(pc: PC, slot: nat) {
    match pc
    case CheckAssignee(i, _, _) => i == slot
    case CheckBorrower(i, _) => i == slot
    case Update(LoanCredit(i, _)) => i == slot
    case Append(LoanEntry(i, _)) => i == slot
    case WriteLoan(i, _) => i == slot
    case _ => false
  }

  /** A loan record can be opened only while no other thread holds it. */
  ghost predicate LoanFree(s: State, thread: nat) {
    thread < |s.threads| && s.threads[thread].OpenLoan? ==>
      forall k :: 0 <= k < |s.threads| && k != thread ==>
        !HoldsLoan(s.threads[k], FindLoan(s.tables.loans, s.threads[thread].loanId))
  }

  ghost predicate Enabled(s: State, step: Step) {
    match step
    case Connect => true
    case Begin(k, _) => k < |s.threads| && s.threads[k].Idle?
    case Advances(k) => k < |s.threads| && !s.threads[k].Idle? && LoanFree(s, k)
    case Admins(_) => true
  }

  function Do(s: State, step: Step): State {
    match step
    case Connect => s.(threads := s.threads + [Idle])
    case Begin(k, req) => if k < |s.threads| then s.(threads := s.threads[k := Start(req)]) else s
    case Advances(k) =>
      if k < |s.threads| then
        var (tables, pc) := Advance(s.tables, s.threads[k]);
        State(tables, s.history + Events(s.tables, s.threads[k]), s.threads[k := pc])
      else s
    case Admins(cmd) => s.(tables := Administer(s.tables, cmd))
  }

  const INITIAL: State := State(Tables([], [], [], []), [], [])

  ghost predicate Next(s: State, s': State) {
    exists step :: Enabled(s, step) && s' == Do(s, step)
  }

  /** One step or none: repeating a state lets runs with finer steps map onto these. */
  ghost predicate Follows(s: State, s': State) {
    s == s' || Next(s, s')
  }

  ghost predicate StepAt(run: seq<State>, i: nat)
    requires i + 1 < |run|
  {
    Follows(run[i], run[i + 1])
  }

  ghost predicate IsRun(run: seq<State>) {
    forall i: nat :: i + 1 < |run| ==> StepAt(run, i)
  }

  ghost predicate RunTo(run: seq<State>, s: State) {
    |run| > 0 && run[0] == INITIAL && run[|run| - 1] == s && IsRun(run)
  }

  ghost predicate Reachable(s: State) {
    exists run: seq<State> :: RunTo(run, s)
  }

  lemma RunGrows(run: seq<State>, s: State, s': State)
    requires RunTo(run, s) && Follows(s, s')
    ensures RunTo(run + [s'], s')
  {
    var longer := run + [s'];
    forall i: nat | i + 1 < |longer| ensures StepAt(longer, i) {
      assert i + 1 < |run| ==> StepAt(run, i);
    }
  }

  lemma ReachableStep(s: State, step: Step, s': State)
    requires Reachable(s) && Enabled(s, step) && s' == Do(s, step)
    ensures Reachable(s')
  {
    var run :| RunTo(run, s);
    RunGrows(run, s, s');
  }
}
