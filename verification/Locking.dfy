/** The bank at the granularity of single file accesses. A search reads one record at a time; a record is
    updated in two phases, search first and lock afterwards; locks exclude other threads. `scanLocks` says
    whether the whole-file lock around a search takes effect: it is requested for writing on a descriptor
    opened for reading, and the code ignores the result. Record locks and the locks around appends are
    always taken. */
module Locking {
  import opened Records
  import opened Bank

  datatype File = LoansFile | UsersFile | AccountsFile | LogFile

  datatype Lock = Whole(file: File) | Record(file: File, slot: nat)

  predicate Conflict(a: Lock, b: Lock) {
    a.file == b.file && (a.Whole? || b.Whole? || a.slot == b.slot)
  }

  /** How the step in front of a thread touches its file. */
  datatype Access =
    | NoAccess
    | Search(file: File)      // read records until one matches
    | TwoPhase(file: File)    // search, then lock the record found
    | AppendTo(file: File)
    | WriteHeld               // write a record that is already locked

  function AccessOf(pc: PC): Access {
    match pc
    case Idle => NoAccess
    case Update(_) => TwoPhase(AccountsFile)
    case UpdateRecord(_, _) => TwoPhase(UsersFile)
    case OpenLoan(_, _) => TwoPhase(LoansFile)
    case CheckRecipient(_, _, _) => Search(AccountsFile)
    case CheckBorrower(_, _) => Search(AccountsFile)
    case LoginCheck(_, _) => Search(AccountsFile)
    case CheckAssignee(_, _, _) => Search(UsersFile)
    case LoginLookup(_, _) => Search(UsersFile)
    case Append(_) => AppendTo(LogFile)
    case AppendLoan(_, _) => AppendTo(LoansFile)
    case WriteLoan(_, _) => WriteHeld
  }

  function Length(t: Tables, file: File): nat {
    match file
    case LoansFile => |t.loans|
    case UsersFile => |t.users|
    case AccountsFile => |t.accounts|
    case LogFile => |t.log|
  }

  predicate Searches(pc: PC) { AccessOf(pc).Search? || AccessOf(pc).TwoPhase? }

  function SearchLength(t: Tables, pc: PC): nat
    requires Searches(pc)
  {
    Length(t, AccessOf(pc).file)
  }

  /** Record i is the one the thread is searching for. */
  predicate Matches(t: Tables, pc: PC, i: nat)
    requires Searches(pc) && i < SearchLength(t, pc)
  {
    match pc
    case Update(job) => t.accounts[i].userId == JobUser(job)
    case UpdateRecord(u, _) => t.users[i].id == u
    case OpenLoan(l, _) => t.loans[i].id == l
    case CheckRecipient(_, to, _) => t.accounts[i].userId == to
    case CheckBorrower(_, loan) => t.accounts[i].userId == loan.userId
    case LoginCheck(user, _) => t.accounts[i].userId == user.id
    case CheckAssignee(_, _, e) => t.users[i].id == e
    case LoginLookup(name, _) => t.users[i].username == name
  }

  /** Progress of a thread within the step in front of it. */
  datatype Micro =
    | Ready
    | Scanning(next: nat)
    | Located(slot: nat)
    | Holding(slot: nat)
    | LoadedAccount(slot: nat, acc: Account)
    | LoadedUser(slot: nat, user: User)
    | Appending
    | Releasing(locks: set<Lock>, resume: Micro)

  datatype Thread = Thread(pc: PC, micro: Micro)

  predicate AtRest(th: Thread) { th.pc.Idle? && th.micro.Ready? }

  // ----- Locks

  /** Locks held across several steps: the loan record of a decision, the user file of a login. */
  function HeldByPc(scanLocks: bool, pc: PC): set<Lock> {
    match pc
    case CheckAssignee(slot, _, _) => {Record(LoansFile, slot)}
    case CheckBorrower(slot, _) => {Record(LoansFile, slot)}
    case Update(LoanCredit(slot, _)) => {Record(LoansFile, slot)}
    case Append(LoanEntry(slot, _)) => {Record(LoansFile, slot)}
    case WriteLoan(slot, _) => {Record(LoansFile, slot)}
    case LoginCheck(_, _) => if scanLocks then {Whole(UsersFile)} else {}
    case _ => {}
  }

  function HeldByMicro(scanLocks: bool, th: Thread): set<Lock> {
    match th.micro
    case Scanning(_) => if scanLocks && Searches(th.pc) then {Whole(AccessOf(th.pc).file)} else {}
    case Holding(i) => if AccessOf(th.pc).TwoPhase? then {Record(AccessOf(th.pc).file, i)} else {}
    case LoadedAccount(i, _) => {Record(AccountsFile, i)}
    case LoadedUser(i, _) => {Record(UsersFile, i)}
    case Appending => if AccessOf(th.pc).AppendTo? then {Whole(AccessOf(th.pc).file)} else {}
    case Releasing(locks, _) => locks
    case _ => {}
  }

  function Holds(scanLocks: bool, th: Thread): set<Lock> {
    HeldByPc(scanLocks, th.pc) + HeldByMicro(scanLocks, th)
  }

  /** The lock the next access of the thread waits for. */
  function Wants(scanLocks: bool, th: Thread): Option<Lock> {
    match th.micro
    case Ready =>
      (match AccessOf(th.pc)
       case Search(file) => if scanLocks then Some(Whole(file)) else None
       case TwoPhase(file) => if scanLocks then Some(Whole(file)) else None
       case AppendTo(file) => Some(Whole(file))
       case _ => None)
    case Located(i) => if AccessOf(th.pc).TwoPhase? then Some(Record(AccessOf(th.pc).file, i)) else None
    case _ => None
  }

  datatype Fine = Fine(scanLocks: bool, tables: Tables, history: seq<Event>, threads: seq<Thread>)

  /** A thread other than k holds a lock that excludes this one. */
  ghost predicate Blocked(f: Fine, k: nat, lock: Lock) {
    exists j, held ::
      0 <= j < |f.threads| && j != k && held in Holds(f.scanLocks, f.threads[j]) && Conflict(held, lock)
  }

  // ----- Steps

  datatype FineStep =
    | FineConnect
    | FineBegin(thread: nat, request: Request)
    | Access(thread: nat)
    | Release(thread: nat, lock: Lock)
    | FineAdmin(command: Command)

  /** Move on to `pc`, keeping the locks it still needs and releasing the others. */
  function Finish(scanLocks: bool, th: Thread, pc: PC): Thread {
    var rest := Holds(scanLocks, th) - HeldByPc(scanLocks, pc);
    Thread(pc, if rest == {} then Ready else Releasing(rest, Ready))
  }

  /** The result of a search whose matching record is i. */
  function Hit(t: Tables, pc: PC, i: nat): PC
    requires Searches(pc) && i < SearchLength(t, pc)
  {
    match AccessOf(pc).file
    case AccountsFile => WithAccount(pc, t.accounts[i])
    case UsersFile => WithUser(pc, t.users[i])
    case LoansFile => if pc.OpenLoan? then WithLoan(pc.intent, i, t.loans[i]) else Idle
    case LogFile => Idle
  }

  function HitEvents(t: Tables, pc: PC, i: nat): seq<Event>
    requires Searches(pc) && i < SearchLength(t, pc)
  {
    match AccessOf(pc).file
    case AccountsFile => AccountEvents(pc, t.accounts[i])
    case UsersFile => UserEvents(pc, t.users[i])
    case _ => []
  }

  /** One file access: the new tables, the events it applies and the thread after it. */
  function FileAccess(scanLocks: bool, t: Tables, th: Thread): (Tables, seq<Event>, Thread) {
    match th.micro
    case Ready =>
      if Searches(th.pc) then (t, [], Thread(th.pc, Scanning(0)))
      else if AccessOf(th.pc).AppendTo? then (t, [], Thread(th.pc, Appending))
      else if th.pc.WriteLoan? && th.pc.slot < |t.loans| then
        (t.(loans := t.loans[th.pc.slot := th.pc.loan]), [], Finish(scanLocks, th, Idle))
      else (t, [], th)
    case Scanning(i) =>
      if !Searches(th.pc) then (t, [], th)
      else if i >= SearchLength(t, th.pc) then
        (t, MissEvents(th.pc), Finish(scanLocks, th, Miss(th.pc)))
      else if !Matches(t, th.pc, i) then (t, [], Thread(th.pc, Scanning(i + 1)))
      else if AccessOf(th.pc).Search? then (t, HitEvents(t, th.pc, i), Finish(scanLocks, th, Hit(t, th.pc, i)))
      else if scanLocks then (t, [], Thread(th.pc, Releasing({Whole(AccessOf(th.pc).file)}, Located(i))))
      else (t, [], Thread(th.pc, Located(i)))
    case Located(i) => (t, [], Thread(th.pc, Holding(i)))
    case Holding(i) =>
      if !Searches(th.pc) || i >= SearchLength(t, th.pc) then (t, [], th)
      else if th.pc.Update? then (t, [], Thread(th.pc, LoadedAccount(i, t.accounts[i])))
      else if th.pc.UpdateRecord? then (t, [], Thread(th.pc, LoadedUser(i, t.users[i])))
      else (t, [], Finish(scanLocks, th, Hit(t, th.pc, i)))
    case LoadedAccount(i, acc) =>
      if !th.pc.Update? || i >= |t.accounts| then (t, [], th)
      else
        (match ModifyAccount(acc, JobChange(th.pc.job))
         case None => (t, JobEvents(th.pc.job, false), Finish(scanLocks, th, AfterUpdate(th.pc.job, false)))
         case Some(acc') => (t.(accounts := t.accounts[i := acc']), JobEvents(th.pc.job, true),
                             Finish(scanLocks, th, AfterUpdate(th.pc.job, true))))
    case LoadedUser(i, user) =>
      if !th.pc.UpdateRecord? || i >= |t.users| then (t, [], th)
      else
        (match ModifyUser(user, th.pc.change)
         case None => (t, [], Finish(scanLocks, th, Idle))
         case Some(user') => (t.(users := t.users[i := user']), [], Finish(scanLocks, th, Idle)))
    case Appending =>
      (match th.pc
       case Append(entry) =>
         (t.(log := t.log + [LogRecord(|t.log| + 1, entry)]), [], Finish(scanLocks, th, AfterAppend(entry)))
       case AppendLoan(u, a) =>
         (t.(loans := t.loans + [Loan(|t.loans| + 1, u, a, Pending, 0)]), [], Finish(scanLocks, th, Idle))
       case _ => (t, [], th))
    case Releasing(_, _) => (t, [], th)
  }

  /** A profile edit is one step, taken only while no thread's lock covers the user's record. */
  predicate Edits(cmd: Command) { cmd.ModifyCustomer? || cmd.ModifyAnyUser? }

  ghost predicate FineEnabled(f: Fine, step: FineStep) {
    match step
    case FineConnect => true
    case FineBegin(k, _) => k < |f.threads| && AtRest(f.threads[k])
    case Access(k) =>
      && k < |f.threads| && !AtRest(f.threads[k]) && !f.threads[k].micro.Releasing?
      && (Wants(f.scanLocks, f.threads[k]).Some? ==> !Blocked(f, k, Wants(f.scanLocks, f.threads[k]).value))
    case Release(k, lock) => k < |f.threads| && f.threads[k].micro.Releasing? && lock in f.threads[k].micro.locks
    case FineAdmin(cmd) =>
      Edits(cmd) ==> !Blocked(f, |f.threads|, Record(UsersFile, FindUser(f.tables.users, cmd.user)))
  }

  function FineDo(f: Fine, step: FineStep): Fine {
    match step
    case FineConnect => f.(threads := f.threads + [Thread(Idle, Ready)])
    case FineBegin(k, req) => if k < |f.threads| then f.(threads := f.threads[k := Thread(Start(req), Ready)]) else f
    case Access(k) =>
      if k < |f.threads| then
        var (tables, events, th) := FileAccess(f.scanLocks, f.tables, f.threads[k]);
        Fine(f.scanLocks, tables, f.history + events, f.threads[k := th])
      else f
    case Release(k, lock) =>
      if k < |f.threads| && f.threads[k].micro.Releasing? then
        var rest := f.threads[k].micro.locks - {lock};
        var micro := if rest == {} then f.threads[k].micro.resume else Releasing(rest, f.threads[k].micro.resume);
        f.(threads := f.threads[k := Thread(f.threads[k].pc, micro)])
      else f
    case FineAdmin(cmd) => f.(tables := Administer(f.tables, cmd))
  }

  predicate AllAtRest(f: Fine) { forall k :: 0 <= k < |f.threads| ==> AtRest(f.threads[k]) }

  ghost predicate FineNext(f: Fine, f': Fine) {
    exists step :: FineEnabled(f, step) && f' == FineDo(f, step)
  }

  ghost predicate FineStepAt(run: seq<Fine>, i: nat)
    requires i + 1 < |run|
  {
    FineNext(run[i], run[i + 1])
  }

  ghost predicate FineRun(run: seq<Fine>) {
    forall i: nat :: i + 1 < |run| ==> FineStepAt(run, i)
  }

  function FineInitial(scanLocks: bool): Fine { Fine(scanLocks, INITIAL.tables, [], []) }
}
