/** The machine of single file accesses refines the machine of atomic steps: a search without any lock,
    followed by a lock on the record it found, is one atomic find-and-modify. */
module Refinement {
  import opened Records
  import opened Bank
  import opened BankInvariant
  import opened Locking

  function Pcs(threads: seq<Thread>): seq<PC> {
    seq(|threads|, i requires 0 <= i < |threads| => threads[i].pc)
  }

  function Abs(f: Fine): State { State(f.tables, f.history, Pcs(f.threads)) }

  // ----- Invariant of the fine machine

  /** Record i is the first match: the record a search from the start ends on. */
  ghost predicate Sought(t: Tables, pc: PC, i: nat) {
    && Searches(pc) && i < SearchLength(t, pc)
    && Matches(t, pc, i)
    && forall j :: 0 <= j < i ==> !Matches(t, pc, j)
  }

  ghost predicate MicroOk(t: Tables, th: Thread) {
    match th.micro
    case Ready => true
    case Scanning(i) =>
      && Searches(th.pc) && i <= SearchLength(t, th.pc)
      && forall j :: 0 <= j < i ==> !Matches(t, th.pc, j)
    case Located(i) => AccessOf(th.pc).TwoPhase? && Sought(t, th.pc, i)
    case Holding(i) => AccessOf(th.pc).TwoPhase? && Sought(t, th.pc, i)
    case LoadedAccount(i, acc) => th.pc.Update? && Sought(t, th.pc, i) && t.accounts[i] == acc
    case LoadedUser(i, user) => th.pc.UpdateRecord? && Sought(t, th.pc, i) && t.users[i] == user
    case Appending => AccessOf(th.pc).AppendTo?
    case Releasing(locks, resume) =>
      && locks != {}
      && (resume == Ready || (resume.Located? && AccessOf(th.pc).TwoPhase? && Sought(t, th.pc, resume.slot)))
  }

  ghost predicate Compatible(a: set<Lock>, b: set<Lock>) {
    forall x, y :: x in a && y in b ==> !Conflict(x, y)
  }

  ghost predicate Apart(f: Fine) {
    forall i, j :: 0 <= i < |f.threads| && 0 <= j < |f.threads| && i != j ==>
      Compatible(Holds(f.scanLocks, f.threads[i]), Holds(f.scanLocks, f.threads[j]))
  }

  ghost predicate FineInv(f: Fine) {
    && Inv(Abs(f))
    && (forall k :: 0 <= k < |f.threads| ==> MicroOk(f.tables, f.threads[k]))
    && Apart(f)
  }

  // ----- Completing accesses are atomic steps

  /** Where the atomic step finds its record, or the length of its file. */
  function Target(t: Tables, pc: PC): nat
    requires Searches(pc)
  {
    match pc
    case Update(job) => FindAccount(t.accounts, JobUser(job))
    case UpdateRecord(u, _) => FindUser(t.users, u)
    case OpenLoan(l, _) => FindLoan(t.loans, l)
    case CheckRecipient(_, to, _) => FindAccount(t.accounts, to)
    case CheckBorrower(_, loan) => FindAccount(t.accounts, loan.userId)
    case LoginCheck(user, _) => FindAccount(t.accounts, user.id)
    case CheckAssignee(_, _, e) => FindUser(t.users, e)
    case LoginLookup(name, _) => FindUsername(t.users, name)
  }

  lemma TargetIsFirst(t: Tables, pc: PC)
    requires Searches(pc)
    ensures Target(t, pc) <= SearchLength(t, pc)
    ensures Target(t, pc) < SearchLength(t, pc) ==> Matches(t, pc, Target(t, pc))
    ensures forall j :: 0 <= j < Target(t, pc) ==> !Matches(t, pc, j)
  {
  }

  lemma SearchFindsTarget(t: Tables, pc: PC, i: nat)
    requires Sought(t, pc, i)
    ensures Target(t, pc) == i
  {
    TargetIsFirst(t, pc);
  }

  lemma MissIsAtomic(t: Tables, pc: PC)
    requires Searches(pc) && forall j :: 0 <= j < SearchLength(t, pc) ==> !Matches(t, pc, j)
    ensures Target(t, pc) == SearchLength(t, pc)
    ensures Advance(t, pc) == (t, Miss(pc))
    ensures Events(t, pc) == MissEvents(pc)
  {
    TargetIsFirst(t, pc);
  }

  lemma HitIsAtomic(t: Tables, pc: PC, i: nat)
    requires Sought(t, pc, i) && !pc.Update? && !pc.UpdateRecord?
    ensures Advance(t, pc) == (t, Hit(t, pc, i)) && Events(t, pc) == HitEvents(t, pc, i)
  {
    SearchFindsTarget(t, pc, i);
  }

  function ReadyRank(t: Tables, pc: PC): nat {
    if Searches(pc) then SearchLength(t, pc) + 6
    else if AccessOf(pc).AppendTo? then 2
    else if AccessOf(pc).WriteHeld? then 1
    else 0
  }

  /** File accesses and releases left at most before the step in front of the thread is complete. */
  function MicroRank(t: Tables, th: Thread): nat {
    match th.micro
    case Ready => ReadyRank(t, th.pc)
    case Scanning(i) =>
      if Searches(th.pc) && i <= SearchLength(t, th.pc) then SearchLength(t, th.pc) - i + 5 else 0
    case Located(_) => 3
    case Holding(_) => 2
    case LoadedAccount(_, _) => 1
    case LoadedUser(_, _) => 1
    case Appending => 1
    case Releasing(locks, resume) => |locks| + (if resume.Located? then 3 else ReadyRank(t, th.pc))
  }

  /** The access does not show, and leaves less to do within the step. */
  ghost predicate Approaches(scanLocks: bool, t: Tables, th: Thread) {
    var (t', events, th') := FileAccess(scanLocks, t, th);
    t' == t && events == [] && th'.pc == th.pc && MicroRank(t, th') < MicroRank(t, th)
  }

  /** The access is the atomic step, and leaves at most locks to release. */
  ghost predicate Completes(scanLocks: bool, t: Tables, th: Thread) {
    var (t', events, th') := FileAccess(scanLocks, t, th);
    && (t', th'.pc) == Advance(t, th.pc) && events == Events(t, th.pc)
    && (th'.micro.Ready? || (th'.micro.Releasing? && th'.micro.resume.Ready?))
  }

  lemma ScanAdvances(scanLocks: bool, t: Tables, th: Thread)
    requires MicroOk(t, th) && th.micro.Scanning?
    ensures Approaches(scanLocks, t, th) || Completes(scanLocks, t, th)
  {
    var i := th.micro.next;
    if i == SearchLength(t, th.pc) {
      MissIsAtomic(t, th.pc);
    } else if Matches(t, th.pc, i) && AccessOf(th.pc).Search? {
      HitIsAtomic(t, th.pc, i);
    }
  }

  lemma LoadedAdvances(scanLocks: bool, t: Tables, th: Thread)
    requires MicroOk(t, th) && (th.micro.LoadedAccount? || th.micro.LoadedUser?)
    ensures Completes(scanLocks, t, th)
  {
    SearchFindsTarget(t, th.pc, th.micro.slot);
  }

  lemma ReadyAdvances(scanLocks: bool, t: Tables, th: Thread)
    requires PcOk(t, th.pc) && !th.pc.Idle? && th.micro.Ready?
    ensures Approaches(scanLocks, t, th) || Completes(scanLocks, t, th)
  {
  }

  lemma OpeningCompletes(scanLocks: bool, t: Tables, th: Thread)
    requires MicroOk(t, th) && th.micro.Holding? && th.pc.OpenLoan?
    ensures Completes(scanLocks, t, th)
  {
    HitIsAtomic(t, th.pc, th.micro.slot);
  }

  lemma HoldingAdvances(scanLocks: bool, t: Tables, th: Thread)
    requires MicroOk(t, th) && th.micro.Holding?
    ensures Approaches(scanLocks, t, th) || Completes(scanLocks, t, th)
  {
    if th.pc.OpenLoan? {
      OpeningCompletes(scanLocks, t, th);
    }
  }

  lemma AppendingCompletes(scanLocks: bool, t: Tables, th: Thread)
    requires MicroOk(t, th) && th.micro.Appending?
    ensures Completes(scanLocks, t, th)
  {
  }

  /** Every access of a thread inside an operation either gets nearer to the atomic step or is it. */
  lemma AccessAdvances(scanLocks: bool, t: Tables, th: Thread)
    requires MicroOk(t, th) && PcOk(t, th.pc) && !AtRest(th) && !th.micro.Releasing?
    ensures Approaches(scanLocks, t, th) || Completes(scanLocks, t, th)
  {
    match th.micro
    case Ready => ReadyAdvances(scanLocks, t, th);
    case Scanning(_) => ScanAdvances(scanLocks, t, th);
    case Located(_) =>
    case Holding(_) => HoldingAdvances(scanLocks, t, th);
    case LoadedAccount(_, _) => LoadedAdvances(scanLocks, t, th);
    case LoadedUser(_, _) => LoadedAdvances(scanLocks, t, th);
    case Appending => AppendingCompletes(scanLocks, t, th);
  }

  // ----- What other threads may do to a thread in the middle of an access

  lemma SearchFrame(t: Tables, t': Tables, pc: PC)
    requires Evolves(t, t') && Searches(pc)
    ensures SearchLength(t, pc) <= SearchLength(t', pc)
    ensures forall j :: 0 <= j < SearchLength(t, pc) ==> Matches(t', pc, j) == Matches(t, pc, j)
  {
    forall j | 0 <= j < SearchLength(t, pc) ensures Matches(t', pc, j) == Matches(t, pc, j) {
      if pc.OpenLoan? {
        assert LoanEvolves(t.loans[j], t'.loans[j]);
      }
    }
  }

  lemma MicroFrame(t: Tables, t': Tables, th: Thread)
    requires Evolves(t, t') && MicroOk(t, th)
    requires th.micro.LoadedAccount? ==> t'.accounts[th.micro.slot] == t.accounts[th.micro.slot]
    requires th.micro.LoadedUser? ==> t'.users[th.micro.slot] == t.users[th.micro.slot]
    ensures MicroOk(t', th)
  {
    if Searches(th.pc) {
      SearchFrame(t, t', th.pc);
    }
  }

  /** An access writes an account or user record only while it holds that record's lock. */
  lemma WritesUnderLock(scanLocks: bool, t: Tables, th: Thread)
    requires MicroOk(t, th)
    ensures var t' := FileAccess(scanLocks, t, th).0;
            && |t'.accounts| == |t.accounts| && |t'.users| == |t.users|
            && (forall i :: 0 <= i < |t.accounts| && Record(AccountsFile, i) !in Holds(scanLocks, th) ==>
                  t'.accounts[i] == t.accounts[i])
            && (forall i :: 0 <= i < |t.users| && Record(UsersFile, i) !in Holds(scanLocks, th) ==>
                  t'.users[i] == t.users[i])
  {
  }

  // ----- The acting thread

  lemma ScanMicro(scanLocks: bool, t: Tables, th: Thread)
    requires MicroOk(t, th) && th.micro.Scanning?
    ensures MicroOk(FileAccess(scanLocks, t, th).0, FileAccess(scanLocks, t, th).2)
  {
    var i := th.micro.next;
    if i < SearchLength(t, th.pc) && Matches(t, th.pc, i) {
      assert Sought(t, th.pc, i);
    }
  }

  lemma AccessMicro(scanLocks: bool, t: Tables, th: Thread)
    requires MicroOk(t, th)
    ensures MicroOk(FileAccess(scanLocks, t, th).0, FileAccess(scanLocks, t, th).2)
  {
    if th.micro.Scanning? {
      ScanMicro(scanLocks, t, th);
    }
  }

  /** A completing access keeps only locks the thread already had. */
  lemma FinishKeepsHeld(scanLocks: bool, t: Tables, th: Thread)
    requires MicroOk(t, th)
    ensures HeldByPc(scanLocks, FileAccess(scanLocks, t, th).2.pc) <= Holds(scanLocks, th)
  {
  }

  /** No access acquires a lock but the one it waited for. */
  lemma AccessLocks(scanLocks: bool, t: Tables, th: Thread)
    requires MicroOk(t, th)
    ensures forall x :: x in Holds(scanLocks, FileAccess(scanLocks, t, th).2) ==>
              x in Holds(scanLocks, th) || Wants(scanLocks, th) == Some(x)
  {
    FinishKeepsHeld(scanLocks, t, th);
  }

  // ----- One step of the fine machine

  /** Every fine step is invisible or is one enabled step of the atomic machine. */
  ghost predicate Refines(f: Fine, f': Fine) { Follows(Abs(f), Abs(f')) }

  lemma HolderHasLock(f: Fine, j: nat, slot: nat)
    requires FineInv(f) && j < |f.threads|
    ensures HoldsLoan(f.threads[j].pc, slot) ==>
              slot < |f.tables.loans| && Record(LoansFile, slot) in Holds(f.scanLocks, f.threads[j])
  {
    assert PcOk(f.tables, Abs(f).threads[j]);
  }

  /** A loan record opened under its lock is held by no other thread. */
  lemma OpenedLoanIsFree(f: Fine, k: nat)
    requires FineInv(f) && k < |f.threads| && f.threads[k].pc.OpenLoan?
    requires f.threads[k].micro.Holding? || FindLoan(f.tables.loans, f.threads[k].pc.loanId) == |f.tables.loans|
    ensures LoanFree(Abs(f), k)
  {
    var slot := FindLoan(f.tables.loans, f.threads[k].pc.loanId);
    if f.threads[k].micro.Holding? {
      SearchFindsTarget(f.tables, f.threads[k].pc, f.threads[k].micro.slot);
      assert Record(LoansFile, slot) in Holds(f.scanLocks, f.threads[k]);
    }
    forall j | 0 <= j < |f.threads| && j != k ensures !HoldsLoan(f.threads[j].pc, slot) {
      HolderHasLock(f, j, slot);
      assert Compatible(Holds(f.scanLocks, f.threads[j]), Holds(f.scanLocks, f.threads[k]));
    }
  }

  lemma ApproachIsInvisible(f: Fine, k: nat)
    requires k < |f.threads| && Approaches(f.scanLocks, f.tables, f.threads[k])
    ensures Abs(FineDo(f, Access(k))) == Abs(f)
  {
    assert Pcs(FineDo(f, Access(k)).threads) == Pcs(f.threads);
  }

  lemma CompletionIsStep(f: Fine, k: nat)
    requires k < |f.threads| && Completes(f.scanLocks, f.tables, f.threads[k])
    ensures Abs(FineDo(f, Access(k))) == Do(Abs(f), Advances(k))
  {
    var th' := FileAccess(f.scanLocks, f.tables, f.threads[k]).2;
    assert Pcs(f.threads[k := th']) == Pcs(f.threads)[k := th'.pc];
  }

  /** A loan search that completes holds the record or has found none. */
  lemma OpeningEnds(scanLocks: bool, t: Tables, th: Thread)
    requires MicroOk(t, th) && !th.micro.Releasing? && th.pc.OpenLoan? && !Approaches(scanLocks, t, th)
    ensures th.micro.Holding? || FindLoan(t.loans, th.pc.loanId) == |t.loans|
  {
    if th.micro.Scanning? && th.micro.next == SearchLength(t, th.pc) {
      MissIsAtomic(t, th.pc);
    }
  }

  lemma CompletionIsEnabled(f: Fine, k: nat)
    requires FineInv(f) && FineEnabled(f, Access(k)) && !Approaches(f.scanLocks, f.tables, f.threads[k])
    ensures Enabled(Abs(f), Advances(k))
  {
    if f.threads[k].pc.OpenLoan? {
      OpeningEnds(f.scanLocks, f.tables, f.threads[k]);
      OpenedLoanIsFree(f, k);
    }
  }

  lemma AccessRefines(f: Fine, k: nat)
    requires FineInv(f) && FineEnabled(f, Access(k))
    ensures Refines(f, FineDo(f, Access(k)))
  {
    assert PcOk(f.tables, Abs(f).threads[k]);
    AccessAdvances(f.scanLocks, f.tables, f.threads[k]);
    if Approaches(f.scanLocks, f.tables, f.threads[k]) {
      ApproachIsInvisible(f, k);
    } else {
      CompletionIsEnabled(f, k);
      CompletionIsStep(f, k);
    }
  }

  /** A lock is acquired only when it conflicts with no lock of another thread. */
  lemma AcquiredApart(f: Fine, k: nat, j: nat)
    requires Apart(f) && k < |f.threads| && j < |f.threads| && j != k
    requires MicroOk(f.tables, f.threads[k]) && FineEnabled(f, Access(k))
    ensures var th' := FileAccess(f.scanLocks, f.tables, f.threads[k]).2;
            Compatible(Holds(f.scanLocks, th'), Holds(f.scanLocks, f.threads[j]))
  {
    var mine := Holds(f.scanLocks, FileAccess(f.scanLocks, f.tables, f.threads[k]).2);
    var theirs := Holds(f.scanLocks, f.threads[j]);
    AccessLocks(f.scanLocks, f.tables, f.threads[k]);
    assert Compatible(Holds(f.scanLocks, f.threads[k]), theirs);
    forall x, y | x in mine && y in theirs ensures !Conflict(x, y) {
      if Wants(f.scanLocks, f.threads[k]) == Some(x) {
        assert !Blocked(f, k, x);
        assert !Conflict(y, x);
      }
    }
  }

  /** Locks stay apart when one thread's new locks are compatible with those of all others. */
  lemma ApartAfter(f: Fine, f': Fine, k: nat, th: Thread)
    requires Apart(f) && k < |f.threads| && f'.scanLocks == f.scanLocks && f'.threads == f.threads[k := th]
    requires forall j :: 0 <= j < |f.threads| && j != k ==>
               Compatible(Holds(f.scanLocks, th), Holds(f.scanLocks, f.threads[j]))
    ensures Apart(f')
  {
    forall i, j | 0 <= i < |f.threads| && 0 <= j < |f.threads| && i != j
      ensures Compatible(Holds(f.scanLocks, f'.threads[i]), Holds(f.scanLocks, f'.threads[j]))
    {
      assert i != k && j != k ==> Compatible(Holds(f.scanLocks, f.threads[i]), Holds(f.scanLocks, f.threads[j]));
      assert j == k ==> Compatible(Holds(f.scanLocks, th), Holds(f.scanLocks, f.threads[i]));
    }
  }

  lemma AccessKeepsApart(f: Fine, k: nat)
    requires FineInv(f) && FineEnabled(f, Access(k))
    ensures Apart(FineDo(f, Access(k)))
  {
    var th := FileAccess(f.scanLocks, f.tables, f.threads[k]).2;
    forall j | 0 <= j < |f.threads| && j != k
      ensures Compatible(Holds(f.scanLocks, th), Holds(f.scanLocks, f.threads[j]))
    {
      AcquiredApart(f, k, j);
    }
    ApartAfter(f, FineDo(f, Access(k)), k, th);
  }

  lemma OtherKeepsMicro(f: Fine, k: nat, j: nat, t': Tables)
    requires k < |f.threads| && j < |f.threads| && j != k && Apart(f) && Evolves(f.tables, t')
    requires MicroOk(f.tables, f.threads[k]) && MicroOk(f.tables, f.threads[j])
    requires t' == FileAccess(f.scanLocks, f.tables, f.threads[k]).0
    ensures MicroOk(t', f.threads[j])
  {
    WritesUnderLock(f.scanLocks, f.tables, f.threads[k]);
    assert Compatible(Holds(f.scanLocks, f.threads[k]), Holds(f.scanLocks, f.threads[j]));
    MicroFrame(f.tables, t', f.threads[j]);
  }

  lemma AccessKeepsMicro(f: Fine, k: nat)
    requires FineInv(f) && FineEnabled(f, Access(k)) && Evolves(f.tables, FineDo(f, Access(k)).tables)
    ensures forall j :: 0 <= j < |f.threads| ==> MicroOk(FineDo(f, Access(k)).tables, FineDo(f, Access(k)).threads[j])
  {
    AccessMicro(f.scanLocks, f.tables, f.threads[k]);
    forall j | 0 <= j < |f.threads| && j != k ensures MicroOk(FineDo(f, Access(k)).tables, f.threads[j]) {
      OtherKeepsMicro(f, k, j, FineDo(f, Access(k)).tables);
    }
  }

  lemma AccessKeeps(f: Fine, k: nat)
    requires FineInv(f) && FineEnabled(f, Access(k))
    ensures FineInv(FineDo(f, Access(k))) && Refines(f, FineDo(f, Access(k)))
  {
    AccessRefines(f, k);
    FollowsKeeps(Abs(f), Abs(FineDo(f, Access(k))));
    AccessKeepsMicro(f, k);
    AccessKeepsApart(f, k);
  }

  lemma ReleaseKeeps(f: Fine, k: nat, lock: Lock)
    requires FineInv(f) && FineEnabled(f, Release(k, lock))
    ensures FineInv(FineDo(f, Release(k, lock))) && Refines(f, FineDo(f, Release(k, lock)))
  {
    var f' := FineDo(f, Release(k, lock));
    assert Pcs(f'.threads) == Pcs(f.threads);
    assert MicroOk(f.tables, f.threads[k]);
    assert Holds(f.scanLocks, f'.threads[k]) <= Holds(f.scanLocks, f.threads[k]);
    forall i, j | 0 <= i < |f'.threads| && 0 <= j < |f'.threads| && i != j
      ensures Compatible(Holds(f.scanLocks, f'.threads[i]), Holds(f.scanLocks, f'.threads[j]))
    {
      assert Compatible(Holds(f.scanLocks, f.threads[i]), Holds(f.scanLocks, f.threads[j]));
    }
  }

  lemma StartHoldsNothing(scanLocks: bool, req: Request)
    ensures Holds(scanLocks, Thread(Start(req), Ready)) == {}
  {
  }

  lemma BeginKeeps(f: Fine, k: nat, req: Request)
    requires FineInv(f) && FineEnabled(f, FineBegin(k, req))
    ensures FineInv(FineDo(f, FineBegin(k, req))) && Refines(f, FineDo(f, FineBegin(k, req)))
  {
    var f' := FineDo(f, FineBegin(k, req));
    assert Pcs(f'.threads) == Pcs(f.threads)[k := Start(req)];
    assert Enabled(Abs(f), Begin(k, req)) && Abs(f') == Do(Abs(f), Begin(k, req));
    FollowsKeeps(Abs(f), Abs(f'));
    StartHoldsNothing(f.scanLocks, req);
    ApartAfter(f, f', k, f'.threads[k]);
  }

  lemma ConnectKeeps(f: Fine)
    requires FineInv(f)
    ensures FineInv(FineDo(f, FineConnect)) && Refines(f, FineDo(f, FineConnect))
  {
    var f' := FineDo(f, FineConnect);
    assert Pcs(f'.threads) == Pcs(f.threads) + [Idle];
    assert Enabled(Abs(f), Connect) && Abs(f') == Do(Abs(f), Connect);
    FollowsKeeps(Abs(f), Abs(f'));
    assert Holds(f.scanLocks, Thread(Idle, Ready)) == {};
  }

  /** Administration touches existing user records only by an edit of the record it names. */
  lemma AdminTouches(t: Tables, cmd: Command)
    requires TablesOk(t)
    ensures var t' := Administer(t, cmd);
            && |t.accounts| <= |t'.accounts| && |t.users| <= |t'.users|
            && (forall i :: 0 <= i < |t.accounts| ==> t'.accounts[i] == t.accounts[i])
            && (forall i :: 0 <= i < |t.users| && (Edits(cmd) ==> i != FindUser(t.users, cmd.user)) ==>
                  t'.users[i] == t.users[i])
  {
    match cmd
    case AddCustomer(p, email, phone, name, hash) =>
      CreationAppends(t, User(NewUserId(t.users), name, hash, Customer, p, email, phone, true));
    case AddEmployee(p, roleName, email, phone, name, hash) =>
      if RoleNamed(roleName).Some? {
        CreationAppends(t, User(NewUserId(t.users), name, hash, RoleNamed(roleName).value, p, email, phone, true));
      }
    case _ =>
  }

  lemma AdminKeepsMicro(f: Fine, cmd: Command, j: nat)
    requires TablesOk(f.tables) && j < |f.threads| && MicroOk(f.tables, f.threads[j])
    requires FineEnabled(f, FineAdmin(cmd)) && Evolves(f.tables, Administer(f.tables, cmd))
    ensures MicroOk(Administer(f.tables, cmd), f.threads[j])
  {
    AdminTouches(f.tables, cmd);
    if Edits(cmd) {
      var lock := Record(UsersFile, FindUser(f.tables.users, cmd.user));
      assert Conflict(lock, lock) && !Blocked(f, |f.threads|, lock);
      assert lock !in Holds(f.scanLocks, f.threads[j]);
    }
    MicroFrame(f.tables, Administer(f.tables, cmd), f.threads[j]);
  }

  lemma AdminKeeps(f: Fine, cmd: Command)
    requires FineInv(f) && FineEnabled(f, FineAdmin(cmd))
    ensures FineInv(FineDo(f, FineAdmin(cmd))) && Refines(f, FineDo(f, FineAdmin(cmd)))
  {
    var f' := FineDo(f, FineAdmin(cmd));
    assert Enabled(Abs(f), Admins(cmd)) && Abs(f') == Do(Abs(f), Admins(cmd));
    FollowsKeeps(Abs(f), Abs(f'));
    forall j | 0 <= j < |f.threads| ensures MicroOk(f'.tables, f.threads[j]) {
      AdminKeepsMicro(f, cmd, j);
    }
  }

  lemma FineStepKeeps(f: Fine, step: FineStep)
    requires FineInv(f) && FineEnabled(f, step)
    ensures FineInv(FineDo(f, step)) && Refines(f, FineDo(f, step))
  {
    match step
    case FineConnect => ConnectKeeps(f);
    case FineBegin(k, req) => BeginKeeps(f, k, req);
    case Access(k) => AccessKeeps(f, k);
    case Release(k, lock) => ReleaseKeeps(f, k, lock);
    case FineAdmin(cmd) => AdminKeeps(f, cmd);
  }

  // ----- Main results

  function AbsRun(run: seq<Fine>): seq<State> {
    seq(|run|, i requires 0 <= i < |run| => Abs(run[i]))
  }

  lemma FineNextKeeps(f: Fine, f': Fine)
    requires FineInv(f) && FineNext(f, f')
    ensures FineInv(f') && Refines(f, f') && Evolves(f.tables, f'.tables) && f'.scanLocks == f.scanLocks
  {
    var step :| FineEnabled(f, step) && f' == FineDo(f, step);
    FineStepKeeps(f, step);
    FollowsKeeps(Abs(f), Abs(f'));
  }

  lemma {:induction false} FineRunKeeps(run: seq<Fine>, k: nat)
    requires k < |run| && FineRun(run) && FineInv(run[0])
    ensures FineInv(run[k]) && Evolves(run[0].tables, run[k].tables)
  {
    if k > 0 {
      FineRunKeeps(run, k - 1);
      assert FineStepAt(run, k - 1);
      FineNextKeeps(run[k - 1], run[k]);
      EvolvesTransitive(run[0].tables, run[k - 1].tables, run[k].tables);
    }
  }

  lemma RunRefinesAt(run: seq<Fine>, i: nat)
    requires i + 1 < |run| && FineRun(run) && FineInv(run[0])
    ensures Follows(Abs(run[i]), Abs(run[i + 1]))
  {
    FineRunKeeps(run, i);
    assert FineStepAt(run, i);
    FineNextKeeps(run[i], run[i + 1]);
  }

  lemma RunRefines(run: seq<Fine>)
    requires FineRun(run) && (|run| > 0 ==> FineInv(run[0]))
    ensures IsRun(AbsRun(run))
  {
    var abs := AbsRun(run);
    forall i: nat | i + 1 < |abs| ensures StepAt(abs, i) {
      RunRefinesAt(run, i);
    }
  }

  lemma InitialFineInv(scanLocks: bool)
    ensures FineInv(FineInitial(scanLocks)) && Abs(FineInitial(scanLocks)) == INITIAL
  {
    assert Pcs([]) == [];
    InitialInv();
  }

  /** Every run at file-access granularity, with or without effective search locks, is a run of the atomic
      machine on the same tables and history; its last state is reachable there. */
  lemma FineRunsAreAtomicRuns(run: seq<Fine>, scanLocks: bool)
    requires |run| > 0 && FineRun(run) && run[0] == FineInitial(scanLocks)
    ensures IsRun(AbsRun(run)) && AbsRun(run)[0] == INITIAL
    ensures FineInv(run[|run| - 1]) && Reachable(Abs(run[|run| - 1]))
  {
    InitialFineInv(scanLocks);
    FineRunKeeps(run, |run| - 1);
    RunRefines(run);
    assert RunTo(AbsRun(run), Abs(run[|run| - 1]));
  }

  /** A search that reads record by record, with no lock and any other steps in between, ends on the record
      of an account that was there when it began, and reaches the end of the file only if there was none. */
  lemma SearchAnswersForItsStart(run: seq<Fine>, k: nat, n: nat)
    requires n < |run| && FineRun(run) && FineInv(run[0]) && k < |run[n].threads| && Searches(run[n].threads[k].pc)
    ensures var (t0, t, th) := (run[0].tables, run[n].tables, run[n].threads[k]);
            && (th.micro.Located? && Target(t0, th.pc) < SearchLength(t0, th.pc) ==> th.micro.slot == Target(t0, th.pc))
            && (th.micro.Scanning? && th.micro.next >= SearchLength(t, th.pc) ==>
                  Target(t0, th.pc) == SearchLength(t0, th.pc))
  {
    var t0, t, th := run[0].tables, run[n].tables, run[n].threads[k];
    FineRunKeeps(run, n);
    assert MicroOk(t, th);
    SearchFrame(t0, t, th.pc);
    TargetIsFirst(t0, th.pc);
  }

  /** A located record stays the sought one, whatever other threads do before it is locked. */
  lemma OffsetStaysValid(run: seq<Fine>, n: nat, pc: PC, slot: nat)
    requires n < |run| && FineRun(run) && FineInv(run[0]) && Sought(run[0].tables, pc, slot)
    ensures Sought(run[n].tables, pc, slot)
  {
    FineRunKeeps(run, n);
    SearchFrame(run[0].tables, run[n].tables, pc);
  }
}
