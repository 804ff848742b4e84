/** What is left when locks belong to the process, as fcntl locks do: a thread never waits for a lock of another
    thread of the server. The machine is that of single file accesses, without the waiting. It says exactly when
    such a run is one in which the locks might as well have excluded each other, and exactly how much money a
    run loses that is not. */
module ProcessLocks {
  import opened Folds
  import opened Records
  import opened Bank
  import opened Money
  import opened Locking
  import opened Refinement
  import opened Guarantees

  /** An access happens whatever locks other threads have taken. */
  ghost predicate FreeEnabled(f: Fine, step: FineStep) {
    if step.Access? then
      step.thread < |f.threads| && !AtRest(f.threads[step.thread]) && !f.threads[step.thread].micro.Releasing?
    else
      FineEnabled(f, step)
  }

  ghost predicate FreeNext(f: Fine, f': Fine) {
    exists step :: FreeEnabled(f, step) && f' == FineDo(f, step)
  }

  ghost predicate FreeStepAt(run: seq<Fine>, i: nat)
    requires i + 1 < |run|
  {
    FreeNext(run[i], run[i + 1])
  }

  ghost predicate FreeRun(run: seq<Fine>) {
    forall i: nat :: i + 1 < |run| ==> FreeStepAt(run, i)
  }

  ghost predicate FreeRunTo(run: seq<Fine>, f: Fine) {
    |run| > 0 && FreeRun(run) && run[0] == FineInitial(f.scanLocks) && run[|run| - 1] == f
  }

  ghost predicate FreelyArises(f: Fine) {
    exists run: seq<Fine> :: FreeRunTo(run, f)
  }

  lemma FreelyArisesNext(f: Fine, step: FineStep)
    requires FreelyArises(f) && FreeEnabled(f, step)
    ensures FreelyArises(FineDo(f, step))
  {
    var run :| FreeRunTo(run, f);
    var longer := run + [FineDo(f, step)];
    forall i: nat | i + 1 < |longer| ensures FreeStepAt(longer, i) {
      assert i + 1 < |run| ==> FreeStepAt(run, i);
      assert i + 1 == |run| ==> FreeNext(f, FineDo(f, step));
    }
    assert FreeRunTo(longer, FineDo(f, step));
  }

  lemma NextIsFree(f: Fine, f': Fine)
    requires FineNext(f, f')
    ensures FreeNext(f, f')
  {
    var step :| FineEnabled(f, step) && f' == FineDo(f, step);
    assert FreeEnabled(f, step);
  }

  /** Whatever happens with excluding locks happens without them. */
  lemma ArisesFreely(f: Fine)
    requires Arises(f)
    ensures FreelyArises(f)
  {
    var run :| FineRunTo(run, f);
    forall i: nat | i + 1 < |run| ensures FreeStepAt(run, i) {
      assert FineStepAt(run, i);
      NextIsFree(run[i], run[i + 1]);
    }
    assert FreeRunTo(run, f);
  }

  // ----- When a free run is a run with locks that exclude

  ghost predicate ApartAt(run: seq<Fine>, m: nat)
    requires m < |run|
  {
    Apart(run[m])
  }

  /** After an access a thread has the lock it is supposed to have waited for. */
  lemma WantedIsHeld(scanLocks: bool, t: Tables, th: Thread)
    requires MicroOk(t, th) && Wants(scanLocks, th).Some?
    ensures Wants(scanLocks, th).value in Holds(scanLocks, FileAccess(scanLocks, t, th).2)
  {
  }

  lemma UnblockedWhenApart(f: Fine, k: nat, lock: Lock)
    requires k < |f.threads| && Apart(FineDo(f, Access(k)))
    requires lock in Holds(f.scanLocks, FileAccess(f.scanLocks, f.tables, f.threads[k]).2)
    ensures !Blocked(f, k, lock)
  {
    var f' := FineDo(f, Access(k));
    forall j, held | 0 <= j < |f.threads| && j != k && held in Holds(f.scanLocks, f.threads[j])
      ensures !Conflict(held, lock)
    {
      assert f'.threads[j] == f.threads[j];
      assert Compatible(Holds(f.scanLocks, f'.threads[j]), Holds(f.scanLocks, f'.threads[k]));
    }
  }

  lemma FreeStepIsFine(f: Fine, f': Fine)
    requires FineInv(f) && FreeNext(f, f') && Apart(f')
    ensures FineNext(f, f')
  {
    var step :| FreeEnabled(f, step) && f' == FineDo(f, step);
    if step.Access? && Wants(f.scanLocks, f.threads[step.thread]).Some? {
      assert MicroOk(f.tables, f.threads[step.thread]);
      WantedIsHeld(f.scanLocks, f.tables, f.threads[step.thread]);
      UnblockedWhenApart(f, step.thread, Wants(f.scanLocks, f.threads[step.thread]).value);
    }
    assert FineEnabled(f, step);
  }

  lemma {:induction false} ApartRunIsFine(run: seq<Fine>, n: nat)
    requires n < |run| && FreeRun(run) && FineInv(run[0]) && forall m: nat :: m < |run| ==> ApartAt(run, m)
    ensures FineInv(run[n])
    ensures n + 1 < |run| ==> FineStepAt(run, n)
  {
    if n > 0 {
      ApartRunIsFine(run, n - 1);
      FineNextKeeps(run[n - 1], run[n]);
    }
    if n + 1 < |run| {
      assert FreeStepAt(run, n) && ApartAt(run, n + 1);
      FreeStepIsFine(run[n], run[n + 1]);
    }
  }

  /** A run in which no thread waits is a run with excluding locks, with all that is proved of those, if and only
      if in none of its states two threads have locks that exclude each other. */
  lemma FreeRunIsFineIffApart(run: seq<Fine>, scanLocks: bool)
    requires |run| > 0 && FreeRun(run) && run[0] == FineInitial(scanLocks)
    ensures FineRun(run) <==> forall m: nat :: m < |run| ==> ApartAt(run, m)
  {
    InitialFineInv(scanLocks);
    if FineRun(run) {
      forall m: nat | m < |run| ensures ApartAt(run, m) {
        FineRunKeeps(run, m);
      }
    } else if forall m: nat :: m < |run| ==> ApartAt(run, m) {
      forall i: nat | i + 1 < |run| ensures FineStepAt(run, i) {
        ApartRunIsFine(run, i);
      }
    }
  }

  // ----- Keys survive without exclusion

  ghost predicate IdsOk(t: Tables) {
    Dense(t.users) && forall i :: 0 <= i < |t.accounts| ==> t.accounts[i].userId < NewUserId(t.users)
  }

  /** A copy has the key of the record it is to be written over. */
  predicate KeyCopied(t: Tables, th: Thread) {
    match th.micro
    case LoadedAccount(i, acc) => i < |t.accounts| && acc.userId == t.accounts[i].userId
    case LoadedUser(i, user) => i < |t.users| && user.id == t.users[i].id
    case Releasing(_, resume) => resume.Ready? || resume.Located?
    case _ => true
  }

  ghost predicate KeysOk(f: Fine) {
    IdsOk(f.tables) && forall k :: 0 <= k < |f.threads| ==> KeyCopied(f.tables, f.threads[k])
  }

  predicate KeysKept(t: Tables, t': Tables) {
    && |t.users| <= |t'.users| && (forall i :: 0 <= i < |t.users| ==> t'.users[i].id == t.users[i].id)
    && |t.accounts| <= |t'.accounts|
    && (forall i :: 0 <= i < |t.accounts| ==> t'.accounts[i].userId == t.accounts[i].userId)
  }

  lemma ReadKeepsRecords(scanLocks: bool, t: Tables, th: Thread)
    requires KeyCopied(t, th) && !th.micro.LoadedAccount? && !th.micro.LoadedUser?
    ensures var (t', events, th') := FileAccess(scanLocks, t, th);
            t'.users == t.users && t'.accounts == t.accounts && KeyCopied(t', th')
  {
  }

  lemma WriteKeepsKeys(scanLocks: bool, t: Tables, th: Thread)
    requires IdsOk(t) && KeyCopied(t, th) && (th.micro.LoadedAccount? || th.micro.LoadedUser?)
    ensures var (t', events, th') := FileAccess(scanLocks, t, th); IdsOk(t') && KeysKept(t, t') && KeyCopied(t', th')
  {
  }

  lemma AccessKeepsKeys(scanLocks: bool, t: Tables, th: Thread)
    requires IdsOk(t) && KeyCopied(t, th)
    ensures var (t', events, th') := FileAccess(scanLocks, t, th); IdsOk(t') && KeysKept(t, t') && KeyCopied(t', th')
  {
    if th.micro.LoadedAccount? || th.micro.LoadedUser? {
      WriteKeepsKeys(scanLocks, t, th);
    } else {
      ReadKeepsRecords(scanLocks, t, th);
    }
  }

  /** Administration changes no existing account. */
  lemma AdminKeepsAccounts(t: Tables, cmd: Command)
    requires IdsOk(t)
    ensures IdsOk(Administer(t, cmd)) && KeysKept(t, Administer(t, cmd)) && t.accounts <= Administer(t, cmd).accounts
    ensures Sum(Balance, Administer(t, cmd).accounts) == Sum(Balance, t.accounts)
  {
    if cmd.AddCustomer? {
      var id := NewUserId(t.users);
      assert FindUser(t.users, id) == |t.users| && FindAccount(t.accounts, id) == |t.accounts|;
      SumAppend(Balance, t.accounts, Account(id, id, 0.0, true));
    } else if cmd.AddEmployee? {
      assert FindUser(t.users, NewUserId(t.users)) == |t.users|;
    }
  }

  lemma CopiesKeepKeys(t: Tables, t': Tables, th: Thread)
    requires KeysKept(t, t') && KeyCopied(t, th)
    ensures KeyCopied(t', th)
  {
  }

  lemma StepKeepsKeys(f: Fine, step: FineStep)
    requires KeysOk(f) && FreeEnabled(f, step)
    ensures KeysOk(FineDo(f, step))
  {
    match step
    case Access(k) =>
      var t' := FileAccess(f.scanLocks, f.tables, f.threads[k]).0;
      AccessKeepsKeys(f.scanLocks, f.tables, f.threads[k]);
      forall j | 0 <= j < |f.threads| ensures KeyCopied(t', f.threads[j]) {
        CopiesKeepKeys(f.tables, t', f.threads[j]);
      }
    case FineAdmin(cmd) =>
      var t' := Administer(f.tables, cmd);
      AdminKeepsAccounts(f.tables, cmd);
      forall j | 0 <= j < |f.threads| ensures KeyCopied(t', f.threads[j]) {
        CopiesKeepKeys(f.tables, t', f.threads[j]);
      }
    case _ =>
  }

  // ----- The money that stale copies write over

  /** How much more the stored account holds than the copy that the thread is about to write back. */
  function Staleness(t: Tables, th: Thread): real {
    if th.micro.LoadedAccount? && th.pc.Update? && th.micro.slot < |t.accounts|
       && ModifyAccount(th.micro.acc, JobChange(th.pc.job)).Some?
    then t.accounts[th.micro.slot].balance - th.micro.acc.balance
    else 0.0
  }

  /** Money that entered and is in no account, not in flight and not lost to a refused rollback. */
  ghost function Missing(f: Fine): real {
    Sum(Entered, f.history) - Sum(Balance, f.tables.accounts) - Sum(InFlight, Pcs(f.threads)) - Sum(Lost, f.history)
  }

  lemma WriteTotal(scanLocks: bool, t: Tables, th: Thread)
    requires th.micro.LoadedAccount? && th.pc.Update? && th.micro.slot < |t.accounts|
    ensures var (t', events, th') := FileAccess(scanLocks, t, th);
            Sum(Balance, t'.accounts) + InFlight(th'.pc) + Sum(Lost, events) + Staleness(t, th)
              == Sum(Balance, t.accounts) + InFlight(th.pc) + Sum(Entered, events)
  {
    var changed := ModifyAccount(th.micro.acc, JobChange(th.pc.job));
    JobTotal(th.pc.job, changed.Some?);
    if changed.Some? {
      SumUpdate(Balance, t.accounts, th.micro.slot, changed.value);
    }
  }

  /** Every other access obeys the ledger equation whatever it has read. */
  lemma ReadTotal(scanLocks: bool, t: Tables, th: Thread)
    requires !th.micro.LoadedAccount?
    ensures var (t', events, th') := FileAccess(scanLocks, t, th);
            && t'.accounts == t.accounts
            && InFlight(th'.pc) + Sum(Lost, events) == InFlight(th.pc) + Sum(Entered, events)
  {
    var events := FileAccess(scanLocks, t, th).1;
    if th.pc.Update? {
      JobTotal(th.pc.job, false);
    } else {
      SumZero(Lost, events);
      SumZero(Entered, events);
    }
  }

  lemma AccessMissing(f: Fine, k: nat)
    requires KeysOk(f) && k < |f.threads|
    ensures Missing(FineDo(f, Access(k))) == Missing(f) + Staleness(f.tables, f.threads[k])
  {
    var (t', events, th') := FileAccess(f.scanLocks, f.tables, f.threads[k]);
    assert KeyCopied(f.tables, f.threads[k]);
    if !f.threads[k].micro.LoadedAccount? {
      ReadTotal(f.scanLocks, f.tables, f.threads[k]);
    } else if f.threads[k].pc.Update? {
      WriteTotal(f.scanLocks, f.tables, f.threads[k]);
    }
    assert Pcs(f.threads[k := th']) == Pcs(f.threads)[k := th'.pc];
    SumUpdate(InFlight, Pcs(f.threads), k, th'.pc);
    SumConcat(Lost, f.history, events);
    SumConcat(Entered, f.history, events);
  }

  lemma OtherMissing(f: Fine, step: FineStep)
    requires KeysOk(f) && FreeEnabled(f, step) && !step.Access?
    ensures Missing(FineDo(f, step)) == Missing(f)
  {
    var f' := FineDo(f, step);
    match step
    case FineConnect =>
      assert Pcs(f'.threads) == Pcs(f.threads) + [Idle];
      SumAppend(InFlight, Pcs(f.threads), Idle);
    case FineBegin(k, req) =>
      assert Pcs(f'.threads) == Pcs(f.threads)[k := Start(req)];
      assert InFlight(Start(req)) == 0.0;
      SumUpdate(InFlight, Pcs(f.threads), k, Start(req));
    case Release(_, _) => assert Pcs(f'.threads) == Pcs(f.threads);
    case FineAdmin(cmd) => AdminKeepsAccounts(f.tables, cmd);
  }

  /** In step i of the run thread k writes back a copy whose balance is not the stored one. */
  ghost predicate WritesOver(run: seq<Fine>, i: nat, k: nat)
    requires i + 1 < |run|
  {
    && k < |run[i].threads| && run[i + 1] == FineDo(run[i], Access(k))
    && Staleness(run[i].tables, run[i].threads[k]) != 0.0
  }

  /** The money that step i writes over. */
  ghost function WrittenOver(run: seq<Fine>, i: nat): real
    requires i + 1 < |run|
  {
    if exists k: nat :: WritesOver(run, i, k) then
      var k: nat :| WritesOver(run, i, k);
      Staleness(run[i].tables, run[i].threads[k])
    else 0.0
  }

  /** The money that the first n steps of a run write over. */
  ghost function AllWrittenOver(run: seq<Fine>, n: nat): real
    requires n < |run|
  {
    if n == 0 then 0.0 else AllWrittenOver(run, n - 1) + WrittenOver(run, n - 1)
  }

  lemma StepMissing(run: seq<Fine>, i: nat)
    requires i + 1 < |run| && KeysOk(run[i]) && FreeStepAt(run, i)
    ensures KeysOk(run[i + 1]) && Missing(run[i + 1]) == Missing(run[i]) + WrittenOver(run, i)
  {
    var step :| FreeEnabled(run[i], step) && run[i + 1] == FineDo(run[i], step);
    StepKeepsKeys(run[i], step);
    if exists k: nat :: WritesOver(run, i, k) {
      var k: nat :| WritesOver(run, i, k) && WrittenOver(run, i) == Staleness(run[i].tables, run[i].threads[k]);
      AccessMissing(run[i], k);
    } else if step.Access? {
      AccessMissing(run[i], step.thread);
      assert !WritesOver(run, i, step.thread);
    } else {
      OtherMissing(run[i], step);
    }
  }

  lemma NothingMissingYet(scanLocks: bool)
    ensures KeysOk(FineInitial(scanLocks)) && Missing(FineInitial(scanLocks)) == 0.0
  {
    assert Pcs([]) == [];
  }

  /** Over every run without exclusion, the money missing is exactly what stale copies have written over. */
  lemma {:induction false} MissingIsWrittenOver(run: seq<Fine>, scanLocks: bool, n: nat)
    requires n < |run| && FreeRun(run) && run[0] == FineInitial(scanLocks)
    ensures KeysOk(run[n]) && Missing(run[n]) == AllWrittenOver(run, n)
  {
    if n == 0 {
      NothingMissingYet(scanLocks);
    } else {
      MissingIsWrittenOver(run, scanLocks, n - 1);
      assert FreeStepAt(run, n - 1);
      StepMissing(run, n - 1);
    }
  }

  // ----- One writer at a time

  /** No two threads are between read and write of the same account. */
  ghost predicate OneWriter(f: Fine) {
    forall j, k :: 0 <= j < |f.threads| && 0 <= k < |f.threads| && j != k
                   && f.threads[j].micro.LoadedAccount? && f.threads[k].micro.LoadedAccount? ==>
      f.threads[j].micro.slot != f.threads[k].micro.slot
  }

  predicate CopyCurrent(t: Tables, th: Thread) {
    th.micro.LoadedAccount? ==> th.micro.slot < |t.accounts| && t.accounts[th.micro.slot] == th.micro.acc
  }

  ghost predicate CopiesCurrent(f: Fine) {
    forall k :: 0 <= k < |f.threads| ==> CopyCurrent(f.tables, f.threads[k])
  }

  /** An access changes no account but the one its thread is about to write, and a copy just read is current. */
  lemma AccessWritesOwn(scanLocks: bool, t: Tables, th: Thread)
    requires KeyCopied(t, th)
    ensures var (t', events, th') := FileAccess(scanLocks, t, th);
            && |t'.accounts| == |t.accounts| && (th' != th ==> CopyCurrent(t', th'))
            && forall i :: 0 <= i < |t.accounts| && !(th.micro.LoadedAccount? && th.micro.slot == i) ==>
                 t'.accounts[i] == t.accounts[i]
  {
  }

  lemma AccessKeepsCopies(f: Fine, k: nat)
    requires KeysOk(f) && OneWriter(f) && CopiesCurrent(f) && k < |f.threads|
    ensures CopiesCurrent(FineDo(f, Access(k)))
  {
    var f' := FineDo(f, Access(k));
    assert KeyCopied(f.tables, f.threads[k]) && CopyCurrent(f.tables, f.threads[k]);
    AccessWritesOwn(f.scanLocks, f.tables, f.threads[k]);
    forall j | 0 <= j < |f'.threads| ensures CopyCurrent(f'.tables, f'.threads[j]) {
      assert CopyCurrent(f.tables, f.threads[j]);
    }
  }

  lemma StepKeepsCopies(f: Fine, step: FineStep)
    requires KeysOk(f) && OneWriter(f) && CopiesCurrent(f) && FreeEnabled(f, step)
    ensures CopiesCurrent(FineDo(f, step))
  {
    match step
    case Access(k) => AccessKeepsCopies(f, k);
    case Release(k, _) => assert KeyCopied(f.tables, f.threads[k]);
    case FineAdmin(cmd) =>
      AdminKeepsAccounts(f.tables, cmd);
      forall j | 0 <= j < |f.threads| ensures CopyCurrent(Administer(f.tables, cmd), f.threads[j]) {
        assert CopyCurrent(f.tables, f.threads[j]);
      }
    case _ =>
  }

  ghost predicate OneWriterAt(run: seq<Fine>, m: nat)
    requires m < |run|
  {
    OneWriter(run[m])
  }

  lemma NothingWrittenOver(run: seq<Fine>, i: nat)
    requires i + 1 < |run| && CopiesCurrent(run[i])
    ensures WrittenOver(run, i) == 0.0
  {
    forall k: nat ensures !WritesOver(run, i, k) {
      assert k < |run[i].threads| ==> CopyCurrent(run[i].tables, run[i].threads[k]);
    }
  }

  lemma NextKeepsCopies(f: Fine, f': Fine)
    requires KeysOk(f) && OneWriter(f) && CopiesCurrent(f) && FreeNext(f, f')
    ensures CopiesCurrent(f')
  {
    var step :| FreeEnabled(f, step) && f' == FineDo(f, step);
    StepKeepsCopies(f, step);
  }

  /** While no two threads are ever between read and write of the same account, no update is lost and no money
      is missing, even though no lock excludes anybody. */
  lemma {:induction false} OneWriterKeepsMoney(run: seq<Fine>, scanLocks: bool, n: nat)
    requires n < |run| && FreeRun(run) && run[0] == FineInitial(scanLocks)
    requires forall m: nat :: m < n ==> OneWriterAt(run, m)
    ensures CopiesCurrent(run[n]) && Missing(run[n]) == 0.0
  {
    if n == 0 {
      NothingMissingYet(scanLocks);
    } else {
      OneWriterKeepsMoney(run, scanLocks, n - 1);
      MissingIsWrittenOver(run, scanLocks, n - 1);
      assert FreeStepAt(run, n - 1) && OneWriterAt(run, n - 1);
      NextKeepsCopies(run[n - 1], run[n]);
      NothingWrittenOver(run, n - 1);
      StepMissing(run, n - 1);
    }
  }

  // ----- Two writers of one account

  predicate Accepts(th: Thread) {
    th.micro.LoadedAccount? && th.pc.Update? && ModifyAccount(th.micro.acc, JobChange(th.pc.job)).Some?
  }

  lemma WriteMade(t: Tables, scanLocks: bool, th: Thread)
    requires Accepts(th) && th.micro.slot < |t.accounts|
    ensures FileAccess(scanLocks, t, th).0.accounts
              == t.accounts[th.micro.slot := ModifyAccount(th.micro.acc, JobChange(th.pc.job)).value]
    ensures ModifyAccount(th.micro.acc, JobChange(th.pc.job)).value.balance
              == th.micro.acc.balance + Delta(JobChange(th.pc.job))
  {
  }

  /** Two threads have read accounts and write them back one after the other: both changes are in the accounts
      if and only if the accounts differ or the first change moves no money. */
  lemma BothKeptIffApart(f: Fine, j: nat, k: nat)
    requires j < |f.threads| && k < |f.threads| && j != k && Accepts(f.threads[j]) && Accepts(f.threads[k])
    requires CopyCurrent(f.tables, f.threads[j]) && CopyCurrent(f.tables, f.threads[k])
    ensures var (first, second) := (Delta(JobChange(f.threads[j].pc.job)), Delta(JobChange(f.threads[k].pc.job)));
            var written := FineDo(FineDo(f, Access(j)), Access(k)).tables.accounts;
            Sum(Balance, written) == Sum(Balance, f.tables.accounts) + first + second
            <==> f.threads[j].micro.slot != f.threads[k].micro.slot || first == 0.0
  {
    var (a, b) := (f.threads[j], f.threads[k]);
    var accounts := f.tables.accounts;
    var f1 := FineDo(f, Access(j));
    WriteMade(f.tables, f.scanLocks, a);
    assert f1.threads[k] == b;
    WriteMade(f1.tables, f.scanLocks, b);
    SumUpdate(Balance, accounts, a.micro.slot, ModifyAccount(a.micro.acc, JobChange(a.pc.job)).value);
    SumUpdate(Balance, f1.tables.accounts, b.micro.slot, ModifyAccount(b.micro.acc, JobChange(b.pc.job)).value);
  }
}
