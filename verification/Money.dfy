/** Conservation of money, the log as an explanation of every balance, and the exact
    behaviour of a transfer's rollback, over every interleaving. */
module Money {
  import opened Folds
  import opened Records
  import opened Bank
  import opened BankInvariant

  // ----- Conservation

  function Balance(acc: Account): real { acc.balance }

  /** Money a thread has taken from a sender and not yet put anywhere. */
  function InFlight(pc: PC): real {
    match pc
    case Update(TransferIn(_, _, a)) => a
    case Update(Rollback(_, _, a)) => a
    case _ => 0.0
  }

  /** Money that entered (or, negative, left) the bank with an event. */
  function Entered(e: Event): real {
    match e
    case Deposited(_, a) => a
    case LoanCredited(_, _, a) => a
    case Withdrawn(_, a) => -a
    case _ => 0.0
  }

  function Lost(e: Event): real {
    if e.RollbackRefused? then e.amount else 0.0
  }

  ghost predicate Conserved(s: State) {
    Sum(Balance, s.tables.accounts) + Sum(InFlight, s.threads) + Sum(Lost, s.history) == Sum(Entered, s.history)
  }

  /** The change of one account that an accepted modifier makes. */
  function Delta(change: AccountChange): real {
    match change
    case Credit(a) => a
    case Debit(a) => -a
    case SetActive(_) => 0.0
  }

  lemma UpdateTotal(accounts: seq<Account>, u: nat, change: AccountChange)
    requires UpdateAccount(accounts, u, change).Some?
    ensures Sum(Balance, UpdateAccount(accounts, u, change).value) == Sum(Balance, accounts) + Delta(change)
  {
    var i := FindAccount(accounts, u);
    SumUpdate(Balance, accounts, i, ModifyAccount(accounts[i], change).value);
  }

  /** What a job does to the money outside the accounts. */
  lemma JobTotal(job: Job, ok: bool)
    ensures InFlight(AfterUpdate(job, ok)) + Sum(Lost, JobEvents(job, ok)) + (if ok then Delta(JobChange(job)) else 0.0)
              == InFlight(Update(job)) + Sum(Entered, JobEvents(job, ok))
  {
  }

  lemma OnlyUpdatesMoveMoney(t: Tables, pc: PC)
    requires !pc.Update?
    ensures Advance(t, pc).0.accounts == t.accounts && InFlight(Advance(t, pc).1) == InFlight(pc) == 0.0
    ensures Sum(Lost, Events(t, pc)) == Sum(Entered, Events(t, pc)) == 0.0
  {
    SumZero(Lost, Events(t, pc));
    SumZero(Entered, Events(t, pc));
  }

  /** The ledger equation of one thread step, away from all other threads. */
  lemma AdvanceTotal(t: Tables, pc: PC)
    ensures Sum(Balance, Advance(t, pc).0.accounts) + InFlight(Advance(t, pc).1) + Sum(Lost, Events(t, pc))
              == Sum(Balance, t.accounts) + InFlight(pc) + Sum(Entered, Events(t, pc))
  {
    if pc.Update? {
      var updated := UpdateAccount(t.accounts, JobUser(pc.job), JobChange(pc.job));
      JobTotal(pc.job, updated.Some?);
      if updated.Some? {
        UpdateTotal(t.accounts, JobUser(pc.job), JobChange(pc.job));
      }
    } else {
      OnlyUpdatesMoveMoney(t, pc);
    }
  }

  lemma ConservedAfter(s: State, k: nat, t': Tables, pc': PC, events: seq<Event>)
    requires Conserved(s) && k < |s.threads|
    requires Sum(Balance, t'.accounts) + InFlight(pc') + Sum(Lost, events)
               == Sum(Balance, s.tables.accounts) + InFlight(s.threads[k]) + Sum(Entered, events)
    ensures Conserved(State(t', s.history + events, s.threads[k := pc']))
  {
    SumUpdate(InFlight, s.threads, k, pc');
    SumConcat(Lost, s.history, events);
    SumConcat(Entered, s.history, events);
  }

  lemma AdministerTotal(t: Tables, cmd: Command)
    requires TablesOk(t)
    ensures Sum(Balance, Administer(t, cmd).accounts) == Sum(Balance, t.accounts)
  {
    if cmd.AddCustomer? {
      var id := NewUserId(t.users);
      CreationAppends(t, User(id, cmd.username, cmd.hash, Customer, cmd.profile, cmd.email, cmd.phone, true));
      SumAppend(Balance, t.accounts, Account(id, id, 0.0, true));
    }
  }

  lemma ConservedByAdvance(s: State, k: nat)
    requires Conserved(s) && k < |s.threads|
    ensures Conserved(Do(s, Advances(k)))
  {
    var (t', pc') := Advance(s.tables, s.threads[k]);
    AdvanceTotal(s.tables, s.threads[k]);
    ConservedAfter(s, k, t', pc', Events(s.tables, s.threads[k]));
  }

  lemma ConservedByConnect(s: State)
    requires Conserved(s)
    ensures Conserved(Do(s, Connect))
  {
    SumAppend(InFlight, s.threads, Idle);
  }

  lemma ConservedByBegin(s: State, k: nat, req: Request)
    requires Conserved(s) && k < |s.threads| && s.threads[k].Idle?
    ensures Conserved(Do(s, Begin(k, req)))
  {
    assert InFlight(Start(req)) == 0.0;
    SumUpdate(InFlight, s.threads, k, Start(req));
  }

  lemma ConservedByAdmin(s: State, cmd: Command)
    requires TablesOk(s.tables) && Conserved(s)
    ensures Conserved(Do(s, Admins(cmd)))
  {
    AdministerTotal(s.tables, cmd);
  }

  lemma ConservedByStep(s: State, step: Step)
    requires Inv(s) && Enabled(s, step) && Conserved(s)
    ensures Conserved(Do(s, step))
  {
    match step
    case Connect => ConservedByConnect(s);
    case Begin(k, req) => ConservedByBegin(s, k, req);
    case Advances(k) => ConservedByAdvance(s, k);
    case Admins(cmd) => ConservedByAdmin(s, cmd);
  }

  // ----- The log explains every balance

  function BalanceOf(accounts: seq<Account>, u: nat): real {
    var i := FindAccount(accounts, u);
    if i < |accounts| then accounts[i].balance else 0.0
  }

  /** What a log record says happened to user u's account. */
  function Logged(tx: Txn, u: nat): real {
    match tx.note
    case DepositNote => if tx.to == u then tx.amount else 0.0
    case LoanDepositNote => if tx.to == u then tx.amount else 0.0
    case TransferInNote => if tx.to == u then tx.amount else 0.0
    case WithdrawNote => if tx.from == u then -tx.amount else 0.0
    case TransferOutNote => if tx.from == u then -tx.amount else 0.0
  }

  /** What a thread has done to user u's account and not logged yet. */
  function Unlogged(pc: PC, u: nat): real {
    match pc
    case Update(TransferIn(f, _, a)) => if f == u then -a else 0.0
    case Update(Rollback(f, _, a)) => if f == u then -a else 0.0
    case Append(DepositEntry(v, a)) => if v == u then a else 0.0
    case Append(WithdrawEntry(v, a)) => if v == u then -a else 0.0
    case Append(OutEntry(f, t, a)) => (if f == u then -a else 0.0) + (if t == u then a else 0.0)
    case Append(InEntry(_, t, a)) => if t == u then a else 0.0
    case Append(LoanEntry(_, loan)) => if loan.userId == u then loan.amount else 0.0
    case _ => 0.0
  }

  function LostBy(e: Event, u: nat): real {
    if e.RollbackRefused? && e.from == u then e.amount else 0.0
  }

  // Naming the partial applications keeps every fold over the same function value.
  function LoggedFor(u: nat): Txn -> real { tx => Logged(tx, u) }
  function UnloggedFor(u: nat): PC -> real { pc => Unlogged(pc, u) }
  function LostFor(u: nat): Event -> real { e => LostBy(e, u) }

  ghost predicate ExplainsUser(s: State, u: nat) {
    BalanceOf(s.tables.accounts, u)
      == Sum(LoggedFor(u), s.tables.log) + Sum(UnloggedFor(u), s.threads) - Sum(LostFor(u), s.history)
  }

  ghost predicate LogExplains(s: State) {
    forall u: nat :: ExplainsUser(s, u)
  }

  lemma UpdateBalance(accounts: seq<Account>, v: nat, change: AccountChange, u: nat)
    requires UpdateAccount(accounts, v, change).Some?
    ensures BalanceOf(UpdateAccount(accounts, v, change).value, u)
              == BalanceOf(accounts, u) + (if u == v then Delta(change) else 0.0)
  {
    var accounts' := UpdateAccount(accounts, v, change).value;
    assert forall i :: 0 <= i < |accounts| ==> accounts'[i].userId == accounts[i].userId;
  }

  lemma JobExplains(job: Job, ok: bool, u: nat)
    ensures (if ok && JobUser(job) == u then Delta(JobChange(job)) else 0.0)
              == Unlogged(AfterUpdate(job, ok), u) - Unlogged(Update(job), u) - Sum(LostFor(u), JobEvents(job, ok))
  {
  }

  lemma UpdateExplains(t: Tables, job: Job, u: nat)
    ensures BalanceOf(Advance(t, Update(job)).0.accounts, u) - BalanceOf(t.accounts, u)
              == Unlogged(Advance(t, Update(job)).1, u) - Unlogged(Update(job), u)
                 - Sum(LostFor(u), Events(t, Update(job)))
  {
    JobExplains(job, UpdateAccount(t.accounts, JobUser(job), JobChange(job)).Some?, u);
    if UpdateAccount(t.accounts, JobUser(job), JobChange(job)).Some? {
      UpdateBalance(t.accounts, JobUser(job), JobChange(job), u);
    }
  }

  /** What a thread has left unlogged shrinks by what its record says. */
  lemma EntryExplains(id: nat, entry: Entry, u: nat)
    ensures Logged(LogRecord(id, entry), u) + Unlogged(AfterAppend(entry), u) == Unlogged(Append(entry), u)
  {
  }

  lemma AppendExplains(log: seq<Txn>, entry: Entry, u: nat)
    ensures Sum(LoggedFor(u), log + [LogRecord(|log| + 1, entry)]) + Unlogged(AfterAppend(entry), u)
              == Sum(LoggedFor(u), log) + Unlogged(Append(entry), u)
  {
    SumAppend(LoggedFor(u), log, LogRecord(|log| + 1, entry));
    EntryExplains(|log| + 1, entry, u);
  }

  lemma QuietExplains(t: Tables, pc: PC, u: nat)
    requires !pc.Update? && !pc.Append?
    ensures Advance(t, pc).0.accounts == t.accounts && Advance(t, pc).0.log == t.log
    ensures Unlogged(Advance(t, pc).1, u) == Unlogged(pc, u) == Sum(LostFor(u), Events(t, pc)) == 0.0
  {
    SumZero(LostFor(u), Events(t, pc));
  }

  /** What one thread step does to user u's balance is what it logs, plus what it leaves unlogged. */
  lemma AdvanceExplains(t: Tables, pc: PC, u: nat)
    ensures BalanceOf(Advance(t, pc).0.accounts, u) - BalanceOf(t.accounts, u)
              == Sum(LoggedFor(u), Advance(t, pc).0.log) - Sum(LoggedFor(u), t.log)
                 + Unlogged(Advance(t, pc).1, u) - Unlogged(pc, u) - Sum(LostFor(u), Events(t, pc))
  {
    match pc
    case Update(job) => UpdateExplains(t, job, u);
    case Append(entry) => AppendExplains(t.log, entry, u);
    case _ => QuietExplains(t, pc, u);
  }

  lemma ExplainedAfter(s: State, k: nat, t': Tables, pc': PC, events: seq<Event>, u: nat)
    requires ExplainsUser(s, u) && k < |s.threads|
    requires BalanceOf(t'.accounts, u) - BalanceOf(s.tables.accounts, u)
               == Sum(LoggedFor(u), t'.log) - Sum(LoggedFor(u), s.tables.log)
                  + Unlogged(pc', u) - Unlogged(s.threads[k], u) - Sum(LostFor(u), events)
    ensures ExplainsUser(State(t', s.history + events, s.threads[k := pc']), u)
  {
    SumUpdate(UnloggedFor(u), s.threads, k, pc');
    SumConcat(LostFor(u), s.history, events);
  }

  /** A new customer starts with an empty account and touches no other balance. */
  lemma AdministerBalance(t: Tables, cmd: Command, u: nat)
    requires TablesOk(t)
    ensures BalanceOf(Administer(t, cmd).accounts, u) == BalanceOf(t.accounts, u)
  {
    if cmd.AddCustomer? && IsUnique(t.users, cmd.username, cmd.email, cmd.phone, 0) {
      var id := NewUserId(t.users);
      CreationAppends(t, User(id, cmd.username, cmd.hash, Customer, cmd.profile, cmd.email, cmd.phone, true));
      var accounts' := t.accounts + [Account(id, id, 0.0, true)];
      assert forall i :: 0 <= i < |t.accounts| ==> accounts'[i] == t.accounts[i];
    }
  }

  lemma ExplainedByAdvance(s: State, k: nat, u: nat)
    requires ExplainsUser(s, u) && k < |s.threads|
    ensures ExplainsUser(Do(s, Advances(k)), u)
  {
    var (t', pc') := Advance(s.tables, s.threads[k]);
    AdvanceExplains(s.tables, s.threads[k], u);
    ExplainedAfter(s, k, t', pc', Events(s.tables, s.threads[k]), u);
  }

  lemma ExplainedByStep(s: State, step: Step, u: nat)
    requires Inv(s) && Enabled(s, step) && ExplainsUser(s, u)
    ensures ExplainsUser(Do(s, step), u)
  {
    match step
    case Connect => SumAppend(UnloggedFor(u), s.threads, Idle);
    case Begin(k, req) => SumUpdate(UnloggedFor(u), s.threads, k, Start(req));
    case Advances(k) => ExplainedByAdvance(s, k, u);
    case Admins(cmd) =>
      AdministerBalance(s.tables, cmd, u);
      AdministerKeeps(s.tables, cmd);
  }

  // ----- Refused rollbacks lose real money

  ghost predicate LossesPositive(s: State) {
    forall i :: 0 <= i < |s.history| && s.history[i].RollbackRefused? ==> s.history[i].amount > 0.0
  }

  lemma LossesPositiveByStep(s: State, step: Step)
    requires Inv(s) && Enabled(s, step) && LossesPositive(s)
    ensures LossesPositive(Do(s, step))
  {
    if step.Advances? {
      assert PcOk(s.tables, s.threads[step.thread]);
    }
  }

  lemma {:induction false} LossIsVisible(history: seq<Event>, i: nat)
    requires forall j :: 0 <= j < |history| && history[j].RollbackRefused? ==> history[j].amount > 0.0
    requires i < |history| && history[i].RollbackRefused?
    ensures Sum(Lost, history) > 0.0
  {
    var front := history[..|history| - 1];
    if i == |front| {
      SumNonNegative(Lost, front);
    } else {
      LossIsVisible(front, i);
    }
  }

  // ----- Over whole runs

  ghost predicate MoneyOk(s: State) { Conserved(s) && LogExplains(s) && LossesPositive(s) }

  lemma FollowsKeepsMoney(s: State, s': State)
    requires Inv(s) && Follows(s, s') && MoneyOk(s)
    ensures MoneyOk(s')
  {
    if s != s' {
      var step :| Enabled(s, step) && s' == Do(s, step);
      ConservedByStep(s, step);
      LossesPositiveByStep(s, step);
      forall u: nat ensures ExplainsUser(s', u) {
        ExplainedByStep(s, step, u);
      }
    }
  }

  lemma InitialMoney()
    ensures MoneyOk(INITIAL)
  {
  }

  lemma {:induction false} RunMoney(run: seq<State>, k: nat)
    requires k < |run| && IsRun(run) && run[0] == INITIAL
    ensures MoneyOk(run[k])
  {
    if k == 0 {
      InitialMoney();
    } else {
      RunMoney(run, k - 1);
      RunInv(run, k - 1);
      assert StepAt(run, k - 1);
      FollowsKeepsMoney(run[k - 1], run[k]);
    }
  }

  lemma ReachableMoney(s: State)
    requires Reachable(s)
    ensures MoneyOk(s)
  {
    var run :| RunTo(run, s);
    RunMoney(run, |run| - 1);
  }

  /** In every reachable state no balance is negative, and balances, money in flight and money lost
      to refused rollbacks add up to deposits plus loan credits minus withdrawals. */
  lemma MoneyIsConserved(s: State)
    requires Reachable(s)
    ensures Sum(Balance, s.tables.accounts) + Sum(InFlight, s.threads) + Sum(Lost, s.history) == Sum(Entered, s.history)
    ensures forall i :: 0 <= i < |s.tables.accounts| ==> s.tables.accounts[i].balance >= 0.0
  {
    ReachableInv(s);
    ReachableMoney(s);
  }

  /** In every reachable state a balance differs from its log by exactly the applied but unlogged
      effects and the refused rollbacks; at rest, with no refusal, the log alone gives the balance. */
  lemma LogExplainsBalances(s: State, u: nat)
    requires Reachable(s)
    ensures BalanceOf(s.tables.accounts, u)
              == Sum(LoggedFor(u), s.tables.log) + Sum(UnloggedFor(u), s.threads) - Sum(LostFor(u), s.history)
    ensures (forall k :: 0 <= k < |s.threads| ==> s.threads[k].Idle?)
            && (forall i :: 0 <= i < |s.history| ==> !s.history[i].RollbackRefused?)
            ==> BalanceOf(s.tables.accounts, u) == Sum(LoggedFor(u), s.tables.log)
  {
    ReachableMoney(s);
    assert ExplainsUser(s, u);
    if (forall k :: 0 <= k < |s.threads| ==> s.threads[k].Idle?)
       && (forall i :: 0 <= i < |s.history| ==> !s.history[i].RollbackRefused?) {
      SumZero(UnloggedFor(u), s.threads);
      SumZero(LostFor(u), s.history);
    }
  }

  // ----- Rollback

  predicate ActiveAccount(t: Tables, u: nat) {
    HasAccount(t.accounts, u) && t.accounts[FindAccount(t.accounts, u)].active
  }

  /** A transfer turns to its rollback exactly when the recipient is inactive at the deposit, and the
      rollback loses the amount exactly when the sender is inactive at that step. */
  lemma RollbackExactly(s: State, k: nat, f: nat, to: nat, a: real)
    requires Inv(s) && k < |s.threads|
    ensures s.threads[k] == Update(TransferIn(f, to, a)) ==>
              (Do(s, Advances(k)).threads[k] == Update(Rollback(f, to, a)) <==> !ActiveAccount(s.tables, to))
    ensures s.threads[k] == Update(Rollback(f, to, a)) ==>
              Sum(Lost, Do(s, Advances(k)).history)
                == Sum(Lost, s.history) + (if ActiveAccount(s.tables, f) then 0.0 else a)
  {
    if s.threads[k] == Update(Rollback(f, to, a)) {
      SumConcat(Lost, s.history, Events(s.tables, s.threads[k]));
    }
  }

  lemma StartsNoRollback(req: Request)
    ensures Start(req).Update? ==> !Start(req).job.Rollback?
  {
  }

  /** A thread enters the rollback of a transfer only by a step taken while the recipient is inactive. */
  lemma RollbackEntry(s: State, step: Step, k: nat, f: nat, to: nat, a: real)
    requires Inv(s) && Enabled(s, step) && k < |s.threads|
    requires s.threads[k] != Update(Rollback(f, to, a)) && Do(s, step).threads[k] == Update(Rollback(f, to, a))
    ensures step == Advances(k) && s.threads[k] == Update(TransferIn(f, to, a)) && !ActiveAccount(s.tables, to)
  {
    if step.Begin? {
      StartsNoRollback(step.request);
    }
  }

  lemma RollbackNotEntered(s: State, s': State, k: nat, f: nat, to: nat, a: real)
    requires Inv(s) && Follows(s, s') && k < |s.threads| && ActiveAccount(s.tables, to)
    requires s.threads[k] != Update(Rollback(f, to, a))
    ensures |s.threads| <= |s'.threads| && s'.threads[k] != Update(Rollback(f, to, a))
  {
    if s != s' {
      var step :| Enabled(s, step) && s' == Do(s, step);
      if s'.threads[k] == Update(Rollback(f, to, a)) {
        RollbackEntry(s, step, k, f, to, a);
      }
    }
  }

  predicate ActiveAt(run: seq<State>, i: nat, u: nat)
    requires i < |run|
  {
    ActiveAccount(run[i].tables, u)
  }

  /** While the recipient stays active, no thread enters a rollback of a transfer to it. */
  lemma {:induction false} NoDeactivationNoRollback(run: seq<State>, n: nat, k: nat, f: nat, to: nat, a: real)
    requires n < |run| && IsRun(run) && Inv(run[0]) && k < |run[0].threads|
    requires run[0].threads[k] != Update(Rollback(f, to, a))
    requires forall i: nat :: i < |run| ==> ActiveAt(run, i, to)
    ensures |run[n].threads| >= |run[0].threads| && run[n].threads[k] != Update(Rollback(f, to, a))
  {
    if n > 0 {
      assert ActiveAt(run, n - 1, to);
      NoDeactivationNoRollback(run, n - 1, k, f, to, a);
      RunKeeps(run, n - 1);
      assert StepAt(run, n - 1);
      RollbackNotEntered(run[n - 1], run[n], k, f, to, a);
    }
  }

  // ----- Exactly when money is missing

  predicate IsRefusal(e: Event) { e.RollbackRefused? }

  /** The thread is to give a withdrawal back, and the sender's account is inactive. */
  predicate RefusesRollback(t: Tables, pc: PC) {
    pc.Update? && pc.job.Rollback? && !ActiveAccount(t, pc.job.from)
  }

  /** In step i of the run a thread gives a withdrawal back to a sender who is inactive. */
  ghost predicate RollbackToInactiveAt(run: seq<State>, i: nat)
    requires i + 1 < |run|
  {
    exists k: nat ::
      k < |run[i].threads| && RefusesRollback(run[i].tables, run[i].threads[k]) && run[i + 1] == Do(run[i], Advances(k))
  }

  lemma AdvanceRefuses(t: Tables, pc: PC)
    requires PcOk(t, pc)
    ensures Count(IsRefusal, Events(t, pc)) == One(RefusesRollback(t, pc))
  {
    if !pc.Update? {
      CountZero(IsRefusal, Events(t, pc));
    }
  }

  lemma StepRefuses(s: State, step: Step)
    requires Inv(s) && Enabled(s, step)
    ensures Count(IsRefusal, Do(s, step).history)
              == Count(IsRefusal, s.history)
                 + One(step.Advances? && RefusesRollback(s.tables, s.threads[step.thread]))
  {
    if step.Advances? {
      AdvanceRefuses(s.tables, s.threads[step.thread]);
      CountConcat(IsRefusal, s.history, Events(s.tables, s.threads[step.thread]));
    }
  }

  lemma RefusedStep(run: seq<State>, i: nat)
    requires i + 1 < |run| && Inv(run[i]) && RollbackToInactiveAt(run, i)
    ensures Count(IsRefusal, run[i + 1].history) == Count(IsRefusal, run[i].history) + 1
  {
    var k: nat :| k < |run[i].threads| && RefusesRollback(run[i].tables, run[i].threads[k])
                  && run[i + 1] == Do(run[i], Advances(k));
    assert Enabled(run[i], Advances(k));
    StepRefuses(run[i], Advances(k));
  }

  /** The step's guard decides: a refusal is added by exactly the rollbacks to an inactive sender. */
  lemma RefusalsAdded(run: seq<State>, i: nat)
    requires i + 1 < |run| && Inv(run[i]) && Follows(run[i], run[i + 1])
    ensures Count(IsRefusal, run[i + 1].history)
              == Count(IsRefusal, run[i].history) + One(RollbackToInactiveAt(run, i))
  {
    if RollbackToInactiveAt(run, i) {
      RefusedStep(run, i);
    } else if run[i] != run[i + 1] {
      var step :| Enabled(run[i], step) && run[i + 1] == Do(run[i], step);
      StepRefuses(run[i], step);
    }
  }

  /** How many of the first n steps of a run give a withdrawal back to an inactive sender. */
  ghost function RollbacksToInactive(run: seq<State>, n: nat): nat
    requires n < |run|
  {
    if n == 0 then 0 else RollbacksToInactive(run, n - 1) + One(RollbackToInactiveAt(run, n - 1))
  }

  lemma {:induction false} NoRollbackToInactive(run: seq<State>, n: nat)
    requires n < |run|
    ensures RollbacksToInactive(run, n) == 0 <==> forall i: nat :: i < n ==> !RollbackToInactiveAt(run, i)
  {
    if n > 0 {
      NoRollbackToInactive(run, n - 1);
    }
  }

  lemma {:induction false} RunRefuses(run: seq<State>, n: nat)
    requires n < |run| && IsRun(run) && run[0] == INITIAL
    ensures Count(IsRefusal, run[n].history) == RollbacksToInactive(run, n)
  {
    if n > 0 {
      RunRefuses(run, n - 1);
      RunInv(run, n - 1);
      assert StepAt(run, n - 1);
      RefusalsAdded(run, n - 1);
    }
  }

  lemma LostIffRefused(history: seq<Event>)
    requires forall j :: 0 <= j < |history| && history[j].RollbackRefused? ==> history[j].amount > 0.0
    ensures Sum(Lost, history) == 0.0 <==> Count(IsRefusal, history) == 0
  {
    CountZero(IsRefusal, history);
    if i :| 0 <= i < |history| && history[i].RollbackRefused? {
      LossIsVisible(history, i);
    } else {
      SumZero(Lost, history);
    }
  }

  /** A run that ends at rest has kept all the money that entered if and only if no thread gave a withdrawal
      back while the sender's account was inactive. */
  lemma AtomicNothingLostIffSendersActive(run: seq<State>, s: State)
    requires RunTo(run, s) && forall k :: 0 <= k < |s.threads| ==> s.threads[k].Idle?
    ensures Sum(Balance, s.tables.accounts) == Sum(Entered, s.history)
            <==> forall i: nat :: i + 1 < |run| ==> !RollbackToInactiveAt(run, i)
  {
    RunMoney(run, |run| - 1);
    SumZero(InFlight, s.threads);
    LostIffRefused(s.history);
    RunRefuses(run, |run| - 1);
    NoRollbackToInactive(run, |run| - 1);
  }
}
