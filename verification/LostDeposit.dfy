/** Two deposits to one account, made over two connections of one server process: both threads have locked and
    read the record before either writes it, and the second write loses the first deposit. */
module LostDeposit {
  import opened Folds
  import opened Records
  import opened Bank
  import opened Money
  import opened Locking
  import opened Completion
  import opened ProcessLocks
  import opened LostTransfer

  /** A file access that does not show. */
  lemma Moves(f: Fine, k: nat, th': Thread)
    requires FreelyArises(f) && k < |f.threads| && !AtRest(f.threads[k]) && !f.threads[k].micro.Releasing?
    requires FileAccess(f.scanLocks, f.tables, f.threads[k]) == (f.tables, [], th')
    ensures FreelyArises(f.(threads := f.threads[k := th']))
  {
    FreelyArisesNext(f, Access(k));
    assert f.history + [] == f.history;
    assert FineDo(f, Access(k)) == f.(threads := f.threads[k := th']);
  }

  lemma Unlocks(f: Fine, k: nat, lock: Lock, resume: Micro)
    requires FreelyArises(f) && k < |f.threads| && f.threads[k].micro == Releasing({lock}, resume)
    ensures FreelyArises(f.(threads := f.threads[k := Thread(f.threads[k].pc, resume)]))
  {
    FreelyArisesNext(f, Release(k, lock));
    assert {lock} - {lock} == {};
  }

  function Depositing(): PC { Update(Deposit(SENDER, 100.0)) }

  /** Thread k is so far, all else being as in f. */
  function At(f: Fine, k: nat, pc: PC, micro: Micro): Fine
    requires k < |f.threads|
  {
    f.(threads := f.threads[k := Thread(pc, micro)])
  }

  lemma MovesOn(f: Fine, k: nat, micro: Micro, micro': Micro)
    requires k < |f.threads| && FreelyArises(At(f, k, Depositing(), micro)) && !micro.Releasing?
    requires FileAccess(f.scanLocks, f.tables, Thread(Depositing(), micro))
               == (f.tables, [], Thread(Depositing(), micro'))
    ensures FreelyArises(At(f, k, Depositing(), micro'))
  {
    Moves(At(f, k, Depositing(), micro), k, Thread(Depositing(), micro'));
    assert f.threads[k := Thread(Depositing(), micro)][k := Thread(Depositing(), micro')]
           == f.threads[k := Thread(Depositing(), micro')];
  }

  lemma Locates(f: Fine, k: nat)
    requires k < |f.threads| && FreelyArises(At(f, k, Depositing(), Ready))
    requires |f.tables.accounts| > 0 && f.tables.accounts[0].userId == SENDER
    ensures FreelyArises(At(f, k, Depositing(), Located(0)))
  {
    MovesOn(f, k, Ready, Scanning(0));
    if f.scanLocks {
      var micro := Releasing({Whole(AccountsFile)}, Located(0));
      MovesOn(f, k, Scanning(0), micro);
      Unlocks(At(f, k, Depositing(), micro), k, Whole(AccountsFile), Located(0));
      assert f.threads[k := Thread(Depositing(), micro)][k := Thread(Depositing(), Located(0))]
             == f.threads[k := Thread(Depositing(), Located(0))];
    } else {
      MovesOn(f, k, Scanning(0), Located(0));
    }
  }

  /** The thread has searched, locked and read the account. */
  lemma Reads(f: Fine, k: nat)
    requires k < |f.threads| && FreelyArises(At(f, k, Depositing(), Ready))
    requires |f.tables.accounts| > 0 && f.tables.accounts[0].userId == SENDER
    ensures FreelyArises(At(f, k, Depositing(), LoadedAccount(0, f.tables.accounts[0])))
  {
    Locates(f, k);
    MovesOn(f, k, Located(0), Holding(0));
    MovesOn(f, k, Holding(0), LoadedAccount(0, f.tables.accounts[0]));
  }

  /** Ann's bank with this balance and log. */
  function AnnsBank(balance: real, log: seq<Txn>): Tables {
    AnnAlone().(accounts := [Account(SENDER, SENDER, balance, true)], log := log)
  }

  function Logging(): PC { Append(DepositEntry(SENDER, 100.0)) }

  /** The thread adds the deposit to the empty account it has read, whatever the account holds by now. */
  lemma Writes(f: Fine, k: nat, balance: real, log: seq<Txn>)
    requires FreelyArises(f) && k < |f.threads| && f.tables == AnnsBank(balance, log)
    requires f.threads[k] == Thread(Depositing(), LoadedAccount(0, Account(SENDER, SENDER, 0.0, true)))
    ensures FreelyArises(Fine(f.scanLocks, AnnsBank(100.0, log), f.history + PAID,
                              f.threads[k := Thread(Logging(), Ready)]))
  {
    FreelyArisesNext(f, Access(k));
    var f' := FineDo(f, Access(k));
    var lock := Record(AccountsFile, 0);
    assert f.tables.accounts[0 := Account(SENDER, SENDER, 100.0, true)] == AnnsBank(100.0, log).accounts;
    assert f'.threads[k] == Thread(Logging(), Releasing({lock}, Ready));
    Unlocks(f', k, lock, Ready);
    assert f'.threads[k := Thread(Logging(), Ready)] == f.threads[k := Thread(Logging(), Ready)];
  }

  lemma Logs(f: Fine, k: nat, balance: real, log: seq<Txn>)
    requires FreelyArises(f) && k < |f.threads| && f.tables == AnnsBank(balance, log)
    requires f.threads[k] == Thread(Logging(), Ready)
    ensures FreelyArises(Fine(f.scanLocks, AnnsBank(balance, log + [LogRecord(|log| + 1, Logging().entry)]), f.history,
                              f.threads[k := Thread(Idle, Ready)]))
  {
    Moves(f, k, Thread(Logging(), Appending));
    var f1 := f.(threads := f.threads[k := Thread(Logging(), Appending)]);
    FreelyArisesNext(f1, Access(k));
    var f2 := FineDo(f1, Access(k));
    assert f.history + [] == f.history;
    assert f2.threads[k] == Thread(Idle, Releasing({Whole(LogFile)}, Ready));
    Unlocks(f2, k, Whole(LogFile), Ready);
    assert f2.threads[k := Thread(Idle, Ready)] == f.threads[k := Thread(Idle, Ready)];
  }

  // ----- The run

  lemma BothBegin(scanLocks: bool)
    ensures FreelyArises(Fine(scanLocks, AnnAlone(), [], [Thread(Depositing(), Ready), Thread(Depositing(), Ready)]))
  {
    TwoConnect(scanLocks);
    BothJoin();
    var s := State(INITIAL.tables, [], [Idle, Idle]);
    AttainedAdmin(scanLocks, s, AddCustomer(NOBODY, "a@x", "1", "ann", ""));
    assert Meet(scanLocks, AnnAlone(), [], Idle, Idle);
    FirstBegins(scanLocks, AnnAlone(), [], DepositMoney(SENDER, 100.0), Idle);
    SecondBegins(scanLocks, AnnAlone(), [], Depositing(), DepositMoney(SENDER, 100.0));
    var f := FineOf(scanLocks, State(AnnAlone(), [], [Depositing(), Depositing()]));
    ArisesFreely(f);
    assert f.threads == [Thread(Depositing(), Ready), Thread(Depositing(), Ready)];
  }

  function Loaded(): Thread { Thread(Depositing(), LoadedAccount(0, Account(SENDER, SENDER, 0.0, true))) }

  lemma BothRead(scanLocks: bool)
    ensures FreelyArises(Fine(scanLocks, AnnsBank(0.0, []), [], [Loaded(), Loaded()]))
  {
    BothBegin(scanLocks);
    var ready := Thread(Depositing(), Ready);
    var f := Fine(scanLocks, AnnsBank(0.0, []), [], [ready, ready]);
    assert f.threads[0 := ready] == f.threads;
    Reads(f, 0);
    var f1 := f.(threads := [Loaded(), ready]);
    assert f.threads[0 := Loaded()] == f1.threads && f1.threads[1 := ready] == f1.threads;
    Reads(f1, 1);
    assert f1.threads[1 := Loaded()] == [Loaded(), Loaded()];
  }

  lemma BothWrite(scanLocks: bool)
    ensures FreelyArises(Fine(scanLocks, AnnsBank(100.0, []), PAID + PAID,
                              [Thread(Logging(), Ready), Thread(Logging(), Ready)]))
  {
    BothRead(scanLocks);
    var f := Fine(scanLocks, AnnsBank(0.0, []), [], [Loaded(), Loaded()]);
    Writes(f, 0, 0.0, []);
    var f1 := Fine(scanLocks, AnnsBank(100.0, []), PAID, [Thread(Logging(), Ready), Loaded()]);
    assert [] + PAID == PAID && f.threads[0 := Thread(Logging(), Ready)] == f1.threads;
    Writes(f1, 1, 100.0, []);
    assert f1.threads[1 := Thread(Logging(), Ready)] == [Thread(Logging(), Ready), Thread(Logging(), Ready)];
  }

  /** Both deposits as the log records them. */
  function TwoDeposits(): seq<Txn> {
    [LogRecord(1, DepositEntry(SENDER, 100.0)), LogRecord(2, DepositEntry(SENDER, 100.0))]
  }

  lemma BothLog(scanLocks: bool)
    ensures FreelyArises(Fine(scanLocks, AnnsBank(100.0, TwoDeposits()), PAID + PAID,
                              [Thread(Idle, Ready), Thread(Idle, Ready)]))
  {
    BothWrite(scanLocks);
    var logging, idle := Thread(Logging(), Ready), Thread(Idle, Ready);
    var f := Fine(scanLocks, AnnsBank(100.0, []), PAID + PAID, [logging, logging]);
    Logs(f, 0, 100.0, []);
    var f1 := Fine(scanLocks, AnnsBank(100.0, [TwoDeposits()[0]]), PAID + PAID, [idle, logging]);
    assert [] + [TwoDeposits()[0]] == [TwoDeposits()[0]] && f.threads[0 := idle] == f1.threads;
    Logs(f1, 1, 100.0, [TwoDeposits()[0]]);
    assert [TwoDeposits()[0]] + [TwoDeposits()[1]] == TwoDeposits() && f1.threads[1 := idle] == [idle, idle];
  }

  lemma DepositSums()
    ensures Sum(Entered, PAID + PAID) == 200.0
    ensures Sum(Balance, AnnsBank(100.0, TwoDeposits()).accounts) == 100.0
  {
    SumConcat(Entered, PAID, PAID);
    SumAppend(Entered, [], PAID[0]);
    assert PAID == [] + [PAID[0]];
    var acc := Account(SENDER, SENDER, 100.0, true);
    SumAppend(Balance, [], acc);
    assert [acc] == [] + [acc];
  }

  /** With locks that do not exclude threads of the process, the bank can come to rest with two deposits of 100
      accepted and logged, no rollback refused, and 100 in the accounts. */
  lemma DepositCanBeLost(scanLocks: bool) returns (f: Fine)
    ensures FreelyArises(f) && f.scanLocks == scanLocks && AllAtRest(f)
    ensures f.history == [Deposited(SENDER, 100.0), Deposited(SENDER, 100.0)] && f.tables.log == TwoDeposits()
    ensures Sum(Entered, f.history) == 200.0 && Sum(Balance, f.tables.accounts) == 100.0
  {
    BothLog(scanLocks);
    f := Fine(scanLocks, AnnsBank(100.0, TwoDeposits()), PAID + PAID, [Thread(Idle, Ready), Thread(Idle, Ready)]);
    DepositSums();
  }
}
