/** The rollback of a transfer does not always restore the sender. Two customers, one transfer of all the
    sender's money, and a manager who deactivates both accounts while it is under way: the deposit is
    refused, the rollback is refused, and the money is in no account. */
module LostTransfer {
  import opened Folds
  import opened Records
  import opened Bank
  import opened Money
  import opened Locking
  import opened Guarantees
  import opened Completion

  const NOBODY := Profile("", "", 0, "")

  const SENDER: nat := 1001
  const RECIPIENT: nat := 1002

  function Ann(): User { User(SENDER, "ann", "", Customer, NOBODY, "a@x", "1", true) }
  function Bob(): User { User(RECIPIENT, "bob", "", Customer, NOBODY, "b@x", "2", true) }

  function AnnAlone(): Tables { Tables([Ann()], [Account(SENDER, SENDER, 0.0, true)], [], []) }

  /** Both customers, the sender's balance and who is active. */
  function Scene(balance: real, senderActive: bool, recipientActive: bool, log: seq<Txn>): Tables {
    Tables([Ann(), Bob()],
           [Account(SENDER, SENDER, balance, senderActive), Account(RECIPIENT, RECIPIENT, 0.0, recipientActive)],
           [], log)
  }

  // ----- The two threads

  /** Both threads are in front of these steps, holding no lock, with or without effective search locks. */
  ghost predicate Meet(scanLocks: bool, t: Tables, history: seq<Event>, first: PC, second: PC) {
    && Attained(scanLocks, State(t, history, [first, second]))
    && HeldByPc(scanLocks, first) == {} && HeldByPc(scanLocks, second) == {}
  }

  lemma FirstBegins(scanLocks: bool, t: Tables, history: seq<Event>, req: Request, second: PC)
    requires Meet(scanLocks, t, history, Idle, second)
    ensures Meet(scanLocks, t, history, Start(req), second)
  {
    AttainedBegin(scanLocks, State(t, history, [Idle, second]), 0, req);
    assert [Idle, second][0 := Start(req)] == [Start(req), second];
  }

  lemma SecondBegins(scanLocks: bool, t: Tables, history: seq<Event>, first: PC, req: Request)
    requires Meet(scanLocks, t, history, first, Idle)
    ensures Meet(scanLocks, t, history, first, Start(req))
  {
    AttainedBegin(scanLocks, State(t, history, [first, Idle]), 1, req);
    assert [first, Idle][1 := Start(req)] == [first, Start(req)];
  }

  lemma FirstAdvances(scanLocks: bool, t: Tables, history: seq<Event>, first: PC, second: PC, t': Tables, first': PC)
    requires Meet(scanLocks, t, history, first, second) && !first.Idle?
    requires Advance(t, first) == (t', first') && HeldByPc(scanLocks, first') == {}
    ensures Meet(scanLocks, t', history + Events(t, first), first', second)
  {
    AttainedAdvance(scanLocks, State(t, history, [first, second]), 0);
    assert [first, second][0 := first'] == [first', second];
  }

  lemma SecondAdvances(scanLocks: bool, t: Tables, history: seq<Event>, first: PC, second: PC, t': Tables, second': PC)
    requires Meet(scanLocks, t, history, first, second) && !second.Idle?
    requires Advance(t, second) == (t', second') && HeldByPc(scanLocks, second') == {} && Events(t, second) == []
    ensures Meet(scanLocks, t', history, first, second')
  {
    AttainedAdvance(scanLocks, State(t, history, [first, second]), 1);
    assert [first, second][1 := second'] == [first, second'] && history + [] == history;
  }

  // ----- What the steps do

  lemma BothJoin()
    ensures Administer(INITIAL.tables, AddCustomer(NOBODY, "a@x", "1", "ann", "")) == AnnAlone()
    ensures Administer(AnnAlone(), AddCustomer(NOBODY, "b@x", "2", "bob", "")) == Scene(0.0, true, true, [])
  {
    var t := AnnAlone();
    assert Ann().username[0] == 'a' && "bob"[0] == 'b';
    assert Ann().email[0] == 'a' && "b@x"[0] == 'b';
    assert Ann().phone[0] == '1' && "2"[0] == '2';
    assert FindUser(t.users, RECIPIENT) == 1 && FindAccount(t.accounts, RECIPIENT) == 1;
  }

  lemma SceneSearches(balance: real, sa: bool, ra: bool, log: seq<Txn>)
    ensures var t := Scene(balance, sa, ra, log);
            FindAccount(t.accounts, SENDER) == 0 && FindAccount(t.accounts, RECIPIENT) == 1
  {
    var t := Scene(balance, sa, ra, log);
    assert t.accounts[0].userId == SENDER && t.accounts[1].userId == RECIPIENT;
  }

  /** A change of the sender's account in the scene. */
  lemma SenderChanges(balance: real, sa: bool, ra: bool, log: seq<Txn>, change: AccountChange)
    ensures var changed := ModifyAccount(Account(SENDER, SENDER, balance, sa), change);
            UpdateAccount(Scene(balance, sa, ra, log).accounts, SENDER, change)
              == if changed.None? then None
                 else Some(Scene(changed.value.balance, changed.value.active, ra, log).accounts)
  {
    SceneSearches(balance, sa, ra, log);
    var t := Scene(balance, sa, ra, log);
    var changed := ModifyAccount(t.accounts[0], change);
    if changed.Some? {
      assert t.accounts[0 := changed.value] == Scene(changed.value.balance, changed.value.active, ra, log).accounts;
    }
  }

  lemma RecipientDeactivates(balance: real, sa: bool, ra: bool, log: seq<Txn>)
    ensures UpdateAccount(Scene(balance, sa, ra, log).accounts, RECIPIENT, SetActive(false))
              == Some(Scene(balance, sa, false, log).accounts)
  {
    SceneSearches(balance, sa, ra, log);
    var t := Scene(balance, sa, ra, log);
    assert t.accounts[1 := t.accounts[1].(active := false)] == Scene(balance, sa, false, log).accounts;
  }

  // ----- The run

  const PAID: seq<Event> := [Deposited(SENDER, 100.0)]

  function Log(): seq<Txn> { [LogRecord(1, DepositEntry(SENDER, 100.0))] }

  function Paying(): PC { Update(TransferIn(SENDER, RECIPIENT, 100.0)) }

  lemma TwoConnect(scanLocks: bool)
    ensures Meet(scanLocks, INITIAL.tables, [], Idle, Idle)
  {
    InitialAttained(scanLocks);
    AttainedConnect(scanLocks, INITIAL);
    var s := State(INITIAL.tables, [], [Idle]);
    assert [] + [Idle] == [Idle] && [Idle] + [Idle] == [Idle, Idle];
    assert Do(INITIAL, Connect) == s;
    AttainedConnect(scanLocks, s);
  }

  lemma CustomersJoin(scanLocks: bool)
    ensures Meet(scanLocks, Scene(0.0, true, true, []), [], Idle, Idle)
  {
    TwoConnect(scanLocks);
    BothJoin();
    var idle: seq<PC> := [Idle, Idle];
    AttainedAdmin(scanLocks, State(INITIAL.tables, [], idle), AddCustomer(NOBODY, "a@x", "1", "ann", ""));
    AttainedAdmin(scanLocks, State(AnnAlone(), [], idle), AddCustomer(NOBODY, "b@x", "2", "bob", ""));
  }

  lemma AnnDeposits(scanLocks: bool)
    ensures Meet(scanLocks, Scene(100.0, true, true, []), PAID, Append(DepositEntry(SENDER, 100.0)), Idle)
  {
    CustomersJoin(scanLocks);
    var t := Scene(0.0, true, true, []);
    FirstBegins(scanLocks, t, [], DepositMoney(SENDER, 100.0), Idle);
    SenderChanges(0.0, true, true, [], Credit(100.0));
    FirstAdvances(scanLocks, t, [], Update(Deposit(SENDER, 100.0)), Idle,
                  Scene(100.0, true, true, []), Append(DepositEntry(SENDER, 100.0)));
    assert [] + PAID == PAID;
  }

  lemma DepositIsLogged(scanLocks: bool)
    ensures Meet(scanLocks, Scene(100.0, true, true, Log()), PAID, Idle, Idle)
  {
    AnnDeposits(scanLocks);
    assert [] + Log() == Log() && PAID + [] == PAID;
    FirstAdvances(scanLocks, Scene(100.0, true, true, []), PAID, Append(DepositEntry(SENDER, 100.0)), Idle,
                  Scene(100.0, true, true, Log()), Idle);
  }

  lemma RecipientIsChecked(scanLocks: bool)
    ensures Meet(scanLocks, Scene(100.0, true, true, Log()), PAID, Update(TransferOut(SENDER, RECIPIENT, 100.0)), Idle)
  {
    DepositIsLogged(scanLocks);
    var t := Scene(100.0, true, true, Log());
    FirstBegins(scanLocks, t, PAID, TransferFunds(SENDER, RECIPIENT, 100.0), Idle);
    SceneSearches(100.0, true, true, Log());
    assert PAID + [] == PAID;
    FirstAdvances(scanLocks, t, PAID, CheckRecipient(SENDER, RECIPIENT, 100.0), Idle,
                  t, Update(TransferOut(SENDER, RECIPIENT, 100.0)));
  }

  /** The transfer has withdrawn from the sender and not yet paid the recipient. */
  lemma TransferIsInFlight(scanLocks: bool)
    ensures Meet(scanLocks, Scene(0.0, true, true, Log()), PAID, Paying(), Idle)
  {
    RecipientIsChecked(scanLocks);
    SenderChanges(100.0, true, true, Log(), Debit(100.0));
    assert PAID + [] == PAID;
    FirstAdvances(scanLocks, Scene(100.0, true, true, Log()), PAID, Update(TransferOut(SENDER, RECIPIENT, 100.0)), Idle,
                  Scene(0.0, true, true, Log()), Paying());
  }

  lemma RecipientIsDeactivated(scanLocks: bool)
    ensures Meet(scanLocks, Scene(0.0, true, false, Log()), PAID, Paying(), Idle)
  {
    TransferIsInFlight(scanLocks);
    var t := Scene(0.0, true, true, Log());
    SecondBegins(scanLocks, t, PAID, Paying(), SetAccountStatus(RECIPIENT, 0));
    RecipientDeactivates(0.0, true, true, Log());
    SecondAdvances(scanLocks, t, PAID, Paying(), Update(SetStatus(RECIPIENT, false)),
                   Scene(0.0, true, false, Log()), Idle);
  }

  lemma SenderIsDeactivated(scanLocks: bool)
    ensures Meet(scanLocks, Scene(0.0, false, false, Log()), PAID, Paying(), Idle)
  {
    RecipientIsDeactivated(scanLocks);
    var t := Scene(0.0, true, false, Log());
    SecondBegins(scanLocks, t, PAID, Paying(), SetAccountStatus(SENDER, 0));
    SenderChanges(0.0, true, false, Log(), SetActive(false));
    SecondAdvances(scanLocks, t, PAID, Paying(), Update(SetStatus(SENDER, false)),
                   Scene(0.0, false, false, Log()), Idle);
  }

  lemma PaymentIsRefused(scanLocks: bool)
    ensures Meet(scanLocks, Scene(0.0, false, false, Log()), PAID, Update(Rollback(SENDER, RECIPIENT, 100.0)), Idle)
  {
    SenderIsDeactivated(scanLocks);
    var t := Scene(0.0, false, false, Log());
    SceneSearches(0.0, false, false, Log());
    assert PAID + [] == PAID;
    FirstAdvances(scanLocks, t, PAID, Paying(), Idle, t, Update(Rollback(SENDER, RECIPIENT, 100.0)));
  }

  function Refused(): seq<Event> { PAID + [RollbackRefused(SENDER, 100.0)] }

  lemma RollbackIsRefused(scanLocks: bool)
    ensures Meet(scanLocks, Scene(0.0, false, false, Log()), Refused(), Idle, Idle)
  {
    PaymentIsRefused(scanLocks);
    var t := Scene(0.0, false, false, Log());
    SenderChanges(0.0, false, false, Log(), Credit(100.0));
    FirstAdvances(scanLocks, t, PAID, Update(Rollback(SENDER, RECIPIENT, 100.0)), Idle, t, Idle);
  }

  lemma RefusedSums()
    ensures Sum(Entered, Refused()) == 100.0
    ensures Sum(Balance, Scene(0.0, false, false, Log()).accounts) == 0.0
  {
    SumAppend(Entered, PAID, RollbackRefused(SENDER, 100.0));
    SumAppend(Entered, [], PAID[0]);
    assert PAID == [] + [PAID[0]];
    SumZero(Balance, Scene(0.0, false, false, Log()).accounts);
  }

  /** Between single file accesses, with or without effective search locks, the bank can come to rest with 100
      deposited, nothing withdrawn and no money in any account. */
  lemma TransferCanLoseMoney(scanLocks: bool) returns (f: Fine)
    ensures Arises(f) && f.scanLocks == scanLocks && AllAtRest(f)
    ensures f.history == [Deposited(SENDER, 100.0), RollbackRefused(SENDER, 100.0)]
    ensures Sum(Entered, f.history) == 100.0 && Sum(Balance, f.tables.accounts) == 0.0
  {
    RollbackIsRefused(scanLocks);
    f := FineOf(scanLocks, State(Scene(0.0, false, false, Log()), Refused(), [Idle, Idle]));
    RefusedSums();
  }
}
