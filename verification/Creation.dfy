/** User creation at the granularity of its locked regions: uniqueness check, identifier, user record and, for
    a customer, account record, with other creations and deposits in between. It says exactly when a creation
    is the atomic step that the rest of the model takes it for. */
module Creation {
  import opened Folds
  import opened Records
  import opened Bank
  import opened Directory
  import Money

  /** What a creator was asked to store; no role when the role's name was not recognised. */
  datatype Form =
    Form(role: Option<Role>, profile: Profile, email: string, phone: string, username: string, hash: string)

  datatype Creator =
    | Checking(form: Form)
    | Numbering(form: Form)
    | WritingUser(user: User)
    | WritingAccount(id: nat)
    | Done(created: bool)

  /** `entered` adds up the deposits; no region reads it. */
  datatype Office = Office(users: seq<User>, accounts: seq<Account>, creators: seq<Creator>, entered: real)

  function UserFrom(form: Form, id: nat): User
    requires form.role.Some?
  {
    User(id, form.username, form.hash, form.role.value, form.profile, form.email, form.phone, true)
  }

  predicate PassesCheck(users: seq<User>, form: Form) {
    IsUnique(users, form.username, form.email, form.phone, 0)
  }

  /** What one locked region of a creator leads to. */
  function After(users: seq<User>, creator: Creator): Creator {
    match creator
    case Checking(form) => if PassesCheck(users, form) then Numbering(form) else Done(false)
    case Numbering(form) => if form.role.Some? then WritingUser(UserFrom(form, NewUserId(users))) else Done(false)
    case WritingUser(user) => if user.role == Customer then WritingAccount(user.id) else Done(true)
    case WritingAccount(_) => Done(true)
    case Done(_) => creator
  }

  /** One locked region of one creator. */
  function Region(s: Office, c: nat): Office
    requires c < |s.creators|
  {
    var creator := s.creators[c];
    s.(users := if creator.WritingUser? then PutUser(s.users, creator.user) else s.users,
       accounts := if creator.WritingAccount? then PutAccount(s.accounts, Account(creator.id, creator.id, 0.0, true))
                   else s.accounts,
       creators := s.creators[c := After(s.users, creator)])
  }

  predicate CanDeposit(s: Office, user: nat, amount: real) {
    amount > 0.0 && UpdateAccount(s.accounts, user, Credit(amount)).Some?
  }

  /** A deposit by some other thread. */
  function DepositTo(s: Office, user: nat, amount: real): Office
    requires CanDeposit(s, user, amount)
  {
    s.(accounts := UpdateAccount(s.accounts, user, Credit(amount)).value, entered := s.entered + amount)
  }

  ghost predicate Next(s: Office, s': Office) {
    || (exists c: nat :: c < |s.creators| && s' == Region(s, c))
    || (exists user: nat, amount: real :: CanDeposit(s, user, amount) && s' == DepositTo(s, user, amount))
  }

  ghost predicate StepAt(run: seq<Office>, i: nat)
    requires i + 1 < |run|
  {
    Next(run[i], run[i + 1])
  }

  ghost predicate IsRun(run: seq<Office>) {
    forall i: nat :: i + 1 < |run| ==> StepAt(run, i)
  }

  ghost predicate Valid(s: Office) {
    && Dense(s.users)
    && forall c :: 0 <= c < |s.creators| && s.creators[c].WritingUser? ==>
         FIRST_USER_ID <= s.creators[c].user.id <= NewUserId(s.users)
  }

  /** Writing a user whose identifier was generated earlier either appends or replaces the user who was
      given the same identifier and written first. */
  lemma PutExactly(users: seq<User>, user: User)
    requires Dense(users)
    requires FIRST_USER_ID <= user.id <= NewUserId(users)
    ensures PutUser(users, user)
              == if user.id == NewUserId(users) then users + [user] else users[user.id - FIRST_USER_ID := user]
  {
    if user.id < NewUserId(users) {
      assert users[user.id - FIRST_USER_ID].id == user.id;
    }
  }

  lemma RegionKeeps(s: Office, c: nat)
    requires Valid(s) && c < |s.creators|
    ensures Valid(Region(s, c)) && |s.users| <= |Region(s, c).users| && |Region(s, c).creators| == |s.creators|
  {
    if s.creators[c].WritingUser? {
      PutExactly(s.users, s.creators[c].user);
    }
  }

  lemma NextKeeps(s: Office, s': Office)
    requires Valid(s) && Next(s, s')
    ensures Valid(s') && |s.users| <= |s'.users| && |s'.creators| == |s.creators|
  {
    if c: nat :| c < |s.creators| && s' == Region(s, c) {
      RegionKeeps(s, c);
    }
  }

  lemma {:induction false} RunKeepsOffice(run: seq<Office>, n: nat)
    requires n < |run| && IsRun(run) && Valid(run[0])
    ensures Valid(run[n]) && |run[0].users| <= |run[n].users| && |run[n].creators| == |run[0].creators|
  {
    if n > 0 {
      RunKeepsOffice(run, n - 1);
      assert StepAt(run, n - 1);
      NextKeeps(run[n - 1], run[n]);
    }
  }

  // ----- When the user write appends

  /** From the region that gave creator c its identifier to the region that writes the user: the write appends
      if and only if no user was added in between; otherwise it replaces the record of another new user. */
  lemma AppendsIffNobodyCameBetween(run: seq<Office>, n: nat, c: nat, user: User)
    requires n < |run| && IsRun(run) && Valid(run[0])
    requires c < |run[0].creators| && run[0].creators[c] == WritingUser(user) && user.id == NewUserId(run[0].users)
    requires c < |run[n].creators| && run[n].creators[c] == WritingUser(user)
    ensures |run[0].users| <= |run[n].users|
    ensures |run[n].users| == |run[0].users| <==> Region(run[n], c).users == run[n].users + [user]
    ensures |run[n].users| > |run[0].users| ==>
              Region(run[n], c).users == run[n].users[|run[0].users| := user]
  {
    RunKeepsOffice(run, n);
    PutExactly(run[n].users, user);
  }

  // ----- When the user write keeps contacts distinct

  predicate Asks(user: User, form: Form) {
    user.username == form.username && user.email == form.email && user.phone == form.phone
  }

  /** A creator that is still to write its user works on the form it started with. */
  predicate WorksOn(creator: Creator, form: Form) {
    match creator
    case Checking(f) => f == form
    case Numbering(f) => f == form
    case WritingUser(user) => Asks(user, form)
    case _ => true
  }

  lemma NextWorksOn(s: Office, s': Office, c: nat, form: Form)
    requires Next(s, s') && c < |s.creators| && WorksOn(s.creators[c], form)
    ensures c < |s'.creators| && WorksOn(s'.creators[c], form)
  {
  }

  lemma {:induction false} RunWorksOn(run: seq<Office>, n: nat, c: nat, form: Form)
    requires n < |run| && IsRun(run) && c < |run[0].creators| && run[0].creators[c] == Checking(form)
    ensures c < |run[n].creators| && WorksOn(run[n].creators[c], form)
  {
    if n > 0 {
      RunWorksOn(run, n - 1, c, form);
      assert StepAt(run, n - 1);
      NextWorksOn(run[n - 1], run[n], c, form);
    }
  }

  /** Record i was added or rewritten between the two tables. */
  predicate WrittenSince(before: seq<User>, after: seq<User>, i: nat)
    requires i < |after|
  {
    i >= |before| || after[i] != before[i]
  }

  /** No record written between the two tables, other than the one the user replaces, shares a contact with it. */
  ghost predicate NobodyTookContacts(before: seq<User>, after: seq<User>, user: User) {
    forall i: nat :: i < |after| && after[i].id != user.id && WrittenSince(before, after, i) ==> Differ(after[i], user)
  }

  /** From the region in which creator c's check succeeds to its user write, with any other creations in between:
      the write keeps contacts distinct if and only if nobody took one of them meanwhile. */
  lemma DistinctIffNobodyTookContacts(run: seq<Office>, n: nat, c: nat, form: Form)
    requires n < |run| && IsRun(run) && Valid(run[0]) && Distinct(run[n].users)
    requires c < |run[0].creators| && run[0].creators[c] == Checking(form) && PassesCheck(run[0].users, form)
    requires c < |run[n].creators| && run[n].creators[c].WritingUser?
    ensures Distinct(Region(run[n], c).users)
            <==> NobodyTookContacts(run[0].users, run[n].users, run[n].creators[c].user)
  {
    RunKeepsOffice(run, n);
    RunWorksOn(run, n, c, form);
    DistinctIffCheckHolds(run[n], c);
    RecheckIffNobodyTookContacts(run[0].users, run[n].users, run[n].creators[c].user, form);
  }

  /** Records that were there at the check and have not been written since need no second look. */
  lemma RecheckIffNobodyTookContacts(before: seq<User>, after: seq<User>, user: User, form: Form)
    requires Dense(before) && PassesCheck(before, form) && Asks(user, form)
    ensures IsUnique(after, user.username, user.email, user.phone, user.id) <==> NobodyTookContacts(before, after, user)
  {
    if NobodyTookContacts(before, after, user) {
      forall i: nat | i < |after| && after[i].id != user.id ensures Differ(after[i], user) {
        if !WrittenSince(before, after, i) {
          assert before[i].id != 0;
        }
      }
    }
  }

  lemma DistinctIffCheckHolds(s: Office, c: nat)
    requires Valid(s) && Distinct(s.users) && c < |s.creators| && s.creators[c].WritingUser?
    ensures var user := s.creators[c].user;
            Distinct(Region(s, c).users) <==> IsUnique(s.users, user.username, user.email, user.phone, user.id)
  {
    var user := s.creators[c].user;
    PutExactly(s.users, user);
    if user.id == NewUserId(s.users) {
      CreationCheckIsExact(Tables(s.users, [], [], []), user);
    } else {
      ReplacementCheckIsExact(s.users, user);
    }
  }

  lemma ReplacementCheckIsExact(users: seq<User>, user: User)
    requires Dense(users) && Distinct(users) && FIRST_USER_ID <= user.id < NewUserId(users)
    ensures Distinct(users[user.id - FIRST_USER_ID := user])
            <==> IsUnique(users, user.username, user.email, user.phone, user.id)
  {
    var k := user.id - FIRST_USER_ID;
    var users' := users[k := user];
    if Distinct(users') {
      forall j | 0 <= j < |users| && users[j].id != user.id ensures Differ(users[j], user) {
        assert j < k ==> Differ(users'[j], users'[k]);
        assert k < j ==> Differ(users'[k], users'[j]);
      }
    } else {
      assert forall a, b :: 0 <= a < b < |users| ==> Differ(users[a], users[b]);
    }
  }

  // ----- When creations destroy money

  ghost predicate Funded(s: Office) {
    && (forall i :: 0 <= i < |s.accounts| ==> s.accounts[i].balance >= 0.0)
    && Sum(Money.Balance, s.accounts) <= s.entered
  }

  /** The account write sets an existing balance to zero. */
  lemma AccountWriteErases(accounts: seq<Account>, id: nat)
    ensures Sum(Money.Balance, PutAccount(accounts, Account(id, id, 0.0, true)))
              == Sum(Money.Balance, accounts) - Money.BalanceOf(accounts, id)
  {
    var i := FindAccount(accounts, id);
    if i < |accounts| {
      SumUpdate(Money.Balance, accounts, i, Account(id, id, 0.0, true));
    } else {
      SumAppend(Money.Balance, accounts, Account(id, id, 0.0, true));
    }
  }

  /** Creator c is to write an account over one that holds money. */
  predicate WritesOverMoney(s: Office, c: nat)
    requires c < |s.creators|
  {
    s.creators[c].WritingAccount? && Money.BalanceOf(s.accounts, s.creators[c].id) > 0.0
  }

  /** In step i of the run a creator writes an account over one that holds money. */
  ghost predicate OverwritesAt(run: seq<Office>, i: nat)
    requires i + 1 < |run|
  {
    exists c: nat :: c < |run[i].creators| && WritesOverMoney(run[i], c) && run[i + 1] == Region(run[i], c)
  }

  /** Deposits that are in no account. */
  ghost function Missing(s: Office): real { s.entered - Sum(Money.Balance, s.accounts) }

  lemma RegionMissing(s: Office, c: nat)
    requires Funded(s) && c < |s.creators|
    ensures Funded(Region(s, c))
    ensures Missing(Region(s, c))
              == Missing(s) + (if WritesOverMoney(s, c) then Money.BalanceOf(s.accounts, s.creators[c].id) else 0.0)
  {
    if s.creators[c].WritingAccount? {
      AccountWriteErases(s.accounts, s.creators[c].id);
    }
  }

  lemma DepositMissing(s: Office, user: nat, amount: real)
    requires Funded(s) && CanDeposit(s, user, amount)
    ensures Funded(DepositTo(s, user, amount)) && Missing(DepositTo(s, user, amount)) == Missing(s)
  {
    Money.UpdateTotal(s.accounts, user, Credit(amount));
  }

  lemma StepMissing(run: seq<Office>, i: nat)
    requires i + 1 < |run| && Funded(run[i]) && StepAt(run, i)
    ensures Funded(run[i + 1]) && Missing(run[i]) <= Missing(run[i + 1])
    ensures Missing(run[i + 1]) == Missing(run[i]) <==> !OverwritesAt(run, i)
  {
    if OverwritesAt(run, i) {
      var c: nat :| c < |run[i].creators| && WritesOverMoney(run[i], c) && run[i + 1] == Region(run[i], c);
      RegionMissing(run[i], c);
    } else if c: nat :| c < |run[i].creators| && run[i + 1] == Region(run[i], c) {
      RegionMissing(run[i], c);
    } else {
      var user: nat, amount: real :| CanDeposit(run[i], user, amount) && run[i + 1] == DepositTo(run[i], user, amount);
      DepositMissing(run[i], user, amount);
    }
  }

  /** How many of the first n steps of a run write an account over one that holds money. */
  ghost function Overwrites(run: seq<Office>, n: nat): nat
    requires n < |run|
  {
    if n == 0 then 0 else Overwrites(run, n - 1) + One(OverwritesAt(run, n - 1))
  }

  lemma {:induction false} NoOverwrites(run: seq<Office>, n: nat)
    requires n < |run|
    ensures Overwrites(run, n) == 0 <==> forall i: nat :: i < n ==> !OverwritesAt(run, i)
  {
    if n > 0 {
      NoOverwrites(run, n - 1);
    }
  }

  lemma {:induction false} RunMissing(run: seq<Office>, n: nat)
    requires n < |run| && IsRun(run) && Funded(run[0]) && Missing(run[0]) == 0.0
    ensures Funded(run[n]) && Missing(run[n]) >= 0.0
    ensures Missing(run[n]) == 0.0 <==> Overwrites(run, n) == 0
  {
    if n > 0 {
      RunMissing(run, n - 1);
      StepMissing(run, n - 1);
    }
  }

  /** With creations racing each other, all deposits are in the accounts if and only if no creator ever wrote an
      account over one that held money. */
  lemma NothingErasedIffNoOverwrite(run: seq<Office>, n: nat)
    requires n < |run| && IsRun(run) && Funded(run[0]) && Missing(run[0]) == 0.0
    ensures Sum(Money.Balance, run[n].accounts) == run[n].entered <==> forall i: nat :: i < n ==> !OverwritesAt(run, i)
  {
    RunMissing(run, n);
    NoOverwrites(run, n);
  }

  // ----- When nothing comes in between

  function FormOf(cmd: Command): Form
    requires cmd.AddCustomer? || cmd.AddEmployee?
  {
    match cmd
    case AddCustomer(p, email, phone, name, hash) => Form(Some(Customer), p, email, phone, name, hash)
    case AddEmployee(p, roleName, email, phone, name, hash) => Form(RoleNamed(roleName), p, email, phone, name, hash)
  }

  /** Four regions in a row end in the record and, for a customer, its account, or in a refusal. */
  lemma RegionsInARow(s: Office, c: nat, form: Form)
    requires c < |s.creators| && s.creators[c] == Checking(form)
    ensures var (s', id) := (Region(Region(Region(Region(s, c), c), c), c), NewUserId(s.users));
            s' == if !PassesCheck(s.users, form) || form.role.None? then s.(creators := s.creators[c := Done(false)])
                  else
                    s.(users := PutUser(s.users, UserFrom(form, id)),
                       accounts := if form.role.value != Customer then s.accounts
                                   else PutAccount(s.accounts, Account(id, id, 0.0, true)),
                       creators := s.creators[c := Done(true)])
  {
    var s1 := Region(s, c);
    if PassesCheck(s.users, form) && form.role.Some? {
      var user := UserFrom(form, NewUserId(s.users));
      var s2 := Region(s1, c);
      assert s2 == s.(creators := s.creators[c := WritingUser(user)]);
      var s3 := Region(s2, c);
      assert s3 == s.(users := PutUser(s.users, user), creators := s.creators[c := After(s.users, WritingUser(user))]);
    }
  }

  /** A creation whose regions follow one another is the atomic creation step. */
  lemma SerialCreationIsAtomic(s: Office, c: nat, cmd: Command, t: Tables)
    requires (cmd.AddCustomer? || cmd.AddEmployee?) && c < |s.creators| && s.creators[c] == Checking(FormOf(cmd))
    requires t.users == s.users && t.accounts == s.accounts
    ensures var s' := Region(Region(Region(Region(s, c), c), c), c);
            && s'.users == Administer(t, cmd).users && s'.accounts == Administer(t, cmd).accounts
            && s'.creators == s.creators[c := Done(PassesCheck(s.users, FormOf(cmd)) && FormOf(cmd).role.Some?)]
  {
    RegionsInARow(s, c, FormOf(cmd));
  }

  // ----- Three races

  ghost predicate Reaches(s: Office, s': Office) {
    exists run: seq<Office> :: |run| > 0 && run[0] == s && run[|run| - 1] == s' && IsRun(run)
  }

  lemma ReachesNext(s: Office, mid: Office, s': Office)
    requires Reaches(s, mid) && Next(mid, s')
    ensures Reaches(s, s')
  {
    var run: seq<Office> :| |run| > 0 && run[0] == s && run[|run| - 1] == mid && IsRun(run);
    var longer := run + [s'];
    forall i: nat | i + 1 < |longer| ensures StepAt(longer, i) {
      assert i + 1 < |run| ==> StepAt(run, i);
    }
    assert longer[|longer| - 1] == s';
  }

  lemma ReachesStep(s: Office, mid: Office, c: nat, s': Office)
    requires Reaches(s, mid) && c < |mid.creators| && s' == Region(mid, c)
    ensures Reaches(s, s')
  {
    ReachesNext(s, mid, s');
  }

  /** Two creations arrive at an empty bank. */
  function Arrivals(a: Form, b: Form): Office { Office([], [], [Checking(a), Checking(b)], 0.0) }

  lemma BothChecked(a: Form, b: Form)
    ensures Reaches(Arrivals(a, b), Office([], [], [Numbering(a), Numbering(b)], 0.0))
  {
    var s := Arrivals(a, b);
    assert [s][0] == s && IsRun([s]);
    ReachesStep(s, s, 0, Office([], [], [Numbering(a), Checking(b)], 0.0));
    ReachesStep(s, Office([], [], [Numbering(a), Checking(b)], 0.0), 1,
                Office([], [], [Numbering(a), Numbering(b)], 0.0));
  }

  lemma BothNumbered(a: Form, b: Form)
    requires a.role.Some? && b.role.Some?
    ensures var (ua, ub) := (UserFrom(a, FIRST_USER_ID), UserFrom(b, FIRST_USER_ID));
            Reaches(Arrivals(a, b), Office([], [], [WritingUser(ua), WritingUser(ub)], 0.0))
  {
    BothChecked(a, b);
    var (ua, ub) := (UserFrom(a, FIRST_USER_ID), UserFrom(b, FIRST_USER_ID));
    var s1 := Office([], [], [Numbering(a), Numbering(b)], 0.0);
    var s2 := Office([], [], [WritingUser(ua), Numbering(b)], 0.0);
    ReachesStep(Arrivals(a, b), s1, 0, s2);
    ReachesStep(Arrivals(a, b), s2, 1, Office([], [], [WritingUser(ua), WritingUser(ub)], 0.0));
  }

  lemma FirstIsStored(a: Form, b: Form)
    requires a.role.Some? && b.role.Some?
    ensures var (ua, ub) := (UserFrom(a, FIRST_USER_ID), UserFrom(b, FIRST_USER_ID));
            Reaches(Arrivals(a, b), Office([ua], [], [After([], WritingUser(ua)), WritingUser(ub)], 0.0))
  {
    BothNumbered(a, b);
    var (ua, ub) := (UserFrom(a, FIRST_USER_ID), UserFrom(b, FIRST_USER_ID));
    var s1 := Office([], [], [WritingUser(ua), WritingUser(ub)], 0.0);
    PutExactly([], ua);
    ReachesStep(Arrivals(a, b), s1, 0, Office([ua], [], [After([], WritingUser(ua)), WritingUser(ub)], 0.0));
  }

  /** The first creator has replaced nobody; the second replaces it, whatever happened to accounts meanwhile. */
  lemma SecondReplacesFirst(s: Office, accounts: seq<Account>, ua: User, ub: User, first: Creator, entered: real)
    requires ua.id == ub.id == FIRST_USER_ID
    requires Reaches(s, Office([ua], accounts, [first, WritingUser(ub)], entered))
    ensures Reaches(s, Office([ub], accounts, [first, After([ua], WritingUser(ub))], entered))
  {
    PutExactly([ua], ub);
    ReachesStep(s, Office([ua], accounts, [first, WritingUser(ub)], entered), 1,
                Office([ub], accounts, [first, After([ua], WritingUser(ub))], entered));
  }

  function FirstAccount(balance: real): Account { Account(FIRST_USER_ID, FIRST_USER_ID, balance, true) }

  /** Both creations can be reported as successful while only the second user exists; when that user is staff,
      the account of the first belongs to nobody. */
  lemma CreationCanBeLost(a: Form, b: Form)
    requires a.role == Some(Customer) && b.role.Some?
    ensures Reaches(Arrivals(a, b),
                    Office([UserFrom(b, FIRST_USER_ID)], [FirstAccount(0.0)], [Done(true), Done(true)], 0.0))
  {
    FirstIsStored(a, b);
    var (s, ua, ub) := (Arrivals(a, b), UserFrom(a, FIRST_USER_ID), UserFrom(b, FIRST_USER_ID));
    SecondReplacesFirst(s, [], ua, ub, WritingAccount(FIRST_USER_ID), 0.0);
    var second := After([ua], WritingUser(ub));
    ReachesStep(s, Office([ub], [], [WritingAccount(FIRST_USER_ID), second], 0.0), 0,
                Office([ub], [FirstAccount(0.0)], [Done(true), second], 0.0));
    if second != Done(true) {
      assert FindAccount([FirstAccount(0.0)], FIRST_USER_ID) == 0;
      ReachesStep(s, Office([ub], [FirstAccount(0.0)], [Done(true), second], 0.0), 1,
                  Office([ub], [FirstAccount(0.0)], [Done(true), Done(true)], 0.0));
    }
  }

  lemma FirstIsFunded(a: Form, b: Form)
    requires a.role == Some(Customer) && b.role.Some?
    ensures var (ua, ub) := (UserFrom(a, FIRST_USER_ID), UserFrom(b, FIRST_USER_ID));
            Reaches(Arrivals(a, b), Office([ua], [FirstAccount(100.0)], [Done(true), WritingUser(ub)], 100.0))
  {
    FirstIsStored(a, b);
    var (s, ua, ub) := (Arrivals(a, b), UserFrom(a, FIRST_USER_ID), UserFrom(b, FIRST_USER_ID));
    var s1 := Office([ua], [FirstAccount(0.0)], [Done(true), WritingUser(ub)], 0.0);
    ReachesStep(s, Office([ua], [], [WritingAccount(FIRST_USER_ID), WritingUser(ub)], 0.0), 0, s1);
    assert FindAccount(s1.accounts, FIRST_USER_ID) == 0 && CanDeposit(s1, FIRST_USER_ID, 100.0);
    ReachesNext(s, s1, DepositTo(s1, FIRST_USER_ID, 100.0));
    assert DepositTo(s1, FIRST_USER_ID, 100.0).accounts == [FirstAccount(100.0)];
  }

  /** Two racing creations of customers can be reported as successful and destroy a deposit made in between. */
  lemma DepositCanBeErased(a: Form, b: Form) returns (s: Office)
    requires a.role == b.role == Some(Customer)
    ensures Reaches(Arrivals(a, b), s) && s.creators == [Done(true), Done(true)]
    ensures s.entered == 100.0 && Sum(Money.Balance, s.accounts) == 0.0
  {
    FirstIsFunded(a, b);
    var (s0, ua, ub) := (Arrivals(a, b), UserFrom(a, FIRST_USER_ID), UserFrom(b, FIRST_USER_ID));
    SecondReplacesFirst(s0, [FirstAccount(100.0)], ua, ub, Done(true), 100.0);
    s := Office([ub], [FirstAccount(0.0)], [Done(true), Done(true)], 100.0);
    assert FindAccount([FirstAccount(100.0)], FIRST_USER_ID) == 0;
    ReachesStep(s0, Office([ub], [FirstAccount(100.0)], [Done(true), WritingAccount(FIRST_USER_ID)], 100.0), 1, s);
    SumZero(Money.Balance, s.accounts);
  }

  lemma FirstWritesBeforeSecondNumbers(form: Form)
    requires form.role.Some?
    ensures var user := UserFrom(form, FIRST_USER_ID);
            Reaches(Arrivals(form, form), Office([user], [], [After([], WritingUser(user)), Numbering(form)], 0.0))
  {
    BothChecked(form, form);
    var (s, user) := (Arrivals(form, form), UserFrom(form, FIRST_USER_ID));
    var s2 := Office([], [], [WritingUser(user), Numbering(form)], 0.0);
    ReachesStep(s, Office([], [], [Numbering(form), Numbering(form)], 0.0), 0, s2);
    PutExactly([], user);
    ReachesStep(s, s2, 0, Office([user], [], [After([], WritingUser(user)), Numbering(form)], 0.0));
  }

  /** Two creations with the same contacts can both be written: the table is then not distinct. */
  lemma ContactsCanCollide(form: Form) returns (s: Office)
    requires form.role.Some?
    ensures Reaches(Arrivals(form, form), s) && !Distinct(s.users)
    ensures s.users == [UserFrom(form, FIRST_USER_ID), UserFrom(form, FIRST_USER_ID + 1)]
  {
    FirstWritesBeforeSecondNumbers(form);
    var (s0, first, second) := (Arrivals(form, form), UserFrom(form, FIRST_USER_ID), UserFrom(form, FIRST_USER_ID + 1));
    var done := After([], WritingUser(first));
    var s2 := Office([first], [], [done, WritingUser(second)], 0.0);
    ReachesStep(s0, Office([first], [], [done, Numbering(form)], 0.0), 1, s2);
    PutExactly([first], second);
    s := Region(s2, 1);
    ReachesStep(s0, s2, 1, s);
    assert !Differ(s.users[0], s.users[1]);
  }
}
