/** Uniqueness of usernames, emails and phones, and what a login finds. Creations and edits are serialised
    and fields fit their buffers. */
module Directory {
  import opened Records
  import opened Bank
  import opened BankInvariant
  import opened Sequential

  predicate Differ(a: User, b: User) {
    a.username != b.username && a.email != b.email && a.phone != b.phone
  }

  ghost predicate Distinct(users: seq<User>) {
    forall i, j :: 0 <= i < j < |users| ==> Differ(users[i], users[j])
  }

  /** The check made with identifier 0 skips no record: it accepts a new user exactly when the table stays
      distinct with the user in it. */
  lemma CreationCheckIsExact(t: Tables, user: User)
    requires DenseIds(t) && Distinct(t.users)
    ensures IsUnique(t.users, user.username, user.email, user.phone, 0) <==> Distinct(t.users + [user])
  {
    var users' := t.users + [user];
    if Distinct(users') {
      forall i | 0 <= i < |t.users| ensures Differ(t.users[i], user) {
        assert Differ(users'[i], users'[|t.users|]);
      }
    }
  }

  /** The check made when a profile is edited skips the user's own record only: it accepts the new contact
      details exactly when the table stays distinct with them. */
  lemma EditCheckIsExact(t: Tables, i: nat, email: string, phone: string)
    requires DenseIds(t) && Distinct(t.users) && i < |t.users|
    ensures IsUnique(t.users, t.users[i].username, email, phone, t.users[i].id)
            <==> Distinct(t.users[i := t.users[i].(email := email, phone := phone)])
  {
    var edited := t.users[i].(email := email, phone := phone);
    var users' := t.users[i := edited];
    if Distinct(users') {
      forall j | 0 <= j < |t.users| && t.users[j].id != t.users[i].id
        ensures t.users[j].username != t.users[i].username && t.users[j].email != email && t.users[j].phone != phone
      {
        assert j < i ==> Differ(users'[j], users'[i]);
        assert i < j ==> Differ(users'[i], users'[j]);
      }
    } else {
      assert forall a, b :: 0 <= a < b < |t.users| ==> Differ(t.users[a], t.users[b]);
    }
  }

  lemma SameContactsStayDistinct(users: seq<User>, i: nat, user: User)
    requires Distinct(users) && i < |users|
    requires user.username == users[i].username && user.email == users[i].email && user.phone == users[i].phone
    ensures Distinct(users[i := user])
  {
    var users' := users[i := user];
    forall a, b | 0 <= a < b < |users| ensures Differ(users'[a], users'[b]) {
      assert Differ(users[a], users[b]);
    }
  }

  lemma EditKeepsDistinct(t: Tables, id: nat, customersOnly: bool, p: Profile, email: string, phone: string)
    requires DenseIds(t) && Distinct(t.users)
    ensures Distinct(EditUser(t.users, id, customersOnly, p, email, phone))
  {
    var i := FindUser(t.users, id);
    var users' := EditUser(t.users, id, customersOnly, p, email, phone);
    if users' != t.users {
      EditCheckIsExact(t, i, email, phone);
      var contacts := t.users[i := t.users[i].(email := email, phone := phone)];
      SameContactsStayDistinct(contacts, i, users'[i]);
      assert contacts[i := users'[i]] == users';
    }
  }

  lemma AdministerKeepsDistinct(t: Tables, cmd: Command)
    requires TablesOk(t) && Distinct(t.users)
    ensures Distinct(Administer(t, cmd).users)
  {
    match cmd
    case AddCustomer(p, email, phone, name, hash) =>
      var user := User(NewUserId(t.users), name, hash, Customer, p, email, phone, true);
      CreationAppends(t, user);
      CreationCheckIsExact(t, user);
    case AddEmployee(p, roleName, email, phone, name, hash) =>
      if RoleNamed(roleName).Some? {
        var user := User(NewUserId(t.users), name, hash, RoleNamed(roleName).value, p, email, phone, true);
        CreationAppends(t, user);
        CreationCheckIsExact(t, user);
      }
    case ModifyCustomer(u, p, email, phone) => EditKeepsDistinct(t, u, true, p, email, phone);
    case ModifyAnyUser(u, p, email, phone) => EditKeepsDistinct(t, u, false, p, email, phone);
  }

  lemma AdvanceKeepsDistinct(t: Tables, pc: PC)
    requires Distinct(t.users)
    ensures Distinct(Advance(t, pc).0.users)
  {
    if pc.UpdateRecord? && UpdateUser(t.users, pc.user, pc.change).Some? {
      var i := FindUser(t.users, pc.user);
      SameContactsStayDistinct(t.users, i, ModifyUser(t.users[i], pc.change).value);
    }
  }

  lemma StepKeepsDistinct(s: State, step: Step)
    requires TablesOk(s.tables) && Distinct(s.tables.users) && Enabled(s, step)
    ensures Distinct(Do(s, step).tables.users)
  {
    match step
    case Advances(j) => AdvanceKeepsDistinct(s.tables, s.threads[j]);
    case Admins(cmd) => AdministerKeepsDistinct(s.tables, cmd);
    case _ =>
  }

  lemma FollowsKeepsDistinct(s: State, s': State)
    requires TablesOk(s.tables) && Distinct(s.tables.users) && Follows(s, s')
    ensures Distinct(s'.tables.users)
  {
    if s != s' {
      var step :| Enabled(s, step) && s' == Do(s, step);
      StepKeepsDistinct(s, step);
    }
  }

  lemma {:induction false} RunKeepsDistinct(run: seq<State>, k: nat)
    requires k < |run| && IsRun(run) && run[0] == INITIAL
    ensures Distinct(run[k].tables.users)
  {
    if k > 0 {
      RunKeepsDistinct(run, k - 1);
      RunInv(run, k - 1);
      assert StepAt(run, k - 1);
      FollowsKeepsDistinct(run[k - 1], run[k]);
    }
  }

  /** No two users ever share a username, an email or a phone. */
  lemma UsersStayDistinct(s: State)
    requires Reachable(s)
    ensures Distinct(s.tables.users)
  {
    var run :| RunTo(run, s);
    RunKeepsDistinct(run, |run| - 1);
  }

  // ----- Login

  /** What a login answers when nothing changes meanwhile; `matches` compares the password with a hash. */
  function LoginOutcome(t: Tables, username: string, matches: string -> bool): LoginResult {
    var i := FindUsername(t.users, username);
    if i == |t.users| || !matches(t.users[i].passwordHash) then BadCredentials
    else
      var j := FindAccount(t.accounts, t.users[i].id);
      if !t.users[i].active || (j < |t.accounts| && !t.accounts[j].active) then Deactivated
      else Accepted(t.users[i])
  }

  /** The request run alone changes nothing and answers exactly that. */
  lemma LoginAlone(t: Tables, username: string, matches: string -> bool)
    ensures RunAlone(t, Start(Login(username, matches))) == t
    ensures EventsAlone(t, Start(Login(username, matches)))
              == [LoginAnswered(username, LoginOutcome(t, username, matches))]
  {
    var lookup := LoginLookup(username, matches);
    var next := Advance(t, lookup).1;
    StepAlone(t, lookup, t, next);
    EventsStepAlone(t, lookup, t, next);
    if next.LoginCheck? {
      StepAlone(t, next, t, Idle);
      EventsStepAlone(t, next, t, Idle);
    }
  }

  /** User and, for a customer, account are active. */
  ghost predicate MayLogIn(t: Tables, user: User) {
    user.active && forall j :: 0 <= j < |t.accounts| && t.accounts[j].userId == user.id ==> t.accounts[j].active
  }

  ghost predicate Refused(t: Tables, user: User, username: string, matches: string -> bool) {
    user.username == username && matches(user.passwordHash) && !MayLogIn(t, user)
  }

  /** Stopping at the first record of the name agrees with the lookup of any matching user: the login is
      accepted for a user exactly when that user exists, has the name, the password and may log in. */
  lemma LoginIsDeclarative(s: State, username: string, matches: string -> bool, user: User)
    requires Reachable(s)
    ensures LoginOutcome(s.tables, username, matches) == Accepted(user)
            <==> user in s.tables.users && user.username == username && matches(user.passwordHash)
                 && MayLogIn(s.tables, user)
    ensures LoginOutcome(s.tables, username, matches) == Deactivated
            <==> exists k :: 0 <= k < |s.tables.users| && Refused(s.tables, s.tables.users[k], username, matches)
  {
    UsersStayDistinct(s);
    ReachableInv(s);
    var t := s.tables;
    var i := FindUsername(t.users, username);
    forall k | 0 <= k < |t.users| && t.users[k].username == username ensures k == i {
      assert i < k ==> Differ(t.users[i], t.users[k]);
    }
    if i < |t.users| {
      AccountIsTheOne(t, t.users[i].id);
    }
  }

  lemma AccountIsTheOne(t: Tables, id: nat)
    requires AccountPerCustomer(t)
    ensures forall j :: 0 <= j < |t.accounts| && t.accounts[j].userId == id ==> j == FindAccount(t.accounts, id)
  {
  }
}
