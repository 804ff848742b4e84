/** What a login answers while other threads run: the record of the name is read first and the account later,
    and other threads may step in between. */
module Logins {
  import opened Records
  import opened Bank
  import opened BankInvariant
  import opened Directory
  import opened Locking
  import opened Refinement

  /** The user the thread has found is still stored as it was read. */
  predicate Stored(users: seq<User>, user: User) {
    var i := FindUsername(users, user.username);
    i < |users| && users[i] == user
  }

  predicate InLogin(pc: PC) { pc.LoginLookup? || pc.LoginCheck? }

  function LoginName(pc: PC): string
    requires InLogin(pc)
  {
    if pc.LoginLookup? then pc.username else pc.found.username
  }

  /** The answer of an undisturbed login to the tables. */
  function OutcomeNow(t: Tables, pc: PC): Event
    requires InLogin(pc)
  {
    LoginAnswered(LoginName(pc), LoginOutcome(t, LoginName(pc), pc.matches))
  }

  /** A login step answers what an undisturbed login would, or finds the user and answers nothing yet. */
  lemma AnswerIsOutcome(t: Tables, pc: PC)
    requires pc.LoginLookup? || (pc.LoginCheck? && Stored(t.users, pc.found) && pc.matches(pc.found.passwordHash))
    ensures Events(t, pc) == if Advance(t, pc).1.LoginCheck? then [] else [OutcomeNow(t, pc)]
    ensures Advance(t, pc).1.Idle? || Advance(t, pc).1.LoginCheck?
  {
  }

  lemma FoundIsStored(t: Tables, pc: PC)
    requires Advance(t, pc).1.LoginCheck?
    ensures pc.LoginLookup? && Advance(t, pc).0 == t
    ensures var found := Advance(t, pc).1;
            && found.matches == pc.matches && found.matches(found.found.passwordHash)
            && found.found.username == pc.username && Stored(t.users, found.found)
  {
  }

  // ----- With or without locks around searches

  /** The thread's found user was stored in these users, and the password matched. */
  predicate CheckOk(users: seq<User>, pc: PC)
    requires pc.LoginCheck?
  {
    Stored(users, pc.found) && pc.matches(pc.found.passwordHash)
  }

  // ----- A login from its request on

  /** Other threads' steps leave a busy thread alone; its own step is the one in front of it. */
  lemma FollowsThread(s: State, s': State, k: nat)
    requires Follows(s, s') && k < |s.threads| && !s.threads[k].Idle?
    ensures k < |s'.threads|
    ensures s'.threads[k] == s.threads[k] || s'.threads[k] == Advance(s.tables, s.threads[k]).1
  {
    if s != s' {
      var step :| Enabled(s, step) && s' == Do(s, step);
    }
  }

  /** Thread k is in state m of the run, and busy. */
  predicate BusyAt(run: seq<State>, m: nat, k: nat) {
    m < |run| && k < |run[m].threads| && !run[m].threads[k].Idle?
  }

  /** In state j, after b and before m, thread k looked this name up and found this user with this password. */
  ghost predicate FoundAt(run: seq<State>, b: nat, j: nat, m: nat, k: nat, pc: PC)
    requires pc.LoginCheck?
  {
    && b < j < m && j < |run| && k < |run[j].threads|
    && run[j].threads[k] == LoginLookup(pc.found.username, pc.matches) && CheckOk(run[j].tables.users, pc)
  }

  /** Thread k is still in the login of this name and password that it began after state b. */
  ghost predicate InLoginOf(run: seq<State>, b: nat, m: nat, k: nat, name: string, matches: string -> bool) {
    && m < |run| && k < |run[m].threads| && InLogin(run[m].threads[k])
    && LoginName(run[m].threads[k]) == name && run[m].threads[k].matches == matches
    && (run[m].threads[k].LoginCheck? ==> exists j: nat :: FoundAt(run, b, j, m, k, run[m].threads[k]))
  }

  /** A thread that stays busy stays in its login; it leaves the lookup with the user it has found there. */
  lemma LoginStep(s: State, s': State, k: nat)
    requires Follows(s, s') && k < |s.threads| && InLogin(s.threads[k])
    requires k < |s'.threads| && !s'.threads[k].Idle?
    ensures var (pc, pc') := (s.threads[k], s'.threads[k]);
            || pc' == pc
            || (pc'.LoginCheck? && CheckOk(s.tables.users, pc') && pc == LoginLookup(pc'.found.username, pc'.matches))
  {
    FollowsThread(s, s', k);
    if s'.threads[k] != s.threads[k] {
      LoginAdvance(s.tables, s.threads[k]);
    }
  }

  lemma LoginAdvance(t: Tables, pc: PC)
    requires InLogin(pc) && !Advance(t, pc).1.Idle?
    ensures var pc' := Advance(t, pc).1;
            pc'.LoginCheck? && CheckOk(t.users, pc') && pc == LoginLookup(pc'.found.username, pc'.matches)
  {
  }

  lemma LoginGoesOn(run: seq<State>, b: nat, m: nat, k: nat, name: string, matches: string -> bool)
    requires b < m && m + 1 < |run| && Follows(run[m], run[m + 1])
    requires InLoginOf(run, b, m, k, name, matches) && BusyAt(run, m + 1, k)
    ensures InLoginOf(run, b, m + 1, k, name, matches)
  {
    var pc, pc' := run[m].threads[k], run[m + 1].threads[k];
    LoginStep(run[m], run[m + 1], k);
    if pc.LoginCheck? {
      var j: nat :| FoundAt(run, b, j, m, k, pc);
      assert FoundAt(run, b, j, m + 1, k, pc');
    } else if pc' != pc {
      assert FoundAt(run, b, m, m + 1, k, pc');
    }
  }

  /** From its request until it ends, a thread is in the login it was asked for. */
  lemma {:induction false} LoginContinues(run: seq<State>, b: nat, m: nat, k: nat, name: string,
                                          matches: string -> bool)
    requires IsRun(run) && b < m < |run|
    requires k < |run[b + 1].threads| && run[b + 1].threads[k] == LoginLookup(name, matches)
    requires forall n: nat :: b < n <= m ==> BusyAt(run, n, k)
    ensures InLoginOf(run, b, m, k, name, matches)
  {
    if m > b + 1 {
      LoginContinues(run, b, m - 1, k, name, matches);
      assert StepAt(run, m - 1) && BusyAt(run, m, k);
      LoginGoesOn(run, b, m - 1, k, name, matches);
    }
  }

  // ----- What file accesses answer

  /** The file access in front of thread k ends its login with the answer of an undisturbed login on these users
      and the accounts as they are, or leaves the thread inside the login and answers nothing. */
  predicate Answers(f: Fine, k: nat, users: seq<User>)
    requires k < |f.threads| && InLogin(f.threads[k].pc)
  {
    var pc := f.threads[k].pc;
    var (_, events, th') := FileAccess(f.scanLocks, f.tables, f.threads[k]);
    (th'.pc.Idle? && events == [OutcomeNow(f.tables.(users := users), pc)]) || (InLogin(th'.pc) && events == [])
  }

  lemma AccessAnswers(f: Fine, k: nat, users: seq<User>)
    requires FineInv(f) && FineEnabled(f, Access(k)) && InLogin(f.threads[k].pc)
    requires if f.threads[k].pc.LoginLookup? then users == f.tables.users else CheckOk(users, f.threads[k].pc)
    ensures Answers(f, k, users)
  {
    var pc := f.threads[k].pc;
    assert PcOk(f.tables, Abs(f).threads[k]) && MicroOk(f.tables, f.threads[k]);
    AccessAdvances(f.scanLocks, f.tables, f.threads[k]);
    AnswerIsOutcome(f.tables.(users := users), pc);
    OnlyAccountsAreRead(f.tables, users, pc);
  }

  /** After its lookup a login reads no user record. */
  lemma OnlyAccountsAreRead(t: Tables, users: seq<User>, pc: PC)
    requires pc.LoginCheck? || (pc.LoginLookup? && users == t.users)
    ensures Events(t.(users := users), pc) == Events(t, pc)
    ensures Advance(t.(users := users), pc).1 == Advance(t, pc).1
  {
  }

  /** In step b of the run thread k is asked to log this name in. */
  ghost predicate RequestedAt(run: seq<Fine>, b: nat, k: nat, name: string, matches: string -> bool) {
    && b + 1 < |run| && FineEnabled(run[b], FineBegin(k, Login(name, matches)))
    && run[b + 1] == FineDo(run[b], FineBegin(k, Login(name, matches)))
  }

  /** Thread k has been busy since step b. */
  ghost predicate BusySince(run: seq<Fine>, b: nat, i: nat, k: nat) {
    i < |run| && forall n: nat :: b < n <= i ==> BusyAt(AbsRun(run), n, k)
  }

  lemma RequestedLogin(run: seq<Fine>, scanLocks: bool, b: nat, i: nat, k: nat, name: string, matches: string -> bool)
    requires FineRun(run) && |run| > 0 && run[0] == FineInitial(scanLocks)
    requires RequestedAt(run, b, k, name, matches) && b < i && BusySince(run, b, i, k)
    ensures InLoginOf(AbsRun(run), b, i, k, name, matches)
  {
    FineRunsAreAtomicRuns(run, scanLocks);
    assert AbsRun(run)[b + 1].threads[k] == Start(Login(name, matches));
    LoginContinues(AbsRun(run), b, i, k, name, matches);
  }

  /** The answer to a request to log `name` in with this password, on these users and accounts. */
  function AnswerTo(users: seq<User>, t: Tables, name: string, matches: string -> bool): Event {
    LoginAnswered(name, LoginOutcome(t.(users := users), name, matches))
  }

  lemma LookupOf(run: seq<Fine>, b: nat, i: nat, k: nat, name: string, matches: string -> bool) returns (j: nat)
    requires InLoginOf(AbsRun(run), b, i, k, name, matches) && b < i < |run|
    ensures b < j <= i && k < |run[j].threads| && run[j].threads[k].pc == LoginLookup(name, matches)
    ensures var pc := run[i].threads[k].pc;
            if pc.LoginLookup? then j == i else CheckOk(run[j].tables.users, pc)
  {
    var pc := run[i].threads[k].pc;
    assert AbsRun(run)[i].threads[k] == pc;
    j := i;
    if pc.LoginCheck? {
      j :| FoundAt(AbsRun(run), b, j, i, k, pc);
    }
  }

  lemma AnswerToRequest(f: Fine, k: nat, users: seq<User>, name: string, matches: string -> bool)
    requires FineInv(f) && FineEnabled(f, Access(k)) && InLogin(f.threads[k].pc)
    requires LoginName(f.threads[k].pc) == name && f.threads[k].pc.matches == matches
    requires if f.threads[k].pc.LoginLookup? then users == f.tables.users else CheckOk(users, f.threads[k].pc)
    ensures var (_, events, th') := FileAccess(f.scanLocks, f.tables, f.threads[k]);
            events == if th'.pc.Idle? then [AnswerTo(users, f.tables, name, matches)] else []
  {
    AccessAnswers(f, k, users);
  }

  /** In every run of file accesses, with or without effective search locks: from a request to log a name in to
      the end of that login, an access answers nothing until the one that ends it, and that one answers as an
      undisturbed login of that name and password would on the users of the state in which the login made its
      lookup and the accounts as they are. */
  lemma LoginAnswersFromRun(run: seq<Fine>, scanLocks: bool, b: nat, i: nat, k: nat, name: string,
                            matches: string -> bool)
      returns (j: nat)
    requires FineRun(run) && |run| > 0 && run[0] == FineInitial(scanLocks)
    requires RequestedAt(run, b, k, name, matches) && b < i && BusySince(run, b, i, k)
    requires FineEnabled(run[i], Access(k))
    ensures b < j <= i && k < |run[j].threads| && run[j].threads[k].pc == LoginLookup(name, matches)
    ensures var (_, events, th') := FileAccess(run[i].scanLocks, run[i].tables, run[i].threads[k]);
            events == if th'.pc.Idle? then [AnswerTo(run[j].tables.users, run[i].tables, name, matches)] else []
  {
    RequestedLogin(run, scanLocks, b, i, k, name, matches);
    InitialFineInv(scanLocks);
    FineRunKeeps(run, i);
    j := LookupOf(run, b, i, k, name, matches);
    AnswerToRequest(run[i], k, run[j].tables.users, name, matches);
  }

  /** A thread in a login was in it before the step, or has just been asked for it. */
  lemma ComesFromLogin(f: Fine, step: FineStep, k: nat) returns (again: bool)
    requires FineInv(f) && FineEnabled(f, step)
    requires k < |FineDo(f, step).threads| && InLogin(FineDo(f, step).threads[k].pc)
    ensures again ==> k < |f.threads| && InLogin(f.threads[k].pc)
    ensures !again ==> step.FineBegin? && step.thread == k && step.request.Login?
  {
    again := k < |f.threads| && InLogin(f.threads[k].pc);
    if step == Access(k) {
      assert PcOk(f.tables, Abs(f).threads[k]);
      AccessAdvances(f.scanLocks, f.tables, f.threads[k]);
      if !Approaches(f.scanLocks, f.tables, f.threads[k]) {
        OnlyLoginsLogIn(f.tables, f.threads[k].pc);
      }
    }
  }

  lemma LoginAtStep(run: seq<Fine>, i: nat, k: nat) returns (again: bool, name: string, matches: string -> bool)
    requires i + 1 < |run| && FineInv(run[i]) && FineStepAt(run, i)
    requires k < |run[i + 1].threads| && InLogin(run[i + 1].threads[k].pc)
    ensures again ==> k < |run[i].threads| && InLogin(run[i].threads[k].pc)
    ensures !again ==> RequestedAt(run, i, k, name, matches)
  {
    var step :| FineEnabled(run[i], step) && run[i + 1] == FineDo(run[i], step);
    again := ComesFromLogin(run[i], step, k);
    name, matches := "", _ => false;
    if !again {
      name, matches := step.request.username, step.request.matches;
    }
  }

  lemma StillBusy(run: seq<Fine>, b: nat, i: nat, k: nat)
    requires i + 1 < |run| && (b == i || (b < i && BusySince(run, b, i, k)))
    requires k < |run[i + 1].threads| && !run[i + 1].threads[k].pc.Idle?
    ensures BusySince(run, b, i + 1, k)
  {
    assert BusyAt(AbsRun(run), i + 1, k);
  }

  /** Every login of a run was requested: the result above speaks of all of them. */
  lemma {:induction false} LoginWasRequested(run: seq<Fine>, scanLocks: bool, i: nat, k: nat)
      returns (b: nat, name: string, matches: string -> bool)
    requires FineRun(run) && |run| > 0 && run[0] == FineInitial(scanLocks)
    requires i < |run| && k < |run[i].threads| && InLogin(run[i].threads[k].pc)
    ensures b < i && RequestedAt(run, b, k, name, matches) && BusySince(run, b, i, k)
  {
    InitialFineInv(scanLocks);
    FineRunKeeps(run, i - 1);
    assert FineStepAt(run, i - 1);
    var again;
    again, name, matches := LoginAtStep(run, i - 1, k);
    b := i - 1;
    if again {
      b, name, matches := LoginWasRequested(run, scanLocks, i - 1, k);
    }
    StillBusy(run, b, i - 1, k);
  }

  lemma OnlyLoginsLogIn(t: Tables, pc: PC)
    requires InLogin(Advance(t, pc).1)
    ensures InLogin(pc)
  {
  }

  // ----- When the lock around a login takes effect

  /** Every thread between lookup and account read still has the record it found. */
  ghost predicate FoundCurrent(f: Fine) {
    forall k :: 0 <= k < |f.threads| && f.threads[k].pc.LoginCheck? ==> CheckOk(f.tables.users, f.threads[k].pc)
  }

  lemma StoredPersists(users: seq<User>, users': seq<User>, user: User)
    requires users <= users' && Stored(users, user)
    ensures Stored(users', user)
  {
    assert users'[FindUsername(users, user.username)] == user;
  }

  /** While a thread is inside a login, no other thread writes a user record. */
  lemma LoginExcludesUserWrites(f: Fine, k: nat, j: nat)
    requires FineInv(f) && f.scanLocks && k < |f.threads| && j < |f.threads| && k != j && f.threads[j].pc.LoginCheck?
    ensures FileAccess(f.scanLocks, f.tables, f.threads[k]).0.users == f.tables.users
  {
    WritesUnderLock(f.scanLocks, f.tables, f.threads[k]);
    assert Compatible(Holds(f.scanLocks, f.threads[k]), Holds(f.scanLocks, f.threads[j]));
    forall i: nat ensures Record(UsersFile, i) !in Holds(f.scanLocks, f.threads[k]) {
      assert Conflict(Record(UsersFile, i), Whole(UsersFile));
      assert Whole(UsersFile) in Holds(f.scanLocks, f.threads[j]);
    }
  }

  lemma OwnCheckOk(f: Fine, k: nat)
    requires FineInv(f) && FoundCurrent(f) && FineEnabled(f, Access(k))
    requires FileAccess(f.scanLocks, f.tables, f.threads[k]).2.pc.LoginCheck?
    ensures var (t', events, th') := FileAccess(f.scanLocks, f.tables, f.threads[k]); CheckOk(t'.users, th'.pc)
  {
    assert PcOk(f.tables, Abs(f).threads[k]);
    AccessAdvances(f.scanLocks, f.tables, f.threads[k]);
    if !Approaches(f.scanLocks, f.tables, f.threads[k]) {
      FoundIsStored(f.tables, f.threads[k].pc);
    }
  }

  lemma AccessKeepsFound(f: Fine, k: nat)
    requires FineInv(f) && f.scanLocks && FoundCurrent(f) && FineEnabled(f, Access(k))
    ensures FoundCurrent(FineDo(f, Access(k)))
  {
    var f' := FineDo(f, Access(k));
    forall j | 0 <= j < |f'.threads| && f'.threads[j].pc.LoginCheck?
      ensures CheckOk(f'.tables.users, f'.threads[j].pc)
    {
      if j == k {
        OwnCheckOk(f, k);
      } else {
        LoginExcludesUserWrites(f, k, j);
      }
    }
  }

  lemma AdminKeepsFound(f: Fine, cmd: Command)
    requires FineInv(f) && f.scanLocks && FoundCurrent(f) && FineEnabled(f, FineAdmin(cmd))
    ensures FoundCurrent(FineDo(f, FineAdmin(cmd)))
  {
    var users, users' := f.tables.users, Administer(f.tables, cmd).users;
    forall j | 0 <= j < |f.threads| && f.threads[j].pc.LoginCheck? ensures CheckOk(users', f.threads[j].pc) {
      assert Whole(UsersFile) in Holds(f.scanLocks, f.threads[j]);
      assert Edits(cmd) ==> Conflict(Whole(UsersFile), Record(UsersFile, FindUser(users, cmd.user)));
      AdminTouches(f.tables, cmd);
      StoredPersists(users, users', f.threads[j].pc.found);
    }
  }

  lemma StepKeepsFound(f: Fine, step: FineStep)
    requires FineInv(f) && f.scanLocks && FoundCurrent(f) && FineEnabled(f, step)
    ensures FoundCurrent(FineDo(f, step))
  {
    match step
    case Access(k) => AccessKeepsFound(f, k);
    case FineAdmin(cmd) => AdminKeepsFound(f, cmd);
    case FineBegin(k, req) => assert !Start(req).LoginCheck?;
    case _ =>
  }

  lemma NextKeepsFound(f: Fine, f': Fine)
    requires FineInv(f) && f.scanLocks && FoundCurrent(f) && FineNext(f, f')
    ensures f'.scanLocks && FoundCurrent(f')
  {
    var step :| FineEnabled(f, step) && f' == FineDo(f, step);
    StepKeepsFound(f, step);
  }

  lemma {:induction false} RunKeepsFound(run: seq<Fine>, n: nat)
    requires n < |run| && FineRun(run) && FineInv(run[0]) && run[0].scanLocks && FoundCurrent(run[0])
    ensures run[n].scanLocks && FoundCurrent(run[n])
  {
    if n > 0 {
      RunKeepsFound(run, n - 1);
      FineRunKeeps(run, n - 1);
      assert FineStepAt(run, n - 1);
      NextKeepsFound(run[n - 1], run[n]);
    }
  }

  /** With effective search locks the access that ends a requested login answers as an undisturbed login of that
      name and password would at that instant, whatever other threads do meanwhile. */
  lemma LoginAnswersNow(run: seq<Fine>, b: nat, i: nat, k: nat, name: string, matches: string -> bool)
    requires FineRun(run) && |run| > 0 && run[0] == FineInitial(true)
    requires RequestedAt(run, b, k, name, matches) && b < i && BusySince(run, b, i, k)
    requires FineEnabled(run[i], Access(k))
    ensures var (_, events, th') := FileAccess(run[i].scanLocks, run[i].tables, run[i].threads[k]);
            events == if th'.pc.Idle? then [LoginAnswered(name, LoginOutcome(run[i].tables, name, matches))] else []
  {
    RequestedLogin(run, true, b, i, k, name, matches);
    InitialFineInv(true);
    FineRunKeeps(run, i);
    RunKeepsFound(run, i);
    assert AbsRun(run)[i].threads[k] == run[i].threads[k].pc;
    AnswerToRequest(run[i], k, run[i].tables.users, name, matches);
    assert run[i].tables.(users := run[i].tables.users) == run[i].tables;
  }
}
