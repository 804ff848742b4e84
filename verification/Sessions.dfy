/** The session table: a fixed array of user identifiers under one mutex, 0 for a free slot, and the
    identifier each connection believes it is logged in as. */
module Sessions {

  const MAX_SESSIONS: nat := 100

  function FirstSlot(slots: seq<nat>, value: nat): (i: nat)
    ensures i <= |slots|
    ensures i < |slots| ==> slots[i] == value
    ensures forall j :: 0 <= j < i ==> slots[j] != value
  {
    if |slots| == 0 || slots[0] == value then 0 else 1 + FirstSlot(slots[1..], value)
  }

  /** The mutex-protected part of a login: refused when the user has a slot, lost when no slot is free. */
  function Claim(slots: seq<nat>, user: nat): (seq<nat>, bool) {
    var free := FirstSlot(slots, 0);
    if user in slots || free == |slots| then (slots, false) else (slots[free := user], true)
  }

  function Remove(slots: seq<nat>, user: nat): seq<nat> {
    var i := FirstSlot(slots, user);
    if i == |slots| then slots else slots[i := 0]
  }

  // ----- The array and its loops

  class SessionTable {
    const activeSessions: array<nat>

    constructor ()
      ensures fresh(activeSessions) && activeSessions.Length == MAX_SESSIONS
      ensures forall i :: 0 <= i < MAX_SESSIONS ==> activeSessions[i] == 0
    {
      activeSessions := new nat[MAX_SESSIONS](_ => 0);
    }

    method RemoveActiveSession(user: nat)
      modifies activeSessions
      ensures activeSessions[..] == Remove(old(activeSessions[..]), user)
      ensures user !in old(activeSessions[..]) ==> activeSessions[..] == old(activeSessions[..])
      ensures forall i :: 0 <= i < activeSessions.Length && old(activeSessions[i]) == user
                          && user !in old(activeSessions[..i]) ==>
                activeSessions[..] == old(activeSessions[..])[i := 0]
    {
      var i := 0;
      while i < activeSessions.Length
        invariant 0 <= i <= activeSessions.Length
        invariant activeSessions[..] == old(activeSessions[..])
        invariant forall j :: 0 <= j < i ==> activeSessions[j] != user
      {
        if activeSessions[i] == user {
          assert FirstSlot(activeSessions[..], user) == i;
          activeSessions[i] := 0;
          return;
        }
        i := i + 1;
      }
    }

    /** `already` is the refusal sent to the client; when the table is full the login is reported as a
        success although nothing was stored. */
    method Login(user: nat) returns (already: bool, stored: bool)
      modifies activeSessions
      ensures already <==> user in old(activeSessions[..])
      ensures (activeSessions[..], stored) == Claim(old(activeSessions[..]), user)
      ensures stored <==> user !in old(activeSessions[..]) && 0 in old(activeSessions[..])
      ensures !stored ==> activeSessions[..] == old(activeSessions[..])
      ensures forall i :: 0 <= i < activeSessions.Length && stored && old(activeSessions[i]) == 0
                          && 0 !in old(activeSessions[..i]) ==>
                activeSessions[..] == old(activeSessions[..])[i := user]
    {
      already, stored := false, false;
      var i := 0;
      while i < activeSessions.Length
        invariant 0 <= i <= activeSessions.Length && !already
        invariant activeSessions[..] == old(activeSessions[..])
        invariant forall j :: 0 <= j < i ==> activeSessions[j] != user
      {
        if activeSessions[i] == user {
          already := true;
          return;
        }
        i := i + 1;
      }
      assert user !in activeSessions[..];
      i := 0;
      while i < activeSessions.Length
        invariant 0 <= i <= activeSessions.Length && !stored
        invariant activeSessions[..] == old(activeSessions[..])
        invariant forall j :: 0 <= j < i ==> activeSessions[j] != 0
      {
        if activeSessions[i] == 0 {
          assert FirstSlot(activeSessions[..], 0) == i;
          activeSessions[i] := user;
          stored := true;
          return;
        }
        i := i + 1;
      }
    }
  }

  // ----- The session machine

  /** LoggingOut: between the removal of the session and the reset of the connection's own identifier. */
  datatype Phase = Open | LoggingOut | Closed

  datatype Connection = Connection(currentUser: nat, phase: Phase)

  datatype State = State(slots: seq<nat>, connections: seq<Connection>)

  datatype Step =
    | Connect
    | Login(c: nat, user: nat)
    | LogoutRemove(c: nat)
    | LogoutReset(c: nat)
    | Disconnect(c: nat)

  const INITIAL: State := State(seq(MAX_SESSIONS, _ => 0), [])

  predicate Enabled(s: State, step: Step) {
    match step
    case Connect => true
    case Login(c, user) => c < |s.connections| && s.connections[c].phase == Open && user != 0
    case LogoutRemove(c) => c < |s.connections| && s.connections[c].phase == Open
    case LogoutReset(c) => c < |s.connections| && s.connections[c].phase == LoggingOut
    case Disconnect(c) => c < |s.connections| && s.connections[c].phase == Open
  }

  function Do(s: State, step: Step): State
    requires Enabled(s, step)
  {
    match step
    case Connect => s.(connections := s.connections + [Connection(0, Open)])
    case Login(c, user) =>
      var (slots, stored) := Claim(s.slots, user);
      State(slots, if stored then s.connections[c := s.connections[c].(currentUser := user)] else s.connections)
    case LogoutRemove(c) =>
      State(Remove(s.slots, s.connections[c].currentUser), s.connections[c := s.connections[c].(phase := LoggingOut)])
    case LogoutReset(c) => s.(connections := s.connections[c := Connection(0, Open)])
    case Disconnect(c) =>
      State(if s.connections[c].currentUser != 0 then Remove(s.slots, s.connections[c].currentUser) else s.slots,
            s.connections[c := s.connections[c].(phase := Closed)])
  }

  predicate Owns(conn: Connection) { conn.phase == Open && conn.currentUser != 0 }

  ghost predicate Inv(s: State) {
    && |s.slots| == MAX_SESSIONS
    && (forall i, j :: 0 <= i < j < |s.slots| && s.slots[i] != 0 ==> s.slots[i] != s.slots[j])
    && (forall c, d :: 0 <= c < d < |s.connections| && Owns(s.connections[c]) && Owns(s.connections[d]) ==>
          s.connections[c].currentUser != s.connections[d].currentUser)
    && (forall c :: 0 <= c < |s.connections| && Owns(s.connections[c]) ==> s.connections[c].currentUser in s.slots)
  }

  /** Removing a session frees that user's slot and touches no other. */
  lemma RemoveExactly(slots: seq<nat>, user: nat)
    requires forall i, j :: 0 <= i < j < |slots| && slots[i] != 0 ==> slots[i] != slots[j]
    ensures |Remove(slots, user)| == |slots|
    ensures user != 0 ==> user !in Remove(slots, user)
    ensures forall v :: v != user && v != 0 ==> (v in Remove(slots, user) <==> v in slots)
    ensures forall i, j :: 0 <= i < j < |slots| && Remove(slots, user)[i] != 0 ==>
              Remove(slots, user)[i] != Remove(slots, user)[j]
  {
    var i, slots' := FirstSlot(slots, user), Remove(slots, user);
    forall v | v != user && v != 0 && v in slots ensures v in slots' {
      var k :| 0 <= k < |slots| && slots[k] == v;
      assert slots'[k] == v;
    }
  }

  lemma ClaimExactly(slots: seq<nat>, user: nat)
    requires user != 0
    requires forall i, j :: 0 <= i < j < |slots| && slots[i] != 0 ==> slots[i] != slots[j]
    ensures var (slots', stored) := Claim(slots, user);
            && |slots'| == |slots|
            && (stored <==> user !in slots && 0 in slots)
            && (forall v :: v != 0 ==> (v in slots' <==> v in slots || (stored && v == user)))
            && (forall i, j :: 0 <= i < j < |slots| && slots'[i] != 0 ==> slots'[i] != slots'[j])
  {
    var (slots', stored) := Claim(slots, user);
    var free := FirstSlot(slots, 0);
    if stored {
      assert slots'[free] == user;
      forall v | v != 0 && v in slots ensures v in slots' {
        var k :| 0 <= k < |slots| && slots[k] == v;
        assert slots'[k] == v;
      }
    }
  }

  lemma LoginKeeps(s: State, c: nat, user: nat)
    requires Inv(s) && Enabled(s, Login(c, user))
    ensures Inv(Do(s, Login(c, user)))
  {
    ClaimExactly(s.slots, user);
  }

  lemma LeaveKeeps(s: State, step: Step)
    requires Inv(s) && Enabled(s, step) && (step.LogoutRemove? || step.Disconnect?)
    ensures Inv(Do(s, step))
  {
    RemoveExactly(s.slots, s.connections[step.c].currentUser);
  }

  lemma StepKeeps(s: State, step: Step)
    requires Inv(s) && Enabled(s, step)
    ensures Inv(Do(s, step))
  {
    match step
    case Login(c, user) => LoginKeeps(s, c, user);
    case LogoutRemove(c) => LeaveKeeps(s, step);
    case Disconnect(c) => LeaveKeeps(s, step);
    case _ =>
  }

  ghost predicate Next(s: State, s': State) {
    exists step :: Enabled(s, step) && s' == Do(s, step)
  }

  ghost predicate StepAt(run: seq<State>, i: nat)
    requires i + 1 < |run|
  {
    Next(run[i], run[i + 1])
  }

  ghost predicate IsRun(run: seq<State>) {
    forall i: nat :: i + 1 < |run| ==> StepAt(run, i)
  }

  /** In every run, also with a full table and repeated logins on one connection: no user occupies two slots,
      no two connections own the same user, and every owned user is in the table. */
  lemma {:induction false} NoDoubleLogin(run: seq<State>, k: nat)
    requires k < |run| && IsRun(run) && run[0] == INITIAL
    ensures Inv(run[k])
  {
    if k > 0 {
      NoDoubleLogin(run, k - 1);
      assert StepAt(run, k - 1);
      var step :| Enabled(run[k - 1], step) && run[k] == Do(run[k - 1], step);
      StepKeeps(run[k - 1], step);
    }
  }

  /** Claiming a slot and giving it up again leaves the table as it was. */
  lemma RemoveUndoesClaim(slots: seq<nat>, user: nat)
    requires user != 0 && user !in slots && 0 in slots
    ensures Claim(slots, user).1 && Remove(Claim(slots, user).0, user) == slots
  {
    var free := FirstSlot(slots, 0);
    var slots' := slots[free := user];
    assert slots'[free] == user && forall j :: 0 <= j < free ==> slots'[j] in slots;
    assert FirstSlot(slots', user) == free;
    assert slots'[free := 0] == slots;
  }

  /** A stored login followed by the two halves of a logout restores table and connection: the same connection can
      log in again, as this user or as another. A disconnect frees the slot and ends the connection. */
  lemma LeavingUndoesLogin(s: State, c: nat, user: nat)
    requires c < |s.connections| && s.connections[c] == Connection(0, Open)
    requires user != 0 && user !in s.slots && 0 in s.slots
    ensures var s1 := Do(s, Login(c, user));
            && Enabled(s1, LogoutRemove(c)) && Enabled(Do(s1, LogoutRemove(c)), LogoutReset(c))
            && Do(Do(s1, LogoutRemove(c)), LogoutReset(c)) == s
            && Enabled(s1, Disconnect(c)) && Do(s1, Disconnect(c)).slots == s.slots
            && forall step: Step :: step.Disconnect? || step.LogoutRemove? || step.LogoutReset? || step.Login? ==>
                 (step.c == c ==> !Enabled(Do(s1, Disconnect(c)), step))
  {
    RemoveUndoesClaim(s.slots, user);
    var s1 := Do(s, Login(c, user));
    var connections := s1.connections[c := s1.connections[c].(phase := LoggingOut)][c := Connection(0, Open)];
    assert connections == s.connections;
  }

  // ----- Runs in which no connection logs in while it holds a session

  predicate Orderly(s: State, step: Step)
    requires Enabled(s, step)
  {
    step.Login? ==> s.connections[step.c].currentUser == 0
  }

  ghost predicate OrderlyNext(s: State, s': State) {
    exists step :: Enabled(s, step) && Orderly(s, step) && s' == Do(s, step)
  }

  ghost predicate OrderlyAt(run: seq<State>, i: nat)
    requires i + 1 < |run|
  {
    OrderlyNext(run[i], run[i + 1])
  }

  ghost predicate OrderlyRun(run: seq<State>) {
    forall i: nat :: i + 1 < |run| ==> OrderlyAt(run, i)
  }

  ghost predicate OwnedBySomeone(s: State, user: nat) {
    exists c :: 0 <= c < |s.connections| && Owns(s.connections[c]) && s.connections[c].currentUser == user
  }

  ghost predicate Tracked(s: State) {
    forall user: nat :: user != 0 && user in s.slots ==> OwnedBySomeone(s, user)
  }

  lemma StepKeepsTracked(s: State, step: Step)
    requires Inv(s) && Tracked(s) && Enabled(s, step) && Orderly(s, step)
    ensures Tracked(Do(s, step))
  {
    var s' := Do(s, step);
    if step.Login? {
      ClaimExactly(s.slots, step.user);
    } else if step.LogoutRemove? || step.Disconnect? {
      RemoveExactly(s.slots, s.connections[step.c].currentUser);
    }
    forall user: nat | user != 0 && user in s'.slots ensures OwnedBySomeone(s', user) {
      if user in s.slots {
        var c :| 0 <= c < |s.connections| && Owns(s.connections[c]) && s.connections[c].currentUser == user;
        assert Owns(s'.connections[c]) && s'.connections[c].currentUser == user;
      } else {
        assert step.Login? && Owns(s'.connections[step.c]) && s'.connections[step.c].currentUser == user;
      }
    }
  }

  /** In orderly runs the occupied slots are exactly the users owned by connections. */
  lemma {:induction false} SlotsAreOwners(run: seq<State>, k: nat, user: nat)
    requires k < |run| && OrderlyRun(run) && run[0] == INITIAL
    ensures Inv(run[k]) && Tracked(run[k])
    ensures user != 0 ==> (user in run[k].slots <==> OwnedBySomeone(run[k], user))
  {
    if k > 0 {
      SlotsAreOwners(run, k - 1, user);
      assert OrderlyAt(run, k - 1);
      var step :| Enabled(run[k - 1], step) && Orderly(run[k - 1], step) && run[k] == Do(run[k - 1], step);
      StepKeeps(run[k - 1], step);
      StepKeepsTracked(run[k - 1], step);
    }
  }

  // ----- Pigeonhole

  ghost function LiveConnections(s: State): set<nat> {
    set c: nat | 0 <= c < |s.connections| && s.connections[c].phase != Closed
  }

  function Values(slots: seq<nat>): set<nat> { set v: nat | v in slots }

  lemma {:induction false} DistinctValues(slots: seq<nat>)
    requires forall i, j :: 0 <= i < j < |slots| ==> slots[i] != slots[j]
    ensures |Values(slots)| == |slots|
  {
    if |slots| > 0 {
      var front, last := slots[..|slots| - 1], slots[|slots| - 1];
      DistinctValues(front);
      assert slots == front + [last] && last !in Values(front);
      assert Values(slots) == Values(front) + {last};
    }
  }

  ghost predicate OwnedWithin(s: State, owners: set<nat>, user: nat) {
    exists c :: c in owners && c < |s.connections| && s.connections[c].currentUser == user
  }

  /** No more users than connections that own them. */
  lemma {:induction false} UsersAtMostOwners(s: State, owners: set<nat>, users: set<nat>)
    requires forall c :: c in owners ==> c < |s.connections|
    requires forall user :: user in users ==> OwnedWithin(s, owners, user)
    ensures |users| <= |owners|
    decreases owners
  {
    if c :| c in owners {
      var rest := users - {s.connections[c].currentUser};
      forall user | user in rest ensures OwnedWithin(s, owners - {c}, user) {
        var d :| d in owners && d < |s.connections| && s.connections[d].currentUser == user;
        assert d in owners - {c};
      }
      UsersAtMostOwners(s, owners - {c}, rest);
    } else {
      assert forall user :: !OwnedWithin(s, owners, user);
      assert users == {};
    }
  }

  lemma TakenSlotIsOwned(s: State, c: nat, user: nat)
    requires Tracked(s) && user != 0 && user in s.slots
    requires c < |s.connections| && s.connections[c] == Connection(0, Open)
    ensures OwnedWithin(s, LiveConnections(s) - {c}, user)
  {
    var d :| 0 <= d < |s.connections| && Owns(s.connections[d]) && s.connections[d].currentUser == user;
    assert d in LiveConnections(s) - {c};
  }

  lemma SlotsAtMostOwners(s: State, owners: set<nat>)
    requires forall c :: c in owners ==> c < |s.connections|
    requires forall i, j :: 0 <= i < j < |s.slots| ==> s.slots[i] != s.slots[j]
    requires forall user :: user in s.slots ==> OwnedWithin(s, owners, user)
    ensures |s.slots| <= |owners|
  {
    DistinctValues(s.slots);
    UsersAtMostOwners(s, owners, Values(s.slots));
  }

  /** When every slot is taken, every slot has a connection of its own, besides one that owns nothing. */
  lemma TakenSlotsHaveOwners(s: State, c: nat)
    requires Inv(s) && Tracked(s) && 0 !in s.slots
    requires c < |s.connections| && s.connections[c] == Connection(0, Open)
    ensures |s.slots| < |LiveConnections(s)|
  {
    var owners := LiveConnections(s) - {c};
    forall user | user in s.slots ensures OwnedWithin(s, owners, user) {
      TakenSlotIsOwned(s, c, user);
    }
    SlotsAtMostOwners(s, owners);
    assert LiveConnections(s) == owners + {c};
  }

  /** With at most MAX_SESSIONS live connections, a login accepted on a connection without a session always
      finds a free slot. */
  lemma LoginFindsSlot(run: seq<State>, k: nat, c: nat, user: nat)
    requires k < |run| && OrderlyRun(run) && run[0] == INITIAL
    requires |LiveConnections(run[k])| <= MAX_SESSIONS
    requires c < |run[k].connections| && run[k].connections[c] == Connection(0, Open)
    requires user != 0 && user !in run[k].slots
    ensures Claim(run[k].slots, user).1 && user in Claim(run[k].slots, user).0
  {
    SlotsAreOwners(run, k, user);
    if 0 !in run[k].slots {
      TakenSlotsHaveOwners(run[k], c);
    }
    ClaimExactly(run[k].slots, user);
  }

  // ----- Without that discipline a slot can leak, and then it stays occupied

  ghost predicate Leaked(s: State, user: nat) {
    user != 0 && user in s.slots && !OwnedBySomeone(s, user)
  }

  /** A slot leaks exactly when a connection that owns a user logs in again as a user without a slot while
      a slot is free. */
  lemma LeaksExactly(s: State, step: Step, user: nat)
    requires Inv(s) && Enabled(s, step) && !Leaked(s, user)
    ensures Leaked(Do(s, step), user)
            <==> step.Login? && user != 0 && s.connections[step.c].currentUser == user
                 && step.user !in s.slots && 0 in s.slots
  {
    var s' := Do(s, step);
    if step.Login? {
      ClaimExactly(s.slots, step.user);
    } else if step.LogoutRemove? || step.Disconnect? {
      RemoveExactly(s.slots, s.connections[step.c].currentUser);
    }
    if user != 0 && user in s.slots {
      var c :| 0 <= c < |s.connections| && Owns(s.connections[c]) && s.connections[c].currentUser == user;
      if s'.connections[c] == s.connections[c] {
        assert OwnedBySomeone(s', user);
      }
    } else if step.Login? && step.user == user {
      assert user in s'.slots && user != 0 ==>
            Owns(s'.connections[step.c]) && s'.connections[step.c].currentUser == user;
    }
  }

  /** Nobody can free a leaked slot: its user is refused at every later login. */
  lemma {:induction false} LeakIsForever(run: seq<State>, k: nat, user: nat)
    requires k < |run| && IsRun(run) && Inv(run[0]) && Leaked(run[0], user)
    ensures Inv(run[k]) && Leaked(run[k], user) && !Claim(run[k].slots, user).1
  {
    if k > 0 {
      LeakIsForever(run, k - 1, user);
      assert StepAt(run, k - 1);
      var step :| Enabled(run[k - 1], step) && run[k] == Do(run[k - 1], step);
      StepKeeps(run[k - 1], step);
      LeakPersists(run[k - 1], step, user);
    }
  }

  lemma LeakPersists(s: State, step: Step, user: nat)
    requires Inv(s) && Enabled(s, step) && Leaked(s, user)
    ensures Leaked(Do(s, step), user)
  {
    var s' := Do(s, step);
    if step.Login? {
      ClaimExactly(s.slots, step.user);
    } else if step.LogoutRemove? || step.Disconnect? {
      assert s.connections[step.c].currentUser != user by {
        assert Owns(s.connections[step.c]) || s.connections[step.c].currentUser == 0;
      }
      RemoveExactly(s.slots, s.connections[step.c].currentUser);
    }
    forall c | 0 <= c < |s'.connections| ensures !(Owns(s'.connections[c]) && s'.connections[c].currentUser == user) {
      assert c < |s.connections| ==> !(Owns(s.connections[c]) && s.connections[c].currentUser == user);
    }
  }

  // ----- Both happen

  lemma RunGrows(run: seq<State>, step: Step) returns (longer: seq<State>)
    requires |run| > 0 && IsRun(run) && Enabled(run[|run| - 1], step)
    ensures IsRun(longer) && longer == run + [Do(run[|run| - 1], step)]
    ensures OrderlyRun(run) && Orderly(run[|run| - 1], step) ==> OrderlyRun(longer)
  {
    var last := run[|run| - 1];
    longer := run + [Do(last, step)];
    assert Next(last, Do(last, step));
    forall i: nat | i + 1 < |longer| ensures StepAt(longer, i) {
      assert i + 1 < |run| ==> StepAt(run, i);
    }
    if OrderlyRun(run) && Orderly(last, step) {
      assert OrderlyNext(last, Do(last, step));
      forall i: nat | i + 1 < |longer| ensures OrderlyAt(longer, i) {
        assert i + 1 < |run| ==> OrderlyAt(run, i);
      }
    }
  }

  /** The first n slots are taken by users 1001, 1002, … */
  function Taken(n: nat): seq<nat>
    requires n <= MAX_SESSIONS
  {
    seq(MAX_SESSIONS, i => if i < n then 1001 + i else 0)
  }

  lemma TakesNextSlot(n: nat)
    requires n < MAX_SESSIONS
    ensures Claim(Taken(n), 1001 + n) == (Taken(n + 1), true)
  {
    assert Taken(n)[n] == 0;
    assert FirstSlot(Taken(n), 0) == n;
    assert Taken(n)[n := 1001 + n] == Taken(n + 1);
  }

  /** The first n connections own users 1001, 1002, … and one more has just connected. */
  function Crowd(n: nat): State
    requires n <= MAX_SESSIONS
  {
    State(Taken(n), seq(n, i requires 0 <= i < n => Connection(1001 + i, Open)) + [Connection(0, Open)])
  }

  lemma {:induction false} CrowdGathers(n: nat) returns (run: seq<State>)
    requires n <= MAX_SESSIONS
    ensures |run| > 0 && IsRun(run) && OrderlyRun(run) && run[0] == INITIAL && run[|run| - 1] == Crowd(n)
  {
    if n == 0 {
      run := RunGrows([INITIAL], Connect);
      assert INITIAL.slots == Taken(0);
    } else {
      run := CrowdGathers(n - 1);
      TakesNextSlot(n - 1);
      run := RunGrows(run, Login(n - 1, 1000 + n));
      run := RunGrows(run, Connect);
      assert run[|run| - 1] == Crowd(n);
    }
  }

  /** A connection that logs in twice leaks the slot of its first user. */
  lemma SessionCanLeak() returns (run: seq<State>)
    ensures IsRun(run) && |run| > 0 && run[0] == INITIAL && Leaked(run[|run| - 1], 1001)
  {
    run := CrowdGathers(1);
    NoDoubleLogin(run, |run| - 1);
    assert Owns(Crowd(1).connections[0]) && Crowd(1).connections[0].currentUser == 1001;
    ClaimExactly(Taken(1), 1002);
    assert Taken(1)[1] == 0;
    LeaksExactly(Crowd(1), Login(0, 1002), 1001);
    run := RunGrows(run, Login(0, 1002));
  }

  /** The bound of LoginFindsSlot is tight: with one connection more, every slot is taken and an accepted login
      on the last connection leaves table and connection as they were. */
  lemma LoginCanBeLost() returns (run: seq<State>, c: nat, user: nat)
    ensures |run| > 0 && OrderlyRun(run) && run[0] == INITIAL
    ensures var s := run[|run| - 1];
            && |s.connections| == MAX_SESSIONS + 1 && c < |s.connections| && s.connections[c] == Connection(0, Open)
            && Enabled(s, Login(c, user))
            && user !in s.slots && Do(s, Login(c, user)) == s
  {
    run := CrowdGathers(MAX_SESSIONS);
    c, user := MAX_SESSIONS, 1001 + MAX_SESSIONS;
    ClaimExactly(Taken(MAX_SESSIONS), user);
  }
}
