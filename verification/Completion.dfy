/** Operations come to their end: every file access and every release uses up rank, so however accesses and
    releases are scheduled the operations under way finish, and deadlock freedom says that none of them stops
    before. Connections and edits leave the rank as it is; a creation can lengthen a search, but never adds an
    atomic step. The same rank shows that a thread that shares no lock with others can always finish its step
    undisturbed. */
module Completion {
  import opened Folds
  import opened Records
  import opened Bank
  import opened BankInvariant
  import opened Locking
  import opened Refinement
  import opened Deadlock
  import opened Sequential
  import opened Guarantees

  // ----- Rank of the whole machine

  function OperationRank(th: Thread): nat { Rank(th.pc) }
  function MicroRankIn(t: Tables): Thread -> nat { th => MicroRank(t, th) }

  /** Atomic steps left at most, over all threads. */
  ghost function StepsLeft(f: Fine): nat { Total(OperationRank, f.threads) }

  /** Accesses and releases left at most within the steps in front of the threads. */
  ghost function AccessesLeft(f: Fine): nat { Total(MicroRankIn(f.tables), f.threads) }

  ghost predicate Nearer(f: Fine, f': Fine) {
    StepsLeft(f') < StepsLeft(f) || (StepsLeft(f') == StepsLeft(f) && AccessesLeft(f') < AccessesLeft(f))
  }

  predicate IsProgress(step: FineStep) { step.Access? || step.Release? }

  lemma AccessIsNearer(f: Fine, k: nat)
    requires FineInv(f) && FineEnabled(f, Access(k))
    ensures Nearer(f, FineDo(f, Access(k)))
  {
    var th := f.threads[k];
    var th' := FileAccess(f.scanLocks, f.tables, th).2;
    assert PcOk(f.tables, Abs(f).threads[k]);
    assert !th.pc.Idle? by { assert MicroOk(f.tables, th); }
    AccessAdvances(f.scanLocks, f.tables, th);
    AdvanceEnds(f.tables, th.pc);
    TotalUpdate(OperationRank, f.threads, k, th');
    TotalUpdate(MicroRankIn(f.tables), f.threads, k, th');
  }

  lemma ReleaseLowers(f: Fine, k: nat, lock: Lock)
    requires k < |f.threads| && f.threads[k].micro.Releasing? && lock in f.threads[k].micro.locks
    requires f.threads[k].micro.resume.Ready? || f.threads[k].micro.resume.Located?
    ensures var th' := FineDo(f, Release(k, lock)).threads[k];
            th'.pc == f.threads[k].pc && MicroRank(f.tables, th') < MicroRank(f.tables, f.threads[k])
  {
    assert |f.threads[k].micro.locks - {lock}| == |f.threads[k].micro.locks| - 1;
  }

  lemma ReleaseIsNearer(f: Fine, k: nat, lock: Lock)
    requires FineInv(f) && FineEnabled(f, Release(k, lock))
    ensures Nearer(f, FineDo(f, Release(k, lock)))
  {
    var th' := FineDo(f, Release(k, lock)).threads[k];
    assert MicroOk(f.tables, f.threads[k]);
    ReleaseLowers(f, k, lock);
    TotalUpdate(OperationRank, f.threads, k, th');
    TotalUpdate(MicroRankIn(f.tables), f.threads, k, th');
  }

  /** Whatever thread the scheduler picks, an access or a release brings the machine nearer to rest. */
  lemma ProgressIsNearer(f: Fine, step: FineStep)
    requires FineInv(f) && IsProgress(step) && FineEnabled(f, step)
    ensures Nearer(f, FineDo(f, step))
  {
    match step
    case Access(k) => AccessIsNearer(f, k);
    case Release(k, lock) => ReleaseIsNearer(f, k, lock);
  }

  /** Without new requests the atomic steps that are left never become more, whatever else happens. */
  lemma StepsLeftNeverGrow(f: Fine, step: FineStep)
    requires FineInv(f) && FineEnabled(f, step) && !step.FineBegin?
    ensures StepsLeft(FineDo(f, step)) <= StepsLeft(f)
    ensures step.FineConnect? || step.FineAdmin? ==> StepsLeft(FineDo(f, step)) == StepsLeft(f)
    ensures step.FineConnect? ==> AccessesLeft(FineDo(f, step)) == AccessesLeft(f)
  {
    if IsProgress(step) {
      ProgressIsNearer(f, step);
    } else if step.FineConnect? {
      TotalAppend(OperationRank, f.threads, Thread(Idle, Ready));
      TotalAppend(MicroRankIn(f.tables), f.threads, Thread(Idle, Ready));
    }
  }

  lemma MicroRankKept(t: Tables, t': Tables, th: Thread)
    requires |t'.users| == |t.users| && |t'.accounts| == |t.accounts| && |t'.loans| == |t.loans| && |t'.log| == |t.log|
    ensures MicroRank(t', th) == MicroRank(t, th)
  {
  }

  /** Administration prolongs no operation, unless it creates a user whose records searches then have to pass. */
  lemma OnlyCreationsProlong(f: Fine, cmd: Command)
    requires FineInv(f) && |Administer(f.tables, cmd).users| == |f.tables.users|
    ensures AccessesLeft(FineDo(f, FineAdmin(cmd))) == AccessesLeft(f)
  {
    var t' := Administer(f.tables, cmd);
    AdminLengths(f.tables, cmd);
    forall i | 0 <= i < |f.threads| ensures MicroRankIn(t')(f.threads[i]) == MicroRankIn(f.tables)(f.threads[i]) {
      MicroRankKept(f.tables, t', f.threads[i]);
    }
    TotalSame(MicroRankIn(t'), MicroRankIn(f.tables), f.threads);
  }

  /** An account is added only together with a user. */
  lemma AdminLengths(t: Tables, cmd: Command)
    requires TablesOk(t) && |Administer(t, cmd).users| == |t.users|
    ensures |Administer(t, cmd).accounts| == |t.accounts|
    ensures Administer(t, cmd).loans == t.loans && Administer(t, cmd).log == t.log
  {
    if cmd.AddCustomer? {
      var id := NewUserId(t.users);
      CreationAppends(t, User(id, cmd.username, cmd.hash, Customer, cmd.profile, cmd.email, cmd.phone, true));
    }
  }

  /** A thread takes its next file access or releases a lock. */
  ghost predicate Progresses(f: Fine, f': Fine) {
    exists step :: IsProgress(step) && FineEnabled(f, step) && f' == FineDo(f, step)
  }

  ghost predicate ProgressAt(run: seq<Fine>, i: nat)
    requires i + 1 < |run|
  {
    Progresses(run[i], run[i + 1])
  }

  /** A run of the operations under way: no new request, connection or administration. */
  ghost predicate ProgressRun(run: seq<Fine>) {
    forall i: nat :: i + 1 < |run| ==> ProgressAt(run, i)
  }

  lemma SomeStep(f: Fine) returns (step: FineStep)
    requires FineInv(f) && !AllAtRest(f)
    ensures IsProgress(step) && FineEnabled(f, step)
  {
    var k: nat :| k < |f.threads| && !AtRest(f.threads[k]);
    var mover := SomeoneMovesAbove(f, k, 0);
    if FineEnabled(f, Access(mover)) {
      step := Access(mover);
    } else {
      var lock :| FineEnabled(f, Release(mover, lock)) && FineDo(f, Release(mover, lock)) != f;
      step := Release(mover, lock);
    }
  }

  lemma SomeoneProgresses(f: Fine) returns (f': Fine)
    requires FineInv(f) && !AllAtRest(f)
    ensures Progresses(f, f') && FineInv(f') && Nearer(f, f')
  {
    var step := SomeStep(f);
    FineStepKeeps(f, step);
    ProgressIsNearer(f, step);
    f' := FineDo(f, step);
  }

  lemma ProgressPrepend(f: Fine, tail: seq<Fine>)
    requires |tail| > 0 && Progresses(f, tail[0]) && ProgressRun(tail)
    ensures ProgressRun([f] + tail)
  {
    var run := [f] + tail;
    forall i: nat | i + 1 < |run| ensures ProgressAt(run, i) {
      assert i > 0 ==> ProgressAt(tail, i - 1);
    }
  }

  /** From every state of the invariant some schedule brings all threads to rest, by their own steps only. */
  lemma {:induction false} ComesToRest(f: Fine) returns (run: seq<Fine>)
    requires FineInv(f)
    ensures |run| > 0 && run[0] == f && ProgressRun(run) && AllAtRest(run[|run| - 1])
    decreases StepsLeft(f), AccessesLeft(f)
  {
    if AllAtRest(f) {
      run := [f];
    } else {
      var f' := SomeoneProgresses(f);
      var tail := ComesToRest(f');
      ProgressPrepend(f, tail);
      run := [f] + tail;
    }
  }

  lemma ArisesNext(f: Fine, step: FineStep)
    requires Arises(f) && FineEnabled(f, step)
    ensures Arises(FineDo(f, step))
  {
    var run :| FineRunTo(run, f);
    var longer := run + [FineDo(f, step)];
    forall i: nat | i + 1 < |longer| ensures FineStepAt(longer, i) {
      assert i + 1 < |run| ==> FineStepAt(run, i);
      assert i + 1 == |run| ==> FineNext(f, FineDo(f, step));
    }
    assert FineRunTo(longer, FineDo(f, step));
  }

  lemma {:induction false} ProgressArises(run: seq<Fine>, n: nat)
    requires n < |run| && ProgressRun(run) && Arises(run[0])
    ensures Arises(run[n])
  {
    if n > 0 {
      ProgressArises(run, n - 1);
      assert ProgressAt(run, n - 1);
      var step :| IsProgress(step) && FineEnabled(run[n - 1], step) && run[n] == FineDo(run[n - 1], step);
      ArisesNext(run[n - 1], step);
    }
  }

  /** In the running bank the operations under way can always be completed, without any further request. */
  lemma OperationsComplete(f: Fine) returns (run: seq<Fine>)
    requires Arises(f)
    ensures |run| > 0 && run[0] == f && ProgressRun(run)
    ensures Arises(run[|run| - 1]) && AllAtRest(run[|run| - 1])
  {
    ArisesMeans(f);
    run := ComesToRest(f);
    ProgressArises(run, |run| - 1);
  }

  // ----- A step that nobody disturbs

  /** No thread but k holds a lock. */
  ghost predicate Undisturbed(f: Fine, k: nat) {
    forall j :: 0 <= j < |f.threads| && j != k ==> Holds(f.scanLocks, f.threads[j]) == {}
  }

  /** The machine after the atomic step of thread k and the release of the locks it no longer needs. */
  ghost function Stepped(f: Fine, k: nat): Fine
    requires k < |f.threads|
  {
    var (tables, pc) := Advance(f.tables, f.threads[k].pc);
    Fine(f.scanLocks, tables, f.history + Events(f.tables, f.threads[k].pc), f.threads[k := Thread(pc, Ready)])
  }

  /** Releasing lock after lock ends in readiness. */
  lemma {:induction false} ReleasesAll(f: Fine, k: nat)
    requires Arises(f) && k < |f.threads| && f.threads[k].micro.Releasing? && f.threads[k].micro.resume.Ready?
    ensures Arises(f.(threads := f.threads[k := Thread(f.threads[k].pc, Ready)]))
    decreases |f.threads[k].micro.locks|
  {
    var micro := f.threads[k].micro;
    ArisesMeans(f);
    assert MicroOk(f.tables, f.threads[k]);
    var lock :| lock in micro.locks;
    var f' := FineDo(f, Release(k, lock));
    ArisesNext(f, Release(k, lock));
    if micro.locks - {lock} != {} {
      ReleasesAll(f', k);
      assert f'.threads[k := Thread(f.threads[k].pc, Ready)] == f.threads[k := Thread(f.threads[k].pc, Ready)];
    }
  }

  lemma CompletedStep(f: Fine, k: nat)
    requires k < |f.threads| && Completes(f.scanLocks, f.tables, f.threads[k]) && Arises(FineDo(f, Access(k)))
    ensures Arises(Stepped(f, k))
  {
    var f' := FineDo(f, Access(k));
    var pc := f'.threads[k].pc;
    assert f'.threads[k := Thread(pc, Ready)] == f.threads[k := Thread(pc, Ready)];
    if f'.threads[k].micro.Releasing? {
      ReleasesAll(f', k);
    }
    assert f'.(threads := f'.threads[k := Thread(pc, Ready)]) == Stepped(f, k);
  }

  /** An access or a release that does not show leaves the same step to be taken. */
  lemma SameStepAhead(f: Fine, k: nat, th: Thread)
    requires k < |f.threads| && Undisturbed(f, k) && th.pc == f.threads[k].pc
    ensures var f' := f.(threads := f.threads[k := th]); Undisturbed(f', k) && Stepped(f', k) == Stepped(f, k)
  {
    var f' := f.(threads := f.threads[k := th]);
    var done := Thread(Advance(f.tables, th.pc).1, Ready);
    assert f'.threads[k] == th && f'.threads[k := done] == f.threads[k := done];
    forall j | 0 <= j < |f'.threads| && j != k ensures Holds(f.scanLocks, f'.threads[j]) == {} {
      assert f'.threads[j] == f.threads[j];
    }
  }

  lemma ApproachStays(f: Fine, k: nat)
    requires k < |f.threads| && Undisturbed(f, k) && Approaches(f.scanLocks, f.tables, f.threads[k])
    ensures var f' := FineDo(f, Access(k)); Undisturbed(f', k) && Stepped(f', k) == Stepped(f, k)
  {
    var th' := FileAccess(f.scanLocks, f.tables, f.threads[k]).2;
    assert f.history + [] == f.history;
    assert FineDo(f, Access(k)) == f.(threads := f.threads[k := th']);
    SameStepAhead(f, k, th');
  }

  /** Nothing stops the next access or release. */
  lemma UndisturbedMoves(f: Fine, k: nat) returns (step: FineStep)
    requires FineInv(f) && k < |f.threads| && !f.threads[k].pc.Idle? && Undisturbed(f, k)
    ensures FineEnabled(f, step)
    ensures f.threads[k].micro.Releasing? ==> step.Release? && step.thread == k
    ensures !f.threads[k].micro.Releasing? ==> step == Access(k)
  {
    assert MicroOk(f.tables, f.threads[k]);
    if f.threads[k].micro.Releasing? {
      var lock :| lock in f.threads[k].micro.locks;
      step := Release(k, lock);
    } else {
      step := Access(k);
    }
  }

  /** While no other thread holds a lock, a thread takes its atomic step in accesses and releases of its own. */
  lemma {:induction false} UndisturbedStep(f: Fine, k: nat)
    requires Arises(f) && k < |f.threads| && !f.threads[k].pc.Idle? && Undisturbed(f, k)
    ensures Arises(Stepped(f, k))
    decreases MicroRank(f.tables, f.threads[k])
  {
    ArisesMeans(f);
    var step := UndisturbedMoves(f, k);
    ArisesNext(f, step);
    if step.Release? {
      assert MicroOk(f.tables, f.threads[k]);
      ReleaseLowers(f, k, step.lock);
      SameStepAhead(f, k, FineDo(f, step).threads[k]);
      UndisturbedStep(FineDo(f, step), k);
    } else {
      assert PcOk(f.tables, Abs(f).threads[k]);
      AccessAdvances(f.scanLocks, f.tables, f.threads[k]);
      if Approaches(f.scanLocks, f.tables, f.threads[k]) {
        ApproachStays(f, k);
        UndisturbedStep(FineDo(f, step), k);
      } else {
        CompletedStep(f, k);
      }
    }
  }

  // ----- Atomic states that arise with every thread ready

  function Readied(pcs: seq<PC>): seq<Thread> {
    seq(|pcs|, i requires 0 <= i < |pcs| => Thread(pcs[i], Ready))
  }

  function FineOf(scanLocks: bool, s: State): Fine { Fine(scanLocks, s.tables, s.history, Readied(s.threads)) }

  /** The state arises in the machine of file accesses, between the steps of all threads. */
  ghost predicate Attained(scanLocks: bool, s: State) { Arises(FineOf(scanLocks, s)) }

  lemma InitialAttained(scanLocks: bool)
    ensures Attained(scanLocks, INITIAL)
  {
    var f := FineOf(scanLocks, INITIAL);
    assert f == FineInitial(scanLocks);
    assert FineRunTo([f], f);
  }

  /** No thread holds a lock between its steps. */
  predicate Unlocked(scanLocks: bool, s: State) {
    forall k :: 0 <= k < |s.threads| ==> HeldByPc(scanLocks, s.threads[k]) == {}
  }

  lemma AttainedAdvance(scanLocks: bool, s: State, k: nat)
    requires Attained(scanLocks, s) && Unlocked(scanLocks, s) && k < |s.threads| && !s.threads[k].Idle?
    ensures Attained(scanLocks, Do(s, Advances(k)))
  {
    var f := FineOf(scanLocks, s);
    UndisturbedStep(f, k);
    var pc := Advance(s.tables, s.threads[k]).1;
    assert Readied(s.threads[k := pc]) == Readied(s.threads)[k := Thread(pc, Ready)];
  }

  lemma AttainedBegin(scanLocks: bool, s: State, k: nat, req: Request)
    requires Attained(scanLocks, s) && k < |s.threads| && s.threads[k].Idle?
    ensures Attained(scanLocks, Do(s, Begin(k, req)))
  {
    ArisesNext(FineOf(scanLocks, s), FineBegin(k, req));
    assert Readied(s.threads[k := Start(req)]) == Readied(s.threads)[k := Thread(Start(req), Ready)];
  }

  lemma AttainedConnect(scanLocks: bool, s: State)
    requires Attained(scanLocks, s)
    ensures Attained(scanLocks, Do(s, Connect))
  {
    ArisesNext(FineOf(scanLocks, s), FineConnect);
    assert Readied(s.threads + [Idle]) == Readied(s.threads) + [Thread(Idle, Ready)];
  }

  lemma AttainedAdmin(scanLocks: bool, s: State, cmd: Command)
    requires Attained(scanLocks, s) && Unlocked(scanLocks, s)
    ensures Attained(scanLocks, Do(s, Admins(cmd)))
  {
    ArisesNext(FineOf(scanLocks, s), FineAdmin(cmd));
  }

  /** While no thread holds a lock between its steps, every atomic step is one of the running bank. */
  lemma AttainedStep(scanLocks: bool, s: State, step: Step, s': State)
    requires Attained(scanLocks, s) && Unlocked(scanLocks, s) && Enabled(s, step) && s' == Do(s, step)
    ensures Attained(scanLocks, s')
  {
    match step
    case Connect => AttainedConnect(scanLocks, s);
    case Begin(k, req) => AttainedBegin(scanLocks, s, k, req);
    case Advances(k) => AttainedAdvance(scanLocks, s, k);
    case Admins(cmd) => AttainedAdmin(scanLocks, s, cmd);
  }
}
