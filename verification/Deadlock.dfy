/** Deadlock freedom: locks are acquired in the order loans, users, accounts, transactions, so as long as
    some thread is inside an operation, some thread can take its next file access or release a lock. */
module Deadlock {
  import opened Bank
  import opened BankInvariant
  import opened Locking
  import opened Refinement

  function Level(file: File): nat {
    match file
    case LoansFile => 0
    case UsersFile => 1
    case AccountsFile => 2
    case LogFile => 3
  }

  /** A thread waits only for a lock above every lock it holds. */
  lemma WaitsUpward(scanLocks: bool, t: Tables, th: Thread)
    requires MicroOk(t, th) && Wants(scanLocks, th).Some?
    ensures forall held :: held in Holds(scanLocks, th) ==> Level(held.file) < Level(Wants(scanLocks, th).value.file)
  {
  }

  ghost predicate CanMove(f: Fine, k: nat) {
    || (FineEnabled(f, Access(k)) && FineDo(f, Access(k)) != f)
    || (exists lock :: FineEnabled(f, Release(k, lock)) && FineDo(f, Release(k, lock)) != f)
  }

  /** A thread inside an operation moves unless the lock it waits for conflicts with another thread's. */
  lemma MovesUnlessBlocked(f: Fine, k: nat)
    requires FineInv(f) && k < |f.threads| && !AtRest(f.threads[k])
    requires Wants(f.scanLocks, f.threads[k]).Some? ==> !Blocked(f, k, Wants(f.scanLocks, f.threads[k]).value)
    ensures CanMove(f, k)
  {
    var th := f.threads[k];
    assert MicroOk(f.tables, th) && PcOk(f.tables, Abs(f).threads[k]);
    if th.micro.Releasing? {
      var lock :| lock in th.micro.locks;
      var f' := FineDo(f, Release(k, lock));
      assert FineEnabled(f, Release(k, lock));
      assert f'.threads[k].micro != th.micro;
    } else {
      AccessProgresses(f.scanLocks, f.tables, th);
      assert FineDo(f, Access(k)).threads[k] != th;
    }
  }

  lemma AccessProgresses(scanLocks: bool, t: Tables, th: Thread)
    requires MicroOk(t, th) && PcOk(t, th.pc) && !AtRest(th) && !th.micro.Releasing?
    ensures FileAccess(scanLocks, t, th).2 != th
  {
  }

  /** Following the thread that blocks, and the thread that blocks it, climbs the lock order and must end
      at a thread that can move. */
  lemma {:induction false} SomeoneMovesAbove(f: Fine, k: nat, floor: nat) returns (mover: nat)
    requires FineInv(f) && k < |f.threads| && !AtRest(f.threads[k])
    requires Wants(f.scanLocks, f.threads[k]).Some? ==> floor <= Level(Wants(f.scanLocks, f.threads[k]).value.file)
    ensures mover < |f.threads| && CanMove(f, mover)
    decreases 4 - floor
  {
    var want := Wants(f.scanLocks, f.threads[k]);
    if want.Some? && Blocked(f, k, want.value) {
      var j, held :| 0 <= j < |f.threads| && j != k && held in Holds(f.scanLocks, f.threads[j])
                     && Conflict(held, want.value);
      assert MicroOk(f.tables, f.threads[j]);
      if Wants(f.scanLocks, f.threads[j]).Some? {
        WaitsUpward(f.scanLocks, f.tables, f.threads[j]);
      }
      mover := SomeoneMovesAbove(f, j, Level(held.file) + 1);
    } else {
      MovesUnlessBlocked(f, k);
      mover := k;
    }
  }

  /** No reachable state is deadlocked: while thread k is inside an operation, some thread can move. */
  lemma NoDeadlock(run: seq<Fine>, scanLocks: bool, f: Fine, k: nat)
    requires |run| > 0 && FineRun(run) && run[0] == FineInitial(scanLocks) && f == run[|run| - 1]
    requires k < |f.threads| && !AtRest(f.threads[k])
    ensures exists mover: nat :: mover < |f.threads| && CanMove(f, mover)
  {
    FineRunsAreAtomicRuns(run, scanLocks);
    var mover := SomeoneMovesAbove(f, k, 0);
  }
}
