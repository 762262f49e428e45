/**
 One run of the migrations, as `MigrationRunner` computes it, is a run of one process in `MigrationProtocol`
 (internal/db/migrate.go:26-133); so whatever has happened, the migrations can still be brought to an end.
 */
module MigrationRefinement {
  import opened Wrappers
  import opened Migrations
  import opened MigrationProtocol
  import opened MigrationRunner

  /** Every step is process `p`'s. */
  ghost predicate Solo(p: Pid, steps: seq<(Pid, Action)>) {
    forall s :: s in steps ==> s.0 == p
  }

  /** Steps of `p` alone lead from `w` to `t`. */
  ghost predicate Reaches(files: seq<File>, w: World, p: Pid, t: World) {
    exists steps: seq<(Pid, Action)> :: Solo(p, steps) && Run(files, w, steps) == Some(t)
  }

  lemma {:induction false} RunConcat(files: seq<File>, w: World, a: seq<(Pid, Action)>, b: seq<(Pid, Action)>)
    requires Run(files, w, a).Some?
    ensures Run(files, w, a + b) == Run(files, Run(files, w, a).value, b)
  {
    if b == [] {
      assert a + b == a;
    } else {
      RunConcat(files, w, a, b[..|b| - 1]);
      assert (a + b)[..|a + b| - 1] == a + b[..|b| - 1];
    }
  }

  lemma ReachesSelf(files: seq<File>, w: World, p: Pid)
    ensures Reaches(files, w, p, w)
  {
    assert Run(files, w, []) == Some(w);
    assert Solo(p, []);
  }

  lemma RunOne(files: seq<File>, w: World, p: Pid, action: Action)
    ensures Run(files, w, [(p, action)]) == Step(files, w, p, action)
  {
    assert [(p, action)][..0] == [];
    assert Run(files, w, []) == Some(w);
  }

  lemma ReachesAfter(files: seq<File>, w: World, p: Pid, action: Action, u: World, t: World)
    requires Step(files, w, p, action) == Some(u) && Reaches(files, u, p, t)
    ensures Reaches(files, w, p, t)
  {
    var steps :| Solo(p, steps) && Run(files, u, steps) == Some(t);
    RunOne(files, w, p, action);
    RunConcat(files, w, [(p, action)], steps);
    assert Solo(p, [(p, action)] + steps);
  }

  /** `p` holds the lock and is at `proc`; the other processes are as in `w`. */
  ghost function Held(w: World, p: Pid, proc: Proc, recorded: set<string>, log: seq<Effect>): World {
    World(recorded, log, Some(p), w.procs[p := proc])
  }

  /** `p` is done and the lock is free. */
  ghost function Freed(w: World, p: Pid, recorded: set<string>, log: seq<Effect>): World {
    World(recorded, log, None, w.procs[p := Waiting])
  }

  lemma HeldMoves(w: World, p: Pid, proc: Proc, next: Proc, recorded: set<string>, log: seq<Effect>)
    ensures At(Held(w, p, proc, recorded, log), p) == proc
    ensures Move(Held(w, p, proc, recorded, log), p, next) == Held(w, p, next, recorded, log)
  {
    assert w.procs[p := proc][p := next] == w.procs[p := next];
  }

  lemma Releases(files: seq<File>, w: World, p: Pid, recorded: set<string>, log: seq<Effect>)
    ensures Reaches(files, Held(w, p, Unlocking, recorded, log), p, Freed(w, p, recorded, log))
  {
    HeldMoves(w, p, Unlocking, Waiting, recorded, log);
    var t := Freed(w, p, recorded, log);
    ReachesSelf(files, t, p);
    ReachesAfter(files, Held(w, p, Unlocking, recorded, log), p, Unlock, t, t);
  }

  /** A statement fails: the run returns its error and unlocks. */
  lemma GivesUp(files: seq<File>, w: World, p: Pid, proc: Proc, recorded: set<string>, log: seq<Effect>)
    requires !proc.Waiting?
    ensures Reaches(files, Held(w, p, proc, recorded, log), p, Freed(w, p, recorded, log))
  {
    HeldMoves(w, p, proc, Unlocking, recorded, log);
    Releases(files, w, p, recorded, log);
    ReachesAfter(files, Held(w, p, proc, recorded, log), p, Fail, Held(w, p, Unlocking, recorded, log),
                 Freed(w, p, recorded, log));
  }

  /** The first pending file is applied: on to the next one, or the run is over. */
  ghost predicate Leads(files: seq<File>, w: World, p: Pid, from: World, rest: seq<File>, result: (bool, Db)) {
    forall t ::
      (if result.0 then Reaches(files, Held(w, p, Applying(rest), result.1.recorded, result.1.log), p, t)
       else t == Freed(w, p, result.1.recorded, result.1.log))
      ==> Reaches(files, from, p, t)
  }

  lemma TransactionLeads(files: seq<File>, w: World, p: Pid, pending: seq<File>, db: Db)
    requires pending != [] && !pending[0].noTx
    ensures Leads(files, w, p, Held(w, p, Applying(pending), db.recorded, db.log), pending[1..],
                  ApplySpec(pending[0], db))
  {
    var f, result := pending[0], ApplySpec(pending[0], db);
    if result.0 {
      forall t | Reaches(files, Held(w, p, Applying(pending[1..]), result.1.recorded, result.1.log), p, t)
        ensures Reaches(files, Held(w, p, Applying(pending), db.recorded, db.log), p, t)
      {
        Commits(files, w, p, pending, db.recorded, db.log, t);
      }
    } else {
      GivesUp(files, w, p, Applying(pending), db.recorded, db.log);
    }
  }

  lemma Inserts(files: seq<File>, w: World, p: Pid, pending: seq<File>, recorded: set<string>, log: seq<Effect>,
                t: World)
    requires pending != [] && !pending[0].noTx && pending[0].version !in recorded
    requires Reaches(files, Held(w, p, InTx(pending, Inserted), recorded, log), p, t)
    ensures Reaches(files, Held(w, p, Applying(pending), recorded, log), p, t)
  {
    HeldMoves(w, p, Applying(pending), InTx(pending, Begun), recorded, log);
    HeldMoves(w, p, InTx(pending, Begun), InTx(pending, Executed), recorded, log);
    HeldMoves(w, p, InTx(pending, Executed), InTx(pending, Inserted), recorded, log);
    ReachesAfter(files, Held(w, p, InTx(pending, Executed), recorded, log), p, InsertRow,
                 Held(w, p, InTx(pending, Inserted), recorded, log), t);
    ReachesAfter(files, Held(w, p, InTx(pending, Begun), recorded, log), p, ExecuteScript,
                 Held(w, p, InTx(pending, Executed), recorded, log), t);
    ReachesAfter(files, Held(w, p, Applying(pending), recorded, log), p, Begin,
                 Held(w, p, InTx(pending, Begun), recorded, log), t);
  }

  lemma Commits(files: seq<File>, w: World, p: Pid, pending: seq<File>, recorded: set<string>, log: seq<Effect>,
                t: World)
    requires pending != [] && !pending[0].noTx && pending[0].version !in recorded
    requires var v := pending[0].version;
             Reaches(files, Held(w, p, Applying(pending[1..]), recorded + {v}, log + [Script(v)]), p, t)
    ensures Reaches(files, Held(w, p, Applying(pending), recorded, log), p, t)
  {
    var v := pending[0].version;
    HeldMoves(w, p, InTx(pending, Inserted), Applying(pending[1..]), recorded, log);
    ReachesAfter(files, Held(w, p, InTx(pending, Inserted), recorded, log), p, Commit,
                 Held(w, p, Applying(pending[1..]), recorded + {v}, log + [Script(v)]), t);
    Inserts(files, w, p, pending, recorded, log, t);
  }

  lemma AttemptBegins(files: seq<File>, w: World, p: Pid, pending: seq<File>, recorded: set<string>, log: seq<Effect>)
    requires pending != [] && pending[0].noTx
    ensures Step(files, Held(w, p, Applying(pending), recorded, log), p, ExecuteStatement)
         == Some(Held(w, p, InStatements(pending, 0), recorded, log))
  {
    HeldMoves(w, p, Applying(pending), InStatements(pending, 0), recorded, log);
  }

  lemma AttemptGoesOn(files: seq<File>, w: World, p: Pid, pending: seq<File>, k: nat,
                      recorded: set<string>, log: seq<Effect>)
    requires pending != [] && k < |pending[0].parts|
    ensures Step(files, Held(w, p, InStatements(pending, k), recorded, log), p, ExecuteStatement)
         == Some(Held(w, p, InStatements(pending, k + 1), recorded, log + [Statement(pending[0].version, k)]))
  {
    HeldMoves(w, p, InStatements(pending, k), InStatements(pending, k + 1), recorded, log);
  }

  /** The process has run the first `k` statements of the first pending file. */
  ghost function Attempting(w: World, p: Pid, pending: seq<File>, db: Db, k: nat): World
    requires pending != []
  {
    Held(w, p, InStatements(pending, k), db.recorded, db.log + Attempt(pending[0].version, k))
  }

  /** The statements up to `k`, one after the other. */
  lemma {:induction false} Attempts(files: seq<File>, w: World, p: Pid, pending: seq<File>, db: Db, k: nat, t: World)
    requires pending != [] && pending[0].noTx && k <= |pending[0].parts|
    requires Reaches(files, Attempting(w, p, pending, db, k), p, t)
    ensures Reaches(files, Held(w, p, Applying(pending), db.recorded, db.log), p, t)
    decreases k
  {
    if k == 0 {
      assert db.log + Attempt(pending[0].version, 0) == db.log;
      AttemptBegins(files, w, p, pending, db.recorded, db.log);
      ReachesAfter(files, Held(w, p, Applying(pending), db.recorded, db.log), p, ExecuteStatement,
                   Attempting(w, p, pending, db, 0), t);
    } else {
      AttemptSnoc(db.log, pending[0].version, k - 1);
      AttemptGoesOn(files, w, p, pending, k - 1, db.recorded, db.log + Attempt(pending[0].version, k - 1));
      ReachesAfter(files, Attempting(w, p, pending, db, k - 1), p, ExecuteStatement,
                   Attempting(w, p, pending, db, k), t);
      Attempts(files, w, p, pending, db, k - 1, t);
    }
  }

  lemma AttemptLeads(files: seq<File>, w: World, p: Pid, pending: seq<File>, db: Db)
    requires pending != [] && pending[0].noTx
    ensures Leads(files, w, p, Held(w, p, Applying(pending), db.recorded, db.log), pending[1..],
                  ApplySpec(pending[0], db))
  {
    var f, result := pending[0], ApplySpec(pending[0], db);
    var n := |f.parts|;
    var k := if db.budget < n then db.budget else n;
    var log := db.log + Attempt(f.version, k);
    if result.0 {
      forall t | Reaches(files, Held(w, p, Applying(pending[1..]), result.1.recorded, result.1.log), p, t)
        ensures Reaches(files, Held(w, p, Applying(pending), db.recorded, db.log), p, t)
      {
        HeldMoves(w, p, InStatements(pending, n), Applying(pending[1..]), db.recorded, log);
        ReachesAfter(files, Attempting(w, p, pending, db, n), p, InsertRowOutsideTx,
                     Held(w, p, Applying(pending[1..]), result.1.recorded, result.1.log), t);
        Attempts(files, w, p, pending, db, n, t);
      }
    } else {
      GivesUp(files, w, p, InStatements(pending, k), db.recorded, log);
      Attempts(files, w, p, pending, db, k, Freed(w, p, db.recorded, log));
    }
  }

  lemma {:induction false} MigrateReaches(files: seq<File>, w: World, p: Pid, pending: seq<File>, db: Db)
    ensures var db' := MigrateSpec(pending, db).1;
            Reaches(files, Held(w, p, Applying(pending), db.recorded, db.log), p, Freed(w, p, db'.recorded, db'.log))
  {
    if pending == [] {
      HeldMoves(w, p, Applying([]), Unlocking, db.recorded, db.log);
      Releases(files, w, p, db.recorded, db.log);
      ReachesAfter(files, Held(w, p, Applying([]), db.recorded, db.log), p, Finish,
                   Held(w, p, Unlocking, db.recorded, db.log), Freed(w, p, db.recorded, db.log));
    } else {
      if pending[0].noTx {
        AttemptLeads(files, w, p, pending, db);
      } else {
        TransactionLeads(files, w, p, pending, db);
      }
      var (ok, db') := ApplySpec(pending[0], db);
      if ok {
        MigrateReaches(files, w, p, pending[1..], db');
      }
    }
  }

  /**
   A run, wherever its connection fails, is a run of the protocol: from any world whose lock is free some
   steps of the process alone record the same versions and leave the same history, with the lock free again.
   */
  lemma {:induction false} RunIsProtocolRun(files: seq<File>, w: World, p: Pid, budget: nat)
    requires w.lock.None? && At(w, p).Waiting?
    ensures var db := RunSpec(files, Db(w.recorded, w.log, budget)).1;
            Reaches(files, w, p, Freed(w, p, db.recorded, db.log))
  {
    var db := Db(w.recorded, w.log, budget);
    var t := RunSpec(files, db).1;
    var locked := Held(w, p, Locked, w.recorded, w.log);
    if budget < 3 {
      GivesUp(files, w, p, Locked, w.recorded, w.log);
    } else {
      var pending := Pending(files, w.recorded);
      MigrateReaches(files, w, p, pending, Spend(db, 3));
      HeldMoves(w, p, Locked, Applying(pending), w.recorded, w.log);
      ReachesAfter(files, locked, p, ReadApplied, Held(w, p, Applying(pending), w.recorded, w.log),
                   Freed(w, p, t.recorded, t.log));
    }
    ReachesAfter(files, w, p, Acquire, locked, Freed(w, p, t.recorded, t.log));
  }

  /** From a free lock any process can record every file, and leave the lock free. */
  lemma Completes(files: seq<File>, start: nat, w: World, p: Pid) returns (steps: seq<(Pid, Action)>)
    requires Distinct(files) && Inv(files, start, w) && w.lock.None?
    ensures Solo(p, steps) && Run(files, w, steps).Some?
    ensures var t := Run(files, w, steps).value; t.recorded == Versions(files) && t.lock.None?
  {
    assert InCriticalSection(w, p) <==> w.lock == Some(p);
    var pending := Pending(files, w.recorded);
    var budget := 3 + Cost(pending);
    var db := Db(w.recorded, w.log, budget);
    PendingDistinct(files, w.recorded);
    RunSucceeds(files, db);
    RunConsistent(files, start, db);
    RunIsProtocolRun(files, w, p, budget);
    var t := RunSpec(files, db).1;
    steps :| Solo(p, steps) && Run(files, w, steps) == Some(Freed(w, p, t.recorded, t.log));
  }

  lemma {:induction false} PendingDistinct(files: seq<File>, recorded: set<string>)
    requires Distinct(files)
    ensures Distinct(Pending(files, recorded))
  {
    if files != [] {
      var f, rest := files[0], files[1..];
      assert files == [f] + rest;
      DistinctCons(f, rest);
      PendingDistinct(rest, recorded);
      PendingUnrecorded(rest, recorded);
      if f.version !in recorded {
        DistinctCons(f, Pending(rest, recorded));
      } else {
        assert Pending(files, recorded) == Pending(rest, recorded);
      }
    }
  }

  /**
   Whatever has happened, failures and crashes included, the migrations can still be brought to an end: once the
   session that holds the lock, if there is one, has ended, steps of any one process record every file.
   */
  lemma {:induction false} CanAlwaysComplete(files: seq<File>, start: nat, steps: seq<(Pid, Action)>, p: Pid)
    returns (end: seq<(Pid, Action)>, more: seq<(Pid, Action)>)
    requires Distinct(files) && start <= |files| && Run(files, Start(files, start), steps).Some?
    ensures var w := Run(files, Start(files, start), steps).value;
            end == if w.lock.Some? then [(w.lock.value, Crash)] else []
    ensures Solo(p, more) && Run(files, Start(files, start), steps + end + more).Some?
    ensures var t := Run(files, Start(files, start), steps + end + more).value;
            t.recorded == Versions(files) && t.lock.None?
  {
    RunKeepsInv(files, start, steps);
    var w := Run(files, Start(files, start), steps).value;
    var u := w;
    if w.lock.Some? {
      end := [(w.lock.value, Crash)];
      u := Step(files, w, w.lock.value, Crash).value;
      StepKeepsInv(files, start, w, w.lock.value, Crash);
      RunOne(files, w, w.lock.value, Crash);
    } else {
      end := [];
    }
    RunConcat(files, Start(files, start), steps, end);
    more := Completes(files, start, u, p);
    RunConcat(files, Start(files, start), steps + end, more);
  }
}
