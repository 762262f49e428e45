/**
 Several processes (API and worker) run the migrations at once, each may fail or crash anywhere,
 and the advisory lock lives and dies with the session (internal/db/migrate.go, RunMigrations).
 Every interleaving leaves a history that one careful migrator could have written.
 */
module MigrationProtocol {
  import opened Wrappers
  import opened Migrations

  type Pid = nat

  datatype Tx = Begun | Executed | Inserted

  /** Where a process is; every state but `Waiting` is inside the critical section. */
  datatype Proc =
    | Waiting
    | Locked
    | Applying(pending: seq<File>)
    | InTx(pending: seq<File>, tx: Tx)
    | InStatements(pending: seq<File>, next: nat)
    | Unlocking

  datatype World = World(recorded: set<string>, log: seq<Effect>, lock: Option<Pid>, procs: map<Pid, Proc>)

  datatype Action =
    | Acquire | ReadApplied | Begin | ExecuteScript | InsertRow | Commit
    | ExecuteStatement | InsertRowOutsideTx | Finish | Fail | Unlock | Crash

  function At(w: World, p: Pid): Proc {
    if p in w.procs then w.procs[p] else Waiting
  }

  predicate InCriticalSection(w: World, p: Pid) {
    !At(w, p).Waiting?
  }

  function Move(w: World, p: Pid, proc: Proc): World {
    w.(procs := w.procs[p := proc])
  }

  /** One step of process `p`, if it can take it. */
  function Step(files: seq<File>, w: World, p: Pid, action: Action): Option<World> {
    var proc := At(w, p);
    match action
    case Acquire =>
      if proc.Waiting? && w.lock.None? then Some(Move(w, p, Locked).(lock := Some(p))) else None
    case ReadApplied =>
      if proc.Locked? then Some(Move(w, p, Applying(Pending(files, w.recorded)))) else None
    case Begin =>
      if proc.Applying? && proc.pending != [] && !proc.pending[0].noTx
      then Some(Move(w, p, InTx(proc.pending, Begun)))
      else None
    case ExecuteScript =>
      if proc.InTx? && proc.tx.Begun? then Some(Move(w, p, InTx(proc.pending, Executed))) else None
    case InsertRow =>
      if proc.InTx? && proc.tx.Executed? && proc.pending != [] then
        // A version that is already there violates the primary key: roll back and give up.
        if proc.pending[0].version in w.recorded then Some(Move(w, p, Unlocking))
        else Some(Move(w, p, InTx(proc.pending, Inserted)))
      else None
    case Commit =>
      if proc.InTx? && proc.tx.Inserted? && proc.pending != [] then
        var v := proc.pending[0].version;
        Some(Move(w, p, Applying(proc.pending[1..])).(recorded := w.recorded + {v}, log := w.log + [Script(v)]))
      else None
    case ExecuteStatement =>
      if proc.Applying? && proc.pending != [] && proc.pending[0].noTx then
        Some(Move(w, p, InStatements(proc.pending, 0)))
      else if proc.InStatements? && proc.pending != [] && proc.next < |proc.pending[0].parts| then
        Some(Move(w, p, InStatements(proc.pending, proc.next + 1))
             .(log := w.log + [Statement(proc.pending[0].version, proc.next)]))
      else None
    case InsertRowOutsideTx =>
      if proc.InStatements? && proc.pending != [] && proc.next == |proc.pending[0].parts| then
        var v := proc.pending[0].version;
        if v in w.recorded then Some(Move(w, p, Unlocking))
        else Some(Move(w, p, Applying(proc.pending[1..])).(recorded := w.recorded + {v}, log := w.log + [Row(v)]))
      else None
    case Finish =>
      if proc == Applying([]) then Some(Move(w, p, Unlocking)) else None
    case Fail =>
      // Any statement may fail; an open transaction is rolled back and the run returns its error.
      if !proc.Waiting? then Some(Move(w, p, Unlocking)) else None
    case Unlock =>
      if proc.Unlocking? then Some(Move(w, p, Waiting).(lock := None)) else None
    case Crash =>
      // The session ends: its transaction is rolled back and its lock released.
      Some(Move(w, p, Waiting).(lock := if w.lock == Some(p) then None else w.lock))
  }

  function Run(files: seq<File>, w: World, steps: seq<(Pid, Action)>): Option<World> {
    if steps == [] then Some(w)
    else
      var last := steps[|steps| - 1];
      var before := Run(files, w, steps[..|steps| - 1]);
      if before.None? then None else Step(files, before.value, last.0, last.1)
  }

  ghost function Start(files: seq<File>, start: nat): World
    requires start <= |files|
  {
    World(Versions(files[..start]), [], None, map[])
  }

  ghost function Story(files: seq<File>, start: nat, w: World): Option<Progress> {
    Replay(files, Progress(start, 0), w.log)
  }

  /** What the process in the critical section knows. */
  ghost predicate Knows(files: seq<File>, s: Progress, proc: Proc) {
    match proc
    case Applying(pending) => s.done <= |files| && pending == files[s.done..]
    case InTx(pending, _) => s.done < |files| && pending == files[s.done..] && !pending[0].noTx
    case InStatements(pending, k) =>
      && s.done < |files| && pending == files[s.done..] && pending[0].noTx && k <= |pending[0].parts|
      && (k > 0 ==> s.ran == k)
    case _ => true
  }

  /** A process is in the critical section exactly if it holds the lock. */
  ghost predicate LockInv(w: World) {
    forall p: Pid :: InCriticalSection(w, p) <==> w.lock == Some(p)
  }

  ghost predicate Inv(files: seq<File>, start: nat, w: World) {
    && LockInv(w)
    && Consistent(files, start, w.recorded, w.log)
    && (w.lock.Some? ==> Knows(files, Story(files, start, w).value, At(w, w.lock.value)))
  }

  /** Recording the next file extends the recorded prefix. */
  lemma {:induction false} Records(files: seq<File>, start: nat, recorded: set<string>, log: seq<Effect>, e: Effect)
    requires Distinct(files) && Consistent(files, start, recorded, log)
    requires var s := Replay(files, Progress(start, 0), log).value;
             Advance(files, s, e) == Some(Progress(s.done + 1, 0))
    ensures e.version !in recorded
    ensures Consistent(files, start, recorded + {e.version}, log + [e])
    ensures Replay(files, Progress(start, 0), log + [e])
            == Some(Progress(Replay(files, Progress(start, 0), log).value.done + 1, 0))
  {
    var s := Replay(files, Progress(start, 0), log).value;
    ReplayOne(files, Progress(start, 0), log, e);
    VersionsSnoc(files, s.done);
  }

  lemma StepKeepsLock(files: seq<File>, w: World, p: Pid, action: Action)
    requires LockInv(w) && Step(files, w, p, action).Some?
    ensures LockInv(Step(files, w, p, action).value)
  {
    assert InCriticalSection(w, p) <==> w.lock == Some(p);
    var w' := Step(files, w, p, action).value;
    forall q: Pid ensures InCriticalSection(w', q) <==> w'.lock == Some(q) {
      assert InCriticalSection(w, q) <==> w.lock == Some(q);
      assert q != p ==> At(w', q) == At(w, q);
    }
  }

  /** The steps that change nothing durable. */
  lemma {:induction false} QuietStepKeepsInv(files: seq<File>, start: nat, w: World, p: Pid, action: Action)
    requires Distinct(files) && Inv(files, start, w) && Step(files, w, p, action).Some?
    requires Step(files, w, p, action).value.log == w.log
    ensures Inv(files, start, Step(files, w, p, action).value)
  {
    assert InCriticalSection(w, p) <==> w.lock == Some(p);
    StepKeepsLock(files, w, p, action);
    if action.ReadApplied? {
      PendingSuffix(files, Story(files, start, w).value.done);
    }
  }

  /** One more statement of the current attempt. */
  lemma StatementAdvances(files: seq<File>, start: nat, w: World, proc: Proc)
    requires Consistent(files, start, w.recorded, w.log) && Knows(files, Story(files, start, w).value, proc)
    requires proc.InStatements? && proc.next < |proc.pending[0].parts|
    ensures var log := w.log + [Statement(proc.pending[0].version, proc.next)];
            && Consistent(files, start, w.recorded, log)
            && Knows(files, Replay(files, Progress(start, 0), log).value, proc.(next := proc.next + 1))
  {
    ReplayOne(files, Progress(start, 0), w.log, Statement(proc.pending[0].version, proc.next));
  }

  lemma {:induction false} StatementStepKeepsInv(files: seq<File>, start: nat, w: World, p: Pid)
    requires Distinct(files) && Inv(files, start, w) && Step(files, w, p, ExecuteStatement).Some?
    requires At(w, p).InStatements?
    ensures Inv(files, start, Step(files, w, p, ExecuteStatement).value)
  {
    assert InCriticalSection(w, p) <==> w.lock == Some(p);
    StepKeepsLock(files, w, p, ExecuteStatement);
    StatementAdvances(files, start, w, At(w, p));
  }

  /** What such a step does when it records the next file. */
  lemma RecordingStep(files: seq<File>, w: World, p: Pid, action: Action, s: Progress)
    requires Step(files, w, p, action).Some? && (action.Commit? || action.InsertRowOutsideTx?)
    requires s.done <= |files| && Knows(files, s, At(w, p))
    requires action.InsertRowOutsideTx? && s.done < |files| ==> files[s.done].version !in w.recorded
    ensures s.done < |files|
    ensures var v, t := files[s.done].version, Step(files, w, p, action).value;
            && t.log == w.log + [if action.Commit? then Script(v) else Row(v)] && t.recorded == w.recorded + {v}
            && t.lock == w.lock && At(t, p) == Applying(files[s.done + 1..])
  {
    assert files[s.done..][1..] == files[s.done + 1..];
  }

  /** A commit, or the version row of a finished non-transactional attempt. */
  lemma {:induction false} RecordingStepKeepsInv(files: seq<File>, start: nat, w: World, p: Pid, action: Action)
    requires Distinct(files) && Inv(files, start, w) && Step(files, w, p, action).Some?
    requires action.Commit? || action.InsertRowOutsideTx?
    ensures Inv(files, start, Step(files, w, p, action).value)
  {
    assert InCriticalSection(w, p) <==> w.lock == Some(p);
    StepKeepsLock(files, w, p, action);
    ReplayBounds(files, Progress(start, 0), w.log);
    var s := Story(files, start, w).value;
    if s.done < |files| {
      VersionsSnoc(files, s.done);
    }
    RecordingStep(files, w, p, action, s);
    var v := files[s.done].version;
    Records(files, start, w.recorded, w.log, if action.Commit? then Script(v) else Row(v));
  }

  lemma {:induction false} StepKeepsInv(files: seq<File>, start: nat, w: World, p: Pid, action: Action)
    requires Distinct(files) && Inv(files, start, w) && Step(files, w, p, action).Some?
    ensures Inv(files, start, Step(files, w, p, action).value)
  {
    if action.Commit? || action.InsertRowOutsideTx? {
      RecordingStepKeepsInv(files, start, w, p, action);
    } else if action.ExecuteStatement? && At(w, p).InStatements? {
      StatementStepKeepsInv(files, start, w, p);
    } else {
      QuietStepKeepsInv(files, start, w, p, action);
    }
  }

  lemma {:induction false} RunKeepsInv(files: seq<File>, start: nat, steps: seq<(Pid, Action)>)
    requires Distinct(files) && start <= |files| && Run(files, Start(files, start), steps).Some?
    ensures Inv(files, start, Run(files, Start(files, start), steps).value)
  {
    if steps != [] {
      var init, last := steps[..|steps| - 1], steps[|steps| - 1];
      RunKeepsInv(files, start, init);
      StepKeepsInv(files, start, Run(files, Start(files, start), init).value, last.0, last.1);
    }
  }

  lemma {:induction false} RunKeepsLock(files: seq<File>, start: nat, steps: seq<(Pid, Action)>)
    requires start <= |files| && Run(files, Start(files, start), steps).Some?
    ensures LockInv(Run(files, Start(files, start), steps).value)
  {
    if steps != [] {
      var init, last := steps[..|steps| - 1], steps[|steps| - 1];
      RunKeepsLock(files, start, init);
      StepKeepsLock(files, Run(files, Start(files, start), init).value, last.0, last.1);
    }
  }

  /** At most one process is in the critical section, in every reachable state, repeated versions or not. */
  lemma MutualExclusion(files: seq<File>, start: nat, steps: seq<(Pid, Action)>, p: Pid, q: Pid)
    requires start <= |files| && Run(files, Start(files, start), steps).Some?
    requires var w := Run(files, Start(files, start), steps).value; InCriticalSection(w, p) && InCriticalSection(w, q)
    ensures p == q
  {
    RunKeepsLock(files, start, steps);
  }

  /** The recorded versions are always a prefix of the files. */
  lemma RecordedIsPrefix(files: seq<File>, start: nat, steps: seq<(Pid, Action)>) returns (n: nat)
    requires Distinct(files) && start <= |files| && Run(files, Start(files, start), steps).Some?
    ensures start <= n <= |files|
    ensures Run(files, Start(files, start), steps).value.recorded == Versions(files[..n])
  {
    RunKeepsInv(files, start, steps);
    var w := Run(files, Start(files, start), steps).value;
    ReplayBounds(files, Progress(start, 0), w.log);
    n := Story(files, start, w).value.done;
  }

  /** A transactional migration takes effect once if it gets recorded in this run, and otherwise never. */
  lemma TransactionalAtMostOnce(files: seq<File>, start: nat, steps: seq<(Pid, Action)>, i: nat)
    requires Distinct(files) && start <= |files| && Run(files, Start(files, start), steps).Some?
    requires i < |files| && !files[i].noTx
    ensures var w := Run(files, Start(files, start), steps).value;
            Count(w.log, Script(files[i].version))
            == if i >= start && files[i].version in w.recorded then 1 else 0
  {
    RunKeepsInv(files, start, steps);
    var w := Run(files, Start(files, start), steps).value;
    ReplayBounds(files, Progress(start, 0), w.log);
    ScriptExactlyOnce(files, Progress(start, 0), w.log, i);
    var n := Story(files, start, w).value.done;
    if i < n {
      assert files[i] in files[..n];
    } else {
      SuffixNotRecorded(files, n);
      assert files[i] in files[n..];
    }
  }

  /** A non-transactional version is recorded only right after one attempt ran all its statements. */
  lemma RecordedAfterFullAttempt(files: seq<File>, start: nat, steps: seq<(Pid, Action)>, j: nat) returns (f: File)
    requires Distinct(files) && start <= |files| && Run(files, Start(files, start), steps).Some?
    requires var w := Run(files, Start(files, start), steps).value; j < |w.log| && w.log[j].Row?
    ensures var w := Run(files, Start(files, start), steps).value;
            f in files && f.version == w.log[j].version && FullAttemptBefore(f, w.log, j)
  {
    RunKeepsInv(files, start, steps);
    f := RowAfterFullAttempt(files, Progress(start, 0), Run(files, Start(files, start), steps).value.log, j);
  }

  // ---------------------------------------------------------------- every version at most once

  /** How often the version took effect: its script committed, or its row written. */
  ghost function Effects(log: seq<Effect>, v: string): nat {
    Count(log, Script(v)) + Count(log, Row(v))
  }

  lemma EffectsSnoc(log: seq<Effect>, e: Effect, v: string)
    ensures Effects(log + [e], v) == Effects(log, v) + if e == Script(v) || e == Row(v) then 1 else 0
  {
    assert (log + [e])[..|log|] == log;
  }

  /** A version row that waits for its commit is not there yet. */
  ghost predicate RowIsNew(w: World, proc: Proc) {
    proc.InTx? && proc.tx.Inserted? && proc.pending != [] ==> proc.pending[0].version !in w.recorded
  }

  /** The recorded versions are the first ones and those that took effect, each once. */
  ghost predicate OnceInv(first: set<string>, w: World) {
    && LockInv(w)
    && first <= w.recorded
    && (forall v :: Effects(w.log, v) == if v in w.recorded && v !in first then 1 else 0)
    && (w.lock.Some? ==> RowIsNew(w, At(w, w.lock.value)))
  }

  lemma {:induction false} StepKeepsOnce(files: seq<File>, first: set<string>, w: World, p: Pid, action: Action)
    requires OnceInv(first, w) && Step(files, w, p, action).Some?
    ensures OnceInv(first, Step(files, w, p, action).value)
  {
    assert InCriticalSection(w, p) <==> w.lock == Some(p);
    StepKeepsLock(files, w, p, action);
    var t := Step(files, w, p, action).value;
    if t.log != w.log {
      var e := t.log[|w.log|];
      assert t.log == w.log + [e];
      forall v ensures Effects(t.log, v) == if v in t.recorded && v !in first then 1 else 0 {
        EffectsSnoc(w.log, e, v);
      }
    }
  }

  /**
   Over every run, for every list of files, repeated versions included: a version takes effect once if it gets
   recorded in the run, and otherwise never.
   */
  lemma {:induction false} EachVersionOnce(files: seq<File>, start: nat, steps: seq<(Pid, Action)>, v: string)
    requires start <= |files| && Run(files, Start(files, start), steps).Some?
    ensures var w := Run(files, Start(files, start), steps).value;
            Effects(w.log, v) == if v in w.recorded && v !in Versions(files[..start]) then 1 else 0
  {
    RunKeepsOnce(files, start, steps);
  }

  lemma {:induction false} RunKeepsOnce(files: seq<File>, start: nat, steps: seq<(Pid, Action)>)
    requires start <= |files| && Run(files, Start(files, start), steps).Some?
    ensures OnceInv(Versions(files[..start]), Run(files, Start(files, start), steps).value)
  {
    if steps != [] {
      var init, last := steps[..|steps| - 1], steps[|steps| - 1];
      RunKeepsOnce(files, start, init);
      StepKeepsOnce(files, Versions(files[..start]), Run(files, Start(files, start), init).value, last.0, last.1);
    }
  }

  // ---------------------------------------------------------------- inside a transaction

  /** The steps of one process. */
  ghost function Own(p: Pid, steps: seq<(Pid, Action)>): seq<Action> {
    if steps == [] then []
    else
      var last := steps[|steps| - 1];
      Own(p, steps[..|steps| - 1]) + if last.0 == p then [last.1] else []
  }

  ghost predicate EndsIn(s: seq<Action>, tail: seq<Action>) {
    |tail| <= |s| && s[|s| - |tail|..] == tail
  }

  /** What a process has done since it began its transaction. */
  ghost function Since(tx: Tx): seq<Action> {
    match tx
    case Begun => [Begin]
    case Executed => [Begin, ExecuteScript]
    case Inserted => [Begin, ExecuteScript, InsertRow]
  }

  lemma EndsInSnoc(s: seq<Action>, tail: seq<Action>, a: Action)
    requires EndsIn(s, tail)
    ensures EndsIn(s + [a], tail + [a])
  {
    assert (s + [a])[|s| - |tail|..] == s[|s| - |tail|..] + [a];
  }

  ghost predicate TransactionIsOwn(w: World, p: Pid, own: seq<Action>) {
    At(w, p).InTx? ==> EndsIn(own, Since(At(w, p).tx))
  }

  /** A transaction is begun, goes one step further, or is committed at its end. */
  lemma OwnStepInTransaction(files: seq<File>, w: World, p: Pid, action: Action)
    requires Step(files, w, p, action).Some?
    ensures var before, after := At(w, p), At(Step(files, w, p, action).value, p);
            && (after.InTx? ==>
                  if action.Begin? then after.tx == Begun
                  else before.InTx? && Since(after.tx) == Since(before.tx) + [action])
            && (action.Commit? ==> before.InTx? && before.tx == Inserted)
  {
  }

  lemma OthersStepAside(files: seq<File>, w: World, q: Pid, action: Action, p: Pid)
    requires Step(files, w, q, action).Some? && q != p
    ensures At(Step(files, w, q, action).value, p) == At(w, p)
  {
  }

  lemma StepInTransaction(files: seq<File>, w: World, s: (Pid, Action), p: Pid, own: seq<Action>)
    requires Step(files, w, s.0, s.1).Some? && TransactionIsOwn(w, p, own)
    ensures TransactionIsOwn(Step(files, w, s.0, s.1).value, p, own + if s.0 == p then [s.1] else [])
    ensures s == (p, Commit) ==> EndsIn(own, Since(Inserted))
  {
    if s.0 != p {
      OthersStepAside(files, w, s.0, s.1, p);
      assert own + [] == own;
    } else {
      OwnStepInTransaction(files, w, p, s.1);
      if s.1.Begin? {
        EndsInSnoc(own, [], Begin);
      } else if At(Step(files, w, p, s.1).value, p).InTx? {
        EndsInSnoc(own, Since(At(w, p).tx), s.1);
      }
    }
  }

  lemma {:induction false} RunInTransaction(files: seq<File>, start: nat, steps: seq<(Pid, Action)>, p: Pid)
    requires start <= |files| && Run(files, Start(files, start), steps).Some?
    ensures TransactionIsOwn(Run(files, Start(files, start), steps).value, p, Own(p, steps))
  {
    if steps != [] {
      var init, last := steps[..|steps| - 1], steps[|steps| - 1];
      RunInTransaction(files, start, init, p);
      StepInTransaction(files, Run(files, Start(files, start), init).value, last, p, Own(p, init));
    }
  }

  /** In every run a commit follows its own begin, script and version row, with nothing of its own in between. */
  lemma {:induction false} CommitFollowsScript(files: seq<File>, start: nat, steps: seq<(Pid, Action)>, p: Pid)
    requires start <= |files| && Run(files, Start(files, start), steps + [(p, Commit)]).Some?
    ensures EndsIn(Own(p, steps), [Begin, ExecuteScript, InsertRow])
  {
    assert (steps + [(p, Commit)])[..|steps|] == steps;
    RunInTransaction(files, start, steps, p);
    StepInTransaction(files, Run(files, Start(files, start), steps).value, (p, Commit), p, Own(p, steps));
  }
}
