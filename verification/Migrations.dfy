/**
 The migration runner (internal/db/migrate.go): the files, what one run does to the database,
 and the sequential story every history of the database has to fit.
 */
module Migrations {
  import opened Text
  import opened Wrappers

  const NO_TX_MARKER := "-- NO TRANSACTION"

  /** A migration file: its version, whether it asks to run outside a transaction, and its statements. */
  datatype File = File(version: string, noTx: bool, parts: seq<string>)

  /** What is durable in the database, in commit order. */
  datatype Effect =
    | Script(version: string)                  // a transaction: the whole script and its version row
    | Statement(version: string, index: nat)   // one statement of a non-transactional script
    | Row(version: string)                     // the version row of a non-transactional script

  ghost predicate Distinct(files: seq<File>) {
    forall i, j :: 0 <= i < j < |files| ==> files[i].version != files[j].version
  }

  ghost function Versions(files: seq<File>): set<string> {
    set f | f in files :: f.version
  }

  /** The files not recorded yet, in order. */
  function Pending(files: seq<File>, recorded: set<string>): seq<File> {
    if files == [] then []
    else (if files[0].version in recorded then [] else [files[0]]) + Pending(files[1..], recorded)
  }

  // ---------------------------------------------------------------- the sequential story

  /** `done` files are recorded; the current attempt at the next one has run `ran` statements. */
  datatype Progress = Progress(done: nat, ran: nat)

  /** One migrator without concurrency, restarting a non-transactional file from its first statement. */
  ghost function Advance(files: seq<File>, s: Progress, e: Effect): Option<Progress> {
    if s.done >= |files| || e.version != files[s.done].version then None
    else
      var f := files[s.done];
      match e
      case Script(_) => if f.noTx then None else Some(Progress(s.done + 1, 0))
      case Statement(_, k) =>
        if f.noTx && k < |f.parts| && (k == 0 || k == s.ran) then Some(Progress(s.done, k + 1))
        else None
      case Row(_) =>
        if f.noTx && s.ran == |f.parts| then Some(Progress(s.done + 1, 0)) else None
  }

  ghost function Replay(files: seq<File>, s: Progress, log: seq<Effect>): Option<Progress> {
    if log == [] then Some(s)
    else
      var before := Replay(files, s, log[..|log| - 1]);
      if before.None? then None else Advance(files, before.value, log[|log| - 1])
  }

  lemma ReplayOne(files: seq<File>, s: Progress, log: seq<Effect>, e: Effect)
    ensures Replay(files, s, log + [e])
            == if Replay(files, s, log).None? then None else Advance(files, Replay(files, s, log).value, e)
  {
    assert (log + [e])[..|log + [e]| - 1] == log;
  }

  /** A history that fits never goes back, and `ran` stays within the file it counts. */
  lemma {:induction false} ReplayBounds(files: seq<File>, s: Progress, log: seq<Effect>)
    requires Replay(files, s, log).Some? && s.done <= |files| && s.ran == 0
    ensures var p := Replay(files, s, log).value;
            && s.done <= p.done <= |files|
            && (p.ran > 0 ==> p.done < |files| && p.ran <= |files[p.done].parts|)
  {
    if log != [] {
      ReplayBounds(files, s, log[..|log| - 1]);
    }
  }

  ghost function Count(log: seq<Effect>, e: Effect): nat {
    if log == [] then 0
    else Count(log[..|log| - 1], e) + if log[|log| - 1] == e then 1 else 0
  }

  /** A transactional script is in the history exactly once if its file got recorded, else never. */
  lemma {:induction false} ScriptExactlyOnce(files: seq<File>, s: Progress, log: seq<Effect>, i: nat)
    requires Distinct(files) && i < |files| && !files[i].noTx
    requires s.ran == 0 && s.done <= |files| && Replay(files, s, log).Some?
    ensures Count(log, Script(files[i].version)) == if s.done <= i < Replay(files, s, log).value.done then 1 else 0
  {
    if log != [] {
      var init, e := log[..|log| - 1], log[|log| - 1];
      ScriptExactlyOnce(files, s, init, i);
      ReplayBounds(files, s, init);
    }
  }

  /** The statements of one uninterrupted attempt. */
  ghost function Attempt(version: string, n: nat): seq<Effect> {
    if n == 0 then [] else Attempt(version, n - 1) + [Statement(version, n - 1)]
  }

  /** The current attempt is what the history ends with. */
  lemma {:induction false} EndsInAttempt(files: seq<File>, s: Progress, log: seq<Effect>)
    requires s.ran == 0 && Replay(files, s, log).Some?
    ensures var p := Replay(files, s, log).value;
            p.ran > 0 ==> p.done < |files| && p.ran <= |log|
                          && log[|log| - p.ran..] == Attempt(files[p.done].version, p.ran)
  {
    if log != [] {
      var init, e := log[..|log| - 1], log[|log| - 1];
      assert log == init + [e];
      EndsInAttempt(files, s, init);
      var p, q := Replay(files, s, log).value, Replay(files, s, init).value;
      if p.ran > 1 {
        assert log[|log| - p.ran..] == init[|init| - q.ran..] + [e];
      } else if p.ran == 1 {
        assert log[|log| - 1..] == [] + [e];
        assert Attempt(e.version, 0) == [];
      }
    }
  }

  /** The entries of the history just before position `j` are one whole attempt at `f`. */
  ghost predicate FullAttemptBefore(f: File, log: seq<Effect>, j: nat) {
    && f.noTx && |f.parts| <= j <= |log|
    && log[j - |f.parts|..j] == Attempt(f.version, |f.parts|)
  }

  /** A version row follows one attempt that ran all the statements without interruption. */
  lemma {:induction false} RowAfterFullAttempt(files: seq<File>, s: Progress, log: seq<Effect>, j: nat)
    returns (f: File)
    requires s.ran == 0 && Replay(files, s, log).Some?
    requires j < |log| && log[j].Row?
    ensures f in files && f.version == log[j].version && FullAttemptBefore(f, log, j)
    decreases |log|
  {
    var init := log[..|log| - 1];
    if j < |log| - 1 {
      f := RowAfterFullAttempt(files, s, init, j);
      assert log[j - |f.parts|..j] == init[j - |f.parts|..j];
    } else {
      assert log == init + [log[j]];
      f := LastRow(files, s, init, log[j]);
      assert log[j - |f.parts|..j] == init[j - |f.parts|..j];
    }
  }

  lemma LastRow(files: seq<File>, s: Progress, init: seq<Effect>, e: Effect) returns (f: File)
    requires s.ran == 0 && Replay(files, s, init + [e]).Some? && e.Row?
    ensures f in files && f.version == e.version && FullAttemptBefore(f, init, |init|)
  {
    ReplayOne(files, s, init, e);
    EndsInAttempt(files, s, init);
    var q := Replay(files, s, init).value;
    f := files[q.done];
    if q.ran == 0 {
      assert init[|init|..|init|] == [] == Attempt(f.version, 0);
    } else {
      assert init[|init| - q.ran..|init|] == init[|init| - q.ran..];
    }
  }

  /** Scripts are those of transactional files, statements and rows those of the others. */
  lemma {:induction false} EffectsFitFiles(files: seq<File>, s: Progress, log: seq<Effect>, j: nat)
    requires Replay(files, s, log).Some? && j < |log|
    ensures exists f :: f in files && f.version == log[j].version && (f.noTx <==> !log[j].Script?)
  {
    var init := log[..|log| - 1];
    if j < |init| {
      EffectsFitFiles(files, s, init, j);
    } else {
      var f := files[Replay(files, s, init).value.done];
      assert f in files;
    }
  }

  /** What is recorded is a prefix of the files, and the history fits. */
  ghost predicate Consistent(files: seq<File>, start: nat, recorded: set<string>, log: seq<Effect>) {
    && start <= |files|
    && Replay(files, Progress(start, 0), log).Some?
    && var p := Replay(files, Progress(start, 0), log).value;
       p.done <= |files| && recorded == Versions(files[..p.done])
  }

  lemma {:induction false} PendingAll(files: seq<File>, recorded: set<string>)
    requires forall f :: f in files ==> f.version !in recorded
    ensures Pending(files, recorded) == files
  {
    if files != [] {
      PendingAll(files[1..], recorded);
    }
  }

  lemma {:induction false} PendingNone(files: seq<File>, recorded: set<string>)
    requires forall f :: f in files ==> f.version in recorded
    ensures Pending(files, recorded) == []
  {
    if files != [] {
      PendingNone(files[1..], recorded);
    }
  }

  lemma {:induction false} PendingConcat(a: seq<File>, b: seq<File>, recorded: set<string>)
    ensures Pending(a + b, recorded) == Pending(a, recorded) + Pending(b, recorded)
  {
    if a == [] {
      assert a + b == b;
    } else {
      assert (a + b)[1..] == a[1..] + b;
      PendingConcat(a[1..], b, recorded);
    }
  }

  lemma {:induction false} PendingSplit(a: seq<File>, b: seq<File>, recorded: set<string>)
    requires forall f :: f in a ==> f.version in recorded
    requires forall f :: f in b ==> f.version !in recorded
    ensures Pending(a + b, recorded) == b
  {
    PendingNone(a, recorded);
    PendingAll(b, recorded);
    PendingConcat(a, b, recorded);
  }

  lemma SuffixNotRecorded(files: seq<File>, n: nat)
    requires Distinct(files) && n <= |files|
    ensures forall f :: f in files[n..] ==> f.version !in Versions(files[..n])
  {
    forall f, g | f in files[n..] && g in files[..n] ensures f.version != g.version {
      var j :| n <= j < |files| && files[j] == f;
      var i :| 0 <= i < n && files[i] == g;
    }
  }

  /** When a prefix is recorded, the rest is pending. */
  lemma {:induction false} PendingSuffix(files: seq<File>, n: nat)
    requires Distinct(files) && n <= |files|
    ensures Pending(files, Versions(files[..n])) == files[n..]
  {
    SuffixNotRecorded(files, n);
    PendingSplit(files[..n], files[n..], Versions(files[..n]));
    assert files[..n] + files[n..] == files;
  }

  lemma VersionsSnoc(files: seq<File>, n: nat)
    requires n < |files|
    ensures Versions(files[..n + 1]) == Versions(files[..n]) + {files[n].version}
    ensures Distinct(files) ==> files[n].version !in Versions(files[..n])
  {
    assert files[..n + 1] == files[..n] + [files[n]];
    if Distinct(files) {
      SuffixNotRecorded(files, n);
      assert files[n] in files[n..];
    }
  }
}
