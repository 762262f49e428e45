/**
 One run of the migrations over one connection (internal/db/migrate.go): `RunMigrations`,
 `applyTransactional`, `applyNonTransactional` and `versionFromPath`, with a connection that may
 stop working after any number of statements.
 */
module MigrationRunner {
  import opened Text
  import opened Wrappers
  import opened Numbers
  import opened Migrations
  import SqlRoundTrip
  import SqlSemicolon
  import SqlSplitter

  // ---------------------------------------------------------------- files

  /** The last path element. */
  function BaseName(path: string): string {
    var j := SqlSplitter.IndexByte(path, '/');
    if j < 0 then path else BaseName(path[j + 1..])
  }

  /** What `versionFromPath` makes of the text before the first underscore. */
  function CanonicalVersion(prefix: string): string {
    match Atoi(prefix)
    case Some(n) => Padded(n)
    case None => prefix
  }

  function VersionFromPath(path: string): string {
    var name := BaseName(path);
    var dash := SqlSplitter.IndexByte(name, '_');
    if dash < 0 then name else CanonicalVersion(name[..dash])
  }

  lemma {:induction false} IndexByteIs(s: string, before: string, c: char, after: string)
    requires s == before + ([c] + after) && c !in before
    ensures SqlSplitter.IndexByte(s, c) == |before|
  {
    assert s[|before|] == c;
    forall j | |before| < j <= |s| ensures c in s[..j] {
      assert s[..j][|before|] == c;
    }
    assert forall k :: 0 <= k < |before| ==> s[k] == before[k];
  }

  /** Whatever directories a name is in, its base name is what follows the last slash. */
  lemma {:induction false} BaseNameIs(dirs: string, name: string)
    requires '/' !in name
    ensures BaseName(name) == name && BaseName(dirs + "/" + name) == name
    decreases |dirs|
  {
    var path := dirs + "/" + name;
    var j := SqlSplitter.IndexByte(path, '/');
    assert path[|dirs|] == '/';
    forall k | |dirs| < k <= |path| ensures '/' in path[..k] {
      assert path[..k][|dirs|] == '/';
    }
    if j < |dirs| {
      assert path[j + 1..] == dirs[j + 1..] + "/" + name;
      BaseNameIs(dirs[j + 1..], name);
    } else {
      assert path[|dirs| + 1..] == name;
    }
  }

  /** The version of a file is the text before the first underscore, a number padded; its directories do not matter. */
  lemma {:induction false} VersionIs(dirs: string, prefix: string, rest: string)
    requires '/' !in prefix && '/' !in rest && '_' !in prefix
    ensures VersionFromPath(dirs + "/" + (prefix + "_" + rest)) == CanonicalVersion(prefix)
    ensures VersionFromPath(dirs + "/" + prefix) == prefix
  {
    var name := prefix + "_" + rest;
    BaseNameIs(dirs, name);
    BaseNameIs(dirs, prefix);
    assert name == prefix + (['_'] + rest);
    IndexByteIs(name, prefix, '_', rest);
    assert name[..|prefix|] == prefix;
  }

  /** Two prefixes give one version exactly if they are the same text or the same number. */
  lemma SameVersion(a: string, b: string)
    ensures CanonicalVersion(a) == CanonicalVersion(b) <==> a == b || (Atoi(a).Some? && Atoi(a) == Atoi(b))
  {
    if Atoi(a).Some? {
      AtoiPadded(Atoi(a).value);
    }
    if Atoi(b).Some? {
      AtoiPadded(Atoi(b).value);
    }
  }

  /** An embedded file. */
  datatype Source = Source(path: string, data: string)

  ghost function FileOf(src: Source): File {
    File(VersionFromPath(src.path), NO_TX_MARKER <= Trim(src.data), SqlSplitter.Statements(src.data))
  }

  ghost function Files(sources: seq<Source>): (files: seq<File>)
    ensures |files| == |sources|
  {
    seq(|sources|, i requires 0 <= i < |sources| => FileOf(sources[i]))
  }

  method ReadFile(src: Source) returns (f: File)
    ensures f == FileOf(src)
  {
    var parts := SqlSplitter.SplitSQLStatements(src.data);
    f := File(VersionFromPath(src.path), NO_TX_MARKER <= Trim(src.data), parts);
  }

  /** Only white space comes before the marker. */
  ghost predicate MarkerFirst(sql: string) {
    exists lead, rest :: Blank(lead) && sql == lead + (NO_TX_MARKER + rest)
  }

  lemma {:induction false} MarkerFirstIsPrefix(sql: string)
    ensures NO_TX_MARKER <= Trim(sql) <==> MarkerFirst(sql)
  {
    if NO_TX_MARKER <= Trim(sql) {
      var lead, trail := TrimSplits(sql);
      var rest := Trim(sql)[|NO_TX_MARKER|..] + trail;
      assert sql == lead + (NO_TX_MARKER + rest);
    }
    if MarkerFirst(sql) {
      var lead, rest :| Blank(lead) && sql == lead + (NO_TX_MARKER + rest);
      assert lead + NO_TX_MARKER <= sql;
      SqlSemicolon.TrimKeepsStart(lead, NO_TX_MARKER, sql);
    }
  }

  /** The marker is a comment that opens the first statement. */
  lemma {:induction false} MarkerOpens(sql: string, text: string)
    requires MarkerFirst(sql) && text == " NO TRANSACTION"
    ensures var statements := SqlSplitter.Statements(sql); statements != [] && NO_TX_MARKER <= statements[0]
  {
    var lead, rest :| Blank(lead) && sql == lead + (NO_TX_MARKER + rest);
    assert NO_TX_MARKER == "--" + text;
    SqlSemicolon.LeadingCommentIsKept(lead, text, rest);
  }

  /**
   What is read from a file: it runs outside a transaction exactly when the marker comes first, and then
   the marker opens its first statement; its statements are trimmed and not empty, and written one after
   another they are read back as they are.
   */
  lemma {:induction false} FileMeaning(src: Source)
    ensures FileOf(src).noTx <==> MarkerFirst(src.data)
    ensures FileOf(src).noTx ==> FileOf(src).parts != [] && NO_TX_MARKER <= FileOf(src).parts[0]
    ensures forall t :: t in FileOf(src).parts ==> t != [] && Trimmed(t)
    ensures FileOf(Source(src.path, Join(FileOf(src).parts, SqlRoundTrip.SEPARATOR))).parts == FileOf(src).parts
  {
    MarkerFirstIsPrefix(src.data);
    SqlRoundTrip.StatementsTrimmed(src.data);
    SqlRoundTrip.SplitRoundTrip(src.data);
    if MarkerFirst(src.data) {
      MarkerOpens(src.data, " NO TRANSACTION");
    }
  }

  // ---------------------------------------------------------------- what a run does

  /** The database, and how many more statements the connection will execute before it fails. */
  datatype Db = Db(recorded: set<string>, log: seq<Effect>, budget: nat)

  function Spend(db: Db, n: nat): Db {
    db.(budget := if n <= db.budget then db.budget - n else 0)
  }

  ghost function ApplyTransactionalSpec(f: File, db: Db): (bool, Db) {
    if db.budget >= 4 && f.version !in db.recorded then
      (true, Spend(db, 4).(recorded := db.recorded + {f.version}, log := db.log + [Script(f.version)]))
    else (false, Spend(db, if f.version in db.recorded then 3 else 4))
  }

  ghost function ApplyNonTransactionalSpec(f: File, db: Db): (bool, Db) {
    var n := |f.parts|;
    if db.budget < n then (false, Spend(db, n).(log := db.log + Attempt(f.version, db.budget)))
    else
      var attempted := Spend(db, n + 1).(log := db.log + Attempt(f.version, n));
      if db.budget == n || f.version in db.recorded then (false, attempted)
      else (true, attempted.(recorded := db.recorded + {f.version}, log := attempted.log + [Row(f.version)]))
  }

  ghost function ApplySpec(f: File, db: Db): (bool, Db) {
    if f.noTx then ApplyNonTransactionalSpec(f, db) else ApplyTransactionalSpec(f, db)
  }

  ghost function MigrateSpec(pending: seq<File>, db: Db): (bool, Db) {
    if pending == [] then (true, db)
    else
      var (ok, db') := ApplySpec(pending[0], db);
      if ok then MigrateSpec(pending[1..], db') else (false, db')
  }

  /** Taking the lock, creating the table and reading it, then every pending file in order. */
  ghost function RunSpec(files: seq<File>, db: Db): (bool, Db) {
    if db.budget < 3 then (false, Spend(db, 3)) else MigrateSpec(Pending(files, db.recorded), Spend(db, 3))
  }

  class Connection {
    var recorded: set<string>
    var log: seq<Effect>
    var budget: nat
    var locked: bool

    ghost function State(): Db
      reads this
    {
      Db(recorded, log, budget)
    }

    method Call() returns (ok: bool)
      modifies this`budget
      ensures ok <==> old(budget) > 0
      ensures budget == if ok then old(budget) - 1 else 0
    {
      ok := budget > 0;
      if ok {
        budget := budget - 1;
      }
    }

    method ApplyTransactional(f: File) returns (ok: bool)
      modifies this`recorded, this`log, this`budget
      ensures (ok, State()) == ApplyTransactionalSpec(f, old(State()))
    {
      ok := Call();   // begin
      if !ok { return; }
      ok := Call();   // the script, not durable yet
      if !ok { return; }
      ok := Call();   // the version row, not durable yet
      if !ok || f.version in recorded {
        return false;
      }
      ok := Call();   // commit
      if !ok { return; }
      recorded := recorded + {f.version};
      log := log + [Script(f.version)];
    }

    method ApplyNonTransactional(f: File) returns (ok: bool)
      modifies this`recorded, this`log, this`budget
      ensures (ok, State()) == ApplyNonTransactionalSpec(f, old(State()))
    {
      for k := 0 to |f.parts|
        invariant k <= old(budget) && budget == old(budget) - k
        invariant recorded == old(recorded) && log == old(log) + Attempt(f.version, k)
      {
        ok := Call();
        if !ok { return; }
        log := log + [Statement(f.version, k)];
        assert old(log) + Attempt(f.version, k) + [Statement(f.version, k)]
               == old(log) + (Attempt(f.version, k) + [Statement(f.version, k)]);
      }
      ok := Call();
      if !ok || f.version in recorded {
        return false;
      }
      recorded := recorded + {f.version};
      log := log + [Row(f.version)];
    }

    /** The files whose version is not recorded. */
    method PendingSources(sources: seq<Source>) returns (pending: seq<Source>)
      ensures Files(pending) == Pending(Files(sources), recorded)
    {
      pending := [];
      ghost var all := Files(sources);
      for i := 0 to |sources|
        invariant Files(pending) + Pending(all[i..], recorded) == Pending(all, recorded)
      {
        PendingStep(all, i, recorded, Files(pending));
        if VersionFromPath(sources[i].path) !in recorded {
          FilesSnoc(pending, sources[i]);
          pending := pending + [sources[i]];
        }
      }
    }

    method RunMigrations(sources: seq<Source>) returns (ok: bool)
      requires !locked
      modifies this
      ensures !locked
      ensures (ok, State()) == RunSpec(Files(sources), old(State()))
    {
      ok := Call();   // pg_advisory_lock
      if !ok { return; }
      locked := true;
      ok := Call();   // create table if not exists
      if ok {
        ok := Call();   // select version
      }
      if ok {
        var pending := PendingSources(sources);
        ghost var files := Files(pending);
        ghost var result := MigrateSpec(files, State());
        var i := 0;
        while ok && i < |pending|
          invariant 0 <= i <= |pending| && locked
          invariant if ok then MigrateSpec(files[i..], State()) == result else (false, State()) == result
          decreases |pending| - i, ok
        {
          var f := ReadFile(pending[i]);
          assert files[i..][0] == f && files[i..][1..] == files[i + 1..];
          if f.noTx {
            ok := ApplyNonTransactional(f);
          } else {
            ok := ApplyTransactional(f);
          }
          if ok {
            i := i + 1;
          }
        }
      }
      locked := false;
    }
  }

  lemma FilesSnoc(sources: seq<Source>, src: Source)
    ensures Files(sources + [src]) == Files(sources) + [FileOf(src)]
  {
  }

  lemma PendingStep(files: seq<File>, i: nat, recorded: set<string>, before: seq<File>)
    requires i < |files|
    ensures before + Pending(files[i..], recorded)
         == (if files[i].version in recorded then before else before + [files[i]]) + Pending(files[i + 1..], recorded)
  {
    assert files[i..][1..] == files[i + 1..];
  }

  // ---------------------------------------------------------------- what that means

  lemma NextStatement(files: seq<File>, q: Progress, f: File, k: nat)
    requires q.done < |files| && files[q.done] == f && f.noTx && k < |f.parts| && (k == 0 || q.ran == k)
    ensures Advance(files, q, Statement(f.version, k)) == Some(Progress(q.done, k + 1))
  {
  }

  lemma AttemptSnoc(log: seq<Effect>, v: string, k: nat)
    ensures log + Attempt(v, k + 1) == log + Attempt(v, k) + [Statement(v, k)]
  {
    ConcatAssociative(log, Attempt(v, k), [Statement(v, k)]);
  }

  /** The beginning of an attempt fits the sequential story, whatever an earlier attempt left. */
  lemma {:induction false} AttemptFits(files: seq<File>, s: Progress, log: seq<Effect>, p: Progress, f: File, k: nat)
    requires Replay(files, s, log) == Some(p)
    requires p.done < |files| && files[p.done] == f && f.noTx && k <= |f.parts|
    ensures Replay(files, s, log + Attempt(f.version, k)) == Some(if k == 0 then p else Progress(p.done, k))
  {
    if k == 0 {
      assert log + Attempt(f.version, 0) == log;
    } else {
      AttemptFits(files, s, log, p, f, k - 1);
      NextStatement(files, if k == 1 then p else Progress(p.done, k - 1), f, k - 1);
      AttemptSnoc(log, f.version, k - 1);
      ReplayOne(files, s, log + Attempt(f.version, k - 1), Statement(f.version, k - 1));
    }
  }

  /** The file after the recorded ones becomes recorded. */
  lemma RecordNext(files: seq<File>, start: nat, recorded: set<string>, log: seq<Effect>, p: Progress, e: Effect)
    requires Distinct(files) && start <= |files| && Replay(files, Progress(start, 0), log) == Some(p)
    requires recorded == Versions(files[..p.done]) && p.done < |files|
    requires Advance(files, p, e) == Some(Progress(p.done + 1, 0))
    ensures Consistent(files, start, recorded + {files[p.done].version}, log + [e])
    ensures Replay(files, Progress(start, 0), log + [e]).value.done == p.done + 1
  {
    ReplayOne(files, Progress(start, 0), log, e);
    VersionsSnoc(files, p.done);
  }

  /** Applying the next file keeps the database consistent, and records the file exactly if it succeeds. */
  lemma {:induction false} ApplyConsistent(files: seq<File>, start: nat, db: Db, n: nat)
    requires Distinct(files) && Consistent(files, start, db.recorded, db.log)
    requires Replay(files, Progress(start, 0), db.log).value.done == n < |files|
    ensures var (ok, db') := ApplySpec(files[n], db);
            && Consistent(files, start, db'.recorded, db'.log)
            && Replay(files, Progress(start, 0), db'.log).value.done == if ok then n + 1 else n
  {
    var f, p := files[n], Replay(files, Progress(start, 0), db.log).value;
    if !f.noTx {
      if db.budget >= 4 && f.version !in db.recorded {
        RecordNext(files, start, db.recorded, db.log, p, Script(f.version));
      }
    } else {
      var k := if db.budget < |f.parts| then db.budget else |f.parts|;
      AttemptFits(files, Progress(start, 0), db.log, p, f, k);
      if db.budget > |f.parts| && f.version !in db.recorded {
        var log, q := db.log + Attempt(f.version, k), if k == 0 then p else Progress(n, k);
        if k == 0 {
          NoPartsLeft(files, start, db.log);
        }
        RecordNext(files, start, db.recorded, log, q, Row(f.version));
      }
    }
  }

  /** A file without statements has run none. */
  lemma NoPartsLeft(files: seq<File>, start: nat, log: seq<Effect>)
    requires start <= |files| && Replay(files, Progress(start, 0), log).Some?
    ensures var p := Replay(files, Progress(start, 0), log).value;
            p.done < |files| && files[p.done].parts == [] ==> p.ran == 0
  {
    ReplayBounds(files, Progress(start, 0), log);
  }

  lemma {:induction false} MigrateConsistent(files: seq<File>, start: nat, db: Db, n: nat)
    requires Distinct(files) && Consistent(files, start, db.recorded, db.log)
    requires Replay(files, Progress(start, 0), db.log).value.done == n
    ensures var (ok, db') := MigrateSpec(files[n..], db);
            && Consistent(files, start, db'.recorded, db'.log)
            && (ok ==> db'.recorded == Versions(files))
    decreases |files| - n
  {
    if n == |files| {
      assert files[..n] == files;
    } else {
      ApplyConsistent(files, start, db, n);
      var (ok, db') := ApplySpec(files[n], db);
      assert files[n..][0] == files[n] && files[n..][1..] == files[n + 1..];
      if ok {
        MigrateConsistent(files, start, db', n + 1);
      }
    }
  }

  /** Wherever a run fails, the database stays consistent; a run that reports success has recorded everything. */
  lemma {:induction false} RunConsistent(files: seq<File>, start: nat, db: Db)
    requires Distinct(files) && Consistent(files, start, db.recorded, db.log)
    ensures var (ok, db') := RunSpec(files, db);
            && Consistent(files, start, db'.recorded, db'.log)
            && (ok ==> db'.recorded == Versions(files))
  {
    var n := Replay(files, Progress(start, 0), db.log).value.done;
    PendingSuffix(files, n);
    MigrateConsistent(files, start, Spend(db, 3), n);
  }

  /** How many statements a run needs. */
  function Cost(pending: seq<File>): nat {
    if pending == [] then 0
    else (if pending[0].noTx then |pending[0].parts| + 1 else 4) + Cost(pending[1..])
  }

  lemma {:induction false} DistinctCons(f: File, rest: seq<File>)
    ensures Distinct([f] + rest) <==> Distinct(rest) && f.version !in Versions(rest)
  {
    var all := [f] + rest;
    assert forall k :: 0 <= k < |rest| ==> all[k + 1] == rest[k];
    if Distinct(all) {
      forall i, j | 0 <= i < j < |rest| ensures rest[i].version != rest[j].version {
        assert all[i + 1].version != all[j + 1].version;
      }
      forall g | g in rest ensures f.version != g.version {
        var j :| 0 <= j < |rest| && rest[j] == g;
        assert all[0].version != all[j + 1].version;
      }
    }
    if Distinct(rest) && f.version !in Versions(rest) {
      forall i, j | 0 <= i < j < |all| ensures all[i].version != all[j].version {
        assert rest[j - 1] in rest;
        if i > 0 {
          assert rest[i - 1].version != rest[j - 1].version;
        }
      }
    }
  }

  /** A run of files that are all unrecorded succeeds exactly if nothing fails and no version repeats. */
  lemma {:induction false} MigrateSucceeds(pending: seq<File>, db: Db)
    requires forall f :: f in pending ==> f.version !in db.recorded
    ensures MigrateSpec(pending, db).0 <==> db.budget >= Cost(pending) && Distinct(pending)
  {
    if pending != [] {
      var f, rest := pending[0], pending[1..];
      assert pending == [f] + rest;
      DistinctCons(f, rest);
      var (ok, db') := ApplySpec(f, db);
      if ok {
        if f.version in Versions(rest) {
          RecordedIsRefused(rest, db', f.version);
        } else {
          MigrateSucceeds(rest, db');
        }
      }
    }
  }

  /** A pending file whose version got recorded in the meantime makes the run fail. */
  lemma {:induction false} RecordedIsRefused(pending: seq<File>, db: Db, v: string)
    requires v in db.recorded && v in Versions(pending)
    ensures !MigrateSpec(pending, db).0
  {
    var (ok, db') := ApplySpec(pending[0], db);
    if ok {
      assert pending == [pending[0]] + pending[1..];
      RecordedIsRefused(pending[1..], db', v);
    }
  }

  lemma {:induction false} PendingUnrecorded(files: seq<File>, recorded: set<string>)
    ensures forall f :: f in Pending(files, recorded) <==> f in files && f.version !in recorded
  {
    if files != [] {
      PendingUnrecorded(files[1..], recorded);
      assert files == [files[0]] + files[1..];
    }
  }

  /** So `RunMigrations` reports success exactly if the connection lasts and pending versions differ. */
  lemma RunSucceeds(files: seq<File>, db: Db)
    ensures var pending := Pending(files, db.recorded);
            RunSpec(files, db).0 <==> db.budget >= 3 + Cost(pending) && Distinct(pending)
  {
    PendingUnrecorded(files, db.recorded);
    MigrateSucceeds(Pending(files, db.recorded), Spend(db, 3));
  }

  // ---------------------------------------------------------------- what success means

  /** How many files took effect: scripts committed and version rows of non-transactional files. */
  ghost function Installed(log: seq<Effect>): nat {
    if log == [] then 0
    else Installed(log[..|log| - 1]) + if log[|log| - 1].Statement? then 0 else 1
  }

  lemma InstalledSnoc(log: seq<Effect>, e: Effect)
    ensures Installed(log + [e]) == Installed(log) + if e.Statement? then 0 else 1
  {
    assert (log + [e])[..|log|] == log;
  }

  lemma {:induction false} AttemptInstallsNothing(log: seq<Effect>, v: string, k: nat)
    ensures Installed(log + Attempt(v, k)) == Installed(log)
  {
    if k == 0 {
      assert log + Attempt(v, 0) == log;
    } else {
      AttemptInstallsNothing(log, v, k - 1);
      AttemptSnoc(log, v, k - 1);
      InstalledSnoc(log + Attempt(v, k - 1), Statement(v, k - 1));
    }
  }

  /** As many files took effect as versions are recorded. */
  ghost predicate Counted(db: Db) {
    Installed(db.log) == |db.recorded|
  }

  lemma {:induction false} ApplyCounts(f: File, db: Db)
    requires Counted(db)
    ensures var (ok, db') := ApplySpec(f, db);
            && Counted(db')
            && db.recorded <= db'.recorded <= db.recorded + {f.version}
            && (ok ==> f.version in db'.recorded)
  {
    if f.noTx {
      var k := if db.budget < |f.parts| then db.budget else |f.parts|;
      AttemptInstallsNothing(db.log, f.version, k);
      InstalledSnoc(db.log + Attempt(f.version, k), Row(f.version));
    } else {
      InstalledSnoc(db.log, Script(f.version));
    }
  }

  lemma {:induction false} MigrateCounts(pending: seq<File>, db: Db)
    requires Counted(db)
    ensures var (ok, db') := MigrateSpec(pending, db);
            && Counted(db')
            && db.recorded <= db'.recorded <= db.recorded + Versions(pending)
            && (ok ==> Versions(pending) <= db'.recorded)
  {
    if pending != [] {
      ApplyCounts(pending[0], db);
      assert pending == [pending[0]] + pending[1..];
      assert Versions(pending) == {pending[0].version} + Versions(pending[1..]);
      var (ok, db') := ApplySpec(pending[0], db);
      if ok {
        MigrateCounts(pending[1..], db');
      }
    }
  }

  lemma {:induction false} RunCounts(files: seq<File>, db: Db)
    requires Counted(db) && db.recorded <= Versions(files)
    ensures var (ok, db') := RunSpec(files, db);
            Counted(db') && db'.recorded <= Versions(files) && (ok ==> db'.recorded == Versions(files))
  {
    PendingUnrecorded(files, db.recorded);
    MigrateCounts(Pending(files, db.recorded), Spend(db, 3));
  }

  /** One run after another, each over a connection that lasts for so many statements. */
  ghost function Runs(files: seq<File>, budgets: seq<nat>): (bool, Db) {
    if budgets == [] then (false, Db({}, [], 0))
    else
      var n := |budgets| - 1;
      RunSpec(files, Runs(files, budgets[..n]).1.(budget := budgets[n]))
  }

  lemma {:induction false} RunsCount(files: seq<File>, budgets: seq<nat>)
    ensures var (ok, db) := Runs(files, budgets);
            Counted(db) && db.recorded <= Versions(files) && (ok ==> db.recorded == Versions(files))
  {
    if budgets != [] {
      var n := |budgets| - 1;
      RunsCount(files, budgets[..n]);
      RunCounts(files, Runs(files, budgets[..n]).1.(budget := budgets[n]));
    }
  }

  lemma {:induction false} VersionsCount(files: seq<File>)
    ensures |Versions(files)| <= |files|
    ensures |Versions(files)| == |files| <==> Distinct(files)
  {
    if files != [] {
      var f, rest := files[0], files[1..];
      assert files == [f] + rest;
      VersionsCount(rest);
      DistinctCons(f, rest);
      assert Versions(files) == {f.version} + Versions(rest);
    }
  }

  /**
   From an empty database, after any runs of which the last reports success, every file took effect exactly
   when no two files share a version.
   */
  lemma {:induction false} SuccessInstallsAll(files: seq<File>, budgets: seq<nat>)
    requires Runs(files, budgets).0
    ensures Installed(Runs(files, budgets).1.log) == |files| <==> Distinct(files)
    ensures Installed(Runs(files, budgets).1.log) <= |files|
  {
    RunsCount(files, budgets);
    VersionsCount(files);
  }

  /**
   Two files with one version: the first run fails on the second file, and the next run reports
   success although that file's script never took effect.
   */
  lemma {:induction false} RepeatedVersionIsSkipped(f: File, g: File, budget: nat)
    requires f.version == g.version && !f.noTx && !g.noTx && budget >= 13
    ensures var (ok, db) := RunSpec([f, g], Db({}, [], budget));
            && !ok && db.log == [Script(f.version)]
            && RunSpec([f, g], db.(budget := budget)) == (true, Spend(db.(budget := budget), 3))
  {
    var files := [f, g];
    assert files[1..] == [g] && [g][1..] == [];
    PendingAll(files, {});
    PendingNone(files, {f.version});
    var (ok, db) := ApplySpec(f, Spend(Db({}, [], budget), 3));
    assert ok && db.recorded == {f.version} && db.log == [Script(f.version)];
    assert MigrateSpec(files, Spend(Db({}, [], budget), 3)) == MigrateSpec([g], db);
  }
}
