/**
 Runs of reconciling calls: for every key the reported rows are the submitted statuses with consecutive
 repeats removed, and the stored runtime level is the highest ever submitted.
 */
module ReconcileRuns {
  import opened Wrappers
  import opened Reconcile
  import Text

  /** What a change is judged by. */
  datatype Status = Status(inventory: string, verdict: string)

  function StatusOf(h: ThreatHit): Status {
    Status(Default(h.inventory, "declared"), Default(h.verdict, "unconfirmed"))
  }

  ghost function Statuses(hits: seq<ThreatHit>): (r: seq<Status>)
    ensures |r| == |hits|
  {
    seq(|hits|, i requires 0 <= i < |hits| => StatusOf(hits[i]))
  }

  ghost function RowStatus(row: Option<Row>): Option<Status> {
    if row.None? then None else Some(Status(row.value.inventory, row.value.verdict))
  }

  /** `s` without the elements that repeat the one before them; `prev` comes before the first. */
  ghost function Changes(prev: Option<Status>, s: seq<Status>): seq<Status> {
    if s == [] then []
    else
      var init, last := s[..|s| - 1], s[|s| - 1];
      if Latest(prev, init) == Some(last) then Changes(prev, init) else Changes(prev, init) + [last]
  }

  ghost function Latest(prev: Option<Status>, s: seq<Status>): Option<Status> {
    if s == [] then prev else Some(s[|s| - 1])
  }

  // ---------------------------------------------------------------- the row of a key

  /** Inventory and verdict are those of the last submission, so exactly the changes are reported. */
  lemma {:induction false} ReportsAreChanges(row: Option<Row>, hits: seq<ThreatHit>)
    ensures RowStatus(RowAfter(row, hits)) == Latest(RowStatus(row), Statuses(hits))
    ensures Statuses(Reports(row, hits)) == Changes(RowStatus(row), Statuses(hits))
  {
    if hits != [] {
      var init, h := hits[..|hits| - 1], hits[|hits| - 1];
      ReportsAreChanges(row, init);
      StatusesSnoc(init, h);
      Text.SplitLast(hits);
      assert (Statuses(init) + [StatusOf(h)])[..|init|] == Statuses(init);
      ReportStatus(RowAfter(row, init), h, Reports(row, init));
    }
  }

  lemma StatusesSnoc(hits: seq<ThreatHit>, h: ThreatHit)
    ensures Statuses(hits + [h]) == Statuses(hits) + [StatusOf(h)]
  {
  }

  lemma ReportStatus(row: Option<Row>, h: ThreatHit, reports: seq<ThreatHit>)
    ensures RowStatus(Some(Submitted(row, h))) == Some(StatusOf(h))
    ensures Statuses(NextReport(row, h, reports))
         == if RowStatus(row) == Some(StatusOf(h)) then Statuses(reports) else Statuses(reports) + [StatusOf(h)]
  {
    StatusesSnoc(reports, Report(h, Submitted(row, h)));
  }

  /** The rank of a known level, -1 for any other. */
  function Level(runtime: string): int {
    if RuntimeRank(runtime).Some? then RuntimeRank(runtime).value else -1
  }

  function LevelOf(h: ThreatHit): int {
    Level(Default(h.runtime, "L0"))
  }

  ghost function Highest(from: int, hits: seq<ThreatHit>): (m: int)
    ensures m >= from
    ensures forall h :: h in hits ==> m >= LevelOf(h)
    ensures m == from || exists h :: h in hits && m == LevelOf(h)
  {
    if hits == [] then from
    else
      var m, l := Highest(from, hits[..|hits| - 1]), LevelOf(hits[|hits| - 1]);
      Text.SplitLast(hits);
      if l > m then l else m
  }

  lemma SubmittedLevel(row: Row, h: ThreatHit)
    requires Level(row.runtime) >= 0
    ensures Level(Submitted(Some(row), h).runtime)
         == if LevelOf(h) > Level(row.runtime) then LevelOf(h) else Level(row.runtime)
  {
  }

  lemma FirstLevel(h: ThreatHit)
    ensures Level(Submitted(None, h).runtime) == LevelOf(h)
  {
  }

  lemma {:induction false} RuntimeIsHighest(row: Option<Row>, hits: seq<ThreatHit>)
    requires row.Some? ==> Level(row.value.runtime) >= 0
    requires row.None? && hits != [] ==> LevelOf(hits[0]) >= 0
    ensures var after, from := RowAfter(row, hits), if row.Some? then Level(row.value.runtime) else -1;
            after.Some? ==> Level(after.value.runtime) == Highest(from, hits) && Level(after.value.runtime) >= 0
  {
    if hits != [] {
      var init, h := hits[..|hits| - 1], hits[|hits| - 1];
      if init != [] {
        assert init[0] == hits[0];
      }
      RuntimeIsHighest(row, init);
      var before := RowAfter(row, init);
      if before.None? {
        FirstLevel(h);
      } else {
        SubmittedLevel(before.value, h);
      }
    }
  }

  // ---------------------------------------------------------------- runs of calls

  /** One succeeding call and the map it read. */
  datatype Call = Call(prior: map<string, PriorRow>, hits: seq<ThreatHit>)

  ghost function Rows(advisories: set<string>, rows: seq<Row>, calls: seq<Call>): seq<Row> {
    if calls == [] then rows
    else
      var last := calls[|calls| - 1];
      Loop(advisories, Rows(advisories, rows, calls[..|calls| - 1]), last.prior, last.hits, _ => false).rows
  }

  ghost predicate Run(advisories: set<string>, rows: seq<Row>, calls: seq<Call>) {
    calls != [] ==>
      var init, last := calls[..|calls| - 1], calls[|calls| - 1];
      && Run(advisories, rows, init)
      && Listed(last.prior, Rows(advisories, rows, init))
      && Succeeds(advisories, Rows(advisories, rows, init), last.prior, last.hits)
  }

  ghost function Reported(advisories: set<string>, rows: seq<Row>, calls: seq<Call>): seq<ThreatHit> {
    if calls == [] then []
    else
      var init, last := calls[..|calls| - 1], calls[|calls| - 1];
      Reported(advisories, rows, init)
      + Loop(advisories, Rows(advisories, rows, init), last.prior, last.hits, _ => false).reported
  }

  ghost function AllHits(calls: seq<Call>): seq<ThreatHit> {
    if calls == [] then [] else AllHits(calls[..|calls| - 1]) + calls[|calls| - 1].hits
  }

  lemma {:induction false} HitsAtConcat(a: seq<ThreatHit>, b: seq<ThreatHit>, k: HitKey)
    ensures HitsAt(a + b, k) == HitsAt(a, k) + HitsAt(b, k)
  {
    if b == [] {
      assert a + b == a;
    } else {
      HitsAtConcat(a, b[..|b| - 1], k);
      assert (a + b)[..|a + b| - 1] == a + b[..|b| - 1];
    }
  }

  lemma {:induction false} RowAfterConcat(row: Option<Row>, a: seq<ThreatHit>, b: seq<ThreatHit>)
    ensures RowAfter(row, a + b) == RowAfter(RowAfter(row, a), b)
  {
    if b == [] {
      assert a + b == a;
    } else {
      RowAfterConcat(row, a, b[..|b| - 1]);
      assert (a + b)[..|a + b| - 1] == a + b[..|b| - 1];
    }
  }

  lemma NextReportConcat(row: Option<Row>, h: ThreatHit, a: seq<ThreatHit>, b: seq<ThreatHit>)
    ensures NextReport(row, h, a + b) == a + NextReport(row, h, b)
  {
  }

  lemma {:induction false} ReportsConcat(row: Option<Row>, a: seq<ThreatHit>, b: seq<ThreatHit>)
    ensures Reports(row, a + b) == Reports(row, a) + Reports(RowAfter(row, a), b)
  {
    if b == [] {
      assert a + b == a;
    } else {
      var init, h := b[..|b| - 1], b[|b| - 1];
      ReportsConcat(row, a, init);
      RowAfterConcat(row, a, init);
      assert (a + b)[..|a + b| - 1] == a + init;
      NextReportConcat(RowAfter(row, a + init), h, Reports(row, a), Reports(RowAfter(row, a), init));
    }
  }

  /** Where one call ends and the next begins does not show. */
  lemma {:induction false} RunAtKey(advisories: set<string>, rows: seq<Row>, calls: seq<Call>, k: HitKey)
    requires Unique(rows) && k.Full() && Run(advisories, rows, calls)
    ensures Unique(Rows(advisories, rows, calls))
    ensures Lookup(Rows(advisories, rows, calls), k) == RowAfter(Lookup(rows, k), HitsAt(AllHits(calls), k))
    ensures HitsAt(Reported(advisories, rows, calls), k) == Reports(Lookup(rows, k), HitsAt(AllHits(calls), k))
  {
    if calls != [] {
      var init, last := calls[..|calls| - 1], calls[|calls| - 1];
      RunAtKey(advisories, rows, init, k);
      var before := Rows(advisories, rows, init);
      ListedIsLinked(before, last.prior, k);
      CallAtKey(advisories, before, last.prior, last.hits, k);
      HitsAtConcat(AllHits(init), last.hits, k);
      var o := Loop(advisories, before, last.prior, last.hits, _ => false);
      HitsAtConcat(Reported(advisories, rows, init), o.reported, k);
      RowAfterConcat(Lookup(rows, k), HitsAt(AllHits(init), k), HitsAt(last.hits, k));
      ReportsConcat(Lookup(rows, k), HitsAt(AllHits(init), k), HitsAt(last.hits, k));
    }
  }

  lemma {:induction false} FirstLevelKnown(
    advisories: set<string>, rows: seq<Row>, prior: map<string, PriorRow>, hits: seq<ThreatHit>, k: HitKey)
    requires Unique(rows) && k.Full() && Linked(rows, prior, k) && Lookup(rows, k).None?
    requires Succeeds(advisories, rows, prior, hits) && HitsAt(hits, k) != []
    ensures LevelOf(HitsAt(hits, k)[0]) >= 0
  {
    var init, h := hits[..|hits| - 1], hits[|hits| - 1];
    if HitsAt(init, k) != [] {
      FirstLevelKnown(advisories, rows, prior, init, k);
    } else {
      CallAtKey(advisories, rows, prior, init, k);
      assert Counts(h, k) && HitsAt(hits, k) == [h];
    }
  }

  /** From an empty table: reports are the changes, and the stored level is the highest submitted. */
  lemma {:induction false} RunReportsChanges(advisories: set<string>, calls: seq<Call>, k: HitKey)
    requires k.Full() && Run(advisories, [], calls)
    ensures var submitted := HitsAt(AllHits(calls), k); var row := Lookup(Rows(advisories, [], calls), k);
            && Statuses(HitsAt(Reported(advisories, [], calls), k)) == Changes(None, Statuses(submitted))
            && (row.Some? <==> submitted != [])
            && (row.Some? ==> Level(row.value.runtime) == Highest(-1, submitted))
  {
    RunAtKey(advisories, [], calls, k);
    ReportsAreChanges(None, HitsAt(AllHits(calls), k));
    if HitsAt(AllHits(calls), k) != [] {
      RunFirstLevel(advisories, calls, k);
    }
    RuntimeIsHighest(None, HitsAt(AllHits(calls), k));
  }

  lemma {:induction false} RunFirstLevel(advisories: set<string>, calls: seq<Call>, k: HitKey)
    requires k.Full() && Run(advisories, [], calls) && HitsAt(AllHits(calls), k) != []
    ensures LevelOf(HitsAt(AllHits(calls), k)[0]) >= 0
  {
    var init, last := calls[..|calls| - 1], calls[|calls| - 1];
    HitsAtConcat(AllHits(init), last.hits, k);
    if HitsAt(AllHits(init), k) != [] {
      RunFirstLevel(advisories, init, k);
    } else {
      RunAtKey(advisories, [], init, k);
      ListedIsLinked(Rows(advisories, [], init), last.prior, k);
      FirstLevelKnown(advisories, Rows(advisories, [], init), last.prior, last.hits, k);
    }
  }

  // ---------------------------------------------------------------- what is stored and reported

  /** The last evidence that was given. */
  ghost function LastEvidence(hits: seq<ThreatHit>): Option<string> {
    if hits == [] then None
    else if hits[|hits| - 1].evidence != "" then Some(hits[|hits| - 1].evidence)
    else LastEvidence(hits[..|hits| - 1])
  }

  /** The row says what the last hit says, "declared" and "unconfirmed" where it says nothing. */
  ghost predicate HoldsLast(r: Row, k: HitKey, hits: seq<ThreatHit>)
    requires hits != []
  {
    var h := hits[|hits| - 1];
    && r.advisory == k.advisory && r.pkgName == Some(k.pkgName) && r.pkgVersion == Some(k.pkgVersion)
    && r.inventory == (if h.inventory == "" then "declared" else h.inventory)
    && r.verdict == (if h.verdict == "" then "unconfirmed" else h.verdict)
    && r.evidence == LastEvidence(hits)
  }

  lemma {:induction false} RowHoldsLast(hits: seq<ThreatHit>, k: HitKey)
    requires k.Full() && hits != [] && forall h :: h in hits ==> KeyOf(h) == k
    ensures HoldsLast(RowAfter(None, hits).value, k, hits)
  {
    var init, h := hits[..|hits| - 1], hits[|hits| - 1];
    assert h in hits;
    if init != [] {
      RowHoldsLast(init, k);
    }
  }

  lemma {:induction false} HitsAtHaveKey(hits: seq<ThreatHit>, k: HitKey)
    ensures forall h :: h in HitsAt(hits, k) ==> KeyOf(h) == k
  {
    if hits != [] {
      HitsAtHaveKey(hits[..|hits| - 1], k);
    }
  }

  /** Over any run from an empty table the row of a key says what the last hit submitted for it says. */
  lemma {:induction false} RunStoresLast(advisories: set<string>, calls: seq<Call>, k: HitKey)
    requires k.Full() && Run(advisories, [], calls) && HitsAt(AllHits(calls), k) != []
    ensures var row := Lookup(Rows(advisories, [], calls), k);
            row.Some? && HoldsLast(row.value, k, HitsAt(AllHits(calls), k))
  {
    RunAtKey(advisories, [], calls, k);
    HitsAtHaveKey(AllHits(calls), k);
    RowHoldsLast(HitsAt(AllHits(calls), k), k);
  }

  /** The report of hit `j`: the hit, with the statuses its row has after it. */
  ghost predicate ReportOf(x: ThreatHit, row: Option<Row>, hits: seq<ThreatHit>, j: nat)
    requires j < |hits|
  {
    var r := RowAfter(row, hits[..j + 1]);
    r.Some? && x == hits[j].(inventory := r.value.inventory, runtime := r.value.runtime, verdict := r.value.verdict)
  }

  lemma ReportOfSnoc(x: ThreatHit, row: Option<Row>, init: seq<ThreatHit>, h: ThreatHit, j: nat)
    requires j < |init| && ReportOf(x, row, init, j)
    ensures ReportOf(x, row, init + [h], j)
  {
    assert (init + [h])[..j + 1] == init[..j + 1] && (init + [h])[j] == init[j];
  }

  /** Whatever is reported is the report of one of the hits. */
  lemma {:induction false} ReportsCarryRows(row: Option<Row>, hits: seq<ThreatHit>, x: ThreatHit)
    returns (j: nat)
    requires x in Reports(row, hits)
    ensures j < |hits| && ReportOf(x, row, hits, j)
  {
    var init, h := hits[..|hits| - 1], hits[|hits| - 1];
    Text.SplitLast(hits);
    if x in Reports(row, init) {
      j := ReportsCarryRows(row, init, x);
      ReportOfSnoc(x, row, init, h, j);
    } else {
      j := |init|;
      assert hits[..j + 1] == hits;
    }
  }

  ghost predicate Clean(k: HitKey) {
    NUL !in k.advisory && NUL !in k.pkgName && NUL !in k.pkgVersion
  }

  ghost function KnownStatus(prior: map<string, PriorRow>, k: HitKey): Option<Status> {
    if k.Text() in prior then Some(Status(prior[k.Text()].inventory, prior[k.Text()].verdict)) else None
  }

  lemma StepReports(advisories: set<string>, o: Outcome, h: ThreatHit, k: HitKey)
    requires Clean(k) && !Step(advisories, o, h, false).failed
    ensures var p := Step(advisories, o, h, false); var known := KnownStatus(o.prior, k);
            && KnownStatus(p.prior, k) == (if Counts(h, k) then Some(StatusOf(h)) else known)
            && Statuses(HitsAt(p.reported, k))
               == Statuses(HitsAt(o.reported, k))
                  + if Counts(h, k) && known != Some(StatusOf(h)) then [StatusOf(h)] else []
  {
    var r := NewRow(o.prior, h);
    if Text.Trim(h.advisory) != "" {
      HitsAtSnoc(o.reported, Report(h, r), k);
      StatusesSnoc(HitsAt(o.reported, k), Report(h, r));
      if KeyOf(h).Text() == k.Text() {
        KeyInjective(k.advisory, k.pkgName, k.pkgVersion, h.advisory, h.pkgName, h.pkgVersion);
      }
    }
  }

  /**
   For every key, empty package fields included: whatever the table holds, a succeeding call reports the changes
   of the submitted statuses against the status that was read.
   */
  lemma {:induction false} CallReportsChanges(
    advisories: set<string>, rows: seq<Row>, prior: map<string, PriorRow>, hits: seq<ThreatHit>, k: HitKey)
    requires Clean(k) && Succeeds(advisories, rows, prior, hits)
    ensures var o := Loop(advisories, rows, prior, hits, _ => false); var submitted := Statuses(HitsAt(hits, k));
            && KnownStatus(o.prior, k) == Latest(KnownStatus(prior, k), submitted)
            && Statuses(HitsAt(o.reported, k)) == Changes(KnownStatus(prior, k), submitted)
  {
    if hits != [] {
      var init, h := hits[..|hits| - 1], hits[|hits| - 1];
      CallReportsChanges(advisories, rows, prior, init, k);
      StepReports(advisories, Loop(advisories, rows, prior, init, _ => false), h, k);
      if Counts(h, k) {
        StatusesSnoc(HitsAt(init, k), h);
        assert (Statuses(HitsAt(init, k)) + [StatusOf(h)])[..|HitsAt(init, k)|] == Statuses(HitsAt(init, k));
      }
    }
  }

  // ---------------------------------------------------------------- repeating a sync

  ghost predicate AllSame(s: seq<Status>) {
    forall i, j :: 0 <= i < j < |s| ==> s[i] == s[j]
  }

  lemma {:induction false} NoChanges(prev: Status, s: seq<Status>)
    ensures Changes(Some(prev), s) == [] <==> forall i :: 0 <= i < |s| ==> s[i] == prev
  {
    if s != [] {
      var init := s[..|s| - 1];
      NoChanges(prev, init);
      assert forall i :: 0 <= i < |init| ==> init[i] == s[i];
    }
  }

  /**
   Submitting the same hits again reports nothing for a key exactly when all its hits in the list carry
   the same inventory and match statuses.
   */
  lemma {:induction false} RepeatReportsNothing(
    advisories: set<string>, rows: seq<Row>, first: Call, second: Call, k: HitKey)
    requires Unique(rows) && k.Full() && Run(advisories, rows, [first, second]) && first.hits == second.hits
    ensures var before := Rows(advisories, rows, [first]);
            HitsAt(Loop(advisories, before, second.prior, second.hits, _ => false).reported, k) == []
            <==> AllSame(Statuses(HitsAt(first.hits, k)))
  {
    var calls, hits := [first, second], HitsAt(first.hits, k);
    assert calls[..1] == [first] && [first][..0] == [];
    var before := Rows(advisories, rows, [first]);
    RunAtKey(advisories, rows, [first], k);
    assert AllHits([first]) == AllHits([]) + first.hits == first.hits;
    ListedIsLinked(before, second.prior, k);
    CallAtKey(advisories, before, second.prior, second.hits, k);
    RepeatAtKey(Lookup(rows, k), hits);
  }

  /** A row whose hits are submitted twice reports nothing the second time exactly when they agree. */
  lemma {:induction false} RepeatAtKey(row: Option<Row>, hits: seq<ThreatHit>)
    ensures Reports(RowAfter(row, hits), hits) == [] <==> AllSame(Statuses(hits))
  {
    if hits != [] {
      var after := RowAfter(row, hits);
      var last := StatusOf(hits[|hits| - 1]);
      ReportsAreChanges(after, hits);
      NoChanges(last, Statuses(hits));
      assert |Statuses(Reports(after, hits))| == |Reports(after, hits)|;
      assert Statuses(hits)[|hits| - 1] == last;
    }
  }

  // ---------------------------------------------------------------- failing calls

  /** A failing call stores the hits before the one that failed and reports nothing. */
  lemma {:induction false} FailureKeepsPrefix(
    advisories: set<string>, rows: seq<Row>, prior: map<string, PriorRow>, hits: seq<ThreatHit>, broken: nat -> bool)
    returns (n: nat)
    requires Loop(advisories, rows, prior, hits, broken).failed
    ensures n < |hits| && Succeeds(advisories, rows, prior, hits[..n])
    ensures Loop(advisories, rows, prior, hits, broken).rows
         == Loop(advisories, rows, prior, hits[..n], _ => false).rows
  {
    var m := |hits| - 1;
    if Loop(advisories, rows, prior, hits[..m], broken).failed {
      n := FailureKeepsPrefix(advisories, rows, prior, hits[..m], broken);
      assert hits[..m][..n] == hits[..n];
    } else {
      n := m;
      BrokenUnused(advisories, rows, prior, hits[..m], broken);
    }
  }

  lemma {:induction false} BrokenUnused(
    advisories: set<string>, rows: seq<Row>, prior: map<string, PriorRow>, hits: seq<ThreatHit>, broken: nat -> bool)
    requires !Loop(advisories, rows, prior, hits, broken).failed
    ensures Loop(advisories, rows, prior, hits, _ => false) == Loop(advisories, rows, prior, hits, broken)
  {
    if hits != [] {
      BrokenUnused(advisories, rows, prior, hits[..|hits| - 1], broken);
    }
  }

  /** The rows a call leaves, whether or not it fails. */
  ghost function RowsLeft(advisories: set<string>, rows: seq<Row>, call: Call, broken: nat -> bool): seq<Row> {
    Loop(advisories, rows, call.prior, call.hits, broken).rows
  }

  /** The statuses a succeeding call reports for a key. */
  ghost function ReportedAt(advisories: set<string>, rows: seq<Row>, call: Call, k: HitKey): seq<Status> {
    Statuses(HitsAt(Loop(advisories, rows, call.prior, call.hits, _ => false).reported, k))
  }

  /** A call that does not fail reports its changes against the row from before. */
  lemma {:induction false} UnbrokenReports(advisories: set<string>, rows: seq<Row>, call: Call, k: HitKey)
    requires Unique(rows) && k.Full() && Listed(call.prior, rows)
    requires Succeeds(advisories, rows, call.prior, call.hits)
    ensures ReportedAt(advisories, rows, call, k) == Changes(RowStatus(Lookup(rows, k)), Statuses(HitsAt(call.hits, k)))
  {
    ListedIsLinked(rows, call.prior, k);
    CallAtKey(advisories, rows, call.prior, call.hits, k);
    ReportsAreChanges(Lookup(rows, k), HitsAt(call.hits, k));
  }

  /**
   After a call that failed at hit `n` a succeeding retry of the whole list reports its changes against the
   hits before `n`, which were stored and not reported.
   */
  lemma {:induction false} RetryReports(
    advisories: set<string>, rows: seq<Row>, first: Call, broken: nat -> bool, retry: Call, k: HitKey)
    returns (n: nat)
    requires Unique(rows) && k.Full() && Listed(first.prior, rows) && retry.hits == first.hits
    requires Loop(advisories, rows, first.prior, first.hits, broken).failed
    requires var stored := RowsLeft(advisories, rows, first, broken);
             Listed(retry.prior, stored) && Succeeds(advisories, stored, retry.prior, retry.hits)
    ensures n < |first.hits| && Succeeds(advisories, rows, first.prior, first.hits[..n])
    ensures RowsLeft(advisories, rows, first, broken)
         == Loop(advisories, rows, first.prior, first.hits[..n], _ => false).rows
    ensures ReportedAt(advisories, RowsLeft(advisories, rows, first, broken), retry, k)
         == Changes(Latest(RowStatus(Lookup(rows, k)), Statuses(HitsAt(first.hits[..n], k))),
                    Statuses(HitsAt(first.hits, k)))
  {
    n := FailureKeepsPrefix(advisories, rows, first.prior, first.hits, broken);
    ListedIsLinked(rows, first.prior, k);
    CallAtKey(advisories, rows, first.prior, first.hits[..n], k);
    ReportsAreChanges(Lookup(rows, k), HitsAt(first.hits[..n], k));
    UnbrokenReports(advisories, RowsLeft(advisories, rows, first, broken), retry, k);
  }

  lemma {:induction false} FirstIsChange(s: seq<Status>)
    ensures s != [] ==> Changes(None, s) != []
  {
    if |s| > 1 {
      FirstIsChange(s[..|s| - 1]);
    }
  }

  lemma {:induction false} NoChangesFrom(prev: Option<Status>, s: seq<Status>)
    requires s != [] && AllSame(s)
    ensures Changes(prev, s) == [] <==> prev == Some(s[0])
  {
    if prev.Some? {
      NoChanges(prev.value, s);
    } else {
      FirstIsChange(s);
    }
  }

  lemma {:induction false} PrefixStatuses(hits: seq<ThreatHit>, n: nat, k: HitKey)
    requires n <= |hits|
    ensures Statuses(HitsAt(hits[..n], k)) <= Statuses(HitsAt(hits, k))
  {
    Text.SplitAt(hits, n);
    HitsAtConcat(hits[..n], hits[n..], k);
  }

  /** A call that does not fail reports a key whose hits agree exactly when their status is new. */
  lemma {:induction false} UnbrokenReportsNews(advisories: set<string>, rows: seq<Row>, call: Call, k: HitKey)
    requires Unique(rows) && k.Full() && Listed(call.prior, rows)
    requires Succeeds(advisories, rows, call.prior, call.hits)
    requires var statuses := Statuses(HitsAt(call.hits, k)); statuses != [] && AllSame(statuses)
    ensures ReportedAt(advisories, rows, call, k) == []
       <==> RowStatus(Lookup(rows, k)) == Some(StatusOf(HitsAt(call.hits, k)[0]))
  {
    UnbrokenReports(advisories, rows, call, k);
    NoChangesFrom(RowStatus(Lookup(rows, k)), Statuses(HitsAt(call.hits, k)));
  }

  /**
   After a failure the retry reports it exactly when, besides, none of its hits had been stored: the news
   of every other key is lost.
   */
  lemma {:induction false} FailureSwallowsReports(
    advisories: set<string>, rows: seq<Row>, first: Call, broken: nat -> bool, retry: Call, k: HitKey)
    returns (n: nat)
    requires Unique(rows) && k.Full() && Listed(first.prior, rows) && retry.hits == first.hits
    requires Loop(advisories, rows, first.prior, first.hits, broken).failed
    requires var stored := RowsLeft(advisories, rows, first, broken);
             Listed(retry.prior, stored) && Succeeds(advisories, stored, retry.prior, retry.hits)
    requires var statuses := Statuses(HitsAt(first.hits, k)); statuses != [] && AllSame(statuses)
    ensures n < |first.hits|
    ensures RowsLeft(advisories, rows, first, broken)
         == Loop(advisories, rows, first.prior, first.hits[..n], _ => false).rows
    ensures ReportedAt(advisories, RowsLeft(advisories, rows, first, broken), retry, k) == []
       <==> || HitsAt(first.hits[..n], k) != []
            || RowStatus(Lookup(rows, k)) == Some(StatusOf(HitsAt(first.hits, k)[0]))
  {
    n := RetryReports(advisories, rows, first, broken, retry, k);
    var statuses, done := Statuses(HitsAt(first.hits, k)), Statuses(HitsAt(first.hits[..n], k));
    PrefixStatuses(first.hits, n, k);
    NoChangesFrom(Latest(RowStatus(Lookup(rows, k)), done), statuses);
    if done != [] {
      assert done[|done| - 1] == statuses[|done| - 1] == statuses[0];
    }
  }

  lemma {:induction false} LoopTwice(
    advisories: set<string>, rows: seq<Row>, prior: map<string, PriorRow>, h: ThreatHit, broken: nat -> bool)
    ensures var once := Step(advisories, Outcome(rows, prior, [], false), h, broken(0));
            && Loop(advisories, rows, prior, [h], broken) == once
            && Loop(advisories, rows, prior, [h, h], broken)
               == if once.failed then once else Step(advisories, once, h, broken(1))
  {
    assert [h, h][..1] == [h] && [h][..0] == [];
    assert Loop(advisories, rows, prior, [], broken) == Outcome(rows, prior, [], false);
  }

  /** A hit submitted again to what it was stored as. */
  lemma StepAgain(advisories: set<string>, o: Outcome, h: ThreatHit)
    requires Text.Trim(h.advisory) != "" && KeyOf(h).Full() && Acceptable(advisories, NewRow(map[], h))
    requires var r := NewRow(map[], h);
             o == Outcome([r], map[KeyOf(h).Text() := PriorRow(r.inventory, r.runtime, r.verdict)], o.reported, false)
    ensures Step(advisories, o, h, false) == o
  {
    var r := NewRow(map[], h);
    assert NewRow(o.prior, h) == r;
    assert Upsert([r], r) == [r];
  }

  /** Such news: a new hit that is stored before the call fails, and that neither call reports. */
  lemma {:induction false} NewsIsLost(advisories: set<string>, h: ThreatHit)
    returns (first: Call, broken: nat -> bool, retry: Call)
    requires Text.Trim(h.advisory) != "" && KeyOf(h).Full() && Acceptable(advisories, NewRow(map[], h))
    ensures Listed(first.prior, []) && retry.hits == first.hits
    ensures Loop(advisories, [], first.prior, first.hits, broken).failed
    ensures var stored := RowsLeft(advisories, [], first, broken);
            && Listed(retry.prior, stored) && Succeeds(advisories, stored, retry.prior, retry.hits)
            && ReportedAt(advisories, stored, retry, KeyOf(h)) == []
    ensures Succeeds(advisories, [], first.prior, first.hits)
    ensures ReportedAt(advisories, [], first, KeyOf(h)) == [StatusOf(h)]
  {
    var r := NewRow(map[], h);
    var prior := map[KeyOf(h).Text() := PriorRow(r.inventory, r.runtime, r.verdict)];
    first, retry := Call(map[], [h, h]), Call(prior, [h, h]);
    broken := n => n == 1;
    LoopTwice(advisories, [], map[], h, broken);
    LoopTwice(advisories, [], map[], h, _ => false);
    LoopTwice(advisories, [r], prior, h, _ => false);
    assert Upsert([], r) == [r];
    StepAgain(advisories, Outcome([r], prior, [], false), h);
    StepAgain(advisories, Outcome([r], prior, [Report(h, r)], false), h);
    assert ReadsAs(r, KeyOf(h).Text(), prior[KeyOf(h).Text()]);
    HitsAtSnoc([], Report(h, r), KeyOf(h));
    assert [] + [Report(h, r)] == [Report(h, r)];
  }
}
