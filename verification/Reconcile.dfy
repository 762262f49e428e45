/**
 Reconciling the threat hits of a project (internal/repository/threats.go:220-322, internal/threats/track2.go):
 each hit is upserted, the runtime level only rises, and only new or changed rows are reported.
 */
module Reconcile {
  import opened Wrappers
  import Text

  /** An empty `evidence` is none. */
  datatype ThreatHit = ThreatHit(
    advisory: string, pkgName: string, pkgVersion: string,
    inventory: string, runtime: string, verdict: string, evidence: string)

  /** A row of `project_inventory_hits` of one project; None is NULL. */
  datatype Row = Row(
    advisory: string, pkgName: Option<string>, pkgVersion: Option<string>,
    inventory: string, runtime: string, verdict: string, evidence: Option<string>)

  datatype PriorRow = PriorRow(inventory: string, runtime: string, verdict: string)

  // ---------------------------------------------------------------- runtime levels

  function RuntimeRank(s: string): Option<nat> {
    if s == "L0" then Some(0)
    else if s == "L1" then Some(1)
    else if s == "L2" then Some(2)
    else if s == "L3" then Some(3)
    else if s == "L4" then Some(4)
    else None
  }

  function PromoteRuntime(from: string, to: string): Option<string> {
    if RuntimeRank(from).None? || RuntimeRank(to).None? then None
    else if RuntimeRank(to).value < RuntimeRank(from).value then None
    else Some(to)
  }

  lemma LevelText(a: char, b: char)
    ensures Text.LexLess(['L', a], ['L', b]) <==> a < b
  {
    assert ['L', a][1..] == [a] && ['L', b][1..] == [b] && [a][1..] == [] && [b][1..] == [];
    assert Text.LexLess([a], [b]) <==> a < b;
  }

  /** The levels are "L0" to "L4", ordered as their text is: no level is replaced by a lower one. */
  lemma {:induction false} PromoteExactly(from: string, to: string)
    ensures var levels := {"L0", "L1", "L2", "L3", "L4"};
            PromoteRuntime(from, to)
            == if from in levels && to in levels && !Text.LexLess(to, from) then Some(to) else None
  {
    var levels := {"L0", "L1", "L2", "L3", "L4"};
    if from in levels && to in levels {
      LevelText(to[1], from[1]);
      assert to == ['L', to[1]] && from == ['L', from[1]];
    }
  }

  // ---------------------------------------------------------------- keys

  const NUL: char := '\0'

  function ReconcileKey(advisory: string, pkgName: string, pkgVersion: string): string {
    advisory + [NUL] + pkgName + [NUL] + pkgVersion
  }

  lemma {:induction false} CutAtNul(a: string, b: string, x: string, y: string)
    requires NUL !in a && NUL !in b && a + [NUL] + x == b + [NUL] + y
    ensures a == b && x == y
  {
    var s, t := a + [NUL] + x, b + [NUL] + y;
    if a != [] && b != [] {
      assert s[1..] == a[1..] + [NUL] + x && t[1..] == b[1..] + [NUL] + y;
      CutAtNul(a[1..], b[1..], x, y);
      assert a == [s[0]] + a[1..] && b == [t[0]] + b[1..];
    } else {
      assert s[0] == t[0] && s[1..] == t[1..];
    }
  }

  /** Joining with NUL is injective on advisories and names without one. */
  lemma KeyInjective(a: string, n: string, v: string, b: string, m: string, w: string)
    requires NUL !in a && NUL !in n && NUL !in b && NUL !in m
    requires ReconcileKey(a, n, v) == ReconcileKey(b, m, w)
    ensures a == b && n == m && v == w
  {
    assert ReconcileKey(a, n, v) == a + [NUL] + (n + [NUL] + v);
    assert ReconcileKey(b, m, w) == b + [NUL] + (m + [NUL] + w);
    CutAtNul(a, b, n + [NUL] + v, m + [NUL] + w);
    CutAtNul(n, m, v, w);
  }

  /** A key whose package fields are both given. */
  datatype HitKey = HitKey(advisory: string, pkgName: string, pkgVersion: string) {
    predicate Full() {
      pkgName != "" && pkgVersion != "" && NUL !in advisory && NUL !in pkgName && NUL !in pkgVersion
    }

    function Text(): string {
      ReconcileKey(advisory, pkgName, pkgVersion)
    }
  }

  function KeyOf(h: ThreatHit): HitKey {
    HitKey(h.advisory, h.pkgName, h.pkgVersion)
  }

  function Coalesce(o: Option<string>): string {
    if o.Some? then o.value else ""
  }

  function NullIf(s: string): Option<string> {
    if s == "" then None else Some(s)
  }

  function RowKey(r: Row): HitKey {
    HitKey(r.advisory, Coalesce(r.pkgName), Coalesce(r.pkgVersion))
  }

  // ---------------------------------------------------------------- one statement

  /** The CHECK constraints, the foreign key, and PostgreSQL's refusal of NUL in text. */
  predicate Acceptable(advisories: set<string>, r: Row) {
    && r.advisory in advisories
    && r.inventory in {"declared", "detected", "corroborated"}
    && RuntimeRank(r.runtime).Some?
    && r.verdict in {"unconfirmed", "active_threat", "dismissed"}
    && NUL !in r.advisory && NUL !in Coalesce(r.pkgName) && NUL !in Coalesce(r.pkgVersion)
  }

  /** Two rows conflict on the unique index, in which NULLs are distinct. */
  predicate Conflict(r: Row, s: Row) {
    r.pkgName.Some? && r.pkgVersion.Some? && s.pkgName.Some? && s.pkgVersion.Some? && RowKey(r) == RowKey(s)
  }

  /** INSERT ... ON CONFLICT DO UPDATE. */
  function Upsert(rows: seq<Row>, r: Row): seq<Row> {
    if rows == [] then [r]
    else
      var n := |rows| - 1;
      if Conflict(rows[n], r) then rows[n := Merge(rows[n], r)] else Upsert(rows[..n], r) + [rows[n]]
  }

  function Merge(stored: Row, r: Row): Row {
    stored.(inventory := r.inventory, runtime := r.runtime, verdict := r.verdict,
         evidence := if r.evidence.Some? then r.evidence else stored.evidence)
  }

  // ---------------------------------------------------------------- one call

  datatype Outcome = Outcome(rows: seq<Row>, prior: map<string, PriorRow>, reported: seq<ThreatHit>, failed: bool)

  function Default(s: string, d: string): string {
    if s == "" then d else s
  }

  function FinalRuntime(prior: map<string, PriorRow>, key: string, runtime: string): string {
    if key !in prior then runtime
    else
      var promoted := PromoteRuntime(prior[key].runtime, runtime);
      if promoted.Some? then promoted.value else prior[key].runtime
  }

  function NewRow(prior: map<string, PriorRow>, h: ThreatHit): Row {
    Row(h.advisory, NullIf(h.pkgName), NullIf(h.pkgVersion), Default(h.inventory, "declared"),
        FinalRuntime(prior, KeyOf(h).Text(), Default(h.runtime, "L0")), Default(h.verdict, "unconfirmed"),
        NullIf(h.evidence))
  }

  function Report(h: ThreatHit, r: Row): ThreatHit {
    h.(inventory := r.inventory, runtime := r.runtime, verdict := r.verdict)
  }

  predicate Changed(prior: map<string, PriorRow>, key: string, r: Row) {
    key in prior ==> prior[key].inventory != r.inventory || prior[key].verdict != r.verdict
  }

  /** One turn of the loop; `broken` is a failure of the statement for a reason outside this model. */
  function Step(advisories: set<string>, o: Outcome, h: ThreatHit, broken: bool): Outcome {
    if Text.Trim(h.advisory) == "" then o
    else
      var key := KeyOf(h).Text();
      var r := NewRow(o.prior, h);
      if broken || !Acceptable(advisories, r) then o.(failed := true)
      else Outcome(Upsert(o.rows, r), o.prior[key := PriorRow(r.inventory, r.runtime, r.verdict)],
                   if Changed(o.prior, key, r) then o.reported + [Report(h, r)] else o.reported, false)
  }

  /** The loop over `hits`; an error ends it and keeps the rows written so far. */
  function Loop(advisories: set<string>, rows: seq<Row>, prior: map<string, PriorRow>,
                hits: seq<ThreatHit>, broken: nat -> bool): Outcome
  {
    if hits == [] then Outcome(rows, prior, [], false)
    else
      var n := |hits| - 1;
      var before := Loop(advisories, rows, prior, hits[..n], broken);
      if before.failed then before else Step(advisories, before, hits[n], broken(n))
  }

  /** `prior` was read from `rows`, in whatever order. */
  ghost predicate Listed(prior: map<string, PriorRow>, rows: seq<Row>) {
    && (forall r :: r in rows ==> RowKey(r).Text() in prior)
    && Traced(prior, rows)
  }

  ghost predicate Traced(prior: map<string, PriorRow>, rows: seq<Row>) {
    forall key :: key in prior ==> exists r :: r in rows && ReadsAs(r, key, prior[key])
  }

  predicate ReadsAs(r: Row, key: string, p: PriorRow) {
    RowKey(r).Text() == key && p == PriorRow(r.inventory, r.runtime, r.verdict)
  }

  class ThreatRepo {
    var advisories: set<string>
    var rows: seq<Row>

    /** The rows come in any order. */
    method LoadPrior() returns (prior: map<string, PriorRow>)
      ensures Listed(prior, rows)
    {
      prior := map[];
      var pending := set r | r in rows;
      while pending != {}
        invariant forall r :: r in pending ==> r in rows
        invariant forall r :: r in rows && r !in pending ==> RowKey(r).Text() in prior
        invariant Traced(prior, rows)
        decreases pending
      {
        var r :| r in pending;
        pending := pending - {r};
        prior := prior[RowKey(r).Text() := PriorRow(r.inventory, r.runtime, r.verdict)];
      }
    }

    method ReconcileHits(hits: seq<ThreatHit>, broken: nat -> bool)
      returns (r: Option<seq<ThreatHit>>, ghost prior0: map<string, PriorRow>)
      modifies this`rows
      ensures Listed(prior0, old(rows))
      ensures var o := Loop(advisories, old(rows), prior0, hits, broken);
              rows == o.rows && r == if o.failed then None else Some(o.reported)
    {
      var prior := LoadPrior();
      prior0 := prior;
      var reported := [];
      for i := 0 to |hits|
        invariant Loop(advisories, old(rows), prior0, hits[..i], broken) == Outcome(rows, prior, reported, false)
      {
        assert hits[..i + 1][..i] == hits[..i];
        var h := hits[i];
        if Text.Trim(h.advisory) == "" {
          continue;
        }
        var key := ReconcileKey(h.advisory, h.pkgName, h.pkgVersion);
        var row := NewRow(prior, h);
        if broken(i) || !Acceptable(advisories, row) {
          FailureEnds(advisories, old(rows), prior0, hits, broken, i + 1);
          return None, prior0;
        }
        rows := Upsert(rows, row);
        if Changed(prior, key, row) {
          reported := reported + [Report(h, row)];
        }
        prior := prior[key := PriorRow(row.inventory, row.runtime, row.verdict)];
      }
      assert hits[..|hits|] == hits;
      return Some(reported), prior0;
    }
  }

  lemma PrefixOfPrefix<T>(s: seq<T>, n: nat, i: nat)
    requires i <= n <= |s|
    ensures s[..n][..i] == s[..i]
  {
  }

  /** What follows a failing hit changes nothing more. */
  lemma {:induction false} FailureEnds(advisories: set<string>, rows: seq<Row>, prior: map<string, PriorRow>,
                                       hits: seq<ThreatHit>, broken: nat -> bool, i: nat)
    requires i <= |hits| && Loop(advisories, rows, prior, hits[..i], broken).failed
    ensures Loop(advisories, rows, prior, hits, broken) == Loop(advisories, rows, prior, hits[..i], broken)
    decreases |hits|
  {
    if i == |hits| {
      assert hits[..i] == hits;
    } else {
      var n := |hits| - 1;
      PrefixOfPrefix(hits, n, i);
      FailureEnds(advisories, rows, prior, hits[..n], broken, i);
    }
  }

  // ---------------------------------------------------------------- the table

  ghost predicate Free(rows: seq<Row>, x: Row) {
    forall r :: r in rows ==> !Conflict(r, x)
  }

  /** The unique index, and no NUL in any key. */
  ghost predicate Unique(rows: seq<Row>) {
    rows != [] ==>
      var init, last := rows[..|rows| - 1], rows[|rows| - 1];
      Unique(init) && Storable(last) && Free(init, last)
  }

  ghost predicate Storable(r: Row) {
    && NUL !in r.advisory && NUL !in Coalesce(r.pkgName) && NUL !in Coalesce(r.pkgVersion)
    && r.pkgName != Some("") && r.pkgVersion != Some("") && RuntimeRank(r.runtime).Some?
  }

  /** The row of a full key. */
  ghost function Lookup(rows: seq<Row>, k: HitKey): Option<Row> {
    if rows == [] then None
    else if RowKey(rows[|rows| - 1]) == k then Some(rows[|rows| - 1])
    else Lookup(rows[..|rows| - 1], k)
  }

  lemma {:induction false} UpsertKeepsFree(rows: seq<Row>, r: Row, x: Row)
    requires Free(rows, x) && !Conflict(r, x)
    ensures Free(Upsert(rows, r), x)
  {
    if rows != [] {
      var n := |rows| - 1;
      if Conflict(rows[n], r) {
        forall y | y in rows[n := Merge(rows[n], r)] ensures !Conflict(y, x) {
          assert y in rows || y == Merge(rows[n], r);
          assert rows[n] in rows;
        }
      } else {
        assert Free(rows[..n], x);
        UpsertKeepsFree(rows[..n], r, x);
        assert rows[n] in rows;
      }
    }
  }

  lemma UniqueSnoc(rows: seq<Row>, r: Row)
    ensures Unique(rows + [r]) <==> Unique(rows) && Storable(r) && Free(rows, r)
  {
    assert (rows + [r])[..|rows|] == rows;
  }

  lemma {:induction false} UpsertKeepsUnique(rows: seq<Row>, r: Row)
    requires Unique(rows) && Storable(r)
    ensures Unique(Upsert(rows, r))
  {
    if rows == [] {
      UniqueSnoc([], r);
      assert [] + [r] == [r];
    } else {
      var n := |rows| - 1;
      if Conflict(rows[n], r) {
        assert rows[n := Merge(rows[n], r)] == rows[..n] + [Merge(rows[n], r)];
        UniqueSnoc(rows[..n], Merge(rows[n], r));
      } else {
        UpsertKeepsUnique(rows[..n], r);
        UpsertKeepsFree(rows[..n], r, rows[n]);
        UniqueSnoc(Upsert(rows[..n], r), rows[n]);
      }
    }
  }

  /** An upsert sets the row of its own full key and leaves the rows of the others. */
  lemma {:induction false} UpsertLookup(rows: seq<Row>, r: Row, k: HitKey)
    requires Unique(rows) && Storable(r) && k.Full()
    ensures var before, after := Lookup(rows, k), Lookup(Upsert(rows, r), k);
            after == if RowKey(r) != k then before
                     else if before.Some? then Some(Merge(before.value, r)) else Some(r)
  {
    if rows == [] {
      assert [r][..0] == [];
    } else {
      var n := |rows| - 1;
      if Conflict(rows[n], r) {
        assert rows[n := Merge(rows[n], r)][..n] == rows[..n];
      } else {
        UpsertLookup(rows[..n], r, k);
        assert (Upsert(rows[..n], r) + [rows[n]])[..|Upsert(rows[..n], r)|] == Upsert(rows[..n], r);
      }
    }
  }

  /** Submitting a stored hit again adds a row exactly when one of its package fields is empty. */
  lemma {:induction false} ResubmittingAddsRow(rows: seq<Row>, r: Row)
    requires Storable(r)
    ensures |Upsert(Upsert(rows, r), r)| == |Upsert(rows, r)| + (if r.pkgName.None? || r.pkgVersion.None? then 1 else 0)
  {
    if rows == [] {
      assert [r][..0] == [];
    } else {
      var n := |rows| - 1;
      if Conflict(rows[n], r) {
        var once := Upsert(rows, r);
        assert once[n] == Merge(rows[n], r);
      } else {
        ResubmittingAddsRow(rows[..n], r);
        var once := Upsert(rows[..n], r) + [rows[n]];
        assert once[..|once| - 1] == Upsert(rows[..n], r);
      }
    }
  }

  /** A hit with an empty package field is stored as a row of its own, whatever is stored. */
  lemma {:induction false} NullRowIsAdded(rows: seq<Row>, r: Row)
    requires r.pkgName.None? || r.pkgVersion.None?
    ensures Upsert(rows, r) == [r] + rows
  {
    if rows != [] {
      var n := |rows| - 1;
      NullRowIsAdded(rows[..n], r);
      Text.SplitLast(rows);
      Text.ConcatAssociative([r], rows[..n], [rows[n]]);
    }
  }

  lemma {:induction false} LookupFinds(rows: seq<Row>, r: Row, k: HitKey)
    requires Unique(rows) && k.Full() && r in rows && RowKey(r) == k
    ensures Lookup(rows, k) == Some(r)
  {
    var n := |rows| - 1;
    if r in rows[..n] {
      LookupFinds(rows[..n], r, k);
    } else {
      assert r == rows[n];
    }
    assert RowKey(rows[n]) == k ==> r == rows[n];
  }

  lemma {:induction false} LookupIsStored(rows: seq<Row>, k: HitKey)
    requires Lookup(rows, k).Some?
    ensures var r := Lookup(rows, k).value; r in rows && RowKey(r) == k
  {
    if RowKey(rows[|rows| - 1]) != k {
      LookupIsStored(rows[..|rows| - 1], k);
    }
  }

  lemma {:induction false} RowsStorable(rows: seq<Row>, r: Row)
    requires Unique(rows) && r in rows
    ensures Storable(r)
  {
    if r != rows[|rows| - 1] {
      RowsStorable(rows[..|rows| - 1], r);
    }
  }

  // ---------------------------------------------------------------- one key

  /** The map entry of a full key agrees with its row. */
  ghost predicate Linked(rows: seq<Row>, prior: map<string, PriorRow>, k: HitKey) {
    var row := Lookup(rows, k);
    && (k.Text() in prior <==> row.Some?)
    && (row.Some? ==> ReadsAs(row.value, k.Text(), prior[k.Text()]))
  }

  /** Whatever order the rows are read in, the map agrees with the table on every full key. */
  lemma {:induction false} ListedIsLinked(rows: seq<Row>, prior: map<string, PriorRow>, k: HitKey)
    requires Unique(rows) && k.Full() && Listed(prior, rows)
    ensures Linked(rows, prior, k)
  {
    if k.Text() in prior {
      var r :| r in rows && ReadsAs(r, k.Text(), prior[k.Text()]);
      RowsStorable(rows, r);
      KeyInjective(k.advisory, k.pkgName, k.pkgVersion, RowKey(r).advisory, RowKey(r).pkgName, RowKey(r).pkgVersion);
      LookupFinds(rows, r, k);
    }
    if Lookup(rows, k).Some? {
      LookupIsStored(rows, k);
    }
  }

  predicate Counts(h: ThreatHit, k: HitKey) {
    Text.Trim(h.advisory) != "" && KeyOf(h) == k
  }

  function HitsAt(hits: seq<ThreatHit>, k: HitKey): seq<ThreatHit> {
    if hits == [] then []
    else
      var last := hits[|hits| - 1];
      var before := HitsAt(hits[..|hits| - 1], k);
      if Counts(last, k) then before + [last] else before
  }

  /** What a submission makes of the row of its key. */
  ghost function Submitted(row: Option<Row>, h: ThreatHit): Row {
    var inventory, runtime, verdict :=
      Default(h.inventory, "declared"), Default(h.runtime, "L0"), Default(h.verdict, "unconfirmed");
    if row.None? then
      Row(h.advisory, NullIf(h.pkgName), NullIf(h.pkgVersion), inventory, runtime, verdict, NullIf(h.evidence))
    else
      var promoted := PromoteRuntime(row.value.runtime, runtime);
      row.value.(inventory := inventory, verdict := verdict,
                 runtime := if promoted.Some? then promoted.value else row.value.runtime,
                 evidence := if h.evidence != "" then Some(h.evidence) else row.value.evidence)
  }

  /** The row of a key after its submissions. */
  ghost function RowAfter(row: Option<Row>, hits: seq<ThreatHit>): Option<Row> {
    if hits == [] then row else Some(Submitted(RowAfter(row, hits[..|hits| - 1]), hits[|hits| - 1]))
  }

  /** What is reported for a key: a submission of a new row, or with other statuses. */
  ghost function Reports(row: Option<Row>, hits: seq<ThreatHit>): seq<ThreatHit> {
    if hits == [] then []
    else
      var init, h := hits[..|hits| - 1], hits[|hits| - 1];
      NextReport(RowAfter(row, init), h, Reports(row, init))
  }

  ghost function NextReport(row: Option<Row>, h: ThreatHit, reports: seq<ThreatHit>): seq<ThreatHit> {
    var r := Submitted(row, h);
    if row.None? || row.value.inventory != r.inventory || row.value.verdict != r.verdict then reports + [Report(h, r)]
    else reports
  }

  /** A hit with the key `k`: the row, the map entry and the report. */
  lemma StepAtKey(advisories: set<string>, o: Outcome, h: ThreatHit, k: HitKey)
    requires Unique(o.rows) && k.Full() && Linked(o.rows, o.prior, k) && Counts(h, k)
    ensures var p, row := Step(advisories, o, h, false), Lookup(o.rows, k); var r := Submitted(row, h);
            !p.failed ==>
              && Unique(p.rows) && Linked(p.rows, p.prior, k) && Lookup(p.rows, k) == Some(r)
              && p.reported == NextReport(row, h, o.reported)
  {
    var r := NewRow(o.prior, h);
    if Acceptable(advisories, r) {
      UpsertKeepsUnique(o.rows, r);
      UpsertLookup(o.rows, r, k);
    }
  }

  /** A hit with another key. */
  lemma StepElsewhere(advisories: set<string>, o: Outcome, h: ThreatHit, k: HitKey)
    requires Unique(o.rows) && k.Full() && Linked(o.rows, o.prior, k) && !Counts(h, k)
    ensures var p := Step(advisories, o, h, false);
            !p.failed ==>
              && Unique(p.rows) && Linked(p.rows, p.prior, k) && Lookup(p.rows, k) == Lookup(o.rows, k)
              && HitsAt(p.reported, k) == HitsAt(o.reported, k)
  {
    var r := NewRow(o.prior, h);
    if Text.Trim(h.advisory) != "" && Acceptable(advisories, r) {
      UpsertKeepsUnique(o.rows, r);
      UpsertLookup(o.rows, r, k);
      if KeyOf(h).Text() == k.Text() {
        KeyInjective(k.advisory, k.pkgName, k.pkgVersion, h.advisory, h.pkgName, h.pkgVersion);
      }
      HitsAtSnoc(o.reported, Report(h, r), k);
    }
  }

  lemma HitsAtSnoc(hits: seq<ThreatHit>, h: ThreatHit, k: HitKey)
    ensures HitsAt(hits + [h], k) == if Counts(h, k) then HitsAt(hits, k) + [h] else HitsAt(hits, k)
  {
    assert (hits + [h])[..|hits|] == hits;
  }

  lemma NextReportAt(row: Option<Row>, h: ThreatHit, reports: seq<ThreatHit>, k: HitKey)
    requires Counts(h, k)
    ensures HitsAt(NextReport(row, h, reports), k) == NextReport(row, h, HitsAt(reports, k))
  {
    HitsAtSnoc(reports, Report(h, Submitted(row, h)), k);
  }

  /** No statement fails. */
  ghost predicate Succeeds(
    advisories: set<string>, rows: seq<Row>, prior: map<string, PriorRow>, hits: seq<ThreatHit>)
  {
    !Loop(advisories, rows, prior, hits, _ => false).failed
  }

  /** What a succeeding call stores and reports for a key depends on that key's row and hits only. */
  lemma {:induction false} CallAtKey(
    advisories: set<string>, rows: seq<Row>, prior: map<string, PriorRow>, hits: seq<ThreatHit>, k: HitKey)
    requires Unique(rows) && k.Full() && Linked(rows, prior, k)
    requires Succeeds(advisories, rows, prior, hits)
    ensures var o := Loop(advisories, rows, prior, hits, _ => false); var row := Lookup(rows, k);
            && Unique(o.rows) && Linked(o.rows, o.prior, k)
            && Lookup(o.rows, k) == RowAfter(row, HitsAt(hits, k))
            && HitsAt(o.reported, k) == Reports(row, HitsAt(hits, k))
  {
    if hits != [] {
      var init, h := hits[..|hits| - 1], hits[|hits| - 1];
      CallAtKey(advisories, rows, prior, init, k);
      var o := Loop(advisories, rows, prior, init, _ => false);
      if Counts(h, k) {
        StepAtKey(advisories, o, h, k);
        NextReportAt(Lookup(o.rows, k), h, o.reported, k);
        assert (HitsAt(init, k) + [h])[..|HitsAt(init, k)|] == HitsAt(init, k);
      } else {
        StepElsewhere(advisories, o, h, k);
      }
    }
  }

  // ---------------------------------------------------------------- what makes a call fail

  /** The key was read from the table, or belongs to one of the first `i` hits. */
  ghost predicate Seen(prior: map<string, PriorRow>, hits: seq<ThreatHit>, i: nat, key: string)
    requires i <= |hits|
  {
    key in prior || exists j :: 0 <= j < i && Text.Trim(hits[j].advisory) != "" && KeyOf(hits[j]).Text() == key
  }

  /** The database does not take the hit; with a `known` key an unknown runtime level is replaced by the stored one. */
  ghost predicate Refused(advisories: set<string>, h: ThreatHit, known: bool) {
    || h.advisory !in advisories
    || h.inventory !in {"", "declared", "detected", "corroborated"}
    || h.verdict !in {"", "unconfirmed", "active_threat", "dismissed"}
    || (!known && h.runtime !in {"", "L0", "L1", "L2", "L3", "L4"})
    || NUL in h.advisory || NUL in h.pkgName || NUL in h.pkgVersion
  }

  ghost predicate FailsAt(
    advisories: set<string>, prior: map<string, PriorRow>, hits: seq<ThreatHit>, broken: nat -> bool, i: nat)
    requires i < |hits|
  {
    var h := hits[i];
    Text.Trim(h.advisory) != "" && (broken(i) || Refused(advisories, h, Seen(prior, hits, i, KeyOf(h).Text())))
  }

  ghost predicate KnownLevels(prior: map<string, PriorRow>) {
    forall key :: key in prior ==> prior[key].runtime in {"L0", "L1", "L2", "L3", "L4"}
  }

  lemma RowRefused(advisories: set<string>, prior: map<string, PriorRow>, h: ThreatHit)
    requires KnownLevels(prior)
    ensures Acceptable(advisories, NewRow(prior, h)) <==> !Refused(advisories, h, KeyOf(h).Text() in prior)
    ensures Acceptable(advisories, NewRow(prior, h)) ==> NewRow(prior, h).runtime in {"L0", "L1", "L2", "L3", "L4"}
  {
  }

  lemma SeenSnoc(prior: map<string, PriorRow>, init: seq<ThreatHit>, h: ThreatHit, i: nat, key: string)
    requires i <= |init|
    ensures Seen(prior, init + [h], i, key) <==> Seen(prior, init, i, key)
    ensures Seen(prior, init + [h], |init| + 1, key)
       <==> Seen(prior, init, |init|, key) || (Text.Trim(h.advisory) != "" && KeyOf(h).Text() == key)
  {
    var hits := init + [h];
    assert hits[|init|] == h;
    assert forall j :: 0 <= j < |init| ==> hits[j] == init[j];
  }

  lemma FailsAtSnoc(advisories: set<string>, prior: map<string, PriorRow>, init: seq<ThreatHit>, h: ThreatHit,
                    broken: nat -> bool, i: nat)
    requires i < |init|
    ensures FailsAt(advisories, prior, init + [h], broken, i) <==> FailsAt(advisories, prior, init, broken, i)
  {
    SeenSnoc(prior, init, h, i, KeyOf(init[i]).Text());
  }

  ghost predicate SomeFails(
    advisories: set<string>, prior: map<string, PriorRow>, hits: seq<ThreatHit>, broken: nat -> bool)
  {
    exists i :: 0 <= i < |hits| && FailsAt(advisories, prior, hits, broken, i)
  }

  lemma SomeFailsSnoc(advisories: set<string>, prior: map<string, PriorRow>, init: seq<ThreatHit>, h: ThreatHit,
                      broken: nat -> bool)
    ensures SomeFails(advisories, prior, init + [h], broken)
       <==> SomeFails(advisories, prior, init, broken) || FailsAt(advisories, prior, init + [h], broken, |init|)
  {
    forall i | 0 <= i < |init|
      ensures FailsAt(advisories, prior, init + [h], broken, i) <==> FailsAt(advisories, prior, init, broken, i)
    {
      FailsAtSnoc(advisories, prior, init, h, broken, i);
    }
  }

  lemma StepFailsExactly(advisories: set<string>, o: Outcome, h: ThreatHit, broken: bool)
    requires KnownLevels(o.prior) && !o.failed
    ensures var p, skipped := Step(advisories, o, h, broken), Text.Trim(h.advisory) == "";
            && (p.failed <==> !skipped && (broken || Refused(advisories, h, KeyOf(h).Text() in o.prior)))
            && (!p.failed ==> KnownLevels(p.prior))
            && (!p.failed ==> forall key :: key in p.prior <==> key in o.prior || (!skipped && KeyOf(h).Text() == key))
  {
    RowRefused(advisories, o.prior, h);
  }

  /** For every list of hits: a call fails exactly when its statement fails for one of them, or refuses it. */
  lemma {:induction false} CallFailsExactly(
    advisories: set<string>, rows: seq<Row>, prior: map<string, PriorRow>, hits: seq<ThreatHit>, broken: nat -> bool)
    requires KnownLevels(prior)
    ensures var o := Loop(advisories, rows, prior, hits, broken);
            && (o.failed <==> SomeFails(advisories, prior, hits, broken))
            && (!o.failed ==> KnownLevels(o.prior))
            && (!o.failed ==> forall key :: key in o.prior <==> Seen(prior, hits, |hits|, key))
  {
    if hits != [] {
      var init, h := hits[..|hits| - 1], hits[|hits| - 1];
      Text.SplitLast(hits);
      CallFailsExactly(advisories, rows, prior, init, broken);
      SomeFailsSnoc(advisories, prior, init, h, broken);
      var o := Loop(advisories, rows, prior, init, broken);
      if !o.failed {
        forall key ensures Seen(prior, hits, |hits|, key)
                      <==> key in o.prior || (Text.Trim(h.advisory) != "" && KeyOf(h).Text() == key)
        {
          SeenSnoc(prior, init, h, |init|, key);
        }
        SeenSnoc(prior, init, h, |init|, KeyOf(h).Text());
        StepFailsExactly(advisories, o, h, broken(|init|));
      }
    }
  }
}
