/**
 The correlation graph over the findings of a scan batch and the confidence scores derived from it
 (internal/repository/finding.go). A refresh rebuilds the edges of one finding and rescores only
 that finding and its matches.
 */
module Correlation {
  import opened Wrappers

  /** A UUID, ordered as its text is. */
  type Id = nat

  /** A row of `findings`; the empty string stands for NULL in the text columns read through COALESCE. */
  datatype Finding = Finding(
    batch: Id, scanner: string, rule: string, file: string, line: Option<int>,
    cve: Option<string>, secret: string, suppressed: bool, pkg: string)

  /** `correlation_type`. */
  datatype Kind = SameFamilyBatch | OtherKind(name: string)

  type Edges = map<(Id, Id), Kind>
  type Score = Option<real>

  /** Scanner name to category. */
  type Registry = map<string, string>

  const IAC := "iac"

  predicate SameCategory(registry: Registry, a: string, b: string) {
    a in registry && b in registry && registry[a] == registry[b]
  }

  function Abs(n: int): nat {
    if n < 0 then -n else n
  }

  // ---------------------------------------------------------------- the match predicate

  function LineThreshold(category: string): nat {
    if category == IAC then 15 else 5
  }

  /** The WHERE clause of the batch query, for the row `row` and the finding `current`. */
  predicate RowMatches(current: Finding, category: string, row: Finding) {
    && row.batch == current.batch
    && !row.suppressed
    && (category == IAC || row.scanner != current.scanner)
    && (|| (current.secret != "" && row.secret == current.secret)
        || (current.rule != "" && row.rule == current.rule)
        || (current.cve.Some? && row.cve == current.cve)
        || (current.file != "" && row.file == current.file && row.line.Some?
            && Abs(row.line.value - (if current.line.Some? then current.line.value else 0)) <= LineThreshold(category))
        || (current.pkg != "" && row.pkg == current.pkg))
  }

  /** `findBatchMatches` keeps `row` when it is called for `current`. */
  predicate Correlates(registry: Registry, current: Finding, row: Finding) {
    && current.scanner in registry && !current.suppressed
    && RowMatches(current, registry[current.scanner], row)
    && SameCategory(registry, current.scanner, row.scanner)
  }

  /** The threshold and the same-scanner flag come from one side only, yet the relation is symmetric. */
  lemma CorrelatesSymmetric(registry: Registry, a: Finding, b: Finding)
    requires a.line.Some? && b.line.Some?
    ensures Correlates(registry, a, b) <==> Correlates(registry, b, a)
  {
    assert Abs(b.line.value - a.line.value) == Abs(a.line.value - b.line.value);
  }

  /**
   It needs the line numbers: without one, an unsuppressed row that has a file path, of a category with a second
   scanner, finds matches that do not find it. `Insert` writes a line number, so only a row written in
   some other way can be like that.
   */
  lemma MissingLineIsAsymmetric(registry: Registry, a: Finding, other: string) returns (b: Finding)
    requires a.line.None? && a.file != "" && !a.suppressed
    requires SameCategory(registry, a.scanner, other) && other != a.scanner
    ensures b.line.Some? && Correlates(registry, a, b) && !Correlates(registry, b, a)
  {
    b := Finding(a.batch, other, "", a.file, Some(0), None, "", false, "");
  }

  // ---------------------------------------------------------------- tables

  /** What scores depend on. */
  datatype Tables = Tables(
    registry: Registry,
    scans: set<(Id, string)>,       // batch and scanner of every scan
    findings: map<Id, Finding>,
    edges: Edges)

  datatype Db = Db(t: Tables, scores: map<Id, Score>)

  function Canonical(a: Id, b: Id): (Id, Id) {
    if a > b then (b, a) else (a, b)
  }

  function Matches(t: Tables, id: Id): set<Id>
    requires id in t.findings
  {
    set x | x in t.findings && x != id && Correlates(t.registry, t.findings[id], t.findings[x])
  }

  predicate Touches(p: (Id, Id), id: Id) {
    p.0 == id || p.1 == id
  }

  function Other(p: (Id, Id), id: Id): Id {
    if p.0 == id then p.1 else p.0
  }

  function ClearEdges(edges: Edges, id: Id): Edges {
    map p | p in edges && !(edges[p] == SameFamilyBatch && Touches(p, id)) :: edges[p]
  }

  function Pairs(id: Id, matched: set<Id>): set<(Id, Id)> {
    set x | x in matched :: Canonical(id, x)
  }

  function AddEdges(edges: Edges, id: Id, matched: set<Id>): Edges {
    map p | p in edges.Keys + Pairs(id, matched) :: if p in Pairs(id, matched) then SameFamilyBatch else edges[p]
  }

  /** The scanners of the batch that could corroborate a finding. */
  function Peers(t: Tables, f: Finding): set<string> {
    set s | s in t.scans && s.0 == f.batch && s.1 != f.scanner && SameCategory(t.registry, f.scanner, s.1) :: s.1
  }

  /** The findings an edge leads to. */
  function Neighbours(edges: Edges, id: Id): set<Id> {
    set p | p in edges && edges[p] == SameFamilyBatch && Touches(p, id) :: Other(p, id)
  }

  function Corroborating(t: Tables, id: Id): set<string> {
    set x | x in Neighbours(t.edges, id) && x in t.findings :: t.findings[x].scanner
  }

  function Confidence(corroborated: nat, peers: nat): Score {
    if peers > 0 && corroborated > 0 then
      var calculated := 0.5 + 0.5 * (corroborated as real / peers as real);
      Some(if calculated > 1.0 then 1.0 else calculated)
    else None
  }

  /** The score computed from the tables as they are. */
  function ScoreOf(t: Tables, id: Id): Score
    requires id in t.findings
  {
    Confidence(|Corroborating(t, id)|, |Peers(t, t.findings[id])|)
  }

  /** Every score is NULL or above one half and at most one. */
  lemma ConfidenceRange(corroborated: nat, peers: nat)
    ensures var s := Confidence(corroborated, peers); s.Some? ==> 0.5 < s.value <= 1.0
  {
    if peers > 0 && corroborated > 0 {
      assert corroborated as real / peers as real > 0.0;
    }
  }

  function Rescore(t: Tables, scores: map<Id, Score>, ids: set<Id>): map<Id, Score>
    requires ids <= t.findings.Keys
  {
    map x | x in scores.Keys + ids :: if x in ids then ScoreOf(t, x) else scores[x]
  }

  /** `RefreshBatchCorrelation`; an unknown finding or scanner is an error that changes nothing. */
  function Refresh(db: Db, id: Id): Db {
    if id !in db.t.findings || db.t.findings[id].scanner !in db.t.registry then db
    else
      var matched := Matches(db.t, id);
      var t := db.t.(edges := AddEdges(ClearEdges(db.t.edges, id), id, matched));
      Db(t, Rescore(t, db.scores, {id} + matched))
  }

  /** `Insert`, for a row that is not a duplicate. */
  function Insert(db: Db, id: Id, f: Finding): Db {
    Db(db.t.(findings := db.t.findings[id := f]), db.scores[id := None])
  }

  /** `InsertCorrelations`: an edge of another kind, unless the pair has an edge already. */
  function Annotate(db: Db, p: (Id, Id), name: string): Db {
    if p in db.t.edges then db else db.(t := db.t.(edges := db.t.edges[p := OtherKind(name)]))
  }

  // ---------------------------------------------------------------- the repository

  function Elements(s: seq<Id>): set<Id> {
    set x | x in s
  }

  lemma ElementsSnoc(s: seq<Id>, i: nat)
    requires i < |s|
    ensures Elements(s[..i + 1]) == Elements(s[..i]) + {s[i]}
  {
    assert s[..i + 1] == s[..i] + [s[i]];
  }

  lemma PairsSnoc(id: Id, matched: set<Id>, x: Id)
    ensures Pairs(id, matched + {x}) == Pairs(id, matched) + {Canonical(id, x)}
  {
  }

  lemma AddEdgesSnoc(edges: Edges, id: Id, matched: set<Id>, x: Id)
    ensures AddEdges(edges, id, matched)[Canonical(id, x) := SameFamilyBatch] == AddEdges(edges, id, matched + {x})
  {
    PairsSnoc(id, matched, x);
  }

  lemma RescoreSnoc(t: Tables, scores: map<Id, Score>, ids: set<Id>, x: Id)
    requires ids + {x} <= t.findings.Keys
    ensures Rescore(t, scores, ids)[x := ScoreOf(t, x)] == Rescore(t, scores, ids + {x})
  {
  }

  class Repository {
    const registry: Registry
    var scans: set<(Id, string)>
    var findings: map<Id, Finding>
    var edges: Edges
    var scores: map<Id, Score>

    function Now(): Tables
      reads this
    {
      Tables(registry, scans, findings, edges)
    }

    ghost function State(): Db
      reads this
    {
      Db(Now(), scores)
    }

    method FindBatchMatches(id: Id) returns (matched: seq<Id>)
      requires id in findings && findings[id].scanner in registry
      ensures Elements(matched) == Matches(Now(), id)
    {
      matched := [];
      var current := findings[id];
      if current.suppressed {
        return;
      }
      var category := registry[current.scanner];
      var rows := findings.Keys;
      while rows != {}
        invariant rows <= findings.Keys
        invariant Elements(matched) == Matches(Now(), id) - rows
        decreases rows
      {
        var row :| row in rows;
        rows := rows - {row};
        if row != id && RowMatches(current, category, findings[row])
           && SameCategory(registry, current.scanner, findings[row].scanner) {
          assert Elements(matched + [row]) == Elements(matched) + {row};
          matched := matched + [row];
        }
      }
    }

    method ReplaceCorrelationSet(id: Id, matched: seq<Id>)
      modifies this`edges
      ensures edges == AddEdges(ClearEdges(old(edges), id), id, Elements(matched))
    {
      edges := ClearEdges(edges, id);
      ghost var cleared := edges;
      for i := 0 to |matched|
        invariant edges == AddEdges(cleared, id, Elements(matched[..i]))
      {
        AddEdgesSnoc(cleared, id, Elements(matched[..i]), matched[i]);
        ElementsSnoc(matched, i);
        edges := edges[Canonical(id, matched[i]) := SameFamilyBatch];
      }
      assert matched[..|matched|] == matched;
    }

    method RecalculateConfidence(id: Id)
      requires id in findings && findings[id].scanner in registry
      modifies this`scores
      ensures scores == old(scores)[id := ScoreOf(Now(), id)]
    {
      var current := findings[id];
      var peers := Peers(Now(), current);
      var corroborated := {};
      var pairs := edges.Keys;
      while pairs != {}
        invariant pairs <= edges.Keys
        invariant corroborated == set p | p in edges.Keys - pairs && edges[p] == SameFamilyBatch && Touches(p, id)
                                          && Other(p, id) in findings :: findings[Other(p, id)].scanner
        decreases pairs
      {
        var p :| p in pairs;
        pairs := pairs - {p};
        if edges[p] == SameFamilyBatch && Touches(p, id) && Other(p, id) in findings {
          corroborated := corroborated + {findings[Other(p, id)].scanner};
        }
      }
      assert corroborated == Corroborating(Now(), id);
      scores := scores[id := Confidence(|corroborated|, |peers|)];
    }

    /** Rescore the listed findings. */
    method RecalculateAll(impacted: seq<Id>)
      requires forall x :: x in impacted ==> x in findings && findings[x].scanner in registry
      modifies this`scores
      ensures Elements(impacted) <= findings.Keys
      ensures scores == Rescore(Now(), old(scores), Elements(impacted))
    {
      ghost var before := scores;
      for i := 0 to |impacted|
        invariant Elements(impacted[..i]) <= findings.Keys
        invariant scores == Rescore(Now(), before, Elements(impacted[..i]))
      {
        assert impacted[i] in impacted;
        RescoreSnoc(Now(), before, Elements(impacted[..i]), impacted[i]);
        ElementsSnoc(impacted, i);
        RecalculateConfidence(impacted[i]);
      }
      assert impacted[..|impacted|] == impacted;
    }

    method RefreshBatchCorrelation(id: Id) returns (ok: bool)
      modifies this`edges, this`scores
      ensures ok <==> id in findings && findings[id].scanner in registry
      ensures State() == Refresh(old(State()), id)
    {
      if id !in findings || findings[id].scanner !in registry {
        return false;
      }
      var matched := FindBatchMatches(id);
      ReplaceCorrelationSet(id, matched);
      var impacted := [id] + matched;
      assert Elements(impacted) == {id} + Elements(matched);
      forall x | x in impacted ensures x in findings && findings[x].scanner in registry {
        assert x == id || x in Elements(matched);
      }
      RecalculateAll(impacted);
      return true;
    }
  }
}
