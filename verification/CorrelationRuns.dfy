/**
 Runs of inserts and refreshes (each refresh atomic): the incrementally maintained graph is the one
 computed from scratch, and no stored score is ever stale (internal/repository/finding.go).
 */
module CorrelationRuns {
  import opened Wrappers
  import opened Correlation

  datatype Event =
    | Inserted(id: Id, finding: Finding)
    | Refreshed(id: Id)
    | Annotated(pair: (Id, Id), name: string)

  /** What the database accepts: fresh ids with a line number, and edges between present findings. */
  ghost predicate Possible(db: Db, e: Event) {
    match e
    case Inserted(id, f) => id !in db.t.findings && f.line.Some?
    case Refreshed(id) => id in db.t.findings
    case Annotated(p, _) => p.0 < p.1 && p.0 in db.t.findings && p.1 in db.t.findings
  }

  ghost function Apply(db: Db, e: Event): Db {
    match e
    case Inserted(id, f) => Insert(db, id, f)
    case Refreshed(id) => Refresh(db, id)
    case Annotated(p, name) => Annotate(db, p, name)
  }

  ghost function Empty(registry: Registry, scans: set<(Id, string)>): Db {
    Db(Tables(registry, scans, map[], map[]), map[])
  }

  ghost function Run(db: Db, events: seq<Event>): Db {
    if events == [] then db else Apply(Run(db, events[..|events| - 1]), events[|events| - 1])
  }

  ghost predicate Valid(db: Db, events: seq<Event>) {
    events != [] ==>
      var init := events[..|events| - 1];
      Valid(db, init) && Possible(Run(db, init), events[|events| - 1])
  }

  /** The findings that were refreshed after they were inserted. */
  ghost function RefreshedIds(events: seq<Event>): set<Id> {
    if events == [] then {}
    else
      var last := events[|events| - 1];
      RefreshedIds(events[..|events| - 1]) + if last.Refreshed? then {last.id} else {}
  }

  // ---------------------------------------------------------------- the graph from scratch

  type Relation = set<(Id, Id)>

  /** The pairs of present findings that match, in both orders. */
  ghost function Related(t: Tables): Relation {
    set a, b | a in t.findings && b in t.findings && a != b
               && Correlates(t.registry, t.findings[a], t.findings[b]) :: (a, b)
  }

  ghost predicate Symmetric(rel: Relation) {
    forall a, b :: (a, b) in rel ==> (b, a) in rel
  }

  /** The canonical pairs of related findings. */
  ghost function FromScratch(t: Tables): set<(Id, Id)> {
    set p | p in Related(t) && p.0 < p.1
  }

  ghost function FamilyEdges(edges: Edges): set<(Id, Id)> {
    set p | p in edges && edges[p] == SameFamilyBatch
  }

  // ---------------------------------------------------------------- the invariant

  ghost predicate Lined(t: Tables) {
    forall x :: x in t.findings ==> t.findings[x].line.Some?
  }

  /** Every edge of the family is a canonical pair of related findings. */
  ghost predicate Sound(rel: Relation, edges: Edges) {
    forall p :: p in FamilyEdges(edges) ==> p.0 < p.1 && p in rel
  }

  /** Two related findings that were both refreshed have their edge. */
  ghost predicate Complete(rel: Relation, edges: Edges, refreshed: set<Id>) {
    forall a, b :: a in refreshed && b in refreshed && (a, b) in rel ==> Canonical(a, b) in FamilyEdges(edges)
  }

  ghost predicate Fresh(db: Db) {
    && db.scores.Keys == db.t.findings.Keys
    && forall x :: x in db.t.findings ==> db.scores[x] == ScoreOf(db.t, x)
  }

  ghost predicate Inv(db: Db, refreshed: set<Id>) {
    && Lined(db.t) && Sound(Related(db.t), db.t.edges)
    && refreshed <= db.t.findings.Keys && Complete(Related(db.t), db.t.edges, refreshed)
    && Fresh(db)
  }

  lemma RelatedSymmetric(t: Tables)
    requires Lined(t)
    ensures Symmetric(Related(t))
  {
    forall a, b | (a, b) in Related(t) ensures (b, a) in Related(t) {
      CorrelatesSymmetric(t.registry, t.findings[a], t.findings[b]);
    }
  }

  ghost function MatchesIn(rel: Relation, id: Id): set<Id> {
    set p | p in rel && p.0 == id :: p.1
  }

  lemma MatchesAreRelated(t: Tables, id: Id)
    requires id in t.findings
    ensures Matches(t, id) == MatchesIn(Related(t), id)
    ensures t.findings[id].scanner !in t.registry ==> Matches(t, id) == {}
  {
    forall x ensures x in Matches(t, id) <==> x in MatchesIn(Related(t), id) {
      if x in Matches(t, id) {
        assert (id, x) in Related(t);
      }
    }
  }

  /** The scores depend on the family edges only. */
  lemma SameNeighbours(t: Tables, u: Tables, id: Id)
    requires t == u.(edges := t.edges) && id in t.findings
    requires forall p :: Touches(p, id) ==> (p in FamilyEdges(t.edges) <==> p in FamilyEdges(u.edges))
    ensures ScoreOf(t, id) == ScoreOf(u, id)
  {
    NeighboursWithin(t.edges, u.edges, id);
    NeighboursWithin(u.edges, t.edges, id);
    assert Corroborating(t, id) == Corroborating(u, id);
    assert Peers(t, t.findings[id]) == Peers(u, u.findings[id]);
  }

  lemma NeighboursWithin(e: Edges, f: Edges, id: Id)
    requires forall p :: p in FamilyEdges(e) && Touches(p, id) ==> p in FamilyEdges(f)
    ensures Neighbours(e, id) <= Neighbours(f, id)
  {
    forall x | x in Neighbours(e, id) ensures x in Neighbours(f, id) {
      var p :| p in FamilyEdges(e) && Touches(p, id) && Other(p, id) == x;
      assert p in FamilyEdges(f);
    }
  }

  // ---------------------------------------------------------------- inserts

  lemma InsertKeepsGraph(t: Tables, refreshed: set<Id>, id: Id, f: Finding)
    requires id !in t.findings && refreshed <= t.findings.Keys
    requires Sound(Related(t), t.edges) && Complete(Related(t), t.edges, refreshed)
    ensures var u := t.(findings := t.findings[id := f]);
            Sound(Related(u), u.edges) && Complete(Related(u), u.edges, refreshed)
  {
    var u := t.(findings := t.findings[id := f]);
    forall a, b | a != id && b != id ensures (a, b) in Related(u) <==> (a, b) in Related(t) {
    }
    forall p | p in FamilyEdges(u.edges) ensures p.0 < p.1 && p in Related(u) {
      assert (p.0, p.1) in Related(t);
    }
  }

  lemma NeighboursPresent(t: Tables, x: Id)
    requires Sound(Related(t), t.edges)
    ensures Neighbours(t.edges, x) <= t.findings.Keys
    ensures x !in t.findings ==> Neighbours(t.edges, x) == {}
  {
    forall p | p in FamilyEdges(t.edges) ensures p.0 in t.findings && p.1 in t.findings {
      assert (p.0, p.1) in Related(t);
    }
    forall y | y in Neighbours(t.edges, x) ensures y in t.findings && x in t.findings {
      var p :| p in FamilyEdges(t.edges) && Touches(p, x) && Other(p, x) == y;
    }
  }

  lemma InsertKeepsScore(t: Tables, id: Id, f: Finding, x: Id)
    requires id !in t.findings && Sound(Related(t), t.edges)
    ensures var u := t.(findings := t.findings[id := f]);
            && ScoreOf(u, id) == None
            && (x in t.findings ==> ScoreOf(u, x) == ScoreOf(t, x))
  {
    var u := t.(findings := t.findings[id := f]);
    NeighboursPresent(t, id);
    assert Corroborating(u, id) == {};
    if x in t.findings {
      NeighboursPresent(t, x);
      assert Corroborating(u, x) == Corroborating(t, x);
      assert Peers(u, u.findings[x]) == Peers(t, t.findings[x]);
    }
  }

  lemma InsertKeepsInv(db: Db, refreshed: set<Id>, id: Id, f: Finding)
    requires Inv(db, refreshed) && Possible(db, Inserted(id, f))
    ensures Inv(Insert(db, id, f), refreshed)
  {
    InsertKeepsGraph(db.t, refreshed, id, f);
    var d := Insert(db, id, f);
    forall x | x in d.t.findings ensures d.scores[x] == ScoreOf(d.t, x) {
      InsertKeepsScore(db.t, id, f, x);
    }
  }

  // ---------------------------------------------------------------- refreshes

  /** After a refresh the family edges at `id` are exactly its matches, and the others are untouched. */
  lemma RefreshedEdges(edges: Edges, id: Id, matched: set<Id>, p: (Id, Id))
    ensures var after := AddEdges(ClearEdges(edges, id), id, matched);
            p in FamilyEdges(after) <==> if Touches(p, id) then p in Pairs(id, matched) else p in FamilyEdges(edges)
  {
  }

  lemma RefreshSound(rel: Relation, edges: Edges, id: Id)
    requires Symmetric(rel) && Sound(rel, edges) && (id, id) !in rel
    ensures Sound(rel, AddEdges(ClearEdges(edges, id), id, MatchesIn(rel, id)))
  {
    var matched := MatchesIn(rel, id);
    var after := AddEdges(ClearEdges(edges, id), id, matched);
    forall p | p in FamilyEdges(after) ensures p.0 < p.1 && p in rel {
      RefreshedEdges(edges, id, matched, p);
      if Touches(p, id) {
        var x :| x in matched && p == Canonical(id, x);
        assert (id, x) in rel && (x, id) in rel;
      }
    }
  }

  lemma RefreshComplete(rel: Relation, edges: Edges, refreshed: set<Id>, id: Id)
    requires Symmetric(rel) && Complete(rel, edges, refreshed)
    ensures Complete(rel, AddEdges(ClearEdges(edges, id), id, MatchesIn(rel, id)), refreshed + {id})
  {
    var matched := MatchesIn(rel, id);
    var after := AddEdges(ClearEdges(edges, id), id, matched);
    forall a, b | a in refreshed + {id} && b in refreshed + {id} && (a, b) in rel
      ensures Canonical(a, b) in FamilyEdges(after)
    {
      RefreshedEdges(edges, id, matched, Canonical(a, b));
      if a == id {
        assert b in matched;
      } else if b == id {
        assert (b, a) in rel && a in matched;
        assert Canonical(a, b) == Canonical(b, a);
      }
    }
  }

  /** A finding that is not a match keeps its family edges, so its score need not be touched. */
  lemma UnmatchedKeepsScore(t: Tables, id: Id, x: Id)
    requires Lined(t) && Sound(Related(t), t.edges)
    requires id in t.findings && x in t.findings && x != id && x !in Matches(t, id)
    ensures ScoreOf(t.(edges := AddEdges(ClearEdges(t.edges, id), id, Matches(t, id))), x) == ScoreOf(t, x)
  {
    RelatedSymmetric(t);
    MatchesAreRelated(t, id);
    var rel, matched := Related(t), Matches(t, id);
    assert (id, x) !in rel && (x, id) !in rel;
    var after := AddEdges(ClearEdges(t.edges, id), id, matched);
    forall p | Touches(p, x) ensures p in FamilyEdges(t.edges) <==> p in FamilyEdges(after) {
      RefreshedEdges(t.edges, id, matched, p);
      if Touches(p, id) {
        assert p == (id, x) || p == (x, id);
      }
    }
    SameNeighbours(t.(edges := after), t, x);
  }

  lemma RefreshKeepsGraph(db: Db, refreshed: set<Id>, id: Id)
    requires Inv(db, refreshed) && Possible(db, Refreshed(id))
    ensures var t := Refresh(db, id).t; Sound(Related(t), t.edges) && Complete(Related(t), t.edges, refreshed + {id})
  {
    var t := db.t;
    RelatedSymmetric(t);
    MatchesAreRelated(t, id);
    if t.findings[id].scanner in t.registry {
      assert Related(Refresh(db, id).t) == Related(t);
      RefreshSound(Related(t), t.edges, id);
      RefreshComplete(Related(t), t.edges, refreshed, id);
    } else {
      UnknownScanner(Related(t), t.edges, refreshed, id);
    }
  }

  lemma RefreshedScore(db: Db, id: Id, x: Id)
    requires Lined(db.t) && Sound(Related(db.t), db.t.edges) && Fresh(db)
    requires id in db.t.findings && db.t.findings[id].scanner in db.t.registry && x in db.t.findings
    ensures var d := Refresh(db, id); x in d.scores && d.scores[x] == ScoreOf(d.t, x)
  {
    if x != id && x !in Matches(db.t, id) {
      UnmatchedKeepsScore(db.t, id, x);
      assert Refresh(db, id).scores[x] == db.scores[x];
    }
  }

  lemma RefreshKeepsKeys(db: Db, id: Id)
    requires db.scores.Keys == db.t.findings.Keys && id in db.t.findings
    ensures Refresh(db, id).scores.Keys == db.t.findings.Keys && Refresh(db, id).t.findings == db.t.findings
  {
  }

  lemma RefreshKeepsScores(db: Db, id: Id, d: Db)
    requires Lined(db.t) && Sound(Related(db.t), db.t.edges) && Fresh(db) && id in db.t.findings
    requires d == Refresh(db, id)
    ensures Fresh(d)
  {
    RefreshKeepsKeys(db, id);
    forall x | x in d.t.findings ensures d.scores[x] == ScoreOf(d.t, x) {
      if db.t.findings[id].scanner in db.t.registry {
        RefreshedScore(db, id, x);
      }
    }
  }

  lemma RefreshKeepsInv(db: Db, refreshed: set<Id>, id: Id)
    requires Inv(db, refreshed) && Possible(db, Refreshed(id))
    ensures Inv(Refresh(db, id), refreshed + {id})
  {
    RefreshKeepsGraph(db, refreshed, id);
    RefreshKeepsScores(db, id, Refresh(db, id));
  }

  lemma UnknownScanner(rel: Relation, edges: Edges, refreshed: set<Id>, id: Id)
    requires Symmetric(rel) && Complete(rel, edges, refreshed) && MatchesIn(rel, id) == {}
    ensures Complete(rel, edges, refreshed + {id})
  {
    forall a, b | (a, b) in rel ensures a != id && b != id {
      assert (b, a) in rel;
      assert a == id ==> b in MatchesIn(rel, id);
      assert b == id ==> a in MatchesIn(rel, id);
    }
  }

  lemma AnnotateKeepsGraph(db: Db, pair: (Id, Id), name: string)
    ensures var t, u := db.t, Annotate(db, pair, name).t;
            FamilyEdges(u.edges) == FamilyEdges(t.edges) && Related(u) == Related(t) && u == t.(edges := u.edges)
  {
  }

  lemma AnnotateKeepsInv(db: Db, refreshed: set<Id>, pair: (Id, Id), name: string)
    requires Inv(db, refreshed)
    ensures Inv(Annotate(db, pair, name), refreshed)
  {
    var t, u := db.t, Annotate(db, pair, name).t;
    AnnotateKeepsGraph(db, pair, name);
    forall x | x in u.findings ensures db.scores[x] == ScoreOf(u, x) {
      SameNeighbours(u, t, x);
    }
  }

  // ---------------------------------------------------------------- runs

  lemma {:induction false} RunKeepsInv(registry: Registry, scans: set<(Id, string)>, events: seq<Event>)
    requires Valid(Empty(registry, scans), events)
    ensures Inv(Run(Empty(registry, scans), events), RefreshedIds(events))
  {
    if events != [] {
      var init, last := events[..|events| - 1], events[|events| - 1];
      RunKeepsInv(registry, scans, init);
      var db := Run(Empty(registry, scans), init);
      match last {
        case Inserted(id, f) => InsertKeepsInv(db, RefreshedIds(init), id, f);
        case Refreshed(id) => RefreshKeepsInv(db, RefreshedIds(init), id);
        case Annotated(p, name) => AnnotateKeepsInv(db, RefreshedIds(init), p, name);
      }
    }
  }

  /** Once every finding was refreshed after its insertion, the edges are those computed from scratch. */
  lemma {:induction false} IncrementalEqualsFromScratch(
    registry: Registry, scans: set<(Id, string)>, events: seq<Event>)
    requires Valid(Empty(registry, scans), events)
    requires Run(Empty(registry, scans), events).t.findings.Keys <= RefreshedIds(events)
    ensures var t := Run(Empty(registry, scans), events).t; FamilyEdges(t.edges) == FromScratch(t)
  {
    RunKeepsInv(registry, scans, events);
    var t := Run(Empty(registry, scans), events).t;
    forall p | p in FromScratch(t) ensures p in FamilyEdges(t.edges) {
      assert (p.0, p.1) in Related(t) && Canonical(p.0, p.1) == p;
    }
  }

  /** No score is ever stale, whether or not all findings were refreshed. */
  lemma {:induction false} ScoresNeverStale(
    registry: Registry, scans: set<(Id, string)>, events: seq<Event>, x: Id)
    requires Valid(Empty(registry, scans), events)
    requires x in Run(Empty(registry, scans), events).t.findings
    ensures var db := Run(Empty(registry, scans), events);
            && x in db.scores && db.scores[x] == ScoreOf(db.t, x)
            && (db.scores[x].Some? ==> 0.5 < db.scores[x].value <= 1.0)
  {
    RunKeepsInv(registry, scans, events);
    var t := Run(Empty(registry, scans), events).t;
    ConfidenceRange(|Corroborating(t, x)|, |Peers(t, t.findings[x])|);
  }

  lemma SameGraphSameScores(d1: Db, d2: Db)
    requires Fresh(d1) && Fresh(d2) && d1.t == d2.t.(edges := d1.t.edges)
    requires FamilyEdges(d1.t.edges) == FamilyEdges(d2.t.edges)
    ensures d1.scores == d2.scores
  {
    forall x | x in d1.t.findings ensures d1.scores[x] == d2.scores[x] {
      SameNeighbours(d1.t, d2.t, x);
    }
  }

  /** Two fully refreshed runs that insert the same findings end with the same graph and scores. */
  lemma {:induction false} OrderDoesNotMatter(
    registry: Registry, scans: set<(Id, string)>, e1: seq<Event>, e2: seq<Event>)
    requires Valid(Empty(registry, scans), e1) && Valid(Empty(registry, scans), e2)
    requires var t1, t2 := Run(Empty(registry, scans), e1).t, Run(Empty(registry, scans), e2).t;
             t1.findings == t2.findings && t1.findings.Keys <= RefreshedIds(e1) * RefreshedIds(e2)
    ensures var d1, d2 := Run(Empty(registry, scans), e1), Run(Empty(registry, scans), e2);
            FamilyEdges(d1.t.edges) == FamilyEdges(d2.t.edges) && d1.scores == d2.scores
  {
    IncrementalEqualsFromScratch(registry, scans, e1);
    IncrementalEqualsFromScratch(registry, scans, e2);
    SetupNeverChanges(registry, scans, e1);
    SetupNeverChanges(registry, scans, e2);
    RunKeepsInv(registry, scans, e1);
    RunKeepsInv(registry, scans, e2);
    var d1, d2 := Run(Empty(registry, scans), e1), Run(Empty(registry, scans), e2);
    assert Related(d1.t) == Related(d2.t);
    SameGraphSameScores(d1, d2);
  }

  lemma {:induction false} SetupNeverChanges(registry: Registry, scans: set<(Id, string)>, events: seq<Event>)
    ensures var t := Run(Empty(registry, scans), events).t; t.registry == registry && t.scans == scans
  {
    if events != [] {
      SetupNeverChanges(registry, scans, events[..|events| - 1]);
    }
  }

  // ---------------------------------------------------------------- what an edge means

  /** Findings that could corroborate each other: of one batch and category, by two scanners unless it is "iac". */
  ghost predicate Comparable(registry: Registry, a: Finding, b: Finding) {
    && a.batch == b.batch && !a.suppressed && !b.suppressed
    && a.scanner in registry && b.scanner in registry && registry[a.scanner] == registry[b.scanner]
    && (a.scanner != b.scanner || registry[a.scanner] == "iac")
  }

  /** They share a secret, rule, CVE or package, or a file with lines at most `reach` apart. */
  ghost predicate ShareTrait(a: Finding, b: Finding, reach: int) {
    || (a.secret == b.secret != "")
    || (a.rule == b.rule != "")
    || (a.cve == b.cve && a.cve.Some?)
    || (a.pkg == b.pkg != "")
    || (a.file == b.file != "" && a.line.Some? && b.line.Some? && -reach <= a.line.value - b.line.value <= reach)
  }

  ghost predicate Corroborate(registry: Registry, a: Finding, b: Finding) {
    Comparable(registry, a, b) && ShareTrait(a, b, if registry[a.scanner] == "iac" then 15 else 5)
  }

  lemma CorrelatesMeans(registry: Registry, a: Finding, b: Finding)
    requires a.line.Some? && b.line.Some?
    ensures Correlates(registry, a, b) <==> Corroborate(registry, a, b)
  {
  }

  /** A finding without a line number looks for matches as if it were at line zero. */
  lemma MissingLineIsZero(registry: Registry, a: Finding, b: Finding)
    requires a.line.None? && b.line.Some?
    ensures Correlates(registry, a, b) <==> Corroborate(registry, a.(line := Some(0)), b)
  {
    CorrelatesMeans(registry, a.(line := Some(0)), b);
  }

  /**
   In every reachable state, refreshed or not, a family edge joins two unsuppressed findings of one batch and
   category, by different scanners unless it is "iac", that share a trait.
   */
  lemma {:induction false} EdgesAreSound(
    registry: Registry, scans: set<(Id, string)>, events: seq<Event>, p: (Id, Id))
    requires Valid(Empty(registry, scans), events)
    requires p in FamilyEdges(Run(Empty(registry, scans), events).t.edges)
    ensures var findings := Run(Empty(registry, scans), events).t.findings;
            && p.0 < p.1 && p.0 in findings && p.1 in findings
            && Corroborate(registry, findings[p.0], findings[p.1])
  {
    RunKeepsInv(registry, scans, events);
    SetupNeverChanges(registry, scans, events);
    var t := Run(Empty(registry, scans), events).t;
    assert (p.0, p.1) in Related(t);
    CorrelatesMeans(registry, t.findings[p.0], t.findings[p.1]);
  }

  /** In a fully refreshed run two findings have their edge if and only if they are such findings. */
  lemma {:induction false} EdgesExactly(
    registry: Registry, scans: set<(Id, string)>, events: seq<Event>, p: (Id, Id))
    requires Valid(Empty(registry, scans), events)
    requires Run(Empty(registry, scans), events).t.findings.Keys <= RefreshedIds(events)
    ensures var t := Run(Empty(registry, scans), events).t;
            p in FamilyEdges(t.edges)
            <==> && p.0 < p.1 && p.0 in t.findings && p.1 in t.findings
                 && Corroborate(registry, t.findings[p.0], t.findings[p.1])
  {
    RunKeepsInv(registry, scans, events);
    SetupNeverChanges(registry, scans, events);
    IncrementalEqualsFromScratch(registry, scans, events);
    var t := Run(Empty(registry, scans), events).t;
    if p.0 < p.1 && p.0 in t.findings && p.1 in t.findings {
      CorrelatesMeans(registry, t.findings[p.0], t.findings[p.1]);
      assert p in Related(t) <==> (p.0, p.1) in Related(t);
    }
  }

  /** The scanners of the findings that corroborate `x`. */
  ghost function Witnesses(registry: Registry, findings: map<Id, Finding>, x: Id): set<string>
    requires x in findings
  {
    set y | y in findings && y != x && Corroborate(registry, findings[x], findings[y]) :: findings[y].scanner
  }

  /** The other scanners of its category that scanned the batch. */
  ghost function Candidates(registry: Registry, scans: set<(Id, string)>, f: Finding): set<string> {
    set s | s in scans && s.0 == f.batch && s.1 != f.scanner
            && f.scanner in registry && s.1 in registry && registry[s.1] == registry[f.scanner] :: s.1
  }

  /** The canonical pair has an edge exactly if the two findings corroborate each other. */
  ghost predicate EdgeMeans(t: Tables, p: (Id, Id)) {
    p in FamilyEdges(t.edges)
    <==> && p.0 < p.1 && p.0 in t.findings && p.1 in t.findings
         && Corroborate(t.registry, t.findings[p.0], t.findings[p.1])
  }

  lemma NeighboursCorroborate(t: Tables, x: Id, y: Id)
    requires x in t.findings && forall p :: EdgeMeans(t, p)
    ensures y in Neighbours(t.edges, x)
       <==> y in t.findings && y != x && Corroborate(t.registry, t.findings[x], t.findings[y])
  {
    if y in Neighbours(t.edges, x) {
      var p :| p in FamilyEdges(t.edges) && Touches(p, x) && Other(p, x) == y;
      assert EdgeMeans(t, p);
    }
    if y in t.findings && y != x && Corroborate(t.registry, t.findings[x], t.findings[y]) {
      var p := Canonical(x, y);
      assert EdgeMeans(t, p);
    }
  }

  /** `score` is one half, and one half of the share of the candidates that are witnesses, at most one. */
  ghost predicate IsShare(score: Score, witnesses: nat, candidates: nat) {
    if witnesses == 0 || candidates == 0 then score.None?
    else if witnesses >= candidates then score == Some(1.0)
    else score.Some? && 2.0 * score.value * candidates as real == candidates as real + witnesses as real
  }

  lemma ConfidenceIsShare(witnesses: nat, candidates: nat)
    ensures IsShare(Confidence(witnesses, candidates), witnesses, candidates)
  {
    if witnesses > 0 && candidates > 0 {
      var w, c := witnesses as real, candidates as real;
      var share := w / c;
      assert share * c == w;
      if witnesses >= candidates {
        assert share >= 1.0 by {
          if share < 1.0 {
            Smaller(share, 1.0, c);
          }
        }
      } else {
        assert share < 1.0 by {
          if share >= 1.0 {
            NotSmaller(1.0, share, c);
          }
        }
        assert 2.0 * (0.5 + 0.5 * share) * c == c + share * c;
      }
    }
  }

  lemma Smaller(a: real, b: real, c: real)
    requires a < b && c > 0.0
    ensures a * c < b * c
  {
  }

  lemma NotSmaller(a: real, b: real, c: real)
    requires a <= b && c > 0.0
    ensures a * c <= b * c
  {
  }

  lemma CorroboratingAreWitnesses(t: Tables, x: Id)
    requires x in t.findings && forall p :: EdgeMeans(t, p)
    ensures Corroborating(t, x) == Witnesses(t.registry, t.findings, x)
    ensures Peers(t, t.findings[x]) == Candidates(t.registry, t.scans, t.findings[x])
  {
    forall y
      ensures y in Neighbours(t.edges, x)
         <==> y in t.findings && y != x && Corroborate(t.registry, t.findings[x], t.findings[y])
    {
      NeighboursCorroborate(t, x, y);
    }
  }

  /** In a fully refreshed run every score is the share of the candidates that corroborate the finding. */
  lemma {:induction false} ScoresExactly(
    registry: Registry, scans: set<(Id, string)>, events: seq<Event>, x: Id)
    requires Valid(Empty(registry, scans), events)
    requires Run(Empty(registry, scans), events).t.findings.Keys <= RefreshedIds(events)
    requires x in Run(Empty(registry, scans), events).t.findings
    ensures var db := Run(Empty(registry, scans), events);
            && x in db.scores
            && IsShare(db.scores[x], |Witnesses(registry, db.t.findings, x)|,
                       |Candidates(registry, scans, db.t.findings[x])|)
  {
    ScoresNeverStale(registry, scans, events, x);
    SetupNeverChanges(registry, scans, events);
    var t := Run(Empty(registry, scans), events).t;
    forall p ensures EdgeMeans(t, p) {
      EdgesExactly(registry, scans, events, p);
    }
    CorroboratingAreWitnesses(t, x);
    ConfidenceIsShare(|Corroborating(t, x)|, |Peers(t, t.findings[x])|);
  }

  // ---------------------------------------------------------------- edges of other kinds

  /** The kind that was inserted first for the pair. */
  ghost function FirstNote(events: seq<Event>, p: (Id, Id)): Option<string> {
    if events == [] then None
    else
      var before, last := FirstNote(events[..|events| - 1], p), events[|events| - 1];
      if before.None? && last.Annotated? && last.pair == p then Some(last.name) else before
  }

  /** The pair has an edge of another kind if one was inserted, and then the first. */
  ghost predicate Noted(edges: Edges, p: (Id, Id), note: Option<string>) {
    (p in edges <==> note.Some?) && (p in edges ==> edges[p] == OtherKind(note.value))
  }

  lemma NoteStep(db: Db, e: Event, p: (Id, Id), note: Option<string>)
    requires Lined(db.t) && Possible(db, e) && p !in Related(Apply(db, e).t) && (p.1, p.0) !in Related(Apply(db, e).t)
    requires Noted(db.t.edges, p, note)
    ensures Noted(Apply(db, e).t.edges, p,
                  if note.None? && e.Annotated? && e.pair == p then Some(e.name) else note)
  {
    if e.Refreshed? && db.t.findings[e.id].scanner in db.t.registry {
      forall x | x in Matches(db.t, e.id) ensures Canonical(e.id, x) != p {
        assert (e.id, x) in Related(db.t);
      }
    }
  }

  lemma RelatedGrows(db: Db, e: Event, p: (Id, Id))
    requires Possible(db, e) && p in Related(db.t)
    ensures p in Related(Apply(db, e).t)
  {
    assert (p.0, p.1) in Related(Apply(db, e).t);
  }

  /**
   A refresh leaves edges of other kinds alone: over every run a pair that does not corroborate each other has
   the edge that was inserted first for it, if one was, and no edge otherwise.
   */
  lemma {:induction false} NotesAreKept(
    registry: Registry, scans: set<(Id, string)>, events: seq<Event>, p: (Id, Id))
    requires Valid(Empty(registry, scans), events)
    requires var findings := Run(Empty(registry, scans), events).t.findings;
             p.0 in findings && p.1 in findings ==> !Corroborate(registry, findings[p.0], findings[p.1])
    ensures Noted(Run(Empty(registry, scans), events).t.edges, p, FirstNote(events, p))
  {
    RunKeepsInv(registry, scans, events);
    SetupNeverChanges(registry, scans, events);
    var t := Run(Empty(registry, scans), events).t;
    if p.0 in t.findings && p.1 in t.findings {
      CorrelatesMeans(registry, t.findings[p.0], t.findings[p.1]);
    }
    RelatedSymmetric(t);
    assert p !in Related(t) && (p.1, p.0) !in Related(t);
    UnrelatedNotes(registry, scans, events, p);
  }

  lemma {:induction false} UnrelatedNotes(
    registry: Registry, scans: set<(Id, string)>, events: seq<Event>, p: (Id, Id))
    requires Valid(Empty(registry, scans), events)
    requires var t := Run(Empty(registry, scans), events).t; p !in Related(t) && (p.1, p.0) !in Related(t)
    ensures Noted(Run(Empty(registry, scans), events).t.edges, p, FirstNote(events, p))
  {
    if events != [] {
      var init, last := events[..|events| - 1], events[|events| - 1];
      var db := Run(Empty(registry, scans), init);
      RunKeepsInv(registry, scans, init);
      if p in Related(db.t) {
        RelatedGrows(db, last, p);
      }
      if (p.1, p.0) in Related(db.t) {
        RelatedGrows(db, last, (p.1, p.0));
      }
      UnrelatedNotes(registry, scans, init, p);
      NoteStep(db, last, p, FirstNote(init, p));
    }
  }
}
