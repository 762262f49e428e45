/**
 Vulnerabilities aggregated over findings: the upsert that counts them, linking a scanned finding, and the
 backfill of findings that have no vulnerability yet (internal/repository/vulnerability_new.go,
 internal/tasks/scan_run.go).
 */
module Vulnerabilities {
  import opened Wrappers
  import Text

  type Project = nat

  /** What the identity of a vulnerability is computed from. */
  datatype Details = Details(
    rule: string, pkgName: string, pkgVersion: string, cve: string, secretHash: string, filePath: string)

  /** The vulnerability's project and uid; `vulnerabilities` is unique on them. */
  datatype Key = Key(project: Project, uid: string)

  /** A row of `findings` and its scan's project; `vuln` is the `vulnerability_id`. */
  datatype Finding = Finding(
    project: Project, scanner: string, severity: string, details: Details, vuln: Option<Key>)

  datatype Vuln = Vuln(count: nat, coverage: set<string>, severity: string)

  /** Scanner categories, and the uid and engine computed from a category; "" stands for none. */
  datatype Env = Env(categories: map<string, string>, uid: (string, Details) -> string, engine: string -> string)

  /** Findings are in the order of their creation. */
  datatype State = State(findings: seq<Finding>, vulns: map<Key, Vuln>)

  const BATCH_SIZE: nat := 500

  /** How the two statements for one finding end. */
  datatype Fate = Linked | UpsertFails | LinkFails

  predicate Linkable(env: Env, f: Finding) {
    && f.scanner in env.categories
    && env.uid(env.categories[f.scanner], f.details) != ""
    && env.engine(env.categories[f.scanner]) != ""
  }

  function KeyOf(env: Env, f: Finding): Key
    requires Linkable(env, f)
  {
    Key(f.project, env.uid(env.categories[f.scanner], f.details))
  }

  // ---------------------------------------------------------------- one finding

  /** The severities are compared as text. */
  function Upsert(vulns: map<Key, Vuln>, k: Key, scanner: string, severity: string): map<Key, Vuln> {
    if k !in vulns then vulns[k := Vuln(1, {scanner}, severity)]
    else
      var v := vulns[k];
      vulns[k := Vuln(v.count + 1, v.coverage + {scanner},
                      if Text.LexLess(severity, v.severity) then severity else v.severity)]
  }

  function WithVuln(s: seq<Finding>, i: nat, k: Key): (r: seq<Finding>)
    requires i < |s|
    ensures |r| == |s|
  {
    s[i := s[i].(vuln := Some(k))]
  }

  /** Upsert and link finding `i`. */
  function LinkOne(env: Env, s: State, i: nat, fate: Fate): (r: State)
    ensures |r.findings| == |s.findings|
  {
    if i >= |s.findings| || !Linkable(env, s.findings[i]) || fate == UpsertFails then s
    else
      var f := s.findings[i];
      var k := KeyOf(env, f);
      State(if fate == Linked then WithVuln(s.findings, i, k) else s.findings,
            Upsert(s.vulns, k, f.scanner, f.severity))
  }

  // ---------------------------------------------------------------- conservation

  /** How many findings are linked to `k`. */
  function LinkedTo(findings: seq<Finding>, k: Key): nat {
    if findings == [] then 0
    else LinkedTo(findings[..|findings| - 1], k) + if findings[|findings| - 1].vuln == Some(k) then 1 else 0
  }

  function Scanners(findings: seq<Finding>, k: Key): set<string> {
    set f | f in findings && f.vuln == Some(k) :: f.scanner
  }

  function Severities(findings: seq<Finding>, k: Key): set<string> {
    set f | f in findings && f.vuln == Some(k) :: f.severity
  }

  ghost predicate IsLeast(x: string, s: set<string>) {
    x in s && forall y :: y in s ==> !Text.LexLess(y, x)
  }

  /** The row of `k` says what the findings linked to it say. */
  ghost predicate ConservedAt(s: State, k: Key) {
    && (k in s.vulns <==> LinkedTo(s.findings, k) > 0)
    && (k in s.vulns ==>
          && s.vulns[k].count == LinkedTo(s.findings, k)
          && s.vulns[k].coverage == Scanners(s.findings, k)
          && IsLeast(s.vulns[k].severity, Severities(s.findings, k)))
  }

  ghost predicate Conserved(s: State) {
    forall k :: ConservedAt(s, k)
  }

  lemma {:induction false} LinkedToUpdate(findings: seq<Finding>, i: nat, k: Key, key: Key)
    requires i < |findings| && findings[i].vuln.None?
    ensures LinkedTo(WithVuln(findings, i, k), key) == LinkedTo(findings, key) + if key == k then 1 else 0
  {
    var n := |findings| - 1;
    if i < n {
      assert WithVuln(findings, i, k)[..n] == WithVuln(findings[..n], i, k);
      LinkedToUpdate(findings[..n], i, k, key);
    } else {
      assert WithVuln(findings, i, k)[..n] == findings[..n];
    }
  }

  lemma MembersUpdate(findings: seq<Finding>, i: nat, k: Key, key: Key)
    requires i < |findings| && findings[i].vuln.None?
    ensures var after := WithVuln(findings, i, k);
            && Scanners(after, key) == Scanners(findings, key) + (if key == k then {findings[i].scanner} else {})
            && Severities(after, key) == Severities(findings, key) + (if key == k then {findings[i].severity} else {})
  {
    var after := WithVuln(findings, i, k);
    forall f: Finding | f.vuln == Some(key) ensures f in after <==> f in findings || (key == k && f == after[i]) {
      if f in findings {
        var j :| 0 <= j < |findings| && findings[j] == f;
        assert after[j] == f;
      }
    }
    assert after[i] in after;
  }

  lemma {:induction false} NoneLinked(findings: seq<Finding>, k: Key)
    requires LinkedTo(findings, k) == 0
    ensures Scanners(findings, k) == {} && Severities(findings, k) == {}
  {
    forall f | f in findings ensures f.vuln != Some(k) {
      var j :| 0 <= j < |findings| && findings[j] == f;
      LinkedCounts(findings, j, k);
    }
  }

  lemma {:induction false} LinkedCounts(findings: seq<Finding>, j: nat, k: Key)
    requires j < |findings|
    ensures findings[j].vuln == Some(k) ==> LinkedTo(findings, k) > 0
  {
    if j < |findings| - 1 {
      LinkedCounts(findings[..|findings| - 1], j, k);
    }
  }

  lemma LeastOfMore(x: string, s: set<string>, y: string)
    requires IsLeast(x, s)
    ensures IsLeast(if Text.LexLess(y, x) then y else x, s + {y})
  {
    Text.LexTotal(y, y);
    if Text.LexLess(y, x) {
      Text.LexTotal(x, y);
      forall z | z in s ensures !Text.LexLess(z, y) {
        if Text.LexLess(z, y) {
          Text.LexTransitive(z, y, x);
        }
      }
    }
  }

  /** The row of `k` when `failed` links to it failed after their upsert. */
  ghost predicate CountedAt(s: State, k: Key, failed: nat) {
    && (k in s.vulns <==> LinkedTo(s.findings, k) + failed > 0)
    && (k in s.vulns ==>
          && s.vulns[k].count == LinkedTo(s.findings, k) + failed
          && Scanners(s.findings, k) <= s.vulns[k].coverage)
    && (failed == 0 ==> ConservedAt(s, k))
  }

  /** The link of finding `i` to `k` fails after its upsert. */
  predicate LinkLost(env: Env, s: State, i: nat, fate: Fate, k: Key) {
    fate == LinkFails && i < |s.findings| && Linkable(env, s.findings[i]) && KeyOf(env, s.findings[i]) == k
  }

  function Bit(b: bool): nat {
    if b then 1 else 0
  }

  /** A finding is linked: its row gains one, and so does the number of findings linked. */
  lemma LinkCounts(env: Env, s: State, i: nat, k: Key, failed: nat)
    requires i < |s.findings| && s.findings[i].vuln.None? && Linkable(env, s.findings[i])
    requires CountedAt(s, k, failed)
    ensures CountedAt(LinkOne(env, s, i, Linked), k, failed)
  {
    var f := s.findings[i];
    var key := KeyOf(env, f);
    LinkedToUpdate(s.findings, i, key, k);
    MembersUpdate(s.findings, i, key, k);
    if key == k && failed == 0 {
      if k in s.vulns {
        LeastOfMore(s.vulns[k].severity, Severities(s.findings, k), f.severity);
      } else {
        NoneLinked(s.findings, k);
        Text.LexTotal(f.severity, f.severity);
      }
    } else if key == k && k !in s.vulns {
      NoneLinked(s.findings, k);
    }
  }

  lemma LostLinkCounts(env: Env, s: State, i: nat, k: Key, failed: nat)
    requires i < |s.findings| && Linkable(env, s.findings[i]) && CountedAt(s, k, failed)
    ensures CountedAt(LinkOne(env, s, i, LinkFails), k, failed + Bit(KeyOf(env, s.findings[i]) == k))
  {
    if k !in s.vulns {
      NoneLinked(s.findings, k);
    }
  }

  /** Whatever becomes of the two statements for a finding that was not linked. */
  lemma LinkOneCounts(env: Env, s: State, i: nat, fate: Fate, k: Key, failed: nat)
    requires i < |s.findings| && s.findings[i].vuln.None? && CountedAt(s, k, failed)
    ensures CountedAt(LinkOne(env, s, i, fate), k, failed + Bit(LinkLost(env, s, i, fate, k)))
  {
    if Linkable(env, s.findings[i]) {
      if fate == Linked {
        LinkCounts(env, s, i, k, failed);
      } else if fate == LinkFails {
        LostLinkCounts(env, s, i, k, failed);
      }
    }
  }

  /** Linking a finding that was not linked keeps every row in step with the findings. */
  lemma LinkOneConserves(env: Env, s: State, i: nat)
    requires i < |s.findings| && s.findings[i].vuln.None? && Conserved(s)
    ensures Conserved(LinkOne(env, s, i, Linked))
  {
    forall k ensures ConservedAt(LinkOne(env, s, i, Linked), k) {
      assert ConservedAt(s, k);
      LinkOneCounts(env, s, i, Linked, k, 0);
    }
  }

  /** A finding that is not linked adds nothing to what is linked. */
  lemma {:induction false} UnlinkedAddsNothing(findings: seq<Finding>, f: Finding, k: Key)
    requires f.vuln.None?
    ensures LinkedTo(findings + [f], k) == LinkedTo(findings, k)
    ensures Scanners(findings + [f], k) == Scanners(findings, k)
    ensures Severities(findings + [f], k) == Severities(findings, k)
  {
    assert (findings + [f])[..|findings|] == findings;
    forall g: Finding | g.vuln == Some(k) ensures g in findings + [f] <==> g in findings {
    }
  }

  /** A new finding, not linked yet, changes nothing. */
  lemma {:induction false} InsertCounts(s: State, f: Finding, k: Key, failed: nat)
    requires f.vuln.None? && CountedAt(s, k, failed)
    ensures CountedAt(s.(findings := s.findings + [f]), k, failed)
  {
    UnlinkedAddsNothing(s.findings, f, k);
  }

  // ---------------------------------------------------------------- severities

  function NormalizeSeverity(s: string): (r: string)
    ensures r in SEVERITIES
    ensures r == s <==> s in SEVERITIES
    ensures s !in SEVERITIES ==> r == "info"
  {
    if s in SEVERITIES then s else "info"
  }

  const SEVERITIES: set<string> := {"critical", "high", "medium", "low", "info"}

  /** How severe: the higher the worse. */
  function Severity(s: string): nat {
    if s == "critical" then 4
    else if s == "high" then 3
    else if s == "medium" then 2
    else if s == "low" then 1
    else 0
  }

  ghost predicate MostSevere(x: string, s: set<string>) {
    x in s && forall y :: y in s ==> Severity(y) <= Severity(x)
  }

  /** The order of the five as text: critical, high, info, low, medium. */
  function TextRank(s: string): nat {
    if s == "critical" then 0
    else if s == "high" then 1
    else if s == "info" then 2
    else if s == "low" then 3
    else 4
  }

  lemma {:induction false} TextRankIsOrder(x: string, y: string)
    requires x in SEVERITIES && y in SEVERITIES && TextRank(x) < TextRank(y)
    ensures Text.LexLess(x, y)
  {
    assert x[0] < y[0];
  }

  lemma {:induction false} LeastIsRankLeast(x: string, s: set<string>)
    requires s <= SEVERITIES && IsLeast(x, s)
    ensures forall y :: y in s ==> TextRank(x) <= TextRank(y)
  {
    forall y | y in s ensures TextRank(x) <= TextRank(y) {
      if TextRank(y) < TextRank(x) {
        TextRankIsOrder(y, x);
      }
    }
  }

  /**
   The least severity as text is the most severe exactly when there is a critical or a high one, or one only:
   among the others "info" comes before "low" and "low" before "medium".
   */
  lemma {:induction false} TextOrderIsNotSeverity(x: string, s: set<string>)
    requires s <= SEVERITIES && IsLeast(x, s)
    ensures MostSevere(x, s) <==> "critical" in s || "high" in s || s == {x}
  {
    LeastIsRankLeast(x, s);
    if "critical" in s || "high" in s {
      assert x == "critical" || x == "high";
    } else if s != {x} {
      var y :| y in s && y != x;
      LowerIsLess(x, y);
    }
  }

  /** Past critical and high the order as text is the wrong way round. */
  lemma LowerIsLess(x: string, y: string)
    requires x in SEVERITIES && y in SEVERITIES && x != y && TextRank(x) <= TextRank(y)
    requires x != "critical" && x != "high"
    ensures Severity(x) < Severity(y)
  {
  }

  /** A lower severity replaces a higher one. */
  lemma LowReplacesMedium(k: Key, scanner: string)
    ensures Upsert(map[k := Vuln(1, {scanner}, "medium")], k, scanner, "low")[k].severity == "low"
  {
    assert Text.LexLess("low", "medium");
  }

  // ---------------------------------------------------------------- counting what is not linked

  function Unlinked(findings: seq<Finding>): nat {
    if findings == [] then 0
    else Unlinked(findings[..|findings| - 1]) + if findings[|findings| - 1].vuln.None? then 1 else 0
  }

  /** The unlinked findings before `i` that cannot be linked. */
  function Blockers(env: Env, findings: seq<Finding>, i: nat): nat
    requires i <= |findings|
  {
    if i == 0 then 0
    else Blockers(env, findings, i - 1) + if findings[i - 1].vuln.None? && !Linkable(env, findings[i - 1]) then 1 else 0
  }

  lemma {:induction false} UnlinkedUpdate(findings: seq<Finding>, i: nat, k: Key)
    requires i < |findings| && findings[i].vuln.None?
    ensures Unlinked(WithVuln(findings, i, k)) == Unlinked(findings) - 1
  {
    var n := |findings| - 1;
    if i < n {
      assert WithVuln(findings, i, k)[..n] == WithVuln(findings[..n], i, k);
      UnlinkedUpdate(findings[..n], i, k);
    } else {
      assert WithVuln(findings, i, k)[..n] == findings[..n];
    }
  }

  lemma {:induction false} UnlinkedMonotone(findings: seq<Finding>, i: nat, j: nat)
    requires i <= j <= |findings|
    ensures Unlinked(findings[..i]) <= Unlinked(findings[..j])
    decreases j
  {
    if i < j {
      assert findings[..j][..j - 1] == findings[..j - 1];
      UnlinkedMonotone(findings, i, j - 1);
    }
  }

  lemma {:induction false} BlockersMonotone(env: Env, findings: seq<Finding>, i: nat, j: nat)
    requires i <= j <= |findings|
    ensures Blockers(env, findings, i) <= Blockers(env, findings, j)
    decreases j
  {
    if i < j {
      BlockersMonotone(env, findings, i, j - 1);
    }
  }
}
