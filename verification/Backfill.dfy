/**
 The backfill of findings without a vulnerability (internal/repository/vulnerability_new.go:332-455): it
 terminates whatever fails, and when nothing fails a finding is linked exactly when it can be and fewer
 than a batch of older findings cannot.
 */
module Backfill {
  import opened Wrappers
  import opened Vulnerabilities

  /** How the statements of each round end, in the order of its batch. */
  type Oracle = nat -> (nat -> Fate)

  ghost predicate AllLinked(fates: nat -> Fate) {
    forall n :: fates(n) == Linked
  }

  ghost predicate NoLinkFails(fates: nat -> Fate) {
    forall n :: fates(n) != LinkFails
  }

  ghost predicate NothingFails(oracle: Oracle) {
    forall r :: AllLinked(oracle(r))
  }

  ghost predicate NothingLost(oracle: Oracle) {
    forall r :: NoLinkFails(oracle(r))
  }

  /** The statements of one round. */
  ghost function LinkAll(env: Env, s: State, batch: seq<nat>, fates: nat -> Fate): (r: State)
    ensures |r.findings| == |s.findings|
  {
    if batch == [] then s
    else
      var n := |batch| - 1;
      LinkOne(env, LinkAll(env, s, batch[..n], fates), batch[n], fates(n))
  }

  ghost predicate Increasing(batch: seq<nat>) {
    forall a, b :: 0 <= a < b < |batch| ==> batch[a] < batch[b]
  }

  /** The oldest unlinked findings, at most `limit`; `cut` is how far they reach. */
  ghost predicate IsBatch(findings: seq<Finding>, batch: seq<nat>, limit: nat, cut: nat) {
    && cut <= |findings|
    && |batch| == Unlinked(findings[..cut]) <= limit
    && (|batch| == limit || cut == |findings|)
    && (forall i :: i in batch <==> 0 <= i < cut && findings[i].vuln.None?)
    && Increasing(batch)
  }

  lemma UnlinkedSnoc(findings: seq<Finding>, i: nat)
    requires i < |findings|
    ensures Unlinked(findings[..i + 1]) == Unlinked(findings[..i]) + if findings[i].vuln.None? then 1 else 0
  {
    assert findings[..i + 1][..i] == findings[..i];
  }

  /** A finding as a scan inserts it. */
  function Normalized(f: Finding): Finding {
    f.(severity := NormalizeSeverity(f.severity))
  }

  function Inserted(s: State, f: Finding): State {
    s.(findings := s.findings + [Normalized(f)])
  }

  function Scanned(env: Env, s: State, f: Finding, fate: Fate): State {
    LinkOne(env, Inserted(s, f), |s.findings|, fate)
  }

  // ---------------------------------------------------------------- one round

  lemma {:induction false} Untouched(env: Env, s: State, batch: seq<nat>, fates: nat -> Fate, i: nat)
    requires i < |s.findings|
    ensures i !in batch ==> LinkAll(env, s, batch, fates).findings[i] == s.findings[i]
    ensures LinkAll(env, s, batch, fates).findings[i].(vuln := None) == s.findings[i].(vuln := None)
  {
    if batch != [] {
      Untouched(env, s, batch[..|batch| - 1], fates, i);
    }
  }

  ghost predicate AllFresh(findings: seq<Finding>, batch: seq<nat>) {
    Increasing(batch) && forall a :: 0 <= a < |batch| ==> Fresh(findings, batch[a])
  }

  ghost predicate Fresh(findings: seq<Finding>, i: nat) {
    i < |findings| && findings[i].vuln.None?
  }

  lemma BatchIsFresh(findings: seq<Finding>, batch: seq<nat>, limit: nat, cut: nat)
    requires IsBatch(findings, batch, limit, cut)
    ensures AllFresh(findings, batch)
  {
    forall a | 0 <= a < |batch| ensures Fresh(findings, batch[a]) {
      assert batch[a] in batch;
    }
  }

  lemma NotBefore(batch: seq<nat>, n: nat)
    requires Increasing(batch) && n < |batch|
    ensures batch[n] !in batch[..n]
  {
    forall a | 0 <= a < n ensures batch[..n][a] != batch[n] {
    }
  }

  /** The next finding of the batch is still unlinked when its turn comes. */
  lemma StillFresh(env: Env, s: State, batch: seq<nat>, fates: nat -> Fate, n: nat)
    requires AllFresh(s.findings, batch) && n < |batch|
    ensures AllFresh(s.findings, batch[..n])
    ensures Fresh(s.findings, batch[n])
    ensures LinkAll(env, s, batch[..n], fates).findings[batch[n]] == s.findings[batch[n]]
  {
    NotBefore(batch, n);
    assert Fresh(s.findings, batch[n]);
    Untouched(env, s, batch[..n], fates, batch[n]);
  }

  lemma {:induction false} LinkAllConserves(env: Env, s: State, batch: seq<nat>, fates: nat -> Fate)
    requires AllFresh(s.findings, batch) && Conserved(s) && NoLinkFails(fates)
    ensures Conserved(LinkAll(env, s, batch, fates))
  {
    if batch != [] {
      var n := |batch| - 1;
      StillFresh(env, s, batch, fates, n);
      LinkAllConserves(env, s, batch[..n], fates);
      assert fates(n) != LinkFails;
      LinkOneConserves(env, LinkAll(env, s, batch[..n], fates), batch[n]);
    }
  }

  ghost function LinkedForm(env: Env, f: Finding): Finding {
    if f.vuln.None? && Linkable(env, f) then f.(vuln := Some(KeyOf(env, f))) else f
  }

  lemma {:induction false} LinkAllLinks(env: Env, s: State, batch: seq<nat>, fates: nat -> Fate, a: nat)
    requires AllFresh(s.findings, batch) && AllLinked(fates) && a < |batch|
    ensures LinkAll(env, s, batch, fates).findings[batch[a]] == LinkedForm(env, s.findings[batch[a]])
  {
    var n := |batch| - 1;
    StillFresh(env, s, batch, fates, n);
    assert fates(n) == Linked;
    if a < n {
      LinkAllLinks(env, s, batch[..n], fates, a);
      assert batch[..n][a] == batch[a];
    }
  }

  /** The findings before `p` that could be linked are, and nothing else changed. */
  ghost predicate LinkedUpTo(env: Env, before: seq<Finding>, after: seq<Finding>, p: nat) {
    && |after| == |before|
    && forall i :: 0 <= i < |before| ==> after[i] == if i < p then LinkedForm(env, before[i]) else before[i]
  }

  lemma RoundLinks(env: Env, s: State, batch: seq<nat>, fates: nat -> Fate, limit: nat, cut: nat)
    requires IsBatch(s.findings, batch, limit, cut) && AllLinked(fates)
    ensures LinkedUpTo(env, s.findings, LinkAll(env, s, batch, fates).findings, cut)
  {
    BatchIsFresh(s.findings, batch, limit, cut);
    var after := LinkAll(env, s, batch, fates).findings;
    forall i | 0 <= i < |s.findings|
      ensures after[i] == if i < cut then LinkedForm(env, s.findings[i]) else s.findings[i]
    {
      if i in batch {
        var a :| 0 <= a < |batch| && batch[a] == i;
        LinkAllLinks(env, s, batch, fates, a);
      } else {
        Untouched(env, s, batch, fates, i);
      }
    }
  }

  // ---------------------------------------------------------------- counting

  /** What a round changes before `cut` it changes in all. */
  lemma {:induction false} SameSuffix(a: seq<Finding>, b: seq<Finding>, cut: nat)
    requires |a| == |b| && cut <= |a| && forall i :: cut <= i < |a| ==> a[i] == b[i]
    ensures Unlinked(a) - Unlinked(a[..cut]) == Unlinked(b) - Unlinked(b[..cut])
  {
    var n := |a| - 1;
    if cut == |a| {
      assert a[..cut] == a && b[..cut] == b;
    } else {
      assert a[..n][..cut] == a[..cut] && b[..n][..cut] == b[..cut];
      SameSuffix(a[..n], b[..n], cut);
    }
  }

  /** Where everything linkable is linked, what is left unlinked are the blockers. */
  lemma {:induction false} LeftAreBlockers(env: Env, before: seq<Finding>, after: seq<Finding>, p: nat, i: nat)
    requires LinkedUpTo(env, before, after, p) && i <= |before|
    ensures i <= p ==> Unlinked(after[..i]) == Blockers(env, before, i)
    ensures Unlinked(after[..i]) >= Blockers(env, before, i)
  {
    if i > 0 {
      LeftAreBlockers(env, before, after, p, i - 1);
      UnlinkedSnoc(after, i - 1);
    }
  }

  /** Every finding linked so far had fewer than a batch of blockers before it. */
  ghost predicate InReach(env: Env, before: seq<Finding>, p: nat) {
    forall i :: 0 <= i < p && i < |before| && before[i].vuln.None? && Linkable(env, before[i]) ==>
      Blockers(env, before, i) < BATCH_SIZE
  }

  /** The state between rounds. */
  ghost predicate Progress(env: Env, before: seq<Finding>, now: seq<Finding>, p: nat) {
    && p <= |before| && LinkedUpTo(env, before, now, p) && InReach(env, before, p)
  }

  lemma CutAdvances(env: Env, before: seq<Finding>, now: seq<Finding>, p: nat, batch: seq<nat>, cut: nat)
    requires Progress(env, before, now, p) && IsBatch(now, batch, BATCH_SIZE, cut)
    requires Blockers(env, before, p) < BATCH_SIZE
    ensures p <= cut
  {
    if cut < p {
      LeftAreBlockers(env, before, now, p, cut);
      BlockersMonotone(env, before, cut, p);
    }
  }

  lemma ReachedByBatch(env: Env, before: seq<Finding>, now: seq<Finding>, p: nat, batch: seq<nat>, cut: nat, i: nat)
    requires Progress(env, before, now, p) && IsBatch(now, batch, BATCH_SIZE, cut)
    requires p <= i < cut && before[i].vuln.None? && Linkable(env, before[i])
    ensures Blockers(env, before, i) < BATCH_SIZE
  {
    LeftAreBlockers(env, before, now, p, i);
    UnlinkedSnoc(now, i);
    UnlinkedMonotone(now, i + 1, cut);
  }

  lemma {:induction false} RoundProgress(
    env: Env, before: seq<Finding>, now: seq<Finding>, after: seq<Finding>, p: nat, batch: seq<nat>, cut: nat)
    requires Progress(env, before, now, p) && IsBatch(now, batch, BATCH_SIZE, cut)
    requires Blockers(env, before, p) < BATCH_SIZE && LinkedUpTo(env, now, after, cut)
    ensures Progress(env, before, after, cut)
    ensures Blockers(env, before, cut) == |batch| - (Unlinked(now) - Unlinked(after))
  {
    CutAdvances(env, before, now, p, batch, cut);
    forall i | p <= i < cut && i < |before| && before[i].vuln.None? && Linkable(env, before[i])
      ensures Blockers(env, before, i) < BATCH_SIZE
    {
      ReachedByBatch(env, before, now, p, batch, cut, i);
    }
    LeftAreBlockers(env, before, after, cut, cut);
    SameSuffix(now, after, cut);
  }

  // ---------------------------------------------------------------- completeness

  /** The exact outcome when nothing fails. */
  ghost predicate Complete(env: Env, before: seq<Finding>, after: seq<Finding>) {
    && |after| == |before|
    && forall i :: 0 <= i < |before| ==>
         after[i] == if Blockers(env, before, i) < BATCH_SIZE then LinkedForm(env, before[i]) else before[i]
  }

  lemma {:induction false} Finished(env: Env, before: seq<Finding>, after: seq<Finding>, p: nat)
    requires Progress(env, before, after, p)
    requires p == |before| || Blockers(env, before, p) >= BATCH_SIZE
    ensures Complete(env, before, after)
  {
    forall i | 0 <= i < |before|
      ensures after[i] == if Blockers(env, before, i) < BATCH_SIZE then LinkedForm(env, before[i]) else before[i]
    {
      if i >= p {
        BlockersMonotone(env, before, p, i);
      }
    }
  }

  /** With fewer than a batch of unlinkable findings in all, everything that can be linked is. */
  lemma {:induction false} FewBlockersMeansAll(env: Env, before: seq<Finding>, after: seq<Finding>)
    requires Complete(env, before, after) && Blockers(env, before, |before|) < BATCH_SIZE
    ensures forall i :: 0 <= i < |before| ==> after[i] == LinkedForm(env, before[i])
    ensures Unlinked(after) == Blockers(env, before, |before|)
  {
    forall i | 0 <= i < |before| ensures after[i] == LinkedForm(env, before[i]) {
      BlockersMonotone(env, before, i, |before|);
    }
    LeftAreBlockers(env, before, after, |before|, |before|);
    assert after[..|before|] == after;
  }

  // ---------------------------------------------------------------- the repository

  class VulnerabilityRepo {
    const env: Env
    var findings: seq<Finding>
    var vulns: map<Key, Vuln>

    ghost function Now(): State
      reads this
    {
      State(findings, vulns)
    }

    method SelectUnlinked(limit: nat) returns (batch: seq<nat>, ghost cut: nat)
      ensures |batch| <= limit && AllFresh(findings, batch)
      ensures IsBatch(findings, batch, limit, cut)
    {
      batch := [];
      var i := 0;
      while i < |findings| && |batch| < limit
        invariant i <= |findings| && |batch| == Unlinked(findings[..i]) <= limit
        invariant forall j :: j in batch <==> 0 <= j < i && findings[j].vuln.None?
        invariant Increasing(batch)
      {
        UnlinkedSnoc(findings, i);
        assert forall a :: 0 <= a < |batch| ==> batch[a] in batch;
        if findings[i].vuln.None? {
          batch := batch + [i];
        }
        i := i + 1;
      }
      cut := i;
      BatchIsFresh(findings, batch, limit, cut);
    }

    /** One turn of the inner loop. */
    method LinkFinding(i: nat, fate: Fate) returns (linked: bool)
      requires i < |findings|
      modifies this`findings, this`vulns
      ensures Now() == LinkOne(env, old(Now()), i, fate)
      ensures linked <==> Linkable(env, old(findings)[i]) && fate == Linked
    {
      var f := findings[i];
      if f.scanner !in env.categories {
        return false;
      }
      var category := env.categories[f.scanner];
      var uid := env.uid(category, f.details);
      if uid == "" {
        return false;
      }
      if env.engine(category) == "" {
        return false;
      }
      if fate == UpsertFails {
        return false;
      }
      vulns := Upsert(vulns, Key(f.project, uid), f.scanner, f.severity);
      if fate == LinkFails {
        return false;
      }
      findings := findings[i := f.(vuln := Some(Key(f.project, uid)))];
      return true;
    }

    method LinkBatch(batch: seq<nat>, fates: nat -> Fate) returns (linked: nat)
      requires AllFresh(findings, batch)
      modifies this`findings, this`vulns
      ensures Now() == LinkAll(env, old(Now()), batch, fates)
      ensures linked == Unlinked(old(findings)) - Unlinked(findings)
    {
      linked := 0;
      ghost var s := Now();
      for n := 0 to |batch|
        invariant Now() == LinkAll(env, s, batch[..n], fates)
        invariant linked == Unlinked(s.findings) - Unlinked(findings)
      {
        StillFresh(env, s, batch, fates, n);
        assert batch[..n + 1][..n] == batch[..n];
        ghost var now := Now();
        var ok := LinkFinding(batch[n], fates(n));
        if ok {
          UnlinkedUpdate(now.findings, batch[n], KeyOf(env, now.findings[batch[n]]));
          linked := linked + 1;
        }
      }
      assert batch[..|batch|] == batch;
    }

    /** A scan's insert of a new finding and `linkVulnerability`. */
    method InsertAndLink(f: Finding, fate: Fate)
      requires f.vuln.None?
      modifies this`findings, this`vulns
      ensures Now() == Scanned(env, old(Now()), f, fate)
    {
      findings := findings + [Normalized(f)];
      var linked := LinkFinding(|findings| - 1, fate);
    }

    /** Select a batch and link it. */
    method Round(fates: nat -> Fate, ghost before: seq<Finding>, ghost p: nat)
      returns (size: nat, linked: nat, ghost cut: nat, ghost batch: seq<nat>)
      requires OnlyLinks(before, findings)
      modifies this`findings, this`vulns
      ensures linked == Unlinked(old(findings)) - Unlinked(findings) && size <= BATCH_SIZE
      ensures OnlyLinks(before, findings)
      ensures AllFresh(old(findings), batch) && Now() == LinkAll(env, old(Now()), batch, fates)
      ensures size < BATCH_SIZE || linked == 0 ==> NothingMore(old(findings), batch, findings)
      ensures Conserved(old(Now())) && NoLinkFails(fates) ==> Conserved(Now())
      ensures AllLinked(fates) && Ongoing(env, before, old(findings), p) ==>
                && Progress(env, before, findings, cut)
                && (size < BATCH_SIZE ==> cut == |before|)
                && Blockers(env, before, cut) == size - linked
    {
      var selected;
      selected, cut := SelectUnlinked(BATCH_SIZE);
      batch := selected;
      size := |selected|;
      ghost var s := Now();
      linked := LinkBatch(selected, fates);
      RoundOnlyLinks(env, before, s, batch, fates);
      if Conserved(s) && NoLinkFails(fates) {
        LinkAllConserves(env, s, batch, fates);
      }
      if AllLinked(fates) && Ongoing(env, before, s.findings, p) {
        RoundLinks(env, s, batch, fates, BATCH_SIZE, cut);
        RoundProgress(env, before, s.findings, findings, p, batch, cut);
      }
    }

    /**
     `queryFails` says in which round the query of the batch fails, which ends the loop with an error.
     Old links stay, only `vuln` changes, and the result is the number of findings newly linked; `rounds` is
     what was done, and unless a query failed it ended with a round after which nothing more could be done.
     */
    method BackfillVulnerabilities(oracle: Oracle, queryFails: nat -> bool)
      returns (total: nat, ok: bool, ghost rounds: seq<Event>, ghost earlier: seq<Event>, ghost last: seq<nat>)
      modifies this`findings, this`vulns
      ensures total == Unlinked(old(findings)) - Unlinked(findings)
      ensures OnlyLinks(old(findings), findings)
      ensures (forall r :: !queryFails(r)) ==> ok
      ensures ok ==> rounds == earlier + [BackfillRound(last, oracle(|earlier|))]
      ensures ok ==> exists s :: Story(env, old(Now()), earlier, s) && NothingMore(s.findings, last, findings)
      ensures Story(env, old(Now()), rounds, Now())
      ensures Conserved(old(Now())) && NothingLost(oracle) ==> Conserved(Now())
      ensures NothingFails(oracle) ==> exists p :: Progress(env, old(findings), findings, p)
      ensures ok && NothingFails(oracle) ==> Complete(env, old(findings), findings)
    {
      total, ok, rounds, earlier, last := 0, true, [], [], [];
      var round := 0;
      ghost var p, before, start := 0, findings, Now();
      ghost var conserves := Conserved(Now()) && NothingLost(oracle);
      ghost var succeeds := NothingFails(oracle);
      while true
        invariant total == Unlinked(before) - Unlinked(findings)
        invariant OnlyLinks(before, findings) && |rounds| == round
        invariant Story(env, start, rounds, Now())
        invariant conserves ==> Conserved(Now())
        invariant succeeds ==> Ongoing(env, before, findings, p)
        decreases Unlinked(findings)
      {
        if queryFails(round) {
          ok := false;
          break;
        }
        assert conserves ==> NoLinkFails(oracle(round));
        assert succeeds ==> AllLinked(oracle(round));
        ghost var now := Now();
        var size, linked, cut, batch := Round(oracle(round), before, p);
        total := total + linked;
        earlier, last := rounds, batch;
        StorySnoc(env, start, rounds, now, batch, oracle(round));
        rounds := rounds + [BackfillRound(batch, oracle(round))];
        if size == 0 || size < BATCH_SIZE || linked == 0 {
          if succeeds {
            Finished(env, before, findings, cut);
          }
          break;
        }
        p := cut;
        round := round + 1;
      }
    }
  }

  /** The rounds are a sequential run, and it leads from `start` to `now`. */
  ghost predicate Story(env: Env, start: State, rounds: seq<Event>, now: State) {
    Sequential(env, start, rounds) && now == RunFrom(env, start, rounds)
  }

  lemma StorySnoc(env: Env, start: State, rounds: seq<Event>, now: State, batch: seq<nat>, fates: nat -> Fate)
    requires Story(env, start, rounds, now) && AllFresh(now.findings, batch)
    ensures Story(env, start, rounds + [BackfillRound(batch, fates)], LinkAll(env, now, batch, fates))
  {
    RunSnoc(env, start, rounds, BackfillRound(batch, fates));
  }

  /** The batch was the oldest unlinked findings; they were fewer than 500, or none of them was linked. */
  ghost predicate NothingMore(before: seq<Finding>, batch: seq<nat>, after: seq<Finding>) {
    && (exists cut :: IsBatch(before, batch, 500, cut))
    && (|batch| < 500 || Unlinked(before) == Unlinked(after))
  }

  ghost predicate Ongoing(env: Env, before: seq<Finding>, now: seq<Finding>, p: nat) {
    Progress(env, before, now, p) && Blockers(env, before, p) < BATCH_SIZE
  }

  ghost predicate OnlyLinks(before: seq<Finding>, after: seq<Finding>) {
    && |after| == |before|
    && forall i :: 0 <= i < |after| ==> OnlyLinked(before[i], after[i])
  }

  ghost predicate OnlyLinked(before: Finding, after: Finding) {
    after.(vuln := None) == before.(vuln := None) && (before.vuln.Some? ==> after == before)
  }

  lemma RoundOnlyLinks(env: Env, before: seq<Finding>, s: State, batch: seq<nat>, fates: nat -> Fate)
    requires AllFresh(s.findings, batch) && OnlyLinks(before, s.findings)
    ensures OnlyLinks(before, LinkAll(env, s, batch, fates).findings)
  {
    var after := LinkAll(env, s, batch, fates);
    forall i | 0 <= i < |s.findings| ensures OnlyLinked(before[i], after.findings[i]) {
      assert OnlyLinked(before[i], s.findings[i]);
      Untouched(env, s, batch, fates, i);
      if i in batch {
        var a :| 0 <= a < |batch| && batch[a] == i;
        assert Fresh(s.findings, batch[a]);
      }
    }
  }

  // ---------------------------------------------------------------- runs

  /** A scanned finding, or one round of a backfill. */
  datatype Event =
    | Scan(finding: Finding, fate: Fate)
    | BackfillRound(batch: seq<nat>, fates: nat -> Fate)

  ghost function Apply(env: Env, s: State, e: Event): State {
    match e
    case Scan(f, fate) => Scanned(env, s, f, fate)
    case BackfillRound(batch, fates) => LinkAll(env, s, batch, fates)
  }

  ghost function RunFrom(env: Env, s: State, events: seq<Event>): State {
    if events == [] then s else Apply(env, RunFrom(env, s, events[..|events| - 1]), events[|events| - 1])
  }

  /** Each round works on findings that are not linked when it begins. */
  ghost predicate Enabled(s: State, e: Event) {
    match e
    case Scan(f, _) => f.vuln.None?
    case BackfillRound(batch, _) => AllFresh(s.findings, batch)
  }

  ghost predicate Sequential(env: Env, s: State, events: seq<Event>) {
    events != [] ==>
      var init := events[..|events| - 1];
      Sequential(env, s, init) && Enabled(RunFrom(env, s, init), events[|events| - 1])
  }

  lemma RunSnoc(env: Env, s: State, events: seq<Event>, e: Event)
    ensures RunFrom(env, s, events + [e]) == Apply(env, RunFrom(env, s, events), e)
    ensures Sequential(env, s, events + [e]) <==> Sequential(env, s, events) && Enabled(RunFrom(env, s, events), e)
  {
    assert (events + [e])[..|events|] == events;
  }

  ghost function Start(): State {
    State([], map[])
  }

  // ---------------------------------------------------------------- lost links

  /** How many links to `k` of a round fail after their upsert. */
  ghost function LostIn(env: Env, s: State, batch: seq<nat>, fates: nat -> Fate, k: Key): nat {
    if batch == [] then 0
    else
      var n := |batch| - 1;
      LostIn(env, s, batch[..n], fates, k) + Bit(LinkLost(env, s, batch[n], fates(n), k))
  }

  ghost function LostBy(env: Env, s: State, e: Event, k: Key): nat {
    match e
    case Scan(f, fate) => Bit(LinkLost(env, Inserted(s, f), |s.findings|, fate, k))
    case BackfillRound(batch, fates) => LostIn(env, s, batch, fates, k)
  }

  /** How many links to `k` of a run failed after their upsert. */
  ghost function Lost(env: Env, s: State, events: seq<Event>, k: Key): nat {
    if events == [] then 0
    else
      var init := events[..|events| - 1];
      Lost(env, s, init, k) + LostBy(env, RunFrom(env, s, init), events[|events| - 1], k)
  }

  lemma {:induction false} LinkAllCounts(
    env: Env, s: State, batch: seq<nat>, fates: nat -> Fate, k: Key, failed: nat)
    requires AllFresh(s.findings, batch) && CountedAt(s, k, failed)
    ensures CountedAt(LinkAll(env, s, batch, fates), k, failed + LostIn(env, s, batch, fates, k))
  {
    if batch != [] {
      var n := |batch| - 1;
      StillFresh(env, s, batch, fates, n);
      LinkAllCounts(env, s, batch[..n], fates, k, failed);
      var now := LinkAll(env, s, batch[..n], fates);
      LinkOneCounts(env, now, batch[n], fates(n), k, failed + LostIn(env, s, batch[..n], fates, k));
      assert LinkLost(env, now, batch[n], fates(n), k) == LinkLost(env, s, batch[n], fates(n), k);
    }
  }

  lemma {:induction false} StepCounts(env: Env, s: State, e: Event, k: Key, failed: nat)
    requires Enabled(s, e) && CountedAt(s, k, failed)
    ensures CountedAt(Apply(env, s, e), k, failed + LostBy(env, s, e, k))
  {
    match e
    case Scan(f, fate) =>
      InsertCounts(s, Normalized(f), k, failed);
      LinkOneCounts(env, Inserted(s, f), |s.findings|, fate, k, failed);
    case BackfillRound(batch, fates) =>
      LinkAllCounts(env, s, batch, fates, k, failed);
  }

  /** Through every sequential run a count is the number of findings linked and of links lost. */
  lemma {:induction false} RunCounts(env: Env, s: State, events: seq<Event>, k: Key, failed: nat)
    requires Sequential(env, s, events) && CountedAt(s, k, failed)
    ensures CountedAt(RunFrom(env, s, events), k, failed + Lost(env, s, events, k))
  {
    if events != [] {
      var init := events[..|events| - 1];
      RunCounts(env, s, init, k, failed);
      StepCounts(env, RunFrom(env, s, init), events[|events| - 1], k, failed + Lost(env, s, init, k));
    }
  }

  lemma {:induction false} CountIsLinkedAndLost(env: Env, events: seq<Event>, k: Key)
    requires Sequential(env, Start(), events)
    ensures CountedAt(RunFrom(env, Start(), events), k, Lost(env, Start(), events, k))
  {
    assert CountedAt(Start(), k, 0);
    RunCounts(env, Start(), events, k, 0);
  }

  /**
   Through every sequential run the row of `k` says what the findings linked to it say exactly when no link
   to `k` failed after its upsert.
   */
  lemma {:induction false} CountsAreConserved(env: Env, events: seq<Event>, k: Key)
    requires Sequential(env, Start(), events)
    ensures ConservedAt(RunFrom(env, Start(), events), k) <==> Lost(env, Start(), events, k) == 0
  {
    CountIsLinkedAndLost(env, events, k);
  }

  /** Nothing that follows repairs a count, a later link of the same finding included. */
  lemma {:induction false} LostForGood(env: Env, events: seq<Event>, later: seq<Event>, k: Key)
    requires Sequential(env, Start(), events + later) && Lost(env, Start(), events, k) > 0
    ensures !ConservedAt(RunFrom(env, Start(), events + later), k)
  {
    LostGrows(env, Start(), events, later, k);
    CountsAreConserved(env, events + later, k);
  }

  lemma {:induction false} LostGrows(env: Env, s: State, events: seq<Event>, later: seq<Event>, k: Key)
    ensures Lost(env, s, events + later, k) >= Lost(env, s, events, k)
  {
    if later == [] {
      assert events + later == events;
    } else {
      var n := |later| - 1;
      LostGrows(env, s, events, later[..n], k);
      assert (events + later)[..|events + later| - 1] == events + later[..n];
    }
  }

  // ---------------------------------------------------------------- who is linked to what

  /** The scanner has a category, the category an engine, and the details a uid under it. */
  ghost predicate Identified(env: Env, f: Finding) {
    && f.scanner in env.categories
    && env.engine(env.categories[f.scanner]) != ""
    && env.uid(env.categories[f.scanner], f.details) != ""
  }

  /** The vulnerability is of the finding's own project, with the uid of its details. */
  ghost predicate Belongs(env: Env, f: Finding, k: Key) {
    Identified(env, f) && k.project == f.project && k.uid == env.uid(env.categories[f.scanner], f.details)
  }

  ghost predicate WellLinked(env: Env, findings: seq<Finding>) {
    forall i :: 0 <= i < |findings| && findings[i].vuln.Some? ==> Belongs(env, findings[i], findings[i].vuln.value)
  }

  lemma LinkOneBelongs(env: Env, s: State, i: nat, fate: Fate)
    requires WellLinked(env, s.findings)
    ensures WellLinked(env, LinkOne(env, s, i, fate).findings)
    ensures fate == Linked && i < |s.findings| && Identified(env, s.findings[i]) ==>
              LinkOne(env, s, i, fate).findings[i].vuln.Some?
  {
  }

  lemma {:induction false} LinkAllBelongs(env: Env, s: State, batch: seq<nat>, fates: nat -> Fate)
    requires WellLinked(env, s.findings)
    ensures WellLinked(env, LinkAll(env, s, batch, fates).findings)
  {
    if batch != [] {
      var n := |batch| - 1;
      LinkAllBelongs(env, s, batch[..n], fates);
      LinkOneBelongs(env, LinkAll(env, s, batch[..n], fates), batch[n], fates(n));
    }
  }

  lemma {:induction false} RunBelongs(env: Env, events: seq<Event>)
    requires Sequential(env, Start(), events)
    ensures WellLinked(env, RunFrom(env, Start(), events).findings)
  {
    if events != [] {
      var init, last := events[..|events| - 1], events[|events| - 1];
      RunBelongs(env, init);
      var s := RunFrom(env, Start(), init);
      match last {
        case Scan(f, fate) => LinkOneBelongs(env, Inserted(s, f), |s.findings|, fate);
        case BackfillRound(batch, fates) => LinkAllBelongs(env, s, batch, fates);
      }
    }
  }

  /**
   Through every sequential run two findings linked by it are linked to one vulnerability exactly when they are of
   one project and their details have one uid.
   */
  lemma {:induction false} SharedExactly(env: Env, events: seq<Event>, i: nat, j: nat)
    requires Sequential(env, Start(), events)
    requires var findings := RunFrom(env, Start(), events).findings;
             i < |findings| && j < |findings| && findings[i].vuln.Some? && findings[j].vuln.Some?
    ensures var findings := RunFrom(env, Start(), events).findings; var f, g := findings[i], findings[j];
            && Identified(env, f) && Identified(env, g)
            && (f.vuln == g.vuln
                <==> && f.project == g.project
                     && env.uid(env.categories[f.scanner], f.details) == env.uid(env.categories[g.scanner], g.details))
  {
    RunBelongs(env, events);
    var findings := RunFrom(env, Start(), events).findings;
    assert Belongs(env, findings[i], findings[i].vuln.value) && Belongs(env, findings[j], findings[j].vuln.value);
  }

  /** A scanned finding whose statements succeed is linked exactly when it is identified. */
  lemma {:induction false} ScanLinks(env: Env, s: State, f: Finding)
    requires WellLinked(env, s.findings) && f.vuln.None?
    ensures var after := Scanned(env, s, f, Linked).findings;
            && |after| == |s.findings| + 1 && after[..|s.findings|] == s.findings
            && (after[|s.findings|].vuln.Some? <==> Identified(env, f))
            && after[|s.findings|].(vuln := None) == f.(severity := NormalizeSeverity(f.severity))
  {
    LinkOneBelongs(env, Inserted(s, f), |s.findings|, Linked);
  }

  /** When nothing fails, a backfill leaves unlinked the findings not identified, and those behind too many of them. */
  lemma {:induction false} CompleteLinks(env: Env, before: seq<Finding>, after: seq<Finding>, i: nat)
    requires Complete(env, before, after) && i < |before| && before[i].vuln.None?
    ensures after[i].vuln.Some? <==> Identified(env, before[i]) && Blockers(env, before, i) < 500
    ensures after[i].vuln.Some? ==> Belongs(env, before[i], after[i].vuln.value)
    ensures i > 0 ==>
              Blockers(env, before, i) == Blockers(env, before, i - 1)
                + if before[i - 1].vuln.None? && !Identified(env, before[i - 1]) then 1 else 0
  {
  }

  // ---------------------------------------------------------------- severities

  ghost predicate AllNormalized(findings: seq<Finding>) {
    forall i :: 0 <= i < |findings| ==> findings[i].severity in SEVERITIES
  }

  lemma {:induction false} RunNormalized(env: Env, events: seq<Event>)
    ensures AllNormalized(RunFrom(env, Start(), events).findings)
  {
    if events != [] {
      var init := events[..|events| - 1];
      RunNormalized(env, init);
      var s := RunFrom(env, Start(), init);
      if events[|events| - 1].BackfillRound? {
        var batch, fates := events[|events| - 1].batch, events[|events| - 1].fates;
        forall i | 0 <= i < |s.findings|
          ensures LinkAll(env, s, batch, fates).findings[i].severity in SEVERITIES
        {
          Untouched(env, s, batch, fates, i);
        }
      }
    }
  }

  /**
   Through every sequential run that loses no link to `k`, the stored severity is the worst of the linked
   findings exactly when one of them is critical or high or they all have the same.
   */
  lemma {:induction false} StoredSeverityIsWorst(env: Env, events: seq<Event>, k: Key)
    requires Sequential(env, Start(), events) && Lost(env, Start(), events, k) == 0
    requires k in RunFrom(env, Start(), events).vulns
    ensures var s := RunFrom(env, Start(), events); var x, all := s.vulns[k].severity, Severities(s.findings, k);
            MostSevere(x, all) <==> "critical" in all || "high" in all || all == {x}
  {
    CountsAreConserved(env, events, k);
    RunNormalized(env, events);
    var s := RunFrom(env, Start(), events);
    TextOrderIsNotSeverity(s.vulns[k].severity, Severities(s.findings, k));
  }
}
