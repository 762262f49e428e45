/**
 AI summaries of findings, cached by a fingerprint of what a summary is generated from
 (internal/repository/finding.go:417-546).
 */
module SummaryCache {
  import opened Wrappers
  import Text

  type Id = nat

  datatype Status = Unset | Pending | Ready | Failed

  /** What the fingerprint is computed from, and the scanner's own description. */
  datatype Source = Source(scanner: string, rule: string, title: string, raw: string, description: string)

  /** The summary columns of a finding; "none" is Unset. */
  datatype Finding = Finding(source: Source, fingerprint: Option<string>, summary: string, status: Status)

  /** A row of `finding_summary_cache`; "" stands for a NULL summary. */
  datatype Entry = Entry(status: Status, summary: string)

  datatype State = State(findings: map<Id, Finding>, cache: map<string, Entry>)

  datatype Prepared = Prepared(fingerprint: string, summary: string, status: Status, shouldEnqueue: bool)

  type Fingerprint = Source -> string

  predicate Blank(s: string) {
    Text.Trim(s) == ""
  }

  // ---------------------------------------------------------------- Prepare

  /** What the two queries at the start decide. */
  datatype Plan = Missing | Described | Hit(entry: Entry) | Miss

  function Decide(fp: Fingerprint, s: State, id: Id): Plan {
    if id !in s.findings then Missing
    else if !Blank(s.findings[id].source.description) then Described
    else if fp(s.findings[id].source) in s.cache then Hit(s.cache[fp(s.findings[id].source)])
    else Miss
  }

  /** `UPDATE finding_summary_cache SET status`, when the row exists. */
  function SetStatus(cache: map<string, Entry>, f: string, status: Status): map<string, Entry> {
    if f in cache then cache[f := cache[f].(status := status)] else cache
  }

  /** The statements that carry out a plan, and the reply. */
  function Execute(fp: Fingerprint, s: State, id: Id, plan: Plan): (State, Option<Prepared>)
    requires id in s.findings
  {
    var finding := s.findings[id];
    var f := fp(finding.source);
    match plan
    case Missing => (s, None)
    case Described =>
      (s.(findings := s.findings[id := finding.(status := Unset)]), Some(Prepared("", "", Unset, false)))
    case Hit(entry) =>
      if !Blank(entry.summary) then
        (s.(findings := s.findings[id := finding.(fingerprint := Some(f), summary := entry.summary, status := Ready)]),
         Some(Prepared(f, entry.summary, Ready, false)))
      else
        var enqueue := entry.status == Failed;
        var status := if enqueue then Pending else entry.status;
        (State(s.findings[id := finding.(fingerprint := Some(f), status := status)],
               if enqueue then SetStatus(s.cache, f, Pending) else s.cache),
         Some(Prepared(f, entry.summary, status, enqueue)))
    case Miss =>
      (State(s.findings[id := finding.(fingerprint := Some(f), status := Pending)],
             if f in s.cache then s.cache else s.cache[f := Entry(Pending, "")]),
       Some(Prepared(f, "", Pending, true)))
  }

  function Prepare(fp: Fingerprint, s: State, id: Id): (State, Option<Prepared>) {
    if id in s.findings then Execute(fp, s, id, Decide(fp, s, id)) else (s, None)
  }

  // ---------------------------------------------------------------- Store and MarkFailed

  /** `UPDATE findings ... WHERE summary_fingerprint = f`. */
  function WithFingerprint(findings: map<Id, Finding>, f: string, change: Finding -> Finding): map<Id, Finding> {
    map id | id in findings :: if findings[id].fingerprint == Some(f) then change(findings[id]) else findings[id]
  }

  function Store(s: State, f: string, text: string): State {
    var summary := Text.Trim(text);
    if summary == "" then s
    else State(WithFingerprint(s.findings, f, (x: Finding) => x.(summary := summary, status := Ready)),
               s.cache[f := Entry(Ready, summary)])
  }

  function MarkFailed(s: State, f: string): State {
    if f == "" then s
    else State(WithFingerprint(s.findings, f, (x: Finding) => x.(status := Failed)), SetStatus(s.cache, f, Failed))
  }

  class Repository {
    const fp: Fingerprint
    var findings: map<Id, Finding>
    var cache: map<string, Entry>

    function Now(): State
      reads this
    {
      State(findings, cache)
    }

    method PrepareAISummary(id: Id) returns (reply: Option<Prepared>)
      modifies this`findings, this`cache
      ensures (Now(), reply) == Prepare(fp, old(Now()), id)
    {
      if id !in findings {
        return None;
      }
      var source := findings[id].source;
      if !Blank(source.description) {
        findings := findings[id := findings[id].(status := Unset)];
        return Some(Prepared("", "", Unset, false));
      }
      var f := fp(source);
      if f in cache {
        var cached, state := cache[f].summary, cache[f].status;
        if !Blank(cached) {
          findings := findings[id := findings[id].(fingerprint := Some(f), summary := cached, status := Ready)];
          return Some(Prepared(f, cached, Ready, false));
        }
        var shouldEnqueue := state == Failed;
        if shouldEnqueue {
          state := Pending;
          cache := SetStatus(cache, f, Pending);
        }
        findings := findings[id := findings[id].(fingerprint := Some(f), status := state)];
        return Some(Prepared(f, cached, state, shouldEnqueue));
      }
      cache := cache[f := Entry(Pending, "")];
      findings := findings[id := findings[id].(fingerprint := Some(f), status := Pending)];
      return Some(Prepared(f, "", Pending, true));
    }

    method StoreAISummary(fingerprint: string, text: string) returns (ok: bool)
      modifies this`findings, this`cache
      ensures ok <==> !Blank(text)
      ensures Now() == Store(old(Now()), fingerprint, text)
    {
      var summary := Text.Trim(text);
      if summary == "" {
        return false;
      }
      cache := cache[fingerprint := Entry(Ready, summary)];
      findings := WithFingerprint(findings, fingerprint, (x: Finding) => x.(summary := summary, status := Ready));
      return true;
    }

    method MarkAISummaryFailed(fingerprint: string)
      modifies this`findings, this`cache
      ensures Now() == MarkFailed(old(Now()), fingerprint)
    {
      if fingerprint == "" {
        return;
      }
      cache := SetStatus(cache, fingerprint, Failed);
      findings := WithFingerprint(findings, fingerprint, (x: Finding) => x.(status := Failed));
    }
  }

  // ---------------------------------------------------------------- runs

  datatype Event =
    | Inserted(id: Id, source: Source)
    | Edited(id: Id, source: Source)
    | Prepares(id: Id)
    | Stores(fingerprint: string, text: string)
    | MarksFailed(fingerprint: string)

  ghost function Apply(fp: Fingerprint, s: State, e: Event): State {
    match e
    case Inserted(id, source) =>
      if id in s.findings then s else s.(findings := s.findings[id := Finding(source, None, "", Unset)])
    case Edited(id, source) =>
      if id in s.findings then s.(findings := s.findings[id := s.findings[id].(source := source)]) else s
    case Prepares(id) => Prepare(fp, s, id).0
    case Stores(f, text) => Store(s, f, text)
    case MarksFailed(f) => MarkFailed(s, f)
  }

  ghost function Run(fp: Fingerprint, events: seq<Event>): State {
    if events == [] then State(map[], map[]) else Apply(fp, Run(fp, events[..|events| - 1]), events[|events| - 1])
  }

  /** The event asks for a new generation of the summary of `f`. */
  ghost predicate Enqueues(fp: Fingerprint, s: State, e: Event, f: string) {
    e.Prepares? && var reply := Prepare(fp, s, e.id).1;
    reply.Some? && reply.value.shouldEnqueue && reply.value.fingerprint == f
  }

  ghost function Enqueued(fp: Fingerprint, events: seq<Event>, f: string): nat {
    if events == [] then 0
    else
      var init := events[..|events| - 1];
      Enqueued(fp, init, f) + if Enqueues(fp, Run(fp, init), events[|events| - 1], f) then 1 else 0
  }

  ghost function Failures(events: seq<Event>, f: string): nat {
    if events == [] then 0
    else Failures(events[..|events| - 1], f) + if events[|events| - 1] == MarksFailed(f) then 1 else 0
  }

  // ---------------------------------------------------------------- agreement

  /** A ready finding shows its fingerprint's cached summary, and it is not blank. */
  ghost predicate FindingAgrees(cache: map<string, Entry>, x: Finding) {
    x.status == Ready ==>
      && x.fingerprint.Some? && x.fingerprint.value in cache
      && x.summary == cache[x.fingerprint.value].summary && x.summary != ""
  }

  /** A pending row has no summary, a ready one has, and no summary is blank without being empty. */
  ghost predicate EntryAgrees(e: Entry) {
    && (e.status == Pending ==> e.summary == "")
    && (e.status == Ready ==> e.summary != "")
    && Text.Trim(e.summary) == e.summary
    && e.status != Unset
  }

  ghost predicate Agrees(s: State) {
    && (forall id :: id in s.findings ==> FindingAgrees(s.cache, s.findings[id]))
    && (forall f :: f in s.cache ==> EntryAgrees(s.cache[f]))
  }

  lemma {:induction false} TrimTwice(s: string)
    ensures Text.Trim(Text.Trim(s)) == Text.Trim(s)
  {
    var t := Text.Trim(s);
    if t != [] {
      Text.TrimUnique([], t, []);
      assert [] + t + [] == t;
    }
  }

  /** What a plan writes no longer agrees with the cache row of the finding's fingerprint. */
  ghost predicate Harmful(fp: Fingerprint, s: State, id: Id, plan: Plan)
    requires id in s.findings
  {
    plan.Hit? &&
      var f := fp(s.findings[id].source);
      if !Blank(plan.entry.summary) then !(f in s.cache && s.cache[f].summary == plan.entry.summary)
      else plan.entry.status == Failed && f in s.cache && s.cache[f].summary != ""
  }

  lemma {:induction false} HarmlessAgrees(fp: Fingerprint, s: State, id: Id, plan: Plan)
    requires Agrees(s) && id in s.findings && (plan.Hit? ==> EntryAgrees(plan.entry))
    requires !Harmful(fp, s, id, plan)
    ensures Agrees(Execute(fp, s, id, plan).0)
  {
    var f, t := fp(s.findings[id].source), Execute(fp, s, id, plan).0;
    TrimTwice("");
    forall x | x in t.findings ensures FindingAgrees(t.cache, t.findings[x]) {
      assert FindingAgrees(s.cache, s.findings[x]);
      if f in s.cache {
        assert EntryAgrees(s.cache[f]);
      }
    }
    forall g | g in t.cache ensures EntryAgrees(t.cache[g]) {
      if g in s.cache {
        assert EntryAgrees(s.cache[g]);
      }
    }
  }

  lemma {:induction false} HarmfulBreaks(fp: Fingerprint, s: State, id: Id, plan: Plan)
    requires Agrees(s) && id in s.findings && (plan.Hit? ==> EntryAgrees(plan.entry))
    requires Harmful(fp, s, id, plan)
    ensures !Agrees(Execute(fp, s, id, plan).0)
  {
    var f, t := fp(s.findings[id].source), Execute(fp, s, id, plan).0;
    if Blank(plan.entry.summary) {
      assert !EntryAgrees(t.cache[f]);
    } else {
      assert !FindingAgrees(t.cache, t.findings[id]);
    }
  }

  /** Carrying out any plan, however old, keeps the agreement exactly when the plan is not harmful. */
  lemma {:induction false} ExecuteAgreesExactly(fp: Fingerprint, s: State, id: Id, plan: Plan)
    requires Agrees(s) && id in s.findings && (plan.Hit? ==> EntryAgrees(plan.entry))
    ensures Agrees(Execute(fp, s, id, plan).0) <==> !Harmful(fp, s, id, plan)
  {
    if Harmful(fp, s, id, plan) {
      HarmfulBreaks(fp, s, id, plan);
    } else {
      HarmlessAgrees(fp, s, id, plan);
    }
  }

  lemma {:induction false} PrepareAgrees(fp: Fingerprint, s: State, id: Id)
    requires Agrees(s)
    ensures Agrees(Prepare(fp, s, id).0)
  {
    if id in s.findings {
      var f := fp(s.findings[id].source);
      if f in s.cache {
        assert EntryAgrees(s.cache[f]);
      }
      HarmlessAgrees(fp, s, id, Decide(fp, s, id));
    }
  }

  lemma {:induction false} StoreAgrees(s: State, f: string, text: string)
    requires Agrees(s)
    ensures Agrees(Store(s, f, text))
  {
    TrimTwice(text);
    var t := Store(s, f, text);
    forall x | x in t.findings ensures FindingAgrees(t.cache, t.findings[x]) {
      assert FindingAgrees(s.cache, s.findings[x]);
    }
  }

  lemma {:induction false} MarkFailedAgrees(s: State, f: string)
    requires Agrees(s)
    ensures Agrees(MarkFailed(s, f))
  {
    var t := MarkFailed(s, f);
    forall x | x in t.findings ensures FindingAgrees(t.cache, t.findings[x]) {
      assert FindingAgrees(s.cache, s.findings[x]);
    }
    forall g | g in t.cache ensures EntryAgrees(t.cache[g]) {
      assert EntryAgrees(s.cache[g]);
    }
  }

  lemma {:induction false} ApplyAgrees(fp: Fingerprint, s: State, e: Event)
    requires Agrees(s)
    ensures Agrees(Apply(fp, s, e))
  {
    match e
    case Inserted(_, _) =>
    case Edited(_, _) =>
    case Prepares(id) => PrepareAgrees(fp, s, id);
    case Stores(f, text) => StoreAgrees(s, f, text);
    case MarksFailed(f) => MarkFailedAgrees(s, f);
  }

  lemma {:induction false} RunAgrees(fp: Fingerprint, events: seq<Event>)
    ensures Agrees(Run(fp, events))
  {
    if events != [] {
      RunAgrees(fp, events[..|events| - 1]);
      ApplyAgrees(fp, Run(fp, events[..|events| - 1]), events[|events| - 1]);
    }
  }

  /** In every reachable state a ready finding shows the cached summary of its fingerprint. */
  lemma {:induction false} ReadySummariesAgree(fp: Fingerprint, events: seq<Event>, id: Id)
    requires id in Run(fp, events).findings && Run(fp, events).findings[id].status == Ready
    ensures var s := Run(fp, events); var x := s.findings[id];
            && !Blank(x.summary)
            && x.fingerprint.Some? && x.fingerprint.value in s.cache
            && s.cache[x.fingerprint.value].status != Pending
            && s.cache[x.fingerprint.value].summary == x.summary
  {
    RunAgrees(fp, events);
    var s := Run(fp, events);
    assert FindingAgrees(s.cache, s.findings[id]);
    assert EntryAgrees(s.cache[s.findings[id].fingerprint.value]);
  }

  // ---------------------------------------------------------------- single flight

  ghost function Bit(b: bool): nat {
    if b then 1 else 0
  }

  ghost predicate HasFailed(s: State, f: string) {
    f in s.cache && s.cache[f].status == Failed
  }

  /** Every generation but the first is paid for by a failure. */
  ghost predicate Paid(s: State, f: string, enqueued: nat, failures: nat) {
    enqueued + Bit(HasFailed(s, f)) <= Bit(f in s.cache) + failures
  }

  lemma PaidStep(fp: Fingerprint, s: State, e: Event, f: string, enqueued: nat, failures: nat)
    requires Paid(s, f, enqueued, failures)
    ensures Paid(Apply(fp, s, e), f, enqueued + Bit(Enqueues(fp, s, e, f)), failures + Bit(e == MarksFailed(f)))
  {
  }

  /** Per fingerprint, generations are started at most once more often than failures are marked. */
  lemma {:induction false} SingleFlight(fp: Fingerprint, events: seq<Event>, f: string)
    ensures Enqueued(fp, events, f) <= 1 + Failures(events, f)
    ensures Paid(Run(fp, events), f, Enqueued(fp, events, f), Failures(events, f))
  {
    if events != [] {
      var init := events[..|events| - 1];
      SingleFlight(fp, init, f);
      PaidStep(fp, Run(fp, init), events[|events| - 1], f, Enqueued(fp, init, f), Failures(init, f));
    }
  }

  // ---------------------------------------------------------------- delivery

  /** The finding shows the summary. */
  ghost predicate Shows(s: State, id: Id, text: string) {
    id in s.findings && s.findings[id].status == Ready && s.findings[id].summary == text
  }

  ghost predicate WaitsFor(s: State, id: Id, f: string) {
    id in s.findings && s.findings[id].fingerprint == Some(f)
  }

  /** A stored summary reaches every finding of its fingerprint and its cache row, and nothing else. */
  lemma StoreReaches(s: State, f: string, text: string)
    requires !Blank(text)
    ensures var t := Store(s, f, text);
            && t.findings.Keys == s.findings.Keys
            && (forall id :: WaitsFor(s, id, f) ==>
                  Shows(t, id, Text.Trim(text)) && t.findings[id].source == s.findings[id].source && WaitsFor(t, id, f))
            && (forall id :: id in s.findings && !WaitsFor(s, id, f) ==> t.findings[id] == s.findings[id])
            && t.cache == s.cache[f := Entry(Ready, Text.Trim(text))]
  {
  }

  /** What other calls do, a finding keeps the fingerprint of its last lookup. */
  lemma StepKeepsWaiting(fp: Fingerprint, s: State, e: Event, id: Id, f: string)
    requires WaitsFor(s, id, f) && e != Prepares(id)
    ensures WaitsFor(Apply(fp, s, e), id, f)
  {
  }

  lemma RunSnoc(fp: Fingerprint, events: seq<Event>, e: Event)
    ensures Run(fp, events + [e]) == Apply(fp, Run(fp, events), e)
  {
    assert (events + [e])[..|events|] == events;
  }

  lemma {:induction false} KeepsWaiting(fp: Fingerprint, events: seq<Event>, more: seq<Event>, id: Id, f: string)
    requires WaitsFor(Run(fp, events), id, f) && Prepares(id) !in more
    ensures WaitsFor(Run(fp, events + more), id, f)
  {
    if more == [] {
      assert events + more == events;
    } else {
      var init, last := more[..|more| - 1], more[|more| - 1];
      KeepsWaiting(fp, events, init, id, f);
      assert events + more == (events + init) + [last];
      RunSnoc(fp, events + init, last);
      assert last in more;
      StepKeepsWaiting(fp, Run(fp, events + init), last, id, f);
    }
  }

  /**
   A lookup of a finding without a description of its own waits for its fingerprint: whatever happens before
   the finding is looked up again, a summary stored for that fingerprint is what it shows.
   */
  lemma {:induction false} StoredIsShown(
    fp: Fingerprint, events: seq<Event>, id: Id, more: seq<Event>, f: string, text: string)
    requires var s := Run(fp, events);
             id in s.findings && Blank(s.findings[id].source.description) && f == fp(s.findings[id].source)
    requires Prepares(id) !in more && !Blank(text)
    ensures Shows(Run(fp, events + [Prepares(id)] + more + [Stores(f, text)]), id, Text.Trim(text))
  {
    RunSnoc(fp, events, Prepares(id));
    KeepsWaiting(fp, events + [Prepares(id)], more, id, f);
    RunSnoc(fp, events + [Prepares(id)] + more, Stores(f, text));
    StoreReaches(Run(fp, events + [Prepares(id)] + more), f, text);
  }

  // ---------------------------------------------------------------- a fingerprint's own story

  /** Where the summary of one fingerprint is: not asked for, being generated, failed, or there. */
  datatype Phase = Idle | Flying | Down | Done(text: string)

  /** The source of a finding: as it was inserted, or last edited. */
  ghost function SourceAt(events: seq<Event>, id: Id): Option<Source> {
    if events == [] then None
    else
      var before := SourceAt(events[..|events| - 1], id);
      match events[|events| - 1]
      case Inserted(x, source) => if x == id && before.None? then Some(source) else before
      case Edited(x, source) => if x == id && before.Some? then Some(source) else before
      case _ => before
  }

  /** The finding has no description and asks for the summary of `f`. */
  ghost predicate AsksFor(fp: Fingerprint, source: Option<Source>, f: string) {
    source.Some? && Text.Trim(source.value.description) == "" && fp(source.value) == f
  }

  /** The story knows nothing of the tables. */
  ghost function Tell(fp: Fingerprint, events: seq<Event>, f: string): Phase {
    if events == [] then Idle
    else
      var init := events[..|events| - 1];
      var phase := Tell(fp, init, f);
      match events[|events| - 1]
      case Prepares(id) =>
        if AsksFor(fp, SourceAt(init, id), f) && (phase.Idle? || phase.Down?) then Flying else phase
      case Stores(g, text) => if g == f && Text.Trim(text) != "" then Done(Text.Trim(text)) else phase
      case MarksFailed(g) => if g == f && f != "" && phase.Flying? then Down else phase
      case _ => phase
  }

  /** The cache row in each phase; a failure marked after a summary was stored leaves the summary. */
  ghost predicate RowOf(s: State, f: string, phase: Phase) {
    match phase
    case Idle => f !in s.cache
    case Flying => f in s.cache && s.cache[f] == Entry(Pending, "")
    case Down => f in s.cache && s.cache[f] == Entry(Failed, "")
    case Done(text) =>
      f in s.cache && s.cache[f].summary == text && (s.cache[f].status.Ready? || s.cache[f].status.Failed?)
  }

  ghost function SourceIn(s: State, id: Id): Option<Source> {
    if id in s.findings then Some(s.findings[id].source) else None
  }

  /** Only inserts and edits change sources. */
  lemma StepSource(fp: Fingerprint, s: State, e: Event, id: Id)
    ensures SourceIn(Apply(fp, s, e), id)
         == match e
            case Inserted(x, source) => if x == id && id !in s.findings then Some(source) else SourceIn(s, id)
            case Edited(x, source) => if x == id && id in s.findings then Some(source) else SourceIn(s, id)
            case _ => SourceIn(s, id)
  {
  }

  lemma {:induction false} SourcesAre(fp: Fingerprint, events: seq<Event>, id: Id)
    ensures SourceAt(events, id) == SourceIn(Run(fp, events), id)
  {
    if events != [] {
      var init := events[..|events| - 1];
      SourcesAre(fp, init, id);
      StepSource(fp, Run(fp, init), events[|events| - 1], id);
    }
  }

  ghost predicate Told(phase: Phase) {
    phase.Done? ==> !Blank(phase.text)
  }

  lemma {:induction false} StepTells(fp: Fingerprint, s: State, e: Event, f: string, phase: Phase, next: Phase)
    requires RowOf(s, f, phase) && Told(phase)
    requires next == match e
             case Prepares(id) =>
               if AsksFor(fp, SourceIn(s, id), f) && (phase.Idle? || phase.Down?) then Flying else phase
             case Stores(g, text) => if g == f && Text.Trim(text) != "" then Done(Text.Trim(text)) else phase
             case MarksFailed(g) => if g == f && f != "" && phase.Flying? then Down else phase
             case _ => phase
    ensures RowOf(Apply(fp, s, e), f, next) && Told(next)
    ensures Enqueues(fp, s, e, f) <==> next != phase && next.Flying?
  {
    TrimTwice("");
    if e.Stores? {
      TrimTwice(e.text);
    }
  }

  /**
   The cache row of a fingerprint, and each start of a generation, are what its own story says: a lookup starts one
   exactly when none was started, or the last one failed and no summary has been stored.
   */
  lemma {:induction false} CacheTellsStory(fp: Fingerprint, events: seq<Event>, f: string)
    ensures RowOf(Run(fp, events), f, Tell(fp, events, f)) && Told(Tell(fp, events, f))
  {
    if events != [] {
      var init, last := events[..|events| - 1], events[|events| - 1];
      CacheTellsStory(fp, init, f);
      if last.Prepares? {
        SourcesAre(fp, init, last.id);
      }
      StepTells(fp, Run(fp, init), last, f, Tell(fp, init, f), Tell(fp, events, f));
    }
  }

  lemma {:induction false} StartsExactly(fp: Fingerprint, events: seq<Event>, id: Id, f: string)
    ensures Enqueues(fp, Run(fp, events), Prepares(id), f)
       <==> AsksFor(fp, SourceAt(events, id), f) && (Tell(fp, events, f).Idle? || Tell(fp, events, f).Down?)
  {
    CacheTellsStory(fp, events, f);
    SourcesAre(fp, events, id);
    var phase := Tell(fp, events, f);
    var next := if AsksFor(fp, SourceAt(events, id), f) && (phase.Idle? || phase.Down?) then Flying else phase;
    StepTells(fp, Run(fp, events), Prepares(id), f, phase, next);
  }

  /**
   What a lookup answers and leaves in the finding: a finding with a description of its own needs no summary; any
   other waits for its fingerprint, and shows the summary if there is one, else a generation is on its way.
   */
  lemma {:induction false} LookupAnswers(fp: Fingerprint, events: seq<Event>, id: Id)
    requires id in Run(fp, events).findings
    ensures var x, f := Run(fp, events).findings[id], fp(Run(fp, events).findings[id].source);
            var (t, reply) := Prepare(fp, Run(fp, events), id); var story := Tell(fp, events, f);
            && reply.Some? && id in t.findings
            && (if Text.Trim(x.source.description) != "" then
                  t.findings[id] == x.(status := Unset) && reply.value == Prepared("", "", Unset, false)
                else if story.Done? then
                  && t.findings[id] == x.(fingerprint := Some(f), summary := story.text, status := Ready)
                  && reply.value == Prepared(f, story.text, Ready, false)
                else
                  && t.findings[id] == x.(fingerprint := Some(f), status := Pending)
                  && reply.value == Prepared(f, "", Pending, !story.Flying?))
  {
    CacheTellsStory(fp, events, fp(Run(fp, events).findings[id].source));
    TrimTwice("");
  }

  /** A failure reaches every finding of the fingerprint, which keeps its text, and nothing else. */
  lemma FailureReaches(s: State, f: string)
    requires f != ""
    ensures var t := MarkFailed(s, f);
            && t.findings.Keys == s.findings.Keys
            && forall id :: id in s.findings ==>
                 t.findings[id] == if WaitsFor(s, id, f) then s.findings[id].(status := Failed) else s.findings[id]
  {
  }

  // ---------------------------------------------------------------- statements that interleave

  /** Besides whole calls, statements that carry out what an earlier lookup decided. */
  datatype Turn = Whole(event: Event) | Late(id: Id, plan: Plan)

  ghost function Take(fp: Fingerprint, s: State, t: Turn): State {
    match t
    case Whole(e) => Apply(fp, s, e)
    case Late(id, plan) => if id in s.findings then Execute(fp, s, id, plan).0 else s
  }

  ghost function Turns(fp: Fingerprint, turns: seq<Turn>): State {
    if turns == [] then State(map[], map[]) else Take(fp, Turns(fp, turns[..|turns| - 1]), turns[|turns| - 1])
  }

  ghost predicate Starts(fp: Fingerprint, s: State, t: Turn, f: string) {
    match t
    case Whole(e) => Enqueues(fp, s, e, f)
    case Late(id, plan) =>
      id in s.findings && var reply := Execute(fp, s, id, plan).1;
      reply.Some? && reply.value.shouldEnqueue && reply.value.fingerprint == f
  }

  /** The tables have moved on since the lookup for a finding of `f`. */
  ghost predicate Stale(fp: Fingerprint, s: State, t: Turn, f: string) {
    && t.Late? && t.id in s.findings && fp(s.findings[t.id].source) == f
    && t.plan != Decide(fp, s, t.id)
  }

  ghost function Started(fp: Fingerprint, turns: seq<Turn>, f: string): nat {
    if turns == [] then 0
    else
      var init := turns[..|turns| - 1];
      Started(fp, init, f) + Bit(Starts(fp, Turns(fp, init), turns[|turns| - 1], f))
  }

  /** Failures marked, and late statements that were stale. */
  ghost function Excused(fp: Fingerprint, turns: seq<Turn>, f: string): nat {
    if turns == [] then 0
    else
      var init, last := turns[..|turns| - 1], turns[|turns| - 1];
      Excused(fp, init, f) + Bit(last == Whole(MarksFailed(f))) + Bit(Stale(fp, Turns(fp, init), last, f))
  }

  lemma LatePaid(fp: Fingerprint, s: State, t: Turn, f: string, started: nat, excused: nat)
    requires t.Late? && Paid(s, f, started, excused)
    ensures Paid(Take(fp, s, t), f, started + Bit(Starts(fp, s, t, f)), excused + Bit(Stale(fp, s, t, f)))
  {
  }

  /** With executions of old lookups, generations are at most one more than failures and stale executions. */
  lemma {:induction false} FlightsBounded(fp: Fingerprint, turns: seq<Turn>, f: string)
    ensures Started(fp, turns, f) <= 1 + Excused(fp, turns, f)
    ensures Paid(Turns(fp, turns), f, Started(fp, turns, f), Excused(fp, turns, f))
  {
    if turns != [] {
      var init, last := turns[..|turns| - 1], turns[|turns| - 1];
      FlightsBounded(fp, init, f);
      var s := Turns(fp, init);
      if last.Late? {
        LatePaid(fp, s, last, f, Started(fp, init, f), Excused(fp, init, f));
      } else {
        PaidStep(fp, s, last.event, f, Started(fp, init, f), Excused(fp, init, f));
      }
    }
  }

  /** Two findings of one fingerprint whose lookups both miss both start a generation, without any failure. */
  lemma InterleavedLookupsStartTwice(fp: Fingerprint, s: State, a: Id, b: Id)
    requires a in s.findings && b in s.findings && a != b
    requires fp(s.findings[a].source) == fp(s.findings[b].source)
    requires Decide(fp, s, a) == Miss && Decide(fp, s, b) == Miss
    ensures var first := Execute(fp, s, a, Miss); var second := Execute(fp, first.0, b, Miss);
            && first.1.Some? && first.1.value.shouldEnqueue
            && second.1.Some? && second.1.value.shouldEnqueue
            && first.1.value.fingerprint == second.1.value.fingerprint
    ensures var first := Prepare(fp, s, a); var second := Prepare(fp, first.0, b);
            second.1.Some? && !second.1.value.shouldEnqueue
  {
    TrimTwice("");
  }

  /** The entries that old lookups found agreed when they were read. */
  ghost predicate Credible(turns: seq<Turn>) {
    forall t :: t in turns && t.Late? && t.plan.Hit? ==> EntryAgrees(t.plan.entry)
  }

  ghost predicate HarmfulTurn(fp: Fingerprint, s: State, t: Turn) {
    t.Late? && t.id in s.findings && Harmful(fp, s, t.id, t.plan)
  }

  ghost predicate NoneHarmful(fp: Fingerprint, turns: seq<Turn>) {
    turns != [] ==>
      var init := turns[..|turns| - 1];
      NoneHarmful(fp, init) && !HarmfulTurn(fp, Turns(fp, init), turns[|turns| - 1])
  }

  /** Every state of the run agrees. */
  ghost predicate AlwaysAgrees(fp: Fingerprint, turns: seq<Turn>) {
    Agrees(Turns(fp, turns)) && (turns != [] ==> AlwaysAgrees(fp, turns[..|turns| - 1]))
  }

  /** When old lookups are carried out, every state of a run agrees exactly when none of them is harmful. */
  lemma {:induction false} AgreesUnlessHarmful(fp: Fingerprint, turns: seq<Turn>)
    requires Credible(turns)
    ensures AlwaysAgrees(fp, turns) <==> NoneHarmful(fp, turns)
  {
    if turns != [] {
      var init, last := turns[..|turns| - 1], turns[|turns| - 1];
      AgreesUnlessHarmful(fp, init);
      assert last in turns;
      var s := Turns(fp, init);
      if AlwaysAgrees(fp, init) {
        AgreesHere(fp, init);
        TakeAgreesExactly(fp, s, last);
      }
    }
  }

  lemma {:induction false} AgreesHere(fp: Fingerprint, turns: seq<Turn>)
    requires AlwaysAgrees(fp, turns)
    ensures Agrees(Turns(fp, turns))
  {
  }

  lemma {:induction false} TakeAgreesExactly(fp: Fingerprint, s: State, t: Turn)
    requires Agrees(s) && (t.Late? && t.plan.Hit? ==> EntryAgrees(t.plan.entry))
    ensures Agrees(Take(fp, s, t)) <==> !HarmfulTurn(fp, s, t)
  {
    if t.Whole? {
      ApplyAgrees(fp, s, t.event);
    } else if t.id in s.findings {
      ExecuteAgreesExactly(fp, s, t.id, t.plan);
    }
  }

  /** Harmful: a store between lookup and update leaves a ready finding with the summary from before. */
  lemma {:induction false} InterleavedStoreGoesStale(fp: Fingerprint, s: State, a: Id, text: string)
    requires Agrees(s) && a in s.findings && !Blank(text)
    requires Decide(fp, s, a).Hit? && !Blank(Decide(fp, s, a).entry.summary)
    requires Text.Trim(text) != Decide(fp, s, a).entry.summary
    ensures var f := fp(s.findings[a].source);
            !Agrees(Execute(fp, Store(s, f, text), a, Decide(fp, s, a)).0)
  {
    var f := fp(s.findings[a].source);
    assert EntryAgrees(s.cache[f]);
    StoreAgrees(s, f, text);
    ExecuteAgreesExactly(fp, Store(s, f, text), a, Decide(fp, s, a));
  }

  /** Harmful too: a failed lookup carried out after a store makes the row pending again, summary and all. */
  lemma {:induction false} InterleavedRetryForgets(fp: Fingerprint, s: State, a: Id, text: string)
    requires Agrees(s) && a in s.findings && !Blank(text)
    requires Decide(fp, s, a) == Hit(Entry(Failed, ""))
    ensures var f := fp(s.findings[a].source);
            var t := Execute(fp, Store(s, f, text), a, Decide(fp, s, a)).0;
            !Agrees(t) && f in t.cache && t.cache[f] == Entry(Pending, Text.Trim(text))
  {
    var f := fp(s.findings[a].source);
    TrimTwice("");
    StoreAgrees(s, f, text);
    ExecuteAgreesExactly(fp, Store(s, f, text), a, Decide(fp, s, a));
  }
}
