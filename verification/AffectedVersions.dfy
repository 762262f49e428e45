/** Which versions an advisory's ranges cover (internal/threats/matcher.go:108-165). */
module AffectedVersions {
  import opened Wrappers
  import opened Versions
  import Numbers
  import Text

  /** The empty string stands for a bound that is absent. */
  datatype RangeEvent = RangeEvent(introduced: string, fixed: string)

  predicate AtOrAbove(v: string, bound: string) {
    CompareVersions(v, bound) >= 0
  }

  /** The two flags of the loop after one more event. */
  datatype Flags = Flags(affected: bool, bounded: bool)

  function Step(v: string, f: Flags, e: RangeEvent): Flags {
    var g := if e.introduced != "" then Flags(AtOrAbove(v, e.introduced), true) else f;
    if e.fixed == "" then g
    else
      var armed := if g.bounded then g.affected else true;
      Flags(armed && !AtOrAbove(v, e.fixed), true)
  }

  function Walk(v: string, events: seq<RangeEvent>): Flags {
    if events == [] then Flags(false, false) else Step(v, Walk(v, events[..|events| - 1]), events[|events| - 1])
  }

  predicate Accepts(v: string, events: seq<RangeEvent>) {
    var f := Walk(v, events);
    !f.bounded || f.affected
  }

  method VersionInEvents(version: string, events: seq<RangeEvent>) returns (r: bool)
    ensures r == Accepts(version, events)
  {
    var affected, bounded := false, false;
    for i := 0 to |events|
      invariant Flags(affected, bounded) == Walk(version, events[..i])
    {
      assert events[..i + 1][..i] == events[..i];
      var e := events[i];
      if e.introduced != "" {
        bounded := true;
        var c := CompareVersionStrings(version, e.introduced);
        affected := c >= 0;
      }
      if e.fixed != "" {
        if !bounded {
          bounded := true;
          affected := true;
        }
        var c := CompareVersionStrings(version, e.fixed);
        if affected && c >= 0 {
          affected := false;
        }
      }
    }
    assert events[..|events|] == events;
    if !bounded {
      return true;
    }
    return affected;
  }

  // ---------------------------------------------------------------- one interval

  /** The index of the last event with an introduced bound, -1 when there is none. */
  function LastIntroduced(events: seq<RangeEvent>): (l: int)
    ensures -1 <= l < |events|
    ensures l >= 0 ==> events[l].introduced != ""
    ensures forall k :: l < k < |events| ==> events[k].introduced == ""
  {
    if events == [] then -1
    else if events[|events| - 1].introduced != "" then |events| - 1
    else LastIntroduced(events[..|events| - 1])
  }

  ghost predicate Unbounded(events: seq<RangeEvent>) {
    forall k :: 0 <= k < |events| ==> events[k].introduced == "" && events[k].fixed == ""
  }

  /** Below every fixed bound from event `from` on. */
  ghost predicate BelowFixes(v: string, events: seq<RangeEvent>, from: int)
    requires 0 <= from
  {
    forall k :: from <= k < |events| && events[k].fixed != "" ==> !AtOrAbove(v, events[k].fixed)
  }

  /** At or above the last introduced bound and below every fixed bound from there on. */
  ghost predicate InInterval(v: string, events: seq<RangeEvent>) {
    var l := LastIntroduced(events);
    && (l >= 0 ==> AtOrAbove(v, events[l].introduced))
    && BelowFixes(v, events, if l >= 0 then l else 0)
  }

  lemma UnboundedSnoc(init: seq<RangeEvent>, e: RangeEvent)
    ensures Unbounded(init + [e]) <==> Unbounded(init) && e.introduced == "" && e.fixed == ""
  {
    assert forall k :: 0 <= k < |init| ==> (init + [e])[k] == init[k];
    assert (init + [e])[|init|] == e;
  }

  lemma FixesSnoc(v: string, init: seq<RangeEvent>, e: RangeEvent, from: int)
    requires 0 <= from <= |init|
    ensures BelowFixes(v, init + [e], from)
       <==> BelowFixes(v, init, from) && (e.fixed != "" ==> !AtOrAbove(v, e.fixed))
  {
    var events := init + [e];
    assert forall k :: 0 <= k < |init| ==> events[k] == init[k];
    assert events[|init|] == e;
  }

  lemma {:induction false} LastIntroducedSnoc(init: seq<RangeEvent>, e: RangeEvent)
    ensures LastIntroduced(init + [e]) == if e.introduced != "" then |init| else LastIntroduced(init)
  {
    assert (init + [e])[..|init|] == init;
  }

  /** One more event, without an introduced bound or with one. */
  lemma IntervalSnoc(v: string, init: seq<RangeEvent>, e: RangeEvent)
    ensures InInterval(v, init + [e])
       <==> && (e.fixed != "" ==> !AtOrAbove(v, e.fixed))
            && (if e.introduced != "" then AtOrAbove(v, e.introduced) else InInterval(v, init))
  {
    LastIntroducedSnoc(init, e);
    var l := LastIntroduced(init + [e]);
    FixesSnoc(v, init, e, if l >= 0 then l else 0);
    assert forall k :: 0 <= k < |init| ==> (init + [e])[k] == init[k];
    assert (init + [e])[|init|] == e;
  }

  /** Before any bound there is nothing to be in or out of. */
  lemma UnboundedInterval(v: string, events: seq<RangeEvent>)
    requires Unbounded(events)
    ensures InInterval(v, events)
  {
  }

  lemma {:induction false} WalkFlags(v: string, events: seq<RangeEvent>)
    ensures Walk(v, events).bounded <==> !Unbounded(events)
    ensures !Unbounded(events) ==> (Walk(v, events).affected <==> InInterval(v, events))
  {
    if events != [] {
      var init, e := events[..|events| - 1], events[|events| - 1];
      WalkFlags(v, init);
      Text.SplitLast(events);
      UnboundedSnoc(init, e);
      IntervalSnoc(v, init, e);
      if Unbounded(init) {
        UnboundedInterval(v, init);
      }
    }
  }

  /** For every list and every version the loop accepts exactly one interval. */
  lemma AcceptsOneInterval(v: string, events: seq<RangeEvent>)
    ensures Accepts(v, events) <==> Unbounded(events) || InInterval(v, events)
  {
    WalkFlags(v, events);
  }

  ghost predicate NumericVersion(v: string) {
    Numeric(SplitVersion(v))
  }

  ghost predicate NumericBounds(events: seq<RangeEvent>) {
    forall k :: 0 <= k < |events| ==>
      && (events[k].introduced != "" ==> NumericVersion(events[k].introduced))
      && (events[k].fixed != "" ==> NumericVersion(events[k].fixed))
  }

  lemma NumericTransitive(a: string, b: string, c: string)
    requires NumericVersion(a) && NumericVersion(b) && NumericVersion(c)
    requires AtOrAbove(b, a) && AtOrAbove(c, b)
    ensures AtOrAbove(c, a)
  {
    CompareAntisymmetric(a, b);
    CompareAntisymmetric(b, c);
    CompareAntisymmetric(a, c);
    NumericUniform(SplitVersion(a), SplitVersion(b), SplitVersion(c));
    TransitiveUnlessMixed(a, b, c);
  }

  /** On numeric versions the affected set is convex: what lies between two affected versions is affected. */
  lemma AffectedIsConvex(low: string, v: string, high: string, events: seq<RangeEvent>)
    requires NumericVersion(low) && NumericVersion(v) && NumericVersion(high) && NumericBounds(events)
    requires AtOrAbove(v, low) && AtOrAbove(high, v) && Accepts(low, events) && Accepts(high, events)
    ensures Accepts(v, events)
  {
    AcceptsOneInterval(low, events);
    AcceptsOneInterval(high, events);
    AcceptsOneInterval(v, events);
    if !Unbounded(events) {
      var l := LastIntroduced(events);
      if l >= 0 {
        NumericTransitive(events[l].introduced, low, v);
      }
      var from := if l >= 0 then l else 0;
      forall k | from <= k < |events| && events[k].fixed != "" ensures !AtOrAbove(v, events[k].fixed) {
        if AtOrAbove(v, events[k].fixed) {
          NumericTransitive(events[k].fixed, v, high);
        }
      }
    }
  }

  // ---------------------------------------------------------------- the OSV evaluation

  /** What the "Evaluation" algorithm of the OSV Schema does with one range's events, in the order given. */
  ghost predicate OsvWalk(v: string, events: seq<RangeEvent>) {
    events != [] &&
      var e := events[|events| - 1];
      var before := OsvWalk(v, events[..|events| - 1]);
      var after := before || (e.introduced != "" && AtOrAbove(v, e.introduced));
      after && !(e.fixed != "" && AtOrAbove(v, e.fixed))
  }

  /** An event of the schema has one version. */
  predicate OneBound(e: RangeEvent) {
    (e.introduced == "") != (e.fixed == "")
  }

  function Bound(e: RangeEvent): string {
    if e.introduced != "" then e.introduced else e.fixed
  }

  ghost predicate Sorted(events: seq<RangeEvent>) {
    && (forall k :: 0 <= k < |events| ==> OneBound(events[k]))
    && (forall i, j :: 0 <= i < j < |events| ==> AtOrAbove(Bound(events[j]), Bound(events[i])))
  }

  /** The schema sorts the events by version first; it leaves the order of equal ones open. */
  ghost predicate IsSorting(events: seq<RangeEvent>, sorted: seq<RangeEvent>) {
    Sorted(sorted) && multiset(events) == multiset(sorted)
  }

  ghost predicate OsvVulnerable(v: string, sorted: seq<RangeEvent>)
    requires Sorted(sorted)
  {
    OsvWalk(v, sorted)
  }

  lemma WalkSnoc(v: string, init: seq<RangeEvent>, e: RangeEvent)
    ensures OsvWalk(v, init + [e])
       <==> && (OsvWalk(v, init) || (e.introduced != "" && AtOrAbove(v, e.introduced)))
            && (e.fixed != "" ==> !AtOrAbove(v, e.fixed))
  {
    assert (init + [e])[..|init|] == init && (init + [e])[|init|] == e;
  }

  /** Above the last introduced bound only the fixed bounds from there on matter to OSV. */
  lemma {:induction false} WalkPastLastIntroduced(v: string, events: seq<RangeEvent>)
    requires var l := LastIntroduced(events); l >= 0 && AtOrAbove(v, events[l].introduced)
    ensures OsvWalk(v, events) <==> InInterval(v, events)
  {
    var init, e := events[..|events| - 1], events[|events| - 1];
    Text.SplitLast(events);
    LastIntroducedSnoc(init, e);
    IntervalSnoc(v, init, e);
    WalkSnoc(v, init, e);
    if e.introduced == "" {
      WalkPastLastIntroduced(v, init);
    }
  }

  lemma {:induction false} WalkRelation(v: string, events: seq<RangeEvent>)
    requires LastIntroduced(events) >= 0
    ensures Accepts(v, events)
       <==> OsvWalk(v, events) && AtOrAbove(v, events[LastIntroduced(events)].introduced)
  {
    AcceptsOneInterval(v, events);
    if AtOrAbove(v, events[LastIntroduced(events)].introduced) {
      WalkPastLastIntroduced(v, events);
    }
  }

  /**
   For every sorted list with an introduced bound: the code accepts exactly the versions that OSV's evaluation
   finds vulnerable and that are at or above the last introduced bound.
   */
  lemma {:induction false} OsvRelation(v: string, sorted: seq<RangeEvent>)
    requires Sorted(sorted) && LastIntroduced(sorted) >= 0
    ensures Accepts(v, sorted)
       <==> OsvVulnerable(v, sorted) && AtOrAbove(v, sorted[LastIntroduced(sorted)].introduced)
  {
    WalkRelation(v, sorted);
  }

  lemma {:induction false} NeverIntroduced(v: string, events: seq<RangeEvent>)
    requires forall k :: 0 <= k < |events| && events[k].introduced != "" ==> !AtOrAbove(v, events[k].introduced)
    ensures !OsvWalk(v, events)
  {
    if events != [] {
      NeverIntroduced(v, events[..|events| - 1]);
    }
  }

  /** The list has an introduced bound, and no other than `start`. */
  ghost predicate OnlyIntroduced(events: seq<RangeEvent>, start: string) {
    && LastIntroduced(events) >= 0
    && (forall k :: 0 <= k < |events| && events[k].introduced != "" ==> events[k].introduced == start)
  }

  lemma WalkOneIntroduced(v: string, events: seq<RangeEvent>, start: string)
    requires OnlyIntroduced(events, start)
    ensures Accepts(v, events) <==> OsvWalk(v, events)
  {
    WalkRelation(v, events);
    if !AtOrAbove(v, start) {
      NeverIntroduced(v, events);
    }
  }

  /** On a sorted list with one introduced bound the two agree. */
  lemma {:induction false} OneIntroducedAgrees(v: string, sorted: seq<RangeEvent>, start: string)
    requires Sorted(sorted) && OnlyIntroduced(sorted, start)
    ensures Accepts(v, sorted) <==> OsvVulnerable(v, sorted)
  {
    WalkOneIntroduced(v, sorted, start);
  }

  // ---------------------------------------------------------------- one introduced bound, any order

  /** The fixed bounds from the last introduced one on. */
  ghost function FixesAfter(events: seq<RangeEvent>): set<string>
    requires LastIntroduced(events) >= 0
  {
    set k | LastIntroduced(events) <= k < |events| && events[k].fixed != "" :: events[k].fixed
  }

  ghost predicate Below(v: string, fixes: set<string>) {
    forall f :: f in fixes ==> !AtOrAbove(v, f)
  }

  lemma AcceptsByFixes(v: string, events: seq<RangeEvent>, start: string)
    requires OnlyIntroduced(events, start)
    ensures Accepts(v, events) <==> AtOrAbove(v, start) && Below(v, FixesAfter(events))
  {
    AcceptsOneInterval(v, events);
  }

  function Later(a: string, b: string): string {
    if AtOrAbove(a, b) then a else b
  }

  lemma LaterIsAbove(a: string, b: string)
    ensures AtOrAbove(Later(a, b), a) && AtOrAbove(Later(a, b), b)
  {
    CompareAntisymmetric(a, b);
    CompareAntisymmetric(b, a);
  }

  /** From `start` on, a version that reaches one of `others` has reached one of `fixes`. */
  ghost predicate Covers(fixes: set<string>, others: set<string>, start: string) {
    forall f :: f in others ==> !Below(Later(f, start), fixes)
  }

  ghost predicate AllNumeric(fixes: set<string>) {
    forall f :: f in fixes ==> NumericVersion(f)
  }

  lemma CoversBelow(v: string, fixes: set<string>, others: set<string>, start: string)
    requires NumericVersion(v) && NumericVersion(start) && AllNumeric(fixes) && AllNumeric(others)
    requires AtOrAbove(v, start) && Covers(fixes, others, start) && Below(v, fixes)
    ensures Below(v, others)
  {
    forall f | f in others ensures !AtOrAbove(v, f) {
      if AtOrAbove(v, f) {
        var g :| g in fixes && AtOrAbove(Later(f, start), g);
        NumericTransitive(g, Later(f, start), v);
      }
    }
  }

  /** From `start` on the two sets end the interval at the same version. */
  ghost predicate EndAlike(fixes: set<string>, others: set<string>, start: string) {
    Covers(fixes, others, start) && Covers(others, fixes, start)
  }

  ghost predicate SameInterval(fixes: set<string>, others: set<string>, start: string) {
    forall v: string :: NumericVersion(v) && AtOrAbove(v, start) ==> (Below(v, fixes) <==> Below(v, others))
  }

  lemma SameIntervalCovers(fixes: set<string>, others: set<string>, start: string)
    requires NumericVersion(start) && AllNumeric(others) && SameInterval(fixes, others, start)
    ensures Covers(fixes, others, start)
  {
    forall f | f in others ensures !Below(Later(f, start), fixes) {
      LaterIsAbove(f, start);
    }
  }

  lemma SameIntervalExactly(fixes: set<string>, others: set<string>, start: string)
    requires NumericVersion(start) && AllNumeric(fixes) && AllNumeric(others)
    ensures SameInterval(fixes, others, start) <==> EndAlike(fixes, others, start)
  {
    if SameInterval(fixes, others, start) {
      SameIntervalCovers(fixes, others, start);
      SameIntervalCovers(others, fixes, start);
    }
    if EndAlike(fixes, others, start) {
      forall v: string | NumericVersion(v) && AtOrAbove(v, start) ensures Below(v, fixes) <==> Below(v, others) {
        if Below(v, fixes) {
          CoversBelow(v, fixes, others, start);
        } else if Below(v, others) {
          CoversBelow(v, others, fixes, start);
        }
      }
    }
  }

  lemma SameEvents(events: seq<RangeEvent>, sorted: seq<RangeEvent>, k: nat)
    requires multiset(events) == multiset(sorted) && k < |sorted|
    ensures sorted[k] in events
  {
    assert sorted[k] in multiset(events);
  }

  lemma SortingKeepsIntroduced(events: seq<RangeEvent>, sorted: seq<RangeEvent>, start: string)
    requires IsSorting(events, sorted) && OnlyIntroduced(events, start)
    ensures OnlyIntroduced(sorted, start)
  {
    forall k | 0 <= k < |sorted| && sorted[k].introduced != "" ensures sorted[k].introduced == start {
      SameEvents(events, sorted, k);
    }
    SameEvents(sorted, events, LastIntroduced(events));
  }

  lemma SortingKeepsNumeric(events: seq<RangeEvent>, sorted: seq<RangeEvent>)
    requires IsSorting(events, sorted) && NumericBounds(events)
    ensures NumericBounds(sorted)
  {
    forall k | 0 <= k < |sorted|
      ensures sorted[k].introduced != "" ==> NumericVersion(sorted[k].introduced)
      ensures sorted[k].fixed != "" ==> NumericVersion(sorted[k].fixed)
    {
      SameEvents(events, sorted, k);
    }
  }

  /** In a sorted list the fixed bounds after the introduced one are those above it, and maybe some equal to it. */
  lemma FixesAreAbove(sorted: seq<RangeEvent>, start: string, k: nat)
    requires Sorted(sorted) && OnlyIntroduced(sorted, start) && k < |sorted| && sorted[k].fixed != ""
    ensures !AtOrAbove(start, sorted[k].fixed) ==> sorted[k].fixed in FixesAfter(sorted)
    ensures k >= LastIntroduced(sorted) ==> AtOrAbove(sorted[k].fixed, start)
  {
    var l := LastIntroduced(sorted);
    assert OneBound(sorted[l]) && OneBound(sorted[k]);
    assert Bound(sorted[l]) == start && Bound(sorted[k]) == sorted[k].fixed;
  }

  /** Where a fixed bound is listed after the introduced one exactly if it is sorted after it, the two agree. */
  lemma PlacedAlikeAgrees(v: string, events: seq<RangeEvent>, sorted: seq<RangeEvent>, start: string)
    requires IsSorting(events, sorted) && OnlyIntroduced(events, start)
    requires LastIntroduced(sorted) >= 0 && FixesAfter(events) == FixesAfter(sorted)
    ensures Accepts(v, events) <==> OsvVulnerable(v, sorted)
  {
    SortingKeepsIntroduced(events, sorted, start);
    AcceptsByFixes(v, events, start);
    AcceptsByFixes(v, sorted, start);
    OneIntroducedAgrees(v, sorted, start);
  }

  /** The code's answer on the list is OSV's, for every numeric version. */
  ghost predicate AgreesWithOsv(events: seq<RangeEvent>, sorted: seq<RangeEvent>)
    requires Sorted(sorted)
  {
    forall v: string :: NumericVersion(v) ==> (Accepts(v, events) <==> OsvVulnerable(v, sorted))
  }

  lemma AgreeAsIntervals(events: seq<RangeEvent>, sorted: seq<RangeEvent>, start: string)
    requires Sorted(sorted) && OnlyIntroduced(events, start) && OnlyIntroduced(sorted, start)
    ensures AgreesWithOsv(events, sorted) <==> SameInterval(FixesAfter(events), FixesAfter(sorted), start)
  {
    forall v: string
      ensures Accepts(v, events) <==> AtOrAbove(v, start) && Below(v, FixesAfter(events))
      ensures OsvVulnerable(v, sorted) <==> AtOrAbove(v, start) && Below(v, FixesAfter(sorted))
    {
      AcceptsByFixes(v, events, start);
      AcceptsByFixes(v, sorted, start);
      OneIntroducedAgrees(v, sorted, start);
    }
  }

  /**
   With one introduced bound and the events in any order: the code is the OSV evaluation if and only if the
   fixed bounds listed after the introduced one end the interval where those sorted after it do.
   */
  lemma {:induction false} OneIntroducedExactly(events: seq<RangeEvent>, sorted: seq<RangeEvent>, start: string)
    requires IsSorting(events, sorted) && OnlyIntroduced(events, start) && NumericBounds(events)
    ensures OnlyIntroduced(sorted, start)
    ensures AgreesWithOsv(events, sorted) <==> EndAlike(FixesAfter(events), FixesAfter(sorted), start)
  {
    SortingKeepsIntroduced(events, sorted, start);
    SortingKeepsNumeric(events, sorted);
    AgreeAsIntervals(events, sorted, start);
    SameIntervalExactly(FixesAfter(events), FixesAfter(sorted), start);
  }

  lemma DigitVersion(d: char)
    requires '0' <= d <= '9'
    ensures SplitVersion([d]) == [[d]] && Numbers.Atoi([d]) == Some((d - '0') as int)
  {
    SplitOneField([d]);
    assert [d][..0] == [];
    assert Numbers.Value([d]) == (d - '0') as nat;
    Numbers.AtoiUnsigned([d]);
  }

  /** A range of two intervals, as OSV lists it. */
  function TwoIntervals(i: string, f: string, j: string, g: string): seq<RangeEvent> {
    OneInterval(i, f) + [RangeEvent(j, "")] + [RangeEvent("", g)]
  }

  function OneInterval(i: string, f: string): seq<RangeEvent> {
    [] + [RangeEvent(i, "")] + [RangeEvent("", f)]
  }

  lemma {:induction false} OsvFirstInterval(v: string, i: string, f: string, j: string, g: string)
    requires i != "" && AtOrAbove(v, i) && !AtOrAbove(v, f) && !AtOrAbove(v, g)
    ensures OsvWalk(v, TwoIntervals(i, f, j, g))
  {
    WalkSnoc(v, [], RangeEvent(i, ""));
    WalkSnoc(v, [] + [RangeEvent(i, "")], RangeEvent("", f));
    WalkSnoc(v, OneInterval(i, f), RangeEvent(j, ""));
    WalkSnoc(v, OneInterval(i, f) + [RangeEvent(j, "")], RangeEvent("", g));
  }

  lemma {:induction false} NotFirstInterval(v: string, i: string, f: string, j: string, g: string)
    requires j != "" && !AtOrAbove(v, j)
    ensures !Accepts(v, TwoIntervals(i, f, j, g))
  {
    var before := OneInterval(i, f);
    IntervalSnoc(v, before, RangeEvent(j, ""));
    IntervalSnoc(v, before + [RangeEvent(j, "")], RangeEvent("", g));
    UnboundedSnoc(before, RangeEvent(j, ""));
    UnboundedSnoc(before + [RangeEvent(j, "")], RangeEvent("", g));
    AcceptsOneInterval(v, TwoIntervals(i, f, j, g));
  }

  /** No event of the list is above the version. */
  ghost predicate AboveAll(v: string, events: seq<RangeEvent>) {
    forall k :: 0 <= k < |events| ==> AtOrAbove(v, Bound(events[k]))
  }

  lemma AboveSnoc(v: string, init: seq<RangeEvent>, e: RangeEvent)
    requires AboveAll(v, init) && AtOrAbove(v, Bound(e))
    ensures AboveAll(v, init + [e])
  {
  }

  lemma SortedSnoc(init: seq<RangeEvent>, e: RangeEvent)
    requires Sorted(init) && OneBound(e) && AboveAll(Bound(e), init)
    ensures Sorted(init + [e])
  {
    var events := init + [e];
    forall i, j | 0 <= i < j < |events| ensures AtOrAbove(Bound(events[j]), Bound(events[i])) {
      assert events[i] == init[i];
    }
  }

  lemma SortedInterval(i: string, f: string)
    requires i != "" && f != "" && AtOrAbove(f, i)
    ensures Sorted(OneInterval(i, f))
  {
    SortedSnoc([], RangeEvent(i, ""));
    SortedSnoc([] + [RangeEvent(i, "")], RangeEvent("", f));
  }

  lemma AboveInterval(v: string, i: string, f: string)
    requires i != "" && AtOrAbove(v, i) && AtOrAbove(v, f)
    ensures AboveAll(v, OneInterval(i, f))
  {
    AboveSnoc(v, [], RangeEvent(i, ""));
    AboveSnoc(v, [] + [RangeEvent(i, "")], RangeEvent("", f));
  }

  lemma SortedIntervals(i: string, f: string, j: string, g: string)
    requires i != "" && f != "" && j != "" && g != "" && Sorted(OneInterval(i, f))
    requires AboveAll(j, OneInterval(i, f)) && AboveAll(g, OneInterval(i, f)) && AtOrAbove(g, j)
    ensures Sorted(TwoIntervals(i, f, j, g))
  {
    SortedSnoc(OneInterval(i, f), RangeEvent(j, ""));
    AboveSnoc(g, OneInterval(i, f), RangeEvent(j, ""));
    SortedSnoc(OneInterval(i, f) + [RangeEvent(j, "")], RangeEvent("", g));
  }

  /** With two introduced bounds OSV may find more: a version of the first of two affected intervals. */
  lemma {:induction false} TwoIntroducedDiffer() returns (v: string, events: seq<RangeEvent>)
    ensures Sorted(events) && |events| == 4 && events[0].introduced != "" && events[2].introduced != ""
    ensures OsvVulnerable(v, events) && !Accepts(v, events)
  {
    v, events := ['1'], TwoIntervals(['1'], ['2'], ['3'], ['4']);
    forall a: char, b: char | '0' <= a <= '9' && '0' <= b <= '9' ensures AtOrAbove([a], [b]) <==> a >= b {
      OneDigit(a, b);
    }
    SortedInterval(['1'], ['2']);
    AboveInterval(['3'], ['1'], ['2']);
    AboveInterval(['4'], ['1'], ['2']);
    SortedIntervals(['1'], ['2'], ['3'], ['4']);
    OsvFirstInterval(v, ['1'], ['2'], ['3'], ['4']);
    NotFirstInterval(v, ['1'], ['2'], ['3'], ['4']);
  }

  /** A fixed bound listed before the introduced one is lost to the code, and not to OSV. */
  lemma FixedFirst(v: string, i: string, f: string)
    requires i != "" && f != "" && AtOrAbove(v, i) && AtOrAbove(v, f) && AtOrAbove(f, i)
    ensures var events, sorted := [RangeEvent("", f)] + [RangeEvent(i, "")], OneInterval(i, f);
            IsSorting(events, sorted) && Accepts(v, events) && !OsvVulnerable(v, sorted)
  {
    SortedInterval(i, f);
    IntervalSnoc(v, [RangeEvent("", f)], RangeEvent(i, ""));
    AcceptsOneInterval(v, [RangeEvent("", f)] + [RangeEvent(i, "")]);
    WalkSnoc(v, [] + [RangeEvent(i, "")], RangeEvent("", f));
    assert multiset([RangeEvent("", f)] + [RangeEvent(i, "")]) == multiset(OneInterval(i, f));
  }

  /** With one introduced bound in an unsorted list the code may accept more: 3, where 2 fixed what 1 introduced. */
  lemma {:induction false} UnsortedDiffers()
    returns (v: string, events: seq<RangeEvent>, sorted: seq<RangeEvent>)
    ensures |events| == 2 && events[0].fixed != "" && events[1].introduced != ""
    ensures IsSorting(events, sorted) && Accepts(v, events) && !OsvVulnerable(v, sorted)
  {
    v := ['3'];
    events, sorted := [RangeEvent("", ['2'])] + [RangeEvent(['1'], "")], OneInterval(['1'], ['2']);
    OneDigit('3', '1');
    OneDigit('3', '2');
    OneDigit('2', '1');
    FixedFirst(v, ['1'], ['2']);
  }

  lemma OneDigit(a: char, b: char)
    requires '0' <= a <= '9' && '0' <= b <= '9'
    ensures AtOrAbove([a], [b]) <==> a >= b
  {
    DigitVersion(a);
    DigitVersion(b);
    OneSegment([a], [b]);
  }

  // ---------------------------------------------------------------- the ranges of an advisory

  datatype AffectedPackage = AffectedPackage(ecosystem: string, name: string, ranges: seq<seq<RangeEvent>>)

  /** The entry is about the dependency: strings.EqualFold on ecosystems, strings.ToLower on names. */
  predicate IsFor(equalFold: (string, string) -> bool, lower: string -> string, eco: string, name: string,
                  entry: AffectedPackage)
  {
    equalFold(entry.ecosystem, eco) && lower(entry.name) == lower(name)
  }

  ghost predicate AnyAccepts(v: string, ranges: seq<seq<RangeEvent>>) {
    exists k :: 0 <= k < |ranges| && Accepts(v, ranges[k])
  }

  lemma AnyAcceptsSnoc(v: string, ranges: seq<seq<RangeEvent>>, i: nat)
    requires i < |ranges|
    ensures AnyAccepts(v, ranges[..i + 1]) <==> AnyAccepts(v, ranges[..i]) || Accepts(v, ranges[i])
  {
    assert ranges[..i + 1] == ranges[..i] + [ranges[i]];
    if AnyAccepts(v, ranges[..i]) {
      var k :| 0 <= k < i && Accepts(v, ranges[..i][k]);
      assert ranges[..i + 1][k] == ranges[..i][k];
    }
    if Accepts(v, ranges[i]) {
      assert ranges[..i + 1][i] == ranges[i];
    }
  }

  lemma AnyAcceptsEarly(v: string, ranges: seq<seq<RangeEvent>>, i: nat)
    requires i <= |ranges| && (i == |ranges| || AnyAccepts(v, ranges[..i]))
    ensures AnyAccepts(v, ranges) <==> AnyAccepts(v, ranges[..i])
  {
    if i == |ranges| {
      assert ranges[..i] == ranges;
    } else {
      var k :| 0 <= k < i && Accepts(v, ranges[..i][k]);
      assert ranges[..i][k] == ranges[k];
    }
  }

  method AnyRangeAccepts(version: string, ranges: seq<seq<RangeEvent>>) returns (found: bool)
    ensures found <==> AnyAccepts(version, ranges)
  {
    found := false;
    var i := 0;
    while i < |ranges| && !found
      invariant i <= |ranges|
      invariant found <==> AnyAccepts(version, ranges[..i])
    {
      AnyAcceptsSnoc(version, ranges, i);
      found := VersionInEvents(version, ranges[i]);
      i := i + 1;
    }
    AnyAcceptsEarly(version, ranges, i);
  }

  /**
   The dependency is affected exactly when it has an entry, of its ecosystem and name, and either a range of one of
   its entries accepts the version or its entries have no range at all.
   */
  method DepInAffectedRanges(
    equalFold: (string, string) -> bool, lower: string -> string, eco: string, name: string, version: string,
    affected: seq<AffectedPackage>) returns (r: bool)
    ensures var own := set e | e in affected && equalFold(e.ecosystem, eco) && lower(e.name) == lower(name);
            r <==> && own != {}
                   && (|| (exists e :: e in own && AnyAccepts(version, e.ranges))
                       || (forall e :: e in own ==> e.ranges == []))
  {
    ghost var own := set e | e in affected && equalFold(e.ecosystem, eco) && lower(e.name) == lower(name);
    var matched := false;
    for i := 0 to |affected|
      invariant forall k :: 0 <= k < i && affected[k] in own ==> !AnyAccepts(version, affected[k].ranges)
      invariant matched <==> exists k :: 0 <= k < i && affected[k] in own
    {
      if !IsFor(equalFold, lower, eco, name, affected[i]) {
        continue;
      }
      assert affected[i] in own;
      matched := true;
      var found := AnyRangeAccepts(version, affected[i].ranges);
      if found {
        return true;
      }
    }
    if !matched {
      assert own == {};
      return false;
    }
    for i := 0 to |affected|
      invariant forall k :: 0 <= k < i && affected[k] in own ==> affected[k].ranges == []
    {
      if !IsFor(equalFold, lower, eco, name, affected[i]) {
        continue;
      }
      assert affected[i] in own;
      for j := 0 to |affected[i].ranges|
        invariant j == 0
      {
        var events := affected[i].ranges[j];
        if |events| > 0 {
          return false;
        }
        EmptyAccepts(version);
        assert false;
      }
    }
    return true;
  }

  /** A range without events accepts every version. */
  lemma EmptyAccepts(v: string)
    ensures Accepts(v, [])
  {
  }

  /** An entry's range without bounds accepts every version, so the server's match is trusted there too. */
  lemma UnboundedAccepts(v: string, events: seq<RangeEvent>)
    requires Unbounded(events)
    ensures Accepts(v, events)
  {
    AcceptsOneInterval(v, events);
  }
}
