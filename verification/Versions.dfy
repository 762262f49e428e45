/** The order on version strings used by range checks (internal/threats/matcher.go:167-221). */
module Versions {
  import opened Wrappers
  import opened Text
  import opened Numbers

  // ---------------------------------------------------------------- segments

  predicate IsSeparator(c: char) {
    c == '.' || c == '-' || c == '_'
  }

  function TrimPrefix(s: string, c: char): string {
    if s != [] && s[0] == c then s[1..] else s
  }

  /** The part before the first '+'. */
  function BeforePlus(s: string): string {
    if s == [] || s[0] == '+' then [] else [s[0]] + BeforePlus(s[1..])
  }

  /** The length of the field `s` starts with. */
  function FieldEnd(s: string): (n: nat)
    ensures n <= |s|
    ensures s != [] && !IsSeparator(s[0]) ==> n > 0
  {
    if s == [] || IsSeparator(s[0]) then 0 else 1 + FieldEnd(s[1..])
  }

  /** strings.FieldsFunc: empty fields are dropped. */
  function Fields(s: string): seq<string> {
    if s == [] then []
    else if IsSeparator(s[0]) then Fields(s[1..])
    else [s[..FieldEnd(s)]] + Fields(s[FieldEnd(s)..])
  }

  function SplitVersion(v: string): seq<string> {
    Fields(BeforePlus(TrimPrefix(TrimPrefix(Trim(v), 'v'), 'V')))
  }

  // ---------------------------------------------------------------- comparing segments

  function CompareSegments(x: string, y: string): int {
    var xi, yi := Atoi(x), Atoi(y);
    if xi.Some? && yi.Some? then
      if xi.value < yi.value then -1 else if xi.value > yi.value then 1 else 0
    else if x == y then 0
    else if LexLess(x, y) then -1
    else 1
  }

  /** A missing segment counts as zero. */
  function Segment(s: seq<string>, i: nat): string {
    if i < |s| then s[i] else "0"
  }

  /** The first difference among the segments from `i` up to `n` decides. */
  function Order(a: seq<string>, b: seq<string>, i: nat, n: nat): int
    decreases n - i
  {
    if i >= n then 0
    else
      var c := CompareSegments(Segment(a, i), Segment(b, i));
      if c != 0 then c else Order(a, b, i + 1, n)
  }

  function Max(a: nat, b: nat): nat {
    if a < b then b else a
  }

  function Compare(a: seq<string>, b: seq<string>): int {
    Order(a, b, 0, Max(|a|, |b|))
  }

  function CompareVersions(a: string, b: string): int {
    Compare(SplitVersion(a), SplitVersion(b))
  }

  /** One turn of the loop. */
  method Difference(sa: seq<string>, sb: seq<string>, i: nat, ghost n: nat) returns (d: int)
    requires i < n
    ensures d == CompareSegments(Segment(sa, i), Segment(sb, i))
    ensures Order(sa, sb, i, n) == if d != 0 then d else Order(sa, sb, i + 1, n)
  {
    var x, y := "0", "0";
    if i < |sa| {
      x := sa[i];
    }
    if i < |sb| {
      y := sb[i];
    }
    var xi, yi := Atoi(x), Atoi(y);
    if xi.Some? && yi.Some? {
      if xi.value != yi.value {
        return if xi.value < yi.value then -1 else 1;
      }
    } else if x != y {
      return if LexLess(x, y) then -1 else 1;
    }
    return 0;
  }

  method FirstDifference(sa: seq<string>, sb: seq<string>) returns (c: int)
    ensures c == Compare(sa, sb)
  {
    var n := if |sa| > |sb| then |sa| else |sb|;
    for i := 0 to n
      invariant Compare(sa, sb) == Order(sa, sb, i, n)
    {
      c := Difference(sa, sb, i, n);
      if c != 0 {
        return c;
      }
    }
    return 0;
  }

  method CompareVersionStrings(a: string, b: string) returns (c: int)
    ensures c == CompareVersions(a, b)
  {
    c := FirstDifference(SplitVersion(a), SplitVersion(b));
  }

  // ---------------------------------------------------------------- on all strings

  lemma {:induction false} SegmentsAntisymmetric(x: string, y: string)
    ensures CompareSegments(x, y) == -CompareSegments(y, x)
  {
    LexTotal(x, y);
  }

  lemma {:induction false} OrderAntisymmetric(a: seq<string>, b: seq<string>, i: nat, n: nat)
    ensures Order(a, b, i, n) == -Order(b, a, i, n)
    decreases n - i
  {
    if i < n {
      SegmentsAntisymmetric(Segment(a, i), Segment(b, i));
      OrderAntisymmetric(a, b, i + 1, n);
    }
  }

  /** On every pair of strings: exchanging the two sides changes the sign, so a version equals itself. */
  lemma {:induction false} CompareAntisymmetric(a: string, b: string)
    ensures CompareVersions(a, b) == -CompareVersions(b, a)
    ensures CompareVersions(a, a) == 0
  {
    OrderAntisymmetric(SplitVersion(a), SplitVersion(b), 0, Max(|SplitVersion(a)|, |SplitVersion(b)|));
    OrderAntisymmetric(SplitVersion(a), SplitVersion(a), 0, |SplitVersion(a)|);
  }

  // ---------------------------------------------------------------- transitivity

  /** At every position the three versions have a number, or none of them has. */
  ghost predicate Uniform(a: seq<string>, b: seq<string>, c: seq<string>) {
    forall i: nat :: UniformAt(a, b, c, i)
  }

  ghost predicate UniformAt(a: seq<string>, b: seq<string>, c: seq<string>, i: nat) {
    Atoi(Segment(a, i)).Some? == Atoi(Segment(b, i)).Some? == Atoi(Segment(c, i)).Some?
  }

  lemma {:induction false} SegmentsTransitive(x: string, y: string, z: string)
    requires Atoi(x).Some? == Atoi(y).Some? == Atoi(z).Some?
    requires CompareSegments(x, y) <= 0 && CompareSegments(y, z) <= 0
    ensures CompareSegments(x, z) <= 0
    ensures CompareSegments(x, z) == 0 ==> CompareSegments(x, y) == 0 && CompareSegments(y, z) == 0
  {
    if Atoi(x).None? {
      LexTotal(x, y);
      LexTotal(y, z);
      LexTotal(x, z);
      if LexLess(x, y) && LexLess(y, z) {
        LexTransitive(x, y, z);
      }
    }
  }

  /** A text that lies, as text, between two numbers that are not in that order as numbers. */
  ghost predicate Misplaced(p: string, t: string, q: string) {
    && Atoi(t).None? && Atoi(p).Some? && Atoi(q).Some?
    && LexLess(p, t) && LexLess(t, q) && Atoi(q).value <= Atoi(p).value
  }

  /** The order chains on three segments. */
  ghost predicate Chains(x: string, y: string, z: string) {
    && CompareSegments(x, z) <= 0
    && (CompareSegments(x, z) == 0 ==> CompareSegments(x, y) == 0 && CompareSegments(y, z) == 0)
  }

  /** For one segment transitivity fails exactly where one of the three is such a text between the other two. */
  lemma {:induction false} ChainsUnlessMisplaced(x: string, y: string, z: string)
    requires CompareSegments(x, y) <= 0 && CompareSegments(y, z) <= 0
    ensures Chains(x, y, z) <==> !Misplaced(y, z, x) && !Misplaced(x, y, z) && !Misplaced(z, x, y)
  {
    LexTotal(x, y);
    LexTotal(y, z);
    LexTotal(x, z);
    if LexLess(x, y) && LexLess(y, z) {
      LexTransitive(x, y, z);
    }
  }

  /** Positions past both ends compare equal. */
  lemma {:induction false} OrderStops(a: seq<string>, b: seq<string>, i: nat, n: nat)
    requires n >= |a| && n >= |b|
    ensures Order(a, b, i, n) == Order(a, b, i, Max(|a|, |b|))
    decreases n - i
  {
    if i < n {
      OrderStops(a, b, i + 1, n);
      if i >= Max(|a|, |b|) {
        assert Segment(a, i) == Segment(b, i) == "0";
      }
    }
  }

  lemma {:induction false} OrderTransitive(a: seq<string>, b: seq<string>, c: seq<string>, i: nat, n: nat)
    requires Uniform(a, b, c) && Order(a, b, i, n) <= 0 && Order(b, c, i, n) <= 0
    ensures Order(a, c, i, n) <= 0
    ensures Order(a, c, i, n) == 0 ==> Order(a, b, i, n) == 0 && Order(b, c, i, n) == 0
    decreases n - i
  {
    if i < n {
      assert UniformAt(a, b, c, i);
      SegmentsTransitive(Segment(a, i), Segment(b, i), Segment(c, i));
      if CompareSegments(Segment(a, i), Segment(c, i)) == 0 {
        OrderTransitive(a, b, c, i + 1, n);
      }
    }
  }

  lemma {:induction false} CompareTransitive(a: seq<string>, b: seq<string>, c: seq<string>)
    requires Uniform(a, b, c) && Compare(a, b) <= 0 && Compare(b, c) <= 0
    ensures Compare(a, c) <= 0
    ensures Compare(a, c) == 0 ==> Compare(a, b) == 0 && Compare(b, c) == 0
  {
    var n := |a| + |b| + |c|;
    OrderStops(a, b, 0, n);
    OrderStops(b, c, 0, n);
    OrderStops(a, c, 0, n);
    OrderTransitive(a, b, c, 0, n);
  }

  /** The order is transitive, and strictly so, unless some position mixes numbers with other text. */
  lemma {:induction false} TransitiveUnlessMixed(a: string, b: string, c: string)
    requires Uniform(SplitVersion(a), SplitVersion(b), SplitVersion(c))
    requires CompareVersions(a, b) <= 0 && CompareVersions(b, c) <= 0
    ensures CompareVersions(a, c) <= 0
    ensures CompareVersions(a, c) == 0 ==> CompareVersions(a, b) == 0 && CompareVersions(b, c) == 0
  {
    CompareTransitive(SplitVersion(a), SplitVersion(b), SplitVersion(c));
  }

  /** The first position at which one of the two comparisons is decided. */
  function Deciding(a: seq<string>, b: seq<string>, c: seq<string>, i: nat, n: nat): (k: nat)
    requires i <= n
    ensures i <= k <= n
    decreases n - i
  {
    if i == n || CompareSegments(Segment(a, i), Segment(b, i)) != 0
       || CompareSegments(Segment(b, i), Segment(c, i)) != 0
    then i
    else Deciding(a, b, c, i + 1, n)
  }

  /** One of the three segments at `k` is a text out of place between the other two. */
  ghost predicate MisplacedAt(a: seq<string>, b: seq<string>, c: seq<string>, k: nat) {
    var x, y, z := Segment(a, k), Segment(b, k), Segment(c, k);
    Misplaced(y, z, x) || Misplaced(x, y, z) || Misplaced(z, x, y)
  }

  /** From position `i` on the order chains. */
  ghost predicate OrderChains(a: seq<string>, b: seq<string>, c: seq<string>, i: nat, n: nat) {
    && Order(a, c, i, n) <= 0
    && (Order(a, c, i, n) == 0 ==> Order(a, b, i, n) == 0 && Order(b, c, i, n) == 0)
  }

  /** At the deciding position nothing is out of place, or a later position makes up for it. */
  ghost predicate WellPlaced(a: seq<string>, b: seq<string>, c: seq<string>, k: nat, n: nat) {
    || k >= n
    || !MisplacedAt(a, b, c, k)
    || (CompareSegments(Segment(a, k), Segment(c, k)) == 0 && Order(a, c, k + 1, n) < 0)
  }

  lemma {:induction false} SameChains(x: string, y: string, z: string)
    requires CompareSegments(x, y) == 0 && CompareSegments(y, z) == 0
    ensures CompareSegments(x, z) == 0
  {
    LexTotal(x, y);
    LexTotal(y, z);
  }

  lemma OrderStep(a: seq<string>, b: seq<string>, i: nat, n: nat)
    requires i < n
    ensures var d := CompareSegments(Segment(a, i), Segment(b, i));
            Order(a, b, i, n) == if d != 0 then d else Order(a, b, i + 1, n)
  {
  }

  /** The position decides: whether the order chains depends on it, and on what follows if it is a draw. */
  lemma {:induction false} DecidedHere(a: seq<string>, b: seq<string>, c: seq<string>, i: nat, n: nat)
    requires i < n && Order(a, b, i, n) <= 0 && Order(b, c, i, n) <= 0 && Deciding(a, b, c, i, n) == i
    ensures OrderChains(a, b, c, i, n) <==> WellPlaced(a, b, c, i, n)
  {
    OrderStep(a, b, i, n);
    OrderStep(b, c, i, n);
    OrderStep(a, c, i, n);
    ChainsUnlessMisplaced(Segment(a, i), Segment(b, i), Segment(c, i));
  }

  /** The position draws on both sides: it does not matter. */
  lemma {:induction false} DrawnHere(a: seq<string>, b: seq<string>, c: seq<string>, i: nat, n: nat)
    requires i < n && Deciding(a, b, c, i, n) != i
    ensures Deciding(a, b, c, i, n) == Deciding(a, b, c, i + 1, n)
    ensures Order(a, b, i, n) == Order(a, b, i + 1, n) && Order(b, c, i, n) == Order(b, c, i + 1, n)
    ensures Order(a, c, i, n) == Order(a, c, i + 1, n)
  {
    SameChains(Segment(a, i), Segment(b, i), Segment(c, i));
    OrderStep(a, b, i, n);
    OrderStep(b, c, i, n);
    OrderStep(a, c, i, n);
  }

  lemma {:induction false} ChainsFrom(a: seq<string>, b: seq<string>, c: seq<string>, i: nat, n: nat)
    requires i <= n && Order(a, b, i, n) <= 0 && Order(b, c, i, n) <= 0
    ensures OrderChains(a, b, c, i, n) <==> WellPlaced(a, b, c, Deciding(a, b, c, i, n), n)
    decreases n - i
  {
    if i < n {
      if Deciding(a, b, c, i, n) == i {
        DecidedHere(a, b, c, i, n);
      } else {
        DrawnHere(a, b, c, i, n);
        ChainsFrom(a, b, c, i + 1, n);
      }
    }
  }

  /** Of two comparisons the third follows, strictly if one of them is strict. */
  ghost predicate CompareChains(sa: seq<string>, sb: seq<string>, sc: seq<string>) {
    Compare(sa, sc) <= 0 && (Compare(sa, sc) == 0 ==> Compare(sa, sb) == 0 && Compare(sb, sc) == 0)
  }

  /** A position past all three ends. */
  function Extent(sa: seq<string>, sb: seq<string>, sc: seq<string>): nat {
    |sa| + |sb| + |sc|
  }

  /** The first position, up to `n`, that decides one of the two comparisons is well placed. */
  ghost predicate DecidedWell(sa: seq<string>, sb: seq<string>, sc: seq<string>, n: nat) {
    WellPlaced(sa, sb, sc, Deciding(sa, sb, sc, 0, n), n)
  }

  lemma {:induction false} AsOrders(sa: seq<string>, sb: seq<string>, sc: seq<string>, n: nat)
    requires n == Extent(sa, sb, sc)
    ensures Compare(sa, sb) == Order(sa, sb, 0, n)
    ensures Compare(sb, sc) == Order(sb, sc, 0, n)
    ensures CompareChains(sa, sb, sc) <==> OrderChains(sa, sb, sc, 0, n)
  {
    OrderStops(sa, sb, 0, n);
    OrderStops(sb, sc, 0, n);
    OrderStops(sa, sc, 0, n);
  }

  lemma {:induction false} ChainsExactly(sa: seq<string>, sb: seq<string>, sc: seq<string>, n: nat)
    requires Compare(sa, sb) <= 0 && Compare(sb, sc) <= 0 && n == Extent(sa, sb, sc)
    ensures CompareChains(sa, sb, sc) <==> DecidedWell(sa, sb, sc, n)
  {
    AsOrders(sa, sb, sc, n);
    ChainsFrom(sa, sb, sc, 0, n);
  }

  /** The same of versions. */
  ghost predicate VersionsChain(a: string, b: string, c: string) {
    && CompareVersions(a, c) <= 0
    && (CompareVersions(a, c) == 0 ==> CompareVersions(a, b) == 0 && CompareVersions(b, c) == 0)
  }

  /**
   For versions the order is transitive exactly where, at the first position that decides one of the two
   comparisons, no text is out of place, or the outer two draw and a later position decides between them.
   */
  lemma {:induction false} TransitiveExactly(a: string, b: string, c: string)
    requires CompareVersions(a, b) <= 0 && CompareVersions(b, c) <= 0
    ensures var sa, sb, sc := SplitVersion(a), SplitVersion(b), SplitVersion(c);
            VersionsChain(a, b, c) <==> DecidedWell(sa, sb, sc, Extent(sa, sb, sc))
  {
    var sa, sb, sc := SplitVersion(a), SplitVersion(b), SplitVersion(c);
    VersionsAsSegments(a, b, c, sa, sb, sc);
    ChainsExactly(sa, sb, sc, Extent(sa, sb, sc));
  }

  lemma {:induction false} VersionsAsSegments(
    a: string, b: string, c: string, sa: seq<string>, sb: seq<string>, sc: seq<string>)
    requires sa == SplitVersion(a) && sb == SplitVersion(b) && sc == SplitVersion(c)
    ensures CompareVersions(a, b) == Compare(sa, sb) && CompareVersions(b, c) == Compare(sb, sc)
    ensures VersionsChain(a, b, c) <==> CompareChains(sa, sb, sc)
  {
  }

  lemma {:induction false} OneField(s: string)
    requires IsField(s)
    ensures Fields(s) == [s]
  {
    FieldEndAll(s);
    assert s[|s|..] == [] && s[..|s|] == s;
    assert Fields(s) == [s] + Fields([]);
  }

  lemma {:induction false} SplitOneField(s: string)
    requires IsField(s) && '+' !in s && Trimmed(s) && s[0] != 'v' && s[0] != 'V'
    ensures SplitVersion(s) == [s]
  {
    TrimTrimmed(s);
    BeforePlusAll(s);
    OneField(s);
  }

  lemma {:induction false} BeforePlusAll(s: string)
    requires '+' !in s
    ensures BeforePlus(s) == s
  {
    if s != [] {
      BeforePlusAll(s[1..]);
    }
  }

  lemma {:induction false} FieldEndAll(s: string)
    requires forall k :: 0 <= k < |s| ==> !IsSeparator(s[k])
    ensures FieldEnd(s) == |s|
  {
    if s != [] {
      FieldEndAll(s[1..]);
    }
  }

  lemma {:induction false} OneSegment(a: string, b: string)
    requires SplitVersion(a) == [a] && SplitVersion(b) == [b]
    ensures CompareVersions(a, b) == CompareSegments(a, b)
  {
    assert Order([a], [b], 1, 1) == 0;
  }

  lemma {:induction false} CycleSegments()
    ensures CompareSegments("10", "1a") == -1 && CompareSegments("1a", "2") == -1
  {
    assert !IsDigit("1a"[1]);
    assert Atoi("1a") == None;
    assert "10"[1..] == "0" && "1a"[1..] == "a";
    assert LexLess("0", "a") && LexLess("10", "1a") && LexLess("1a", "2");
  }

  lemma {:induction false} TwoBeforeTen()
    ensures CompareSegments("2", "10") == -1
  {
    assert "10"[..1] == "1" && "1"[..0] == "" && "2"[..0] == "";
    assert Value("1") == 1 && Value("10") == 10 && Value("2") == 2;
    AtoiUnsigned("10");
    AtoiUnsigned("2");
  }

  /** One segment, which the split leaves as it is. */
  ghost predicate Plain(s: string) {
    IsField(s) && '+' !in s && Trimmed(s) && s[0] != 'v' && s[0] != 'V'
  }

  lemma PlainExamples()
    ensures Plain("10") && Plain("1a") && Plain("2")
  {
  }

  lemma {:induction false} PlainOrder(a: string, b: string)
    requires Plain(a) && Plain(b)
    ensures CompareVersions(a, b) == CompareSegments(a, b)
  {
    SplitOneField(a);
    SplitOneField(b);
    OneSegment(a, b);
  }

  /** The segments form a cycle, and so do the versions. */
  lemma {:induction false} CycleOf(a: string, b: string, c: string)
    requires Plain(a) && Plain(b) && Plain(c)
    requires CompareSegments(a, b) == -1 && CompareSegments(b, c) == -1 && CompareSegments(c, a) == -1
    ensures CompareVersions(a, b) == -1 && CompareVersions(b, c) == -1 && CompareVersions(c, a) == -1
  {
    PlainOrder(a, b);
    PlainOrder(b, c);
    PlainOrder(c, a);
  }

  /** With mixed segments the order has cycles: 10 < 1a < 2 < 10. */
  lemma {:induction false} MixedSegmentsCycle()
    ensures CompareVersions("10", "1a") == -1 && CompareVersions("1a", "2") == -1 && CompareVersions("2", "10") == -1
  {
    PlainExamples();
    CycleSegments();
    TwoBeforeTen();
    CycleOf("10", "1a", "2");
  }

  // ---------------------------------------------------------------- numeric versions

  /** Every segment is a number. */
  ghost predicate Numeric(s: seq<string>) {
    forall i :: 0 <= i < |s| ==> Atoi(s[i]).Some?
  }

  /** The version as an infinite sequence of numbers, zero from some point on. */
  ghost function NumberAt(s: seq<string>, i: nat): int
    requires Numeric(s)
  {
    if i < |s| then Atoi(s[i]).value else 0
  }

  lemma {:induction false} NumericSegment(s: seq<string>, i: nat)
    requires Numeric(s)
    ensures Atoi(Segment(s, i)) == Some(NumberAt(s, i))
  {
    if i >= |s| {
      assert "0"[..0] == "";
      assert Value("0") == 0;
      AtoiUnsigned("0");
    }
  }

  ghost predicate SameUpTo(a: seq<string>, b: seq<string>, k: nat)
    requires Numeric(a) && Numeric(b)
  {
    forall j: nat :: j < k ==> NumberAt(a, j) == NumberAt(b, j)
  }

  /** The lexicographic order on the zero-padded sequences. */
  ghost predicate Below(a: seq<string>, b: seq<string>)
    requires Numeric(a) && Numeric(b)
  {
    exists k: nat :: SameUpTo(a, b, k) && NumberAt(a, k) < NumberAt(b, k)
  }

  ghost predicate Same(a: seq<string>, b: seq<string>)
    requires Numeric(a) && Numeric(b)
  {
    forall j: nat :: NumberAt(a, j) == NumberAt(b, j)
  }

  /** Where the comparison stops. */
  lemma {:induction false} OrderNumeric(a: seq<string>, b: seq<string>, i: nat, n: nat) returns (k: nat)
    requires Numeric(a) && Numeric(b) && i <= n && SameUpTo(a, b, i)
    ensures i <= k <= n && SameUpTo(a, b, k)
    ensures Order(a, b, i, n) == 0 <==> k == n
    ensures Order(a, b, i, n) < 0 <==> k < n && NumberAt(a, k) < NumberAt(b, k)
    ensures Order(a, b, i, n) > 0 <==> k < n && NumberAt(b, k) < NumberAt(a, k)
    decreases n - i
  {
    k := i;
    if i < n {
      NumericSegment(a, i);
      NumericSegment(b, i);
      if NumberAt(a, i) == NumberAt(b, i) {
        k := OrderNumeric(a, b, i + 1, n);
      }
    }
  }

  /** On numeric versions the code's order is the lexicographic order of zero-padded number sequences. */
  lemma {:induction false} NumericOrder(a: string, b: string)
    requires Numeric(SplitVersion(a)) && Numeric(SplitVersion(b))
    ensures var sa, sb := SplitVersion(a), SplitVersion(b);
            && (CompareVersions(a, b) < 0 <==> Below(sa, sb))
            && (CompareVersions(a, b) == 0 <==> Same(sa, sb))
            && (CompareVersions(a, b) > 0 <==> Below(sb, sa))
  {
    var sa, sb := SplitVersion(a), SplitVersion(b);
    var n := Max(|sa|, |sb|);
    var k := OrderNumeric(sa, sb, 0, n);
    BelowExclusive(sa, sb);
    if k < n {
      assert NumberAt(sa, k) != NumberAt(sb, k);
      assert SameUpTo(sb, sa, k);
    } else {
      forall j: nat ensures NumberAt(sa, j) == NumberAt(sb, j) {
      }
    }
  }

  lemma BelowExclusive(a: seq<string>, b: seq<string>)
    requires Numeric(a) && Numeric(b)
    ensures !(Below(a, b) && Below(b, a))
    ensures Same(a, b) ==> !Below(a, b) && !Below(b, a)
  {
  }

  lemma {:induction false} NumericUniform(a: seq<string>, b: seq<string>, c: seq<string>)
    requires Numeric(a) && Numeric(b) && Numeric(c)
    ensures Uniform(a, b, c)
  {
    forall i: nat ensures UniformAt(a, b, c, i) {
      NumericSegment(a, i);
      NumericSegment(b, i);
      NumericSegment(c, i);
    }
  }

  // ---------------------------------------------------------------- what does not matter

  /** A missing segment and a trailing "0" compare alike with everything. */
  lemma {:induction false} TrailingZero(a: seq<string>, b: seq<string>)
    ensures Compare(a + ["0"], b) == Compare(a, b)
  {
    var n := |a| + 1 + |b|;
    forall i: nat ensures Segment(a + ["0"], i) == Segment(a, i) {
    }
    SameSegments(a + ["0"], a, b, 0, n);
    OrderStops(a + ["0"], b, 0, n);
    OrderStops(a, b, 0, n);
  }

  lemma {:induction false} SameSegments(a: seq<string>, c: seq<string>, b: seq<string>, i: nat, n: nat)
    requires forall j: nat :: Segment(a, j) == Segment(c, j)
    ensures Order(a, b, i, n) == Order(c, b, i, n)
    decreases n - i
  {
    if i < n {
      SameSegments(a, c, b, i + 1, n);
    }
  }

  lemma {:induction false} FieldsAppendZero(s: string)
    ensures Fields(s + ".0") == Fields(s) + ["0"]
  {
    var t := s + ".0";
    if s == [] {
      assert t[1..] == "0" && "0"[1..] == [];
      assert FieldEnd("0") == 1 + FieldEnd([]);
      assert "0"[..1] == "0";
    } else if IsSeparator(s[0]) {
      assert t[1..] == s[1..] + ".0";
      FieldsAppendZero(s[1..]);
    } else {
      var n := FieldEnd(s);
      FieldEndAppend(s);
      assert t[..n] == s[..n] && t[n..] == s[n..] + ".0";
      FieldsAppendZero(s[n..]);
      assert [s[..n]] + (Fields(s[n..]) + ["0"]) == [s[..n]] + Fields(s[n..]) + ["0"];
    }
  }

  lemma {:induction false} FieldEndAppend(s: string)
    ensures FieldEnd(s + ".0") == FieldEnd(s)
  {
    if s != [] && !IsSeparator(s[0]) {
      assert (s + ".0")[1..] == s[1..] + ".0";
      FieldEndAppend(s[1..]);
    }
  }

  lemma {:induction false} TrimTrimmed(s: string)
    requires Trimmed(s)
    ensures Trim(s) == s
  {
    if s != [] {
      TrimUnique([], s, []);
      assert [] + s + [] == s;
    }
  }

  lemma TrimPrefixAppend(s: string, rest: string, c: char)
    requires rest == [] || rest[0] != c
    ensures TrimPrefix(s + rest, c) == TrimPrefix(s, c) + rest
  {
  }

  /** Appending ".0" never changes a comparison: "1.3" equals "1.3.0". */
  lemma {:induction false} DotZeroIgnored(v: string, w: string)
    requires Trimmed(v) && '+' !in v
    ensures CompareVersions(v + ".0", w) == CompareVersions(v, w)
  {
    TrimTrimmed(v);
    TrimTrimmed(v + ".0");
    var a := TrimPrefix(v, 'v');
    var c := TrimPrefix(a, 'V');
    TrimPrefixAppend(v, ".0", 'v');
    TrimPrefixAppend(a, ".0", 'V');
    BeforePlusAll(c);
    BeforePlusAll(c + ".0");
    FieldsAppendZero(c);
    TrailingZero(SplitVersion(v), SplitVersion(w));
  }

  /** A leading "v" (or "V") does not matter. */
  lemma {:induction false} LeadingVIgnored(v: string)
    requires Trimmed(v) && (v != [] ==> v[0] != 'v')
    ensures SplitVersion("v" + v) == SplitVersion(v)
    ensures (v != [] ==> v[0] != 'V') ==> SplitVersion("V" + v) == SplitVersion(v)
  {
    TrimTrimmed(v);
    TrimTrimmed("v" + v);
    TrimTrimmed("V" + v);
    assert ("v" + v)[1..] == v && ("V" + v)[1..] == v;
  }

  lemma {:induction false} BeforePlusCut(s: string, build: string)
    ensures BeforePlus(s + "+" + build) == BeforePlus(s)
  {
    var t := s + "+" + build;
    if s != [] && s[0] != '+' {
      assert t[1..] == s[1..] + "+" + build;
      BeforePlusCut(s[1..], build);
    }
  }

  lemma {:induction false} TrimRightKeeps(s: string, build: string) returns (rest: string)
    ensures TrimRight(s + "+" + build) == s + "+" + rest
  {
    var t := s + "+" + build;
    if build != [] && IsSpace(build[|build| - 1]) {
      assert t[..|t| - 1] == s + "+" + build[..|build| - 1];
      rest := TrimRightKeeps(s, build[..|build| - 1]);
    } else {
      assert !IsSpace(t[|t| - 1]);
      rest := build;
    }
  }

  /** Build metadata does not matter. */
  lemma {:induction false} BuildIgnored(v: string, build: string)
    requires Trimmed(v)
    ensures SplitVersion(v + "+" + build) == SplitVersion(v)
  {
    TrimTrimmed(v);
    var t := v + "+" + build;
    assert !IsSpace(t[0]);
    var rest := TrimRightKeeps(v, build);
    var u := v + "+" + rest;
    assert Trim(t) == u;
    var a := TrimPrefix(v, 'v');
    TrimPrefixAppend(v, "+" + rest, 'v');
    TrimPrefixAppend(a, "+" + rest, 'V');
    ConcatAssociative(v, "+", rest);
    ConcatAssociative(TrimPrefix(a, 'V'), "+", rest);
    BeforePlusCut(TrimPrefix(a, 'V'), rest);
  }

  // ---------------------------------------------------------------- splitting

  /** A segment as it can stand in a version. */
  ghost predicate IsField(s: string) {
    s != [] && '.' !in s && '-' !in s && '_' !in s
  }

  lemma {:induction false} FieldsThenDot(field: string, rest: string)
    requires IsField(field)
    ensures Fields(field + "." + rest) == [field] + Fields(rest)
  {
    var t := field + "." + rest;
    FieldEndAt(field, rest);
    var n := |field|;
    assert t[..n] == field && t[n..] == "." + rest && ("." + rest)[1..] == rest;
  }

  lemma {:induction false} FieldEndAt(field: string, rest: string)
    requires forall k :: 0 <= k < |field| ==> !IsSeparator(field[k])
    ensures FieldEnd(field + "." + rest) == |field|
  {
    var t := field + "." + rest;
    if field != [] {
      assert t[1..] == field[1..] + "." + rest;
      FieldEndAt(field[1..], rest);
    }
  }

  /** Splitting undoes joining with dots. */
  lemma {:induction false} FieldsOfJoin(segments: seq<string>)
    requires forall k :: 0 <= k < |segments| ==> IsField(segments[k])
    ensures Fields(Join(segments, ".")) == segments
  {
    if |segments| == 1 {
      var s := segments[0];
      FieldEndAll(s);
      assert s[..|s|] == s && s[|s|..] == [];
    } else if segments != [] {
      FieldsOfJoin(segments[1..]);
      FieldsThenDot(segments[0], Join(segments[1..], "."));
    }
  }

  lemma {:induction false} FieldEndStops(s: string)
    ensures forall k :: 0 <= k < FieldEnd(s) ==> !IsSeparator(s[k])
  {
    if s != [] && !IsSeparator(s[0]) {
      FieldEndStops(s[1..]);
    }
  }

  /** No segment is empty or holds a separator, so rewriting every separator as a dot keeps the segments. */
  lemma {:induction false} SplitNormalForm(s: string)
    ensures forall k :: 0 <= k < |Fields(s)| ==> IsField(Fields(s)[k])
    ensures Fields(Join(Fields(s), ".")) == Fields(s)
  {
    AllFields(s);
    FieldsOfJoin(Fields(s));
  }

  lemma {:induction false} AllFields(s: string)
    ensures forall k :: 0 <= k < |Fields(s)| ==> IsField(Fields(s)[k])
  {
    if s != [] {
      if IsSeparator(s[0]) {
        AllFields(s[1..]);
      } else {
        FieldEndStops(s);
        AllFields(s[FieldEnd(s)..]);
      }
    }
  }
}
