/**
 Translating globs to LIKE patterns (internal/repository/projects.go:96-168). LIKE is that of section
 9.7.1 of the PostgreSQL documentation with the escape character "\"; `fold` is the case folding of ILIKE.
 */
module GlobLike {

  type Fold = char -> char

  const ESCAPE: char := '\\'

  // ---------------------------------------------------------------- the two languages

  predicate Like(fold: Fold, p: string, t: string)
    decreases |p| + |t|
  {
    if p == [] then t == []
    else if p[0] == '%' then Like(fold, p[1..], t) || (t != [] && Like(fold, p, t[1..]))
    else if p[0] == '_' then t != [] && Like(fold, p[1..], t[1..])
    else if p[0] == ESCAPE then
      |p| >= 2 && t != [] && fold(p[1]) == fold(t[0]) && Like(fold, p[2..], t[1..])
    else t != [] && fold(p[0]) == fold(t[0]) && Like(fold, p[1..], t[1..])
  }

  /** PostgreSQL refuses a pattern that ends with the escape character. */
  predicate WellFormed(p: string) {
    if p == [] then true
    else if p[0] == ESCAPE then |p| >= 2 && WellFormed(p[2..])
    else WellFormed(p[1..])
  }

  /** "*" is any text, "?" any character, everything else itself. */
  predicate Glob(fold: Fold, p: string, t: string)
    decreases |p| + |t|
  {
    if p == [] then t == []
    else if p[0] == '*' then Glob(fold, p[1..], t) || (t != [] && Glob(fold, p, t[1..]))
    else t != [] && (p[0] == '?' || fold(p[0]) == fold(t[0])) && Glob(fold, p[1..], t[1..])
  }

  // ---------------------------------------------------------------- the translation

  function Piece(c: char): string {
    if c == '*' then "%"
    else if c == '?' then "_"
    else if c == '%' || c == '_' then [ESCAPE, c]
    else [c]
  }

  function Translate(p: string): string {
    if p == [] then [] else Piece(p[0]) + Translate(p[1..])
  }

  lemma TranslateStep(p: string, i: nat, b: string)
    requires i < |p|
    ensures b + Piece(p[i]) + Translate(p[i + 1..]) == b + Translate(p[i..])
  {
    assert p[i..][1..] == p[i + 1..];
  }

  /** The switch over one character. */
  method WritePiece(b: string, ch: char) returns (r: string)
    ensures r == b + Piece(ch)
  {
    if ch == '*' {
      return b + "%";
    } else if ch == '?' {
      return b + "_";
    } else if ch == '%' || ch == '_' {
      return b + [ESCAPE, ch];
    }
    return b + [ch];
  }

  method GlobToLike(pattern: string) returns (b: string)
    ensures b == Translate(pattern)
  {
    b := "";
    for i := 0 to |pattern|
      invariant b + Translate(pattern[i..]) == Translate(pattern)
    {
      TranslateStep(pattern, i, b);
      b := WritePiece(b, pattern[i]);
    }
    assert pattern[|pattern|..] == [];
  }

  /** The translated pattern selects exactly the texts the glob matches. */
  ghost predicate KeepsMeaning(fold: Fold, p: string) {
    WellFormed(Translate(p)) && forall t :: Like(fold, Translate(p), t) <==> Glob(fold, p, t)
  }

  lemma {:induction false} TranslationWellFormed(p: string)
    requires ESCAPE !in p
    ensures WellFormed(Translate(p))
  {
    if p != [] {
      TranslationWellFormed(p[1..]);
      var piece, rest := Piece(p[0]), Translate(p[1..]);
      assert p[0] in p;
      assert (piece + rest)[|piece|..] == rest;
    }
  }

  lemma LikePiece(fold: Fold, c: char, rest: string, t: string)
    requires c != ESCAPE
    ensures Like(fold, Piece(c) + rest, t)
       <==> if c == '*' then Like(fold, rest, t) || (t != [] && Like(fold, "%" + rest, t[1..]))
            else t != [] && (c == '?' || fold(c) == fold(t[0])) && Like(fold, rest, t[1..])
  {
    var p := Piece(c) + rest;
    assert p[|Piece(c)|..] == rest;
  }

  lemma {:induction false} LikeIsGlob(fold: Fold, p: string, t: string)
    requires ESCAPE !in p
    ensures Like(fold, Translate(p), t) <==> Glob(fold, p, t)
    decreases |p| + |t|
  {
    if p != [] {
      assert p[0] in p;
      var rest := p[1..];
      LikePiece(fold, p[0], Translate(rest), t);
      if p[0] == '*' {
        LikeIsGlob(fold, rest, t);
        if t != [] {
          LikeIsGlob(fold, p, t[1..]);
        }
      } else if t != [] {
        LikeIsGlob(fold, rest, t[1..]);
      }
    }
  }

  // ---------------------------------------------------------------- backslashes

  /** The length of the shortest texts a glob matches. */
  function Shortest(p: string): nat {
    if p == [] then 0 else (if p[0] == '*' then 0 else 1) + Shortest(p[1..])
  }

  lemma {:induction false} GlobTextsAreLong(fold: Fold, p: string, t: string)
    requires Glob(fold, p, t)
    ensures |t| >= Shortest(p)
    decreases |p| + |t|
  {
    if p != [] {
      if p[0] != '*' {
        GlobTextsAreLong(fold, p[1..], t[1..]);
      } else if Glob(fold, p[1..], t) {
        GlobTextsAreLong(fold, p[1..], t);
      } else {
        GlobTextsAreLong(fold, p, t[1..]);
      }
    }
  }

  /** A shortest text leaves nothing to the stars. */
  lemma ShortestLeavesStarsEmpty(fold: Fold, p: string, t: string)
    requires p != [] && p[0] == '*' && Glob(fold, p, t) && |t| <= Shortest(p)
    ensures Glob(fold, p[1..], t)
  {
    if !Glob(fold, p[1..], t) {
      GlobTextsAreLong(fold, p, t[1..]);
    }
  }

  function SampleOf(c: char): string {
    if c == '*' then [] else if c == '?' then "x" else [c]
  }

  /** A text the translation of `p` matches, with wildcards as short as they can be. */
  function Sample(p: string): string
    requires WellFormed(Translate(p))
    decreases |p|
  {
    if p == [] then []
    else if p[0] == ESCAPE then
      SampleRest(p);
      if p[1] == '*' then "%" + Sample(p[2..])
      else if p[1] == '?' then "_" + Sample(p[2..])
      else if p[1] == '%' then [ESCAPE] + Sample(p[2..])
      else if p[1] == '_' then [ESCAPE, 'x'] + Sample(p[2..])
      else [p[1]] + Sample(p[2..])
    else
      SampleRest(p);
      SampleOf(p[0]) + Sample(p[1..])
  }

  /** What follows a piece, or a backslash and the piece after it, is well-formed too. */
  lemma {:induction false} SampleRest(p: string)
    requires p != [] && WellFormed(Translate(p))
    ensures p[0] != ESCAPE ==> WellFormed(Translate(p[1..]))
    ensures p[0] == ESCAPE ==> |p| >= 2 && WellFormed(Translate(p[2..]))
  {
    if p[0] != ESCAPE {
      assert (Piece(p[0]) + Translate(p[1..]))[|Piece(p[0])|..] == Translate(p[1..]);
    } else if |p| > 1 {
      EscapedTranslation(p);
      AfterEscape(Escaped(p[1]), p[1], Translate(p[2..]));
    }
  }

  lemma AfterEscape(e: char, c: char, s: string)
    ensures WellFormed([ESCAPE, e] + s) <==> WellFormed(s)
    ensures c != ESCAPE ==> (WellFormed([ESCAPE, e] + ([c] + s)) <==> WellFormed(s))
  {
    assert ([ESCAPE, e] + s)[2..] == s && ([ESCAPE, e] + ([c] + s))[2..] == [c] + s && ([c] + s)[1..] == s;
  }

  lemma LikeLiteral(fold: Fold, c: char, rest: string, t: string)
    requires t != []
    ensures Like(fold, [ESCAPE, c] + rest, t) <==> fold(c) == fold(t[0]) && Like(fold, rest, t[1..])
  {
    assert ([ESCAPE, c] + rest)[2..] == rest;
  }

  lemma {:induction false} EscapedPiece(p: string)
    requires |p| >= 2 && p[0] == ESCAPE
    ensures Translate(p) == [ESCAPE] + (Piece(p[1]) + Translate(p[2..]))
  {
    assert p[1..][1..] == p[2..];
    assert Translate(p[1..]) == Piece(p[1]) + Translate(p[2..]);
  }

  /** What LIKE reads after a backslash when the glob has `c` there. */
  function Escaped(c: char): char {
    if c == '*' then '%' else if c == '?' then '_' else if c == '%' || c == '_' then ESCAPE else c
  }

  lemma PieceAfterEscape(c: char, s: string)
    ensures [ESCAPE] + (Piece(c) + s) == [ESCAPE, Escaped(c)] + if c == '%' || c == '_' then [c] + s else s
  {
  }

  /** A backslash and the piece after it. */
  lemma EscapedTranslation(p: string)
    requires |p| >= 2 && p[0] == ESCAPE
    ensures var s := Translate(p[2..]);
            Translate(p) == [ESCAPE, Escaped(p[1])] + if p[1] == '%' || p[1] == '_' then [p[1]] + s else s
  {
    EscapedPiece(p);
    PieceAfterEscape(p[1], Translate(p[2..]));
  }

  lemma LikeWildcard(fold: Fold, rest: string, t: string)
    ensures Like(fold, "%" + rest, t) <== Like(fold, rest, t)
    ensures t != [] ==> (Like(fold, "_" + rest, t) <==> Like(fold, rest, t[1..]))
  {
    assert ("%" + rest)[1..] == rest && ("_" + rest)[1..] == rest;
  }

  lemma EscapedPercent(fold: Fold, s: string, sample: string)
    requires Like(fold, s, sample)
    ensures Like(fold, [ESCAPE, ESCAPE] + ("%" + s), [ESCAPE] + sample)
  {
    assert ([ESCAPE] + sample)[1..] == sample;
    LikeLiteral(fold, ESCAPE, "%" + s, [ESCAPE] + sample);
    LikeWildcard(fold, s, sample);
  }

  lemma EscapedUnderscore(fold: Fold, s: string, sample: string)
    requires Like(fold, s, sample)
    ensures Like(fold, [ESCAPE, ESCAPE] + ("_" + s), [ESCAPE, 'x'] + sample)
  {
    var t := [ESCAPE, 'x'] + sample;
    assert t[1..] == "x" + sample && ("x" + sample)[1..] == sample;
    LikeLiteral(fold, ESCAPE, "_" + s, t);
    LikeWildcard(fold, s, "x" + sample);
  }

  lemma EscapedOther(fold: Fold, c: char, s: string, sample: string)
    requires Like(fold, s, sample)
    ensures Like(fold, [ESCAPE, c] + s, [c] + sample)
  {
    assert ([c] + sample)[1..] == sample;
    LikeLiteral(fold, c, s, [c] + sample);
  }

  lemma UnescapedPiece(fold: Fold, c: char, s: string, sample: string)
    requires c != ESCAPE && Like(fold, s, sample)
    ensures Like(fold, Piece(c) + s, SampleOf(c) + sample)
  {
    LikePiece(fold, c, s, SampleOf(c) + sample);
    assert (SampleOf(c) + sample)[|SampleOf(c)|..] == sample;
  }

  lemma {:induction false} SampleIsLiked(fold: Fold, p: string)
    requires WellFormed(Translate(p))
    ensures Like(fold, Translate(p), Sample(p))
    decreases |p|
  {
    if p != [] && p[0] == ESCAPE {
      SampleRest(p);
      SampleIsLiked(fold, p[2..]);
      EscapedTranslation(p);
      var s, sample := Translate(p[2..]), Sample(p[2..]);
      if p[1] == '%' {
        EscapedPercent(fold, s, sample);
      } else if p[1] == '_' {
        EscapedUnderscore(fold, s, sample);
      } else {
        EscapedOther(fold, Escaped(p[1]), s, sample);
      }
    } else if p != [] {
      SampleRest(p);
      SampleIsLiked(fold, p[1..]);
      UnescapedPiece(fold, p[0], Translate(p[1..]), Sample(p[1..]));
    }
  }

  lemma {:induction false} SampleIsShort(p: string)
    requires WellFormed(Translate(p))
    ensures |Sample(p)| <= Shortest(p)
    ensures p != [] && p[0] == ESCAPE ==> |p| >= 2 && (p[1] !in {'*', '_'} ==> |Sample(p)| < Shortest(p))
    decreases |p|
  {
    if p != [] {
      SampleRest(p);
      if p[0] == ESCAPE {
        SampleIsShort(p[2..]);
        assert p[1..][1..] == p[2..];
        assert Shortest(p) == 1 + Shortest(p[1..]);
      } else {
        SampleIsShort(p[1..]);
      }
    }
  }

  /** ILIKE tells apart the characters that the counterexamples differ in. */
  ghost predicate Distinguishes(fold: Fold) {
    fold('%') != fold(ESCAPE) && fold('x') != fold('_')
  }

  /** LIKE reads a backslash as an escape where the glob reads it as itself. */
  lemma {:induction false} SampleIsNoMatch(fold: Fold, p: string)
    requires Distinguishes(fold) && WellFormed(Translate(p)) && ESCAPE in p
    ensures !Glob(fold, p, Sample(p))
    decreases |p|
  {
    SampleRest(p);
    SampleIsShort(p);
    var t := Sample(p);
    if Glob(fold, p, t) {
      GlobTextsAreLong(fold, p, t);
      if p[0] == ESCAPE {
        EscapeDiffers(fold, p);
      } else {
        if p[0] == '*' {
          ShortestLeavesStarsEmpty(fold, p, t);
          assert t == Sample(p[1..]);
        } else {
          assert t[1..] == Sample(p[1..]);
        }
        SampleIsNoMatch(fold, p[1..]);
      }
    }
  }

  lemma EscapeDiffers(fold: Fold, p: string)
    requires Distinguishes(fold) && WellFormed(Translate(p)) && |p| >= 2 && p[0] == ESCAPE && p[1] in {'*', '_'}
    ensures !Glob(fold, p, Sample(p))
  {
    var t := Sample(p);
    if p[1] == '*' {
      assert t[0] == '%';
    } else {
      assert t[0] == ESCAPE && t[1] == 'x' && t[1..][0] == 'x' && p[1..][0] == '_';
    }
  }

  /**
   The translation keeps the meaning of exactly the patterns without a backslash: not everything else is
   escaped, as the function's comment says.
   */
  lemma {:induction false} MeaningKeptUnlessBackslash(fold: Fold, p: string)
    requires Distinguishes(fold)
    ensures KeepsMeaning(fold, p) <==> ESCAPE !in p
  {
    if ESCAPE !in p {
      TranslationWellFormed(p);
      forall t ensures Like(fold, Translate(p), t) <==> Glob(fold, p, t) {
        LikeIsGlob(fold, p, t);
      }
    } else if WellFormed(Translate(p)) {
      SampleIsLiked(fold, p);
      SampleIsNoMatch(fold, p);
    }
  }

  // ---------------------------------------------------------------- the query

  const GITHUB := "https://github.com/"

  predicate HasPrefix(s: string, prefix: string) {
    prefix <= s
  }

  function StripAt(pattern: string): string {
    if HasPrefix(pattern, "@") then pattern[1..] else pattern
  }

  /** The glob a user's pattern stands for. */
  function Expanded(pattern: string): string {
    var p := StripAt(pattern);
    if HasPrefix(p, "https://") then p
    else if '/' in p then GITHUB + p
    else "*" + p
  }

  /** The LIKE pattern of `ListStandaloneByPattern`, for a pattern that is not empty. */
  method LikePatternFor(pattern: string) returns (likePattern: string)
    ensures likePattern == Translate(Expanded(pattern))
  {
    var p := StripAt(pattern);
    var like := GlobToLike(p);
    if HasPrefix(p, "https://") {
      return like;
    } else if '/' in p {
      GithubPrefix(GITHUB, p);
      return GITHUB + like;
    }
    assert ("*" + p)[1..] == p;
    return "%" + like;
  }

  lemma Prefixed(prefix: string, s: string)
    requires prefix != []
    ensures [prefix[0]] + (prefix[1..] + s) == prefix + s
  {
  }

  lemma {:induction false} PlainPrefix(prefix: string, p: string)
    requires forall k :: 0 <= k < |prefix| ==> prefix[k] !in {'*', '?', '%', '_'}
    ensures Translate(prefix + p) == prefix + Translate(p)
  {
    if prefix == [] {
      assert prefix + p == p;
    } else {
      assert (prefix + p)[1..] == prefix[1..] + p;
      PlainPrefix(prefix[1..], p);
      Prefixed(prefix, Translate(p));
    }
  }

  lemma GithubPrefix(prefix: string, p: string)
    requires prefix == GITHUB
    ensures Translate(prefix + p) == prefix + Translate(p)
  {
    PlainPrefix(prefix, p);
  }

  lemma {:induction false} StarMatchesSuffix(fold: Fold, p: string, t: string)
    ensures Glob(fold, "*" + p, t) <==> exists k :: 0 <= k <= |t| && Glob(fold, p, t[k..])
  {
    assert ("*" + p)[1..] == p;
    if t == [] {
      assert t[0..] == t;
    } else {
      StarMatchesSuffix(fold, p, t[1..]);
      assert t[0..] == t;
      forall k | 0 <= k <= |t| - 1 ensures t[1..][k..] == t[k + 1..] {
      }
      if k :| 0 <= k <= |t| && Glob(fold, p, t[k..]) {
        if k > 0 {
          assert t[1..][k - 1..] == t[k..];
        }
      }
    }
  }

  /** Without a backslash a project is selected exactly when the pattern, as the user means it, matches. */
  lemma {:induction false} SelectsWhatIsMeant(fold: Fold, pattern: string, text: string)
    requires ESCAPE !in pattern
    ensures var p := if pattern != [] && pattern[0] == '@' then pattern[1..] else pattern;
            Like(fold, Translate(Expanded(pattern)), text)
            <==> if "https://" <= p then Glob(fold, p, text)
                 else if '/' in p then Glob(fold, "https://github.com/" + p, text)
                 else exists k :: 0 <= k <= |text| && Glob(fold, p, text[k..])
  {
    var p := StripAt(pattern);
    assert ESCAPE !in Expanded(pattern);
    LikeIsGlob(fold, Expanded(pattern), text);
    StarMatchesSuffix(fold, p, text);
  }
}
