/**
 Splitting is stable: the statements, joined with a semicolon on a line of its own, split into
 exactly the same statements. Every lookahead of the splitter (two characters, or a dollar tag
 searched past the end of the statement) must answer the same in the new surroundings.
 */
module SqlRoundTrip {
  import opened Text
  import opened Wrappers
  import opened SqlSplitter

  const SEPARATOR := "\n;\n"

  ghost predicate Tagged(mode: Mode) {
    mode.Dollar? ==> IsTag(mode.tag)
  }

  /** What may follow a statement: nothing, a semicolon or white space. None of it completes a token. */
  predicate Inert(rest: string) {
    rest == [] || rest[0] == ';' || IsSpace(rest[0])
  }

  lemma {:induction false} TagRestLocal(t: string, rest: string)
    requires Inert(rest)
    ensures TagRest(t + rest) == TagRest(t)
  {
    if t == [] {
      assert t + rest == rest;
    } else {
      TagRestLocal(t[1..], rest);
      assert (t + rest)[1..] == t[1..] + rest;
    }
  }

  /** Even the dollar-tag search, which runs past the statement, is decided by the statement. */
  lemma {:induction false} OpeningLocal(t: string, rest: string)
    requires t != [] && t[0] == '$' && Inert(rest)
    ensures NextToken(Normal, t + rest) == NextToken(Normal, t)
    ensures Tagged(NextToken(Normal, t).next)
  {
    var n := TagRest(t[1..]);
    TagRestLocal(t[1..], rest);
    assert (t + rest)[1..] == t[1..] + rest;
    if n > 0 {
      TagRestIsIndex(t[1..]);
      var j := IndexByte(t[1..], '$');
      var tag := t[..n + 1];
      assert (t + rest)[..n + 1] == tag;
      assert forall k :: 1 <= k < |tag| ==> tag[k] == t[1..][k - 1];
    }
  }

  lemma ClosingLocal(tag: string, t: string, rest: string)
    requires t != [] && IsTag(tag) && Inert(rest)
    ensures tag <= t + rest <==> tag <= t
  {
    assert rest != [] ==> (t + rest)[|t|] == rest[0];
  }

  lemma {:induction false} TokenLocal(mode: Mode, t: string, rest: string)
    requires t != [] && Tagged(mode) && Inert(rest)
    ensures NextToken(mode, t + rest) == NextToken(mode, t)
    ensures Tagged(NextToken(mode, t).next)
  {
    if mode.Dollar? {
      ClosingLocal(mode.tag, t, rest);
    } else if mode.Normal? && t[0] == '$' {
      OpeningLocal(t, rest);
    } else {
      assert (t + rest)[0] == t[0];
      assert |t| > 1 ==> (t + rest)[1] == t[1];
      assert |t| == 1 && rest != [] ==> (t + rest)[1] == rest[0];
    }
  }

  /** The mode after `t`, or None when a cut falls inside it. */
  ghost function Lex(mode: Mode, t: string): Option<Mode>
    requires ValidMode(mode)
    decreases |t|
  {
    if t == [] then Some(mode)
    else
      var k := NextToken(mode, t);
      if k.cut then None else Lex(k.next, t[k.len..])
  }

  lemma {:induction false} LexConcat(mode: Mode, a: string, b: string)
    requires Tagged(mode) && Inert(b) && Lex(mode, a + b).Some?
    ensures Lex(mode, a).Some? && Tagged(Lex(mode, a).value)
    ensures Lex(mode, a + b) == Lex(Lex(mode, a).value, b)
    decreases |a|
  {
    if a == [] {
      assert a + b == b;
    } else {
      TokenLocal(mode, a, b);
      var k := NextToken(mode, a);
      assert (a + b)[k.len..] == a[k.len..] + b;
      LexConcat(k.next, a[k.len..], b);
    }
  }

  lemma {:induction false} PiecesAfter(mode: Mode, t: string, rest: string, current: string)
    requires Tagged(mode) && Inert(rest) && Lex(mode, t).Some?
    ensures Tagged(Lex(mode, t).value)
    ensures Pieces(mode, t + rest, current) == Pieces(Lex(mode, t).value, rest, current + t)
    decreases |t|
  {
    if t == [] {
      assert t + rest == rest && current + t == current;
    } else {
      TokenLocal(mode, t, rest);
      var k := NextToken(mode, t);
      var w := t[..k.len];
      assert (t + rest)[k.len..] == t[k.len..] + rest && (t + rest)[..k.len] == w;
      PiecesAfter(k.next, t[k.len..], rest, current + w);
      assert current + w + t[k.len..] == current + t;
    }
  }

  lemma {:induction false} LexLeadingBlank(w: string, t: string)
    requires Blank(w)
    ensures Lex(Normal, w + t) == Lex(Normal, t)
    decreases |w|
  {
    if w == [] {
      assert w + t == t;
    } else {
      assert (w + t)[1..] == w[1..] + t && IsSpace(w[0]);
      assert NextToken(Normal, w + t) == Token(1, Normal, false);
      LexLeadingBlank(w[1..], t);
    }
  }

  /** White space at the end leaves a quote or block comment open; it can only close a line comment. */
  lemma {:induction false} LexTrailingBlank(mode: Mode, w: string)
    requires Tagged(mode) && Blank(w) && Lex(mode, w) == Some(Normal)
    ensures mode == Normal || mode == Line
    decreases |w|
  {
    if w != [] {
      var k := NextToken(mode, w);
      assert IsSpace(w[0]);
      assert k.len == 1 && (k.next == mode || mode == Line);
      LexTrailingBlank(k.next, w[1..]);
    }
  }

  /** The text up to the first cut lexes on its own, and a cut is a semicolon in normal mode. */
  lemma {:induction false} FirstPiece(mode: Mode, s: string) returns (p: string, rest: string)
    requires Tagged(mode)
    ensures s == p + rest && Lex(mode, p).Some?
    ensures rest != [] ==> rest[0] == ';' && Lex(mode, p) == Some(Normal)
    decreases |s|
  {
    if s == [] || NextToken(mode, s).cut {
      p, rest := [], s;
    } else {
      var t := NextToken(mode, s);
      TokenTagged(mode, s);
      var q;
      q, rest := FirstPiece(t.next, s[t.len..]);
      var w := s[..t.len];
      p := w + q;
      SplitAt(s, t.len);
      ConcatAssociative(w, q, rest);
      LexCons(mode, w, q, rest);
    }
  }

  lemma TokenTagged(mode: Mode, s: string)
    requires s != [] && Tagged(mode)
    ensures Tagged(NextToken(mode, s).next)
  {
    TokenLocal(mode, s, []);
  }

  /** A token of the script is a token of the piece it starts. */
  lemma LexCons(mode: Mode, w: string, q: string, rest: string)
    requires w != [] && Tagged(mode) && Inert(rest)
    requires var t := NextToken(mode, w + q + rest); !t.cut && t.len == |w| && Lex(t.next, q).Some?
    ensures Lex(mode, w + q) == Lex(NextToken(mode, w + q + rest).next, q)
  {
    TokenLocal(mode, w + q, rest);
    assert (w + q)[|w|..] == q;
  }

  /** A statement that a separator can follow, and one that may come last. */
  ghost predicate Closed(t: string) {
    t != [] && Trimmed(t) && (Lex(Normal, t) == Some(Normal) || Lex(Normal, t) == Some(Line))
  }

  ghost predicate Open(t: string) {
    t != [] && Trimmed(t) && Lex(Normal, t).Some?
  }

  ghost predicate WellFormed(statements: seq<string>) {
    statements != [] ==>
      if |statements| == 1 then Open(statements[0])
      else Closed(statements[0]) && WellFormed(statements[1..])
  }

  lemma {:induction false} LexMiddle(lead: string, t: string, trail: string)
    requires Blank(lead) && Blank(trail) && Lex(Normal, lead + (t + trail)).Some?
    ensures Lex(Normal, t).Some?
    ensures Lex(Normal, lead + (t + trail)) == Some(Normal)
            ==> Lex(Normal, t) == Some(Normal) || Lex(Normal, t) == Some(Line)
  {
    LexLeadingBlank(lead, t + trail);
    LexConcat(Normal, t, trail);
    var mode := Lex(Normal, t).value;
    if Lex(mode, trail) == Some(Normal) {
      LexTrailingBlank(mode, trail);
    }
  }

  lemma {:induction false} TrimmedPiece(p: string)
    requires Lex(Normal, p).Some? && Trim(p) != []
    ensures Open(Trim(p))
    ensures Lex(Normal, p) == Some(Normal) ==> Closed(Trim(p))
  {
    var lead, trail := TrimSplits(p);
    ConcatAssociative(lead, Trim(p), trail);
    LexMiddle(lead, Trim(p), trail);
  }

  lemma WellFormedCons(p: string, statements: seq<string>)
    requires Lex(Normal, p).Some? && WellFormed(statements)
    requires statements != [] ==> Lex(Normal, p) == Some(Normal)
    ensures WellFormed(Keep([p]) + statements)
  {
    var kept := Keep([p]);
    assert kept == (if Trim(p) != [] then [Trim(p)] else []) + Keep([p][1..]);
    if Trim(p) == [] {
      assert kept + statements == statements;
    } else {
      TrimmedPiece(p);
      assert (kept + statements)[1..] == statements;
    }
  }

  lemma KeepCons(p: string, pieces: seq<string>)
    ensures Keep([p] + pieces) == Keep([p]) + Keep(pieces)
  {
    assert ([p] + pieces)[1..] == pieces && [p][1..] == [];
  }

  lemma {:induction false} StatementsUntilCut(p: string, rest: string)
    requires Lex(Normal, p) == Some(Normal) && rest != [] && rest[0] == ';'
    ensures Statements(p + rest) == Keep([p]) + Statements(rest[1..])
  {
    PiecesAfter(Normal, p, rest, []);
    assert [] + p == p;
    KeepCons(p, Pieces(Normal, rest[1..], []));
  }

  lemma {:induction false} StatementsWellFormed(s: string)
    ensures WellFormed(Statements(s))
    decreases |s|
  {
    var p, rest := FirstPiece(Normal, s);
    if rest == [] {
      PiecesAfter(Normal, p, [], []);
      assert p + [] == p == s && [] + p == p;
      WellFormedCons(p, []);
      assert Keep([p]) + [] == Keep([p]);
    } else {
      StatementsUntilCut(p, rest);
      StatementsWellFormed(rest[1..]);
      WellFormedCons(p, Statements(rest[1..]));
    }
  }

  lemma KeepOne(lead: string, t: string, trail: string, pieces: seq<string>)
    requires Blank(lead) && Blank(trail) && t != [] && Trimmed(t)
    ensures Keep([lead + t + trail] + pieces) == [t] + Keep(pieces)
  {
    TrimUnique(lead, t, trail);
    assert ([lead + t + trail] + pieces)[1..] == pieces;
  }

  /** The separator ends the statement before it, whether or not that ends in a line comment. */
  lemma {:induction false} SeparatorCuts(mode: Mode, rest: string, current: string)
    requires mode == Normal || mode == Line
    ensures Pieces(mode, SEPARATOR + rest, current) == [current + "\n"] + Pieces(Normal, "\n" + rest, [])
  {
    var s := SEPARATOR + rest;
    assert s[1..] == ";\n" + rest && s[..1] == "\n";
    assert s[1..][1..] == "\n" + rest;
    assert NextToken(mode, s) == Token(1, Normal, false);
    assert Pieces(mode, s, current) == Pieces(Normal, s[1..], current + "\n");
  }

  lemma RejoinLast(lead: string, t: string)
    requires Blank(lead) && Open(t)
    ensures Statements(lead + t) == [t]
  {
    LexLeadingBlank(lead, t);
    PiecesAfter(Normal, lead + t, [], []);
    assert lead + t + [] == lead + t && [] + (lead + t) == lead + t;
    KeepOne(lead, t, [], []);
    assert [lead + t] + [] == [lead + t];
  }

  lemma {:induction false} PiecesNext(x: string, rest: string)
    requires Lex(Normal, x) == Some(Normal) || Lex(Normal, x) == Some(Line)
    ensures Pieces(Normal, x + (SEPARATOR + rest), []) == [x + "\n"] + Pieces(Normal, "\n" + rest, [])
  {
    PiecesAfter(Normal, x, SEPARATOR + rest, []);
    assert [] + x == x;
    SeparatorCuts(Lex(Normal, x).value, rest, x);
  }

  lemma {:induction false} RejoinNext(lead: string, t: string, rest: string)
    requires Blank(lead) && Closed(t)
    ensures Statements((lead + t) + (SEPARATOR + rest)) == [t] + Statements("\n" + rest)
  {
    LexLeadingBlank(lead, t);
    PiecesNext(lead + t, rest);
    var pieces := Pieces(Normal, "\n" + rest, []);
    assert Keep([lead + t + "\n"] + pieces) == [t] + Keep(pieces) by {
      KeepOne(lead, t, "\n", pieces);
    }
  }

  lemma ConcatFour<T>(a: seq<T>, b: seq<T>, c: seq<T>, d: seq<T>)
    ensures a + (b + c + d) == (a + b) + (c + d)
  {
  }

  lemma {:induction false} Rejoin(lead: string, statements: seq<string>)
    requires Blank(lead) && WellFormed(statements)
    ensures Statements(lead + Join(statements, SEPARATOR)) == statements
    decreases |statements|
  {
    if statements == [] {
      assert lead + [] == lead;
      RejoinNothing(lead);
    } else if |statements| == 1 {
      RejoinLast(lead, statements[0]);
    } else {
      var rest := Join(statements[1..], SEPARATOR);
      ConcatFour(lead, statements[0], SEPARATOR, rest);
      RejoinNext(lead, statements[0], rest);
      Rejoin("\n", statements[1..]);
    }
  }

  lemma RejoinNothing(lead: string)
    requires Blank(lead)
    ensures Statements(lead) == []
  {
    LexLeadingBlank(lead, []);
    assert lead + [] == lead && [] + lead == lead;
    PiecesAfter(Normal, lead, [], []);
    TrimBlank(lead);
    assert Keep([lead]) == Keep([lead][1..]);
  }

  /** The round trip, for every script. */
  lemma SplitRoundTrip(sql: string)
    ensures Statements(Join(Statements(sql), SEPARATOR)) == Statements(sql)
  {
    StatementsWellFormed(sql);
    Rejoin([], Statements(sql));
    assert [] + Join(Statements(sql), SEPARATOR) == Join(Statements(sql), SEPARATOR);
  }

  /** Every statement is trimmed and not empty. */
  lemma StatementsTrimmed(sql: string)
    ensures forall t :: t in Statements(sql) ==> t != [] && Trimmed(t)
  {
    KeptTrimmed(Pieces(Normal, sql, []));
  }

  lemma {:induction false} KeptTrimmed(pieces: seq<string>)
    ensures forall t :: t in Keep(pieces) ==> t != [] && Trimmed(t)
  {
    if pieces != [] {
      KeptTrimmed(pieces[1..]);
    }
  }
}
