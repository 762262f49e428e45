/**
 Joining statements with a semicolon alone, which splits back exactly when no statement but the last ends
 inside a line comment, and what becomes of a comment a script starts with (internal/db/migrate.go:140-249).
 */
module SqlSemicolon {
  import opened Text
  import opened Wrappers
  import opened SqlSplitter
  import opened SqlRoundTrip

  // ---------------------------------------------------------------- a semicolon alone

  /** No statement but the last ends inside a line comment. */
  ghost predicate EndInNormal(statements: seq<string>) {
    forall k :: 0 <= k < |statements| - 1 ==> Lex(Normal, statements[k]) == Some(Normal)
  }

  lemma KeepTrimmed(t: string)
    requires t != [] && Trimmed(t)
    ensures Keep([t]) == [t]
  {
    KeepOne([], t, [], []);
    assert [] + t + [] == t && [t] + [] == [t];
  }

  lemma {:induction false} SemicolonEnds(t: string, rest: string)
    requires t != [] && Trimmed(t) && Lex(Normal, t) == Some(Normal)
    ensures Statements(t + ";" + rest) == [t] + Statements(rest)
  {
    assert t + ";" + rest == t + (";" + rest) && (";" + rest)[1..] == rest;
    StatementsUntilCut(t, ";" + rest);
    KeepTrimmed(t);
  }

  lemma {:induction false} FirstPieceKeeps(mode: Mode, s: string, current: string)
    requires ValidMode(mode)
    ensures current <= Pieces(mode, s, current)[0]
    decreases |s|
  {
    if s != [] {
      var t := NextToken(mode, s);
      if !t.cut {
        FirstPieceKeeps(t.next, s[t.len..], current + s[..t.len]);
      }
    }
  }

  lemma {:induction false} TrimRightKeeps(s: string, n: nat)
    requires 0 < n <= |s| && !IsSpace(s[n - 1])
    ensures |TrimRight(s)| >= n
  {
    if IsSpace(s[|s| - 1]) {
      TrimRightKeeps(s[..|s| - 1], n);
    }
  }

  /** After a line comment the semicolon and more belong to the first statement. */
  lemma {:induction false} SemicolonSwallowed(t: string, rest: string)
    requires t != [] && Trimmed(t) && Lex(Normal, t) == Some(Line)
    ensures Statements(t + ";" + rest) != [] && |Statements(t + ";" + rest)[0]| > |t|
  {
    var s := ";" + rest;
    assert t + ";" + rest == t + s && [] + t == t && s[..1] == ";" && s[1..] == rest;
    PiecesAfter(Normal, t, s, []);
    assert Pieces(Line, s, t) == Pieces(Line, rest, t + ";");
    FirstPieceKeeps(Line, rest, t + ";");
    var p := Pieces(Line, rest, t + ";")[0];
    assert p[0] == t[0] && p[|t|] == ';';
    TrimRightKeeps(p, |t| + 1);
  }

  lemma {:induction false} SemicolonRejoins(statements: seq<string>)
    requires WellFormed(statements)
    ensures Statements(Join(statements, ";")) == statements <==> EndInNormal(statements)
    decreases |statements|
  {
    if statements == [] {
      RejoinNothing([]);
    } else if |statements| == 1 {
      RejoinLast([], statements[0]);
      assert [] + statements[0] == statements[0];
    } else {
      var t, rest := statements[0], statements[1..];
      assert statements == [t] + rest;
      if Lex(Normal, t) == Some(Normal) {
        SemicolonEnds(t, Join(rest, ";"));
        SemicolonRejoins(rest);
        EndInNormalCons(t, rest);
      } else {
        SemicolonSwallowed(t, Join(rest, ";"));
      }
    }
  }

  lemma EndInNormalCons(t: string, rest: seq<string>)
    requires rest != [] && Lex(Normal, t) == Some(Normal)
    ensures EndInNormal([t] + rest) <==> EndInNormal(rest)
  {
    var all := [t] + rest;
    assert forall k :: 0 <= k < |rest| ==> all[k + 1] == rest[k];
    if EndInNormal(all) {
      forall k | 0 <= k < |rest| - 1 ensures Lex(Normal, rest[k]) == Some(Normal) {
        assert Lex(Normal, all[k + 1]) == Some(Normal);
      }
    }
  }

  /** Joined with a semicolon alone the statements split back exactly when none but the last ends in a line comment. */
  lemma {:induction false} SemicolonAloneExactly(sql: string)
    ensures Statements(Join(Statements(sql), ";")) == Statements(sql) <==> EndInNormal(Statements(sql))
  {
    StatementsWellFormed(sql);
    SemicolonRejoins(Statements(sql));
  }

  /** A script where it does not: the semicolon ends up inside the first statement's line comment. */
  lemma SemicolonAloneIsNotEnough() returns (sql: string)
    ensures Statements(Join(Statements(sql), ";")) != Statements(sql)
  {
    sql := "--\n" + ";b";
    CommentThenStatement(";b");
    assert Statements(sql) == ["--", ";b"[1..]];
    CommentStaysOpen();
    assert Lex(Normal, Statements(sql)[0]) == Some(Line);
    SemicolonAloneExactly(sql);
  }

  lemma CommentStaysOpen()
    ensures Lex(Normal, "--") == Some(Line)
  {
    assert "--"[2..] == [];
    assert Lex(Line, []) == Some(Line);
  }

  lemma {:induction false} CommentThenStatement(rest: string)
    requires rest != [] && rest[0] == ';' && Open(rest[1..])
    ensures Statements("--\n" + rest) == ["--"] + [rest[1..]]
  {
    LexCommentLine();
    StatementsUntilCut("--\n", rest);
    KeepComment();
    RejoinLast([], rest[1..]);
    assert [] + rest[1..] == rest[1..];
  }

  lemma KeepComment()
    ensures Keep(["--\n"]) == ["--"]
  {
    KeepOne([], "--", "\n", []);
    assert [] + "--" + "\n" == "--\n" && ["--\n"] + [] == ["--\n"];
  }

  lemma LexCommentLine()
    ensures Lex(Normal, "--\n") == Some(Normal)
  {
    assert "--\n"[2..] == "\n" && "\n"[1..] == [];
    assert NextToken(Line, "\n") == Token(1, Normal, false);
    assert Lex(Line, "\n") == Lex(Normal, []);
  }

  // ---------------------------------------------------------------- a leading comment

  lemma {:induction false} BlankOne(c: char, s: string, current: string)
    requires IsSpace(c)
    ensures Pieces(Normal, [c] + s, current) == Pieces(Normal, s, current + [c])
  {
    var t := [c] + s;
    assert t[1..] == s && t[..1] == [c];
    assert NextToken(Normal, t) == Token(1, Normal, false);
  }

  lemma {:induction false} BlankPasses(lead: string, s: string, current: string)
    requires Blank(lead)
    ensures Pieces(Normal, lead + s, current) == Pieces(Normal, s, current + lead)
    decreases |lead|
  {
    if lead == [] {
      assert lead + s == s && current + lead == current;
    } else {
      var c, rest := lead[0], lead[1..];
      BlankOne(c, rest + s, current);
      BlankPasses(rest, s, current + [c]);
      SplitAt(lead, 1);
      assert lead[..1] == [c];
      ConcatAssociative([c], rest, s);
      ConcatAssociative(current, [c], rest);
    }
  }

  lemma {:induction false} LineKeeps(w: string, s: string, current: string)
    requires '\n' !in w
    ensures current + w <= Pieces(Line, w + s, current)[0]
    decreases |w|
  {
    if w == [] {
      assert w + s == s && current + w == current;
      FirstPieceKeeps(Line, s, current);
    } else {
      assert (w + s)[1..] == w[1..] + s && (w + s)[..1] == w[..1];
      LineKeeps(w[1..], s, current + w[..1]);
      assert current + w[..1] + w[1..] == current + w;
    }
  }

  lemma {:induction false} TrimKeepsStart(lead: string, t: string, p: string)
    requires Blank(lead) && t != [] && Trimmed(t) && lead + t <= p
    ensures t <= Trim(p)
  {
    var q := p[|lead|..];
    assert p == lead + q && t <= q && q[0] == t[0];
    TrimLeftDrops(lead, q);
    TrimRightKeeps(q, |t|);
  }

  /** A line comment a script starts with is the start of its first statement. */
  lemma {:induction false} LeadingCommentIsKept(lead: string, text: string, rest: string)
    requires Blank(lead) && '\n' !in text && Trimmed("--" + text)
    ensures var statements := Statements(lead + ("--" + text + rest));
            statements != [] && "--" + text <= statements[0]
  {
    var s := "--" + text + rest;
    BlankPasses(lead, s, []);
    assert [] + lead == lead && s[2..] == text + rest && s[..2] == "--";
    assert Pieces(Normal, s, lead) == Pieces(Line, text + rest, lead + "--");
    LineKeeps(text, rest, lead + "--");
    assert lead + "--" + text == lead + ("--" + text);
    TrimKeepsStart(lead, "--" + text, Pieces(Line, text + rest, lead + "--")[0]);
  }
}
