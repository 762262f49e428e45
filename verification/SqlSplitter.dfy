/**
 The SQL script splitter of the migration runner (internal/db/migrate.go).

 `NextToken` is one turn of the splitter's loop; `Pieces` is what the loop accumulates between
 cuts; `SplitSQLStatements` is the loop itself. SqlReference.dfy relates the cuts to a lexer that
 never looks ahead, and SqlRoundTrip.dfy proves that joining and splitting again loses nothing.
 */
module SqlSplitter {
  import opened Text

  /** The `state` string of the source, with the open dollar tag where there is one. */
  datatype Mode = Normal | Line | Block | Single | Double | Dollar(tag: string)

  predicate IsTagChar(c: char) {
    c == '_' || 'a' <= c <= 'z' || 'A' <= c <= 'Z' || '0' <= c <= '9'
  }

  /** "$", letters, digits and underscores, "$". */
  ghost predicate IsTag(tag: string) {
    && |tag| >= 2 && tag[0] == '$' && tag[|tag| - 1] == '$'
    && forall k :: 1 <= k < |tag| - 1 ==>
         tag[k] == '_' || '0' <= tag[k] <= '9' || 'A' <= tag[k] <= 'Z' || 'a' <= tag[k] <= 'z'
  }

  ghost predicate ValidMode(mode: Mode) {
    mode.Dollar? ==> |mode.tag| >= 2
  }

  method IsDollarTag(tag: string) returns (ok: bool)
    ensures ok <==> IsTag(tag)
  {
    if |tag| < 2 || tag[0] != '$' || tag[|tag| - 1] != '$' {
      return false;
    }
    for k := 1 to |tag| - 1
      invariant forall j :: 1 <= j < k ==> IsTagChar(tag[j])
    {
      if !IsTagChar(tag[k]) {
        return false;
      }
    }
    return true;
  }

  /** The first position of `c` in `s`, or -1. */
  function IndexByte(s: string, c: char): (j: int)
    ensures -1 <= j < |s|
    ensures j >= 0 ==> s[j] == c && c !in s[..j]
    ensures j < 0 ==> c !in s
  {
    if s == [] then -1
    else if s[0] == c then 0
    else
      var rest := IndexByte(s[1..], c);
      assert rest >= 0 ==> s[..rest + 1] == [s[0]] + s[1..][..rest];
      if rest < 0 then -1 else rest + 1
  }

  /** The length of the tag characters and closing dollar that `s` starts with, or 0. */
  function TagRest(s: string): (n: nat)
    ensures n <= |s|
  {
    if s == [] then 0
    else if s[0] == '$' then 1
    else if !IsTagChar(s[0]) || TagRest(s[1..]) == 0 then 0
    else 1 + TagRest(s[1..])
  }

  /** Looking for the next dollar and testing the text in between finds exactly the tags. */
  lemma {:induction false} TagRestIsIndex(s: string)
    ensures var j := IndexByte(s, '$');
            if j >= 0 && forall k :: 0 <= k < j ==> IsTagChar(s[k]) then TagRest(s) == j + 1
            else TagRest(s) == 0
  {
    if s != [] && s[0] != '$' {
      var rest := s[1..];
      TagRestIsIndex(rest);
      assert forall k :: 0 < k < |s| ==> s[k] == rest[k - 1];
      assert forall k :: 0 <= k < |rest| ==> rest[k] == s[k + 1];
    }
  }

  /** How many characters one turn of the loop consumes, the mode after it, and whether it cuts. */
  datatype Token = Token(len: nat, next: Mode, cut: bool)

  ghost function NextToken(mode: Mode, s: string): (t: Token)
    requires s != [] && ValidMode(mode)
    ensures 1 <= t.len <= |s| && ValidMode(t.next)
    ensures t.cut ==> mode == Normal && t == Token(1, Normal, true)
  {
    var c := s[0];
    match mode
    case Line => Token(1, if c == '\n' then Normal else Line, false)
    case Block =>
      if c == '*' && |s| > 1 && s[1] == '/' then Token(2, Normal, false) else Token(1, Block, false)
    case Single =>
      if c == '\'' && |s| > 1 && s[1] == '\'' then Token(2, Single, false)
      else Token(1, if c == '\'' then Normal else Single, false)
    case Double =>
      if c == '"' && |s| > 1 && s[1] == '"' then Token(2, Double, false)
      else Token(1, if c == '"' then Normal else Double, false)
    case Dollar(tag) =>
      if tag <= s then Token(|tag|, Normal, false) else Token(1, mode, false)
    case Normal =>
      if c == '-' && |s| > 1 && s[1] == '-' then Token(2, Line, false)
      else if c == '/' && |s| > 1 && s[1] == '*' then Token(2, Block, false)
      else if c == '\'' then Token(1, Single, false)
      else if c == '"' then Token(1, Double, false)
      else if c == '$' then
        var n := TagRest(s[1..]);
        if n > 0 then Token(n + 1, Dollar(s[..n + 1]), false) else Token(1, Normal, false)
      else if c == ';' then Token(1, Normal, true)
      else Token(1, Normal, false)
  }

  /** The raw text between cuts, from `mode` on, where `current` is already in the builder. */
  ghost function Pieces(mode: Mode, s: string, current: string): (pieces: seq<string>)
    requires ValidMode(mode)
    ensures pieces != []
    decreases |s|
  {
    if s == [] then [current]
    else
      var t := NextToken(mode, s);
      if t.cut then [current] + Pieces(Normal, s[1..], [])
      else Pieces(t.next, s[t.len..], current + s[..t.len])
  }

  /** Trimmed pieces, without the blank ones. */
  ghost function Keep(pieces: seq<string>): seq<string>
  {
    if pieces == [] then []
    else
      var stmt := Trim(pieces[0]);
      (if stmt != [] then [stmt] else []) + Keep(pieces[1..])
  }

  ghost function Statements(sql: string): seq<string> {
    Keep(Pieces(Normal, sql, []))
  }

  /** The look-ahead at a dollar: the tag that starts at `i`, if there is one, and "" otherwise. */
  method OpeningTag(sql: string, i: nat) returns (tag: string)
    requires i < |sql| && sql[i] == '$'
    ensures var n := TagRest(sql[i..][1..]); tag == if n > 0 then sql[i..][..n + 1] else []
  {
    ghost var rest := sql[i..][1..];
    assert sql[i + 1..] == rest;
    TagRestIsIndex(rest);
    var j := IndexByte(sql[i + 1..], '$');
    if j < 0 {
      return [];
    }
    tag := sql[i..i + j + 2];
    assert tag == sql[i..][..j + 2] && tag[j + 1] == rest[j];
    assert forall k :: 1 <= k < |tag| - 1 ==> tag[k] == rest[k - 1];
    assert forall k :: 0 <= k < j ==> rest[k] == tag[k + 1];
    var quoted := IsDollarTag(tag);
    if !quoted {
      tag := [];
    }
  }

  /** The switch of the normal mode. */
  method ScanNormal(sql: string, i: nat) returns (text: string, next: Mode, cut: bool)
    requires i < |sql|
    ensures NextToken(Normal, sql[i..]) == Token(if cut then 1 else |text|, next, cut)
    ensures !cut ==> i + |text| <= |sql| && text == sql[i..i + |text|]
  {
    var c := sql[i];
    text, next, cut := [c], Normal, false;
    if c == '-' && i + 1 < |sql| && sql[i + 1] == '-' {
      text, next := "--", Line;
    } else if c == '/' && i + 1 < |sql| && sql[i + 1] == '*' {
      text, next := "/*", Block;
    } else if c == '\'' {
      next := Single;
    } else if c == '"' {
      next := Double;
    } else if c == '$' {
      var tag := OpeningTag(sql, i);
      if tag != [] {
        text, next := tag, Dollar(tag);
      }
    } else if c == ';' {
      cut := true;
    }
  }

  /**
   One turn of the loop: the text it writes to the builder, the state it leaves, and whether it
   flushes the builder instead.
   */
  method Scan(sql: string, i: nat, state: Mode) returns (text: string, next: Mode, cut: bool)
    requires i < |sql| && ValidMode(state)
    ensures NextToken(state, sql[i..]) == Token(if cut then 1 else |text|, next, cut)
    ensures !cut ==> i + |text| <= |sql| && text == sql[i..i + |text|]
    ensures cut ==> state == Normal
  {
    var c := sql[i];
    text, next, cut := [c], state, false;
    match state {
      case Line =>
        if c == '\n' {
          next := Normal;
        }
      case Block =>
        if c == '*' && i + 1 < |sql| && sql[i + 1] == '/' {
          text, next := "*/", Normal;
        }
      case Single =>
        if c == '\'' && i + 1 < |sql| && sql[i + 1] == '\'' {
          text := "''";
        } else if c == '\'' {
          next := Normal;
        }
      case Double =>
        if c == '"' && i + 1 < |sql| && sql[i + 1] == '"' {
          text := "\"\"";
        } else if c == '"' {
          next := Normal;
        }
      case Dollar(tag) =>
        if tag <= sql[i..] {
          text, next := tag, Normal;
        }
      case Normal =>
        text, next, cut := ScanNormal(sql, i);
    }
  }

  /** The statement the builder holds, if it is not blank. */
  function Flushed(current: string): seq<string> {
    if Trim(current) != "" then [Trim(current)] else []
  }

  /** The splitter with its result so far as an accumulator, the way the loop builds it. */
  ghost function Finish(statements: seq<string>, mode: Mode, s: string, current: string): seq<string>
    requires ValidMode(mode)
    decreases |s|
  {
    if s == [] then statements + Flushed(current)
    else
      var t := NextToken(mode, s);
      if t.cut then Finish(statements + Flushed(current), Normal, s[1..], [])
      else Finish(statements, t.next, s[t.len..], current + s[..t.len])
  }

  lemma {:induction false} FinishKeeps(statements: seq<string>, mode: Mode, s: string, current: string)
    requires ValidMode(mode)
    ensures Finish(statements, mode, s, current) == statements + Keep(Pieces(mode, s, current))
    decreases |s|
  {
    if s == [] {
      assert Keep([current]) == Flushed(current) + Keep([current][1..]);
    } else {
      var t := NextToken(mode, s);
      if t.cut {
        var pieces := Pieces(Normal, s[1..], []);
        FinishKeeps(statements + Flushed(current), Normal, s[1..], []);
        assert ([current] + pieces)[1..] == pieces;
        ConcatAssociative(statements, Flushed(current), Keep(pieces));
      } else {
        FinishKeeps(statements, t.next, s[t.len..], current + s[..t.len]);
      }
    }
  }

  /** What the loop returns when it is at position `i`. */
  ghost function Result(statements: seq<string>, state: Mode, sql: string, i: nat, current: string): seq<string>
    requires i <= |sql| && ValidMode(state)
  {
    Finish(statements, state, sql[i..], current)
  }

  method Turn(sql: string, i: nat, state: Mode, ghost statements: seq<string>, ghost current: string)
    returns (text: string, next: Mode, cut: bool)
    requires i < |sql| && ValidMode(state)
    ensures ValidMode(next)
    ensures cut ==> Result(statements, state, sql, i, current)
                    == Result(statements + Flushed(current), next, sql, i + 1, [])
    ensures !cut ==> 1 <= |text| <= |sql| - i
                     && Result(statements, state, sql, i, current)
                        == Result(statements, next, sql, i + |text|, current + text)
  {
    text, next, cut := Scan(sql, i, state);
    ghost var s := sql[i..];
    if cut {
      assert s[1..] == sql[i + 1..];
    } else {
      assert text == s[..|text|] && s[|text|..] == sql[i + |text|..];
    }
  }

  /** `splitSQLStatements`. */
  method SplitSQLStatements(sql: string) returns (statements: seq<string>)
    ensures statements == Statements(sql)
  {
    statements := [];
    var current: string := [];
    var state := Normal;
    var i := 0;
    assert sql[0..] == sql;
    FinishKeeps([], Normal, sql, []);
    ghost var all := Statements(sql);
    while i < |sql|
      invariant 0 <= i <= |sql| && ValidMode(state)
      invariant Result(statements, state, sql, i, current) == all
      decreases |sql| - i
    {
      var text, next, cut := Turn(sql, i, state, statements, current);
      if cut {
        statements := statements + Flushed(current);
        current := [];
        i := i + 1;
      } else {
        current := current + text;
        i := i + |text|;
      }
      state := next;
    }
    statements := statements + Flushed(current);
  }
}
