/**
 What the cuts of the splitter mean: a lexer that reads one character at a time and never looks
 ahead. A semicolon separates statements exactly when this lexer is at the top level there.
 */
module SqlReference {
  import opened Text
  import opened SqlSplitter

  /** The states after a prefix; those ending in a half-read token are still at the top level. */
  datatype State =
    | Top
    | Dash | Slash | SingleEnd | DoubleEnd | Opening(tag: string)
    | InLine | InBlock | InBlockStar | InSingle | InDouble
    | InDollar(tag: string, seen: string)

  predicate TopLevel(r: State) {
    r.Top? || r.Dash? || r.Slash? || r.SingleEnd? || r.DoubleEnd? || r.Opening?
  }

  function Start(c: char): State {
    if c == '-' then Dash
    else if c == '/' then Slash
    else if c == '\'' then InSingle
    else if c == '"' then InDouble
    else if c == '$' then Opening("$")
    else Top
  }

  function Step(r: State, c: char): State {
    match r
    case Top => Start(c)
    case Dash => if c == '-' then InLine else Start(c)
    case Slash => if c == '*' then InBlock else Start(c)
    case SingleEnd => if c == '\'' then InSingle else Start(c)
    case DoubleEnd => if c == '"' then InDouble else Start(c)
    case Opening(tag) =>
      if c == '$' then InDollar(tag + "$", "")
      else if IsTagChar(c) then Opening(tag + [c])
      else Start(c)
    case InLine => if c == '\n' then Top else InLine
    case InBlock => if c == '*' then InBlockStar else InBlock
    case InBlockStar => if c == '/' then Top else if c == '*' then InBlockStar else InBlock
    case InSingle => if c == '\'' then SingleEnd else InSingle
    case InDouble => if c == '"' then DoubleEnd else InDouble
    case InDollar(tag, seen) =>
      if seen != "" && seen + [c] == tag then Top
      else if c == '$' then InDollar(tag, "$")
      else if seen != "" && seen + [c] <= tag then InDollar(tag, seen + [c])
      else InDollar(tag, "")
  }

  predicate Cuts(r: State, c: char) {
    c == ';' && TopLevel(r)
  }

  /** The text between top-level semicolons, one character at a time. */
  function ReferencePieces(r: State, s: string, current: string): seq<string>
    decreases |s|
  {
    if s == [] then [current]
    else if Cuts(r, s[0]) then [current] + ReferencePieces(Top, s[1..], [])
    else ReferencePieces(Step(r, s[0]), s[1..], current + [s[0]])
  }

  /** The reference state `r` and the splitter's mode agree on everything `s` can still reveal. */
  ghost predicate Agree(r: State, mode: Mode, s: string) {
    match r
    case Top => mode == Normal
    case Dash => mode == Normal && !("-" <= s)
    case Slash => mode == Normal && !("*" <= s)
    case SingleEnd => mode == Normal && !("'" <= s)
    case DoubleEnd => mode == Normal && !("\"" <= s)
    case Opening(tag) => mode == Normal && TagRest(s) == 0
    case InLine => mode == Line
    case InBlock => mode == Block
    case InBlockStar => mode == Block && !("/" <= s)
    case InSingle => mode == Single
    case InDouble => mode == Double
    case InDollar(tag, seen) =>
      && mode == Dollar(tag) && IsTag(tag) && Unfinished(tag, seen, s)
  }

  /** The state after reading `w`. */
  ghost function Run(r: State, w: string): State
    decreases |w|
  {
    if w == [] then r else Run(Step(r, w[0]), w[1..])
  }

  ghost predicate Uncut(r: State, w: string)
    decreases |w|
  {
    w == [] || (!Cuts(r, w[0]) && Uncut(Step(r, w[0]), w[1..]))
  }

  lemma {:induction false} Consume(r: State, w: string, rest: string, current: string)
    requires Uncut(r, w)
    ensures ReferencePieces(r, w + rest, current) == ReferencePieces(Run(r, w), rest, current + w)
    decreases |w|
  {
    if w == [] {
      assert w + rest == rest && current + w == current;
    } else {
      Consume(Step(r, w[0]), w[1..], rest, current + [w[0]]);
      assert (w + rest)[1..] == w[1..] + rest;
      assert current + [w[0]] + w[1..] == current + w;
    }
  }

  /** Reading the tag characters of an opening tag, up to the closing dollar. */
  lemma {:induction false} RunOpening(tag: string, s: string)
    requires TagRest(s) > 0
    ensures var w := s[..TagRest(s)];
            Uncut(Opening(tag), w) && Run(Opening(tag), w) == InDollar(tag + w, "")
    decreases |s|
  {
    var w := s[..TagRest(s)];
    if s[0] == '$' {
      assert w == ['$'] && w[1..] == [];
    } else {
      RunOpening(tag + [s[0]], s[1..]);
      assert w[1..] == s[1..][..TagRest(s[1..])];
      assert tag + [s[0]] + w[1..] == tag + w;
    }
  }

  /** A tag is a dollar, tag characters and a dollar. */
  lemma {:induction false} TagShape(s: string)
    requires TagRest(s) > 0
    ensures s[TagRest(s) - 1] == '$' && forall k :: 0 <= k < TagRest(s) - 1 ==> IsTagChar(s[k])
    decreases |s|
  {
    if s[0] != '$' {
      TagShape(s[1..]);
      assert forall k :: 0 < k < TagRest(s) ==> s[k] == s[1..][k - 1];
    }
  }

  /** Reading what is left of a closing tag. */
  lemma {:induction false} RunClosing(tag: string, seen: string, left: string)
    requires IsTag(tag) && seen != [] && left != [] && tag == seen + left
    ensures Uncut(InDollar(tag, seen), left) && Run(InDollar(tag, seen), left) == Top
    decreases |left|
  {
    var more := left[1..];
    assert tag[|seen|] == left[0];
    assert seen + [left[0]] + more == tag;
    if more != [] {
      assert seen + [left[0]] == tag[..|seen| + 1];
      RunClosing(tag, seen + [left[0]], more);
    }
  }

  lemma RunOne(r: State, c: char)
    ensures Run(r, [c]) == Step(r, c) && (Uncut(r, [c]) <==> !Cuts(r, c))
  {
    assert [c][1..] == [];
  }

  lemma RunTwo(r: State, c: char, d: char)
    ensures Run(r, [c, d]) == Step(Step(r, c), d)
    ensures Uncut(r, [c, d]) <==> !Cuts(r, c) && !Cuts(Step(r, c), d)
  {
    assert [c, d][1..] == [d];
    RunOne(Step(r, c), d);
  }

  /** The characters of one token leave the reference lexer in agreement again. */
  ghost predicate Replays(r: State, mode: Mode, s: string)
    requires s != [] && ValidMode(mode)
  {
    var t := NextToken(mode, s);
    Uncut(r, s[..t.len]) && Agree(Run(r, s[..t.len]), t.next, s[t.len..])
  }

  lemma {:induction false} ReplayQuoted(r: State, mode: Mode, s: string)
    requires s != [] && Agree(r, mode, s)
    requires mode.Line? || mode.Block? || mode.Single? || mode.Double?
    ensures Replays(r, mode, s)
  {
    if NextToken(mode, s).len == 1 {
      assert s[..1] == [s[0]];
      RunOne(r, s[0]);
    } else {
      assert s[..2] == [s[0], s[1]];
      RunTwo(r, s[0], s[1]);
    }
  }

  lemma {:induction false} ReplayNormal(r: State, s: string)
    requires s != [] && Agree(r, Normal, s)
    requires s[0] != '$' && !NextToken(Normal, s).cut
    ensures Replays(r, Normal, s)
  {
    if NextToken(Normal, s).len == 1 {
      assert s[..1] == [s[0]];
      RunOne(r, s[0]);
    } else {
      assert s[..2] == [s[0], s[1]];
      RunTwo(r, s[0], s[1]);
    }
  }

  /** The look-ahead found a tag: the reference lexer reads it character by character. */
  lemma {:induction false} ReplayTag(rest: string)
    requires TagRest(rest) > 0
    ensures var n := TagRest(rest); var tag := "$" + rest[..n];
            Uncut(Opening("$"), rest[..n]) && Run(Opening("$"), rest[..n]) == InDollar(tag, []) && IsTag(tag)
  {
    RunOpening("$", rest);
    TagShape(rest);
    var n := TagRest(rest);
    var tag := "$" + rest[..n];
    assert forall k :: 1 <= k < |tag| ==> tag[k] == rest[k - 1];
  }

  lemma RunCons(r: State, c: char, w: string)
    requires !Cuts(r, c)
    ensures Run(r, [c] + w) == Run(Step(r, c), w) && (Uncut(r, [c] + w) <==> Uncut(Step(r, c), w))
  {
    assert ([c] + w)[1..] == w;
  }

  lemma {:induction false} ReplayOpening(r: State, s: string)
    requires s != [] && s[0] == '$' && Agree(r, Normal, s)
    ensures Replays(r, Normal, s)
  {
    assert Step(r, '$') == Opening("$");
    var rest := s[1..];
    var n := TagRest(rest);
    if n == 0 {
      assert s[..1] == ['$'];
      RunOne(r, '$');
    } else {
      assert s[..n + 1] == ['$'] + rest[..n];
      RunCons(r, '$', rest[..n]);
      ReplayTag(rest);
    }
  }

  lemma PrefixTail(a: string, b: string)
    requires a != [] && b != [] && a[0] == b[0]
    ensures a <= b <==> a[1..] <= b[1..]
  {
    assert a == [a[0]] + a[1..] && b == [b[0]] + b[1..];
  }

  /** `seen` is the start of a tag that the text ahead does not finish. */
  ghost predicate Unfinished(tag: string, seen: string, s: string) {
    seen != [] ==> seen < tag && !(tag[|seen|..] <= s)
  }

  lemma SeenStaysUnfinished(tag: string, seen: string, s: string)
    requires s != [] && Unfinished(tag, seen, s)
    ensures seen != [] ==> seen + [s[0]] != tag
    ensures seen != [] && seen + [s[0]] <= tag ==> Unfinished(tag, seen + [s[0]], s[1..])
  {
    var c := s[0];
    if seen != [] && seen + [c] <= tag {
      var left := tag[|seen|..];
      assert left != [] && left[0] == c;
      PrefixTail(left, s);
      assert tag[|seen + [c]|..] == left[1..];
    }
  }

  lemma TagStarts(tag: string, s: string)
    requires IsTag(tag) && tag <= s
    ensures s != [] && s[0] == '$' && tag == ['$'] + tag[1..] && tag[1..] != []
  {
    assert s[..|tag|] == tag;
  }

  lemma ClosingStarts(r: State, tag: string, s: string)
    requires s != [] && s[0] == '$' && Agree(r, Dollar(tag), s)
    ensures Step(r, '$') == InDollar(tag, "$") && !Cuts(r, '$')
  {
    SeenStaysUnfinished(tag, r.seen, s);
  }

  lemma {:induction false} ReplayClosing(r: State, tag: string, s: string)
    requires s != [] && tag <= s && Agree(r, Dollar(tag), s)
    ensures Replays(r, Dollar(tag), s)
  {
    TagStarts(tag, s);
    ClosingStarts(r, tag, s);
    RunClosing(tag, ['$'], tag[1..]);
    RunCons(r, '$', tag[1..]);
    assert s[..|tag|] == tag;
  }

  lemma {:induction false} ReplayBody(r: State, tag: string, s: string)
    requires s != [] && !(tag <= s) && Agree(r, Dollar(tag), s)
    ensures Replays(r, Dollar(tag), s)
  {
    assert s[..1] == [s[0]];
    RunOne(r, s[0]);
    SeenStaysUnfinished(tag, r.seen, s);
    if s[0] == '$' {
      PrefixTail(tag, s);
      assert tag[..1] == "$";
      assert Unfinished(tag, "$", s[1..]);
    }
  }

  /** The splitter and the reference lexer cut at the same places. */
  lemma {:induction false} Replay(r: State, mode: Mode, s: string, current: string)
    requires ValidMode(mode) && Agree(r, mode, s)
    ensures Pieces(mode, s, current) == ReferencePieces(r, s, current)
    decreases |s|
  {
    if s != [] {
      var t := NextToken(mode, s);
      if t.cut {
        Replay(Top, Normal, s[1..], []);
      } else {
        if mode.Dollar? {
          if mode.tag <= s {
            ReplayClosing(r, mode.tag, s);
          } else {
            ReplayBody(r, mode.tag, s);
          }
        } else if !mode.Normal? {
          ReplayQuoted(r, mode, s);
        } else if s[0] == '$' {
          ReplayOpening(r, s);
        } else {
          ReplayNormal(r, s);
        }
        var w, rest := s[..t.len], s[t.len..];
        assert s == w + rest;
        Consume(r, w, rest, current);
        Replay(Run(r, w), t.next, rest, current + w);
      }
    }
  }

  /** A semicolon of the script separates statements exactly when the reference lexer is at the top level. */
  lemma CutsAreTopLevelSemicolons(sql: string)
    ensures Pieces(Normal, sql, []) == ReferencePieces(Top, sql, [])
  {
    Replay(Top, Normal, sql, []);
  }

  lemma {:induction false} ReferenceIsLossless(r: State, s: string, current: string)
    ensures Join(ReferencePieces(r, s, current), ";") == current + s
    decreases |s|
  {
    if s != [] {
      assert [s[0]] + s[1..] == s;
      if Cuts(r, s[0]) {
        ReferenceIsLossless(Top, s[1..], []);
        var rest := ReferencePieces(Top, s[1..], []);
        assert rest != [] && ([current] + rest)[1..] == rest;
        assert current + ";" + s[1..] == current + s;
      } else {
        ReferenceIsLossless(Step(r, s[0]), s[1..], current + [s[0]]);
        assert current + [s[0]] + s[1..] == current + s;
      }
    }
  }

  /** Nothing is lost: the raw pieces joined by semicolons are the script. */
  lemma SplitIsLossless(sql: string)
    ensures Join(Pieces(Normal, sql, []), ";") == sql
  {
    CutsAreTopLevelSemicolons(sql);
    ReferenceIsLossless(Top, sql, []);
  }

  // ---------------------------------------------------------------- nothing but white space is dropped

  /** The characters that are not white space. */
  ghost function Ink(s: string): string {
    if s == [] then []
    else (if IsSpace(s[0]) then [] else [s[0]]) + Ink(s[1..])
  }

  lemma {:induction false} InkConcat(a: string, b: string)
    ensures Ink(a + b) == Ink(a) + Ink(b)
  {
    if a == [] {
      assert a + b == b;
    } else {
      InkConcat(a[1..], b);
      assert (a + b)[1..] == a[1..] + b;
    }
  }

  lemma {:induction false} InkBlank(s: string)
    requires Blank(s)
    ensures Ink(s) == []
  {
    if s != [] {
      InkBlank(s[1..]);
    }
  }

  lemma {:induction false} InkTrim(s: string)
    ensures Ink(Trim(s)) == Ink(s)
  {
    var lead, trail := TrimSplits(s);
    InkBlank(lead);
    InkBlank(trail);
    InkConcat(lead + Trim(s), trail);
    InkConcat(lead, Trim(s));
  }

  /** Written one after the other, without a separator. */
  ghost function Together(parts: seq<string>): string {
    if parts == [] then [] else parts[0] + Together(parts[1..])
  }

  lemma {:induction false} KeepKeepsInk(pieces: seq<string>)
    ensures Ink(Together(Keep(pieces))) == Ink(Together(pieces))
  {
    if pieces != [] {
      var piece, rest := pieces[0], pieces[1..];
      KeepKeepsInk(rest);
      InkTrim(piece);
      InkConcat(piece, Together(rest));
      InkConcat(Trim(piece), Together(Keep(rest)));
      if Trim(piece) != [] {
        assert ([Trim(piece)] + Keep(rest))[1..] == Keep(rest);
      } else {
        assert [] + Keep(rest) == Keep(rest);
      }
    }
  }

  /** The statements hold everything that is not white space and not a top-level semicolon, in order. */
  lemma {:induction false} StatementsKeepInk(sql: string)
    ensures Ink(Together(Statements(sql))) == Ink(Together(ReferencePieces(Top, sql, [])))
  {
    CutsAreTopLevelSemicolons(sql);
    KeepKeepsInk(Pieces(Normal, sql, []));
  }

  /** How many of the pieces are not blank. */
  ghost function Inked(pieces: seq<string>): nat {
    if pieces == [] then 0 else (if Ink(pieces[0]) != [] then 1 else 0) + Inked(pieces[1..])
  }

  lemma {:induction false} NoInkIsBlank(s: string)
    ensures Ink(s) == [] <==> Blank(s)
  {
    if s != [] {
      NoInkIsBlank(s[1..]);
      assert s == [s[0]] + s[1..];
    }
  }

  lemma {:induction false} TrimmedAway(s: string)
    ensures Trim(s) == [] <==> Ink(s) == []
  {
    InkTrim(s);
    NoInkIsBlank(s);
    if Blank(s) {
      TrimBlank(s);
    }
  }

  lemma {:induction false} KeepCounts(pieces: seq<string>)
    ensures |Keep(pieces)| == Inked(pieces)
  {
    if pieces != [] {
      KeepCounts(pieces[1..]);
      TrimmedAway(pieces[0]);
    }
  }

  /** And there are as many of them as there are pieces that are not blank. */
  lemma {:induction false} StatementsCount(sql: string)
    ensures |Statements(sql)| == Inked(ReferencePieces(Top, sql, []))
  {
    CutsAreTopLevelSemicolons(sql);
    KeepCounts(Pieces(Normal, sql, []));
  }
}
