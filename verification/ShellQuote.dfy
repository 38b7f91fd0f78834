/**
 * Shell quoting of the monitor command, and whether the permission patterns that are
 * generated from the same pin let that command through.
 */
module ShellQuote {
  import opened Prelude

  // ---------- quoting ----------

  predicate Safe(c: char) {
    || 'A' <= c <= 'Z' || 'a' <= c <= 'z' || '0' <= c <= '9'
    || c in {'_', '.', '/', ':', '=', '@', '%', '+', '-'}
  }

  predicate AllSafe(s: string) {
    forall c <- s :: Safe(c)
  }

  function QuoteToken(token: string): string {
    if token == "" then "''"
    else if AllSafe(token) then token
    else Quoted(token)
  }

  function Quoted(token: string): string {
    "'" + ReplaceChar(token, '\'', "'\\''") + "'"
  }

  function QuoteCommandTokens(tokens: seq<string>): string {
    if tokens == [] then ""
    else if |tokens| == 1 then QuoteToken(tokens[0])
    else QuoteToken(tokens[0]) + " " + QuoteCommandTokens(tokens[1..])
  }

  /** Where the next single quote stands, the length when there is none. */
  function QuoteAt(s: string): (i: nat)
    ensures i <= |s| && '\'' !in s[..i] && (i < |s| ==> s[i] == '\'')
  {
    if s == "" || s[0] == '\'' then 0
    else
      var i := 1 + QuoteAt(s[1..]);
      assert s[..i] == [s[0]] + s[1..][..i - 1];
      i
  }

  function Grown(field: Option<string>, more: string): Option<string> {
    Some((if field.Some? then field.value else "") + more)
  }

  lemma GrownTwice(field: Option<string>, first: string, second: string)
    ensures Grown(Grown(field, first), second) == Grown(field, first + second)
  {
    var start := if field.Some? then field.value else "";
    assert start + first + second == start + (first + second);
  }

  lemma {:induction false} QuoteAtFirst(piece: string, rest: string)
    requires '\'' !in piece
    ensures QuoteAt(piece + "'" + rest) == |piece|
  {
    if piece != "" {
      QuoteAtFirst(piece[1..], rest);
      assert (piece + "'" + rest)[1..] == piece[1..] + "'" + rest;
    }
  }

  /**
   * The fields a POSIX shell reads (IEEE Std 1003.1-2017, XCU sections 2.2.1 and 2.2.2):
   * a backslash keeps the next character, single quotes keep everything up to the next
   * single quote, blanks separate. None when a quote is left open, or when a character
   * stands unquoted that the shell may give a meaning of its own.
   */
  function Fields(s: string, field: Option<string>): Option<seq<string>>
    decreases |s|
  {
    if s == "" then Some(if field.Some? then [field.value] else [])
    else if s[0] == ' ' then
      var rest := Fields(s[1..], None);
      if rest.Some? && field.Some? then Some([field.value] + rest.value) else rest
    else if s[0] == '\'' then
      var end := 1 + QuoteAt(s[1..]);
      if end < |s| then Fields(s[end + 1..], Grown(field, s[1..end])) else None
    else if s[0] == '\\' then
      if |s| >= 2 && s[1] != '\n' then Fields(s[2..], Grown(field, [s[1]])) else None
    else if Safe(s[0]) then Fields(s[1..], Grown(field, [s[0]]))
    else None
  }

  lemma {:induction false} SafeRun(token: string, rest: string, field: Option<string>)
    requires AllSafe(token) && token != ""
    ensures Fields(token + rest, field) == Fields(rest, Grown(field, token))
  {
    assert token[0] in token && Safe(token[0]);
    assert (token + rest)[1..] == token[1..] + rest;
    if |token| > 1 {
      var more := Grown(field, [token[0]]);
      SafeRun(token[1..], rest, more);
      GrownTwice(field, [token[0]], token[1..]);
      assert token == [token[0]] + token[1..];
    } else {
      assert token == [token[0]] && token[1..] + rest == rest;
    }
  }

  lemma {:induction false} ReplaceSplit(token: string, i: nat)
    requires i <= |token| && '\'' !in token[..i] && (i < |token| ==> token[i] == '\'')
    ensures ReplaceChar(token, '\'', "'\\''")
         == token[..i] + if i < |token| then "'\\''" + ReplaceChar(token[i + 1..], '\'', "'\\''") else ""
  {
    if i > 0 {
      assert token[0] in token[..i];
      assert token[1..][..i - 1] == token[1..i];
      assert '\'' !in token[1..i] by {
        assert forall c :: c in token[1..i] ==> c in token[..i];
      }
      ReplaceSplit(token[1..], i - 1);
      assert token[..i] == [token[0]] + token[1..][..i - 1];
    }
  }

  /** One quoted piece, up to its closing quote. */
  lemma QuotedPiece(piece: string, rest: string, field: Option<string>)
    requires '\'' !in piece
    ensures Fields("'" + piece + "'" + rest, field) == Fields(rest, Grown(field, piece))
  {
    var s := "'" + piece + "'" + rest;
    QuoteAtFirst(piece, rest);
    assert s[1..] == piece + "'" + rest;
    assert s[1..|piece| + 1] == piece && s[|piece| + 2..] == rest;
  }

  /** A quoted piece followed by a quote of its own, the way quoteToken writes it. */
  lemma EscapedQuote(piece: string, tail: string, field: Option<string>)
    requires '\'' !in piece
    ensures Fields("'" + piece + "'" + ("\\'" + tail), field) == Fields(tail, Grown(field, piece + "'"))
  {
    QuotedPiece(piece, "\\'" + tail, field);
    assert ("\\'" + tail)[2..] == tail;
    GrownTwice(field, piece, "'");
  }

  /** A quoted token up to its first single quote, and from there on. */
  lemma QuotedSplit(token: string, i: nat, rest: string)
    requires i < |token| && '\'' !in token[..i] && token[i] == '\''
    ensures Quoted(token) + rest == "'" + token[..i] + "'" + ("\\'" + (Quoted(token[i + 1..]) + rest))
  {
    ReplaceSplit(token, i);
  }

  lemma QuotedWhole(token: string, rest: string)
    requires '\'' !in token
    ensures Quoted(token) + rest == "'" + token + "'" + rest
  {
    assert token[..|token|] == token;
    ReplaceSplit(token, |token|);
  }

  lemma QuotedStep(token: string, i: nat, rest: string, field: Option<string>)
    requires i < |token| && '\'' !in token[..i] && token[i] == '\''
    ensures Fields(Quoted(token) + rest, field) == Fields(Quoted(token[i + 1..]) + rest, Grown(field, token[..i] + "'"))
  {
    QuotedSplit(token, i, rest);
    EscapedQuote(token[..i], Quoted(token[i + 1..]) + rest, field);
  }

  lemma {:induction false} QuotedRun(token: string, rest: string, field: Option<string>)
    ensures Fields(Quoted(token) + rest, field) == Fields(rest, Grown(field, token))
    decreases |token|
  {
    var i := QuoteAt(token);
    if i == |token| {
      assert token[..i] == token;
      QuotedWhole(token, rest);
      QuotedPiece(token, rest, field);
    } else {
      var head, tail := token[..i] + "'", token[i + 1..];
      QuotedStep(token, i, rest, field);
      QuotedRun(tail, rest, Grown(field, head));
      GrownTwice(field, head, tail);
      assert token == head + tail;
    }
  }

  lemma TokenRun(token: string, rest: string)
    ensures Fields(QuoteToken(token) + rest, None) == Fields(rest, Some(token))
  {
    assert Grown(None, token) == Some(token) by {
      assert "" + token == token;
    }
    if token == "" {
      QuotedPiece("", rest, None);
      assert "''" + rest == "'" + "" + "'" + rest;
    } else if AllSafe(token) {
      SafeRun(token, rest, None);
    } else {
      QuotedRun(token, rest, None);
    }
  }

  /** The shell reads back exactly the tokens that were quoted, whatever they hold. */
  lemma {:induction false} FieldsOfQuoted(tokens: seq<string>)
    ensures Fields(QuoteCommandTokens(tokens), None) == Some(tokens)
  {
    if |tokens| == 1 {
      TokenRun(tokens[0], "");
      assert QuoteToken(tokens[0]) + "" == QuoteToken(tokens[0]) && [tokens[0]] == tokens;
    } else if |tokens| > 1 {
      var rest := " " + QuoteCommandTokens(tokens[1..]);
      TokenRun(tokens[0], rest);
      assert rest[1..] == QuoteCommandTokens(tokens[1..]);
      FieldsOfQuoted(tokens[1..]);
      assert QuoteCommandTokens(tokens) == QuoteToken(tokens[0]) + rest;
      assert [tokens[0]] + tokens[1..] == tokens;
    }
  }

  // ---------- patterns ----------

  /** globPatternToRegExp: `*` stands for any characters, everything else for itself, anchored at both ends. */
  predicate Matches(pattern: string, text: string)
    decreases |pattern| + |text|
  {
    if pattern == "" then text == ""
    else if pattern[0] == '*' then Matches(pattern[1..], text) || (text != "" && Matches(pattern, text[1..]))
    else text != "" && text[0] == pattern[0] && Matches(pattern[1..], text[1..])
  }

  function Stars(pattern: string): nat {
    if pattern == "" then 0 else (if pattern[0] == '*' then 1 else 0) + Stars(pattern[1..])
  }

  /** The pattern with the i-th star replaced by the i-th gap. */
  function Fill(pattern: string, gaps: seq<string>): string
    requires |gaps| == Stars(pattern)
  {
    if pattern == "" then ""
    else if pattern[0] == '*' then gaps[0] + Fill(pattern[1..], gaps[1..])
    else [pattern[0]] + Fill(pattern[1..], gaps)
  }

  lemma {:induction false} StarTakes(pattern: string, gap: string, text: string)
    requires pattern != "" && pattern[0] == '*' && Matches(pattern[1..], text)
    ensures Matches(pattern, gap + text)
  {
    if gap == "" {
      assert gap + text == text;
    } else {
      StarTakes(pattern, gap[1..], text);
      assert (gap + text)[1..] == gap[1..] + text;
    }
  }

  lemma {:induction false} FilledMatches(pattern: string, gaps: seq<string>)
    requires |gaps| == Stars(pattern)
    ensures Matches(pattern, Fill(pattern, gaps))
  {
    if pattern != "" {
      if pattern[0] == '*' {
        FilledMatches(pattern[1..], gaps[1..]);
        StarTakes(pattern, gaps[0], Fill(pattern[1..], gaps[1..]));
      } else {
        FilledMatches(pattern[1..], gaps);
        assert Fill(pattern, gaps)[1..] == Fill(pattern[1..], gaps);
      }
    }
  }

  lemma {:induction false} MatchFills(pattern: string, text: string) returns (gaps: seq<string>)
    requires Matches(pattern, text)
    ensures |gaps| == Stars(pattern) && text == Fill(pattern, gaps)
    decreases |pattern| + |text|
  {
    if pattern == "" {
      gaps := [];
    } else if pattern[0] != '*' {
      gaps := MatchFills(pattern[1..], text[1..]);
      assert text == [text[0]] + text[1..];
    } else if Matches(pattern[1..], text) {
      var rest := MatchFills(pattern[1..], text);
      gaps := [""] + rest;
      assert gaps[1..] == rest && "" + text == text;
    } else {
      var rest := MatchFills(pattern, text[1..]);
      gaps := [[text[0]] + rest[0]] + rest[1..];
      assert gaps[1..] == rest[1..];
      assert text == [text[0]] + text[1..];
    }
  }

  /** A text matches exactly when putting some text for each star gives it. */
  lemma MatchesIffFills(pattern: string, text: string)
    ensures Matches(pattern, text)
       <==> exists gaps: seq<string> :: |gaps| == Stars(pattern) && Fill(pattern, gaps) == text
  {
    if Matches(pattern, text) {
      var gaps := MatchFills(pattern, text);
      assert Fill(pattern, gaps) == text;
    }
    forall gaps: seq<string> | |gaps| == Stars(pattern) && Fill(pattern, gaps) == text ensures Matches(pattern, text) {
      FilledMatches(pattern, gaps);
    }
  }

  lemma {:induction false} SelfMatch(pattern: string)
    ensures Matches(pattern, pattern)
  {
    if pattern != "" {
      SelfMatch(pattern[1..]);
      if pattern[0] == '*' {
        StarTakes(pattern, "*", pattern[1..]);
        assert "*" + pattern[1..] == pattern;
      }
    }
  }

  lemma {:induction false} MatchConcat(p: string, s: string, q: string, t: string)
    requires Matches(p, s) && Matches(q, t)
    ensures Matches(p + q, s + t)
    decreases |p| + |s|
  {
    if p == "" {
      assert p + q == q && s + t == t;
    } else {
      assert (p + q)[1..] == p[1..] + q;
      if p[0] != '*' {
        MatchConcat(p[1..], s[1..], q, t);
        assert (s + t)[1..] == s[1..] + t;
      } else if Matches(p[1..], s) {
        MatchConcat(p[1..], s, q, t);
      } else {
        MatchConcat(p, s[1..], q, t);
        assert (s + t)[1..] == s[1..] + t;
      }
    }
  }

  lemma {:induction false} LiteralHead(head: string, pattern: string, text: string)
    requires '*' !in head
    ensures Matches(head + pattern, text) <==> head <= text && Matches(pattern, text[|head|..])
  {
    if head == "" {
      assert head + pattern == pattern && text[0..] == text;
    } else {
      assert head[0] in head;
      assert (head + pattern)[1..] == head[1..] + pattern;
      if text != "" && text[0] == head[0] {
        LiteralHead(head[1..], pattern, text[1..]);
        assert |head| <= |text| ==> text[1..][|head| - 1..] == text[|head|..];
        assert head[1..] <= text[1..] <==> head <= text;
      }
    }
  }

  ghost predicate MatchesFrom(pattern: string, text: string, k: nat) {
    k <= |text| && Matches(pattern, text[k..])
  }

  lemma {:induction false} LeadingStar(pattern: string, text: string)
    ensures Matches("*" + pattern, text) <==> exists k: nat :: MatchesFrom(pattern, text, k)
    decreases |text|
  {
    assert ("*" + pattern)[1..] == pattern && text[0..] == text;
    if Matches(pattern, text) {
      assert MatchesFrom(pattern, text, 0);
    } else if text != "" {
      LeadingStar(pattern, text[1..]);
      forall k: nat ensures MatchesFrom(pattern, text[1..], k) == MatchesFrom(pattern, text, k + 1) {
        assert k <= |text| - 1 ==> text[1..][k..] == text[k + 1..];
      }
      if k: nat :| MatchesFrom(pattern, text, k) {
        assert MatchesFrom(pattern, text[1..], k - 1);
      }
    }
  }

  ghost predicate OccursAt(word: string, text: string, k: nat) {
    k + |word| <= |text| && text[k..k + |word|] == word
  }

  ghost predicate Occurs(word: string, text: string) {
    exists k: nat :: OccursAt(word, text, k)
  }

  ghost predicate EndsWith(text: string, word: string) {
    |word| <= |text| && text[|text| - |word|..] == word
  }
}
