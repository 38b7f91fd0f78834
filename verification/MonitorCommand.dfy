/**
 * The monitor command built from a pinned installation, against the allow patterns of the
 * same pin and the supervisor's deny list.
 */
module MonitorCommand {
  import opened Prelude
  import opened ShellQuote

  // ---------- building ----------

  predicate UlidChar(c: char) {
    '0' <= c <= '9' || ('A' <= c <= 'Z' && c !in {'I', 'L', 'O', 'U'})
  }

  predicate ValidRunId(id: string) {
    |id| == 26 && forall c <- id :: UlidChar(c)
  }

  predicate ValidNotificationId(id: string) {
    |id| == 47 && id[20] == '-' && (forall c <- id[..20] :: '0' <= c <= '9') && ValidRunId(id[21..])
  }

  /** What a path must not hold. */
  const FORBIDDEN: set<char> := {';', '&', '|', '<', '>', '$', '`', '\\', '\r', '\n', '\''}

  predicate SupportedPath(path: string) {
    forall c <- path :: c !in FORBIDDEN
  }

  predicate Letter(c: char) {
    'a' <= c <= 'z' || 'A' <= c <= 'Z'
  }

  /** An absolute path, on Windows with its backslashes already turned around. */
  predicate AbsolutePath(path: string) {
    path != "" && (path[0] == '/' || (|path| >= 3 && Letter(path[0]) && path[1] == ':' && path[2] == '/'))
  }

  datatype Build = Built(command: string) | NotJsonLine | UnsafeRunId | UnsafeNotificationId

  function PrefixString(node: string, bin: string): string {
    QuoteCommandTokens([node, bin])
  }

  /** An empty cursor is no cursor. */
  function Arguments(runId: string, since: string): seq<string> {
    ["monitor", runId, "--json-line"] + if since != "" then ["--since", since] else []
  }

  function BuildMonitorBashCommand(node: string, bin: string, runId: string, jsonLine: bool, since: string): Build {
    if !jsonLine then NotJsonLine
    else if !ValidRunId(runId) then UnsafeRunId
    else if since != "" && !ValidNotificationId(since) then UnsafeNotificationId
    else
      Built(QuoteCommandTokens([node, bin] + Arguments(runId, since)))
  }

  function AllowPatterns(node: string, bin: string): seq<string> {
    ["Bash(" + PrefixString(node, bin) + " monitor * --json-line)",
     "Bash(" + PrefixString(node, bin) + " monitor * --json-line --since *)"]
  }

  /** The part of the command behind the pinned prefix. */
  function Tail(runId: string, since: string): string {
    "monitor " + runId + " --json-line" + if since != "" then " --since " + since else ""
  }

  ghost predicate Ids(runId: string, since: string) {
    ValidRunId(runId) && (since == "" || ValidNotificationId(since))
  }

  lemma IdsAreSafe(runId: string, since: string)
    requires Ids(runId, since)
    ensures SafeToken(runId) && (since != "" ==> SafeToken(since))
  {
    assert forall c :: UlidChar(c) ==> Safe(c);
    if since != "" {
      assert since == since[..20] + "-" + since[21..];
      assert forall c <- since :: Safe(c);
    }
  }

  lemma QuoteCons(first: string, rest: seq<string>)
    requires rest != []
    ensures QuoteCommandTokens([first] + rest) == QuoteToken(first) + " " + QuoteCommandTokens(rest)
  {
    assert ([first] + rest)[1..] == rest;
  }

  ghost predicate SafeToken(token: string) {
    token != "" && AllSafe(token)
  }

  lemma QuoteThree(a: string, b: string, c: string)
    requires SafeToken(a) && SafeToken(b) && SafeToken(c)
    ensures QuoteCommandTokens([a, b, c]) == a + " " + (b + " " + c)
  {
    QuoteCons(a, [b, c]);
    QuoteCons(b, [c]);
    assert [a] + [b, c] == [a, b, c] && [b] + [c] == [b, c];
  }

  lemma QuoteFive(a: string, b: string, c: string, d: string, e: string)
    requires SafeToken(a) && SafeToken(b) && SafeToken(c) && SafeToken(d) && SafeToken(e)
    ensures QuoteCommandTokens([a, b, c, d, e]) == a + " " + (b + " " + (c + " " + (d + " " + e)))
  {
    QuoteCons(a, [b, c, d, e]);
    QuoteCons(b, [c, d, e]);
    QuoteThree(c, d, e);
    assert [a] + [b, c, d, e] == [a, b, c, d, e] && [b] + [c, d, e] == [b, c, d, e];
  }

  lemma TailIsQuoted(runId: string, since: string)
    requires Ids(runId, since)
    ensures QuoteCommandTokens(Arguments(runId, since)) == Tail(runId, since)
  {
    IdsAreSafe(runId, since);
    assert SafeToken("monitor") && SafeToken("--json-line") && SafeToken("--since");
    if since != "" {
      QuoteFive("monitor", runId, "--json-line", "--since", since);
      assert Arguments(runId, since) == ["monitor", runId, "--json-line", "--since", since];
      TailWithCursor(runId, since);
    } else {
      QuoteThree("monitor", runId, "--json-line");
      assert Arguments(runId, since) == ["monitor", runId, "--json-line"];
      TailWithoutCursor(runId);
    }
  }

  lemma TailWithCursor(runId: string, since: string)
    requires since != ""
    ensures Tail(runId, since) == "monitor" + " " + (runId + " " + ("--json-line" + " " + ("--since" + " " + since)))
  {
    assert "monitor" + " " == "monitor ";
    assert " " + "--json-line" == " --json-line";
    assert " " + "--since" + " " == " --since ";
  }

  lemma TailWithoutCursor(runId: string)
    ensures Tail(runId, "") == "monitor" + " " + (runId + " " + "--json-line")
  {
    assert "monitor" + " " == "monitor ";
    assert " " + "--json-line" == " --json-line";
  }

  lemma QuotePrefixed(node: string, bin: string, rest: seq<string>)
    requires rest != []
    ensures QuoteCommandTokens([node, bin] + rest) == PrefixString(node, bin) + " " + QuoteCommandTokens(rest)
  {
    QuoteCons(node, [bin]);
    assert [node] + [bin] == [node, bin];
    QuoteTwo(node, bin, rest);
    JoinFour(QuoteToken(node), QuoteToken(bin), QuoteCommandTokens(rest));
  }

  lemma QuoteTwo(node: string, bin: string, rest: seq<string>)
    requires rest != []
    ensures QuoteCommandTokens([node, bin] + rest)
         == QuoteToken(node) + " " + (QuoteToken(bin) + " " + QuoteCommandTokens(rest))
  {
    QuoteCons(bin, rest);
    QuoteCons(node, [bin] + rest);
    assert [node] + ([bin] + rest) == [node, bin] + rest;
  }

  lemma JoinFour(a: string, b: string, c: string)
    ensures a + " " + (b + " " + c) == a + " " + b + " " + c
  {
  }

  lemma CommandShape(node: string, bin: string, runId: string, since: string)
    requires Ids(runId, since)
    ensures BuildMonitorBashCommand(node, bin, runId, true, since)
         == Built(PrefixString(node, bin) + " " + Tail(runId, since))
  {
    TailIsQuoted(runId, since);
    QuotePrefixed(node, bin, Arguments(runId, since));
  }

  /** What the builder accepts is read back by a shell as the argument list it was built from. */
  lemma BuiltCommandReadsBack(node: string, bin: string, runId: string, since: string)
    requires Ids(runId, since)
    ensures var r := BuildMonitorBashCommand(node, bin, runId, true, since);
      && r.Built?
      && Fields(r.command, None)
         == Some([node, bin, "monitor", runId, "--json-line"] + if since == "" then [] else ["--since", since])
  {
    FieldsOfQuoted([node, bin] + Arguments(runId, since));
    assert [node, bin] + Arguments(runId, since)
        == [node, bin, "monitor", runId, "--json-line"] + if since == "" then [] else ["--since", since];
  }

  /** The builder accepts exactly JSON lines, a ULID and a notification id or none, and names the first that is not. */
  lemma BuiltIff(node: string, bin: string, runId: string, jsonLine: bool, since: string)
    ensures var r := BuildMonitorBashCommand(node, bin, runId, jsonLine, since);
      && (r.Built? <==> jsonLine && Ids(runId, since))
      && (r == NotJsonLine <==> !jsonLine)
      && (r == UnsafeRunId <==> jsonLine && !ValidRunId(runId))
      && (r == UnsafeNotificationId <==> jsonLine && ValidRunId(runId) && !Ids(runId, since))
  {
  }

  // ---------- allowing ----------

  function Invocation(command: string): string {
    "Bash(" + command + ")"
  }

  lemma StarMatches(text: string)
    ensures Matches("*", text)
  {
    assert Matches("", "");
    StarTakes("*", text, "");
    assert text + "" == text;
  }

  lemma OneStar(head: string, gap: string, end: string)
    ensures Matches(head + "*" + end, head + gap + end)
  {
    SelfMatch(head);
    StarMatches(gap);
    SelfMatch(end);
    MatchConcat(head, head, "*", gap);
    MatchConcat(head + "*", head + gap, end, end);
  }

  lemma TwoStars(head: string, gap: string, mid: string, gap': string, end: string)
    ensures Matches(head + "*" + mid + "*" + end, head + gap + mid + gap' + end)
  {
    OneStar(head, gap, mid);
    StarMatches(gap');
    SelfMatch(end);
    MatchConcat(head + "*" + mid, head + gap + mid, "*", gap');
    MatchConcat(head + "*" + mid + "*", head + gap + mid + gap', end, end);
  }

  lemma AllowShapes(prefix: string)
    ensures "Bash(" + prefix + " monitor * --json-line)"
         == "Bash(" + prefix + " monitor " + "*" + " --json-line)"
    ensures "Bash(" + prefix + " monitor * --json-line --since *)"
         == "Bash(" + prefix + " monitor " + "*" + " --json-line --since " + "*" + ")"
  {
    assert " monitor " + "*" + " --json-line)" == " monitor * --json-line)";
    assert " monitor " + "*" + " --json-line --since " + "*" + ")" == " monitor * --json-line --since *)";
  }

  lemma InvocationShapes(prefix: string, runId: string, since: string)
    ensures Invocation(prefix + " " + Tail(runId, since))
         == if since == "" then "Bash(" + prefix + " monitor " + runId + " --json-line)"
            else "Bash(" + prefix + " monitor " + runId + " --json-line --since " + since + ")"
  {
    assert " " + "monitor " == " monitor ";
    assert " --json-line" + ")" == " --json-line)";
    assert " --json-line" + " --since " == " --json-line --since ";
  }

  lemma AllowedByOwnPin(node: string, bin: string, runId: string, since: string)
    requires Ids(runId, since)
    ensures exists p <- AllowPatterns(node, bin) ::
              Matches(p, Invocation(PrefixString(node, bin) + " " + Tail(runId, since)))
  {
    var prefix := PrefixString(node, bin);
    var patterns := AllowPatterns(node, bin);
    AllowShapes(prefix);
    InvocationShapes(prefix, runId, since);
    if since == "" {
      OneStar("Bash(" + prefix + " monitor ", runId, " --json-line)");
      assert patterns[0] in patterns;
    } else {
      TwoStars("Bash(" + prefix + " monitor ", runId, " --json-line --since ", since, ")");
      assert patterns[1] in patterns;
    }
  }

  lemma LiteralOnly(pattern: string, text: string)
    requires '*' !in pattern
    ensures Matches(pattern, text) <==> text == pattern
  {
    LiteralHead(pattern, "", text);
    assert pattern + "" == pattern;
    assert pattern <= text && text[|pattern|..] == "" ==> text == pattern;
  }

  /** A star takes some text, and the rest of the pattern what follows. */
  lemma StarSplits(pattern: string, text: string) returns (gap: string, rest: string)
    requires Matches("*" + pattern, text)
    ensures text == gap + rest && Matches(pattern, rest)
  {
    LeadingStar(pattern, text);
    var k: nat :| MatchesFrom(pattern, text, k);
    gap, rest := text[..k], text[k..];
  }

  lemma OneStarOnly(head: string, end: string, text: string) returns (gap: string)
    requires '*' !in head && '*' !in end && Matches(head + "*" + end, text)
    ensures text == head + gap + end
  {
    assert head + "*" + end == head + ("*" + end);
    LiteralHead(head, "*" + end, text);
    var rest;
    gap, rest := StarSplits(end, text[|head|..]);
    LiteralOnly(end, rest);
  }

  lemma TwoStarsOnly(head: string, mid: string, end: string, text: string) returns (gap: string, gap': string)
    requires '*' !in head && '*' !in mid && '*' !in end && Matches(head + "*" + mid + "*" + end, text)
    ensures text == head + gap + mid + gap' + end
  {
    assert head + "*" + mid + "*" + end == head + ("*" + (mid + "*" + end));
    LiteralHead(head, "*" + (mid + "*" + end), text);
    var rest;
    gap, rest := StarSplits(mid + "*" + end, text[|head|..]);
    gap' := OneStarOnly(mid, end, rest);
    assert text == head + (gap + (mid + gap' + end));
  }

  lemma InvocationInjective(a: string, b: string)
    ensures Invocation(a) == Invocation(b) <==> a == b
  {
    assert Invocation(a)[5..5 + |a|] == a && Invocation(b)[5..5 + |b|] == b;
  }

  /** A monitor command of the pinned prefix, whatever stands for its ids. */
  ghost predicate MonitorShaped(prefix: string, command: string) {
    || (exists id :: command == prefix + " monitor " + id + " --json-line")
    || (exists id, since :: command == prefix + " monitor " + id + " --json-line --since " + since)
  }

  lemma ThreeParts(head: string, x: string, end: string)
    ensures Invocation(head + x + end) == "Bash(" + head + x + (end + ")")
  {
    assert "Bash(" + (head + x + end) == "Bash(" + head + x + end;
  }

  lemma OneStarFound(head: string, end: string, command: string) returns (x: string)
    requires '*' !in head && '*' !in end && Matches("Bash(" + head + "*" + (end + ")"), Invocation(command))
    ensures command == head + x + end
  {
    assert '*' !in "Bash(" && '*' !in ")";
    x := OneStarOnly("Bash(" + head, end + ")", Invocation(command));
    ThreeParts(head, x, end);
    InvocationInjective(command, head + x + end);
  }

  /** With some text for its one star, or its two, a pattern is the invocation of a command. */
  lemma OneStarIff(head: string, end: string, command: string)
    requires '*' !in head && '*' !in end
    ensures Matches("Bash(" + head + "*" + (end + ")"), Invocation(command)) <==> exists x :: command == head + x + end
  {
    if Matches("Bash(" + head + "*" + (end + ")"), Invocation(command)) {
      var x := OneStarFound(head, end, command);
    }
    if x :| command == head + x + end {
      OneStar("Bash(" + head, x, end + ")");
      ThreeParts(head, x, end);
    }
  }

  lemma FourParts(head: string, x: string, mid: string, y: string)
    ensures Invocation(head + x + mid + y) == "Bash(" + head + x + mid + y + ")"
  {
    assert "Bash(" + (head + x + mid + y) == "Bash(" + head + x + mid + y;
  }

  lemma TwoStarsFound(head: string, mid: string, command: string) returns (x: string, y: string)
    requires '*' !in head && '*' !in mid && Matches("Bash(" + head + "*" + mid + "*" + ")", Invocation(command))
    ensures command == head + x + mid + y
  {
    assert '*' !in "Bash(" && '*' !in ")";
    x, y := TwoStarsOnly("Bash(" + head, mid, ")", Invocation(command));
    FourParts(head, x, mid, y);
    InvocationInjective(command, head + x + mid + y);
  }

  lemma TwoStarsIff(head: string, mid: string, command: string)
    requires '*' !in head && '*' !in mid
    ensures Matches("Bash(" + head + "*" + mid + "*" + ")", Invocation(command))
       <==> exists x, y :: command == head + x + mid + y
  {
    if Matches("Bash(" + head + "*" + mid + "*" + ")", Invocation(command)) {
      var x, y := TwoStarsFound(head, mid, command);
    }
    if x, y :| command == head + x + mid + y {
      TwoStars("Bash(" + head, x, mid, y, ")");
      FourParts(head, x, mid, y);
    }
  }

  lemma AllowShapesOf(prefix: string)
    ensures "Bash(" + prefix + " monitor * --json-line)"
         == "Bash(" + (prefix + " monitor ") + "*" + (" --json-line" + ")")
    ensures "Bash(" + prefix + " monitor * --json-line --since *)"
         == "Bash(" + (prefix + " monitor ") + "*" + " --json-line --since " + "*" + ")"
  {
    AllowShapes(prefix);
    assert " --json-line" + ")" == " --json-line)";
  }

  /** The allow patterns of a pin without stars let through exactly the monitor commands of its prefix. */
  lemma AllowedIff(node: string, bin: string, command: string)
    requires '*' !in PrefixString(node, bin)
    ensures (exists p <- AllowPatterns(node, bin) :: Matches(p, Invocation(command)))
       <==> MonitorShaped(PrefixString(node, bin), command)
  {
    var patterns, head := AllowPatterns(node, bin), PrefixString(node, bin) + " monitor ";
    AllowShapesOf(PrefixString(node, bin));
    assert '*' !in " monitor " && '*' !in " --json-line" && '*' !in " --json-line --since ";
    OneStarIff(head, " --json-line", command);
    TwoStarsIff(head, " --json-line --since ", command);
    assert patterns[0] in patterns && patterns[1] in patterns;
  }

  // ---------- denying ----------

  /** The three shapes of the deny list's Bash patterns. */
  datatype Deny = Anywhere(word: string) | AtEnd(word: string) | AtStart(head: string, open: bool)

  function Pattern(d: Deny): string {
    match d
    case Anywhere(word) => "Bash(*" + word + "*)"
    case AtEnd(word) => "Bash(*" + word + ")"
    case AtStart(head, open) => "Bash(" + head + (if open then "*" else "") + ")"
  }

  lemma AfterBash(pattern: string, command: string)
    ensures Matches("Bash(" + pattern, Invocation(command)) <==> Matches(pattern, command + ")")
  {
    assert '*' !in "Bash(";
    LiteralHead("Bash(", pattern, Invocation(command));
    assert Invocation(command)[5..] == command + ")";
  }

  lemma CloseOnly(text: string)
    ensures Matches(")", text) <==> text == ")"
  {
    if text != "" {
      assert ")"[1..] == "" && (text[1..] == "" <==> |text| == 1);
    }
  }

  lemma StarClose(text: string)
    ensures Matches("*)", text) <==> EndsWith(text, ")")
  {
    LeadingStar(")", text);
    assert "*" + ")" == "*)";
    forall k: nat ensures MatchesFrom(")", text, k) <==> k <= |text| && text[k..] == ")" {
      if k <= |text| {
        CloseOnly(text[k..]);
      }
    }
    if EndsWith(text, ")") {
      assert MatchesFrom(")", text, |text| - 1);
    }
  }

  lemma AnywhereAt(word: string, command: string, k: nat)
    requires '*' !in word
    ensures MatchesFrom(word + "*)", command + ")", k) <==> OccursAt(word, command, k)
  {
    var text := command + ")";
    if k <= |text| {
      LiteralHead(word, "*)", text[k..]);
      if k + |word| <= |text| {
        StarClose(text[k + |word|..]);
        assert text[k..][|word|..] == text[k + |word|..];
        assert word <= text[k..] <==> text[k..k + |word|] == word;
        assert k + |word| <= |command| ==> text[k..k + |word|] == command[k..k + |word|];
        assert EndsWith(text[k + |word|..], ")") <==> k + |word| <= |command|;
      }
    }
  }

  /** `Bash(*w*)` matches exactly the commands that hold w. */
  lemma AnywhereIff(word: string, command: string)
    requires '*' !in word
    ensures Matches(Pattern(Anywhere(word)), Invocation(command)) <==> Occurs(word, command)
  {
    assert Pattern(Anywhere(word)) == "Bash(" + ("*" + (word + "*)"));
    AfterBash("*" + (word + "*)"), command);
    LeadingStar(word + "*)", command + ")");
    forall k: nat ensures MatchesFrom(word + "*)", command + ")", k) <==> OccursAt(word, command, k) {
      AnywhereAt(word, command, k);
    }
  }

  lemma AtEndAt(word: string, command: string, k: nat)
    requires '*' !in word
    ensures MatchesFrom(word + ")", command + ")", k) <==> k + |word| == |command| && command[k..] == word
  {
    var text := command + ")";
    if k <= |text| {
      LiteralHead(word, ")", text[k..]);
      if k + |word| <= |text| {
        CloseOnly(text[k + |word|..]);
        assert text[k..][|word|..] == text[k + |word|..];
        assert word <= text[k..] <==> text[k..k + |word|] == word;
        assert k + |word| <= |command| ==> text[k..k + |word|] == command[k..k + |word|];
      }
    }
  }

  /** `Bash(*w)` matches exactly the commands that end in w. */
  lemma AtEndIff(word: string, command: string)
    requires '*' !in word
    ensures Matches(Pattern(AtEnd(word)), Invocation(command)) <==> EndsWith(command, word)
  {
    assert Pattern(AtEnd(word)) == "Bash(" + ("*" + (word + ")"));
    AfterBash("*" + (word + ")"), command);
    LeadingStar(word + ")", command + ")");
    forall k: nat
      ensures MatchesFrom(word + ")", command + ")", k) <==> k + |word| == |command| && command[k..] == word
    {
      AtEndAt(word, command, k);
    }
    if EndsWith(command, word) {
      assert MatchesFrom(word + ")", command + ")", |command| - |word|);
    }
  }

  /** `Bash(h)` matches exactly the command h, and `Bash(h*)` exactly the commands that begin with h. */
  lemma AtStartIff(head: string, open: bool, command: string)
    requires '*' !in head
    ensures Matches(Pattern(AtStart(head, open)), Invocation(command))
       <==> if open then head <= command else head == command
  {
    var rest := (if open then "*" else "") + ")";
    assert Pattern(AtStart(head, open)) == "Bash(" + (head + rest);
    AfterBash(head + rest, command);
    LiteralHead(head, rest, command + ")");
    if head <= command + ")" {
      var left := (command + ")")[|head|..];
      if open {
        assert rest == "*)";
        StarClose(left);
      } else {
        assert rest == ")";
        CloseOnly(left);
        assert left == ")" <==> |head| == |command|;
      }
      assert |head| <= |command| ==> head == command[..|head|];
    }
  }

  lemma AtStartNeedsHead(head: string, open: bool, command: string)
    requires '*' !in head
    ensures Matches(Pattern(AtStart(head, open)), Invocation(command)) ==> head <= command + ")"
  {
    var rest := (if open then "*" else "") + ")";
    assert Pattern(AtStart(head, open)) == "Bash(" + (head + rest);
    AfterBash(head + rest, command);
    LiteralHead(head, rest, command + ")");
  }
}
