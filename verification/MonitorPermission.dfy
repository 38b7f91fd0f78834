/**
 * The supervisor's Bash decision for the pinned monitor command: which deny patterns can
 * still shadow it, for every supported installation path.
 */
module MonitorPermission {
  import opened Prelude
  import opened ShellQuote
  import opened MonitorCommand

  // ---------- the deny list ----------

  const METACHARACTERS: seq<string> := [";", "&", "|", ">", "<", "$", "`", "\\", "\n"]
  const INLINE_FLAGS: seq<string> := ["-e ", "-c ", "--eval", "--exec", "--command"]
  const GIT_GLOBALS: seq<string> :=
    ["git -C ", "git -c ", "git --git-dir", "git --work-tree", "git --namespace", "git --no-pager ", "git --exec-path"]
  const READERS: seq<string> :=
    ["jq ", "cat ", "head ", "tail ", "grep ", "rg ", "sed ", "awk ", "find ", "ls "]
  const SESSION_FILES: seq<string> := ["tool-results", ".claude/projects"]

  function EachAnywhere(words: seq<string>): seq<Deny> {
    seq(|words|, i requires 0 <= i < |words| => Anywhere(words[i]))
  }

  function EachAtStart(heads: seq<string>): seq<Deny> {
    seq(|heads|, i requires 0 <= i < |heads| => AtStart(heads[i], true))
  }

  function EachCommand(names: seq<string>): seq<Deny> {
    if names == [] then []
    else
      [AtStart(names[0], false), AtStart(names[0] + " ", true), AtEnd("/" + names[0]), Anywhere("/" + names[0] + " ")]
      + EachCommand(names[1..])
  }

  function EachGitCommand(subs: seq<string>): seq<Deny> {
    if subs == [] then []
    else [AtStart("git " + subs[0], false), AtStart("git " + subs[0] + " ", true)] + EachGitCommand(subs[1..])
  }

  /** The Bash part of the deny list, for a list of command names and one of git subcommands. */
  function DenyList(names: seq<string>, subs: seq<string>): seq<Deny> {
    EachAnywhere(METACHARACTERS) + EachAnywhere(INLINE_FLAGS) + EachAtStart(GIT_GLOBALS)
    + [AtStart("command ", true), Anywhere("/command "), AtStart("builtin ", true)]
    + EachCommand(names) + EachGitCommand(subs) + EachAtStart(READERS) + EachAnywhere(SESSION_FILES)
  }

  predicate Name(name: string) {
    |name| >= 2 && forall c <- name :: 'a' <= c <= 'z' || '0' <= c <= '9' || c == '-'
  }

  // ---------- the part behind the prefix ----------

  predicate TailChar(c: char) {
    Letter(c) || '0' <= c <= '9' || c == '-' || c == ' '
  }

  /** No dash is followed by one of the letters the denied words have there. */
  ghost predicate Calm(s: string) {
    forall i :: 0 <= i < |s| && s[i] == '-' ==> i + 1 < |s| && s[i + 1] !in {'e', 'c', 'r'}
  }

  ghost predicate Quiet(s: string) {
    Calm(s) && forall c <- s :: TailChar(c)
  }

  lemma QuietConcat(a: string, b: string)
    requires Quiet(a) && Quiet(b)
    ensures Quiet(a + b)
  {
  }

  lemma UlidIsQuiet(id: string)
    requires ValidRunId(id)
    ensures Quiet(id)
  {
    forall i | 0 <= i < |id| ensures id[i] != '-' {
      assert id[i] in id;
    }
  }

  lemma NotificationIdIsQuiet(id: string)
    requires ValidNotificationId(id)
    ensures Quiet(id)
  {
    UlidIsQuiet(id[21..]);
    assert id[21] in id[21..] && UlidChar(id[21]);
    assert Quiet(id[20..]) by {
      assert id[20..] == ['-'] + id[21..];
      assert forall i :: 1 <= i < |id[20..]| ==> id[20..][i] == id[21..][i - 1];
    }
    assert Quiet(id[..20]) by {
      assert forall i :: 0 <= i < 20 ==> id[..20][i] in id[..20];
    }
    QuietConcat(id[..20], id[20..]);
    assert id == id[..20] + id[20..];
  }

  lemma TailFacts(runId: string, since: string)
    requires Ids(runId, since)
    ensures Quiet(Tail(runId, since)) && ' ' in Tail(runId, since)
  {
    UlidIsQuiet(runId);
    QuietConcat("monitor ", runId);
    QuietConcat("monitor " + runId, " --json-line");
    assert "monitor "[7] == ' ' && ' ' in "monitor ";
    if since != "" {
      NotificationIdIsQuiet(since);
      QuietConcat(" --since ", since);
      QuietConcat("monitor " + runId + " --json-line", " --since " + since);
    } else {
      assert "monitor " + runId + " --json-line" + "" == "monitor " + runId + " --json-line";
    }
  }

  /** A word the part behind the prefix cannot hold. */
  ghost predicate Marked(word: string) {
    || (exists c <- word :: !TailChar(c))
    || (exists j :: 0 <= j < |word| - 1 && word[j] == '-' && word[j + 1] in {'e', 'c', 'r'})
  }

  lemma QuietIsUnmarked(word: string, tail: string, k: nat)
    requires OccursAt(word, tail, k) && Quiet(tail)
    ensures !Marked(word)
  {
    assert forall j :: 0 <= j < |word| ==> word[j] == tail[k + j] && tail[k + j] in tail;
  }

  lemma MarkedNotInTail(word: string, tail: string)
    requires Marked(word) && Quiet(tail)
    ensures !Occurs(word, tail)
  {
    if k: nat :| OccursAt(word, tail, k) {
      QuietIsUnmarked(word, tail, k);
    }
  }

  ghost predicate BlankOnlyLast(word: string) {
    forall j :: 0 <= j < |word| - 1 ==> word[j] != ' '
  }

  function At(s: string, i: int): Option<char> {
    if 0 <= i < |s| then Some(s[i]) else None
  }

  lemma LateWord(word: string, prefix: string, tail: string, k: nat)
    requires BlankOnlyLast(word) && OccursAt(word, prefix + " " + tail, k) && k + |word| > |prefix| + 1
    ensures Occurs(word, tail)
  {
    var all := prefix + " " + tail;
    assert all[|prefix|] == ' ';
    assert forall j :: 0 <= j < |word| ==> word[j] == all[k..k + |word|][j] == all[k + j];
    var c := At(word, |prefix| - k);
    assert k > |prefix|;
    var i := k - |prefix| - 1;
    assert tail[i..i + |word|] == all[k..k + |word|];
    assert OccursAt(word, tail, i);
  }

  /** A word that cannot lie behind the prefix, and can only end in the blank, lies in the prefix and that blank. */
  lemma WordInPrefix(word: string, prefix: string, tail: string)
    requires word != "" && BlankOnlyLast(word) && !Occurs(word, tail)
    ensures Occurs(word, prefix + " " + tail) <==> Occurs(word, prefix + " ")
  {
    var all := prefix + " " + tail;
    forall k: nat ensures OccursAt(word, all, k) <==> OccursAt(word, prefix + " ", k) {
      if k + |word| <= |prefix| + 1 {
        assert all[k..k + |word|] == (prefix + " ")[k..k + |word|];
      } else if OccursAt(word, all, k) {
        LateWord(word, prefix, tail, k);
      }
    }
  }

  // ---------- the decision ----------

  ghost predicate Handled(d: Deny) {
    match d
    case Anywhere(word) => word != "" && '*' !in word && BlankOnlyLast(word) && Marked(word)
    case AtEnd(word) => '*' !in word && ' ' !in word && '/' in word
    case AtStart(head, _) => '*' !in head && |head| >= 2 && head[0] !in {'/', '\''} && head[1] != ':'
  }

  function Command(node: string, bin: string, runId: string, since: string): string {
    PrefixString(node, bin) + " " + Tail(runId, since)
  }

  lemma CommandStart(node: string, bin: string, runId: string, since: string)
    requires AbsolutePath(node)
    ensures var c := Command(node, bin, runId, since);
      |c| >= 2 && (c[0] in {'/', '\''} || c[1] == ':')
  {
    QuoteCons(node, [bin]);
    assert [node] + [bin] == [node, bin];
    var token := QuoteToken(node);
    assert token != "" && (token == node || token[0] == '\'');
    assert Command(node, bin, runId, since)[0] == token[0];
    if token == node && node[0] != '/' {
      assert Command(node, bin, runId, since)[1] == token[1];
    }
  }

  /** An anywhere-word denies the command exactly when it lies in the quoted prefix and the blank after it. */
  lemma WordDeniesIff(word: string, node: string, bin: string, runId: string, since: string)
    requires Handled(Anywhere(word)) && Ids(runId, since)
    ensures Matches(Pattern(Anywhere(word)), Invocation(Command(node, bin, runId, since)))
       <==> Occurs(word, PrefixString(node, bin) + " ")
  {
    var prefix, tail := PrefixString(node, bin), Tail(runId, since);
    TailFacts(runId, since);
    AnywhereIff(word, Command(node, bin, runId, since));
    MarkedNotInTail(word, tail);
    WordInPrefix(word, prefix, tail);
  }

  lemma DeniedIff(d: Deny, node: string, bin: string, runId: string, since: string)
    requires Handled(d) && AbsolutePath(node) && Ids(runId, since)
    ensures Matches(Pattern(d), Invocation(Command(node, bin, runId, since)))
       <==> d.Anywhere? && Occurs(d.word, PrefixString(node, bin) + " ")
  {
    var prefix, tail, command := PrefixString(node, bin), Tail(runId, since), Command(node, bin, runId, since);
    match d {
      case Anywhere(word) => WordDeniesIff(word, node, bin, runId, since);
      case AtEnd(word) =>
        TailFacts(runId, since);
        AtEndIff(word, command);
        SlashNotLate(word, prefix, tail);
      case AtStart(head, open) =>
        AtStartNeedsHead(head, open, command);
        CommandStart(node, bin, runId, since);
        DifferentStart(head, command);
    }
  }

  lemma DifferentStart(head: string, command: string)
    requires |head| >= 2 && |command| >= 2
    requires head[0] != command[0] || head[1] != command[1]
    ensures !(head <= command + ")")
  {
    assert (command + ")")[0] == command[0] && (command + ")")[1] == command[1];
  }

  lemma EndCases(word: string, prefix: string, tail: string)
    requires EndsWith(prefix + " " + tail, word)
    ensures (forall c <- word :: c in tail) || (forall c <- tail :: c in word)
  {
    var all := prefix + " " + tail;
    if |word| <= |tail| {
      assert word == tail[|tail| - |word|..];
    } else {
      assert word[|word| - |tail|..] == tail;
    }
  }

  lemma SlashNotLate(word: string, prefix: string, tail: string)
    requires ' ' !in word && '/' in word && ' ' in tail && Quiet(tail)
    ensures !EndsWith(prefix + " " + tail, word)
  {
    if EndsWith(prefix + " " + tail, word) {
      EndCases(word, prefix, tail);
    }
  }

  lemma WordsHandled(names: seq<string>)
    requires forall n <- names :: Name(n)
    ensures AllHandled(EachCommand(names))
  {
    if names != [] {
      var n := names[0];
      assert n in names && n[0] in n && n[1] in n;
      assert Handled(AtStart(n, false)) && Handled(AtStart(n + " ", true));
      assert ("/" + n)[0] == '/' && Handled(AtEnd("/" + n));
      assert ("/" + n + " ")[0] == '/' && !TailChar('/') && Handled(Anywhere("/" + n + " ")) by {
        assert forall j :: 0 <= j < |n| ==> n[j] in n && ("/" + n + " ")[j + 1] == n[j];
        assert '/' in "/" + n + " ";
      }
      WordsHandled(names[1..]);
    }
  }

  lemma GitHandled(subs: seq<string>)
    requires forall n <- subs :: Name(n)
    ensures AllHandled(EachGitCommand(subs))
  {
    if subs != [] {
      var head := "git " + subs[0];
      assert subs[0] in subs;
      assert head[0] == 'g' && head[1] == 'i';
      assert Handled(AtStart(head, false));
      assert (head + " ")[0] == 'g' && (head + " ")[1] == 'i';
      assert Handled(AtStart(head + " ", true));
      GitHandled(subs[1..]);
    }
  }

  lemma MetacharactersHandled()
    ensures forall w <- METACHARACTERS :: Handled(Anywhere(w)) && |w| == 1 && w[0] in FORBIDDEN && w[0] != '\''
  {
    forall w <- METACHARACTERS ensures Handled(Anywhere(w)) && |w| == 1 && w[0] in FORBIDDEN && w[0] != '\'' {
      assert |w| == 1 && w[0] in w && !TailChar(w[0]);
    }
  }

  /** A blank at most at the end, and a dash followed by one of the marked letters. */
  lemma FlagHandled(word: string, j: nat)
    requires '*' !in word && BlankOnlyLast(word)
    requires j + 1 < |word| && word[j] == '-' && word[j + 1] in {'e', 'c', 'r'}
    ensures Handled(Anywhere(word))
  {
  }

  lemma FlagsHandled()
    ensures forall w <- INLINE_FLAGS :: Handled(Anywhere(w))
  {
    FlagHandled("-e ", 0);
    FlagHandled("-c ", 0);
    FlagHandled("--eval", 1);
    FlagHandled("--exec", 1);
    FlagHandled("--command", 1);
  }

  lemma HeadsHandled()
    ensures forall h <- GIT_GLOBALS :: Handled(AtStart(h, true))
    ensures forall h <- READERS :: Handled(AtStart(h, true))
  {
    forall h <- GIT_GLOBALS ensures Handled(AtStart(h, true)) {
      assert h[0] == 'g' && h[1] == 'i' && '*' !in h;
    }
    forall h <- READERS ensures Handled(AtStart(h, true)) {
      assert |h| >= 2 && h[0] != '/' && h[1] != ':' && '*' !in h;
    }
  }

  lemma PathHandled(word: string, c: char)
    requires '*' !in word && BlankOnlyLast(word) && c in word && !TailChar(c)
    ensures Handled(Anywhere(word))
  {
  }

  lemma SessionFilesHandled()
    ensures forall w <- SESSION_FILES :: Handled(Anywhere(w))
  {
    FlagHandled("tool-results", 4);
    assert ".claude/projects"[0] == '.';
    PathHandled(".claude/projects", '.');
  }

  lemma DispatchHandled()
    ensures AllHandled([AtStart("command ", true), Anywhere("/command "), AtStart("builtin ", true)])
  {
    assert "/command "[0] == '/' && '/' in "/command " && !TailChar('/');
  }

  ghost predicate AllHandled(list: seq<Deny>) {
    forall d <- list :: Handled(d)
  }

  lemma HandledConcat(a: seq<Deny>, b: seq<Deny>)
    requires AllHandled(a) && AllHandled(b)
    ensures AllHandled(a + b)
  {
  }

  lemma EachHandled(words: seq<string>)
    ensures (forall w <- words :: Handled(Anywhere(w))) ==> AllHandled(EachAnywhere(words))
    ensures (forall w <- words :: Handled(AtStart(w, true))) ==> AllHandled(EachAtStart(words))
  {
  }

  lemma DenyListHandled(names: seq<string>, subs: seq<string>)
    requires (forall n <- names :: Name(n)) && (forall n <- subs :: Name(n))
    ensures AllHandled(DenyList(names, subs))
  {
    var list := EachAnywhere(METACHARACTERS);
    MetacharactersHandled();
    EachHandled(METACHARACTERS);
    FlagsHandled();
    EachHandled(INLINE_FLAGS);
    HeadsHandled();
    EachHandled(GIT_GLOBALS);
    EachHandled(READERS);
    DispatchHandled();
    SessionFilesHandled();
    EachHandled(SESSION_FILES);
    WordsHandled(names);
    GitHandled(subs);
    HandledConcat(list, EachAnywhere(INLINE_FLAGS));
    list := list + EachAnywhere(INLINE_FLAGS);
    HandledConcat(list, EachAtStart(GIT_GLOBALS));
    list := list + EachAtStart(GIT_GLOBALS);
    var dispatch := [AtStart("command ", true), Anywhere("/command "), AtStart("builtin ", true)];
    HandledConcat(list, dispatch);
    list := list + dispatch;
    HandledConcat(list, EachCommand(names));
    list := list + EachCommand(names);
    HandledConcat(list, EachGitCommand(subs));
    list := list + EachGitCommand(subs);
    HandledConcat(list, EachAtStart(READERS));
    list := list + EachAtStart(READERS);
    HandledConcat(list, EachAnywhere(SESSION_FILES));
  }

  // ---------- what the deny list denies ----------

  /** The command is that name with or without arguments, or a path that ends in it. */
  ghost predicate RunsCommand(name: string, command: string) {
    || command == name || name + " " <= command
    || EndsWith(command, "/" + name) || Occurs("/" + name + " ", command)
  }

  ghost predicate RunsGit(sub: string, command: string) {
    command == "git " + sub || "git " + sub + " " <= command
  }

  ghost predicate AnyMatches(list: seq<Deny>, command: string) {
    exists d <- list :: Matches(Pattern(d), Invocation(command))
  }

  lemma AnyOfTwo(a: seq<Deny>, b: seq<Deny>, command: string)
    ensures AnyMatches(a + b, command) <==> AnyMatches(a, command) || AnyMatches(b, command)
  {
  }

  lemma WordsMatchIff(words: seq<string>, command: string)
    requires forall w <- words :: '*' !in w
    ensures AnyMatches(EachAnywhere(words), command) <==> exists w <- words :: Occurs(w, command)
  {
    var list := EachAnywhere(words);
    forall w <- words ensures Matches(Pattern(Anywhere(w)), Invocation(command)) <==> Occurs(w, command) {
      AnywhereIff(w, command);
    }
    assert forall w <- words :: Anywhere(w) in list by {
      assert forall i :: 0 <= i < |words| ==> list[i] == Anywhere(words[i]);
    }
  }

  lemma HeadsMatchIff(heads: seq<string>, command: string)
    requires forall h <- heads :: '*' !in h
    ensures AnyMatches(EachAtStart(heads), command) <==> exists h <- heads :: h <= command
  {
    var list := EachAtStart(heads);
    forall h <- heads ensures Matches(Pattern(AtStart(h, true)), Invocation(command)) <==> h <= command {
      AtStartIff(h, true, command);
    }
    assert forall h <- heads :: AtStart(h, true) in list by {
      assert forall i :: 0 <= i < |heads| ==> list[i] == AtStart(heads[i], true);
    }
  }

  lemma OneCommandIff(name: string, command: string)
    requires Name(name)
    ensures AnyMatches(EachCommand([name]), command) <==> RunsCommand(name, command)
  {
    assert EachCommand([name]) == [AtStart(name, false), AtStart(name + " ", true), AtEnd("/" + name),
                                   Anywhere("/" + name + " ")] + EachCommand([]);
    AtStartIff(name, false, command);
    AtStartIff(name + " ", true, command);
    AtEndIff("/" + name, command);
    AnywhereIff("/" + name + " ", command);
    var list := EachCommand([name]);
    assert list[0] in list && list[1] in list && list[2] in list && list[3] in list;
  }

  lemma FirstCommand(names: seq<string>)
    requires names != []
    ensures EachCommand(names) == EachCommand([names[0]]) + EachCommand(names[1..])
  {
    assert [names[0]][1..] == [] && EachCommand([]) == [];
  }

  lemma {:induction false} CommandsMatchIff(names: seq<string>, command: string)
    requires forall n <- names :: Name(n)
    ensures AnyMatches(EachCommand(names), command) <==> exists n <- names :: RunsCommand(n, command)
  {
    if names != [] {
      CommandsMatchIff(names[1..], command);
      OneCommandIff(names[0], command);
      FirstCommand(names);
      AnyOfTwo(EachCommand([names[0]]), EachCommand(names[1..]), command);
      assert names == [names[0]] + names[1..];
    }
  }

  lemma {:induction false} GitMatchesIff(subs: seq<string>, command: string)
    requires forall n <- subs :: Name(n)
    ensures AnyMatches(EachGitCommand(subs), command) <==> exists n <- subs :: RunsGit(n, command)
  {
    if subs != [] {
      var first := [AtStart("git " + subs[0], false), AtStart("git " + subs[0] + " ", true)];
      GitMatchesIff(subs[1..], command);
      assert subs[0] in subs && '*' !in "git ";
      AtStartIff("git " + subs[0], false, command);
      AtStartIff("git " + subs[0] + " ", true, command);
      assert AnyMatches(first, command) <==> RunsGit(subs[0], command) by {
        assert first[0] in first && first[1] in first;
      }
      AnyOfTwo(first, EachGitCommand(subs[1..]), command);
      assert subs == [subs[0]] + subs[1..];
    }
  }

  lemma DispatchMatchesIff(command: string)
    ensures AnyMatches([AtStart("command ", true), Anywhere("/command "), AtStart("builtin ", true)], command)
       <==> "command " <= command || Occurs("/command ", command) || "builtin " <= command
  {
    AtStartIff("command ", true, command);
    AnywhereIff("/command ", command);
    AtStartIff("builtin ", true, command);
    var list := [AtStart("command ", true), Anywhere("/command "), AtStart("builtin ", true)];
    assert list[0] in list && list[1] in list && list[2] in list;
  }

  /** No word of the list holds a star. */
  lemma WordsHaveNoStar()
    ensures forall w <- METACHARACTERS :: '*' !in w
    ensures forall w <- INLINE_FLAGS :: '*' !in w
    ensures forall w <- GIT_GLOBALS :: '*' !in w
    ensures forall w <- READERS :: '*' !in w
    ensures forall w <- SESSION_FILES :: '*' !in w
  {
    MetacharactersHandled();
    FlagsHandled();
    HeadsHandled();
    SessionFilesHandled();
    assert forall w: string :: Handled(Anywhere(w)) ==> '*' !in w;
    assert forall h: string :: Handled(AtStart(h, true)) ==> '*' !in h;
  }

  /**
   * The deny list denies exactly the commands that hold a metacharacter, an inline-script flag or
   * a session file anywhere, that begin with a git global option, a reader or a dispatching
   * builtin, or that run a denied command, also by path, or a denied git subcommand.
   */
  lemma DeniesIff(names: seq<string>, subs: seq<string>, command: string)
    requires (forall n <- names :: Name(n)) && (forall n <- subs :: Name(n))
    ensures AnyMatches(DenyList(names, subs), command) <==>
      || (exists w <- METACHARACTERS :: Occurs(w, command))
      || (exists w <- INLINE_FLAGS :: Occurs(w, command))
      || (exists w <- SESSION_FILES :: Occurs(w, command))
      || (exists h <- GIT_GLOBALS :: h <= command)
      || (exists h <- READERS :: h <= command)
      || "command " <= command || Occurs("/command ", command) || "builtin " <= command
      || (exists n <- names :: RunsCommand(n, command))
      || (exists n <- subs :: RunsGit(n, command))
  {
    WordsHaveNoStar();
    WordsMatchIff(METACHARACTERS, command);
    WordsMatchIff(INLINE_FLAGS, command);
    WordsMatchIff(SESSION_FILES, command);
    HeadsMatchIff(GIT_GLOBALS, command);
    HeadsMatchIff(READERS, command);
    DispatchMatchesIff(command);
    CommandsMatchIff(names, command);
    GitMatchesIff(subs, command);
    AnyOfEight(EachAnywhere(METACHARACTERS), EachAnywhere(INLINE_FLAGS), EachAtStart(GIT_GLOBALS),
               [AtStart("command ", true), Anywhere("/command "), AtStart("builtin ", true)],
               EachCommand(names), EachGitCommand(subs), EachAtStart(READERS), EachAnywhere(SESSION_FILES), command);
  }

  lemma AnyOfEight(a: seq<Deny>, b: seq<Deny>, c: seq<Deny>, d: seq<Deny>, e: seq<Deny>, f: seq<Deny>,
                   g: seq<Deny>, h: seq<Deny>, command: string)
    ensures AnyMatches(a + b + c + d + e + f + g + h, command) <==>
      || AnyMatches(a, command) || AnyMatches(b, command) || AnyMatches(c, command) || AnyMatches(d, command)
      || AnyMatches(e, command) || AnyMatches(f, command) || AnyMatches(g, command) || AnyMatches(h, command)
  {
    AnyOfTwo(a, b, command);
    AnyOfTwo(a + b, c, command);
    AnyOfTwo(a + b + c, d, command);
    AnyOfTwo(a + b + c + d, e, command);
    AnyOfTwo(a + b + c + d + e, f, command);
    AnyOfTwo(a + b + c + d + e + f, g, command);
    AnyOfTwo(a + b + c + d + e + f + g, h, command);
  }

  // ---------- main results ----------

  /** No forbidden character gets into the quoted prefix of supported paths. */
  lemma PrefixIsSupported(node: string, bin: string, c: char)
    requires SupportedPath(node) && SupportedPath(bin) && c in FORBIDDEN && c != '\''
    ensures c !in PrefixString(node, bin) + " "
  {
    QuoteCons(node, [bin]);
    assert [node] + [bin] == [node, bin];
    SupportedQuoting(node);
    SupportedQuoting(bin);
  }

  lemma {:induction false} NothingToReplace(s: string, sub: string)
    requires '\'' !in s
    ensures ReplaceChar(s, '\'', sub) == s
  {
    if s != "" {
      NothingToReplace(s[1..], sub);
      assert s == [s[0]] + s[1..];
    }
  }

  lemma SupportedQuoting(path: string)
    requires SupportedPath(path)
    ensures forall c <- QuoteToken(path) :: c in path || c == '\''
  {
    NothingToReplace(path, "'\\''");
  }

  lemma ForbiddenNeverDenies(w: string, node: string, bin: string, runId: string, since: string)
    requires SupportedPath(node) && SupportedPath(bin) && Ids(runId, since)
    requires Handled(Anywhere(w)) && |w| == 1 && w[0] in FORBIDDEN && w[0] != '\''
    ensures !Matches(Pattern(Anywhere(w)), Invocation(Command(node, bin, runId, since)))
  {
    WordDeniesIff(w, node, bin, runId, since);
    PrefixIsSupported(node, bin, w[0]);
    var prefix := PrefixString(node, bin) + " ";
    forall k: nat ensures !OccursAt(w, prefix, k) {
      assert k < |prefix| ==> prefix[k] in prefix && prefix[k..k + 1][0] == prefix[k];
    }
  }

  /**
   * For every supported installation and every valid id, none of the shell metacharacter
   * patterns denies the monitor command.
   */
  lemma NoMetacharacterDenies(node: string, bin: string, runId: string, since: string)
    requires SupportedPath(node) && SupportedPath(bin) && Ids(runId, since)
    ensures forall w <- METACHARACTERS :: !Matches(Pattern(Anywhere(w)), Invocation(Command(node, bin, runId, since)))
  {
    MetacharactersHandled();
    forall w <- METACHARACTERS ensures !Matches(Pattern(Anywhere(w)), Invocation(Command(node, bin, runId, since))) {
      ForbiddenNeverDenies(w, node, bin, runId, since);
    }
  }

  ghost predicate Permitted(allow: seq<string>, deny: seq<Deny>, command: string) {
    && (exists p <- allow :: Matches(p, Invocation(command)))
    && (forall d <- deny :: !Matches(Pattern(d), Invocation(command)))
  }

  /**
   * The pin's command is permitted exactly when no anywhere-word of the deny list lies in
   * the quoted prefix and the blank after it: the ids and the arguments behind it never matter.
   */
  lemma PermittedIff(node: string, bin: string, runId: string, since: string,
                     allow: seq<string>, names: seq<string>, subs: seq<string>)
    requires AbsolutePath(node) && Ids(runId, since)
    requires (forall n <- names :: Name(n)) && (forall n <- subs :: Name(n))
    requires forall p <- AllowPatterns(node, bin) :: p in allow
    ensures BuildMonitorBashCommand(node, bin, runId, true, since) == Built(Command(node, bin, runId, since))
    ensures Permitted(allow, DenyList(names, subs), Command(node, bin, runId, since))
       <==> forall d <- DenyList(names, subs) :: d.Anywhere? ==> !Occurs(d.word, PrefixString(node, bin) + " ")
  {
    CommandShape(node, bin, runId, since);
    AllowedByOwnPin(node, bin, runId, since);
    DenyListHandled(names, subs);
    forall d <- DenyList(names, subs)
      ensures Matches(Pattern(d), Invocation(Command(node, bin, runId, since)))
         <==> d.Anywhere? && Occurs(d.word, PrefixString(node, bin) + " ")
    {
      DeniedIff(d, node, bin, runId, since);
    }
  }

  lemma EndsInFlag(node: string, bin: string, runId: string, since: string)
    requires AllSafe(node) && |node| >= 2 && Ids(runId, since)
    requires node[|node| - 2] == '-' && node[|node| - 1] == 'e'
    ensures Matches(Pattern(Anywhere("-e ")), Invocation(Command(node, bin, runId, since)))
  {
    FlagsHandled();
    assert INLINE_FLAGS[0] == "-e ";
    WordDeniesIff("-e ", node, bin, runId, since);
    QuoteCons(node, [bin]);
    assert [node] + [bin] == [node, bin];
    var prefix := PrefixString(node, bin) + " ";
    assert prefix == node + " " + (QuoteToken(bin) + " ");
    assert prefix[|node| - 2..|node| + 1] == "-e ";
    assert OccursAt("-e ", prefix, |node| - 2);
  }

  lemma FlagInList(names: seq<string>, subs: seq<string>)
    ensures Anywhere("-e ") in DenyList(names, subs)
  {
    var before := EachAnywhere(METACHARACTERS);
    assert INLINE_FLAGS[0] == "-e " && EachAnywhere(INLINE_FLAGS)[0] == Anywhere("-e ");
    assert DenyList(names, subs)[|before|] == EachAnywhere(INLINE_FLAGS)[0];
  }

  /**
   * Supported is not permitted: a node path that needs no quotes and ends in `-e` is followed
   * by a blank, and the inline-script pattern denies every monitor command of that pin.
   */
  lemma SupportedButDenied(node: string, bin: string, runId: string, since: string,
                           allow: seq<string>, names: seq<string>, subs: seq<string>)
    requires AllSafe(node) && |node| >= 2 && Ids(runId, since)
    requires node[|node| - 2] == '-' && node[|node| - 1] == 'e'
    ensures SupportedPath(node)
    ensures !Permitted(allow, DenyList(names, subs), Command(node, bin, runId, since))
  {
    EndsInFlag(node, bin, runId, since);
    FlagInList(names, subs);
  }
}
