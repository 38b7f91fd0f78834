/**
 * The user secrets file: parsing, printing, and the in-memory halves of saving and
 * removing one key.
 */
module Secrets {
  import opened Prelude

  datatype Entry = KeyEntry(key: string, rawValue: string, value: string) | Other(raw: string)

  // ---------- characters ----------

  const LINE_SEPARATOR: char := '\U{2028}'
  const PARAGRAPH_SEPARATOR: char := '\U{2029}'

  /** What `.` does not match. */
  predicate LineTerminator(c: char) {
    c == '\n' || c == '\r' || c == LINE_SEPARATOR || c == PARAGRAPH_SEPARATOR
  }

  /** What `\s` matches. */
  predicate WhiteSpace(c: char) {
    || LineTerminator(c) || c == ' ' || c == '\t' || c == '\U{0B}' || c == '\U{0C}' || c == '\U{A0}'
    || c == '\U{1680}' || '\U{2000}' <= c <= '\U{200A}' || c == '\U{202F}' || c == '\U{205F}'
    || c == '\U{3000}' || c == '\U{FEFF}'
  }

  predicate NeedsQuotes(c: char) {
    WhiteSpace(c) || c == '"' || c == '\'' || c == '#' || c == '='
  }

  predicate KeyStart(c: char) {
    'A' <= c <= 'Z' || 'a' <= c <= 'z' || c == '_'
  }

  predicate KeyChar(c: char) {
    KeyStart(c) || '0' <= c <= '9'
  }

  predicate ValidKey(key: string) {
    key != "" && KeyStart(key[0]) && forall c <- key :: KeyChar(c)
  }

  predicate OneLine(s: string) {
    forall c <- s :: !LineTerminator(c)
  }

  // ---------- values ----------

  /** value.replace(pair, c): occurrences of two characters in a row, left to right, without overlap. */
  function ReplacePair(s: string, first: char, second: char, sub: char): string {
    if |s| >= 2 && s[0] == first && s[1] == second then [sub] + ReplacePair(s[2..], first, second, sub)
    else if s == "" then ""
    else [s[0]] + ReplacePair(s[1..], first, second, sub)
  }

  function Escape(value: string): string {
    ReplaceChar(ReplaceChar(value, '\\', "\\\\"), '"', "\\\"")
  }

  /** First the escaped quotes, then the escaped backslashes. */
  function Unescape(value: string): string {
    ReplacePair(ReplacePair(value, '\\', '"', '"'), '\\', '\\', '\\')
  }

  function FormatValue(value: string): string {
    if value == "" then ""
    else if exists c <- value :: NeedsQuotes(c) then "\"" + Escape(value) + "\""
    else value
  }

  function Unquote(value: string): string {
    if |value| >= 2 && value[0] == value[|value| - 1] && (value[0] == '"' || value[0] == '\'')
    then Unescape(value[1..|value| - 1])
    else value
  }

  lemma {:induction false} QuotePassInverts(w: string)
    ensures ReplacePair(ReplaceChar(w, '"', "\\\""), '\\', '"', '"') == w
    ensures ReplaceChar(w, '"', "\\\"") != "" ==> ReplaceChar(w, '"', "\\\"")[0] != '"'
  {
    if w != "" {
      QuotePassInverts(w[1..]);
      var rest := ReplaceChar(w[1..], '"', "\\\"");
      var all := ReplaceChar(w, '"', "\\\"");
      if w[0] == '"' {
        assert all == "\\\"" + rest && all[2..] == rest;
      } else {
        assert all == [w[0]] + rest && all[1..] == rest;
      }
      assert w == [w[0]] + w[1..];
    }
  }

  lemma {:induction false} BackslashPassInverts(v: string)
    ensures ReplacePair(ReplaceChar(v, '\\', "\\\\"), '\\', '\\', '\\') == v
  {
    if v != "" {
      BackslashPassInverts(v[1..]);
      var rest := ReplaceChar(v[1..], '\\', "\\\\");
      var all := ReplaceChar(v, '\\', "\\\\");
      if v[0] == '\\' {
        assert all == "\\\\" + rest && all[2..] == rest;
      } else {
        assert all == [v[0]] + rest && all[1..] == rest;
      }
      assert v == [v[0]] + v[1..];
    }
  }

  /** The two sequential passes undo the two escapes, for every value. */
  lemma UnquoteFormat(value: string)
    ensures Unquote(FormatValue(value)) == value
  {
    if exists c <- value :: NeedsQuotes(c) {
      var inner := Escape(value);
      assert ("\"" + inner + "\"")[1..|inner| + 1] == inner;
      QuotePassInverts(ReplaceChar(value, '\\', "\\\\"));
      BackslashPassInverts(value);
    } else if |value| >= 2 {
      assert value[0] in value;
    }
  }

  /** A value is written as it is exactly when it holds no white space, quote, `#` or `=`. */
  lemma WrittenPlainIff(value: string)
    ensures FormatValue(value) == value
       <==> forall c <- value :: !WhiteSpace(c) && c != '"' && c != '\'' && c != '#' && c != '='
  {
    if c :| c in value && NeedsQuotes(c) {
      EscapeGrows(value);
    }
  }

  lemma {:induction false} ReplaceGrows(s: string, c: char, sub: string)
    requires sub != ""
    ensures |ReplaceChar(s, c, sub)| >= |s|
  {
    if s != "" {
      ReplaceGrows(s[1..], c, sub);
    }
  }

  lemma EscapeGrows(value: string)
    ensures |Escape(value)| >= |value|
  {
    ReplaceGrows(value, '\\', "\\\\");
    ReplaceGrows(ReplaceChar(value, '\\', "\\\\"), '"', "\\\"");
  }

  lemma {:induction false} PairAbsent(s: string, first: char, second: char, sub: char)
    requires first !in s
    ensures ReplacePair(s, first, second, sub) == s
  {
    if s != "" {
      PairAbsent(s[1..], first, second, sub);
      assert s == [s[0]] + s[1..];
    }
  }

  /** A pair of either quote around a text without backslashes is taken off; any other value is read as it is. */
  lemma UnquotedPlain(text: string, quote: char)
    ensures (quote == '"' || quote == '\'') && '\\' !in text ==> Unquote([quote] + text + [quote]) == text
    ensures (|text| < 2 || text[0] != text[|text| - 1] || (text[0] != '"' && text[0] != '\'')) ==> Unquote(text) == text
  {
    if '\\' !in text {
      PairAbsent(text, '\\', '"', '"');
      PairAbsent(text, '\\', '\\', '\\');
      assert ([quote] + text + [quote])[1..|text| + 1] == text;
    }
  }

  lemma {:induction false} ReplaceKeeps(s: string, c: char, sub: string)
    requires OneLine(sub) && !LineTerminator(c)
    ensures OneLine(ReplaceChar(s, c, sub)) <==> OneLine(s)
    ensures '\n' in ReplaceChar(s, c, sub) <==> '\n' in s
    ensures '\r' in ReplaceChar(s, c, sub) <==> '\r' in s
  {
    if s != "" {
      ReplaceKeeps(s[1..], c, sub);
      assert s == [s[0]] + s[1..];
    }
  }

  /** Formatting neither adds nor removes line terminators. */
  lemma FormatKeepsLines(value: string)
    ensures OneLine(FormatValue(value)) <==> OneLine(value)
    ensures '\n' in FormatValue(value) <==> '\n' in value
    ensures '\r' in FormatValue(value) <==> '\r' in value
  {
    ReplaceKeeps(value, '\\', "\\\\");
    ReplaceKeeps(ReplaceChar(value, '\\', "\\\\"), '"', "\\\"");
  }

  // ---------- lines ----------

  /** Where the first `=` stands, the length when there is none. */
  function EqualsAt(line: string): (i: nat)
    ensures i <= |line| && '=' !in line[..i] && (i < |line| ==> line[i] == '=')
  {
    if line == "" || line[0] == '=' then 0
    else
      var i := 1 + EqualsAt(line[1..]);
      assert line[..i] == [line[0]] + line[1..][..i - 1];
      i
  }

  /** One line against KEY_VALUE_PATTERN. */
  function ParseLine(line: string): Entry {
    var i := EqualsAt(line);
    if i < |line| && ValidKey(line[..i]) && OneLine(line[i + 1..])
    then KeyEntry(line[..i], line[i + 1..], Unquote(line[i + 1..]))
    else Other(line)
  }

  function LineOf(e: Entry): string {
    match e
    case KeyEntry(key, rawValue, _) => key + "=" + rawValue
    case Other(raw) => raw
  }

  lemma LineOfParsed(line: string)
    ensures LineOf(ParseLine(line)) == line
  {
    var i := EqualsAt(line);
    if i < |line| {
      assert line == line[..i] + "=" + line[i + 1..];
    }
  }

  lemma ParseKeyLine(key: string, rawValue: string)
    requires ValidKey(key)
    ensures ParseLine(key + "=" + rawValue)
         == if OneLine(rawValue) then KeyEntry(key, rawValue, Unquote(rawValue)) else Other(key + "=" + rawValue)
  {
    var line := key + "=" + rawValue;
    var i := EqualsAt(line);
    assert line[|key|] == '=';
    assert '=' !in key;
    assert line[..|key|] == key && line[|key| + 1..] == rawValue;
  }

  /** A line is a key entry exactly when it is a valid key, the first `=` and text without line terminators. */
  lemma KeyLineIff(line: string)
    ensures ParseLine(line).KeyEntry? <==> exists key, raw :: ValidKey(key) && OneLine(raw) && line == key + "=" + raw
    ensures ParseLine(line).KeyEntry? ==> ParseLine(line).value == Unquote(ParseLine(line).rawValue)
  {
    LineOfParsed(line);
    var e := ParseLine(line);
    if e.KeyEntry? {
      assert line == e.key + "=" + e.rawValue;
    }
    if key, raw :| ValidKey(key) && OneLine(raw) && line == key + "=" + raw {
      ParseKeyLine(key, raw);
    }
  }

  /** text.split(/\r?\n/) */
  function SplitLines(text: string): (lines: seq<string>)
    ensures |lines| >= 1
  {
    if text == "" then [""]
    else if text[0] == '\n' then [""] + SplitLines(text[1..])
    else if |text| >= 2 && text[0] == '\r' && text[1] == '\n' then [""] + SplitLines(text[2..])
    else
      var rest := SplitLines(text[1..]);
      [[text[0]] + rest[0]] + rest[1..]
  }

  /** `${lines.join('\n')}\n` */
  function JoinLines(lines: seq<string>): string {
    if lines == [] then "\n"
    else if |lines| == 1 then lines[0] + "\n"
    else lines[0] + "\n" + JoinLines(lines[1..])
  }

  /** What a carriage return at the end of a line becomes when a newline follows it. */
  function Strip(line: string): string {
    if line != "" && line[|line| - 1] == '\r' then line[..|line| - 1] else line
  }

  lemma {:induction false} SplitAtNewline(line: string, rest: string)
    requires '\n' !in line
    ensures SplitLines(line + "\n" + rest) == [Strip(line)] + SplitLines(rest)
  {
    var text := line + "\n" + rest;
    if line == "" {
      assert text == "\n" + rest;
    } else if line == "\r" {
      assert text[2..] == rest;
    } else {
      assert text[1..] == line[1..] + "\n" + rest;
      SplitAtNewline(line[1..], rest);
      assert [line[0]] + Strip(line[1..]) == Strip(line);
    }
  }

  function DropFinalEmpty(lines: seq<string>): seq<string> {
    if |lines| > 0 && lines[|lines| - 1] == "" then lines[..|lines| - 1] else lines
  }

  function StripAll(lines: seq<string>): seq<string> {
    seq(|lines|, i requires 0 <= i < |lines| => Strip(lines[i]))
  }

  lemma {:induction false} SplitJoined(lines: seq<string>)
    requires lines != [] && forall line <- lines :: '\n' !in line
    ensures SplitLines(JoinLines(lines)) == StripAll(lines) + [""]
  {
    assert lines[0] in lines;
    if |lines| == 1 {
      SplitAtNewline(lines[0], "");
      assert lines[0] + "\n" + "" == lines[0] + "\n";
      assert SplitLines("") == [""];
    } else {
      forall line <- lines[1..] ensures '\n' !in line {
        assert line in lines;
      }
      SplitJoined(lines[1..]);
      SplitAtNewline(lines[0], JoinLines(lines[1..]));
      assert StripAll(lines) == [Strip(lines[0])] + StripAll(lines[1..]);
    }
  }

  lemma SplitPrinted(lines: seq<string>)
    requires lines != [] && forall line <- lines :: '\n' !in line
    ensures DropFinalEmpty(SplitLines(JoinLines(lines))) == StripAll(lines)
  {
    SplitJoined(lines);
    var stripped := StripAll(lines);
    assert (stripped + [""])[..|stripped|] == stripped;
  }

  lemma {:induction false} SplitWhole(line: string)
    requires '\n' !in line
    ensures SplitLines(line) == [line]
  {
    if line != "" {
      SplitWhole(line[1..]);
      assert [line[0]] + line[1..] == line;
    }
  }

  lemma {:induction false} SplitHasNoNewline(text: string)
    ensures forall line <- SplitLines(text) :: '\n' !in line
  {
    if text != "" {
      if text[0] == '\n' {
        SplitHasNoNewline(text[1..]);
      } else if |text| >= 2 && text[0] == '\r' && text[1] == '\n' {
        SplitHasNoNewline(text[2..]);
      } else {
        SplitHasNoNewline(text[1..]);
        assert SplitLines(text[1..])[0] in SplitLines(text[1..]);
      }
    }
  }

  // ---------- files ----------

  function ParseLines(lines: seq<string>): seq<Entry> {
    seq(|lines|, i requires 0 <= i < |lines| => ParseLine(lines[i]))
  }

  function Parse(text: string): seq<Entry> {
    ParseLines(DropFinalEmpty(SplitLines(text)))
  }

  function LinesOf(entries: seq<Entry>): seq<string> {
    seq(|entries|, i requires 0 <= i < |entries| => LineOf(entries[i]))
  }

  function Serialize(entries: seq<Entry>): string {
    JoinLines(LinesOf(entries))
  }

  method ParseSecretsText(text: string) returns (entries: seq<Entry>)
    ensures entries == Parse(text)
  {
    entries := [];
    var lines := DropFinalEmpty(SplitLines(text));
    for i := 0 to |lines|
      invariant entries == ParseLines(lines[..i])
    {
      entries := entries + [ParseLine(lines[i])];
      assert lines[..i + 1] == lines[..i] + [lines[i]];
    }
    assert lines[..|lines|] == lines;
  }

  predicate EndsInReturn(line: string) {
    line != "" && line[|line| - 1] == '\r'
  }

  /** An entry that parsing could have produced. */
  ghost predicate Parsed(e: Entry) {
    '\n' !in LineOf(e) && ParseLine(LineOf(e)) == e
  }

  lemma ParsedEntries(text: string)
    ensures forall e <- Parse(text) :: Parsed(e)
  {
    SplitHasNoNewline(text);
    var lines := DropFinalEmpty(SplitLines(text));
    forall e <- Parse(text) ensures Parsed(e) {
      var i :| 0 <= i < |lines| && ParseLine(lines[i]) == e;
      LineOfParsed(lines[i]);
      assert lines[i] in SplitLines(text);
    }
  }

  /**
   * Parsing inverts printing on a non-empty list of parsed entries exactly when no line
   * ends in a carriage return: printing puts a newline after it, and the pair is one line end.
   */
  lemma ParseSerializeIff(entries: seq<Entry>)
    requires entries != [] && forall e <- entries :: Parsed(e)
    ensures Parse(Serialize(entries)) == entries <==> forall e <- entries :: !EndsInReturn(LineOf(e))
  {
    var lines := LinesOf(entries);
    forall line <- lines ensures '\n' !in line {
      var i :| 0 <= i < |lines| && lines[i] == line;
      assert entries[i] in entries;
    }
    SplitPrinted(lines);
    var again := Parse(Serialize(entries));
    assert again == ParseLines(StripAll(lines));
    forall i | 0 <= i < |entries| ensures again[i] == entries[i] <==> !EndsInReturn(lines[i]) {
      assert entries[i] in entries && Parsed(entries[i]);
      LineOfParsed(Strip(lines[i]));
    }
    if forall e <- entries :: !EndsInReturn(LineOf(e)) {
      assert forall i :: 0 <= i < |entries| ==> entries[i] in entries;
      assert again == entries;
    }
    if again == entries {
      assert forall i :: 0 <= i < |entries| ==> again[i] == entries[i];
    }
  }

  /** A file without entries does not come back: it prints as one empty line. An empty file has none. */
  lemma EmptyDoesNotRoundTrip()
    ensures Parse(Serialize([])) == [Other("")] && Parse("") == []
  {
    assert SplitLines("\n") == [""] + SplitLines("");
    assert Serialize([]) == "\n";
  }

  // ---------- saving ----------

  function NewEntry(key: string, value: string): Entry {
    KeyEntry(key, FormatValue(value), value)
  }

  predicate IsKey(e: Entry, key: string) {
    e.KeyEntry? && e.key == key
  }

  function Replaced(entries: seq<Entry>, key: string, value: string): seq<Entry> {
    seq(|entries|, i requires 0 <= i < |entries| => if IsKey(entries[i], key) then NewEntry(key, value) else entries[i])
  }

  /** Every entry of the key is replaced; when there is none, one is added at the end. */
  function Saved(entries: seq<Entry>, key: string, value: string): seq<Entry> {
    if exists e <- entries :: IsKey(e, key) then Replaced(entries, key, value)
    else entries + [NewEntry(key, value)]
  }

  datatype Outcome = Written(text: string) | InvalidKey | HasNewline

  /** The loop over the parsed entries: each one of the key gets the new value where it stands. */
  method ReplaceEntries(entries: seq<Entry>, key: string, value: string) returns (after: seq<Entry>, replaced: bool)
    ensures after == Replaced(entries, key, value)
    ensures replaced <==> exists e <- entries :: IsKey(e, key)
  {
    after := entries;
    replaced := false;
    for i := 0 to |entries|
      invariant |after| == |entries|
      invariant after[..i] == Replaced(entries[..i], key, value) && after[i..] == entries[i..]
      invariant replaced <==> exists e <- entries[..i] :: IsKey(e, key)
    {
      ghost var done := after[..i];
      assert after[i] == after[i..][0] == entries[i];
      assert entries[..i + 1] == entries[..i] + [entries[i]];
      if IsKey(after[i], key) {
        after := after[i := after[i].(rawValue := FormatValue(value), value := value)];
        replaced := true;
      }
      assert after[..i] == done;
      assert after[..i + 1] == done + [after[i]];
      assert after[i + 1..] == entries[i..][1..];
    }
    assert after[..|after|] == after && entries[..|entries|] == entries;
  }

  /**
   * The same entries in the same places, comments and blank lines among them, but for the key's:
   * each of those has the new value, or, when there was none, one stands at the end.
   */
  ghost predicate SavedInPlace(before: seq<Entry>, after: seq<Entry>, key: string, value: string) {
    var entry := KeyEntry(key, FormatValue(value), value);
    var known := exists e <- before :: e.KeyEntry? && e.key == key;
    && |after| == |before| + (if known then 0 else 1)
    && (forall i :: 0 <= i < |before| ==>
          after[i] == if before[i].KeyEntry? && before[i].key == key then entry else before[i])
    && (!known ==> after[|before|] == entry)
  }

  lemma SavedIsInPlace(entries: seq<Entry>, key: string, value: string)
    ensures SavedInPlace(entries, Saved(entries, key, value), key, value)
  {
    if e :| e in entries && e.KeyEntry? && e.key == key {
      assert IsKey(e, key);
    }
  }

  /**
   * The file is the old one with the key's entries changed in place. Read again, it has those
   * entries when the value is one line and no line of the old file ends in a return.
   */
  method SaveUserSecret(text: Option<string>, key: string, value: string) returns (outcome: Outcome)
    ensures outcome == if !ValidKey(key) then InvalidKey
      else if '\n' in value || '\r' in value then HasNewline
      else Written(Serialize(Saved(EntriesOf(text), key, value)))
    ensures outcome.Written? ==>
      && (exists after :: outcome.text == Serialize(after) && SavedInPlace(EntriesOf(text), after, key, value))
      && (OneLine(value) && NoReturns(EntriesOf(text)) ==>
            SavedInPlace(EntriesOf(text), Parse(outcome.text), key, value))
  {
    SavedIsInPlace(EntriesOf(text), key, value);
    if !ValidKey(key) {
      return InvalidKey;
    }
    if '\n' in value || '\r' in value {
      return HasNewline;
    }
    var entries: seq<Entry> := [];
    if text.Some? {
      entries := ParseSecretsText(text.value);
    }
    var after, replaced := ReplaceEntries(entries, key, value);
    if replaced {
      entries := after;
    } else {
      entries := entries + [KeyEntry(key, FormatValue(value), value)];
    }
    outcome := Written(Serialize(entries));
    if OneLine(value) && NoReturns(EntriesOf(text)) {
      EntriesParsed(text);
      SaveThenParse(EntriesOf(text), key, value);
    }
  }

  lemma EntriesParsed(text: Option<string>)
    ensures forall e <- EntriesOf(text) :: Parsed(e)
  {
    if text.Some? {
      ParsedEntries(text.value);
    }
  }

  /** The value a loaded file has for a key: the last entry wins. */
  function Lookup(entries: seq<Entry>, key: string): Option<string> {
    if entries == [] then None
    else if IsKey(entries[|entries| - 1], key) then Some(entries[|entries| - 1].value)
    else Lookup(entries[..|entries| - 1], key)
  }

  /** The loaded value is that of the key's last entry. */
  ghost predicate LastOfKey(entries: seq<Entry>, key: string, j: nat) {
    j < |entries| && IsKey(entries[j], key) && forall i :: j < i < |entries| ==> !IsKey(entries[i], key)
  }

  lemma {:induction false} LookupIsLast(entries: seq<Entry>, key: string)
    ensures Lookup(entries, key) == None <==> forall e <- entries :: !IsKey(e, key)
    ensures forall j: nat :: LastOfKey(entries, key, j) ==> Lookup(entries, key) == Some(entries[j].value)
  {
    if entries != [] {
      var front, last := entries[..|entries| - 1], entries[|entries| - 1];
      LookupIsLast(front, key);
      assert entries == front + [last];
      forall j: nat | LastOfKey(entries, key, j) ensures Lookup(entries, key) == Some(entries[j].value) {
        if j < |front| {
          assert LastOfKey(front, key, j);
        }
      }
    }
  }

  lemma {:induction false} LastExists(entries: seq<Entry>, key: string) returns (j: nat)
    requires exists e <- entries :: IsKey(e, key)
    ensures LastOfKey(entries, key, j)
  {
    var front, last := entries[..|entries| - 1], entries[|entries| - 1];
    if IsKey(last, key) {
      j := |front|;
    } else {
      assert entries == front + [last];
      j := LastExists(front, key);
    }
  }

  ghost predicate NoReturns(entries: seq<Entry>) {
    forall e <- entries :: !EndsInReturn(LineOf(e))
  }

  lemma KeyLineEnds(key: string, raw: string)
    requires ValidKey(key) && '\n' !in raw && '\r' !in raw
    ensures '\n' !in key + "=" + raw && !EndsInReturn(key + "=" + raw)
  {
    assert '\n' !in key;
    assert raw != "" ==> raw[|raw| - 1] in raw;
  }

  /** The line of a saved key. */
  lemma NewEntryLine(key: string, value: string)
    requires ValidKey(key) && '\n' !in value && '\r' !in value
    ensures var e := NewEntry(key, value);
      && '\n' !in LineOf(e) && !EndsInReturn(LineOf(e))
      && ParseLine(LineOf(e)) == if OneLine(value) then e else Other(LineOf(e))
  {
    FormatKeepsLines(value);
    UnquoteFormat(value);
    ParseKeyLine(key, FormatValue(value));
    KeyLineEnds(key, FormatValue(value));
  }

  /** Saving a one-line value into a file whose lines do not end in a return changes that key and nothing else. */
  lemma SaveThenParse(entries: seq<Entry>, key: string, value: string)
    requires ValidKey(key) && OneLine(value)
    requires NoReturns(entries) && forall e <- entries :: Parsed(e)
    ensures Parse(Serialize(Saved(entries, key, value))) == Saved(entries, key, value)
  {
    var saved := Saved(entries, key, value);
    NewEntryLine(key, value);
    forall e <- saved ensures Parsed(e) && !EndsInReturn(LineOf(e)) {
      assert e == NewEntry(key, value) || e in entries;
    }
    ParseSerializeIff(saved);
  }

  lemma {:induction false} LookupReplaced(entries: seq<Entry>, key: string, value: string, other: string)
    ensures other != key ==> Lookup(Replaced(entries, key, value), other) == Lookup(entries, other)
    ensures (exists e <- entries :: IsKey(e, key)) ==> Lookup(Replaced(entries, key, value), key) == Some(value)
  {
    if entries != [] {
      var front := entries[..|entries| - 1];
      LookupReplaced(front, key, value, other);
      assert Replaced(entries, key, value)[..|entries| - 1] == Replaced(front, key, value);
      assert forall e <- entries :: e in front || e == entries[|entries| - 1];
    }
  }

  lemma LookupSaved(entries: seq<Entry>, key: string, value: string, other: string)
    ensures Lookup(Saved(entries, key, value), key) == Some(value)
    ensures other != key ==> Lookup(Saved(entries, key, value), other) == Lookup(entries, other)
  {
    LookupReplaced(entries, key, value, other);
    assert (entries + [NewEntry(key, value)])[..|entries|] == entries;
  }

  /** What an entry is after it was printed and parsed again. */
  function Reloaded(e: Entry): Entry {
    ParseLine(Strip(LineOf(e)))
  }

  function ReloadedAll(entries: seq<Entry>): seq<Entry> {
    seq(|entries|, i requires 0 <= i < |entries| => Reloaded(entries[i]))
  }

  /** A line that is no key entry because it ends in a return, and is one of this key without it. */
  predicate Hidden(e: Entry, key: string) {
    e.Other? && EndsInReturn(e.raw) && IsKey(ParseLine(Strip(e.raw)), key)
  }

  lemma ParseIsReloaded(entries: seq<Entry>)
    requires entries != [] && forall e <- entries :: '\n' !in LineOf(e)
    ensures Parse(Serialize(entries)) == ReloadedAll(entries)
  {
    var lines := LinesOf(entries);
    forall line <- lines ensures '\n' !in line {
      var i :| 0 <= i < |lines| && lines[i] == line;
      assert entries[i] in entries;
    }
    SplitPrinted(lines);
    assert ReloadedAll(entries) == ParseLines(StripAll(lines));
  }

  lemma KeyLineHasNoReturn(e: Entry)
    requires Parsed(e) && e.KeyEntry?
    ensures !EndsInReturn(LineOf(e)) && OneLine(e.rawValue)
  {
    var line := LineOf(e);
    var i := EqualsAt(line);
    assert line[|line| - 1] == '=' || line[|line| - 1] in line[i + 1..];
  }

  /** Only a hidden entry of a key turns into one. */
  lemma ReloadedKey(e: Entry, key: string)
    requires Parsed(e)
    ensures IsKey(Reloaded(e), key) <==> IsKey(e, key) || Hidden(e, key)
    ensures e.KeyEntry? ==> Reloaded(e) == e
  {
    if e.KeyEntry? {
      KeyLineHasNoReturn(e);
    }
  }

  lemma {:induction false} PairKeepsOneLine(s: string, first: char, second: char, sub: char)
    requires OneLine(s) && !LineTerminator(sub)
    ensures OneLine(ReplacePair(s, first, second, sub))
    decreases |s|
  {
    if |s| >= 2 && s[0] == first && s[1] == second {
      PairKeepsOneLine(s[2..], first, second, sub);
    } else if s != "" {
      PairKeepsOneLine(s[1..], first, second, sub);
    }
  }

  lemma LoadedIsOneLine(line: string, key: string)
    requires IsKey(ParseLine(line), key)
    ensures OneLine(ParseLine(line).value)
  {
    var raw := ParseLine(line).rawValue;
    if |raw| >= 2 {
      PairKeepsOneLine(raw[1..|raw| - 1], '\\', '"', '"');
      PairKeepsOneLine(ReplacePair(raw[1..|raw| - 1], '\\', '"', '"'), '\\', '\\', '\\');
    }
  }

  /** A hidden entry with another value that no entry of the key follows, hidden or not. */
  ghost predicate Overrides(entries: seq<Entry>, j: nat, key: string, value: string) {
    && j < |entries| && Hidden(entries[j], key) && Reloaded(entries[j]).value != value
    && forall i :: j < i < |entries| ==> !IsKey(entries[i], key) && !Hidden(entries[i], key)
  }

  /** Every saved entry of the key carries the value. */
  lemma SavedKeys(entries: seq<Entry>, key: string, value: string)
    ensures forall e <- Saved(entries, key, value) :: IsKey(e, key) ==> e == NewEntry(key, value)
    ensures exists e <- Saved(entries, key, value) :: IsKey(e, key)
    ensures forall e <- Saved(entries, key, value) :: e == NewEntry(key, value) || (e in entries && !IsKey(e, key))
  {
    var saved := Saved(entries, key, value);
    if e :| e in entries && IsKey(e, key) {
      var i :| 0 <= i < |entries| && entries[i] == e;
      assert saved[i] in saved && IsKey(saved[i], key);
    } else {
      assert saved[|entries|] in saved && IsKey(saved[|entries|], key);
    }
  }

  /** Which entries are the key's when the saved file is read again. */
  lemma SavedReloads(entries: seq<Entry>, key: string, value: string)
    requires ValidKey(key) && '\n' !in value && '\r' !in value
    requires forall e <- entries :: Parsed(e)
    ensures var saved := Saved(entries, key, value);
      && Parse(Serialize(saved)) == ReloadedAll(saved)
      && forall e <- saved :: IsKey(Reloaded(e), key) <==> (OneLine(value) && IsKey(e, key)) || Hidden(e, key)
    ensures OneLine(value) ==> forall e <- Saved(entries, key, value) :: IsKey(e, key) ==> Reloaded(e) == e
  {
    var saved := Saved(entries, key, value);
    SavedKeys(entries, key, value);
    NewEntryLine(key, value);
    forall e <- saved
      ensures '\n' !in LineOf(e)
      ensures IsKey(Reloaded(e), key) <==> (OneLine(value) && IsKey(e, key)) || Hidden(e, key)
      ensures OneLine(value) && IsKey(e, key) ==> Reloaded(e) == e
    {
      if e != NewEntry(key, value) {
        ReloadedKey(e, key);
      }
    }
    ParseIsReloaded(saved);
  }

  lemma SavedEntriesLoadIff(entries: seq<Entry>, key: string, value: string)
    requires ValidKey(key) && '\n' !in value && '\r' !in value
    requires forall e <- entries :: Parsed(e)
    ensures var saved := Saved(entries, key, value);
      Lookup(Parse(Serialize(saved)), key) == Some(value)
      <==> LINE_SEPARATOR !in value && PARAGRAPH_SEPARATOR !in value && !exists j :: Overrides(saved, j, key, value)
  {
    var saved := Saved(entries, key, value);
    SavedReloads(entries, key, value);
    SavedKeys(entries, key, value);
    var again := ReloadedAll(saved);
    assert OneLine(value) <==> LINE_SEPARATOR !in value && PARAGRAPH_SEPARATOR !in value;
    assert forall i :: 0 <= i < |saved| ==> saved[i] in saved && again[i] == Reloaded(saved[i]);
    LookupIsLast(again, key);
    if exists e <- again :: IsKey(e, key) {
      var j := LastExists(again, key);
      LoadedIsOneLine(Strip(LineOf(saved[j])), key);
      LastDecides(saved, again, key, value, j);
    } else {
      LookupNone(saved, again, key, value);
    }
  }

  /** The entries saveUserSecret starts from: none when there is no file. */
  function EntriesOf(text: Option<string>): seq<Entry> {
    if text.Some? then Parse(text.value) else []
  }

  /**
   * What saveUserSecret accepts comes back from the file exactly when the value holds no
   * Unicode line or paragraph separator, and no hidden entry with another value follows the
   * key's last one: for every file, or none, and every accepted value.
   */
  lemma SaveThenLoadIff(text: Option<string>, key: string, value: string)
    requires ValidKey(key) && '\n' !in value && '\r' !in value
    ensures var saved := Saved(EntriesOf(text), key, value);
      Lookup(Parse(Serialize(saved)), key) == Some(value)
      <==> LINE_SEPARATOR !in value && PARAGRAPH_SEPARATOR !in value && !exists j :: Overrides(saved, j, key, value)
  {
    EntriesParsed(text);
    SavedEntriesLoadIff(EntriesOf(text), key, value);
  }

  lemma LookupNone(saved: seq<Entry>, again: seq<Entry>, key: string, value: string)
    requires |again| == |saved| && forall e <- again :: !IsKey(e, key)
    requires forall i :: 0 <= i < |saved| ==>
      (IsKey(again[i], key) <==> (OneLine(value) && IsKey(saved[i], key)) || Hidden(saved[i], key))
    requires exists e <- saved :: IsKey(e, key)
    ensures !OneLine(value)
  {
    var e :| e in saved && IsKey(e, key);
    var i :| 0 <= i < |saved| && saved[i] == e;
    assert again[i] in again;
  }

  /** The last of the reloaded key entries decides whether the value came back. */
  lemma LastDecides(saved: seq<Entry>, again: seq<Entry>, key: string, value: string, j: nat)
    requires |again| == |saved| && LastOfKey(again, key, j) && OneLine(again[j].value)
    requires forall i :: 0 <= i < |saved| ==> again[i] == Reloaded(saved[i])
    requires forall i :: 0 <= i < |saved| ==>
      (IsKey(again[i], key) <==> (OneLine(value) && IsKey(saved[i], key)) || Hidden(saved[i], key))
    requires forall i :: 0 <= i < |saved| && IsKey(saved[i], key) ==>
      saved[i].value == value && (OneLine(value) ==> again[i] == saved[i])
    ensures again[j].value == value <==> OneLine(value) && !exists i :: Overrides(saved, i, key, value)
  {
    if OneLine(value) && Hidden(saved[j], key) && again[j].value != value {
      assert Overrides(saved, j, key, value);
    }
    if OneLine(value) {
      if i: nat :| Overrides(saved, i, key, value) {
        assert IsKey(again[i], key);
        assert i == j;
      }
    }
  }

  lemma ReadTwo(first: string, second: string)
    requires '\n' !in first && '\n' !in second && Strip(first) == first && second != ""
    ensures Parse(first + "\n" + second) == [ParseLine(first), ParseLine(second)]
  {
    SplitWhole(second);
    SplitAtNewline(first, second);
    var lines := [first, second];
    assert SplitLines(first + "\n" + second) == lines && DropFinalEmpty(lines) == lines;
    assert ParseLines(lines) == [ParseLine(first), ParseLine(second)];
  }

  lemma NoReturnAtEnd(key: string, value: string)
    requires ValidKey(key) && OneLine(value)
    ensures Strip(key + "=" + value) == key + "=" + value && '\n' !in key + "=" + value
  {
    KeyLineEnds(key, value);
  }

  /** A last line that ends in a return is no key entry. */
  lemma ReadWithReturn(key: string, first: string, last: string)
    requires ValidKey(key) && OneLine(first) && OneLine(last)
    ensures var line := key + "=" + last + "\r";
      Parse(key + "=" + first + "\n" + line) == [KeyEntry(key, first, Unquote(first)), Other(line)]
  {
    var value := last + "\r";
    assert key + "=" + last + "\r" == key + "=" + value;
    assert value[|last|] == '\r' && '\r' in value;
    NoReturnAtEnd(key, first);
    NoReturnAtEnd(key, last);
    ReadTwo(key + "=" + first, key + "=" + value);
    ParseKeyLine(key, first);
    ParseKeyLine(key, value);
  }

  lemma PrintTwo(first: Entry, second: Entry)
    requires '\n' !in LineOf(first) && '\n' !in LineOf(second)
    ensures Parse(Serialize([first, second])) == [ParseLine(Strip(LineOf(first))), ParseLine(Strip(LineOf(second)))]
  {
    var lines := LinesOf([first, second]);
    assert lines == [LineOf(first), LineOf(second)];
    SplitPrinted(lines);
    assert StripAll(lines) == [Strip(LineOf(first)), Strip(LineOf(second))];
  }

  /** Printed with a newline after it, that line is a key entry from then on. */
  lemma PrintWithReturn(key: string, value: string, last: string)
    requires ValidKey(key) && OneLine(value) && OneLine(last)
    ensures Parse(Serialize([NewEntry(key, value), Other(key + "=" + last + "\r")]))
         == [NewEntry(key, value), KeyEntry(key, last, Unquote(last))]
  {
    var line := key + "=" + last + "\r";
    assert '\n' !in key;
    NewEntryLine(key, value);
    PrintTwo(NewEntry(key, value), Other(line));
    assert Strip(line) == key + "=" + last;
    ParseKeyLine(key, last);
  }

  /**
   * So a return at the end of a line can undo a save: the key is set to a value, and the
   * file, read again, has the one of the last line.
   */
  lemma ReturnUndoesSave(key: string, first: string, last: string, value: string)
    requires ValidKey(key) && OneLine(first) && OneLine(last) && OneLine(value)
    ensures var text := key + "=" + first + "\n" + (key + "=" + last + "\r");
      Lookup(Parse(Serialize(Saved(Parse(text), key, value))), key) == Some(Unquote(last))
  {
    ReadWithReturn(key, first, last);
    PrintWithReturn(key, value, last);
    var entries := [KeyEntry(key, first, Unquote(first)), Other(key + "=" + last + "\r")];
    assert IsKey(entries[0], key) && entries[0] in entries;
    assert Saved(entries, key, value) == [NewEntry(key, value), Other(key + "=" + last + "\r")];
  }

  // ---------- removing ----------

  function Unset(entries: seq<Entry>, key: string): seq<Entry> {
    Filter(entries, (e: Entry) => !IsKey(e, key))
  }

  lemma {:induction false} LookupUnset(entries: seq<Entry>, key: string, other: string)
    ensures Lookup(Unset(entries, key), other) == if other == key then None else Lookup(entries, other)
  {
    if entries != [] {
      var front, last := entries[..|entries| - 1], entries[|entries| - 1];
      LookupUnset(front, key, other);
      if !IsKey(last, key) {
        var kept := Unset(front, key);
        assert (kept + [last])[..|kept|] == kept;
      }
    }
  }

  datatype Removal = BadKey | Unchanged | Rewritten(text: string)

  lemma {:induction false} UnsetShrinks(entries: seq<Entry>, key: string)
    ensures |Unset(entries, key)| == |entries| <==> forall e <- entries :: !IsKey(e, key)
  {
    if entries != [] {
      var front, last := entries[..|entries| - 1], entries[|entries| - 1];
      UnsetShrinks(front, key);
      assert entries == front + [last];
    }
  }

  /**
   * The file is rewritten only when the key was there, and then as all its other entries, in
   * their order. Read again, it has those when there are any and none of their lines ends in a return.
   */
  method UnsetUserSecret(text: Option<string>, key: string) returns (outcome: Removal)
    ensures outcome == if !ValidKey(key) then BadKey
      else if text.Some? && exists e <- Parse(text.value) :: IsKey(e, key)
      then Rewritten(Serialize(Unset(Parse(text.value), key)))
      else Unchanged
    ensures outcome.Rewritten? ==> exists after ::
      && outcome.text == Serialize(after)
      && Selects(Parse(text.value), after, (e: Entry) => !(e.KeyEntry? && e.key == key))
      && (after != [] && NoReturns(after) ==> Parse(outcome.text) == after)
  {
    if !ValidKey(key) {
      return BadKey;
    }
    if text.None? {
      return Unchanged;
    }
    var entries := ParseSecretsText(text.value);
    var before := |entries|;
    UnsetShrinks(entries, key);
    entries := Unset(entries, key);
    outcome := if |entries| != before then Rewritten(Serialize(entries)) else Unchanged;
    UnsetSelects(text.value, key);
  }

  lemma UnsetSelects(text: string, key: string)
    ensures var after := Unset(Parse(text), key);
      && Selects(Parse(text), after, (e: Entry) => !(e.KeyEntry? && e.key == key))
      && (after != [] && NoReturns(after) ==> Parse(Serialize(after)) == after)
  {
    var after := Unset(Parse(text), key);
    FilterSelects(Parse(text), (e: Entry) => !IsKey(e, key));
    SelectSame(Parse(text), after, (e: Entry) => !IsKey(e, key), (e: Entry) => !(e.KeyEntry? && e.key == key));
    ParsedEntries(text);
    if after != [] {
      ParseSerializeIff(after);
    }
  }

  lemma UnsetEntriesLoadIff(entries: seq<Entry>, key: string)
    requires forall e <- entries :: Parsed(e)
    ensures Lookup(Parse(Serialize(Unset(entries, key))), key) == None <==> forall e <- entries :: !Hidden(e, key)
  {
    var left := Unset(entries, key);
    HiddenSurvives(entries, key);
    if left == [] {
      EmptyDoesNotRoundTrip();
    } else {
      UnsetReloads(left, key);
    }
  }

  /** Removing a key and reading the file again leaves no value exactly when no hidden entry of the key was there. */
  lemma UnsetThenLoadIff(text: string, key: string)
    ensures Lookup(Parse(Serialize(Unset(Parse(text), key))), key) == None
       <==> forall e <- Parse(text) :: !Hidden(e, key)
  {
    ParsedEntries(text);
    UnsetEntriesLoadIff(Parse(text), key);
  }

  lemma HiddenSurvives(entries: seq<Entry>, key: string)
    ensures (forall e <- entries :: !Hidden(e, key)) <==> forall e <- Unset(entries, key) :: !Hidden(e, key)
    ensures forall e <- Unset(entries, key) :: e in entries && !IsKey(e, key)
  {
    assert forall e <- entries :: Hidden(e, key) ==> e in Unset(entries, key);
  }

  lemma UnsetReloads(left: seq<Entry>, key: string)
    requires left != [] && forall e <- left :: Parsed(e) && !IsKey(e, key)
    ensures Lookup(Parse(Serialize(left)), key) == None <==> forall e <- left :: !Hidden(e, key)
  {
    forall e <- left ensures IsKey(Reloaded(e), key) <==> Hidden(e, key) {
      ReloadedKey(e, key);
    }
    ParseIsReloaded(left);
    var again := ReloadedAll(left);
    LookupIsLast(again, key);
    assert forall i :: 0 <= i < |left| ==> left[i] in left && again[i] in again && again[i] == Reloaded(left[i]);
  }

  /** Without lines that end in a return every other key keeps its value too. */
  lemma UnsetThenLoad(entries: seq<Entry>, key: string, other: string)
    requires NoReturns(entries) && forall e <- entries :: Parsed(e)
    ensures Lookup(Parse(Serialize(Unset(entries, key))), other)
         == if other == key then None else Lookup(entries, other)
  {
    LookupUnset(entries, key, other);
    var left := Unset(entries, key);
    if left == [] {
      EmptyDoesNotRoundTrip();
    } else {
      ParseSerializeIff(left);
    }
  }
}
