/**
 * The two readers that look at the end of a log through a window that doubles until it
 * holds enough: whatever the window cuts, they return what a full read would.
 */
module TailReader {
  import opened Prelude
  import opened Utf8
  import StoreProtocol

  /** s.slice(-n), for n > 0 */
  function LastN<T>(s: seq<T>, n: nat): (r: seq<T>)
    ensures |r| == Min(n, |s|) && IsSuffix(r, s)
  {
    if |s| <= n then s else s[|s| - n..]
  }

  /** lines.slice(1) */
  function DropFirst<T>(s: seq<T>): seq<T> {
    if s == [] then [] else s[1..]
  }

  ghost predicate IsSuffix<T>(tail: seq<T>, s: seq<T>) {
    |tail| <= |s| && s[|s| - |tail|..] == tail
  }

  function FileLines(bytes: seq<Byte>): seq<Text> {
    Lines(Decode(bytes))
  }

  // ---------- what a window sees ----------

  function NonEmpty(lines: seq<Text>): seq<Text> {
    Filter(lines, (line: Text) => line != [])
  }

  /** The pieces of two strings joined: the last of the first and the first of the second are one. */
  function Glue<T>(sa: seq<seq<T>>, sb: seq<seq<T>>): (r: seq<seq<T>>)
    requires |sa| >= 1 && |sb| >= 1
    ensures |r| == |sa| + |sb| - 1
  {
    sa[..|sa| - 1] + [sa[|sa| - 1] + sb[0]] + sb[1..]
  }

  lemma {:induction false} SplitJoin<T>(a: seq<T>, b: seq<T>, sep: T)
    ensures Split(a + b, sep) == Glue(Split(a, sep), Split(b, sep))
    decreases |a|
  {
    var sb := Split(b, sep);
    if a == [] {
      assert a + b == b && [] + sb[0] == sb[0];
      assert sb == [sb[0]] + sb[1..];
    } else {
      assert (a + b)[1..] == a[1..] + b;
      SplitJoin(a[1..], b, sep);
      GlueHead(a[0], Split(a[1..], sep), sb);
    }
  }

  /** Gluing commutes with putting one element, or one separator, in front. */
  lemma GlueHead<T>(x: T, sa: seq<seq<T>>, sb: seq<seq<T>>)
    requires |sa| >= 1 && |sb| >= 1
    ensures Glue([[]] + sa, sb) == [[]] + Glue(sa, sb)
    ensures Glue([[x] + sa[0]] + sa[1..], sb) == [[x] + Glue(sa, sb)[0]] + Glue(sa, sb)[1..]
  {
    var g := Glue(sa, sb);
    if |sa| == 1 {
      assert [x] + (sa[0] + sb[0]) == [x] + sa[0] + sb[0];
    } else {
      assert g[0] == sa[0];
    }
  }

  lemma SuffixOfFilter<T>(a: seq<T>, b: seq<T>, p: T -> bool)
    ensures IsSuffix(Filter(b, p), Filter(a + b, p))
  {
    FilterConcat(a, b, p);
  }

  lemma SuffixTransitive<T>(a: seq<T>, b: seq<T>, c: seq<T>)
    requires IsSuffix(a, b) && IsSuffix(b, c)
    ensures IsSuffix(a, c)
  {
    assert c[|c| - |a|..] == c[|c| - |b|..][|b| - |a|..];
  }

  lemma DecodeEachConcat(a: seq<seq<Byte>>, b: seq<seq<Byte>>)
    ensures DecodeEach(a + b) == DecodeEach(a) + DecodeEach(b)
  {
  }

  lemma NonEmptyHead(head: Text, rest: seq<Text>)
    ensures NonEmpty([head] + rest) == (if head == [] then [] else [head]) + NonEmpty(rest)
  {
    FilterConcat([head], rest, (line: Text) => line != []);
    assert [head][..0] == [];
  }

  lemma LinesArePieces(bytes: seq<Byte>)
    ensures FileLines(bytes) == NonEmpty(DecodeEach(Split(bytes, NEWLINE)))
  {
    SplitDecode(bytes);
  }

  /** Past its first piece, a window shows exactly the lines the file ends with. */
  lemma WindowShowsSuffix(before: seq<Byte>, window: seq<Byte>)
    ensures IsSuffix(DropFirst(FileLines(window)), FileLines(before + window))
  {
    var sb, sw := Split(before, NEWLINE), Split(window, NEWLINE);
    SplitJoin(before, window, NEWLINE);
    LinesArePieces(window);
    LinesArePieces(before + window);
    var head := sb[..|sb| - 1] + [sb[|sb| - 1] + sw[0]];
    var rest := DecodeEach(sw[1..]);
    DecodeEachConcat(head, sw[1..]);
    DecodeEachConcat([sw[0]], sw[1..]);
    assert [sw[0]] + sw[1..] == sw;
    assert DecodeEach([sw[0]]) == [Decode(sw[0])];
    DroppedIsSuffix(Decode(sw[0]), rest);
    SuffixOfFilter(DecodeEach(head), rest, (line: Text) => line != []);
    SuffixTransitive(DropFirst(FileLines(window)), NonEmpty(rest), FileLines(before + window));
  }

  lemma DroppedIsSuffix(head: Text, rest: seq<Text>)
    ensures IsSuffix(DropFirst(NonEmpty([head] + rest)), NonEmpty(rest))
  {
    NonEmptyHead(head, rest);
  }

  // ---------- readRecentEventsFromLog ----------

  /**
   * The last `limit` lines of the log, all of them when there are fewer. `initial` is 64 KiB in
   * the program. The branch that falls back to reading the whole file is never taken.
   */
  method ReadRecentLines(file: seq<Byte>, limit: nat, initial: nat) returns (recent: seq<Text>)
    requires initial > 0
    ensures |recent| == Min(limit, |FileLines(file)|) && IsSuffix(recent, FileLines(file))
  {
    if limit == 0 {
      return [];
    }
    if |file| == 0 {
      return [];
    }
    var bytesToRead := Min(|file|, initial);
    while true
      invariant 0 < bytesToRead <= |file|
      decreases |file| - bytesToRead
    {
      var window := file[|file| - bytesToRead..];
      var lines := Lines(Decode(window));
      var hasFileStart := bytesToRead == |file|;
      if hasFileStart || |lines| > limit {
        var completeLines := if hasFileStart then lines else DropFirst(lines);
        if hasFileStart {
          assert window == file;
        } else {
          assert file == file[..|file| - bytesToRead] + window;
          WindowShowsSuffix(file[..|file| - bytesToRead], window);
        }
        recent := LastN(completeLines, limit);
        SuffixTransitive(recent, completeLines, FileLines(file));
        return;
      }
      var nextBytes := Min(|file|, bytesToRead * 2);
      if nextBytes == bytesToRead {
        assert false;
      }
      bytesToRead := nextBytes;
    }
  }

  // ---------- readNotificationSeqFromJournal ----------

  /** The sequence number of the last line that parses, 0 when none does. */
  function LastParsed(lines: seq<Text>, parse: Text -> Option<nat>): nat
    decreases |lines|
  {
    if lines == [] then 0
    else match parse(lines[|lines| - 1])
      case Some(n) => n
      case None => LastParsed(lines[..|lines| - 1], parse)
  }

  predicate AnyParses(lines: seq<Text>, parse: Text -> Option<nat>) {
    exists line <- lines :: parse(line).Some?
  }

  lemma {:induction false} LastParsedOfSuffix(tail: seq<Text>, s: seq<Text>, parse: Text -> Option<nat>)
    requires IsSuffix(tail, s) && AnyParses(tail, parse)
    ensures LastParsed(tail, parse) == LastParsed(s, parse)
    decreases |tail|
  {
    assert tail[|tail| - 1] == s[|s| - 1];
    if parse(tail[|tail| - 1]).None? {
      var front := tail[..|tail| - 1];
      assert s[..|s| - 1][|s| - 1 - |front|..] == front;
      assert tail == front + [tail[|tail| - 1]];
      LastParsedOfSuffix(front, s[..|s| - 1], parse);
    }
  }

  /** The scan of one window's lines from the last to the first. */
  method ScanBack(candidates: seq<Text>, parse: Text -> Option<nat>) returns (found: Option<nat>)
    ensures found.Some? ==> AnyParses(candidates, parse) && found.value == LastParsed(candidates, parse)
    ensures found.None? ==> LastParsed(candidates, parse) == 0
  {
    var index := |candidates|;
    assert candidates[..index] == candidates;
    while index > 0
      invariant 0 <= index <= |candidates|
      invariant LastParsed(candidates, parse) == LastParsed(candidates[..index], parse)
    {
      index := index - 1;
      assert candidates[..index + 1][..index] == candidates[..index];
      var record := parse(candidates[index]);
      if record.Some? {
        assert candidates[index] in candidates;
        return record;
      }
    }
    found := None;
  }

  /** The number of the last line that parses. */
  ghost predicate LastNumber(lines: seq<Text>, parse: Text -> Option<nat>, n: nat) {
    exists i :: 0 <= i < |lines| && parse(lines[i]) == Some(n)
                && forall j :: i < j < |lines| ==> parse(lines[j]).None?
  }

  lemma {:induction false} LastParsedIs(lines: seq<Text>, parse: Text -> Option<nat>)
    ensures if exists line <- lines :: parse(line).Some? then LastNumber(lines, parse, LastParsed(lines, parse))
            else LastParsed(lines, parse) == 0
    decreases |lines|
  {
    if lines != [] {
      var front, last := lines[..|lines| - 1], lines[|lines| - 1];
      assert lines == front + [last];
      if parse(last).None? {
        LastParsedIs(front, parse);
        if exists line <- lines :: parse(line).Some? {
          var i :| 0 <= i < |front| && parse(front[i]) == Some(LastParsed(front, parse))
                   && forall j :: i < j < |front| ==> parse(front[j]).None?;
          assert parse(lines[i]) == Some(LastParsed(lines, parse));
        }
      } else {
        assert parse(lines[|lines| - 1]) == Some(LastParsed(lines, parse));
      }
    }
  }

  method ReadLastSeq(file: seq<Byte>, parse: Text -> Option<nat>, initial: nat) returns (last: nat)
    requires initial > 0
    ensures last == LastParsed(FileLines(file), parse)
    ensures if exists line <- FileLines(file) :: parse(line).Some? then LastNumber(FileLines(file), parse, last)
            else last == 0
  {
    LastParsedIs(FileLines(file), parse);
    if |file| == 0 {
      return 0;
    }
    var bytesToRead := Min(|file|, initial);
    while true
      invariant 0 < bytesToRead <= |file|
      decreases |file| - bytesToRead
    {
      var window := file[|file| - bytesToRead..];
      var lines := Lines(Decode(window));
      var hasFileStart := bytesToRead == |file|;
      var candidates := if hasFileStart then lines else DropFirst(lines);
      var found := ScanBack(candidates, parse);
      if found.Some? {
        if hasFileStart {
          assert window == file;
        } else {
          assert file == file[..|file| - bytesToRead] + window;
          WindowShowsSuffix(file[..|file| - bytesToRead], window);
          LastParsedOfSuffix(candidates, FileLines(file), parse);
        }
        return found.value;
      }
      if hasFileStart {
        assert window == file;
        return 0;
      }
      var nextBytes := Min(|file|, bytesToRead * 2);
      if nextBytes == bytesToRead {
        assert false;
      }
      bytesToRead := nextBytes;
    }
  }

  /** In a journal whose parseable numbers increase, the last one is the highest. */
  lemma {:induction false} LastParsedIsHighest(lines: seq<Text>, parse: Text -> Option<nat>)
    requires forall i, j :: 0 <= i < j < |lines| && parse(lines[i]).Some? && parse(lines[j]).Some? ==>
      parse(lines[i]).value < parse(lines[j]).value
    ensures forall line <- lines :: parse(line).Some? ==> parse(line).value <= LastParsed(lines, parse)
    decreases |lines|
  {
    if lines != [] {
      var front, last := lines[..|lines| - 1], lines[|lines| - 1];
      LastParsedIsHighest(front, parse);
      forall line <- lines | parse(line).Some? ensures parse(line).value <= LastParsed(lines, parse) {
        var i :| 0 <= i < |lines| && lines[i] == line;
        assert i < |front| ==> front[i] == line;
      }
    }
  }

  // ---------- reading back what appends wrote ----------

  /** A log to which the encodings were appended, each with its newline. */
  function LogOf(records: seq<seq<Byte>>): seq<Byte> {
    if records == [] then [] else records[0] + [NEWLINE] + LogOf(records[1..])
  }

  lemma {:induction false} LogReadsBack(records: seq<seq<Byte>>)
    requires forall record <- records :: record != [] && NEWLINE !in record
    ensures FileLines(LogOf(records)) == DecodeEach(records)
  {
    LinesArePieces(LogOf(records));
    if records == [] {
      assert Split(LogOf(records), NEWLINE) == [[]];
      assert DecodeEach([[]]) == [[]];
      NonEmptyHead([], []);
      var one: seq<Text> := [[]];
      assert one + [] == one;
    } else {
      var record, rest := records[0], LogOf(records[1..]);
      assert forall other <- records[1..] :: other in records;
      LogReadsBack(records[1..]);
      LinesArePieces(rest);
      SplitAt(record, rest, NEWLINE);
      DecodeEmpty(START, record);
      DecodeEachConcat([record], Split(rest, NEWLINE));
      assert DecodeEach([record]) == [Decode(record)];
      NonEmptyHead(Decode(record), DecodeEach(Split(rest, NEWLINE)));
      DecodeEachConcat([record], records[1..]);
      assert [record] + records[1..] == records;
    }
  }

  function EncodeEach(lines: seq<Text>): seq<seq<Byte>>
    requires forall line <- lines, c <- line :: Scalar(c)
  {
    seq(|lines|, i requires 0 <= i < |lines| => Encode(lines[i]))
  }

  lemma {:induction false} EncodedLine(line: Text)
    requires forall c <- line :: Scalar(c) && c != NEWLINE
    ensures NEWLINE !in Encode(line) && (line != [] ==> Encode(line) != [])
  {
    if line != [] {
      EncodedLine(line[1..]);
      assert line[0] in line;
    }
  }

  /** Lines of text that are appended in UTF-8, each with its newline, are the lines of the file. */
  lemma TextReadsBack(lines: seq<Text>)
    requires forall line <- lines :: line != [] && forall c <- line :: Scalar(c) && c != NEWLINE
    ensures FileLines(LogOf(EncodeEach(lines))) == lines
  {
    var records := EncodeEach(lines);
    forall record <- records ensures record != [] && NEWLINE !in record {
      var i :| 0 <= i < |records| && records[i] == record;
      assert lines[i] in lines;
      EncodedLine(lines[i]);
    }
    LogReadsBack(records);
    forall i | 0 <= i < |lines| ensures DecodeEach(records)[i] == lines[i] {
      assert lines[i] in lines;
      DecodeEncode(lines[i]);
    }
  }

  /** The lines of a file are the non-empty ones of the pieces between newlines, in their order. */
  lemma LinesSelect(bytes: seq<Byte>)
    ensures Selects(DecodeEach(Split(bytes, NEWLINE)), FileLines(bytes), (line: Text) => line != [])
  {
    LinesArePieces(bytes);
    FilterSelects(DecodeEach(Split(bytes, NEWLINE)), (line: Text) => line != []);
  }

  function EncodeAll(journal: seq<StoreProtocol.Notification>, encode: StoreProtocol.Notification -> seq<Byte>)
    : seq<seq<Byte>>
  {
    seq(|journal|, i requires 0 <= i < |journal| => encode(journal[i]))
  }

  /**
   * For any line encoding the parser understands, the bytes that appends have written make
   * the reader return the number the store protocol computes from the records.
   */
  lemma JournalSeqReadsBack(journal: seq<StoreProtocol.Notification>,
                            encode: StoreProtocol.Notification -> seq<Byte>, parse: Text -> Option<nat>)
    requires forall n <- journal :: encode(n) != [] && NEWLINE !in encode(n)
    requires forall n <- journal :: parse(Decode(encode(n))) == Some(n.id.seqNo)
    ensures LastParsed(FileLines(LogOf(EncodeAll(journal, encode))), parse) == StoreProtocol.LastSeq(journal)
  {
    var records := EncodeAll(journal, encode);
    forall record <- records ensures record != [] && NEWLINE !in record {
      var i :| 0 <= i < |records| && records[i] == record;
      assert journal[i] in journal;
    }
    LogReadsBack(records);
    if journal != [] {
      assert journal[|journal| - 1] in journal;
    }
  }
}
