/**
 * IPC frames: a four-byte big-endian length and a payload. The reader is fed arbitrary
 * chunks of the byte stream; the frames it returns do not depend on how the stream is cut.
 */
module FrameCodec {
  import opened Prelude

  const MAX_FRAME: nat := 10 * 1024 * 1024

  datatype FrameError = TooLarge(length: nat) | BadPayload

  /** What a reader makes of its buffer: the frames, what is left, and the error that stopped it. */
  datatype Scanned<+V> = Scanned(frames: seq<V>, rest: seq<Byte>, error: Option<FrameError>)

  /** writeUInt32BE */
  function Header(length: nat): (h: seq<Byte>)
    requires length < 0x1_0000_0000
    ensures |h| == 4
  {
    [length / 0x100_0000, length / 0x1_0000 % 256, length / 256 % 256, length % 256]
  }

  /** readUInt32BE at the front of a buffer. */
  function ReadLength(b: seq<Byte>): nat
    requires |b| >= 4
  {
    (b[0] as int) * 0x100_0000 + (b[1] as int) * 0x1_0000 + (b[2] as int) * 256 + b[3]
  }

  function EncodeFrame(payload: seq<Byte>): seq<Byte>
    requires |payload| < 0x1_0000_0000
  {
    Header(|payload|) + payload
  }

  lemma BytesOfLength(length: nat)
    ensures length / 0x100_0000 * 0x100_0000 + length / 0x1_0000 % 256 * 0x1_0000
            + length / 256 % 256 * 256 + length % 256
         == length
  {
    var high, middle := length / 0x1_0000, length / 256;
    assert middle / 256 == high && high / 256 == length / 0x100_0000;
  }

  lemma HeaderReadsBack(length: nat, rest: seq<Byte>)
    requires length < 0x1_0000_0000
    ensures ReadLength(Header(length) + rest) == length
  {
    var h := Header(length) + rest;
    assert h[0] == Header(length)[0] && h[1] == Header(length)[1];
    assert h[2] == Header(length)[2] && h[3] == Header(length)[3];
    BytesOfLength(length);
  }

  /** What stands at the front of a buffer. */
  datatype Front = Incomplete | Oversized(length: nat) | Complete(payload: seq<Byte>, past: seq<Byte>)

  function FrontOf(b: seq<Byte>): (f: Front)
    ensures f.Complete? ==> |f.past| < |b|
  {
    if |b| < 4 then Incomplete
    else
      var length := ReadLength(b);
      if length > MAX_FRAME then Oversized(length)
      else if |b| < 4 + length then Incomplete
      else Complete(b[4..4 + length], b[4 + length..])
  }

  /** `parse` is JSON.parse of the payload's text, None where it throws. */
  function Scan<V>(b: seq<Byte>, parse: seq<Byte> -> Option<V>): Scanned<V>
    decreases |b|
  {
    match FrontOf(b)
    case Incomplete => Scanned([], b, None)
    case Oversized(length) => Scanned([], b, Some(TooLarge(length)))
    case Complete(payload, past) =>
      match parse(payload)
      case None => Scanned([], b, Some(BadPayload))
      case Some(v) => Scan(past, parse).(frames := [v] + Scan(past, parse).frames)
  }

  /** Taking the first frame off a buffer moves it from what is still to be scanned to what is scanned. */
  lemma TakeFrame<V>(b: seq<Byte>, frames: seq<V>, v: V, parse: seq<Byte> -> Option<V>)
    requires FrontOf(b).Complete? && parse(FrontOf(b).payload) == Some(v)
    ensures Scan(b, parse).(frames := frames + Scan(b, parse).frames)
         == Scan(FrontOf(b).past, parse).(frames := frames + [v] + Scan(FrontOf(b).past, parse).frames)
  {
    var later := Scan(FrontOf(b).past, parse);
    assert frames + [v] + later.frames == frames + ([v] + later.frames);
  }

  class FrameReader<V> {
    const parse: seq<Byte> -> Option<V>
    var buffer: seq<Byte>

    constructor (parse: seq<Byte> -> Option<V>)
      ensures this.parse == parse && buffer == []
    {
      this.parse := parse;
      buffer := [];
    }

    /** On an error the frames already taken out of the buffer by this call are lost to the caller. */
    method Push(chunk: seq<Byte>) returns (frames: seq<V>, error: Option<FrameError>)
      modifies this`buffer
      ensures var scanned := Scan(old(buffer) + chunk, parse);
        && buffer == scanned.rest && error == scanned.error
        && frames == if error.None? then scanned.frames else []
    {
      buffer := buffer + chunk;
      frames := [];
      ghost var whole := Scan(buffer, parse);
      while |buffer| >= 4
        invariant whole == Scan(buffer, parse).(frames := frames + Scan(buffer, parse).frames)
        decreases |buffer|
      {
        var length := ReadLength(buffer);
        if length > MAX_FRAME {
          return [], Some(TooLarge(length));
        }
        if |buffer| < 4 + length {
          break;
        }
        match parse(buffer[4..4 + length]) {
          case None => return [], Some(BadPayload);
          case Some(v) =>
            TakeFrame(buffer, frames, v, parse);
            frames := frames + [v];
        }
        buffer := buffer[4 + length..];
      }
      assert frames + [] == frames;
      error := None;
    }
  }

  // ---------- independence of the cut ----------

  /** More bytes at the end do not change a front that is complete or oversized. */
  lemma FrontStays(a: seq<Byte>, b: seq<Byte>)
    ensures FrontOf(a).Complete? ==> FrontOf(a + b) == Complete(FrontOf(a).payload, FrontOf(a).past + b)
    ensures FrontOf(a).Oversized? ==> FrontOf(a + b) == FrontOf(a)
  {
  }

  function Prepend<V>(frames: seq<V>, s: Scanned<V>): Scanned<V> {
    Scanned(frames + s.frames, s.rest, s.error)
  }

  lemma PrependTwice<V>(a: seq<V>, b: seq<V>, s: Scanned<V>)
    ensures Prepend(a, Prepend(b, s)) == Prepend(a + b, s)
    ensures Prepend([], s) == s
  {
    assert a + (b + s.frames) == a + b + s.frames;
  }

  /** What is left over holds no complete frame, and more bytes resume the scan where it stopped. */
  lemma {:induction false} ScanResumes<V>(a: seq<Byte>, b: seq<Byte>, parse: seq<Byte> -> Option<V>)
    requires Scan(a, parse).error.None?
    ensures Scan(a + b, parse) == Prepend(Scan(a, parse).frames, Scan(Scan(a, parse).rest + b, parse))
    decreases |a|
  {
    match FrontOf(a)
    case Incomplete => PrependTwice([], [], Scan(a + b, parse));
    case Complete(payload, past) =>
      FrontStays(a, b);
      ScanResumes(past, b, parse);
      var v := parse(payload).value;
      var later := Scan(past, parse);
      PrependTwice([v], later.frames, Scan(later.rest + b, parse));
  }

  function Concat(chunks: seq<seq<Byte>>): seq<Byte> {
    if chunks == [] then [] else Concat(chunks[..|chunks| - 1]) + chunks[|chunks| - 1]
  }

  lemma StreamGrows(start: seq<Byte>, chunks: seq<seq<Byte>>, i: nat)
    requires i < |chunks|
    ensures start + Concat(chunks[..i + 1]) == start + Concat(chunks[..i]) + chunks[i]
  {
    assert chunks[..i + 1][..i] == chunks[..i];
  }

  /** Feed the chunks one after another; stop at the first error. */
  method PushAll<V>(reader: FrameReader<V>, chunks: seq<seq<Byte>>) returns (frames: seq<V>, error: Option<FrameError>)
    requires Scan(reader.buffer, reader.parse) == Scanned([], reader.buffer, None)
    modifies reader
    ensures error.None? ==>
      Scan(old(reader.buffer) + Concat(chunks), reader.parse) == Scanned(frames, reader.buffer, None)
    ensures error.None? <==> Scan(old(reader.buffer) + Concat(chunks), reader.parse).error.None?
  {
    frames, error := [], None;
    ghost var start := reader.buffer;
    assert start + Concat(chunks[..0]) == start;
    var i := 0;
    while i < |chunks|
      invariant i <= |chunks| && error.None?
      invariant Scan(start + Concat(chunks[..i]), reader.parse) == Scanned(frames, reader.buffer, None)
    {
      ScanResumes(start + Concat(chunks[..i]), chunks[i], reader.parse);
      StreamGrows(start, chunks, i);
      var more;
      more, error := reader.Push(chunks[i]);
      i := i + 1;
      if error.Some? {
        ErrorStays(start, chunks, i, reader.parse);
        return;
      }
      frames := frames + more;
    }
    assert chunks[..i] == chunks;
  }

  /** Once a scan has met an error, no further bytes help. */
  lemma {:induction false} ScanErrorStays<V>(a: seq<Byte>, b: seq<Byte>, parse: seq<Byte> -> Option<V>)
    requires Scan(a, parse).error.Some?
    ensures Scan(a + b, parse).error == Scan(a, parse).error
    ensures Scan(a + b, parse).frames == Scan(a, parse).frames
    ensures Scan(a + b, parse).rest == Scan(a, parse).rest + b
    decreases |a|
  {
    FrontStays(a, b);
    match FrontOf(a)
    case Oversized(_) =>
    case Complete(payload, past) =>
      if parse(payload).Some? {
        ScanErrorStays(past, b, parse);
      }
  }

  lemma {:induction false} ErrorStays<V>(start: seq<Byte>, chunks: seq<seq<Byte>>, i: nat,
                                         parse: seq<Byte> -> Option<V>)
    requires i <= |chunks| && Scan(start + Concat(chunks[..i]), parse).error.Some?
    ensures Scan(start + Concat(chunks), parse).error.Some?
    decreases |chunks| - i
  {
    if i == |chunks| {
      assert chunks[..i] == chunks;
    } else {
      StreamGrows(start, chunks, i);
      ScanErrorStays(start + Concat(chunks[..i]), chunks[i], parse);
      ErrorStays(start, chunks, i + 1, parse);
    }
  }

  /** The buffer an error leaves behind makes every later push fail the same way and yield nothing. */
  lemma {:induction false} ErrorIsSticky<V>(a: seq<Byte>, chunk: seq<Byte>, parse: seq<Byte> -> Option<V>)
    requires Scan(a, parse).error.Some?
    ensures var left := Scan(a, parse).rest + chunk;
      Scan(left, parse) == Scanned([], left, Scan(a, parse).error)
    decreases |a|
  {
    FrontStays(a, chunk);
    match FrontOf(a)
    case Oversized(_) =>
    case Complete(payload, past) =>
      if parse(payload).Some? {
        ErrorIsSticky(past, chunk, parse);
      }
  }

  // ---------- encoding and decoding ----------

  function EncodeAll(payloads: seq<seq<Byte>>): seq<Byte>
    requires forall p <- payloads :: |p| <= MAX_FRAME
  {
    if payloads == [] then [] else EncodeFrame(payloads[0]) + EncodeAll(payloads[1..])
  }

  function ParseAll<V>(payloads: seq<seq<Byte>>, parse: seq<Byte> -> Option<V>): seq<V>
    requires forall p <- payloads :: parse(p).Some?
  {
    seq(|payloads|, i requires 0 <= i < |payloads| => parse(payloads[i]).value)
  }

  lemma {:induction false} DecodeEncoded<V>(payloads: seq<seq<Byte>>, tail: seq<Byte>, parse: seq<Byte> -> Option<V>)
    requires forall p <- payloads :: |p| <= MAX_FRAME && parse(p).Some?
    ensures Scan(EncodeAll(payloads) + tail, parse) == Prepend(ParseAll(payloads, parse), Scan(tail, parse))
    decreases |payloads|
  {
    if payloads == [] {
      assert EncodeAll(payloads) + tail == tail;
      assert ParseAll(payloads, parse) == [];
      PrependTwice([], [], Scan(tail, parse));
    } else {
      var p, more := payloads[0], EncodeAll(payloads[1..]) + tail;
      assert EncodeAll(payloads) + tail == EncodeFrame(p) + more;
      FirstFrame(p, more);
      DecodeEncoded(payloads[1..], tail, parse);
      ParseAllHead(payloads, parse);
      PrependTwice([parse(p).value], ParseAll(payloads[1..], parse), Scan(tail, parse));
    }
  }

  lemma FirstFrame(p: seq<Byte>, more: seq<Byte>)
    requires |p| <= MAX_FRAME
    ensures FrontOf(EncodeFrame(p) + more) == Complete(p, more)
  {
    var b := EncodeFrame(p) + more;
    assert b == Header(|p|) + (p + more);
    HeaderReadsBack(|p|, p + more);
  }

  lemma ParseAllHead<V>(payloads: seq<seq<Byte>>, parse: seq<Byte> -> Option<V>)
    requires payloads != [] && forall p <- payloads :: parse(p).Some?
    ensures ParseAll(payloads, parse) == [parse(payloads[0]).value] + ParseAll(payloads[1..], parse)
  {
  }

  lemma LengthWritesBack(b: seq<Byte>)
    requires |b| >= 4
    ensures ReadLength(b) < 0x1_0000_0000 && Header(ReadLength(b)) == b[..4]
  {
    var n, low, middle := ReadLength(b), (b[2] as int) * 256 + b[3], (b[0] as int) * 256 + b[1];
    assert 0 <= low < 0x1_0000 && n == middle * 0x1_0000 + low;
    assert n / 0x1_0000 == middle && n / 0x100_0000 == b[0];
    assert n / 256 == middle * 256 + b[2];
    assert Header(n) == [b[0], b[1], b[2], b[3]];
    assert b[..4] == [b[0], b[1], b[2], b[3]];
  }

  /** The rest of a stream begins with a frame of more than 10 MiB. */
  ghost predicate StartsTooLarge(rest: seq<Byte>, length: nat) {
    10485760 < length < 0x1_0000_0000 && Header(length) <= rest
  }

  /** It begins with a frame whose payload does not parse. */
  ghost predicate StartsBad<V>(rest: seq<Byte>, parse: seq<Byte> -> Option<V>) {
    exists p :: |p| <= 10485760 && parse(p).None? && EncodeFrame(p) <= rest
  }

  lemma FrontReads(b: seq<Byte>)
    ensures match FrontOf(b)
      case Incomplete => |b| < 4 || (ReadLength(b) <= 10485760 && |b| < 4 + ReadLength(b))
      case Oversized(length) => StartsTooLarge(b, length)
      case Complete(payload, past) => |payload| <= 10485760 && b == EncodeFrame(payload) + past
  {
    if |b| >= 4 {
      LengthWritesBack(b);
      assert b == b[..4] + b[4..];
    }
  }

  /** What a frame at the front of a buffer is. */
  lemma FrontOfFrame(p: seq<Byte>, b: seq<Byte>)
    requires |p| <= 10485760 && EncodeFrame(p) <= b
    ensures FrontOf(b) == Complete(p, b[4 + |p|..])
  {
    FirstFrame(p, b[4 + |p|..]);
    assert b == EncodeFrame(p) + b[4 + |p|..];
  }

  lemma FrontOfHeader(length: nat, b: seq<Byte>)
    requires StartsTooLarge(b, length)
    ensures FrontOf(b) == Oversized(length)
  {
    HeaderReadsBack(length, b[4..]);
    assert b == Header(length) + b[4..];
  }

  lemma ErrorAtFront<V>(rest: seq<Byte>, parse: seq<Byte> -> Option<V>)
    requires FrontOf(rest).Complete? ==> parse(FrontOf(rest).payload).None?
    ensures Scan(rest, parse).rest == rest
    ensures forall n: nat :: Scan(rest, parse).error == Some(TooLarge(n)) <==> StartsTooLarge(rest, n)
    ensures Scan(rest, parse).error == Some(BadPayload) <==> StartsBad(rest, parse)
  {
    FrontReads(rest);
    if FrontOf(rest).Complete? {
      assert EncodeFrame(FrontOf(rest).payload) <= rest;
    }
    forall n: nat | StartsTooLarge(rest, n) ensures FrontOf(rest) == Oversized(n) {
      FrontOfHeader(n, rest);
    }
    if p :| |p| <= 10485760 && parse(p).None? && EncodeFrame(p) <= rest {
      FrontOfFrame(p, rest);
    }
  }

  /** The stream is the encodings of payloads that parse to the frames, and then the rest. */
  ghost predicate Reads<V>(b: seq<Byte>, parse: seq<Byte> -> Option<V>, payloads: seq<seq<Byte>>,
                           frames: seq<V>, rest: seq<Byte>)
  {
    && (forall p <- payloads :: |p| <= 10485760 && parse(p).Some?)
    && b == EncodeAll(payloads) + rest && frames == ParseAll(payloads, parse)
  }

  /** Why reading stopped: what is left begins with a bad frame, or with none that is complete. */
  ghost predicate Stopped<V>(rest: seq<Byte>, parse: seq<Byte> -> Option<V>, error: Option<FrameError>) {
    && (forall n: nat :: error == Some(TooLarge(n)) <==> StartsTooLarge(rest, n))
    && (error == Some(BadPayload) <==> StartsBad(rest, parse))
    && (error.None? ==> |rest| < 4 || |rest| < 4 + ReadLength(rest))
  }

  lemma ReadsMore<V>(payload: seq<Byte>, past: seq<Byte>, parse: seq<Byte> -> Option<V>, more: seq<seq<Byte>>,
                     frames: seq<V>, rest: seq<Byte>)
    requires |payload| <= 10485760 && parse(payload).Some? && Reads(past, parse, more, frames, rest)
    ensures Reads(EncodeFrame(payload) + past, parse, [payload] + more, [parse(payload).value] + frames, rest)
  {
    var payloads := [payload] + more;
    ParseAllHead(payloads, parse);
    assert payloads[1..] == more;
    assert EncodeAll(payloads) + rest == EncodeFrame(payload) + past;
  }

  /**
   * Any stream: the frames read are those it begins with, encoded one after the other, and they
   * are all of them. What is left begins with a frame of more than 10 MiB, or with one whose
   * payload does not parse, exactly when that is the error, and with no complete one otherwise.
   */
  lemma {:induction false} ScanReads<V>(b: seq<Byte>, parse: seq<Byte> -> Option<V>)
    ensures Stopped(Scan(b, parse).rest, parse, Scan(b, parse).error)
    ensures exists payloads :: Reads(b, parse, payloads, Scan(b, parse).frames, Scan(b, parse).rest)
    decreases |b|
  {
    if FrontOf(b).Complete? && parse(FrontOf(b).payload).Some? {
      ScanReads(FrontOf(b).past, parse);
      ReadsFrame(b, parse);
    } else {
      ReadsNone(b, parse);
    }
  }

  lemma ReadsFrame<V>(b: seq<Byte>, parse: seq<Byte> -> Option<V>)
    requires FrontOf(b).Complete? && parse(FrontOf(b).payload).Some?
    requires var later := Scan(FrontOf(b).past, parse);
      exists more :: Reads(FrontOf(b).past, parse, more, later.frames, later.rest)
    ensures exists payloads :: Reads(b, parse, payloads, Scan(b, parse).frames, Scan(b, parse).rest)
  {
    var payload, past := FrontOf(b).payload, FrontOf(b).past;
    FrontReads(b);
    var more :| Reads(past, parse, more, Scan(past, parse).frames, Scan(past, parse).rest);
    ReadsMore(payload, past, parse, more, Scan(past, parse).frames, Scan(past, parse).rest);
    assert Reads(b, parse, [payload] + more, Scan(b, parse).frames, Scan(b, parse).rest);
  }

  lemma ReadsNothing<V>(b: seq<Byte>, parse: seq<Byte> -> Option<V>)
    ensures Reads(b, parse, [], [], b)
  {
    assert EncodeAll([]) + b == b;
  }

  lemma ReadsNone<V>(b: seq<Byte>, parse: seq<Byte> -> Option<V>)
    requires FrontOf(b).Complete? ==> parse(FrontOf(b).payload).None?
    ensures Stopped(Scan(b, parse).rest, parse, Scan(b, parse).error)
    ensures exists payloads :: Reads(b, parse, payloads, Scan(b, parse).frames, Scan(b, parse).rest)
  {
    NothingScanned(b, parse);
    StoppedAtFront(b, parse);
    ReadsNothing(b, parse);
  }

  lemma NothingScanned<V>(b: seq<Byte>, parse: seq<Byte> -> Option<V>)
    requires FrontOf(b).Complete? ==> parse(FrontOf(b).payload).None?
    ensures Scan(b, parse).frames == [] && Scan(b, parse).rest == b
    ensures Scan(b, parse).error.None? ==> FrontOf(b).Incomplete?
  {
  }

  lemma StoppedAtFront<V>(b: seq<Byte>, parse: seq<Byte> -> Option<V>)
    requires FrontOf(b).Complete? ==> parse(FrontOf(b).payload).None?
    ensures Stopped(b, parse, Scan(b, parse).error)
  {
    NothingScanned(b, parse);
    ErrorAtFront(b, parse);
  }

  /** However the encoded messages are cut into chunks, the pushes return the messages and leave nothing over. */
  method RoundTrip<V>(payloads: seq<seq<Byte>>, chunks: seq<seq<Byte>>, parse: seq<Byte> -> Option<V>)
    returns (frames: seq<V>, left: seq<Byte>)
    requires forall p <- payloads :: |p| <= MAX_FRAME && parse(p).Some?
    requires Concat(chunks) == EncodeAll(payloads)
    ensures frames == ParseAll(payloads, parse) && left == []
  {
    var reader := new FrameReader(parse);
    DecodeEncoded(payloads, [], parse);
    assert EncodeAll(payloads) + [] == EncodeAll(payloads) && [] + Concat(chunks) == Concat(chunks);
    var error;
    frames, error := PushAll(reader, chunks);
    left := reader.buffer;
  }

  /** A frame cut short is no frame. */
  lemma ShortFrame(p: seq<Byte>, n: nat)
    requires |p| <= MAX_FRAME && n < |EncodeFrame(p)|
    ensures FrontOf(EncodeFrame(p)[..n]) == Incomplete
  {
    var cut := EncodeFrame(p)[..n];
    if n >= 4 {
      assert cut == Header(|p|) + p[..n - 4];
      HeaderReadsBack(|p|, p[..n - 4]);
    }
  }

  /** How many messages lie fully inside the first `n` bytes of the stream. */
  function Contained(payloads: seq<seq<Byte>>, n: nat): (k: nat)
    requires forall p <- payloads :: |p| <= MAX_FRAME
    ensures k <= |payloads|
  {
    if payloads == [] || n < |EncodeFrame(payloads[0])| then 0
    else 1 + Contained(payloads[1..], n - |EncodeFrame(payloads[0])|)
  }

  lemma {:induction false} ContainedFit(payloads: seq<seq<Byte>>, n: nat)
    requires forall p <- payloads :: |p| <= MAX_FRAME
    ensures var k := Contained(payloads, n);
      && |EncodeAll(payloads[..k])| <= n
      && (k < |payloads| ==> n < |EncodeAll(payloads[..k + 1])|)
  {
    if payloads != [] {
      var size := |EncodeFrame(payloads[0])|;
      if n < size {
        assert payloads[..1] == [payloads[0]] && EncodeAll([payloads[0]]) == EncodeFrame(payloads[0]) + EncodeAll([]);
      } else {
        ContainedFit(payloads[1..], n - size);
        var k := Contained(payloads, n);
        assert payloads[..k][1..] == payloads[1..][..k - 1];
        assert k < |payloads| ==> payloads[..k + 1][1..] == payloads[1..][..k];
      }
    }
  }

  lemma ParsePrefix<V>(payloads: seq<seq<Byte>>, k: nat, parse: seq<Byte> -> Option<V>)
    requires 0 < k <= |payloads| && forall p <- payloads :: parse(p).Some?
    ensures ParseAll(payloads[..k], parse) == [parse(payloads[0]).value] + ParseAll(payloads[1..][..k - 1], parse)
  {
    assert payloads[..k][1..] == payloads[1..][..k - 1];
    ParseAllHead(payloads[..k], parse);
  }

  lemma FrameThenRest<V>(p: seq<Byte>, rest: seq<Byte>, parse: seq<Byte> -> Option<V>)
    requires |p| <= MAX_FRAME && parse(p).Some?
    ensures Scan(EncodeFrame(p) + rest, parse) == Prepend([parse(p).value], Scan(rest, parse))
  {
    FirstFrame(p, rest);
  }

  /** A prefix that cuts the first frame short. */
  lemma PrefixShort<V>(payloads: seq<seq<Byte>>, n: nat, parse: seq<Byte> -> Option<V>)
    requires payloads != [] && forall p <- payloads :: |p| <= MAX_FRAME && parse(p).Some?
    requires n < |EncodeFrame(payloads[0])|
    ensures Scan(EncodeAll(payloads)[..n], parse) == Scanned([], EncodeAll(payloads)[..n], None)
  {
    assert EncodeAll(payloads)[..n] == EncodeFrame(payloads[0])[..n];
    ShortFrame(payloads[0], n);
  }

  /** A prefix that holds the first frame. */
  lemma PrefixLong<V>(payloads: seq<seq<Byte>>, n: nat, rest: seq<Byte>, parse: seq<Byte> -> Option<V>)
    requires payloads != [] && forall p <- payloads :: |p| <= MAX_FRAME && parse(p).Some?
    requires |EncodeFrame(payloads[0])| <= n <= |EncodeAll(payloads)|
    requires rest == EncodeAll(payloads[1..])[..n - |EncodeFrame(payloads[0])|]
    ensures Scan(EncodeAll(payloads)[..n], parse) == Prepend([parse(payloads[0]).value], Scan(rest, parse))
  {
    assert EncodeAll(payloads)[..n] == EncodeFrame(payloads[0]) + rest;
    FrameThenRest(payloads[0], rest, parse);
  }

  ghost predicate PrefixOk<V>(payloads: seq<seq<Byte>>, n: nat, parse: seq<Byte> -> Option<V>)
    requires forall p <- payloads :: |p| <= MAX_FRAME && parse(p).Some?
    requires n <= |EncodeAll(payloads)|
  {
    var scanned := Scan(EncodeAll(payloads)[..n], parse);
    scanned.frames == ParseAll(payloads[..Contained(payloads, n)], parse) && scanned.error.None?
  }

  lemma PrefixStep<V>(payloads: seq<seq<Byte>>, n: nat, parse: seq<Byte> -> Option<V>)
    requires payloads != [] && forall p <- payloads :: |p| <= MAX_FRAME && parse(p).Some?
    requires |EncodeFrame(payloads[0])| <= n <= |EncodeAll(payloads)|
    requires PrefixOk(payloads[1..], n - |EncodeFrame(payloads[0])|, parse)
    ensures PrefixOk(payloads, n, parse)
  {
    var m := n - |EncodeFrame(payloads[0])|;
    var k := Contained(payloads[1..], m);
    assert Contained(payloads, n) == k + 1;
    var rest := EncodeAll(payloads[1..])[..m];
    PrefixLong(payloads, n, rest, parse);
    assert Scan(rest, parse).frames == ParseAll(payloads[1..][..k], parse);
    ParsePrefix(payloads, k + 1, parse);
  }

  /** After any prefix of the stream, exactly the messages that lie fully inside it have been returned. */
  lemma {:induction false} PrefixDecodes<V>(payloads: seq<seq<Byte>>, n: nat, parse: seq<Byte> -> Option<V>)
    requires forall p <- payloads :: |p| <= MAX_FRAME && parse(p).Some?
    requires n <= |EncodeAll(payloads)|
    ensures PrefixOk(payloads, n, parse)
  {
    if payloads == [] {
      assert EncodeAll(payloads)[..n] == [];
    } else {
      var size := |EncodeFrame(payloads[0])|;
      if n < size {
        PrefixShort(payloads, n, parse);
        assert ParseAll(payloads[..0], parse) == [];
      } else {
        PrefixDecodes(payloads[1..], n - size, parse);
        PrefixStep(payloads, n, parse);
      }
    }
  }
}
