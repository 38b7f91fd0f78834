/**
 * Decoding bytes as UTF-8 with replacement characters, the way a Node buffer becomes a
 * string, and splitting the text into lines. The point of the module is that a newline
 * byte is a boundary for the decoder whatever precedes it, so a window cut out of the
 * middle of a file, or of a character, still has the right lines after its first newline.
 */
module Utf8 {
  import opened Prelude

  /** A string as its code points. */
  type Text = seq<int>

  const NEWLINE: Byte := 10
  const REPLACEMENT: int := 0xFFFD

  /** Decoder state: bytes still expected, the value so far, and the range the next byte must lie in. */
  datatype Decoder = Decoder(needed: nat, value: int, lower: int, upper: int)

  const START: Decoder := Decoder(0, 0, 0x80, 0xBF)

  function Lead(b: Byte): (Decoder, Text) {
    if b <= 0x7F then (START, [b])
    else if 0xC2 <= b <= 0xDF then (Decoder(1, b - 0xC0, 0x80, 0xBF), [])
    else if 0xE0 <= b <= 0xEF then
      (Decoder(2, b - 0xE0, if b == 0xE0 then 0xA0 else 0x80, if b == 0xED then 0x9F else 0xBF), [])
    else if 0xF0 <= b <= 0xF4 then
      (Decoder(3, b - 0xF0, if b == 0xF0 then 0x90 else 0x80, if b == 0xF4 then 0x8F else 0xBF), [])
    else (START, [REPLACEMENT])
  }

  /** One byte. A byte that cannot continue the character ends it and is read again as a first byte. */
  function Feed(st: Decoder, b: Byte): (Decoder, Text) {
    if st.needed == 0 then Lead(b)
    else if !(st.lower <= b <= st.upper) then
      var (st', out) := Lead(b);
      (st', [REPLACEMENT] + out)
    else
      var value := st.value * 64 + (b - 0x80);
      if st.needed == 1 then (START, [value]) else (Decoder(st.needed - 1, value, 0x80, 0xBF), [])
  }

  function Flush(st: Decoder): Text {
    if st.needed == 0 then [] else [REPLACEMENT]
  }

  function DecodeFrom(st: Decoder, bytes: seq<Byte>): Text
    decreases |bytes|
  {
    if bytes == [] then Flush(st)
    else
      var (st', out) := Feed(st, bytes[0]);
      out + DecodeFrom(st', bytes[1..])
  }

  function Decode(bytes: seq<Byte>): Text {
    DecodeFrom(START, bytes)
  }

  /** The pieces of `s` between occurrences of `sep`: always at least one. */
  function Split<T(==)>(s: seq<T>, sep: T): (r: seq<seq<T>>)
    ensures |r| >= 1
    decreases |s|
  {
    if s == [] then [[]]
    else
      var rest := Split(s[1..], sep);
      if s[0] == sep then [[]] + rest else [[s[0]] + rest[0]] + rest[1..]
  }

  /** text.split('\n').filter(Boolean) */
  function Lines(text: Text): seq<Text> {
    Filter(Split(text, NEWLINE), (line: Text) => line != [])
  }

  // ---------- the decoder and newlines ----------

  /** What a decoder in the middle of a character has established about its value. */
  ghost predicate Sane(st: Decoder) {
    && 0 <= st.value
    && (st.needed > 0 ==> 0x80 <= st.lower && st.upper <= 0xBF)
    && (st.needed == 1 ==> st.value >= 2)
    && (st.needed == 2 ==> st.value >= 1 || st.lower >= 0xA0)
    && (st.needed == 3 ==> st.value >= 1 || st.lower >= 0x90)
    && st.needed <= 3
  }

  lemma FeedSane(st: Decoder, b: Byte)
    requires Sane(st)
    ensures Sane(Feed(st, b).0)
    ensures b != NEWLINE ==> NEWLINE !in Feed(st, b).1
    ensures b == NEWLINE ==> Feed(st, b) == (START, Flush(st) + [NEWLINE])
  {
    assert Flush(st) + [NEWLINE] == if st.needed == 0 then [NEWLINE] else [REPLACEMENT] + [NEWLINE];
  }

  /** Nothing but a newline byte decodes to a newline. */
  lemma {:induction false} DecodeNoNewline(st: Decoder, bytes: seq<Byte>)
    requires Sane(st) && NEWLINE !in bytes
    ensures NEWLINE !in DecodeFrom(st, bytes)
    decreases |bytes|
  {
    if bytes != [] {
      FeedSane(st, bytes[0]);
      DecodeNoNewline(Feed(st, bytes[0]).0, bytes[1..]);
    }
  }

  /** A newline byte ends whatever character was open: both sides decode on their own. */
  lemma {:induction false} DecodeAtNewline(st: Decoder, a: seq<Byte>, b: seq<Byte>)
    requires Sane(st)
    ensures DecodeFrom(st, a + [NEWLINE] + b) == DecodeFrom(st, a) + [NEWLINE] + Decode(b)
    decreases |a|
  {
    if a == [] {
      FeedSane(st, NEWLINE);
      assert a + [NEWLINE] + b == [NEWLINE] + b;
    } else {
      FeedSane(st, a[0]);
      assert (a + [NEWLINE] + b)[1..] == a[1..] + [NEWLINE] + b;
      DecodeAtNewline(Feed(st, a[0]).0, a[1..], b);
    }
  }

  /** Bytes decode to nothing only when there are none. */
  lemma {:induction false} DecodeEmpty(st: Decoder, bytes: seq<Byte>)
    requires Sane(st)
    ensures DecodeFrom(st, bytes) == [] <==> bytes == [] && st.needed == 0
    decreases |bytes|
  {
    if bytes != [] {
      FeedSane(st, bytes[0]);
      var st' := Feed(st, bytes[0]).0;
      DecodeEmpty(st', bytes[1..]);
      if |bytes| > 1 && Feed(st, bytes[0]).1 == [] {
        assert st'.needed > 0;
      }
    }
  }

  // ---------- encoding ----------

  /** A Unicode scalar value. */
  predicate Scalar(c: int) {
    0 <= c <= 0xD7FF || 0xE000 <= c <= 0x10FFFF
  }

  /** UTF-8 (RFC 3629, section 3). */
  function EncodeChar(c: int): (bytes: seq<Byte>)
    requires Scalar(c)
    ensures 1 <= |bytes| <= 4
  {
    if c < 0x80 then [c]
    else if c < 0x800 then [0xC0 + c / 64, 0x80 + c % 64]
    else if c < 0x10000 then [0xE0 + c / 64 / 64, 0x80 + c / 64 % 64, 0x80 + c % 64]
    else [0xF0 + c / 64 / 64 / 64, 0x80 + c / 64 / 64 % 64, 0x80 + c / 64 % 64, 0x80 + c % 64]
  }

  function Encode(text: Text): seq<Byte>
    requires forall c <- text :: Scalar(c)
  {
    if text == [] then [] else EncodeChar(text[0]) + Encode(text[1..])
  }

  /** The decoder after all of a character's bytes but the last, and what the last one makes of it. */
  lemma DecodeSteps(st: Decoder, bytes: seq<Byte>, rest: seq<Byte>)
    requires bytes != []
    ensures var (st', out) := Feed(st, bytes[0]);
      DecodeFrom(st, bytes + rest) == out + DecodeFrom(st', bytes[1..] + rest)
  {
    assert (bytes + rest)[0] == bytes[0] && (bytes + rest)[1..] == bytes[1..] + rest;
  }

  /** In the middle of a character of which only continuation bytes are missing. */
  ghost predicate Expects(st: Decoder, needed: nat, value: int) {
    st.needed == needed && st.value == value && st.lower == 0x80 && st.upper == 0xBF
  }

  lemma LastByte(st: Decoder, value: int, low: int, rest: seq<Byte>)
    requires st.needed == 1 && st.value == value && st.lower <= 0x80 + low <= st.upper && 0 <= low < 64
    ensures DecodeFrom(st, [0x80 + low] + rest) == [value * 64 + low] + Decode(rest)
  {
    DecodeSteps(st, [0x80 + low], rest);
    assert [0x80 + low][1..] + rest == rest;
  }

  lemma MiddleByte(st: Decoder, bits: int, more: seq<Byte>, rest: seq<Byte>) returns (st': Decoder)
    requires st.needed >= 2 && 0 <= bits < 64 && st.lower <= 0x80 + bits <= st.upper
    ensures Expects(st', st.needed - 1, st.value * 64 + bits)
    ensures DecodeFrom(st, [0x80 + bits] + more + rest) == DecodeFrom(st', more + rest)
  {
    var bytes := [0x80 + bits] + more;
    DecodeSteps(st, bytes, rest);
    assert bytes[1..] == more;
    st' := Feed(st, 0x80 + bits).0;
    assert [] + DecodeFrom(st', more + rest) == DecodeFrom(st', more + rest);
  }

  lemma LeadByte(lead: Byte, more: seq<Byte>, rest: seq<Byte>)
    requires Lead(lead).1 == []
    ensures Decode([lead] + more + rest) == DecodeFrom(Lead(lead).0, more + rest)
  {
    var bytes := [lead] + more;
    DecodeSteps(START, bytes, rest);
    assert bytes[1..] == more;
    assert [] + DecodeFrom(Lead(lead).0, more + rest) == DecodeFrom(Lead(lead).0, more + rest);
  }

  lemma TwoBytes(c: int, rest: seq<Byte>)
    requires 0x80 <= c < 0x800
    ensures Decode(EncodeChar(c) + rest) == [c] + Decode(rest)
  {
    var st := Lead(0xC0 + c / 64).0;
    LeadByte(0xC0 + c / 64, [0x80 + c % 64], rest);
    assert EncodeChar(c) == [0xC0 + c / 64] + [0x80 + c % 64];
    LastByte(st, c / 64, c % 64, rest);
  }

  lemma ThreeBytes(c: int, rest: seq<Byte>)
    requires Scalar(c) && 0x800 <= c < 0x10000
    ensures Decode(EncodeChar(c) + rest) == [c] + Decode(rest)
  {
    var lead, middle, low := 0xE0 + c / 64 / 64, c / 64 % 64, c % 64;
    var st := Lead(lead).0;
    LeadByte(lead, [0x80 + middle] + [0x80 + low], rest);
    assert EncodeChar(c) == [lead] + ([0x80 + middle] + [0x80 + low]);
    var st' := MiddleByte(st, middle, [0x80 + low], rest);
    assert st'.value == c / 64;
    LastByte(st', c / 64, low, rest);
  }

  lemma FourBytes(c: int, rest: seq<Byte>)
    requires Scalar(c) && 0x10000 <= c
    ensures Decode(EncodeChar(c) + rest) == [c] + Decode(rest)
  {
    var lead, high, middle, low := 0xF0 + c / 64 / 64 / 64, c / 64 / 64 % 64, c / 64 % 64, c % 64;
    var st := Lead(lead).0;
    LeadByte(lead, [0x80 + high] + ([0x80 + middle] + [0x80 + low]), rest);
    assert EncodeChar(c) == [lead] + ([0x80 + high] + ([0x80 + middle] + [0x80 + low]));
    var st' := MiddleByte(st, high, [0x80 + middle] + [0x80 + low], rest);
    assert st'.value == c / 64 / 64;
    var st'' := MiddleByte(st', middle, [0x80 + low], rest);
    assert st''.value == c / 64;
    LastByte(st'', c / 64, low, rest);
  }

  lemma DecodeChar(c: int, rest: seq<Byte>)
    requires Scalar(c)
    ensures Decode(EncodeChar(c) + rest) == [c] + Decode(rest)
  {
    if c < 0x80 {
      DecodeSteps(START, [c], rest);
      assert [c][1..] + rest == rest;
    } else if c < 0x800 {
      TwoBytes(c, rest);
    } else if c < 0x10000 {
      ThreeBytes(c, rest);
    } else {
      FourBytes(c, rest);
    }
  }

  /** Decoding inverts encoding, for every text of Unicode scalar values. */
  lemma {:induction false} DecodeEncode(text: Text)
    requires forall c <- text :: Scalar(c)
    ensures Decode(Encode(text)) == text
  {
    if text != [] {
      DecodeEncode(text[1..]);
      DecodeChar(text[0], Encode(text[1..]));
      assert [text[0]] + text[1..] == text;
    }
  }

  lemma LeadDecodes(lead: Byte, more: seq<Byte>)
    requires Lead(lead).1 == []
    ensures Decode([lead] + more) == DecodeFrom(Lead(lead).0, more)
  {
    LeadByte(lead, more, []);
    assert [lead] + more + [] == [lead] + more && more + [] == more;
  }

  lemma MiddleDecodes(st: Decoder, bits: int, more: seq<Byte>) returns (st': Decoder)
    requires st.needed >= 2 && 0 <= bits < 64 && st.lower <= 0x80 + bits <= st.upper
    ensures Expects(st', st.needed - 1, st.value * 64 + bits)
    ensures DecodeFrom(st, [0x80 + bits] + more) == DecodeFrom(st', more)
  {
    st' := MiddleByte(st, bits, more, []);
    assert [0x80 + bits] + more + [] == [0x80 + bits] + more && more + [] == more;
  }

  /** A character cut short at the end is one replacement character. */
  lemma CutCharacter(c: int, k: nat)
    requires Scalar(c) && 0 < k < |EncodeChar(c)|
    ensures Decode(EncodeChar(c)[..k]) == [REPLACEMENT]
  {
    var bytes := EncodeChar(c);
    LeadDecodes(bytes[0], bytes[1..k]);
    assert bytes[..k] == [bytes[0]] + bytes[1..k];
    if k >= 2 {
      var st := MiddleDecodes(Lead(bytes[0]).0, bytes[1] - 0x80, bytes[2..k]);
      assert bytes[1..k] == [0x80 + (bytes[1] - 0x80)] + bytes[2..k];
      if k == 3 {
        var st' := MiddleDecodes(st, bytes[2] - 0x80, []);
        assert bytes[2..k] == [0x80 + (bytes[2] - 0x80)] + [];
      }
    }
  }

  /** The bytes a window cuts off a character at its front decode to one replacement character each. */
  lemma {:induction false} ContinuationsAlone(bytes: seq<Byte>)
    requires forall i :: 0 <= i < |bytes| ==> 0x80 <= bytes[i] <= 0xBF
    ensures Decode(bytes) == seq(|bytes|, _ => REPLACEMENT)
  {
    if bytes != [] {
      ContinuationsAlone(bytes[1..]);
      assert [REPLACEMENT] + seq(|bytes| - 1, _ => REPLACEMENT) == seq(|bytes|, _ => REPLACEMENT);
    }
  }

  // ---------- splitting ----------

  lemma {:induction false} SplitWhole<T>(s: seq<T>, sep: T)
    requires sep !in s
    ensures Split(s, sep) == [s]
  {
    if s != [] {
      SplitWhole(s[1..], sep);
      assert [s[0]] + s[1..] == s;
    }
  }

  lemma {:induction false} SplitAt<T>(a: seq<T>, b: seq<T>, sep: T)
    requires sep !in a
    ensures Split(a + [sep] + b, sep) == [a] + Split(b, sep)
  {
    if a == [] {
      assert a + [sep] + b == [sep] + b;
      assert (a + [sep] + b)[1..] == b;
    } else {
      SplitAt(a[1..], b, sep);
      assert (a + [sep] + b)[1..] == a[1..] + [sep] + b;
      assert [a[0]] + a[1..] == a;
    }
  }

  /** Where the first separator stands. */
  function FirstIndex<T(==)>(s: seq<T>, sep: T): (i: nat)
    requires sep in s
    ensures i < |s| && s[i] == sep && sep !in s[..i]
  {
    if s[0] == sep then 0
    else
      var i := FirstIndex(s[1..], sep) + 1;
      assert s[..i] == [s[0]] + s[1..][..i - 1];
      i
  }

  function DecodeEach(pieces: seq<seq<Byte>>): seq<Text> {
    seq(|pieces|, i requires 0 <= i < |pieces| => Decode(pieces[i]))
  }

  /** Splitting the text is decoding the pieces of the bytes. */
  lemma {:induction false} SplitDecode(bytes: seq<Byte>)
    ensures Split(Decode(bytes), NEWLINE) == DecodeEach(Split(bytes, NEWLINE))
    decreases |bytes|
  {
    if NEWLINE !in bytes {
      DecodeNoNewline(START, bytes);
      SplitWhole(bytes, NEWLINE);
      SplitWhole(Decode(bytes), NEWLINE);
    } else {
      var i := FirstIndex(bytes, NEWLINE);
      var a, b := bytes[..i], bytes[i + 1..];
      assert bytes == a + [NEWLINE] + b;
      SplitDecode(b);
      DecodeNoNewline(START, a);
      DecodeAtNewline(START, a, b);
      SplitAt(a, b, NEWLINE);
      SplitAt(Decode(a), Decode(b), NEWLINE);
      assert DecodeEach([a] + Split(b, NEWLINE)) == [Decode(a)] + DecodeEach(Split(b, NEWLINE));
    }
  }
}
