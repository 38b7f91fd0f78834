/**
 * Notification ids are strings: the sequence number padded to 20 digits, a dash and a
 * ULID. Cursors compare them as strings; this module proves that the string order is the
 * order of the sequence numbers.
 */
module NotificationIds {
  import opened StoreProtocol

  const SEQ_DIGITS: nat := 20
  const SEQ_LIMIT: nat := 100000000000000000000

  /** The order of JavaScript's `<` on strings. */
  predicate LexLess(a: string, b: string) {
    b != "" && (a == "" || a[0] < b[0] || (a[0] == b[0] && LexLess(a[1..], b[1..])))
  }

  predicate LexLeq(a: string, b: string) {
    a == b || LexLess(a, b)
  }

  function Digit(d: nat): char
    requires d < 10
  {
    '0' + d as char
  }

  function Decimal(n: nat): (s: string)
    ensures s != ""
  {
    if n < 10 then [Digit(n)] else Decimal(n / 10) + [Digit(n % 10)]
  }

  function Zeros(k: nat): string {
    seq(k, _ => '0')
  }

  function PadStart(s: string, width: nat): string {
    if |s| < width then Zeros(width - |s|) + s else s
  }

  function Render(id: NotificationId): string {
    PadStart(Decimal(id.seqNo), SEQ_DIGITS) + "-" + id.stamp
  }

  // ---------- the order is a strict total order ----------

  lemma {:induction false} LexTransitive(a: string, b: string, c: string)
    requires LexLess(a, b) && LexLess(b, c)
    ensures LexLess(a, c)
  {
    if a != "" && a[0] == b[0] && b[0] == c[0] {
      LexTransitive(a[1..], b[1..], c[1..]);
    }
  }

  lemma {:induction false} LexIrreflexive(a: string)
    ensures !LexLess(a, a)
  {
    if a != "" {
      LexIrreflexive(a[1..]);
    }
  }

  lemma {:induction false} LexTotal(a: string, b: string)
    ensures LexLess(a, b) || a == b || LexLess(b, a)
  {
    if a != "" && b != "" && a[0] == b[0] {
      LexTotal(a[1..], b[1..]);
      assert a == [a[0]] + a[1..] && b == [b[0]] + b[1..];
    }
  }

  /** Strings of one length are ordered by their first difference, whatever follows. */
  lemma {:induction false} LexPrefix(a: string, b: string, x: string, y: string)
    requires |a| == |b|
    ensures LexLess(a + x, b + y) <==> LexLess(a, b) || (a == b && LexLess(x, y))
  {
    if a == "" {
      assert a + x == x && b + y == y;
    } else {
      LexPrefix(a[1..], b[1..], x, y);
      assert (a + x)[1..] == a[1..] + x && (b + y)[1..] == b[1..] + y;
      assert a == [a[0]] + a[1..] && b == [b[0]] + b[1..];
    }
  }

  // ---------- fixed-width numerals ----------

  function Pow10(w: nat): nat {
    if w == 0 then 1 else 10 * Pow10(w - 1)
  }

  function Fixed(n: nat, w: nat): (s: string)
    ensures |s| == w
  {
    if w == 0 then "" else Fixed(n / 10, w - 1) + [Digit(n % 10)]
  }

  lemma {:induction false} FixedZero(w: nat)
    ensures Fixed(0, w) == Zeros(w)
  {
    if w > 0 {
      FixedZero(w - 1);
      assert Zeros(w) == Zeros(w - 1) + ['0'];
    }
  }

  lemma {:induction false} DecimalFits(n: nat, w: nat)
    requires w > 0
    ensures |Decimal(n)| <= w <==> n < Pow10(w)
  {
    if w > 1 && n >= 10 {
      DecimalFits(n / 10, w - 1);
      assert n / 10 < Pow10(w - 1) <==> n < 10 * Pow10(w - 1);
    } else if w > 1 {
      PowAtLeastTen(w);
    } else {
      assert Pow10(1) == 10 * Pow10(0);
    }
  }

  lemma {:induction false} PowAtLeastTen(w: nat)
    requires w > 0
    ensures Pow10(w) >= 10
  {
    if w > 1 {
      PowAtLeastTen(w - 1);
    }
  }

  lemma {:induction false} PadIsFixed(n: nat, w: nat)
    requires w > 0 && n < Pow10(w)
    ensures PadStart(Decimal(n), w) == Fixed(n, w)
  {
    DecimalFits(n, w);
    if n < 10 {
      FixedZero(w - 1);
      assert n / 10 == 0;
      assert Zeros(w - 1) + [Digit(n)] == PadStart(Decimal(n), w);
    } else {
      assert w > 1;
      PadIsFixed(n / 10, w - 1);
    }
  }

  lemma {:induction false} FixedOrder(m: nat, n: nat, w: nat)
    requires m < n < Pow10(w)
    ensures LexLess(Fixed(m, w), Fixed(n, w))
  {
    LexPrefix(Fixed(m / 10, w - 1), Fixed(n / 10, w - 1), [Digit(m % 10)], [Digit(n % 10)]);
    if m / 10 < n / 10 {
      FixedOrder(m / 10, n / 10, w - 1);
    }
  }

  lemma SeqLimit()
    ensures Pow10(SEQ_DIGITS) == SEQ_LIMIT
  {
    assert Pow10(10) == 10000000000;
  }

  /** Ids of 20-digit sequence numbers sort by number first and by ULID second. */
  lemma RenderOrder(a: NotificationId, b: NotificationId)
    requires a.seqNo < SEQ_LIMIT && b.seqNo < SEQ_LIMIT
    ensures LexLess(Render(a), Render(b)) <==>
            a.seqNo < b.seqNo || (a.seqNo == b.seqNo && LexLess(a.stamp, b.stamp))
  {
    SeqLimit();
    PadIsFixed(a.seqNo, SEQ_DIGITS);
    PadIsFixed(b.seqNo, SEQ_DIGITS);
    var fa, fb := Fixed(a.seqNo, SEQ_DIGITS), Fixed(b.seqNo, SEQ_DIGITS);
    assert Render(a) == fa + ("-" + a.stamp) && Render(b) == fb + ("-" + b.stamp);
    LexPrefix(fa, fb, "-" + a.stamp, "-" + b.stamp);
    LexPrefix("-", "-", a.stamp, b.stamp);
    LexIrreflexive("-");
    LexIrreflexive(fa);
    if a.seqNo < b.seqNo {
      FixedOrder(a.seqNo, b.seqNo, SEQ_DIGITS);
    } else if b.seqNo < a.seqNo {
      FixedOrder(b.seqNo, a.seqNo, SEQ_DIGITS);
      if LexLess(fa, fb) {
        LexTransitive(fa, fb, fa);
      }
      if fa == fb {
        LexIrreflexive(fb);
      }
    }
  }

  // ---------- reading ids back ----------

  ghost predicate Digits(s: string) {
    forall i :: 0 <= i < |s| ==> '0' <= s[i] <= '9'
  }

  /** The number a string of digits denotes. */
  ghost function ValueOf(s: string): nat
    requires Digits(s)
  {
    if s == "" then 0 else 10 * ValueOf(s[..|s| - 1]) + (s[|s| - 1] as int - '0' as int)
  }

  lemma {:induction false} FixedValue(n: nat, w: nat)
    requires n < Pow10(w)
    ensures Digits(Fixed(n, w)) && ValueOf(Fixed(n, w)) == n
  {
    if w > 0 {
      FixedValue(n / 10, w - 1);
      var s := Fixed(n, w);
      assert s[..|s| - 1] == Fixed(n / 10, w - 1) && s[|s| - 1] == Digit(n % 10);
    }
  }

  /** An id is twenty digits that denote the sequence number, a dash and the ULID. */
  lemma RenderReads(id: NotificationId)
    requires id.seqNo < SEQ_LIMIT
    ensures var s := Render(id);
      && |s| == 21 + |id.stamp| && s[20] == '-' && s[21..] == id.stamp
      && Digits(s[..20]) && ValueOf(s[..20]) == id.seqNo
  {
    SeqLimit();
    PadIsFixed(id.seqNo, SEQ_DIGITS);
    FixedValue(id.seqNo, SEQ_DIGITS);
    assert Render(id)[..20] == Fixed(id.seqNo, SEQ_DIGITS);
  }

  /** Every string of digits is the numeral of its value. */
  lemma {:induction false} FixedOfValue(s: string)
    requires Digits(s)
    ensures ValueOf(s) < Pow10(|s|) && Fixed(ValueOf(s), |s|) == s
  {
    if s != "" {
      var front, last := s[..|s| - 1], s[|s| - 1];
      FixedOfValue(front);
      assert ValueOf(s) / 10 == ValueOf(front) && ValueOf(s) % 10 == last as int - '0' as int;
      assert Digit(ValueOf(s) % 10) == last;
      assert s == front + [last];
    }
  }

  /** An id is what twenty digits, a dash and a text are, for every number below the limit. */
  lemma RenderedIff(s: string)
    ensures (exists id: NotificationId :: id.seqNo < SEQ_LIMIT && Render(id) == s)
       <==> |s| >= 21 && s[20] == '-' && Digits(s[..20])
  {
    if id: NotificationId :| id.seqNo < SEQ_LIMIT && Render(id) == s {
      RenderReads(id);
    }
    if |s| >= 21 && s[20] == '-' && Digits(s[..20]) {
      var id := NotificationId(ValueOf(s[..20]), s[21..]);
      FixedOfValue(s[..20]);
      SeqLimit();
      PadIsFixed(id.seqNo, SEQ_DIGITS);
      assert s == s[..20] + "-" + s[21..];
      assert Render(id) == s;
    }
  }
}
