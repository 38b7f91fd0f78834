/**
 * The capped history of account rotations: the append itself, and what is left of its count
 * when it is called the way a rotated follow-up calls it.
 */
module RotationHistory {
  import opened Prelude

  const CAP: nat := 32

  datatype Rotation = Rotation(parentRunId: string, priorAccount: string, newAccount: string, category: string,
                               rotatedAt: string, resumed: Option<bool>)

  datatype Item = Entry(entry: Rotation) | Marker(count: nat)

  /** The real entries of a history. */
  function Entries(history: seq<Item>): seq<Rotation> {
    if history == [] then []
    else
      var last := history[|history| - 1];
      Entries(history[..|history| - 1]) + if last.Entry? then [last.entry] else []
  }

  /** The sum of the markers. */
  function Truncated(history: seq<Item>): nat {
    if history == [] then 0
    else
      var last := history[|history| - 1];
      Truncated(history[..|history| - 1]) + if last.Marker? then last.count else 0
  }

  function Plain(entries: seq<Rotation>): seq<Item> {
    seq(|entries|, i requires 0 <= i < |entries| => Entry(entries[i]))
  }

  function Marked(count: nat, entries: seq<Rotation>): seq<Item> {
    [Marker(count)] + Plain(entries)
  }

  function Last(all: seq<Rotation>, n: nat): seq<Rotation>
    requires n <= |all|
  {
    all[|all| - n..]
  }

  /** What one append leaves, said by what is kept and what is counted. */
  function Appended(history: seq<Item>, entry: Rotation): seq<Item> {
    var all := Entries(history) + [entry];
    if Truncated(history) == 0 && |all| <= CAP then Plain(all)
    else
      var kept := if |all| <= CAP - 1 then |all| else CAP - 1;
      Marked(Truncated(history) + |all| - kept, Last(all, kept))
  }

  /** The list without its first elements, as they were. */
  ghost predicate IsTail(tail: seq<Rotation>, all: seq<Rotation>) {
    |tail| <= |all| && all[|all| - |tail|..] == tail
  }

  /**
   * Real entries behind at most one marker, at most 32 items in all. The entries are the latest,
   * as many as fit, and the marker counts the others with those counted before.
   */
  lemma AppendedIsCapped(history: seq<Item>, entry: Rotation)
    ensures var (all, before) := (Entries(history) + [entry], Truncated(history));
      var result := Appended(history, entry);
      var marked := before > 0 || |all| > 32;
      var plain := if marked then result[1..] else result;
      && (marked ==> result != [] && result[0] == Marker(before + |all| - |plain|))
      && |plain| == (if marked then Min(|all|, 31) else |all|)
      && (forall item <- plain :: item.Entry?)
      && IsTail(Entries(plain), all)
  {
    var all, before := Entries(history) + [entry], Truncated(history);
    var kept := if before > 0 || |all| > 32 then Min(|all|, 31) else |all|;
    EntriesOfPlain(all[|all| - kept..]);
    assert Appended(history, entry) == (if before > 0 || |all| > 32 then [Marker(before + |all| - kept)] else [])
                                       + Plain(all[|all| - kept..]);
  }

  method AppendRotationEntry(history: seq<Item>, entry: Rotation) returns (result: seq<Item>, truncated: bool)
    ensures result == Appended(history, entry)
    ensures truncated <==> |Entries(result)| < |Entries(history)| + 1
  {
    var existingTruncated: nat := 0;
    var working: seq<Rotation> := [];
    for i := 0 to |history|
      invariant working == Entries(history[..i])
      invariant existingTruncated == Truncated(history[..i])
    {
      assert history[..i + 1][..i] == history[..i];
      match history[i] {
        case Marker(count) => existingTruncated := existingTruncated + count;
        case Entry(e) => working := working + [e];
      }
    }
    assert history[..|history|] == history;
    working := working + [entry];
    ghost var all := working;
    if existingTruncated == 0 && |working| <= CAP {
      EntriesOfPlain(working);
      return Plain(working), false;
    }
    var dropped: nat := 0;
    while |working| > CAP - 1
      invariant dropped <= |all| && working == all[dropped..]
      invariant dropped > 0 ==> |working| >= CAP - 1
    {
      working := working[1..];
      dropped := dropped + 1;
    }
    result := Marked(existingTruncated + dropped, working);
    truncated := dropped > 0;
    MarkedHistory(existingTruncated + dropped, working);
  }

  lemma {:induction false} EntriesOfPlain(entries: seq<Rotation>)
    ensures Entries(Plain(entries)) == entries && Truncated(Plain(entries)) == 0
  {
    if entries != [] {
      var front := entries[..|entries| - 1];
      EntriesOfPlain(front);
      assert Plain(entries)[..|entries| - 1] == Plain(front);
    }
  }

  lemma {:induction false} MarkedHistory(count: nat, entries: seq<Rotation>)
    ensures Entries(Marked(count, entries)) == entries && Truncated(Marked(count, entries)) == count
  {
    var history := Marked(count, entries);
    if entries == [] {
      assert history == [Marker(count)];
      assert Entries(history[..0]) == [] && Truncated(history[..0]) == 0;
    } else {
      var front := entries[..|entries| - 1];
      MarkedHistory(count, front);
      assert history[..|entries|] == Marked(count, front);
    }
  }

  // ---------- appending again and again ----------

  function AppendAll(entries: seq<Rotation>): seq<Item> {
    if entries == [] then [] else Appended(AppendAll(entries[..|entries| - 1]), entries[|entries| - 1])
  }

  /** How many real entries an append leaves of n, the new one included. */
  function Kept(truncated: nat, n: nat): (k: nat)
    ensures k <= n
  {
    if (truncated == 0 && n <= CAP) || n <= CAP - 1 then n else CAP - 1
  }

  lemma AppendedPlain(history: seq<Item>, entry: Rotation)
    requires Truncated(history) == 0 && |Entries(history)| < CAP
    ensures var after := Appended(history, entry);
      && after == Plain(Entries(history) + [entry])
      && Entries(after) == Entries(history) + [entry] && Truncated(after) == 0
  {
    EntriesOfPlain(Entries(history) + [entry]);
  }

  lemma AppendedMarked(history: seq<Item>, entry: Rotation, all: seq<Rotation>, count: nat)
    requires Truncated(history) != 0 || |Entries(history)| >= CAP
    requires all == Entries(history) + [entry] && count == Truncated(history) + |all| - Kept(Truncated(history), |all|)
    ensures Appended(history, entry) == Marked(count, Last(all, Kept(Truncated(history), |all|)))
  {
  }

  lemma AppendedFacts(history: seq<Item>, entry: Rotation)
    ensures var (all, after) := (Entries(history) + [entry], Appended(history, entry));
      var kept := Kept(Truncated(history), |all|);
      && |after| <= CAP
      && Entries(after) == Last(all, kept)
      && Truncated(after) == Truncated(history) + |all| - kept
  {
    var all := Entries(history) + [entry];
    if Truncated(history) == 0 && |all| <= CAP {
      AppendedPlain(history, entry);
      assert Last(all, |all|) == all;
    } else {
      var kept := Kept(Truncated(history), |all|);
      var count := Truncated(history) + |all| - kept;
      AppendedMarked(history, entry, all, count);
      MarkedHistory(count, Last(all, kept));
    }
  }

  lemma LastExtends(entries: seq<Rotation>, n: nat)
    requires 0 < |entries| && n < |entries|
    ensures Last(entries[..|entries| - 1], n) + [entries[|entries| - 1]] == Last(entries, n + 1)
  {
  }

  lemma LastOfLast(entries: seq<Rotation>, n: nat, m: nat)
    requires m <= n <= |entries|
    ensures Last(Last(entries, n), m) == Last(entries, m)
  {
  }

  /**
   * From the empty history, whatever is appended: at most 32 items; the marker and the real
   * entries together count every append; the real entries are the latest ones, in order; all
   * of them while they fit, and the latest 31 from then on.
   */
  lemma {:induction false} CappedHistory(entries: seq<Rotation>)
    ensures var history := AppendAll(entries);
      && |history| <= CAP
      && Truncated(history) + |Entries(history)| == |entries|
      && Entries(history) == Last(entries, if |entries| <= CAP then |entries| else CAP - 1)
  {
    if entries != [] {
      var n := |entries|;
      var front := entries[..n - 1];
      CappedHistory(front);
      AppendedFacts(AppendAll(front), entries[n - 1]);
      var k := if n - 1 <= CAP then n - 1 else CAP - 1;
      LastExtends(entries, k);
      LastOfLast(entries, k + 1, if n <= CAP then n else CAP - 1);
    }
  }

  // ---------- appending through a follow-up ----------

  /** readRotationHistory drops the marker before the append. */
  function ThroughFollowups(entries: seq<Rotation>): seq<Item> {
    if entries == [] then []
    else Appended(Plain(Entries(ThroughFollowups(entries[..|entries| - 1]))), entries[|entries| - 1])
  }

  function FollowupKept(n: nat): (k: nat)
    ensures k <= n
  {
    if n <= CAP then n else if n % 2 == 0 then CAP else CAP - 1
  }

  function FollowupForm(entries: seq<Rotation>): seq<Item> {
    if FollowupKept(|entries|) == CAP - 1 && |entries| > CAP then Marked(2, Last(entries, CAP - 1))
    else Plain(Last(entries, FollowupKept(|entries|)))
  }

  /**
   * Along a chain of rotated follow-ups the count restarts at every append: from the 33rd
   * on, histories with a marker that says 2 and plain ones of 32 entries take turns.
   */
  lemma {:induction false} FollowupHistory(entries: seq<Rotation>)
    ensures ThroughFollowups(entries) == FollowupForm(entries)
  {
    if entries == [] {
      assert Last(entries, 0) == [];
    } else {
      var front, entry := entries[..|entries| - 1], entries[|entries| - 1];
      FollowupHistory(front);
      FollowupStep(entries, front, entry);
    }
  }

  lemma FormFacts(entries: seq<Rotation>)
    ensures var form := FollowupForm(entries);
      && Entries(form) == Last(entries, FollowupKept(|entries|))
      && Truncated(form) == if FollowupKept(|entries|) == CAP - 1 && |entries| > CAP then 2 else 0
  {
    var kept := Last(entries, FollowupKept(|entries|));
    if FollowupKept(|entries|) == CAP - 1 && |entries| > CAP {
      MarkedHistory(2, kept);
    } else {
      EntriesOfPlain(kept);
    }
  }

  lemma GrowsFromPlain(kept: seq<Rotation>, entry: Rotation)
    ensures |kept| < CAP ==> Appended(Plain(kept), entry) == Plain(kept + [entry])
    ensures |kept| == CAP ==> Appended(Plain(kept), entry) == Marked(2, Last(kept + [entry], CAP - 1))
  {
    EntriesOfPlain(kept);
    if |kept| < CAP {
      AppendedPlain(Plain(kept), entry);
    } else if |kept| == CAP {
      AppendedMarked(Plain(kept), entry, kept + [entry], 2);
    }
  }

  lemma KeptGrows(n: nat)
    requires n > 0
    ensures FollowupKept(n - 1) < CAP ==> FollowupKept(n) == FollowupKept(n - 1) + 1 && (n <= CAP || n % 2 == 0)
    ensures FollowupKept(n - 1) >= CAP ==> FollowupKept(n - 1) == CAP && FollowupKept(n) == CAP - 1 && n > CAP
  {
  }

  lemma FormGrows(entries: seq<Rotation>, kept: seq<Rotation>, entry: Rotation)
    requires |entries| > 0 && |kept| == FollowupKept(|entries| - 1) && kept + [entry] == Last(entries, |kept| + 1)
    ensures Appended(Plain(kept), entry) == FollowupForm(entries)
  {
    KeptGrows(|entries|);
    GrowsFromPlain(kept, entry);
    if |kept| >= CAP {
      LastOfLast(entries, CAP + 1, CAP - 1);
    }
  }

  lemma FollowupUnfold(entries: seq<Rotation>, front: seq<Rotation>, entry: Rotation)
    requires entries == front + [entry]
    ensures ThroughFollowups(entries) == Appended(Plain(Entries(ThroughFollowups(front))), entry)
  {
    assert entries[..|front|] == front;
  }

  lemma KeptExtends(entries: seq<Rotation>, front: seq<Rotation>, entry: Rotation, k: nat)
    requires entries == front + [entry] && k <= |front|
    ensures Last(front, k) + [entry] == Last(entries, k + 1)
  {
  }

  lemma FollowupStep(entries: seq<Rotation>, front: seq<Rotation>, entry: Rotation)
    requires entries == front + [entry] && ThroughFollowups(front) == FollowupForm(front)
    ensures ThroughFollowups(entries) == FollowupForm(entries)
  {
    FollowupUnfold(entries, front, entry);
    FormFacts(front);
    KeptExtends(entries, front, entry, FollowupKept(|front|));
    FormGrows(entries, Last(front, FollowupKept(|front|)), entry);
  }

  /** So the count still adds up exactly while at most one append has truncated. */
  lemma CountKeptIff(entries: seq<Rotation>)
    ensures var history := ThroughFollowups(entries);
      Truncated(history) + |Entries(history)| == |entries| <==> |entries| <= CAP + 1
  {
    FollowupHistory(entries);
    FormFacts(entries);
  }

  /** The real entries are the latest ones on this path too, and the cap holds. */
  lemma FollowupKeepsLatest(entries: seq<Rotation>)
    ensures var history := ThroughFollowups(entries);
      && |history| <= CAP
      && |Entries(history)| <= |entries|
      && Entries(history) == Last(entries, |Entries(history)|)
      && |Entries(history)| >= if |entries| < CAP then |entries| else CAP - 1
  {
    FollowupHistory(entries);
    FormFacts(entries);
  }
}
