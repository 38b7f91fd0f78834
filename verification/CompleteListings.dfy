/**
 * Exactly which schedules of the store let every client that pages to a short page have every
 * record: those in which, at every append, the counter or the journal's last record is at most
 * one behind the highest number ever appended. On any other schedule a client that looks at the
 * journal at two moments misses a record, whatever its limit, and so does the push poller.
 */
module CompleteListings {
  import opened Prelude
  import opened StoreProtocol
  import opened NotificationIds
  import opened Cursor
  import opened JournalHistory

  // ---------- paging an unchanging journal to its end ----------

  function Repeat(sight: Sight, k: nat): seq<Sight> {
    seq(k, _ => sight)
  }

  lemma {:induction false} FilterFewer(ns: seq<Notification>, p: Notification -> bool, q: Notification -> bool)
    requires forall n <- ns :: q(n) ==> p(n)
    ensures |Filter(ns, q)| <= |Filter(ns, p)|
    ensures (exists n <- ns :: p(n) && !q(n)) ==> |Filter(ns, q)| < |Filter(ns, p)|
  {
    if ns != [] {
      FilterFewer(ns[..|ns| - 1], p, q);
      assert ns == ns[..|ns| - 1] + [ns[|ns| - 1]];
    }
  }

  /** A page leaves fewer records ahead of the cursor, and a short one none. */
  lemma FewerAhead(sight: Sight, since: Option<string>, limit: nat)
    requires Increasing(sight.journal) && limit > 0
    ensures var page := PageOf(sight, since, limit);
      var ahead := Matching(sight.journal, sight.query, LastId(page, since));
      && |ahead| <= |Matching(sight.journal, sight.query, since)|
      && (page != [] ==> |ahead| < |Matching(sight.journal, sight.query, since)|)
      && (|page| < limit ==> ahead == [])
  {
    var journal, q := sight.journal, sight.query;
    var page := PageOf(sight, since, limit);
    var cursor := LastId(page, since);
    var p := (n: Notification) => Admits(q, n) && Past(since, n);
    var p' := (n: Notification) => Admits(q, n) && Past(cursor, n);
    PageIncreasing(journal, q, since, limit);
    if page != [] {
      var last := page[|page| - 1];
      assert last in page && p(last);
      LexIrreflexive(IdOf(last));
      forall n <- journal | p'(n) ensures p(n) {
        if since.Some? {
          LexTransitive(since.value, IdOf(last), IdOf(n));
        }
      }
      FilterFewer(journal, p, p');
    }
    var ahead := Matching(journal, q, cursor);
    if |page| < limit && ahead != [] {
      assert ahead[0] in ahead;
      AheadIsPast(sight, since, limit, ahead[0]);
    }
  }

  lemma AheadIsPast(sight: Sight, since: Option<string>, limit: nat, n: Notification)
    requires Increasing(sight.journal) && |PageOf(sight, since, limit)| < limit
    requires n in sight.journal && Admits(sight.query, n)
    ensures !Past(LastId(PageOf(sight, since, limit), since), n)
  {
    var page := PageOf(sight, since, limit);
    PageIncreasing(sight.journal, sight.query, since, limit);
    if Past(LastId(page, since), n) {
      if page != [] && since.Some? {
        assert page[|page| - 1] in page;
        LexTransitive(since.value, LastId(page, since).value, IdOf(n));
      }
      PageIsInterval(sight.journal, sight.query, since, limit, n);
      NotPast(LastId(page, since).value, IdOf(n));
    }
  }

  /** A client that asks often enough while nothing changes gets a short page. */
  lemma {:induction false} RepeatShort(sight: Sight, k: nat, since: Option<string>, limit: nat)
    requires Increasing(sight.journal) && limit > 0 && k > |Matching(sight.journal, sight.query, since)|
    ensures ShortLast(Repeat(sight, k), since, limit)
  {
    var next := LastId(PageOf(sight, since, limit), since);
    FewerAhead(sight, since, limit);
    assert Repeat(sight, k)[0] == sight;
    if k > 1 {
      assert Repeat(sight, k)[1..] == Repeat(sight, k - 1);
      RepeatShort(sight, k - 1, next, limit);
    }
  }

  /** Its cursor then is at or past every record of that journal. */
  lemma CaughtUp(sight: Sight, k: nat, limit: nat, m: Notification)
    requires Increasing(sight.journal) && limit > 0 && k > |Matching(sight.journal, sight.query, None)|
    requires m in sight.journal && Admits(sight.query, m)
    ensures Upto(Collect(Repeat(sight, k), None, limit).1, m)
    ensures forall n <- Collect(Repeat(sight, k), None, limit).0 :: n in sight.journal
  {
    var sights := Repeat(sight, k);
    RepeatShort(sight, k, None, limit);
    assert sights[|sights| - 1] == sight && forall s <- sights :: s == sight;
    CollectComplete(sights, None, limit, m);
    CollectedIncreasing(sights, None, limit);
    CollectedFrom(sights, None, limit);
    UptoLast(Collect(sights, None, limit).0, m);
  }

  lemma UptoLast(page: seq<Notification>, m: Notification)
    requires Increasing(page) && m in page
    ensures Upto(LastId(page, None), m)
  {
    var i :| 0 <= i < |page| && page[i] == m;
    assert i < |page| - 1 ==> LexLess(IdOf(page[i]), IdOf(page[|page| - 1]));
  }

  /** Everything collected was in one of the journals. */
  lemma {:induction false} CollectedFrom(sights: seq<Sight>, since: Option<string>, limit: nat)
    requires forall i :: 0 <= i < |sights| ==> Increasing(sights[i].journal)
    ensures forall n <- Collect(sights, since, limit).0 :: exists sight <- sights :: n in sight.journal
    decreases |sights|
  {
    if sights != [] {
      var page := PageOf(sights[0], since, limit);
      PageIncreasing(sights[0].journal, sights[0].query, since, limit);
      CollectedFrom(sights[1..], LastId(page, since), limit);
      assert sights[0] in sights && forall sight <- sights[1..] :: sight in sights;
    }
  }

  // ---------- a client that looks at two moments ----------

  /** What an unfiltered client that hides what is acked sees while nothing is acked. */
  function View(journal: seq<Notification>): Sight {
    Sight(journal, Query(None, None, Some({})))
  }

  /** Pages over one journal until there are no more, and then over a later one. */
  function TwoMoments(before: seq<Notification>, after: seq<Notification>): seq<Sight> {
    Repeat(View(before), |before| + 1) + Repeat(View(after), |after| + 1)
  }

  /** Nothing at or below the cursor is ever collected. */
  lemma NotCollected(sights: seq<Sight>, cursor: string, limit: nat, m: string, n: Notification)
    requires forall i :: 0 <= i < |sights| ==> Increasing(sights[i].journal)
    requires LexLeq(m, cursor) && !LexLess(m, IdOf(n))
    ensures n !in Collect(sights, Some(cursor), limit).0
  {
    CollectedIncreasing(sights, Some(cursor), limit);
    if LexLess(cursor, IdOf(n)) {
      LexLeqThenLess(m, cursor, IdOf(n));
    }
  }

  /** A new record with an id at or below an older one is missed by such a client, which ends with a short page. */
  lemma TwoMomentsMiss(before: seq<Notification>, after: seq<Notification>, limit: nat,
                       m: Notification, n: Notification)
    requires Increasing(before) && Increasing(after) && limit > 0
    requires m in before && n !in before && !LexLess(IdOf(m), IdOf(n))
    ensures ShortLast(TwoMoments(before, after), None, limit)
    ensures n !in Collect(TwoMoments(before, after), None, limit).0
  {
    var first, second := Repeat(View(before), |before| + 1), Repeat(View(after), |after| + 1);
    ViewCaughtUp(before, limit, m, n);
    ViewShort(after, Collect(first, None, limit).1, limit);
    MissedAfter(first, second, limit, IdOf(m), n);
  }

  lemma ViewCaughtUp(before: seq<Notification>, limit: nat, m: Notification, n: Notification)
    requires Increasing(before) && limit > 0 && m in before && n !in before
    ensures var (all, cursor) := Collect(Repeat(View(before), |before| + 1), None, limit);
      n !in all && cursor.Some? && LexLeq(IdOf(m), cursor.value)
  {
    CaughtUp(View(before), |before| + 1, limit, m);
  }

  lemma ViewShort(after: seq<Notification>, since: Option<string>, limit: nat)
    requires Increasing(after) && limit > 0
    ensures var second := Repeat(View(after), |after| + 1);
      && second != [] && (forall i :: 0 <= i < |second| ==> Increasing(second[i].journal))
      && ShortLast(second, since, limit)
  {
    RepeatShort(View(after), |after| + 1, since, limit);
  }

  /** What is at or below the cursor that the first sights leave, and not among what they give, is missed. */
  lemma MissedAfter(first: seq<Sight>, second: seq<Sight>, limit: nat, m: string, n: Notification)
    requires second != [] && forall i :: 0 <= i < |second| ==> Increasing(second[i].journal)
    requires var (all, cursor) := Collect(first, None, limit);
      && n !in all && cursor.Some? && LexLeq(m, cursor.value) && !LexLess(m, IdOf(n))
      && ShortLast(second, cursor, limit)
    ensures ShortLast(first + second, None, limit) && n !in Collect(first + second, None, limit).0
  {
    ShortLastConcat(first, second, None, limit);
    CollectConcat(first, second, None, limit);
    NotCollected(second, Collect(first, None, limit).1.value, limit, m, n);
  }

  // ---------- the exact condition ----------

  /** A client whose last page is short has been given every record it admits. */
  ghost predicate MissesNothing(sights: seq<Sight>, since: Option<string>, limit: nat) {
    sights != [] && ShortLast(sights, since, limit) ==>
      forall n <- sights[|sights| - 1].journal ::
        Past(since, n) && (forall sight <- sights :: Admits(sight.query, n)) ==> n in Collect(sights, since, limit).0
  }

  ghost predicate ClientComplete(schedule: seq<Action>, ticks: seq<nat>, sights: seq<Sight>, since: Option<string>,
                                 limit: nat)
  {
    SightsOf(schedule, ticks, sights) ==> MissesNothing(sights, since, limit)
  }

  lemma ReachIsComplete(schedule: seq<Action>, ticks: seq<nat>, sights: seq<Sight>, since: Option<string>, limit: nat)
    requires FreshStamps(schedule) && |schedule| < SEQ_LIMIT && AppendsInReach(schedule)
    ensures ClientComplete(schedule, ticks, sights, since, limit)
  {
    if SightsOf(schedule, ticks, sights) && sights != [] && ShortLast(sights, since, limit) {
      forall n <- sights[|sights| - 1].journal
        | Past(since, n) && forall sight <- sights :: Admits(sight.query, n)
        ensures n in Collect(sights, since, limit).0
      {
        ListingsComplete(schedule, ticks, sights, since, limit, n);
      }
    }
  }

  function TwoTicks(schedule: seq<Action>, i: nat, j: nat): seq<nat>
    requires i <= j <= |schedule|
  {
    seq(|JournalAt(schedule, i)| + 1, _ => i) + seq(|JournalAt(schedule, j)| + 1, _ => j)
  }

  lemma TwoSights(schedule: seq<Action>, i: nat, j: nat)
    requires i <= j <= |schedule| < SEQ_LIMIT
    ensures var sights := TwoMoments(JournalAt(schedule, i), JournalAt(schedule, j));
      SightsOf(schedule, TwoTicks(schedule, i, j), sights) && forall sight <- sights :: PollSight(sight)
  {
    JournalIncreasing(schedule, i);
    JournalIncreasing(schedule, j);
  }

  lemma TwoMomentsIncomplete(before: seq<Notification>, after: seq<Notification>, limit: nat,
                             m: Notification, n: Notification)
    requires Increasing(before) && Increasing(after) && limit > 0
    requires m in before && n in after && n !in before && !LexLess(IdOf(m), IdOf(n))
    ensures !MissesNothing(TwoMoments(before, after), None, limit)
  {
    var sights := TwoMoments(before, after);
    TwoMomentsMiss(before, after, limit, m, n);
    assert sights[|sights| - 1] == View(after);
  }

  /** On a schedule in which some append is out of reach, such a client misses a record. */
  lemma OutOfReachMisses(schedule: seq<Action>, limit: nat) returns (ticks: seq<nat>, sights: seq<Sight>)
    requires FreshStamps(schedule) && |schedule| < SEQ_LIMIT && !AppendsInReach(schedule) && limit > 0
    ensures SightsOf(schedule, ticks, sights) && forall sight <- sights :: PollSight(sight)
    ensures !MissesNothing(sights, None, limit)
  {
    IdsGrowIff(schedule);
    EvolvesIff(schedule);
    var i, j :| 0 <= i <= j <= |schedule| && !Evolves(JournalAt(schedule, i), JournalAt(schedule, j));
    var before, after := JournalAt(schedule, i), JournalAt(schedule, j);
    JournalIncreasing(schedule, i);
    JournalIncreasing(schedule, j);
    var n :| n in after && n !in before && exists m <- before :: !LexLess(IdOf(m), IdOf(n));
    var m :| m in before && !LexLess(IdOf(m), IdOf(n));
    TwoMomentsIncomplete(before, after, limit, m, n);
    TwoSights(schedule, i, j);
    ticks, sights := TwoTicks(schedule, i, j), TwoMoments(before, after);
  }

  /**
   * Every client, whatever it looks for and whenever it looks, has been given every record of
   * the journal of its last page once that page is short, exactly when every append of the
   * schedule is in reach. It is so for each limit.
   */
  lemma ListingsCompleteIff(schedule: seq<Action>, limit: nat)
    requires FreshStamps(schedule) && |schedule| < SEQ_LIMIT && limit > 0
    ensures (forall ticks, sights, since :: ClientComplete(schedule, ticks, sights, since, limit))
       <==> AppendsInReach(schedule)
  {
    if AppendsInReach(schedule) {
      forall ticks, sights, since ensures ClientComplete(schedule, ticks, sights, since, limit) {
        ReachIsComplete(schedule, ticks, sights, since, limit);
      }
    } else {
      var ticks, sights := OutOfReachMisses(schedule, limit);
      assert !ClientComplete(schedule, ticks, sights, None, limit);
    }
  }

  /** The same for the push poller, which starts without a cursor and asks for 50 unacked records at a time. */
  lemma PollsCompleteIff(schedule: seq<Action>)
    requires FreshStamps(schedule) && |schedule| < SEQ_LIMIT
    ensures (forall ticks, sights ::
               (forall sight <- sights :: PollSight(sight)) ==>
                 ClientComplete(schedule, ticks, sights, None, 50))
       <==> AppendsInReach(schedule)
  {
    if AppendsInReach(schedule) {
      forall ticks, sights ensures ClientComplete(schedule, ticks, sights, None, POLL_LIMIT) {
        ReachIsComplete(schedule, ticks, sights, None, POLL_LIMIT);
      }
    } else {
      var ticks, sights := OutOfReachMisses(schedule, POLL_LIMIT);
      assert !ClientComplete(schedule, ticks, sights, None, POLL_LIMIT);
    }
  }
}
