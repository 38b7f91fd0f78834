/**
 * Reading the journal by cursor: listNotifications, a client that pages with the last id
 * it saw while the journal keeps changing, and the push poller.
 */
module Cursor {
  import opened Prelude
  import opened StoreProtocol
  import opened StoreSafety
  import opened NotificationIds

  /** An absent run or kind filter admits everything; an absent acked set is includeAcked. */
  datatype Query = Query(runs: Option<set<RunId>>, kinds: Option<set<Kind>>, hidden: Option<set<string>>)

  function IdOf(n: Notification): string {
    Render(n.id)
  }

  predicate Admits(q: Query, n: Notification) {
    && (q.runs.Some? ==> n.runId in q.runs.value)
    && (q.kinds.Some? ==> n.kind in q.kinds.value)
    && (q.hidden.Some? ==> IdOf(n) !in q.hidden.value)
  }

  predicate Past(since: Option<string>, n: Notification) {
    since.Some? ==> LexLess(since.value, IdOf(n))
  }

  function Matching(journal: seq<Notification>, q: Query, since: Option<string>): seq<Notification> {
    Filter(journal, (n: Notification) => Admits(q, n) && Past(since, n))
  }

  function FirstN<T>(s: seq<T>, n: nat): seq<T> {
    if |s| <= n then s else s[..n]
  }

  /** What a listing returns. The limit is tested after a record is taken, so 0 acts as 1. */
  function List(journal: seq<Notification>, q: Query, since: Option<string>, limit: nat): seq<Notification> {
    FirstN(Matching(journal, q, since), Max(limit, 1))
  }

  lemma MatchingGrows(journal: seq<Notification>, i: nat, q: Query, since: Option<string>)
    requires i < |journal|
    ensures Matching(journal[..i + 1], q, since)
         == Matching(journal[..i], q, since)
            + (if Admits(q, journal[i]) && Past(since, journal[i]) then [journal[i]] else [])
    ensures Matching(journal[..i + 1], q, since) <= Matching(journal, q, since)
  {
    assert journal[..i + 1][..i] == journal[..i];
    assert journal == journal[..i + 1] + journal[i + 1..];
    FilterConcat(journal[..i + 1], journal[i + 1..], (n: Notification) => Admits(q, n) && Past(since, n));
  }

  /**
   * The record is one the client asks for: of one of its runs and kinds, when it names any, not
   * among the acked ids that are hidden, and with an id behind its cursor.
   */
  ghost predicate Wanted(q: Query, since: Option<string>, n: Notification) {
    && (q.runs.None? || n.runId in q.runs.value)
    && (q.kinds.None? || n.kind in q.kinds.value)
    && (q.hidden.None? || Render(n.id) !in q.hidden.value)
    && (since.None? || LexLess(since.value, Render(n.id)))
  }

  /** The page is the first records asked for, in journal order: as many as the limit, but never none. */
  ghost predicate FirstWanted(journal: seq<Notification>, q: Query, since: Option<string>, limit: nat,
                              page: seq<Notification>)
  {
    exists all :: Selects(journal, all, (n: Notification) => Wanted(q, since, n))
      && page <= all && |page| == Min(Max(limit, 1), |all|)
  }

  lemma ListIsFirstWanted(journal: seq<Notification>, q: Query, since: Option<string>, limit: nat)
    ensures FirstWanted(journal, q, since, limit, List(journal, q, since, limit))
  {
    var p := (n: Notification) => Admits(q, n) && Past(since, n);
    FilterSelects(journal, p);
    var all := Matching(journal, q, since);
    assert Selects(journal, all, p);
    forall n: Notification ensures p(n) <==> Wanted(q, since, n) {
    }
    SelectSame(journal, all, p, (n: Notification) => Wanted(q, since, n));
  }

  method ListNotifications(journal: seq<Notification>, q: Query, since: Option<string>, limit: nat)
    returns (matched: seq<Notification>)
    ensures matched == List(journal, q, since, limit)
  {
    matched := [];
    var i := 0;
    while i < |journal|
      invariant i <= |journal|
      invariant matched == Matching(journal[..i], q, since)
      invariant |matched| < Max(limit, 1)
    {
      var record := journal[i];
      MatchingGrows(journal, i, q, since);
      i := i + 1;
      if since.Some? && (IdOf(record) == since.value || LexLess(IdOf(record), since.value)) {
        NotPast(since.value, IdOf(record));
        continue;
      }
      if since.Some? {
        LexTotal(since.value, IdOf(record));
      }
      if !Admits(q, record) {
        continue;
      }
      matched := matched + [record];
      if |matched| >= limit {
        return;
      }
    }
    assert journal[..i] == journal;
  }

  lemma NotPast(since: string, id: string)
    requires id == since || LexLess(id, since)
    ensures !LexLess(since, id)
  {
    LexIrreflexive(id);
    if LexLess(since, id) && LexLess(id, since) {
      LexTransitive(id, since, id);
    }
  }

  /** The one-record listing that reconciliation uses is the search of the store protocol. */
  lemma {:induction false} SingleListing(journal: seq<Notification>, r: RunId, k: Kind)
    ensures var page := List(journal, Query(Some({r}), Some({k}), None), None, 1);
      page == match FirstAbout(journal, r, k) case Some(n) => [n] case None => []
  {
    var q := Query(Some({r}), Some({k}), None);
    var p := (n: Notification) => Admits(q, n) && Past(None, n);
    if journal != [] {
      SingleListing(journal[1..], r, k);
      assert journal == [journal[0]] + journal[1..];
      FilterConcat([journal[0]], journal[1..], p);
      assert [journal[0]][..0] == [];
      assert Filter([journal[0]], p) == if About(journal[0], r, k) then [journal[0]] else [];
    }
  }

  // ---------- id order of the journal ----------

  /** Later records have larger ids. */
  ghost predicate Increasing(journal: seq<Notification>) {
    forall i, j :: 0 <= i < j < |journal| ==> LexLess(IdOf(journal[i]), IdOf(journal[j]))
  }

  lemma OrderedIsIncreasing(journal: seq<Notification>)
    requires Ordered(journal) && LastSeq(journal) < SEQ_LIMIT
    ensures Increasing(journal)
  {
    LastIsLargest(journal);
    forall i, j | 0 <= i < j < |journal| ensures LexLess(IdOf(journal[i]), IdOf(journal[j])) {
      assert journal[i] in journal && journal[j] in journal;
      RenderOrder(journal[i].id, journal[j].id);
    }
  }

  lemma {:induction false} FilterIncreasing(journal: seq<Notification>, p: Notification -> bool)
    requires Increasing(journal)
    ensures Increasing(Filter(journal, p))
  {
    if journal != [] {
      var front, last := journal[..|journal| - 1], journal[|journal| - 1];
      FilterIncreasing(front, p);
      var kept := Filter(front, p);
      forall i | 0 <= i < |kept| ensures LexLess(IdOf(kept[i]), IdOf(last)) {
        assert kept[i] in front;
        var j :| 0 <= j < |front| && front[j] == kept[i];
        assert journal[j] == kept[i];
      }
    }
  }

  // ---------- paging ----------

  function LastId(page: seq<Notification>, since: Option<string>): Option<string> {
    if page == [] then since else Some(IdOf(page[|page| - 1]))
  }

  /** What one listing sees: the journal of its moment, and its filters (the acks hidden may change between pages). */
  datatype Sight = Sight(journal: seq<Notification>, query: Query)

  function PageOf(sight: Sight, since: Option<string>, limit: nat): seq<Notification> {
    List(sight.journal, sight.query, since, limit)
  }

  /** A client's pages, one of each sight in turn from the last id seen, and the cursor it ends with. */
  function Collect(sights: seq<Sight>, since: Option<string>, limit: nat): (seq<Notification>, Option<string>) {
    if sights == [] then ([], since)
    else
      var page := PageOf(sights[0], since, limit);
      var (rest, cursor) := Collect(sights[1..], LastId(page, since), limit);
      (page + rest, cursor)
  }

  /**
   * How the journal may change between listings: records may be pruned, and a record that
   * was not there before has an id above all that were.
   */
  ghost predicate Evolves(before: seq<Notification>, after: seq<Notification>) {
    forall n <- after :: n in before || forall m <- before :: LexLess(IdOf(m), IdOf(n))
  }

  ghost predicate History(sights: seq<Sight>) {
    && (forall i :: 0 <= i < |sights| ==> Increasing(sights[i].journal))
    && (forall i, j :: 0 <= i < j < |sights| ==> Evolves(sights[i].journal, sights[j].journal))
  }

  ghost predicate Upto(cursor: Option<string>, n: Notification) {
    cursor.Some? && LexLeq(IdOf(n), cursor.value)
  }

  /** A page holds exactly the admitted records between the old cursor and the new one. */
  lemma PageIsInterval(journal: seq<Notification>, q: Query, since: Option<string>, limit: nat, n: Notification)
    requires Increasing(journal) && n in journal && Admits(q, n) && Past(since, n)
    ensures var page := List(journal, q, since, limit);
      && (n in page <==> Upto(LastId(page, since), n))
      && (|page| < limit ==> n in page)
  {
    var all := Matching(journal, q, since);
    var page := List(journal, q, since, limit);
    FilterIncreasing(journal, (m: Notification) => Admits(q, m) && Past(since, m));
    assert n in all;
    var i :| 0 <= i < |all| && all[i] == n;
    var last := |page| - 1;
    if i > last {
      assert LexLess(IdOf(page[last]), IdOf(n));
      NotPast(IdOf(n), IdOf(page[last]));
      LexIrreflexive(IdOf(n));
      assert forall k :: 0 <= k < |page| ==> LexLess(IdOf(all[k]), IdOf(all[i]));
    } else {
      assert page[i] == n;
      assert i < last ==> LexLess(IdOf(all[i]), IdOf(all[last]));
    }
  }

  lemma PageIncreasing(journal: seq<Notification>, q: Query, since: Option<string>, limit: nat)
    requires Increasing(journal)
    ensures Increasing(List(journal, q, since, limit))
    ensures forall n <- List(journal, q, since, limit) :: n in journal && Admits(q, n) && Past(since, n)
  {
    FilterIncreasing(journal, (n: Notification) => Admits(q, n) && Past(since, n));
    var all := Matching(journal, q, since);
    assert forall n <- all :: n in journal;
    assert forall n <- List(journal, q, since, limit) :: n in all;
  }

  /** Nothing comes twice: what the pages collect is in strictly increasing id order, past the first cursor. */
  lemma {:induction false} CollectedIncreasing(sights: seq<Sight>, since: Option<string>, limit: nat)
    requires forall i :: 0 <= i < |sights| ==> Increasing(sights[i].journal)
    ensures Increasing(Collect(sights, since, limit).0)
    ensures forall n <- Collect(sights, since, limit).0 :: Past(since, n)
    ensures Collect(sights, since, limit).1 == LastId(Collect(sights, since, limit).0, since)
    decreases |sights|
  {
    if sights != [] {
      var page := PageOf(sights[0], since, limit);
      var cursor := LastId(page, since);
      PageIncreasing(sights[0].journal, sights[0].query, since, limit);
      CollectedIncreasing(sights[1..], cursor, limit);
      var rest := Collect(sights[1..], cursor, limit).0;
      if page == [] {
        assert page + rest == rest;
      } else {
        forall n <- rest ensures PastAll(page, n) && Past(since, n) {
          PastLastIsPastAll(page, n);
          PastPage(page, since, n);
        }
        JoinIncreasing(page, rest);
      }
    }
  }

  ghost predicate PastAll(page: seq<Notification>, n: Notification) {
    forall m <- page :: LexLess(IdOf(m), IdOf(n))
  }

  lemma PastPage(page: seq<Notification>, since: Option<string>, n: Notification)
    requires page != [] && PastAll(page, n) && Past(since, page[0])
    ensures Past(since, n)
  {
    assert page[0] in page;
    if since.Some? {
      LexTransitive(since.value, IdOf(page[0]), IdOf(n));
    }
  }

  lemma PastLastIsPastAll(page: seq<Notification>, n: Notification)
    requires Increasing(page) && page != [] && LexLess(IdOf(page[|page| - 1]), IdOf(n))
    ensures PastAll(page, n)
  {
    forall m <- page ensures LexLess(IdOf(m), IdOf(n)) {
      LexLeqThenLess(IdOf(m), IdOf(page[|page| - 1]), IdOf(n));
    }
  }

  lemma JoinIncreasing(page: seq<Notification>, rest: seq<Notification>)
    requires Increasing(page) && Increasing(rest) && forall n <- rest :: PastAll(page, n)
    ensures Increasing(page + rest)
  {
    var both := page + rest;
    forall i, j | 0 <= i < j < |both| ensures LexLess(IdOf(both[i]), IdOf(both[j])) {
      if i < |page| <= j {
        assert page[i] in page && rest[j - |page|] in rest;
      }
    }
  }

  lemma LexLeqThenLess(a: string, b: string, c: string)
    requires LexLeq(a, b) && LexLess(b, c)
    ensures LexLess(a, c)
  {
    if a != b {
      LexTransitive(a, b, c);
    }
  }

  /** A record past the cursor of one listing was either not yet there or is still ahead. */
  lemma StillAhead(before: seq<Notification>, after: seq<Notification>, q: Query, since: Option<string>,
                   limit: nat, n: Notification)
    requires Increasing(before) && Evolves(before, after) && n in after && Admits(q, n) && Past(since, n)
    ensures var page := List(before, q, since, limit); n in page || Past(LastId(page, since), n)
  {
    var page := List(before, q, since, limit);
    if n in before {
      PageIsInterval(before, q, since, limit, n);
      if page != [] {
        LexTotal(IdOf(n), LastId(page, since).value);
      }
    } else if page != [] {
      PageIncreasing(before, q, since, limit);
      assert page[|page| - 1] in page;
    }
  }

  /**
   * Completeness: over any history of the journal, every record of the final journal that all
   * listings admit and that lies between the first and the last cursor has been collected, and
   * all of them have once the last page comes back short of the limit.
   */
  lemma {:induction false} CollectComplete(sights: seq<Sight>, since: Option<string>, limit: nat, n: Notification)
    requires History(sights) && sights != []
    requires n in sights[|sights| - 1].journal && Past(since, n) && forall sight <- sights :: Admits(sight.query, n)
    ensures Upto(Collect(sights, since, limit).1, n) ==> n in Collect(sights, since, limit).0
    ensures ShortLast(sights, since, limit) ==> n in Collect(sights, since, limit).0
    decreases |sights|
  {
    var page := PageOf(sights[0], since, limit);
    var cursor := LastId(page, since);
    assert sights[0] in sights;
    if |sights| == 1 {
      PageIsInterval(sights[0].journal, sights[0].query, since, limit, n);
      assert Collect(sights[1..], cursor, limit) == ([], cursor);
    } else {
      StillAhead(sights[0].journal, sights[|sights| - 1].journal, sights[0].query, since, limit, n);
      if n !in page {
        assert sights[1..][|sights[1..]| - 1] == sights[|sights| - 1];
        CollectComplete(sights[1..], cursor, limit, n);
      }
    }
  }

  /** The last page is shorter than the limit: the client has caught up. */
  predicate ShortLast(sights: seq<Sight>, since: Option<string>, limit: nat)
    requires sights != []
    decreases |sights|
  {
    var page := PageOf(sights[0], since, limit);
    if |sights| == 1 then |page| < limit else ShortLast(sights[1..], LastId(page, since), limit)
  }

  // ---------- pruning records and their acks ----------

  function RemovedIds(journal: seq<Notification>, gone: set<RunId>): set<string> {
    set n | n in journal && n.runId in gone :: IdOf(n)
  }

  lemma {:induction false} FilterAgain(journal: seq<Notification>, gone: set<RunId>,
                                       p: Notification -> bool, q: Notification -> bool)
    requires forall n <- journal :: if n.runId in gone then !p(n) else p(n) == q(n)
    ensures Filter(journal, p) == Filter(Kept(journal, gone), q)
  {
    if journal != [] {
      var front, last := journal[..|journal| - 1], journal[|journal| - 1];
      FilterAgain(front, gone, p, q);
      if last.runId !in gone {
        assert (Kept(front, gone) + [last])[..|Kept(front, gone)|] == Kept(front, gone);
      }
    }
  }

  /**
   * Pruning drops the records of the deleted runs and the acks of exactly those records: every
   * listing of other runs, acked records shown or hidden, is what it was.
   */
  lemma PruneKeepsListing(journal: seq<Notification>, gone: set<RunId>, runs: set<RunId>, kinds: Option<set<Kind>>,
                          hidden: Option<set<string>>, since: Option<string>, limit: nat)
    requires Increasing(journal) && runs !! gone
    ensures var left := if hidden.Some? then Some(hidden.value - RemovedIds(journal, gone)) else None;
      List(Kept(journal, gone), Query(Some(runs), kinds, left), since, limit)
      == List(journal, Query(Some(runs), kinds, hidden), since, limit)
  {
    var left := if hidden.Some? then Some(hidden.value - RemovedIds(journal, gone)) else None;
    var q, q' := Query(Some(runs), kinds, hidden), Query(Some(runs), kinds, left);
    var p := (n: Notification) => Admits(q, n) && Past(since, n);
    var p' := (n: Notification) => Admits(q', n) && Past(since, n);
    forall n <- journal ensures if n.runId in gone then !p(n) else p(n) == p'(n) {
      if n.runId !in gone {
        IdNotRemoved(journal, gone, n);
      }
    }
    FilterAgain(journal, gone, p, p');
  }

  lemma IdNotRemoved(journal: seq<Notification>, gone: set<RunId>, n: Notification)
    requires Increasing(journal) && n in journal && n.runId !in gone
    ensures IdOf(n) !in RemovedIds(journal, gone)
  {
    forall m <- journal | m.runId in gone ensures IdOf(m) != IdOf(n) {
      var i :| 0 <= i < |journal| && journal[i] == m;
      var j :| 0 <= j < |journal| && journal[j] == n;
      LexIrreflexive(IdOf(n));
      LexIrreflexive(IdOf(m));
      assert i < j ==> LexLess(IdOf(journal[i]), IdOf(journal[j]));
      assert j < i ==> LexLess(IdOf(journal[j]), IdOf(journal[i]));
    }
  }

  // ---------- the push poller ----------

  const POLL_LIMIT: nat := 50

  /** createNotificationPushTick: its two variables, and what it has handed to `notify`. */
  class PushPoller {
    var lastSeen: Option<string>
    var running: bool
    ghost var sent: seq<string>

    ghost predicate Valid() reads this {
      && (forall i, j :: 0 <= i < j < |sent| ==> LexLess(sent[i], sent[j]))
      && lastSeen == if sent == [] then None else Some(sent[|sent| - 1])
    }

    constructor ()
      ensures Valid() && !running && sent == []
    {
      lastSeen, running, sent := None, false, [];
    }

    /** The timer fires: a tick that finds another still running does nothing. */
    method Begin() returns (asked: bool, since: Option<string>)
      requires Valid()
      modifies this`running
      ensures Valid() && running && asked == !old(running) && since == lastSeen
    {
      since := lastSeen;
      asked := !running;
      running := true;
    }

    /** The request failed or timed out. */
    method Fail()
      requires Valid() && running
      modifies this`running
      ensures Valid() && !running
    {
      running := false;
    }

    /** One record of a listing: a larger id moves the cursor, and the record is handed on. */
    method Push(id: string)
      requires Valid() && running && (lastSeen.Some? ==> LexLess(lastSeen.value, id))
      modifies this`lastSeen, this`sent
      ensures Valid() && sent == old(sent) + [id] && lastSeen == Some(id)
    {
      if lastSeen.None? || LexLess(lastSeen.value, id) {
        lastSeen := Some(id);
      }
      SentGrows(sent, id);
      sent := sent + [id];
    }

    /** The listing arrived: every record of it is pushed, in order, and becomes the new cursor. */
    method Receive(journal: seq<Notification>, hidden: set<string>, notifications: seq<Notification>)
      requires Valid() && running && Increasing(journal)
      requires notifications == List(journal, Query(None, None, Some(hidden)), lastSeen, POLL_LIMIT)
      modifies this
      ensures Valid() && !running
      ensures sent == old(sent) + Ids(notifications)
      ensures lastSeen == LastId(notifications, old(lastSeen))
    {
      PageIncreasing(journal, Query(None, None, Some(hidden)), lastSeen, POLL_LIMIT);
      var i := 0;
      ghost var first := lastSeen;
      while i < |notifications|
        invariant i <= |notifications| && Valid() && running
        invariant sent == old(sent) + Ids(notifications[..i])
        invariant lastSeen == LastId(notifications[..i], first)
      {
        assert notifications[i] in notifications;
        PageStep(notifications, i, first);
        Push(IdOf(notifications[i]));
        i := i + 1;
      }
      assert notifications[..i] == notifications;
      running := false;
    }
  }

  /** One of the poller's listings: no run or kind filter, and what is acked by then is hidden. */
  ghost predicate PollSight(sight: Sight) {
    Increasing(sight.journal) && sight.query.runs.None? && sight.query.kinds.None? && sight.query.hidden.Some?
  }

  /** What a poller that began fresh has handed on, and its cursor, after those listings. */
  ghost predicate Polled(sent: seq<string>, lastSeen: Option<string>, sights: seq<Sight>) {
    var (all, cursor) := Collect(sights, None, POLL_LIMIT);
    sent == Ids(all) && lastSeen == cursor
  }

  lemma PolledMore(sent: seq<string>, lastSeen: Option<string>, sights: seq<Sight>, sight: Sight)
    requires Polled(sent, lastSeen, sights)
    ensures var page := PageOf(sight, lastSeen, POLL_LIMIT);
      Polled(sent + Ids(page), LastId(page, lastSeen), sights + [sight])
  {
    CollectMore(sights, sight, None, POLL_LIMIT);
    IdsJoin(Collect(sights, None, POLL_LIMIT).0, PageOf(sight, lastSeen, POLL_LIMIT));
  }

  lemma IdsJoin(all: seq<Notification>, page: seq<Notification>)
    ensures Ids(all + page) == Ids(all) + Ids(page)
  {
  }

  /** One tick whose request succeeds. */
  method Tick(poller: PushPoller, sight: Sight)
    requires poller.Valid() && !poller.running && PollSight(sight)
    modifies poller
    ensures poller.Valid() && !poller.running
    ensures var page := PageOf(sight, old(poller.lastSeen), POLL_LIMIT);
      poller.sent == old(poller.sent) + Ids(page) && poller.lastSeen == LastId(page, old(poller.lastSeen))
  {
    var _, since := poller.Begin();
    var page := PageOf(sight, since, POLL_LIMIT);
    assert sight.query == Query(None, None, sight.query.hidden);
    poller.Receive(sight.journal, sight.query.hidden.value, page);
  }

  /** One tick, whose request comes back with a listing or fails, after the given listings. */
  method Ask(poller: PushPoller, answer: Option<Sight>, ghost sights: seq<Sight>)
    requires poller.Valid() && !poller.running && (answer.Some? ==> PollSight(answer.value))
    requires Polled(poller.sent, poller.lastSeen, sights)
    modifies poller
    ensures poller.Valid() && !poller.running
    ensures Polled(poller.sent, poller.lastSeen, sights + if answer.Some? then [answer.value] else [])
  {
    if answer.None? {
      var _, _ := poller.Begin();
      poller.Fail();
      assert sights + [] == sights;
    } else {
      PolledMore(poller.sent, poller.lastSeen, sights, answer.value);
      Tick(poller, answer.value);
    }
  }

  /** The listings that came back, of the ticks' requests: `None` is one that failed or timed out. */
  function Answered(answers: seq<Option<Sight>>): (sights: seq<Sight>)
    ensures (forall sight <- sights :: Some(sight) in answers) && |sights| <= |answers|
  {
    if answers == [] then []
    else
      var last := answers[|answers| - 1];
      Answered(answers[..|answers| - 1]) + if last.Some? then [last.value] else []
  }

  /** The ticks of a fresh poller: it hands on what the pages of the successful ones collect. */
  method Poll(answers: seq<Option<Sight>>) returns (poller: PushPoller)
    requires forall sight <- Answered(answers) :: PollSight(sight)
    ensures fresh(poller) && poller.Valid() && !poller.running
    ensures Polled(poller.sent, poller.lastSeen, Answered(answers))
  {
    poller := new PushPoller();
    for i := 0 to |answers|
      invariant poller.Valid() && !poller.running && fresh(poller)
      invariant Polled(poller.sent, poller.lastSeen, Answered(answers[..i]))
    {
      AnsweredMore(answers, i);
      Ask(poller, answers[i], Answered(answers[..i]));
    }
    assert answers[..|answers|] == answers;
  }

  lemma AnsweredMore(answers: seq<Option<Sight>>, i: nat)
    requires i < |answers|
    ensures Answered(answers[..i + 1])
         == Answered(answers[..i]) + if answers[i].Some? then [answers[i].value] else []
    ensures answers[i].Some? ==> answers[i].value in Answered(answers)
  {
    assert answers[..i + 1][..i] == answers[..i];
    if answers[i].Some? {
      AnsweredHas(answers, i);
    }
  }

  lemma {:induction false} AnsweredHas(answers: seq<Option<Sight>>, i: nat)
    requires i < |answers| && answers[i].Some?
    ensures answers[i].value in Answered(answers)
  {
    var front, last := answers[..|answers| - 1], answers[|answers| - 1];
    if i < |front| {
      AnsweredHas(front, i);
    } else {
      assert Answered(answers) == Answered(front) + [last.value];
    }
  }

  /** One more page after the others. */
  lemma CollectMore(sights: seq<Sight>, sight: Sight, since: Option<string>, limit: nat)
    ensures var (all, cursor) := Collect(sights, since, limit);
      var page := PageOf(sight, cursor, limit);
      Collect(sights + [sight], since, limit) == (all + page, LastId(page, cursor))
  {
    var cursor := Collect(sights, since, limit).1;
    CollectConcat(sights, [sight], since, limit);
    var page := PageOf(sight, cursor, limit);
    assert Collect([sight], cursor, limit) == (page + [], LastId(page, cursor));
    assert page + [] == page;
  }

  /** The first page, and then those of the other sights. */
  lemma CollectFirst(sights: seq<Sight>, since: Option<string>, limit: nat)
    requires sights != []
    ensures var page := PageOf(sights[0], since, limit);
      var (rest, cursor) := Collect(sights[1..], LastId(page, since), limit);
      Collect(sights, since, limit) == (page + rest, cursor)
  {
  }

  /** The pages of later sights go on from the cursor that the earlier ones left. */
  lemma {:induction false} CollectConcat(sights: seq<Sight>, more: seq<Sight>, since: Option<string>, limit: nat)
    ensures var (all, cursor) := Collect(sights, since, limit);
      var (rest, end) := Collect(more, cursor, limit);
      Collect(sights + more, since, limit) == (all + rest, end)
    decreases |sights|
  {
    if sights == [] {
      assert [] + more == more;
      assert [] + Collect(more, since, limit).0 == Collect(more, since, limit).0;
    } else {
      var both, page := sights + more, PageOf(sights[0], since, limit);
      assert both[0] == sights[0] && both[1..] == sights[1..] + more;
      CollectConcat(sights[1..], more, LastId(page, since), limit);
      CollectFirst(sights, since, limit);
      CollectFirst(both, since, limit);
      var (all, cursor) := Collect(sights[1..], LastId(page, since), limit);
      JoinAssoc(page, all, Collect(more, cursor, limit).0);
    }
  }

  lemma JoinAssoc(a: seq<Notification>, b: seq<Notification>, c: seq<Notification>)
    ensures a + (b + c) == a + b + c
  {
  }

  lemma ShortLastRest(sights: seq<Sight>, since: Option<string>, limit: nat)
    requires |sights| > 1
    ensures var next := LastId(PageOf(sights[0], since, limit), since);
      ShortLast(sights, since, limit) == ShortLast(sights[1..], next, limit)
  {
  }

  lemma {:induction false} ShortLastConcat(sights: seq<Sight>, more: seq<Sight>, since: Option<string>, limit: nat)
    requires more != []
    ensures ShortLast(sights + more, since, limit) == ShortLast(more, Collect(sights, since, limit).1, limit)
    decreases |sights|
  {
    if sights == [] {
      assert [] + more == more;
    } else {
      var both, next := sights + more, LastId(PageOf(sights[0], since, limit), since);
      assert both[0] == sights[0] && both[1..] == sights[1..] + more;
      CollectFirst(sights, since, limit);
      ShortLastRest(both, since, limit);
      ShortLastConcat(sights[1..], more, next, limit);
    }
  }

  /** The next record of a page is past the cursor that the records before it left. */
  lemma PageStep(page: seq<Notification>, i: nat, first: Option<string>)
    requires i < |page| && Increasing(page) && Past(first, page[i])
    ensures Ids(page[..i + 1]) == Ids(page[..i]) + [IdOf(page[i])]
    ensures LastId(page[..i + 1], first) == Some(IdOf(page[i]))
    ensures Past(LastId(page[..i], first), page[i])
  {
    assert page[..i + 1] == page[..i] + [page[i]];
  }

  function Ids(page: seq<Notification>): seq<string> {
    seq(|page|, i requires 0 <= i < |page| => IdOf(page[i]))
  }

  lemma SentGrows(sent: seq<string>, id: string)
    requires forall i, j :: 0 <= i < j < |sent| ==> LexLess(sent[i], sent[j])
    requires sent != [] ==> LexLess(sent[|sent| - 1], id)
    ensures forall i :: 0 <= i < |sent| ==> LexLess(sent[i], id)
  {
    forall i | 0 <= i < |sent| ensures LexLess(sent[i], id) {
      if i < |sent| - 1 {
        LexTransitive(sent[i], sent[|sent| - 1], id);
      }
    }
  }
}
