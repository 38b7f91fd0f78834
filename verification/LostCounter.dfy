/**
 * A run of the daemon in which paging misses a record: two crashes lose two counter writes, a
 * prune removes the records that still showed the numbers, and the next record reuses a number
 * below a client's cursor.
 */
module LostCounter {
  import opened Prelude
  import opened StoreProtocol
  import opened StoreDelivery
  import opened NotificationIds
  import opened Cursor
  import opened JournalHistory

  predicate Quiet(s: Store) {
    s.threads == map[] && s.lock.None?
  }

  /** markTerminal of a run without a fatal error, up to the journal append. */
  function Mark(r: RunId, stamp: string): seq<Action> {
    [StartMark(0, r, false), Go(0, ""), Go(0, ""), Go(0, ""), Go(0, ""), Go(0, stamp)]
  }

  function RecordOf(s: Store, r: RunId, stamp: string): Notification {
    Notification(NotificationId(NextSeq(s.disk), stamp), r, Terminal)
  }

  function Marked(s: Store, r: RunId, stamp: string): Store
    requires r in s.disk.runs
  {
    var n := RecordOf(s, r, stamp);
    s.(disk := s.disk.(journal := s.disk.journal + [n],
                       runs := s.disk.runs[r := s.disk.runs[r].(terminal := true, fatal := false)]),
       threads := map[0 := Notifier(r, false, Terminal, None, Count(n.id))], lock := Some(0))
  }

  function Crashed(s: Store): Store {
    s.(threads := map[], lock := None, scan := NotStarted, crashes := s.crashes + 1)
  }

  lemma MarkTakesLock(h: seq<Action>, r: RunId)
    requires Quiet(Run(h)) && Running(Run(h).disk, r)
    ensures var s := Run(h);
      Run(h + [StartMark(0, r, false)] + [Go(0, "")] + [Go(0, "")])
      == WriteDir(s, r, s.disk.runs[r].(terminal := true, fatal := false)).(
           threads := map[0 := Notifier(r, false, Terminal, None, Check)], lock := Some(0))
  {
    RunExtend(h, StartMark(0, r, false));
    var a := h + [StartMark(0, r, false)];
    assert Run(a) == Run(h).(threads := map[0 := Marker(r, false)]);
    RunExtend(a, Go(0, ""));
    assert Run(a + [Go(0, "")]).threads == map[0 := Notifier(r, false, Terminal, None, Queue)];
    RunExtend(a + [Go(0, "")], Go(0, ""));
  }

  lemma ReadSteps(s: Store, r: RunId)
    requires s.threads == map[0 := Notifier(r, false, Terminal, None, Check)] && s.lock == Some(0)
    requires !HasSentinel(s.disk, r, Terminal)
    ensures Next(Next(s, Go(0, "")), Go(0, ""))
         == s.(threads := map[0 := Notifier(r, false, Terminal, None, Append(NextSeq(s.disk)))])
  {
    assert Next(s, Go(0, "")) == s.(threads := map[0 := Notifier(r, false, Terminal, None, ReadSeq)]);
  }

  /** With the lock it finds no sentinel and computes its number. */
  lemma MarkReads(h: seq<Action>, r: RunId)
    requires var s := Run(h);
      && s.threads == map[0 := Notifier(r, false, Terminal, None, Check)] && s.lock == Some(0)
      && !HasSentinel(s.disk, r, Terminal)
    ensures var s := Run(h);
      Run(h + [Go(0, "")] + [Go(0, "")])
      == s.(threads := map[0 := Notifier(r, false, Terminal, None, Append(NextSeq(s.disk)))])
  {
    RunExtend(h, Go(0, ""));
    RunExtend(h + [Go(0, "")], Go(0, ""));
    ReadSteps(Run(h), r);
  }

  lemma MarkWrites(h: seq<Action>, r: RunId, next: nat, stamp: string)
    requires Run(h).threads == map[0 := Notifier(r, false, Terminal, None, Append(next))]
    ensures var s := Run(h);
      var n := Notification(NotificationId(next, stamp), r, Terminal);
      Run(h + [Go(0, stamp)])
      == s.(disk := s.disk.(journal := s.disk.journal + [n]),
            threads := map[0 := Notifier(r, false, Terminal, None, Count(n.id))])
  {
    RunExtend(h, Go(0, stamp));
  }

  lemma MarkParts(h: seq<Action>, r: RunId, stamp: string)
    ensures h + [StartMark(0, r, false)] + [Go(0, "")] + [Go(0, "")] + [Go(0, "")] + [Go(0, "")] + [Go(0, stamp)]
         == h + Mark(r, stamp)
  {
  }

  lemma MarkAppends(h: seq<Action>, r: RunId, stamp: string)
    requires Quiet(Run(h)) && Running(Run(h).disk, r) && Run(h).disk.runs[r].terminalSentinel.None?
    ensures Run(h + Mark(r, stamp)) == Marked(Run(h), r, stamp)
  {
    MarkTakesLock(h, r);
    var a := h + [StartMark(0, r, false)] + [Go(0, "")] + [Go(0, "")];
    MarkReads(a, r);
    MarkWrites(a + [Go(0, "")] + [Go(0, "")], r, NextSeq(Run(h).disk), stamp);
    MarkParts(h, r, stamp);
  }

  /** The same, and the daemon dies before the counter is written. */
  lemma MarkThenCrash(h: seq<Action>, r: RunId, stamp: string)
    requires Quiet(Run(h)) && Running(Run(h).disk, r) && Run(h).disk.runs[r].terminalSentinel.None?
    ensures Run(h + Mark(r, stamp) + [Crash]) == Crashed(Marked(Run(h), r, stamp))
  {
    MarkAppends(h, r, stamp);
    RunExtend(h + Mark(r, stamp), Crash);
  }

  /** Reconciliation finds the record of a terminal run and writes the missing sentinel. */
  function Relink(r: RunId): seq<Action> {
    [Visit(0, r), Go(0, ""), Go(0, ""), Go(0, "")]
  }

  lemma RelinkLinks(h: seq<Action>, r: RunId, n: Notification)
    requires var s := Run(h);
      && Quiet(s) && s.scan.Scanning? && r in s.scan.pending && r in s.disk.runs
      && s.disk.runs[r] == RunDir(true, false, None, None) && FirstAbout(s.disk.journal, r, Terminal) == Some(n)
    ensures var s := Run(h);
      Run(h + Relink(r)) == s.(
        disk := s.disk.(runs := s.disk.runs[r := RunDir(true, false, Some(n.id), None)]),
        scan := Scanning(s.scan.pending - {r}))
  {
    var s := Run(h);
    RunExtend(h, Visit(0, r));
    var a := h + [Visit(0, r)];
    assert Run(a).threads == map[0 := Notifier(r, true, Terminal, None, Probe)];
    RunExtend(a, Go(0, ""));
    assert Run(a + [Go(0, "")]).threads == map[0 := Notifier(r, true, Terminal, None, Search)];
    var b := a + [Go(0, "")];
    RunExtend(b, Go(0, ""));
    assert Run(b + [Go(0, "")]).threads == map[0 := Notifier(r, true, Terminal, None, At.Relink(n.id))];
    RunExtend(b + [Go(0, "")], Go(0, ""));
    assert b + [Go(0, "")] + [Go(0, "")] == h + Relink(r);
  }

  // ---------- the run ----------

  const FIRST: Notification := Notification(NotificationId(1, "a"), 0, Terminal)
  const SECOND: Notification := Notification(NotificationId(2, "b"), 1, Terminal)
  const THIRD: Notification := Notification(NotificationId(1, "c"), 2, Terminal)

  const RUNNING: RunDir := RunDir(false, false, None, None)
  const UNLINKED: RunDir := RunDir(true, false, None, None)

  /** Run 0 ends, and the daemon dies before it has counted its record. */
  const LIFE_1: seq<Action> := [Create(0)] + [Create(1)] + Mark(0, "a") + [Crash]

  /** The restarted daemon reconciles, and marks run 1 orphaned. */
  const LIFE_2: seq<Action> := LIFE_1 + [BeginScan({0, 1})] + Relink(0) + [Visit(0, 1)] + Mark(1, "b")

  /** It dies there; the next one reconciles, and the user prunes both runs. */
  const RESCANNED: seq<Action> := LIFE_2 + [Crash] + [BeginScan({0, 1})] + [Visit(0, 0)] + [Go(0, "")]
  const SCANNED: seq<Action> := RESCANNED + Relink(1)
  const REMOVED: seq<Action> := SCANNED + [StartPrune(0, {0, 1})] + [Remove(0, 0)] + [Remove(0, 1)]
  const PRUNED: seq<Action> := REMOVED + [Go(0, "")] + [Go(0, "")] + [Go(0, "")]

  /** A new run starts and ends. */
  const LIFE_3: seq<Action> := PRUNED + [Create(2)] + Mark(2, "c")

  lemma FirstLife()
    ensures Run(LIFE_1)
         == Store(Disk([FIRST], 0, map[0 := UNLINKED, 1 := RUNNING]), {0, 1}, 1, map[], None, NotStarted)
  {
    RunExtend([], Create(0));
    assert [] + [Create(0)] == [Create(0)];
    RunExtend([Create(0)], Create(1));
    assert Run([Create(0)] + [Create(1)]).disk == Disk([], 0, map[0 := RUNNING, 1 := RUNNING]);
    MarkThenCrash([Create(0)] + [Create(1)], 0, "a");
    assert [] + [FIRST] == [FIRST];
  }

  lemma SecondLife()
    ensures Run(LIFE_2) == Store(
      Disk([FIRST, SECOND], 0, map[0 := RunDir(true, false, Some(FIRST.id), None), 1 := UNLINKED]), {0, 1}, 1,
      map[0 := Notifier(1, false, Terminal, None, Count(SECOND.id))], Some(0), Scanning({}))
  {
    FirstLife();
    RunExtend(LIFE_1, BeginScan({0, 1}));
    var a := LIFE_1 + [BeginScan({0, 1})];
    RelinkLinks(a, 0, FIRST);
    var b := a + Relink(0);
    RunExtend(b, Visit(0, 1));
    var c := b + [Visit(0, 1)];
    assert Run(c).scan == Scanning({}) && Quiet(Run(c));
    MarkAppends(c, 1, "b");
    assert [FIRST] + [SECOND] == [FIRST, SECOND];
  }

  /** Run 0 has its sentinel by now: the scan leaves it alone. */
  lemma Rescan()
    ensures Run(RESCANNED) == Store(
      Disk([FIRST, SECOND], 0, map[0 := RunDir(true, false, Some(FIRST.id), None), 1 := UNLINKED]), {0, 1}, 2,
      map[], None, Scanning({1}))
  {
    SecondLife();
    RunExtend(LIFE_2, Crash);
    var a := LIFE_2 + [Crash];
    RunExtend(a, BeginScan({0, 1}));
    var b := a + [BeginScan({0, 1})];
    RunExtend(b, Visit(0, 0));
    assert Run(b + [Visit(0, 0)]).threads == map[0 := Notifier(0, true, Terminal, None, Probe)];
    RunExtend(b + [Visit(0, 0)], Go(0, ""));
    assert {0, 1} - {0} == {1};
  }

  lemma ThirdScan()
    ensures Run(SCANNED) == Store(
      Disk([FIRST, SECOND], 0, map[0 := RunDir(true, false, Some(FIRST.id), None),
                                   1 := RunDir(true, false, Some(SECOND.id), None)]),
      {0, 1}, 2, map[], None, Scanning({}))
  {
    Rescan();
    assert [FIRST, SECOND][1..] == [SECOND];
    assert FirstAbout([SECOND], 1, Terminal) == Some(SECOND);
    RelinkLinks(RESCANNED, 1, SECOND);
    assert {1} - {1} == {};
  }

  lemma Removed()
    ensures Run(REMOVED) == Store(
      Disk([FIRST, SECOND], 0, map[]), {0, 1}, 2, map[0 := Remover({}, {0, 1})], None, Scanning({}))
  {
    ThirdScan();
    RunExtend(SCANNED, StartPrune(0, {0, 1}));
    var a := SCANNED + [StartPrune(0, {0, 1})];
    RunExtend(a, Remove(0, 0));
    RunExtend(a + [Remove(0, 0)], Remove(0, 1));
    assert {0, 1} - {0} - {1} == {} && {} + {0} + {1} == {0, 1};
  }

  lemma PruneSteps(s: Store, gone: set<RunId>)
    requires s.threads == map[0 := Remover({}, gone)] && s.lock.None? && gone != {}
    ensures Next(Next(Next(s, Go(0, "")), Go(0, "")), Go(0, ""))
         == s.(disk := s.disk.(journal := Kept(s.disk.journal, gone)), threads := map[])
  {
    assert Next(s, Go(0, "")) == s.(threads := map[0 := PruneQueue(gone)]);
    assert Next(Next(s, Go(0, "")), Go(0, "")) == s.(threads := map[0 := PruneJournal(gone)], lock := Some(0));
  }

  lemma Pruned()
    ensures Run(PRUNED) == Store(Disk([], 0, map[]), {0, 1}, 2, map[], None, Scanning({}))
  {
    Removed();
    RunExtend(REMOVED, Go(0, ""));
    RunExtend(REMOVED + [Go(0, "")], Go(0, ""));
    RunExtend(REMOVED + [Go(0, "")] + [Go(0, "")], Go(0, ""));
    PruneSteps(Run(REMOVED), {0, 1});
    assert [FIRST, SECOND][..1] == [FIRST] && [FIRST][..0] == [];
    assert FIRST.runId == 0 && SECOND.runId == 1;
    assert Kept([FIRST], {0, 1}) == Kept([], {0, 1}) == [];
    assert Kept([FIRST, SECOND], {0, 1}) == Kept([FIRST], {0, 1});
  }

  lemma ThirdLife()
    ensures Run(LIFE_3).disk.journal == [THIRD]
  {
    Pruned();
    RunExtend(PRUNED, Create(2));
    var a := PRUNED + [Create(2)];
    assert Run(a).disk == Disk([], 0, map[2 := RUNNING]) && Quiet(Run(a));
    MarkAppends(a, 2, "c");
    assert [] + [THIRD] == [THIRD];
  }

  const EVERYTHING: Query := Query(None, None, None)
  const SIGHTS: seq<Sight> := [Sight([FIRST, SECOND], EVERYTHING), Sight([THIRD], EVERYTHING)]

  /**
   * A client that lists after the second record and again after the third has a short last
   * page and has not been given the third record, which is in the journal.
   */
  lemma RecordIsMissed(limit: nat)
    requires limit >= 2
    ensures Run(LIFE_2).disk.journal == [FIRST, SECOND] && Run(LIFE_3).disk.journal == [THIRD] && LIFE_2 <= LIFE_3
    ensures Collect(SIGHTS, None, limit).0 == [FIRST, SECOND] && ShortLast(SIGHTS, None, limit)
  {
    SecondLife();
    ThirdLife();
    Pages(limit);
    LivesInOrder();
  }

  lemma LivesInOrder()
    ensures LIFE_2 <= LIFE_3
  {
    assert LIFE_2 <= RESCANNED <= SCANNED <= REMOVED <= PRUNED <= LIFE_3;
  }

  lemma Pages(limit: nat)
    requires limit >= 2
    ensures Collect(SIGHTS, None, limit).0 == [FIRST, SECOND] && ShortLast(SIGHTS, None, limit)
  {
    var later := SIGHTS[1..];
    assert later == [SIGHTS[1]] && later[1..] == [];
    FirstPage(limit);
    SecondPage(limit);
    var cursor := Some(IdOf(SECOND));
    assert LastId([FIRST, SECOND], None) == cursor;
    assert Collect(later, cursor, limit) == ([], cursor) by {
      assert [] + Collect([], cursor, limit).0 == [];
    }
    assert [FIRST, SECOND] + [] == [FIRST, SECOND];
  }

  lemma FirstPage(limit: nat)
    requires limit >= 2
    ensures PageOf(SIGHTS[0], None, limit) == [FIRST, SECOND]
  {
    var j := [FIRST, SECOND];
    assert j[..1] == [FIRST] && [FIRST][..0] == [];
    assert Matching([FIRST], EVERYTHING, None) == [FIRST];
    assert Matching(j, EVERYTHING, None) == j;
  }

  lemma SecondPage(limit: nat)
    ensures PageOf(SIGHTS[1], Some(IdOf(SECOND)), limit) == []
  {
    RenderOrder(SECOND.id, THIRD.id);
    assert [THIRD][..0] == [];
  }
}
