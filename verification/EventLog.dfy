/**
 * A run's event log and its sequence counter: appends under the run lock, crashes between
 * the two writes, and the summary reader that repairs a lagging counter without the lock.
 */
module EventLog {
  import opened Prelude

  // ---------- the protocol ----------

  /** The holder of the run lock: it has read the counter, or has also appended. */
  datatype Writer = NoWriter | Counted(next: nat) | Appended(next: nat)

  /** readEventSummary, part way: it has read the counter, or the counter and the log. */
  datatype Reader = SawCounter(seqNo: nat) | SawLog(seqNo: nat, logSeq: nat)

  datatype Log = Log(events: seq<nat>, counter: nat, writer: Writer, readers: map<nat, Reader>, crashed: bool)

  datatype Action =
    | Lock | Append | Count
    | ReadCounter(t: nat) | ReadLog(t: nat) | Repair(t: nat)
    | Crash

  const NEW_LOG: Log := Log([], 0, NoWriter, map[], false)

  function Last(events: seq<nat>): nat {
    if events == [] then 0 else events[|events| - 1]
  }

  function Drop(readers: map<nat, Reader>, t: nat): map<nat, Reader> {
    map u | u in readers && u != t :: readers[u]
  }

  predicate Enabled(l: Log, a: Action) {
    match a
    case Lock => l.writer.NoWriter?
    case Append => l.writer.Counted?
    case Count => l.writer.Appended?
    case ReadCounter(t) => t !in l.readers
    case ReadLog(t) => t in l.readers && l.readers[t].SawCounter?
    case Repair(t) => t in l.readers && l.readers[t].SawLog?
    case Crash => true
  }

  function Next(l: Log, a: Action): Log {
    if !Enabled(l, a) then l
    else match a
      case Lock => l.(writer := Counted(l.counter + 1))
      case Append => l.(events := l.events + [l.writer.next], writer := Appended(l.writer.next))
      case Count => l.(counter := l.writer.next, writer := NoWriter)
      case ReadCounter(t) => l.(readers := l.readers[t := SawCounter(l.counter)])
      case ReadLog(t) => l.(readers := l.readers[t := SawLog(l.readers[t].seqNo, Last(l.events))])
      case Repair(t) =>
        var r := l.readers[t];
        var l' := l.(readers := Drop(l.readers, t));
        if r.logSeq > r.seqNo then l'.(counter := r.logSeq) else l'
      case Crash => l.(writer := NoWriter, readers := map[], crashed := true)
  }

  function Run(schedule: seq<Action>): Log {
    if schedule == [] then NEW_LOG
    else Next(Run(schedule[..|schedule| - 1]), schedule[|schedule| - 1])
  }

  ghost predicate NonDecreasing(events: seq<nat>) {
    forall i, j :: 0 <= i < j < |events| ==> events[i] <= events[j]
  }

  /** The events are numbered 1, 2, 3 and so on without gap or repetition. */
  ghost predicate Numbered(events: seq<nat>) {
    forall i :: 0 <= i < |events| ==> events[i] == i + 1
  }

  lemma RunExtend(schedule: seq<Action>, a: Action)
    ensures Run(schedule + [a]) == Next(Run(schedule), a)
  {
    assert (schedule + [a])[..|schedule|] == schedule;
  }

  lemma PrefixStep(schedule: seq<Action>, i: nat)
    requires i < |schedule|
    ensures Run(schedule[..i + 1]) == Next(Run(schedule[..i]), schedule[i])
  {
    assert schedule[..i + 1] == schedule[..i] + [schedule[i]];
    RunExtend(schedule[..i], schedule[i]);
  }

  /** A repair that writes: what the reader saw of the log is above what it saw of the counter. */
  predicate Writes(l: Log, a: Action) {
    a.Repair? && Enabled(l, a) && l.readers[a.t].logSeq > l.readers[a.t].seqNo
  }

  // ---------- without crashes ----------

  /** The log is 1..n, and the counter is n unless a lock holder still has to write it. */
  ghost predicate InStep(l: Log) {
    Numbered(l.events) && (l.writer.NoWriter? ==> l.counter == |l.events|)
  }

  /** A repair while nobody holds the lock, by a reader that looked at the log before its latest appends. */
  predicate StaleUnlocked(l: Log, a: Action) {
    Writes(l, a) && l.writer.NoWriter? && l.readers[a.t].logSeq < l.counter
  }

  ghost predicate ReadersOk(l: Log) {
    forall t <- l.readers :: l.readers[t].SawLog? ==> l.readers[t].logSeq <= Last(l.events)
  }

  /** What makes the log stay in step. */
  ghost predicate StepInv(l: Log) {
    && InStep(l) && ReadersOk(l)
    && (!l.writer.NoWriter? ==> l.writer.next == |l.events| + if l.writer.Counted? then 1 else 0)
  }

  lemma NextInStep(l: Log, a: Action)
    requires StepInv(l) && a != Crash
    ensures StaleUnlocked(l, a) ==> !InStep(Next(l, a))
    ensures !StaleUnlocked(l, a) ==> StepInv(Next(l, a))
  {
  }

  lemma {:induction false} CrashesStay(schedule: seq<Action>, i: nat)
    requires i <= |schedule| && Run(schedule[..i]).crashed
    ensures Run(schedule).crashed
    decreases |schedule| - i
  {
    if i < |schedule| {
      PrefixStep(schedule, i);
      CrashesStay(schedule, i + 1);
    } else {
      assert schedule[..i] == schedule;
    }
  }

  lemma {:induction false} PrefixesInStep(schedule: seq<Action>, i: nat)
    requires i <= |schedule| && !Run(schedule).crashed
    requires forall j :: 0 <= j < i ==> !StaleUnlocked(Run(schedule[..j]), schedule[j])
    ensures StepInv(Run(schedule[..i]))
  {
    if i > 0 {
      PrefixesInStep(schedule, i - 1);
      PrefixStep(schedule, i - 1);
      if schedule[i - 1] == Crash {
        CrashesStay(schedule, i);
      }
      NextInStep(Run(schedule[..i - 1]), schedule[i - 1]);
    }
  }

  /** The first step at which something happens. */
  lemma {:induction false} FirstStale(schedule: seq<Action>, j: nat) returns (i: nat)
    requires j < |schedule| && StaleUnlocked(Run(schedule[..j]), schedule[j])
    ensures i <= j && StaleUnlocked(Run(schedule[..i]), schedule[i])
    ensures forall k :: 0 <= k < i ==> !StaleUnlocked(Run(schedule[..k]), schedule[k])
  {
    if k :| 0 <= k < j && StaleUnlocked(Run(schedule[..k]), schedule[k]) {
      i := FirstStale(schedule, k);
    } else {
      i := j;
    }
  }

  /**
   * Without a crash the log is numbered 1..n at every moment, and the counter is n whenever the
   * lock is free, exactly when no summary repairs the counter from an outdated look at the log
   * while the lock is free. Under the lock such a repair is undone by the holder's own write.
   */
  lemma CrashFreeNumberingIff(schedule: seq<Action>)
    requires !Run(schedule).crashed
    ensures (forall i :: 0 <= i <= |schedule| ==> InStep(Run(schedule[..i])))
       <==> forall i :: 0 <= i < |schedule| ==> !StaleUnlocked(Run(schedule[..i]), schedule[i])
  {
    if forall i :: 0 <= i < |schedule| ==> !StaleUnlocked(Run(schedule[..i]), schedule[i]) {
      forall i | 0 <= i <= |schedule| ensures InStep(Run(schedule[..i])) {
        PrefixesInStep(schedule, i);
      }
    } else {
      var j :| 0 <= j < |schedule| && StaleUnlocked(Run(schedule[..j]), schedule[j]);
      var i := FirstStale(schedule, j);
      PrefixesInStep(schedule, i);
      PrefixStep(schedule, i);
      if schedule[i] != Crash {
        NextInStep(Run(schedule[..i]), schedule[i]);
      }
    }
  }

  /** A repair from an outdated look under the lock does no harm. */
  const HEALED: seq<Action> :=
    [Lock, Append, ReadCounter(0), ReadLog(0), Count, Lock, Append, Count, Lock, Repair(0), Append, Count]

  lemma LockedRepairHeals()
    ensures Run(HEALED) == Log([1, 2, 3], 3, NoWriter, map[], false)
    ensures Run(HEALED[..10]).counter == 1
  {
    TwoAppends();
    var c := TWO;
    RunExtend(c, Lock);
    RunExtend(c + [Lock], Repair(0));
    var d := c + [Lock] + [Repair(0)];
    assert Run(d) == Log([1, 2], 1, Counted(3), map[], false);
    RunExtend(d, Append);
    RunExtend(d + [Append], Count);
    assert d + [Append] + [Count] == HEALED && HEALED[..10] == d;
  }

  // ---------- with crashes ----------

  /** Numbers never fall, and the counter is at most one behind the last of them. */
  ghost predicate OneBehind(l: Log) {
    NonDecreasing(l.events) && l.counter <= Last(l.events) <= l.counter + 1
  }

  /**
   * The two steps that take the log further from its counter: a repair from a look at least two
   * numbers old, and an append by a holder whose counter was moved back since it took the lock.
   */
  predicate Strays(l: Log, a: Action) {
    || (Writes(l, a) && l.readers[a.t].logSeq + 1 < Last(l.events))
    || (a == Append && Enabled(l, a) && l.counter + 1 < l.writer.next)
  }

  ghost predicate BehindInv(l: Log) {
    && OneBehind(l) && ReadersOk(l)
    && (l.writer.Counted? ==> Last(l.events) <= l.writer.next)
    && (l.writer.Appended? ==> l.writer.next == Last(l.events))
  }

  lemma NextBehind(l: Log, a: Action)
    requires BehindInv(l)
    ensures Strays(l, a) ==> !OneBehind(Next(l, a))
    ensures !Strays(l, a) ==> BehindInv(Next(l, a))
  {
    if a == Append && Enabled(l, a) {
      assert forall i :: 0 <= i < |l.events| ==> l.events[i] <= Last(l.events);
      var events := Next(l, a).events;
      assert events == l.events + [l.writer.next] && Last(events) == l.writer.next;
    }
  }

  lemma {:induction false} PrefixesBehind(schedule: seq<Action>, i: nat)
    requires i <= |schedule|
    requires forall j :: 0 <= j < i ==> !Strays(Run(schedule[..j]), schedule[j])
    ensures BehindInv(Run(schedule[..i]))
  {
    if i > 0 {
      PrefixesBehind(schedule, i - 1);
      PrefixStep(schedule, i - 1);
      NextBehind(Run(schedule[..i - 1]), schedule[i - 1]);
    }
  }

  lemma {:induction false} FirstStray(schedule: seq<Action>, j: nat) returns (i: nat)
    requires j < |schedule| && Strays(Run(schedule[..j]), schedule[j])
    ensures i <= j && Strays(Run(schedule[..i]), schedule[i])
    ensures forall k :: 0 <= k < i ==> !Strays(Run(schedule[..k]), schedule[k])
  {
    if k :| 0 <= k < j && Strays(Run(schedule[..k]), schedule[k]) {
      i := FirstStray(schedule, k);
    } else {
      i := j;
    }
  }

  /**
   * With crashes numbers may repeat. They never fall, and the counter is at most one behind, at
   * every moment, exactly when no step of the schedule strays.
   */
  lemma OneBehindIff(schedule: seq<Action>)
    ensures (forall i :: 0 <= i <= |schedule| ==> OneBehind(Run(schedule[..i])))
       <==> forall i :: 0 <= i < |schedule| ==> !Strays(Run(schedule[..i]), schedule[i])
  {
    if forall i :: 0 <= i < |schedule| ==> !Strays(Run(schedule[..i]), schedule[i]) {
      forall i | 0 <= i <= |schedule| ensures OneBehind(Run(schedule[..i])) {
        PrefixesBehind(schedule, i);
      }
    } else {
      var j :| 0 <= j < |schedule| && Strays(Run(schedule[..j]), schedule[j]);
      var i := FirstStray(schedule, j);
      PrefixesBehind(schedule, i);
      PrefixStep(schedule, i);
      NextBehind(Run(schedule[..i]), schedule[i]);
    }
  }

  /** A repair that moves the counter back. */
  predicate MovesBack(l: Log, a: Action) {
    Writes(l, a) && l.readers[a.t].logSeq < l.counter
  }

  lemma {:induction false} NeverBack(schedule: seq<Action>, i: nat)
    requires i <= |schedule| && forall j :: 0 <= j < |schedule| ==> !MovesBack(Run(schedule[..j]), schedule[j])
    ensures BehindInv(Run(schedule[..i]))
    ensures Run(schedule[..i]).writer.Counted? ==> Run(schedule[..i]).writer.next <= Run(schedule[..i]).counter + 1
  {
    if i > 0 {
      NeverBack(schedule, i - 1);
      PrefixStep(schedule, i - 1);
      NextBehind(Run(schedule[..i - 1]), schedule[i - 1]);
    }
  }

  /** In particular numbers never fall when no repair moves the counter back, however many crashes. */
  lemma NumbersNeverFall(schedule: seq<Action>)
    requires forall j :: 0 <= j < |schedule| ==> !MovesBack(Run(schedule[..j]), schedule[j])
    ensures OneBehind(Run(schedule))
  {
    NeverBack(schedule, |schedule|);
    assert schedule[..|schedule|] == schedule;
  }

  lemma SummarySteps(l: Log, t: nat)
    requires BehindInv(l) && t !in l.readers
    ensures var l' := Next(Next(Next(l, ReadCounter(t)), ReadLog(t)), Repair(t));
      l'.counter == Last(l.events) && l'.events == l.events
  {
    var seen := l.(readers := l.readers[t := SawCounter(l.counter)]);
    assert Next(l, ReadCounter(t)) == seen;
    assert Next(seen, ReadLog(t)) == l.(readers := l.readers[t := SawLog(l.counter, Last(l.events))]);
  }

  /** A summary read in one go restores the equality of counter and log. */
  lemma SummaryRepairs(schedule: seq<Action>, t: nat)
    requires t !in Run(schedule).readers
    requires forall i :: 0 <= i < |schedule| ==> !Strays(Run(schedule[..i]), schedule[i])
    ensures var l := Run(schedule + [ReadCounter(t)] + [ReadLog(t)] + [Repair(t)]);
      l.counter == Last(l.events) && l.events == Run(schedule).events
  {
    PrefixesBehind(schedule, |schedule|);
    assert schedule[..|schedule|] == schedule;
    RunExtend(schedule, ReadCounter(t));
    RunExtend(schedule + [ReadCounter(t)], ReadLog(t));
    RunExtend(schedule + [ReadCounter(t)] + [ReadLog(t)], Repair(t));
    SummarySteps(Run(schedule), t);
  }

  // ---------- a repeated number ----------

  /** A summary looks at the log between an append and its counter write, and one more append passes. */
  const TWO: seq<Action> := [Lock, Append, ReadCounter(0), ReadLog(0), Count, Lock, Append, Count]

  /** Then it writes what it saw, and the next append repeats a number. */
  const STALE_REPAIR: seq<Action> := TWO + [Repair(0)] + [Lock] + [Append] + [Count]

  lemma TwoAppends()
    ensures Run(TWO) == Log([1, 2], 2, NoWriter, map[0 := SawLog(0, 1)], false)
  {
    var a: seq<Action> := [];
    RunExtend(a, Lock);
    RunExtend(a + [Lock], Append);
    RunExtend(a + [Lock] + [Append], ReadCounter(0));
    var b := a + [Lock] + [Append] + [ReadCounter(0)];
    RunExtend(b, ReadLog(0));
    RunExtend(b + [ReadLog(0)], Count);
    RunExtend(b + [ReadLog(0)] + [Count], Lock);
    var c := b + [ReadLog(0)] + [Count] + [Lock];
    assert Run(c) == Log([1], 1, Counted(2), map[0 := SawLog(0, 1)], false);
    RunExtend(c, Append);
    RunExtend(c + [Append], Count);
    assert c + [Append] + [Count] == TWO;
  }

  lemma StaleRepairRepeats()
    ensures Run(STALE_REPAIR).events == [1, 2, 2] && !Run(STALE_REPAIR).crashed
  {
    TwoAppends();
    RunExtend(TWO, Repair(0));
    assert Run(TWO + [Repair(0)]) == Log([1, 2], 1, NoWriter, map[], false);
    RunExtend(TWO + [Repair(0)], Lock);
    RunExtend(TWO + [Repair(0)] + [Lock], Append);
    RunExtend(TWO + [Repair(0)] + [Lock] + [Append], Count);
  }

  // ---------- reading by pages ----------

  datatype Event = Event(seqNo: nat, payload: string)

  function After(log: seq<Event>, after: nat): seq<Event> {
    Filter(log, (e: Event) => e.seqNo > after)
  }

  datatype Page = Page(events: seq<Event>, nextSequence: nat, hasMore: bool)

  function PageOf(log: seq<Event>, after: nat, limit: nat): Page {
    var rest := After(log, after);
    var events := if |rest| <= limit then rest else rest[..limit];
    Page(events, if events == [] then after else events[|events| - 1].seqNo, |rest| > limit)
  }

  lemma PrefixOfAfter(log: seq<Event>, after: nat, i: nat)
    requires i <= |log|
    ensures After(log[..i], after) <= After(log, after)
  {
    assert log == log[..i] + log[i..];
    FilterConcat(log[..i], log[i..], (e: Event) => e.seqNo > after);
  }

  /**
   * The page holds the first events numbered past the start, as many as the limit; says whether
   * there are more; and goes on from the number of its last event, or from the start when it is empty.
   */
  ghost predicate FirstPast(log: seq<Event>, after: nat, limit: nat, page: Page) {
    exists all :: Selects(log, all, (e: Event) => e.seqNo > after)
      && page.events <= all && |page.events| == Min(limit, |all|)
      && (page.hasMore <==> |all| > limit)
      && page.nextSequence == if page.events == [] then after else page.events[|page.events| - 1].seqNo
  }

  lemma PageIsFirstPast(log: seq<Event>, after: nat, limit: nat)
    ensures FirstPast(log, after, limit, PageOf(log, after, limit))
  {
    FilterSelects(log, (e: Event) => e.seqNo > after);
    assert Selects(log, After(log, after), (e: Event) => e.seqNo > after);
  }

  method ReadEventsPage(log: seq<Event>, after: nat, limit: nat) returns (page: Page)
    ensures page == PageOf(log, after, limit)
  {
    var events: seq<Event> := [];
    var hasMore := false;
    var i := 0;
    while i < |log|
      invariant i <= |log| && !hasMore
      invariant events == After(log[..i], after) && |events| <= limit
    {
      ghost var before := log[..i];
      var event := log[i];
      assert log[..i + 1][..i] == before;
      i := i + 1;
      if event.seqNo <= after {
        continue;
      }
      if |events| >= limit {
        hasMore := true;
        PrefixOfAfter(log, after, i);
        assert After(log, after)[..limit] == events;
        break;
      }
      events := events + [event];
    }
    assert !hasMore ==> log[..i] == log;
    page := Page(events, if |events| > 0 then events[|events| - 1].seqNo else after, hasMore);
  }

  ghost predicate StrictlyIncreasing(log: seq<Event>) {
    forall i, j :: 0 <= i < j < |log| ==> log[i].seqNo < log[j].seqNo
  }

  function Highest(log: seq<Event>): (h: nat)
    ensures forall e <- log :: e.seqNo <= h
  {
    if log == [] then 0
    else
      var h := Highest(log[..|log| - 1]);
      Max(h, log[|log| - 1].seqNo)
  }

  /** A client that reads page after page, each from the sequence the last one ended at. */
  function AllPages(log: seq<Event>, after: nat, limit: nat): seq<Event>
    requires limit >= 1
    decreases Highest(log) - after
  {
    var page := PageOf(log, after, limit);
    if page.hasMore then
      assert page.events[|page.events| - 1] in After(log, after);
      page.events + AllPages(log, page.nextSequence, limit)
    else page.events
  }

  lemma {:induction false} AfterSplits(log: seq<Event>, after: nat, cut: nat)
    requires StrictlyIncreasing(log) && 0 < cut <= |After(log, after)|
    ensures After(log, After(log, after)[cut - 1].seqNo) == After(log, after)[cut..]
  {
    if log != [] {
      var front, last := log[..|log| - 1], log[|log| - 1];
      var rest := After(front, after);
      if cut <= |rest| {
        AfterSplits(front, after, cut);
        assert rest[cut - 1] in front;
      } else {
        AfterNone(front, last.seqNo);
      }
    }
  }

  lemma {:induction false} AfterNone(log: seq<Event>, after: nat)
    requires forall e <- log :: e.seqNo <= after
    ensures After(log, after) == []
  {
    if log != [] {
      AfterNone(log[..|log| - 1], after);
    }
  }

  /** When numbers strictly increase, pages of any size concatenate to everything past the start. */
  lemma {:induction false} PagesAreComplete(log: seq<Event>, after: nat, limit: nat)
    requires StrictlyIncreasing(log) && limit >= 1
    ensures AllPages(log, after, limit) == After(log, after)
    decreases Highest(log) - after
  {
    var page := PageOf(log, after, limit);
    var rest := After(log, after);
    if page.hasMore {
      assert page.events[|page.events| - 1] in After(log, after);
      AfterSplits(log, after, limit);
      PagesAreComplete(log, page.nextSequence, limit);
      assert rest == rest[..limit] + rest[limit..];
    }
  }

  lemma {:induction false} AfterAll(log: seq<Event>, after: nat)
    requires forall e <- log :: e.seqNo > after
    ensures After(log, after) == log
  {
    if log != [] {
      AfterAll(log[..|log| - 1], after);
    }
  }

  /** Pages of one event never repeat a number. */
  lemma {:induction false} SinglePagesIncrease(log: seq<Event>, after: nat)
    ensures StrictlyIncreasing(AllPages(log, after, 1))
    ensures forall e <- AllPages(log, after, 1) :: e.seqNo > after
    decreases Highest(log) - after
  {
    var page := PageOf(log, after, 1);
    assert forall e <- page.events :: e in After(log, after);
    if page.hasMore {
      assert page.events[|page.events| - 1] in After(log, after);
      SinglePagesIncrease(log, page.nextSequence);
    }
  }

  /**
   * Reading one event at a time returns the whole log exactly when its numbers strictly
   * increase from at least 1: a number repeated after a crash hides an event from such a client.
   */
  lemma SinglePagesCompleteIff(log: seq<Event>)
    ensures AllPages(log, 0, 1) == log
       <==> StrictlyIncreasing(log) && (forall e <- log :: e.seqNo > 0)
  {
    SinglePagesIncrease(log, 0);
    if StrictlyIncreasing(log) && forall e <- log :: e.seqNo > 0 {
      PagesAreComplete(log, 0, 1);
      AfterAll(log, 0);
    }
  }

  // ---------- pages of any size ----------

  ghost predicate SeqsNonDecreasing(log: seq<Event>) {
    forall i, j :: 0 <= i < j < |log| ==> log[i].seqNo <= log[j].seqNo
  }

  lemma AfterCut(log: seq<Event>, c: nat, after: nat)
    requires c <= |log|
    requires forall i :: 0 <= i < c ==> log[i].seqNo <= after
    requires forall i :: c <= i < |log| ==> log[i].seqNo > after
    ensures After(log, after) == log[c..]
  {
    assert log == log[..c] + log[c..];
    FilterConcat(log[..c], log[c..], (e: Event) => e.seqNo > after);
    AfterNone(log[..c], after);
    AfterAll(log[c..], after);
  }

  lemma {:induction false} PagesPastStart(log: seq<Event>, after: nat, limit: nat)
    requires limit >= 1
    ensures forall e <- AllPages(log, after, limit) :: e.seqNo > after
    decreases Highest(log) - after
  {
    var page := PageOf(log, after, limit);
    assert forall e <- page.events :: e in After(log, after);
    if page.hasMore {
      assert page.events[|page.events| - 1] in After(log, after);
      PagesPastStart(log, page.nextSequence, limit);
    }
  }

  /** Cut into pages of that size from the p-th event on, no page ends between two events of one number. */
  predicate CleanCuts(log: seq<Event>, p: nat, limit: nat)
    requires limit >= 1
    decreases |log| - p
  {
    p + limit < |log| ==> log[p + limit - 1].seqNo < log[p + limit].seqNo && CleanCuts(log, p + limit, limit)
  }

  lemma FirstPageFrom(log: seq<Event>, p: nat, after: nat, limit: nat)
    requires limit >= 1 && p + limit < |log| && After(log, after) == log[p..]
    ensures var page := PageOf(log, after, limit);
      page.hasMore && page.events == log[p..p + limit] && page.nextSequence == log[p + limit - 1].seqNo
  {
    assert log[p..][..limit] == log[p..p + limit];
  }

  /** Reading on behind a page that ends between two events of one number misses the second. */
  lemma UncleanMisses(log: seq<Event>, q: nat, limit: nat)
    requires limit >= 1 && 0 < q < |log| && log[q - 1].seqNo >= log[q].seqNo
    ensures !ReadsRest(log, q, log[q - 1].seqNo, limit)
  {
    PagesPastStart(log, log[q - 1].seqNo, limit);
    assert log[q..][0] == log[q] && log[q] in log[q..];
  }

  /** The pages from a position on, given that its events are those past a number, return the rest of the log. */
  ghost predicate ReadsRest(log: seq<Event>, p: nat, after: nat, limit: nat)
    requires limit >= 1 && p <= |log|
  {
    AllPages(log, after, limit) == log[p..]
  }

  lemma PagesUnfold(log: seq<Event>, p: nat, after: nat, limit: nat)
    requires limit >= 1 && p + limit < |log| && After(log, after) == log[p..]
    ensures ReadsRest(log, p, after, limit) <==> ReadsRest(log, p + limit, log[p + limit - 1].seqNo, limit)
  {
    FirstPageFrom(log, p, after, limit);
    assert log[p..] == log[p..p + limit] + log[p + limit..];
    SameTail(log[p..p + limit], AllPages(log, log[p + limit - 1].seqNo, limit), log[p + limit..]);
  }

  /** A clean cut splits a log whose numbers never fall. */
  lemma CleanSplits(log: seq<Event>, q: nat)
    requires SeqsNonDecreasing(log) && 0 < q < |log| && log[q - 1].seqNo < log[q].seqNo
    ensures After(log, log[q - 1].seqNo) == log[q..]
  {
    AfterCut(log, q, log[q - 1].seqNo);
  }

  lemma LastPageFrom(log: seq<Event>, p: nat, after: nat, limit: nat)
    requires limit >= 1 && p <= |log| <= p + limit && After(log, after) == log[p..]
    ensures ReadsRest(log, p, after, limit)
  {
  }

  lemma {:induction false} PagesFromIff(log: seq<Event>, p: nat, after: nat, limit: nat)
    requires limit >= 1 && p <= |log| && SeqsNonDecreasing(log) && After(log, after) == log[p..]
    ensures ReadsRest(log, p, after, limit) <==> CleanCuts(log, p, limit)
    decreases |log| - p
  {
    var q := p + limit;
    if q >= |log| {
      LastPageFrom(log, p, after, limit);
    } else {
      var next := log[q - 1].seqNo;
      assert CleanCuts(log, p, limit) <==> next < log[q].seqNo && CleanCuts(log, q, limit);
      PagesUnfold(log, p, after, limit);
      if next < log[q].seqNo {
        CleanSplits(log, q);
        PagesFromIff(log, q, next, limit);
      } else {
        UncleanMisses(log, q, limit);
      }
    }
  }

  lemma SameTail(front: seq<Event>, a: seq<Event>, b: seq<Event>)
    ensures front + a == front + b <==> a == b
  {
    assert (front + a)[|front|..] == a && (front + b)[|front|..] == b;
  }

  /**
   * In a log whose numbers never fall, pages of a given size from the start return all of it
   * exactly when its numbers are positive and no page ends between two events of one number.
   */
  lemma PagesCompleteIff(log: seq<Event>, limit: nat)
    requires limit >= 1 && SeqsNonDecreasing(log)
    ensures AllPages(log, 0, limit) == log
       <==> (forall e <- log :: e.seqNo > 0) && CleanCuts(log, 0, limit)
  {
    if forall e <- log :: e.seqNo > 0 {
      AfterAll(log, 0);
      assert log[0..] == log;
      PagesFromIff(log, 0, 0, limit);
    } else {
      PagesPastStart(log, 0, limit);
    }
  }

  // ---------- pages of a growing log ----------

  /** A client that reads one page of each log in turn, where the last page ended, and where it ends. */
  function PagesOf(logs: seq<seq<Event>>, after: nat, limit: nat): seq<Event> {
    if logs == [] then []
    else
      var page := PageOf(logs[0], after, limit);
      page.events + PagesOf(logs[1..], page.nextSequence, limit)
  }

  /** The last of these pages says that there is more. */
  predicate MoreAtEnd(logs: seq<seq<Event>>, after: nat, limit: nat)
    requires logs != []
    decreases |logs|
  {
    var page := PageOf(logs[0], after, limit);
    if |logs| == 1 then page.hasMore else MoreAtEnd(logs[1..], page.nextSequence, limit)
  }

  ghost predicate Growing(logs: seq<seq<Event>>) {
    forall i, j :: 0 <= i <= j < |logs| ==> logs[i] <= logs[j]
  }

  lemma GrowingTail(logs: seq<seq<Event>>)
    requires logs != [] && Growing(logs)
    ensures logs[0] <= logs[|logs| - 1]
    ensures |logs| > 1 ==> Growing(logs[1..]) && logs[1..][|logs| - 2] == logs[|logs| - 1]
  {
  }

  lemma AfterGrows(log: seq<Event>, longer: seq<Event>, after: nat)
    requires log <= longer
    ensures After(log, after) <= After(longer, after)
  {
    PrefixOfAfter(longer, after, |log|);
    assert longer[..|log|] == log;
  }

  /** What the pages returned is the start of what that log has past a number, and all of it if the last says so. */
  ghost predicate CaughtUp(logs: seq<seq<Event>>, final: seq<Event>, after: nat, limit: nat)
    requires logs != []
  {
    && PagesOf(logs, after, limit) <= After(final, after)
    && (!MoreAtEnd(logs, after, limit) ==> PagesOf(logs, after, limit) == After(final, after))
  }

  lemma OneLog(log: seq<Event>, after: nat, limit: nat)
    requires limit >= 1 && StrictlyIncreasing(log)
    ensures CaughtUp([log], log, after, limit)
  {
    var page := PageOf(log, after, limit);
    FirstOfGrowing(log, log, after, limit);
    assert [log][1..] == [] && page.events + [] == page.events;
  }

  lemma MoreLogs(logs: seq<seq<Event>>, final: seq<Event>, after: nat, limit: nat)
    requires |logs| > 1 && limit >= 1 && StrictlyIncreasing(final) && logs[0] <= final
    requires CaughtUp(logs[1..], final, PageOf(logs[0], after, limit).nextSequence, limit)
    ensures CaughtUp(logs, final, after, limit)
  {
    var page := PageOf(logs[0], after, limit);
    FirstOfGrowing(logs[0], final, after, limit);
    PrefixJoins(page.events, PagesOf(logs[1..], page.nextSequence, limit), After(final, page.nextSequence));
  }

  /**
   * When the log grows between pages the client has read, at every moment, the first events
   * past its start, and all of them once a page says that there is no more.
   */
  lemma {:induction false} GrowingPages(logs: seq<seq<Event>>, after: nat, limit: nat)
    requires logs != [] && limit >= 1 && StrictlyIncreasing(logs[|logs| - 1]) && Growing(logs)
    ensures CaughtUp(logs, logs[|logs| - 1], after, limit)
    decreases |logs|
  {
    GrowingTail(logs);
    if |logs| == 1 {
      assert logs == [logs[0]];
      OneLog(logs[0], after, limit);
    } else {
      GrowingPages(logs[1..], PageOf(logs[0], after, limit).nextSequence, limit);
      MoreLogs(logs, logs[|logs| - 1], after, limit);
    }
  }

  /** A page of the shorter log is the start of what the longer one has, and the next page begins behind it. */
  lemma FirstOfGrowing(log: seq<Event>, final: seq<Event>, after: nat, limit: nat)
    requires limit >= 1 && StrictlyIncreasing(final) && log <= final
    ensures var page := PageOf(log, after, limit);
      && After(final, after) == page.events + After(final, page.nextSequence)
      && (log == final && !page.hasMore ==> After(final, page.nextSequence) == [])
  {
    var page, all := PageOf(log, after, limit), After(final, after);
    AfterGrows(log, final, after);
    var k := |page.events|;
    assert page.events == all[..k];
    if k > 0 {
      AfterSplits(final, after, k);
    }
    assert all == all[..k] + all[k..];
  }

  lemma PrefixJoins(a: seq<Event>, b: seq<Event>, c: seq<Event>)
    requires b <= c
    ensures a + b <= a + c && (b == c ==> a + b == a + c)
  {
  }
}
