/**
 * The journal along a schedule of the store protocol: which records were ever appended, and
 * when clients that page through it while it is appended to and pruned see everything. They do
 * exactly when every append's id exceeds every id appended before it, and crashes that lose
 * counter writes, followed by a prune, can break that.
 */
module JournalHistory {
  import opened Prelude
  import opened StoreProtocol
  import opened StoreSafety
  import opened StoreDelivery
  import opened NotificationIds
  import opened Cursor

  // ---------- the records ever appended ----------

  /** The action is a lock holder's journal append. */
  predicate Adds(s: Store, a: Action) {
    a.Go? && Enabled(s, a) && s.threads[a.t].Notifier? && s.threads[a.t].at.Append?
  }

  function Added(s: Store, a: Action): Notification
    requires Adds(s, a)
  {
    var th := s.threads[a.t];
    Notification(NotificationId(th.at.next, a.stamp), th.run, th.kind)
  }

  function Appends(schedule: seq<Action>): seq<Notification> {
    if schedule == [] then []
    else
      var front, a := schedule[..|schedule| - 1], schedule[|schedule| - 1];
      Appends(front) + if Adds(Run(front), a) then [Added(Run(front), a)] else []
  }

  function JournalAt(schedule: seq<Action>, i: nat): seq<Notification>
    requires i <= |schedule|
  {
    Run(schedule[..i]).disk.journal
  }

  lemma AppendsExtend(schedule: seq<Action>, a: Action)
    ensures Appends(schedule + [a])
         == Appends(schedule) + if Adds(Run(schedule), a) then [Added(Run(schedule), a)] else []
  {
    assert (schedule + [a])[..|schedule|] == schedule;
  }

  lemma PrefixStep(schedule: seq<Action>, i: nat)
    requires i < |schedule|
    ensures schedule[..i + 1] == schedule[..i] + [schedule[i]]
    ensures Run(schedule[..i + 1]) == Next(Run(schedule[..i]), schedule[i])
    ensures Appends(schedule[..i + 1]) == Appends(schedule[..i])
      + if Adds(Run(schedule[..i]), schedule[i]) then [Added(Run(schedule[..i]), schedule[i])] else []
  {
    assert schedule[..i + 1] == schedule[..i] + [schedule[i]];
    RunExtend(schedule[..i], schedule[i]);
    AppendsExtend(schedule[..i], schedule[i]);
  }

  /** An append adds its record at the end; every other action keeps or removes records. */
  lemma NextJournal(s: Store, a: Action)
    ensures Adds(s, a) ==> Next(s, a).disk.journal == s.disk.journal + [Added(s, a)]
    ensures !Adds(s, a) ==> forall n <- Next(s, a).disk.journal :: n in s.disk.journal
  {
  }

  lemma {:induction false} AppendsGrow(schedule: seq<Action>, i: nat, j: nat)
    requires i <= j <= |schedule|
    ensures Appends(schedule[..i]) <= Appends(schedule[..j])
    decreases j
  {
    if i < j {
      AppendsGrow(schedule, i, j - 1);
      PrefixStep(schedule, j - 1);
    }
  }

  lemma {:induction false} AppendsFit(schedule: seq<Action>)
    ensures |Appends(schedule)| <= |schedule|
  {
    if schedule != [] {
      AppendsFit(schedule[..|schedule| - 1]);
    }
  }

  ghost predicate AppendedAt(schedule: seq<Action>, k: nat, n: Notification) {
    k < |Appends(schedule)| && Appends(schedule)[k] == n
  }

  ghost predicate AppendedBetween(schedule: seq<Action>, i: nat, j: nat, n: Notification)
    requires i <= j <= |schedule|
  {
    exists k: nat :: |Appends(schedule[..i])| <= k && AppendedAt(schedule[..j], k, n)
  }

  lemma PrefixAt(front: seq<Notification>, all: seq<Notification>, l: nat)
    requires front <= all && l < |front|
    ensures front[l] == all[l]
  {
  }

  /** What is in a later journal was in the earlier one or has been appended in between. */
  lemma {:induction false} Between(schedule: seq<Action>, i: nat, j: nat, n: Notification)
    requires i <= j <= |schedule| && n in JournalAt(schedule, j)
    ensures n in JournalAt(schedule, i) || AppendedBetween(schedule, i, j, n)
    decreases j
  {
    if i < j {
      PrefixStep(schedule, j - 1);
      AppendsGrow(schedule, i, j - 1);
      NextJournal(Run(schedule[..j - 1]), schedule[j - 1]);
      if n in JournalAt(schedule, j - 1) {
        Between(schedule, i, j - 1, n);
        if n !in JournalAt(schedule, i) {
          var k: nat :| |Appends(schedule[..i])| <= k && AppendedAt(schedule[..j - 1], k, n);
          PrefixAt(Appends(schedule[..j - 1]), Appends(schedule[..j]), k);
          assert AppendedAt(schedule[..j], k, n);
        }
      } else {
        assert AppendedAt(schedule[..j], |Appends(schedule[..j])| - 1, n);
      }
    }
  }

  lemma JournalAppended(schedule: seq<Action>, i: nat)
    requires i <= |schedule|
    ensures forall n <- JournalAt(schedule, i) :: n in Appends(schedule[..i])
  {
    forall n <- JournalAt(schedule, i) ensures n in Appends(schedule[..i]) {
      Between(schedule, 0, i, n);
      assert schedule[..0] == [];
    }
  }

  lemma PrefixOf(schedule: seq<Action>, n: nat, p: nat)
    requires p < n <= |schedule|
    ensures schedule[..n][..p] == schedule[..p] && schedule[..n][..p + 1] == schedule[..p + 1]
    ensures schedule[..n][p] == schedule[p]
  {
  }

  /** The step at which a record was appended. */
  lemma {:induction false} WhenAdded(schedule: seq<Action>, k: nat) returns (p: nat)
    requires k < |Appends(schedule)|
    ensures p < |schedule| && Adds(Run(schedule[..p]), schedule[p])
    ensures Appends(schedule[..p + 1]) == Appends(schedule)[..k + 1] && |Appends(schedule[..p])| == k
    ensures Added(Run(schedule[..p]), schedule[p]) == Appends(schedule)[k]
  {
    var n := |schedule| - 1;
    PrefixStep(schedule, n);
    assert schedule[..n + 1] == schedule;
    if k < |Appends(schedule[..n])| {
      p := WhenAdded(schedule[..n], k);
      PrefixOf(schedule, n, p);
      PrefixAt(Appends(schedule[..n]), Appends(schedule), k);
    } else {
      p := n;
    }
  }

  // ---------- numbers ----------

  function HighSeq(ns: seq<Notification>): (h: nat)
    ensures forall n <- ns :: n.id.seqNo <= h
    ensures h == 0 || exists n <- ns :: n.id.seqNo == h
  {
    if ns == [] then 0
    else
      var front, last := ns[..|ns| - 1], ns[|ns| - 1];
      assert ns == front + [last];
      Max(HighSeq(front), last.id.seqNo)
  }

  /** What the lock holder knows about the number it is about to use or has used. */
  ghost predicate NumberOk(s: Store, high: nat, th: Thread) {
    th.Notifier? ==>
      && (th.at.Append? ==> th.at.next == NextSeq(s.disk))
      && (th.at.Count? ==> th.at.id.seqNo <= high && (s.crashes == 0 ==> th.at.id.seqNo == high))
  }

  ghost predicate Counting(s: Store) {
    exists t :: t in s.threads && s.threads[t].Notifier? && s.threads[t].at.Count?
  }

  /** Numbers grow by at most one an append; without a crash the counter lags only while its write is due. */
  ghost predicate NumbersOk(s: Store, appended: seq<Notification>) {
    var high := HighSeq(appended);
    && high <= |appended|
    && s.disk.counter <= high
    && (forall n <- s.disk.journal :: n in appended)
    && (forall t <- s.threads :: NumberOk(s, high, s.threads[t]))
    && (s.crashes == 0 && !Counting(s) ==> s.disk.counter == high)
  }

  lemma HighGrows(ns: seq<Notification>, n: Notification)
    ensures HighSeq(ns + [n]) == Max(HighSeq(ns), n.id.seqNo)
  {
    assert (ns + [n])[..|ns|] == ns;
  }

  lemma HighBound(ns: seq<Notification>, journal: seq<Notification>)
    requires forall n <- journal :: n in ns
    ensures LastSeq(journal) <= HighSeq(ns)
  {
    if journal != [] {
      assert journal[|journal| - 1] in ns;
    }
  }

  lemma AppenderIsAlone(s: Store, t: nat)
    requires SafeInv(s) && t in s.threads && s.threads[t].Notifier? && s.threads[t].at.Append?
    ensures !Counting(s)
  {
    forall u <- s.threads ensures !(s.threads[u].Notifier? && s.threads[u].at.Count?) {
      assert HoldsLock(s.threads[u]) ==> s.lock == Some(u);
      assert s.lock == Some(t);
    }
  }

  lemma AddKeepsNumbers(s: Store, a: Action, appended: seq<Notification>)
    requires SafeInv(s) && NumbersOk(s, appended) && Adds(s, a)
    ensures NumbersOk(Next(s, a), appended + [Added(s, a)])
  {
    var s', n := Next(s, a), Added(s, a);
    HighGrows(appended, n);
    HighBound(appended, s.disk.journal);
    assert NumberOk(s, HighSeq(appended), s.threads[a.t]);
    assert HoldsLock(s.threads[a.t]) && s.lock == Some(a.t);
    AppenderIsAlone(s, a.t);
    forall t <- s'.threads ensures NumberOk(s', HighSeq(appended + [n]), s'.threads[t]) {
      assert t != a.t ==> !HoldsLock(s.threads[t]);
    }
    assert Counting(s') by {
      assert s'.threads[a.t].at.Count?;
    }
  }

  lemma CountKeepsNumbers(s: Store, t: nat, stamp: string, appended: seq<Notification>)
    requires SafeInv(s) && NumbersOk(s, appended) && t in s.threads && CanGo(s, s.threads[t])
    requires s.threads[t].Notifier? && s.threads[t].at.Count?
    ensures NumbersOk(GoThread(s, t, s.threads[t], stamp), appended)
  {
    var s' := GoThread(s, t, s.threads[t], stamp);
    assert NumberOk(s, HighSeq(appended), s.threads[t]);
    assert HoldsLock(s.threads[t]) && s.lock == Some(t);
    forall u <- s'.threads ensures NumberOk(s', HighSeq(appended), s'.threads[u]) {
      assert u != t ==> !HoldsLock(s.threads[u]);
    }
  }

  /** Every other step of an operation leaves the counter, and the journal unless it prunes. */
  lemma GoKeepsNumbers(s: Store, t: nat, stamp: string, appended: seq<Notification>)
    requires SafeInv(s) && NumbersOk(s, appended) && t in s.threads && CanGo(s, s.threads[t])
    requires s.threads[t].Notifier? ==> !s.threads[t].at.Append? && !s.threads[t].at.Count?
    ensures NumbersOk(GoThread(s, t, s.threads[t], stamp), appended)
  {
    var s' := GoThread(s, t, s.threads[t], stamp);
    GoLeavesFiles(s, t, stamp);
    forall u <- s'.threads ensures NumberOk(s', HighSeq(appended), s'.threads[u]) {
      if u != t {
        OtherNumber(s, t, stamp, appended, u);
      }
    }
    GoKeepsCounting(s, t, stamp);
  }

  lemma GoKeepsCounting(s: Store, t: nat, stamp: string)
    requires t in s.threads
    requires s.threads[t].Notifier? ==> !s.threads[t].at.Append? && !s.threads[t].at.Count?
    ensures Counting(s) ==> Counting(GoThread(s, t, s.threads[t], stamp))
  {
    if Counting(s) {
      GoLeavesFiles(s, t, stamp);
      var u :| u in s.threads && s.threads[u].Notifier? && s.threads[u].at.Count?;
      assert GoThread(s, t, s.threads[t], stamp).threads[u] == s.threads[u];
    }
  }

  lemma OtherNumber(s: Store, t: nat, stamp: string, appended: seq<Notification>, u: nat)
    requires SafeInv(s) && NumbersOk(s, appended) && t in s.threads && CanGo(s, s.threads[t])
    requires s.threads[t].Notifier? ==> !s.threads[t].at.Append? && !s.threads[t].at.Count?
    requires u != t && u in s.threads
    ensures NumberOk(GoThread(s, t, s.threads[t], stamp), HighSeq(appended), s.threads[u])
  {
    GoLeavesFiles(s, t, stamp);
    assert NumberOk(s, HighSeq(appended), s.threads[u]);
    assert s.threads[t].PruneJournal? ==> HoldsLock(s.threads[t]) && !HoldsLock(s.threads[u]);
  }

  lemma GoLeavesFiles(s: Store, t: nat, stamp: string)
    requires t in s.threads
    requires s.threads[t].Notifier? ==> !s.threads[t].at.Append? && !s.threads[t].at.Count?
    ensures var s' := GoThread(s, t, s.threads[t], stamp);
      && s'.disk.counter == s.disk.counter && s'.crashes == s.crashes
      && (!s.threads[t].PruneJournal? ==> s'.disk.journal == s.disk.journal)
      && (forall n <- s'.disk.journal :: n in s.disk.journal)
      && (forall u :: u != t ==> (u in s'.threads <==> u in s.threads))
      && (forall u <- s.threads :: u != t ==> s'.threads[u] == s.threads[u])
      && (t in s'.threads && s'.threads[t].Notifier? ==>
            && !s'.threads[t].at.Count?
            && (s'.threads[t].at.Append? ==> s'.threads[t].at.next == NextSeq(s.disk)))
  {
  }

  lemma NextNumbers(s: Store, a: Action, appended: seq<Notification>)
    requires SafeInv(s) && NumbersOk(s, appended)
    ensures NumbersOk(Next(s, a), appended + if Adds(s, a) then [Added(s, a)] else [])
  {
    assert appended + [] == appended;
    if Adds(s, a) {
      AddKeepsNumbers(s, a, appended);
    } else if Enabled(s, a) && a.Go? {
      if s.threads[a.t].Notifier? && s.threads[a.t].at.Count? {
        CountKeepsNumbers(s, a.t, a.stamp, appended);
      } else {
        GoKeepsNumbers(s, a.t, a.stamp, appended);
      }
    } else if Enabled(s, a) {
      OtherKeepsNumbers(s, a, appended);
    }
  }

  lemma OtherKeepsNumbers(s: Store, a: Action, appended: seq<Notification>)
    requires NumbersOk(s, appended) && Enabled(s, a) && !a.Go?
    ensures NumbersOk(Next(s, a), appended)
  {
    var s' := Next(s, a);
    forall u <- s'.threads ensures NumberOk(s', HighSeq(appended), s'.threads[u]) {
      assert u in s.threads && s'.threads[u] == s.threads[u] ==> NumberOk(s, HighSeq(appended), s.threads[u]);
    }
    if Counting(s) && s'.crashes == 0 {
      var u :| u in s.threads && s.threads[u].Notifier? && s.threads[u].at.Count?;
      assert s'.threads[u] == s.threads[u];
    }
  }

  lemma {:induction false} RunNumbers(schedule: seq<Action>)
    ensures NumbersOk(Run(schedule), Appends(schedule))
  {
    if schedule != [] {
      var front, a := schedule[..|schedule| - 1], schedule[|schedule| - 1];
      RunNumbers(front);
      RunIsSafe(front);
      NextNumbers(Run(front), a, Appends(front));
    }
  }

  // ---------- when the journals form a history ----------

  /** ULIDs are fresh and grow along the schedule. */
  ghost predicate FreshStamps(schedule: seq<Action>) {
    var ns := Appends(schedule);
    forall i, j :: 0 <= i < j < |ns| ==> LexLess(ns[i].id.stamp, ns[j].id.stamp)
  }

  /** What listings at those moments of the schedule see. */
  ghost predicate SightsOf(schedule: seq<Action>, ticks: seq<nat>, sights: seq<Sight>) {
    && |ticks| == |sights|
    && (forall i :: 0 <= i < |ticks| ==> ticks[i] <= |schedule| && sights[i].journal == JournalAt(schedule, ticks[i]))
    && (forall i, j :: 0 <= i < j < |ticks| ==> ticks[i] <= ticks[j])
  }

  /** At every pair of moments the later journal has only records of the earlier one and larger ids. */
  ghost predicate AlwaysEvolves(schedule: seq<Action>) {
    forall i, j :: 0 <= i <= j <= |schedule| ==> Evolves(JournalAt(schedule, i), JournalAt(schedule, j))
  }

  /** Every journal along a schedule is in id order. */
  lemma JournalIncreasing(schedule: seq<Action>, i: nat)
    requires i <= |schedule| < SEQ_LIMIT
    ensures Increasing(JournalAt(schedule, i))
  {
    RunIsSafe(schedule[..i]);
    RunNumbers(schedule[..i]);
    AppendsFit(schedule[..i]);
    HighBound(Appends(schedule[..i]), JournalAt(schedule, i));
    OrderedIsIncreasing(JournalAt(schedule, i));
  }

  /** A record of an earlier journal was appended before one that came in between. */
  lemma EarlierAppend(schedule: seq<Action>, i: nat, j: nat, m: Notification, n: Notification)
    requires i <= j <= |schedule| && Increasing(Appends(schedule))
    requires m in JournalAt(schedule, i) && AppendedBetween(schedule, i, j, n)
    ensures LexLess(IdOf(m), IdOf(n))
  {
    assert schedule[..|schedule|] == schedule;
    AppendsGrow(schedule, i, |schedule|);
    AppendsGrow(schedule, j, |schedule|);
    JournalAppended(schedule, i);
    var k: nat :| |Appends(schedule[..i])| <= k && AppendedAt(schedule[..j], k, n);
    var l :| 0 <= l < |Appends(schedule[..i])| && Appends(schedule[..i])[l] == m;
    PrefixAt(Appends(schedule[..i]), Appends(schedule), l);
    PrefixAt(Appends(schedule[..j]), Appends(schedule), k);
  }

  lemma EvolvesWhenIncreasing(schedule: seq<Action>, i: nat, j: nat)
    requires i <= j <= |schedule| && Increasing(Appends(schedule))
    ensures Evolves(JournalAt(schedule, i), JournalAt(schedule, j))
  {
    var before, after := JournalAt(schedule, i), JournalAt(schedule, j);
    forall n <- after | n !in before ensures forall m <- before :: LexLess(IdOf(m), IdOf(n)) {
      Between(schedule, i, j, n);
      forall m <- before ensures LexLess(IdOf(m), IdOf(n)) {
        EarlierAppend(schedule, i, j, m, n);
      }
    }
  }

  /** Right after its append a record is in the journal. */
  lemma HeldWhenAdded(schedule: seq<Action>, k: nat) returns (p: nat)
    requires k < |Appends(schedule)|
    ensures 0 < p <= |schedule| && Appends(schedule[..p]) == Appends(schedule)[..k + 1]
    ensures Appends(schedule)[k] in JournalAt(schedule, p)
  {
    var q := WhenAdded(schedule, k);
    PrefixStep(schedule, q);
    NextJournal(Run(schedule[..q]), schedule[q]);
    p := q + 1;
    var journal := JournalAt(schedule, p);
    assert journal[|journal| - 1] == Appends(schedule)[k];
  }

  lemma IncreasingWhenEvolves(schedule: seq<Action>, i: nat, j: nat)
    requires AlwaysEvolves(schedule) && FreshStamps(schedule) && i < j < |Appends(schedule)|
    ensures LexLess(IdOf(Appends(schedule)[i]), IdOf(Appends(schedule)[j]))
  {
    var m, n := Appends(schedule)[i], Appends(schedule)[j];
    var p := HeldWhenAdded(schedule, i);
    var q := HeldWhenAdded(schedule, j);
    if q < p {
      AppendsGrow(schedule, q, p);
    }
    assert Evolves(JournalAt(schedule, p), JournalAt(schedule, q));
    NotYetAppended(schedule, p, i, j);
  }

  lemma NotYetAppended(schedule: seq<Action>, p: nat, i: nat, j: nat)
    requires p <= |schedule| && FreshStamps(schedule) && i < j < |Appends(schedule)|
    requires Appends(schedule[..p]) == Appends(schedule)[..i + 1]
    ensures Appends(schedule)[j] !in JournalAt(schedule, p)
  {
    JournalAppended(schedule, p);
    var ns := Appends(schedule);
    forall k | 0 <= k <= i ensures ns[k] != ns[j] {
      assert LexLess(ns[k].id.stamp, ns[j].id.stamp);
      LexIrreflexive(ns[j].id.stamp);
    }
  }

  /**
   * The journals along a schedule, crashes and prunes included, change the way paging needs
   * exactly when every append's id exceeds every id appended before it.
   */
  lemma EvolvesIff(schedule: seq<Action>)
    requires FreshStamps(schedule)
    ensures AlwaysEvolves(schedule) <==> Increasing(Appends(schedule))
  {
    if Increasing(Appends(schedule)) {
      forall i, j | 0 <= i <= j <= |schedule| ensures Evolves(JournalAt(schedule, i), JournalAt(schedule, j)) {
        EvolvesWhenIncreasing(schedule, i, j);
      }
    }
    if AlwaysEvolves(schedule) {
      forall i, j | 0 <= i < j < |Appends(schedule)|
        ensures LexLess(IdOf(Appends(schedule)[i]), IdOf(Appends(schedule)[j]))
      {
        IncreasingWhenEvolves(schedule, i, j);
      }
    }
  }

  // ---------- the guard ----------

  /** The counter or the last record is at most one behind the highest number ever appended. */
  ghost predicate InReach(schedule: seq<Action>) {
    var d := Run(schedule).disk;
    Max(d.counter, LastSeq(d.journal)) + 1 >= HighSeq(Appends(schedule))
  }

  ghost predicate ReachAt(schedule: seq<Action>, p: nat) {
    p < |schedule| && Adds(Run(schedule[..p]), schedule[p]) ==> InReach(schedule[..p])
  }

  /** It is so at every append. */
  ghost predicate AppendsInReach(schedule: seq<Action>) {
    forall p: nat :: ReachAt(schedule, p)
  }

  /** A record about to be appended has the next number. */
  lemma AddedNumber(schedule: seq<Action>, a: Action)
    requires |schedule| + 1 < SEQ_LIMIT && Adds(Run(schedule), a)
    ensures Added(Run(schedule), a).id == NotificationId(NextSeq(Run(schedule).disk), a.stamp)
    ensures NextSeq(Run(schedule).disk) < SEQ_LIMIT && forall m <- Appends(schedule) :: m.id.seqNo < SEQ_LIMIT
  {
    var s, ns := Run(schedule), Appends(schedule);
    RunNumbers(schedule);
    AppendsFit(schedule);
    HighBound(ns, s.disk.journal);
    assert NumberOk(s, HighSeq(ns), s.threads[a.t]);
  }

  lemma AddedExceeds(schedule: seq<Action>, a: Action)
    requires |schedule| + 1 < SEQ_LIMIT && Adds(Run(schedule), a)
    requires forall m <- Appends(schedule) :: LexLess(m.id.stamp, a.stamp)
    ensures InReach(schedule) <==> forall m <- Appends(schedule) :: LexLess(IdOf(m), IdOf(Added(Run(schedule), a)))
  {
    var ns, n := Appends(schedule), Added(Run(schedule), a);
    AddedNumber(schedule, a);
    forall m <- ns ensures LexLess(IdOf(m), IdOf(n)) <==> m.id.seqNo <= n.id.seqNo {
      RenderOrder(m.id, n.id);
    }
  }

  lemma IncreasingGrows(ns: seq<Notification>, n: Notification)
    ensures Increasing(ns + [n]) <==> Increasing(ns) && forall m <- ns :: LexLess(IdOf(m), IdOf(n))
  {
    var all := ns + [n];
    if Increasing(all) {
      assert forall i :: 0 <= i < |ns| ==> all[i] == ns[i];
      forall m <- ns ensures LexLess(IdOf(m), IdOf(n)) {
        var i :| 0 <= i < |ns| && ns[i] == m;
        assert LexLess(IdOf(all[i]), IdOf(all[|ns|]));
      }
    }
  }

  lemma LaterStamp(schedule: seq<Action>, m: Notification)
    requires schedule != [] && FreshStamps(schedule) && m in Appends(schedule[..|schedule| - 1])
    requires Adds(Run(schedule[..|schedule| - 1]), schedule[|schedule| - 1])
    ensures LexLess(m.id.stamp, schedule[|schedule| - 1].stamp)
  {
    var ns, all := Appends(schedule[..|schedule| - 1]), Appends(schedule);
    var i :| 0 <= i < |ns| && ns[i] == m;
    assert all[i] == m && all[|ns|].id.stamp == schedule[|schedule| - 1].stamp;
  }

  /** The last step keeps the ids growing exactly when it meets the guard. */
  lemma GrowStep(schedule: seq<Action>)
    requires schedule != [] && FreshStamps(schedule) && |schedule| < SEQ_LIMIT
    ensures Increasing(Appends(schedule))
       <==> Increasing(Appends(schedule[..|schedule| - 1])) && ReachAt(schedule, |schedule| - 1)
  {
    var front, a := schedule[..|schedule| - 1], schedule[|schedule| - 1];
    ReachLast(schedule);
    if Adds(Run(front), a) {
      forall m <- Appends(front) ensures LexLess(m.id.stamp, a.stamp) {
        LaterStamp(schedule, m);
      }
      AddedExceeds(front, a);
      IncreasingGrows(Appends(front), Added(Run(front), a));
    } else {
      assert Appends(front) + [] == Appends(front);
    }
  }

  /**
   * Ids grow along a schedule exactly when, at every append, the counter or the last record of
   * the journal is at most one behind the highest number ever appended.
   */
  lemma {:induction false} IdsGrowIff(schedule: seq<Action>)
    requires FreshStamps(schedule) && |schedule| < SEQ_LIMIT
    ensures Increasing(Appends(schedule)) <==> AppendsInReach(schedule)
  {
    if schedule != [] {
      StampsOfFront(schedule);
      IdsGrowIff(schedule[..|schedule| - 1]);
      ReachStep(schedule);
      GrowStep(schedule);
    }
  }

  lemma StampsOfFront(schedule: seq<Action>)
    requires schedule != [] && FreshStamps(schedule)
    ensures FreshStamps(schedule[..|schedule| - 1])
  {
    var ns, all := Appends(schedule[..|schedule| - 1]), Appends(schedule);
    assert forall i :: 0 <= i < |ns| ==> all[i] == ns[i];
  }

  lemma ReachPrefix(schedule: seq<Action>, front: seq<Action>, p: nat)
    requires front <= schedule && p < |front|
    ensures ReachAt(schedule, p) == ReachAt(front, p)
  {
    assert schedule[..p] == front[..p] && schedule[p] == front[p];
  }

  lemma ReachLast(schedule: seq<Action>)
    requires schedule != []
    ensures var front, a := schedule[..|schedule| - 1], schedule[|schedule| - 1];
      ReachAt(schedule, |front|) <==> (Adds(Run(front), a) ==> InReach(front))
  {
  }

  lemma ReachStep(schedule: seq<Action>)
    requires schedule != []
    ensures AppendsInReach(schedule)
       <==> AppendsInReach(schedule[..|schedule| - 1]) && ReachAt(schedule, |schedule| - 1)
  {
    var front := schedule[..|schedule| - 1];
    forall p: nat | p < |front| ensures ReachAt(schedule, p) == ReachAt(front, p) {
      ReachPrefix(schedule, front, p);
    }
    if AppendsInReach(front) && ReachAt(schedule, |front|) {
      forall p: nat ensures ReachAt(schedule, p) {
        assert p < |front| ==> ReachAt(front, p);
      }
    }
    if AppendsInReach(schedule) {
      forall p: nat ensures ReachAt(front, p) {
        assert ReachAt(schedule, p);
      }
    }
  }

  /** Without a crash that guard always holds. */
  lemma CrashFreeInReach(schedule: seq<Action>)
    requires Run(schedule).crashes == 0
    ensures AppendsInReach(schedule)
  {
    forall p: nat | p < |schedule| && Adds(Run(schedule[..p]), schedule[p]) ensures InReach(schedule[..p]) {
      CrashesGrow(schedule, p);
      RunNumbers(schedule[..p]);
      RunIsSafe(schedule[..p]);
      var s := Run(schedule[..p]);
      AppenderIsAlone(s, schedule[p].t);
    }
  }

  lemma {:induction false} CrashesGrow(schedule: seq<Action>, p: nat)
    requires p <= |schedule|
    ensures Run(schedule[..p]).crashes <= Run(schedule).crashes
    decreases |schedule|
  {
    assert schedule[..|schedule|] == schedule;
    if p < |schedule| {
      var front := schedule[..|schedule| - 1];
      CrashesGrow(front, p);
      assert front[..p] == schedule[..p];
    }
  }

  // ---------- complete listings ----------

  /** The listings of clients whose schedule meets the guard see a history of the journal. */
  lemma SightsAreHistory(schedule: seq<Action>, ticks: seq<nat>, sights: seq<Sight>)
    requires FreshStamps(schedule) && |schedule| < SEQ_LIMIT && AppendsInReach(schedule)
    requires SightsOf(schedule, ticks, sights)
    ensures History(sights)
  {
    IdsGrowIff(schedule);
    EvolvesIff(schedule);
    forall i | 0 <= i < |sights| ensures Increasing(sights[i].journal) {
      JournalIncreasing(schedule, ticks[i]);
    }
  }

  /**
   * A client that pages at any moments of such a schedule has been given every record that is
   * in the journal at its last page, once that page comes back short.
   */
  lemma ListingsComplete(schedule: seq<Action>, ticks: seq<nat>, sights: seq<Sight>, since: Option<string>,
                         limit: nat, n: Notification)
    requires FreshStamps(schedule) && |schedule| < SEQ_LIMIT && AppendsInReach(schedule)
    requires SightsOf(schedule, ticks, sights) && sights != []
    requires n in sights[|sights| - 1].journal && Past(since, n) && forall sight <- sights :: Admits(sight.query, n)
    requires ShortLast(sights, since, limit)
    ensures n in Collect(sights, since, limit).0
  {
    SightsAreHistory(schedule, ticks, sights);
    CollectComplete(sights, since, limit, n);
  }

  /**
   * The push poller over such a schedule, with ticks whose requests fail in between: nothing is
   * sent twice, and after a listing of fewer than 50 records everything in its journal that was
   * never acked has been sent.
   */
  method PollSchedule(ghost schedule: seq<Action>, ghost ticks: seq<nat>, answers: seq<Option<Sight>>)
    returns (poller: PushPoller)
    requires FreshStamps(schedule) && |schedule| < SEQ_LIMIT && AppendsInReach(schedule)
    requires SightsOf(schedule, ticks, Answered(answers)) && Answered(answers) != []
    requires forall sight <- Answered(answers) ::
      sight.query.runs.None? && sight.query.kinds.None? && sight.query.hidden.Some?
    ensures fresh(poller) && poller.Valid()
    ensures forall i, j :: 0 <= i < j < |poller.sent| ==> LexLess(poller.sent[i], poller.sent[j])
    ensures ShortLast(Answered(answers), None, POLL_LIMIT) ==>
      forall n <- Answered(answers)[|Answered(answers)| - 1].journal ::
        (forall sight <- Answered(answers) :: Admits(sight.query, n)) ==> IdOf(n) in poller.sent
  {
    ghost var sights := Answered(answers);
    SightsAreHistory(schedule, ticks, sights);
    poller := Poll(answers);
    if ShortLast(sights, None, POLL_LIMIT) {
      forall n <- sights[|sights| - 1].journal | forall sight <- sights :: Admits(sight.query, n)
        ensures IdOf(n) in poller.sent
      {
        CollectComplete(sights, None, POLL_LIMIT, n);
        IdsHold(Collect(sights, None, POLL_LIMIT).0, n);
      }
    }
  }

  lemma IdsHold(page: seq<Notification>, n: Notification)
    requires n in page
    ensures IdOf(n) in Ids(page)
  {
    var i :| 0 <= i < |page| && page[i] == n;
    assert Ids(page)[i] == IdOf(n);
  }
}
