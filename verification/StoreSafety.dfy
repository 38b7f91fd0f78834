/**
 * What every schedule of the store protocol keeps, crashes included: the journal stays in
 * sequence order, a run on disk never has two terminal records, and once reconciliation is
 * through every run has the notifications it calls for.
 */
module StoreSafety {
  import opened Prelude
  import opened StoreProtocol

  // ---------- counting records ----------

  function NumAbout(journal: seq<Notification>, r: RunId, k: Kind): nat {
    if journal == [] then 0
    else NumAbout(journal[..|journal| - 1], r, k) + (if About(journal[|journal| - 1], r, k) then 1 else 0)
  }

  lemma NumAboutAppend(journal: seq<Notification>, n: Notification, r: RunId, k: Kind)
    ensures NumAbout(journal + [n], r, k) == NumAbout(journal, r, k) + (if About(n, r, k) then 1 else 0)
  {
    assert (journal + [n])[..|journal|] == journal;
  }

  lemma {:induction false} NumAboutPositive(journal: seq<Notification>, r: RunId, k: Kind)
    ensures NumAbout(journal, r, k) == 0 <==> forall n <- journal :: !About(n, r, k)
  {
    if journal != [] {
      var front, last := journal[..|journal| - 1], journal[|journal| - 1];
      NumAboutPositive(front, r, k);
      assert journal == front + [last];
    }
  }

  lemma {:induction false} NumAboutKept(journal: seq<Notification>, gone: set<RunId>, r: RunId, k: Kind)
    requires r !in gone
    ensures NumAbout(Kept(journal, gone), r, k) == NumAbout(journal, r, k)
  {
    if journal != [] {
      var front, last := journal[..|journal| - 1], journal[|journal| - 1];
      NumAboutKept(front, gone, r, k);
      if last.runId !in gone {
        NumAboutAppend(Kept(front, gone), last, r, k);
      }
    }
  }

  // ---------- the invariant ----------

  ghost predicate Ordered(journal: seq<Notification>) {
    forall i, j :: 0 <= i < j < |journal| ==> journal[i].id.seqNo < journal[j].id.seqNo
  }

  ghost predicate HoldsLock(th: Thread) {
    match th
    case Notifier(_, _, _, _, at) => !(at.Probe? || at.Search? || at.Relink? || at.Queue?)
    case PruneJournal(_) => true
    case _ => false
  }

  ghost predicate Locking(s: Store) {
    && (forall t <- s.threads :: HoldsLock(s.threads[t]) <==> s.lock == Some(t))
    && (s.lock.Some? ==> s.lock.value in s.threads)
  }

  /** How many records may precede the one an operation is about to append. */
  ghost function Allowance(crashes: nat, k: Kind): nat {
    if k == Terminal then 0 else crashes
  }

  ghost predicate AtOk(d: Disk, crashes: nat, r: RunId, k: Kind, at: At) {
    match at
    case Relink(id) => r in d.runs ==> Notification(id, r, k) in d.journal
    case ReadSeq => r in d.runs ==> NumAbout(d.journal, r, k) <= Allowance(crashes, k)
    case Append(next) =>
      && LastSeq(d.journal) < next
      && (r in d.runs ==> NumAbout(d.journal, r, k) <= Allowance(crashes, k))
    case Count(id) => Notification(id, r, k) in d.journal
    case Link(id) => Notification(id, r, k) in d.journal
    case _ => true
  }

  ghost predicate ThreadOk(d: Disk, used: set<RunId>, crashes: nat, th: Thread) {
    match th
    case Marker(r, _) => r in used && Running(d, r)
    case Notifier(r, scan, k, also, at) =>
      && r in used
      && (if scan then also != Some(Terminal) && (k == FatalError ==> also.None?)
          else also != Some(FatalError) && (k == Terminal ==> also.None?))
      && (!scan ==> !at.Probe? && !at.Search? && !at.Relink?)
      && (Running(d, r) ==> !scan && k == FatalError && also.None?)
      && AtOk(d, crashes, r, k, at)
    case Remover(matched, deleted) =>
      && matched + deleted <= used && deleted !! d.runs.Keys
      && (forall r <- matched :: !Running(d, r))
    case PruneQueue(deleted) => deleted <= used && deleted !! d.runs.Keys
    case PruneJournal(deleted) => deleted <= used && deleted !! d.runs.Keys
  }

  ghost predicate KindOk(d: Disk, crashes: nat, r: RunId, k: Kind)
    requires r in d.runs
  {
    && (d.runs[r].Sentinel(k).Some? ==> Notification(d.runs[r].Sentinel(k).value, r, k) in d.journal)
    && NumAbout(d.journal, r, k) <= Allowance(crashes, k) + 1
  }

  ghost predicate DirOk(d: Disk, used: set<RunId>, crashes: nat, r: RunId)
    requires r in d.runs
  {
    && r in used
    && KindOk(d, crashes, r, Terminal) && KindOk(d, crashes, r, FatalError)
    && (!d.runs[r].terminal ==> NumAbout(d.journal, r, Terminal) == 0 && d.runs[r].terminalSentinel.None?)
  }

  /** The operation is past the reads that could make it stop short of appending a terminal record. */
  ghost predicate Intends(th: Thread, r: RunId) {
    && th.Notifier? && th.run == r
    && ((th.kind == Terminal && (th.at.Queue? || th.at.Check? || th.at.ReadSeq? || th.at.Append?))
        || (!th.scan && th.also == Some(Terminal)))
  }

  ghost predicate Appended(th: Thread, r: RunId, k: Kind) {
    th.Notifier? && th.run == r && th.kind == k && (th.at.Count? || th.at.Link?)
  }

  /** The lock holder has appended a record of this kind for this run and not yet linked it. */
  ghost predicate InFlight(s: Store, r: RunId, k: Kind) {
    s.lock.Some? && s.lock.value in s.threads && Appended(s.threads[s.lock.value], r, k)
  }

  ghost predicate Loose(s: Store, r: RunId, k: Kind)
    requires r in s.disk.runs
  {
    s.disk.runs[r].Sentinel(k).None? && !InFlight(s, r, k)
  }

  ghost predicate Idle(threads: map<nat, Thread>, r: RunId) {
    forall t <- threads :: !Intends(threads[t], r)
  }

  ghost predicate LinkOk(s: Store, r: RunId)
    requires r in s.disk.runs
  {
    && (Loose(s, r, FatalError) ==> NumAbout(s.disk.journal, r, FatalError) <= s.crashes)
    && (Loose(s, r, Terminal) && NumAbout(s.disk.journal, r, Terminal) != 0 ==> Idle(s.threads, r))
  }

  ghost predicate OneMarker(threads: map<nat, Thread>) {
    forall t, u :: t in threads && u in threads && t != u && threads[t].Marker? && threads[u].Marker? ==>
      threads[t].run != threads[u].run
  }

  ghost predicate SafeInv(s: Store) {
    && Locking(s)
    && Ordered(s.disk.journal)
    && (forall n <- s.disk.journal :: n.runId in s.used)
    && (forall t <- s.threads :: ThreadOk(s.disk, s.used, s.crashes, s.threads[t]))
    && (forall r <- s.disk.runs :: DirOk(s.disk, s.used, s.crashes, r))
    && (forall r <- s.disk.runs :: LinkOk(s, r))
    && OneMarker(s.threads)
  }

  // ---------- preservation ----------

  lemma LastIsLargest(journal: seq<Notification>)
    requires Ordered(journal)
    ensures forall n <- journal :: n.id.seqNo <= LastSeq(journal)
  {
  }

  lemma CreateKeepsSafe(s: Store, r: RunId)
    requires SafeInv(s) && r !in s.used
    ensures SafeInv(Do(s, Create(r)))
  {
    NumAboutPositive(s.disk.journal, r, Terminal);
    NumAboutPositive(s.disk.journal, r, FatalError);
    var s' := Do(s, Create(r));
    forall u <- s'.threads ensures ThreadOk(s'.disk, s'.used, s'.crashes, s'.threads[u]) {
      assert ThreadOk(s.disk, s.used, s.crashes, s.threads[u]);
    }
    forall q <- s'.disk.runs ensures DirOk(s'.disk, s'.used, s'.crashes, q) && LinkOk(s', q) {
      assert q != r ==> DirOk(s.disk, s.used, s.crashes, q) && LinkOk(s, q);
    }
  }

  lemma SetErrorKeepsSafe(s: Store, r: RunId, fatal: bool)
    requires SafeInv(s) && Enabled(s, SetError(r, fatal))
    ensures SafeInv(Do(s, SetError(r, fatal)))
  {
    var s' := Do(s, SetError(r, fatal));
    forall u <- s'.threads ensures ThreadOk(s'.disk, s'.used, s'.crashes, s'.threads[u]) {
      assert ThreadOk(s.disk, s.used, s.crashes, s.threads[u]);
    }
    forall q <- s'.disk.runs ensures DirOk(s'.disk, s'.used, s'.crashes, q) && LinkOk(s', q) {
      assert DirOk(s.disk, s.used, s.crashes, q) && LinkOk(s, q);
    }
  }

  /** An operation that begins, without the lock. */
  lemma BeginKeepsSafe(s: Store, t: nat, th: Thread)
    requires SafeInv(s) && t !in s.threads && ThreadOk(s.disk, s.used, s.crashes, th) && !HoldsLock(th)
    requires th.Marker? ==> !Marking(s, th.run)
    requires th.Notifier? ==> th.kind != Terminal && th.also.None?
    ensures SafeInv(SetThread(s, t, th))
  {
    var s' := SetThread(s, t, th);
    forall r <- s'.disk.runs ensures LinkOk(s', r) {
      assert LinkOk(s, r);
    }
  }

  lemma StartKeepsSafe(s: Store, a: Action)
    requires SafeInv(s) && Enabled(s, a)
    requires a.Report? || a.StartMark? || a.StartPrune?
    ensures SafeInv(Do(s, a))
  {
    var th := Do(s, a).threads[a.t];
    assert !a.StartPrune? ==> DirOk(s.disk, s.used, s.crashes, a.run);
    assert a.StartPrune? ==> forall r <- a.matched :: DirOk(s.disk, s.used, s.crashes, r);
    BeginKeepsSafe(s, a.t, th);
  }

  lemma ScanKeepsSafe(s: Store, a: Action)
    requires SafeInv(s) && Enabled(s, a)
    requires a.BeginScan? || a.Visit?
    ensures SafeInv(Do(s, a))
  {
    var s' := Do(s, a);
    forall r <- s'.disk.runs ensures LinkOk(s', r) {
      assert LinkOk(s, r);
    }
  }

  lemma CrashKeepsSafe(s: Store)
    requires SafeInv(s)
    ensures SafeInv(Do(s, Crash))
  {
  }

  lemma RemoveKeepsSafe(s: Store, t: nat, r: RunId)
    requires SafeInv(s) && Enabled(s, Remove(t, r))
    ensures SafeInv(Do(s, Remove(t, r)))
  {
    var s' := Do(s, Remove(t, r));
    assert ThreadOk(s.disk, s.used, s.crashes, s.threads[t]);
    forall u <- s'.threads ensures ThreadOk(s'.disk, s'.used, s'.crashes, s'.threads[u]) {
      assert ThreadOk(s.disk, s.used, s.crashes, s.threads[u]);
    }
    forall q <- s'.disk.runs ensures DirOk(s'.disk, s'.used, s'.crashes, q) && LinkOk(s', q) {
      assert DirOk(s.disk, s.used, s.crashes, q) && LinkOk(s, q);
    }
  }

  lemma {:induction false} KeptOrdered(journal: seq<Notification>, gone: set<RunId>)
    requires Ordered(journal)
    ensures Ordered(Kept(journal, gone)) && LastSeq(Kept(journal, gone)) <= LastSeq(journal)
  {
    if journal != [] {
      var front, last := journal[..|journal| - 1], journal[|journal| - 1];
      KeptOrdered(front, gone);
      LastIsLargest(front);
      assert forall n <- front :: n.id.seqNo < last.id.seqNo;
      assert forall n <- Kept(front, gone) :: n.id.seqNo < last.id.seqNo;
    }
  }

  lemma PruneKeepsSafe(s: Store, t: nat)
    requires SafeInv(s) && t in s.threads && s.threads[t].PruneJournal?
    ensures SafeInv(GoThread(s, t, s.threads[t], ""))
  {
    var gone := s.threads[t].deleted;
    var s' := GoThread(s, t, s.threads[t], "");
    KeptOrdered(s.disk.journal, gone);
    forall r: RunId, k: Kind | r !in gone
      ensures NumAbout(s'.disk.journal, r, k) == NumAbout(s.disk.journal, r, k)
    {
      NumAboutKept(s.disk.journal, gone, r, k);
    }
    forall r <- s'.disk.runs ensures DirOk(s'.disk, s'.used, s'.crashes, r) && LinkOk(s', r) {
      assert DirOk(s.disk, s.used, s.crashes, r) && LinkOk(s, r);
    }
    forall u <- s'.threads ensures ThreadOk(s'.disk, s'.used, s'.crashes, s'.threads[u]) {
      assert ThreadOk(s.disk, s.used, s.crashes, s.threads[u]) && !HoldsLock(s.threads[u]);
    }
  }

  lemma MarkKeepsSafe(s: Store, t: nat)
    requires SafeInv(s) && t in s.threads && s.threads[t].Marker?
    ensures SafeInv(GoThread(s, t, s.threads[t], ""))
  {
    var s' := GoThread(s, t, s.threads[t], "");
    forall u <- s'.threads ensures ThreadOk(s'.disk, s'.used, s'.crashes, s'.threads[u]) {
      if u != t {
        assert ThreadOk(s.disk, s.used, s.crashes, s.threads[u]);
      }
    }
    forall r <- s'.disk.runs ensures DirOk(s'.disk, s'.used, s'.crashes, r) && LinkOk(s', r) {
      assert DirOk(s.disk, s.used, s.crashes, r) && LinkOk(s, r);
    }
  }

  lemma ReadSeqKeepsSafe(s: Store, t: nat)
    requires SafeInv(s) && t in s.threads && s.threads[t].Notifier? && s.threads[t].at.ReadSeq?
    ensures SafeInv(GoThread(s, t, s.threads[t], ""))
  {
    var s' := GoThread(s, t, s.threads[t], "");
    forall r <- s'.disk.runs ensures LinkOk(s', r) {
      assert LinkOk(s, r);
    }
  }

  lemma CountKeepsSafe(s: Store, t: nat)
    requires SafeInv(s) && t in s.threads && s.threads[t].Notifier? && s.threads[t].at.Count?
    ensures SafeInv(GoThread(s, t, s.threads[t], ""))
  {
    var s' := GoThread(s, t, s.threads[t], "");
    forall u <- s'.threads ensures ThreadOk(s'.disk, s'.used, s'.crashes, s'.threads[u]) {
      assert ThreadOk(s.disk, s.used, s.crashes, s.threads[u]);
    }
    forall r <- s'.disk.runs ensures DirOk(s'.disk, s'.used, s'.crashes, r) && LinkOk(s', r) {
      assert DirOk(s.disk, s.used, s.crashes, r) && LinkOk(s, r);
    }
  }

  /** Only thread `t` differs. */
  ghost predicate SameButFor(a: map<nat, Thread>, b: map<nat, Thread>, t: nat) {
    forall u :: u != t ==> (u in a <==> u in b) && (u in a ==> a[u] == b[u])
  }

  /** Thread `t` moves to `th'` while the files stay as they are. */
  lemma MoveKeepsSafe(s: Store, t: nat, s': Store)
    requires SafeInv(s) && t in s.threads && !s.threads[t].Marker?
    requires s'.disk == s.disk && s'.used == s.used && s'.crashes == s.crashes
    requires SameButFor(s.threads, s'.threads, t)
    requires t in s'.threads ==> !s'.threads[t].Marker? && ThreadOk(s.disk, s.used, s.crashes, s'.threads[t])
    requires Locking(s')
    requires forall r <- s.disk.runs :: LinkOk(s', r)
    ensures SafeInv(s')
  {
    forall u <- s'.threads ensures ThreadOk(s'.disk, s'.used, s'.crashes, s'.threads[u]) {
      assert u != t ==> ThreadOk(s.disk, s.used, s.crashes, s.threads[u]);
    }
  }

  /** Steps that neither append nor start to notify leave every link claim as it is. */
  lemma LinksStay(s: Store, t: nat, s': Store)
    requires t in s.threads && s'.disk == s.disk && s'.crashes == s.crashes
    requires SameButFor(s.threads, s'.threads, t)
    requires t in s'.threads ==> forall r :: Intends(s'.threads[t], r) ==> Intends(s.threads[t], r)
    requires forall r, k :: InFlight(s, r, k) ==> InFlight(s', r, k)
    requires forall r <- s.disk.runs :: LinkOk(s, r)
    ensures forall r <- s.disk.runs :: LinkOk(s', r)
  {
    forall r <- s.disk.runs ensures LinkOk(s', r) {
      assert LinkOk(s, r);
      assert Idle(s.threads, r) ==> Idle(s'.threads, r);
    }
  }

  lemma PrunerKeepsSafe(s: Store, t: nat)
    requires SafeInv(s) && t in s.threads && CanGo(s, s.threads[t])
    requires s.threads[t].Remover? || s.threads[t].PruneQueue?
    ensures SafeInv(GoThread(s, t, s.threads[t], ""))
  {
    var th := s.threads[t];
    var s' := GoThread(s, t, th, "");
    assert ThreadOk(s.disk, s.used, s.crashes, th);
    LinksStay(s, t, s');
    MoveKeepsSafe(s, t, s');
  }

  /** An operation whose sentinel is in place, or whose run is gone, may stop. */
  lemma FinishKeepsSafe(s: Store, t: nat, th: Thread)
    requires SafeInv(s) && t in s.threads && s.threads[t] == th && th.Notifier?
    requires th.run in s.disk.runs ==> HasSentinel(s.disk, th.run, th.kind)
    ensures SafeInv(Finish(s, t, th).(lock := if HoldsLock(th) then None else s.lock))
  {
    var s' := Finish(s, t, th).(lock := if HoldsLock(th) then None else s.lock);
    assert ThreadOk(s.disk, s.used, s.crashes, th);
    assert SameButFor(s.threads, s'.threads, t);
    assert Locking(s');
    FinishKeepsLinks(s, t, th);
    MoveKeepsSafe(s, t, s');
  }

  lemma FinishKeepsLinks(s: Store, t: nat, th: Thread)
    requires SafeInv(s) && t in s.threads && s.threads[t] == th && th.Notifier?
    requires th.run in s.disk.runs ==> HasSentinel(s.disk, th.run, th.kind)
    ensures var s' := Finish(s, t, th).(lock := if HoldsLock(th) then None else s.lock);
      forall r <- s.disk.runs :: LinkOk(s', r)
  {
    var s' := Finish(s, t, th).(lock := if HoldsLock(th) then None else s.lock);
    forall r <- s.disk.runs ensures LinkOk(s', r) {
      assert LinkOk(s, r);
      assert Idle(s.threads, r) ==> Idle(s'.threads, r);
    }
  }

  lemma SentinelKeepsSafe(s: Store, r: RunId, k: Kind, id: NotificationId)
    requires SafeInv(s)
    requires r in s.disk.runs ==> Notification(id, r, k) in s.disk.journal && (k == Terminal ==> !Running(s.disk, r))
    ensures SafeInv(WriteSentinel(s, r, k, id))
  {
    if r in s.disk.runs {
      var s' := WriteSentinel(s, r, k, id);
      forall u <- s'.threads ensures ThreadOk(s'.disk, s'.used, s'.crashes, s'.threads[u]) {
        assert ThreadOk(s.disk, s.used, s.crashes, s.threads[u]);
      }
      forall q <- s'.disk.runs ensures DirOk(s'.disk, s'.used, s'.crashes, q) && LinkOk(s', q) {
        assert DirOk(s.disk, s.used, s.crashes, q) && LinkOk(s, q);
      }
    }
  }

  /** The two steps that write a sentinel and stop: linking under the lock, relinking without it. */
  lemma LinkKeepsSafe(s: Store, t: nat)
    requires SafeInv(s) && t in s.threads && s.threads[t].Notifier?
    requires s.threads[t].at.Link? || s.threads[t].at.Relink?
    ensures SafeInv(GoThread(s, t, s.threads[t], ""))
  {
    var th := s.threads[t];
    var id := if th.at.Link? then th.at.id else th.at.found;
    assert ThreadOk(s.disk, s.used, s.crashes, th);
    SentinelKeepsSafe(s, th.run, th.kind, id);
    FinishKeepsSafe(WriteSentinel(s, th.run, th.kind, id), t, th);
  }

  lemma ProbeKeepsSafe(s: Store, t: nat)
    requires SafeInv(s) && t in s.threads && s.threads[t].Notifier? && s.threads[t].at.Probe?
    ensures SafeInv(GoThread(s, t, s.threads[t], ""))
  {
    var th := s.threads[t];
    var s' := GoThread(s, t, th, "");
    assert ThreadOk(s.disk, s.used, s.crashes, th);
    if HasSentinel(s.disk, th.run, th.kind) {
      FinishKeepsSafe(s, t, th);
    } else {
      LinksStay(s, t, s');
      MoveKeepsSafe(s, t, s');
    }
  }

  lemma SearchKeepsSafe(s: Store, t: nat)
    requires SafeInv(s) && t in s.threads && s.threads[t].Notifier? && s.threads[t].at.Search?
    ensures SafeInv(GoThread(s, t, s.threads[t], ""))
  {
    var th := s.threads[t];
    var s' := GoThread(s, t, th, "");
    assert ThreadOk(s.disk, s.used, s.crashes, th);
    NumAboutPositive(s.disk.journal, th.run, th.kind);
    forall r <- s.disk.runs ensures LinkOk(s', r) {
      assert LinkOk(s, r);
    }
    MoveKeepsSafe(s, t, s');
  }

  lemma CheckKeepsSafe(s: Store, t: nat)
    requires SafeInv(s) && t in s.threads && CanGo(s, s.threads[t]) && s.threads[t].Notifier?
    requires s.threads[t].at.Queue? || s.threads[t].at.Check?
    ensures SafeInv(GoThread(s, t, s.threads[t], ""))
  {
    var th := s.threads[t];
    if th.at.Check? && HasSentinel(s.disk, th.run, th.kind) {
      FinishKeepsSafe(s, t, th);
    } else {
      CheckKeepsLinks(s, t);
      MoveKeepsSafe(s, t, GoThread(s, t, th, ""));
    }
  }

  lemma CheckKeepsLinks(s: Store, t: nat)
    requires SafeInv(s) && t in s.threads && CanGo(s, s.threads[t]) && s.threads[t].Notifier?
    requires var th := s.threads[t]; th.at.Queue? || (th.at.Check? && !HasSentinel(s.disk, th.run, th.kind))
    ensures var s' := GoThread(s, t, s.threads[t], "");
      t in s'.threads && ThreadOk(s'.disk, s'.used, s'.crashes, s'.threads[t])
      && forall r <- s.disk.runs :: LinkOk(s', r)
  {
    var th := s.threads[t];
    var s' := GoThread(s, t, th, "");
    assert ThreadOk(s.disk, s.used, s.crashes, th);
    if th.run in s.disk.runs {
      assert LinkOk(s, th.run) && DirOk(s.disk, s.used, s.crashes, th.run);
    }
    forall r <- s.disk.runs ensures LinkOk(s', r) {
      assert LinkOk(s, r);
    }
  }

  lemma AppendKeepsThreads(s: Store, t: nat, n: Notification, d: Disk)
    requires SafeInv(s) && t in s.threads && s.lock == Some(t)
    requires d == s.disk.(journal := s.disk.journal + [n])
    ensures forall u <- s.threads | u != t :: ThreadOk(d, s.used, s.crashes, s.threads[u])
  {
    assert forall m <- s.disk.journal :: m in d.journal;
    forall u <- s.threads | u != t ensures ThreadOk(d, s.used, s.crashes, s.threads[u]) {
      assert ThreadOk(s.disk, s.used, s.crashes, s.threads[u]) && !HoldsLock(s.threads[u]);
    }
  }

  lemma AppendKeepsDirs(s: Store, t: nat, n: Notification, s': Store)
    requires SafeInv(s) && t in s.threads && s.lock == Some(t) && s'.lock == s.lock
    requires s'.disk == s.disk.(journal := s.disk.journal + [n]) && s'.used == s.used && s'.crashes == s.crashes
    requires SameButFor(s.threads, s'.threads, t) && t in s'.threads
    requires s.threads[t].Notifier? && s.threads[t].at.Append? && About(n, s.threads[t].run, s.threads[t].kind)
    requires s'.threads[t] == s.threads[t].(at := Count(n.id))
    ensures forall r <- s'.disk.runs :: DirOk(s'.disk, s.used, s.crashes, r) && LinkOk(s', r)
  {
    assert ThreadOk(s.disk, s.used, s.crashes, s.threads[t]);
    assert forall m <- s.disk.journal :: m in s'.disk.journal;
    forall r <- s'.disk.runs ensures DirOk(s'.disk, s.used, s.crashes, r) && LinkOk(s', r) {
      assert DirOk(s.disk, s.used, s.crashes, r) && LinkOk(s, r);
      NumAboutAppend(s.disk.journal, n, r, Terminal);
      NumAboutAppend(s.disk.journal, n, r, FatalError);
    }
  }

  lemma AppendKeepsSafe(s: Store, t: nat, stamp: string)
    requires SafeInv(s) && t in s.threads && s.threads[t].Notifier? && s.threads[t].at.Append?
    ensures SafeInv(GoThread(s, t, s.threads[t], stamp))
  {
    var th := s.threads[t];
    var s' := GoThread(s, t, th, stamp);
    var n := Notification(NotificationId(th.at.next, stamp), th.run, th.kind);
    LastIsLargest(s.disk.journal);
    assert ThreadOk(s.disk, s.used, s.crashes, th);
    AppendKeepsThreads(s, t, n, s'.disk);
    AppendKeepsDirs(s, t, n, s');
    assert n in s'.disk.journal;
  }

  lemma NextKeepsSafe(s: Store, a: Action)
    requires SafeInv(s)
    ensures SafeInv(Next(s, a))
  {
    if Enabled(s, a) {
      match a
      case Create(r) => CreateKeepsSafe(s, r);
      case SetError(r, fatal) => SetErrorKeepsSafe(s, r, fatal);
      case Report(_, _) => StartKeepsSafe(s, a);
      case StartMark(_, _, _) => StartKeepsSafe(s, a);
      case StartPrune(_, _) => StartKeepsSafe(s, a);
      case BeginScan(_) => ScanKeepsSafe(s, a);
      case Visit(_, _) => ScanKeepsSafe(s, a);
      case Remove(t, r) => RemoveKeepsSafe(s, t, r);
      case Crash => CrashKeepsSafe(s);
      case Go(t, stamp) => GoKeepsSafe(s, t, stamp);
    }
  }

  lemma GoKeepsSafe(s: Store, t: nat, stamp: string)
    requires SafeInv(s) && t in s.threads && CanGo(s, s.threads[t])
    ensures SafeInv(GoThread(s, t, s.threads[t], stamp))
  {
    match s.threads[t]
    case Marker(_, _) => MarkKeepsSafe(s, t);
    case Remover(_, _) => PrunerKeepsSafe(s, t);
    case PruneQueue(_) => PrunerKeepsSafe(s, t);
    case PruneJournal(_) => PruneKeepsSafe(s, t);
    case Notifier(_, _, _, _, at) =>
      match at
      case Probe => ProbeKeepsSafe(s, t);
      case Search => SearchKeepsSafe(s, t);
      case Relink(_) => LinkKeepsSafe(s, t);
      case Queue => CheckKeepsSafe(s, t);
      case Check => CheckKeepsSafe(s, t);
      case ReadSeq => ReadSeqKeepsSafe(s, t);
      case Append(_) => AppendKeepsSafe(s, t, stamp);
      case Count(_) => CountKeepsSafe(s, t);
      case Link(_) => LinkKeepsSafe(s, t);
  }

  lemma {:induction false} RunIsSafe(schedule: seq<Action>)
    ensures SafeInv(Run(schedule))
  {
    if schedule != [] {
      RunIsSafe(schedule[..|schedule| - 1]);
      NextKeepsSafe(Run(schedule[..|schedule| - 1]), schedule[|schedule| - 1]);
    }
  }
}
