/**
 * How often a run's `fatal_error` record can repeat: once for every crash that falls between
 * the record's append and its sentinel while the run is still running, and nothing else. The
 * daemon reports a run only in the life that created it, so two records are the most.
 */
module FatalRepeats {
  import opened Prelude
  import opened StoreProtocol
  import opened StoreSafety
  import opened StoreDelivery
  import opened JournalHistory

  // ---------- when an append repeats a record ----------

  /** Operation `t` holds the lock and is between its sentinel check and its append, or past it. */
  ghost predicate InTenure(s: Store, journal: seq<Notification>, t: nat, r: RunId, k: Kind) {
    && t in s.threads && s.threads[t].Notifier? && s.threads[t].run == r && s.threads[t].kind == k
    && ((s.threads[t].at.ReadSeq? || s.threads[t].at.Append?) ==> s.disk.journal == journal)
    && (s.threads[t].at.ReadSeq? || s.threads[t].at.Append? || s.threads[t].at.Count? || s.threads[t].at.Link?)
  }

  lemma OthersKeepJournal(s: Store, t: nat, a: Action)
    requires SafeInv(s) && s.lock == Some(t) && t in s.threads && !(a.Go? && a.t == t)
    requires Next(s, a).lock == Some(t)
    ensures Next(s, a).disk.journal == s.disk.journal
    ensures t in Next(s, a).threads && Next(s, a).threads[t] == s.threads[t]
  {
    assert HoldsLock(s.threads[t]);
    if Enabled(s, a) && a.Go? {
      assert !HoldsLock(s.threads[a.t]);
    }
  }

  lemma TenureStep(s: Store, journal: seq<Notification>, t: nat, r: RunId, k: Kind, a: Action)
    requires SafeInv(s) && s.lock == Some(t) && InTenure(s, journal, t, r, k) && Next(s, a).lock == Some(t)
    ensures InTenure(Next(s, a), journal, t, r, k)
  {
    if !(a.Go? && a.t == t) {
      OthersKeepJournal(s, t, a);
    }
  }

  lemma {:induction false} Tenure(schedule: seq<Action>, i: nat, j: nat, t: nat)
    requires i < j <= |schedule| && schedule[i].Go? && schedule[i].t == t
    requires var s := Run(schedule[..i]); t in s.threads && s.threads[t].Notifier? && s.threads[t].at.Check?
    requires forall l :: i <= l <= j ==> Run(schedule[..l]).lock == Some(t)
    ensures var s := Run(schedule[..i]);
      && !HasSentinel(s.disk, s.threads[t].run, s.threads[t].kind)
      && InTenure(Run(schedule[..j]), s.disk.journal, t, s.threads[t].run, s.threads[t].kind)
    decreases j
  {
    PrefixStep(schedule, j - 1);
    RunIsSafe(schedule[..j - 1]);
    if i < j - 1 {
      Tenure(schedule, i, j - 1, t);
      var s := Run(schedule[..i]);
      TenureStep(Run(schedule[..j - 1]), s.disk.journal, t, s.threads[t].run, s.threads[t].kind, schedule[j - 1]);
    }
  }

  /** Step i is the sentinel check of the operation that appends at step j, under the lock from i to j. */
  ghost predicate ChecksFor(schedule: seq<Action>, i: nat, j: nat, t: nat)
    requires i < j <= |schedule|
  {
    && schedule[i].Go? && schedule[i].t == t
    && (var s := Run(schedule[..i]); t in s.threads && s.threads[t].Notifier? && s.threads[t].at.Check?)
    && forall l :: i <= l <= j ==> Run(schedule[..l]).lock == Some(t)
  }

  /** Operation `t` has passed its sentinel check and not yet appended. */
  ghost predicate Heads(s: Store, t: nat) {
    t in s.threads && s.threads[t].Notifier? && (s.threads[t].at.ReadSeq? || s.threads[t].at.Append?)
  }

  lemma OwnStepBack(s: Store, t: nat, stamp: string)
    requires t in s.threads && CanGo(s, s.threads[t]) && Heads(GoThread(s, t, s.threads[t], stamp), t)
    ensures s.threads[t].Notifier? && (s.threads[t].at.Check? || s.threads[t].at.ReadSeq?)
  {
  }

  lemma OtherStepBack(s: Store, a: Action, t: nat)
    requires !(a.Go? && a.t == t) && Heads(Next(s, a), t)
    ensures t in s.threads && s.threads[t] == Next(s, a).threads[t]
  {
    if Enabled(s, a) && a.Go? {
      assert t in GoThread(s, a.t, s.threads[a.t], a.stamp).threads;
    }
  }

  /** The step before was the operation's own, or it stood there already. */
  lemma StepBack(s: Store, a: Action, t: nat)
    requires Locking(s) && Heads(Next(s, a), t)
    ensures s.lock == Some(t) && t in s.threads && s.threads[t].Notifier?
    ensures Heads(s, t) || (s.threads[t].at.Check? && a.Go? && a.t == t)
  {
    if a.Go? && a.t == t {
      if Enabled(s, a) {
        OwnStepBack(s, t, a.stamp);
      }
    } else {
      OtherStepBack(s, a, t);
    }
    assert HoldsLock(s.threads[t]);
  }

  lemma Heading(s: Store, t: nat)
    requires Locking(s) && Heads(s, t)
    ensures s.lock == Some(t)
  {
    assert HoldsLock(s.threads[t]);
  }

  lemma RunLocks(schedule: seq<Action>)
    ensures Locking(Run(schedule))
  {
    RunIsSafe(schedule);
  }

  /** The same along a schedule. */
  lemma TenureBack(schedule: seq<Action>, j: nat, t: nat)
    requires j <= |schedule| && Heads(Run(schedule[..j]), t)
    ensures j > 0 && Run(schedule[..j]).lock == Some(t) && Run(schedule[..j - 1]).lock == Some(t)
    ensures Heads(Run(schedule[..j - 1]), t) || ChecksFor(schedule, j - 1, j, t)
  {
    assert schedule[..0] == [];
    PrefixStep(schedule, j - 1);
    RunLocks(schedule[..j - 1]);
    RunLocks(schedule[..j]);
    StepBack(Run(schedule[..j - 1]), schedule[j - 1], t);
    Heading(Run(schedule[..j]), t);
  }

  /** Before every append its operation checked the sentinel, and it has held the lock since. */
  lemma {:induction false} TenureBegins(schedule: seq<Action>, j: nat, t: nat) returns (i: nat)
    requires j <= |schedule| && Heads(Run(schedule[..j]), t)
    ensures i < j && ChecksFor(schedule, i, j, t)
    decreases j
  {
    TenureBack(schedule, j, t);
    i := j - 1;
    if !ChecksFor(schedule, j - 1, j, t) {
      i := TenureBegins(schedule, j - 1, t);
    }
  }

  ghost predicate AboutAdded(schedule: seq<Action>, j: nat, r: RunId, k: Kind)
    requires j < |schedule| && Adds(Run(schedule[..j]), schedule[j])
  {
    About(Added(Run(schedule[..j]), schedule[j]), r, k)
  }

  /**
   * Every append, at a step j, has its sentinel check at a step i before it. It found the
   * sentinel missing, and the append repeats a record exactly when the journal held one then.
   */
  lemma RepeatsIff(schedule: seq<Action>, j: nat, r: RunId, k: Kind)
    requires j < |schedule| && Adds(Run(schedule[..j]), schedule[j]) && AboutAdded(schedule, j, r, k)
    ensures exists i: nat :: i < j && ChecksFor(schedule, i, j, schedule[j].t)
    ensures forall i: nat :: i < j && ChecksFor(schedule, i, j, schedule[j].t) ==>
      && !HasSentinel(Run(schedule[..i]).disk, r, k)
      && (NumAbout(JournalAt(schedule, j + 1), r, k) >= 2 <==> NumAbout(JournalAt(schedule, i), r, k) >= 1)
      && NumAbout(JournalAt(schedule, j + 1), r, k) == NumAbout(JournalAt(schedule, i), r, k) + 1
  {
    var first := TenureBegins(schedule, j, schedule[j].t);
    forall i: nat | i < j && ChecksFor(schedule, i, j, schedule[j].t)
      ensures !HasSentinel(Run(schedule[..i]).disk, r, k)
      ensures NumAbout(JournalAt(schedule, j + 1), r, k) == NumAbout(JournalAt(schedule, i), r, k) + 1
    {
      RepeatsSince(schedule, i, j, r, k);
    }
  }

  lemma RepeatsSince(schedule: seq<Action>, i: nat, j: nat, r: RunId, k: Kind)
    requires i < j < |schedule| && Adds(Run(schedule[..j]), schedule[j]) && AboutAdded(schedule, j, r, k)
    requires ChecksFor(schedule, i, j, schedule[j].t)
    ensures !HasSentinel(Run(schedule[..i]).disk, r, k)
    ensures NumAbout(JournalAt(schedule, j + 1), r, k) == NumAbout(JournalAt(schedule, i), r, k) + 1
  {
    var s := Run(schedule[..i]);
    Tenure(schedule, i, j, schedule[j].t);
    PrefixStep(schedule, j);
    var n := Added(Run(schedule[..j]), schedule[j]);
    NextJournal(Run(schedule[..j]), schedule[j]);
    NumAboutAppend(s.disk.journal, n, r, k);
  }

  // ---------- the bound ----------

  /** A fatal_error record of the run is in the journal without its sentinel, and the run is still running. */
  ghost predicate Exposed(s: Store, r: RunId) {
    InFlight(s, r, FatalError) && Running(s.disk, r)
  }

  /** The crashes that fell into such a moment. */
  ghost function Losses(schedule: seq<Action>, r: RunId): nat {
    if schedule == [] then 0
    else
      var front := schedule[..|schedule| - 1];
      Losses(front, r) + if schedule[|schedule| - 1].Crash? && Exposed(Run(front), r) then 1 else 0
  }

  /** The operation will append a fatal_error record unless it finds the sentinel. */
  ghost predicate Aims(th: Thread, r: RunId) {
    th.Notifier? && th.run == r && th.kind == FatalError
    && (th.at.Queue? || th.at.Check? || th.at.ReadSeq? || th.at.Append?)
  }

  ghost predicate NoneAims(threads: map<nat, Thread>, r: RunId) {
    forall t <- threads :: !Aims(threads[t], r)
  }

  ghost predicate LateOk(s: Store, r: RunId, losses: nat, th: Thread) {
    th.Notifier? && th.run == r && th.kind == FatalError && (th.at.ReadSeq? || th.at.Append?) ==>
      NumAbout(s.disk.journal, r, FatalError) <= losses
  }

  /** A record beyond the losses is either being linked, or its run has ended and nobody will append another. */
  ghost predicate BoundOk(s: Store, r: RunId, losses: nat) {
    r in s.disk.runs ==>
      && NumAbout(s.disk.journal, r, FatalError) <= losses + 1
      && (forall t <- s.threads :: LateOk(s, r, losses, s.threads[t]))
      && (Loose(s, r, FatalError) && NumAbout(s.disk.journal, r, FatalError) > losses ==>
            !Running(s.disk, r) && NoneAims(s.threads, r))
  }

  lemma {:induction false} RunIsBounded(schedule: seq<Action>, r: RunId)
    ensures BoundOk(Run(schedule), r, Losses(schedule, r))
  {
    if schedule != [] {
      var front, a := schedule[..|schedule| - 1], schedule[|schedule| - 1];
      RunIsBounded(front, r);
      RunIsSafe(front);
      NextIsBounded(Run(front), a, r, Losses(front, r));
    }
  }

  lemma NextIsBounded(s: Store, a: Action, r: RunId, losses: nat)
    requires SafeInv(s) && BoundOk(s, r, losses)
    ensures BoundOk(Next(s, a), r, losses + if a.Crash? && Exposed(s, r) then 1 else 0)
  {
    if Enabled(s, a) {
      match a {
        case Create(q) => CreateIsBounded(s, q, r, losses);
        case Crash => CrashIsBounded(s, r, losses);
        case Go(t, stamp) => GoIsBounded(s, t, stamp, r, losses);
        case _ => QuietIsBounded(s, a, r, losses);
      }
    }
  }

  lemma CreateIsBounded(s: Store, q: RunId, r: RunId, losses: nat)
    requires SafeInv(s) && BoundOk(s, r, losses) && q !in s.used
    ensures BoundOk(Do(s, Create(q)), r, losses)
  {
    NumAboutPositive(s.disk.journal, q, FatalError);
    if q == r {
      forall t <- s.threads ensures LateOk(Do(s, Create(q)), r, losses, s.threads[t]) {
        assert ThreadOk(s.disk, s.used, s.crashes, s.threads[t]);
      }
    }
  }

  lemma CrashIsBounded(s: Store, r: RunId, losses: nat)
    requires SafeInv(s) && BoundOk(s, r, losses)
    ensures BoundOk(Do(s, Crash), r, losses + if Exposed(s, r) then 1 else 0)
  {
  }

  lemma QuietIsBounded(s: Store, a: Action, r: RunId, losses: nat)
    requires SafeInv(s) && BoundOk(s, r, losses) && Enabled(s, a)
    requires !a.Create? && !a.Crash? && !a.Go?
    ensures BoundOk(Do(s, a), r, losses)
  {
    var s' := Do(s, a);
    QuietLeaves(s, a, r);
    if r in s'.disk.runs {
      forall t <- s'.threads ensures LateOk(s', r, losses, s'.threads[t]) {
        assert t in s.threads && s'.threads[t] == s.threads[t] ==> LateOk(s, r, losses, s.threads[t]);
      }
    }
  }

  lemma QuietLeaves(s: Store, a: Action, r: RunId)
    requires Locking(s) && Enabled(s, a) && !a.Create? && !a.Crash? && !a.Go?
    ensures var s' := Do(s, a);
      && s'.disk.journal == s.disk.journal
      && (r in s'.disk.runs ==> r in s.disk.runs && (Loose(s', r, FatalError) ==> Loose(s, r, FatalError)))
  {
    assert Do(s, a).lock == s.lock;
  }

  /** What the bound depends on, apart from the operations under way. */
  ghost predicate SameFor(s: Store, s': Store, r: RunId) {
    && (r in s.disk.runs <==> r in s'.disk.runs)
    && (r in s.disk.runs ==>
          && NumAbout(s'.disk.journal, r, FatalError) == NumAbout(s.disk.journal, r, FatalError)
          && (Loose(s', r, FatalError) ==> Loose(s, r, FatalError))
          && Running(s'.disk, r) == Running(s.disk, r))
  }

  /** A step that leaves these, and after which the operation itself is within the bound. */
  lemma SameIsBounded(s: Store, t: nat, s': Store, r: RunId, losses: nat)
    requires BoundOk(s, r, losses) && SameFor(s, s', r) && SameButFor(s.threads, s'.threads, t)
    requires t in s'.threads && r in s.disk.runs ==>
      && LateOk(s', r, losses, s'.threads[t])
      && (Loose(s', r, FatalError) && NumAbout(s'.disk.journal, r, FatalError) > losses ==> !Aims(s'.threads[t], r))
    ensures BoundOk(s', r, losses)
  {
    if r in s'.disk.runs {
      forall u <- s'.threads ensures LateOk(s', r, losses, s'.threads[u]) {
        assert u != t ==> LateOk(s, r, losses, s.threads[u]);
      }
    }
  }

  lemma GoIsBounded(s: Store, t: nat, stamp: string, r: RunId, losses: nat)
    requires SafeInv(s) && BoundOk(s, r, losses) && t in s.threads && CanGo(s, s.threads[t])
    ensures BoundOk(GoThread(s, t, s.threads[t], stamp), r, losses)
  {
    var th := s.threads[t];
    assert ThreadOk(s.disk, s.used, s.crashes, th);
    match th {
      case Marker(q, _) => MarkerIsBounded(s, t, stamp, r, losses);
      case Remover(_, _) => SameIsBounded(s, t, GoThread(s, t, th, stamp), r, losses);
      case PruneQueue(_) => SameIsBounded(s, t, GoThread(s, t, th, stamp), r, losses);
      case PruneJournal(deleted) =>
        if r in s.disk.runs {
          NumAboutKept(s.disk.journal, deleted, r, FatalError);
        }
        SameIsBounded(s, t, GoThread(s, t, th, stamp), r, losses);
      case Notifier(q, _, k, _, _) =>
        if q == r && k == FatalError {
          OwnIsBounded(s, t, stamp, r, losses);
        } else {
          OtherIsBounded(s, t, stamp, r, losses);
        }
    }
  }

  lemma MarkerIsBounded(s: Store, t: nat, stamp: string, r: RunId, losses: nat)
    requires SafeInv(s) && BoundOk(s, r, losses) && t in s.threads && s.threads[t].Marker?
    ensures BoundOk(GoThread(s, t, s.threads[t], stamp), r, losses)
  {
    var s' := GoThread(s, t, s.threads[t], stamp);
    assert ThreadOk(s.disk, s.used, s.crashes, s.threads[t]);
    if r in s'.disk.runs {
      assert Loose(s', r, FatalError) ==> Loose(s, r, FatalError);
      forall u <- s'.threads ensures LateOk(s', r, losses, s'.threads[u]) {
        assert u != t ==> LateOk(s, r, losses, s.threads[u]);
      }
    }
  }

  ghost predicate OtherStep(s: Store, t: nat, r: RunId) {
    && SafeInv(s) && t in s.threads && CanGo(s, s.threads[t]) && s.threads[t].Notifier?
    && !(s.threads[t].run == r && s.threads[t].kind == FatalError)
  }

  lemma OtherInFlight(s: Store, t: nat, stamp: string, r: RunId)
    requires OtherStep(s, t, r) && InFlight(s, r, FatalError)
    ensures InFlight(GoThread(s, t, s.threads[t], stamp), r, FatalError)
  {
    assert s.lock.value != t && !HoldsLock(s.threads[t]);
  }

  lemma OtherAppend(s: Store, t: nat, stamp: string, r: RunId)
    requires OtherStep(s, t, r) && s.threads[t].at.Append?
    ensures SameFor(s, GoThread(s, t, s.threads[t], stamp), r)
  {
    var th := s.threads[t];
    NumAboutAppend(s.disk.journal, Notification(NotificationId(th.at.next, stamp), th.run, th.kind), r, FatalError);
    if InFlight(s, r, FatalError) {
      OtherInFlight(s, t, stamp, r);
    }
  }

  lemma OtherLink(s: Store, t: nat, stamp: string, r: RunId)
    requires OtherStep(s, t, r) && (s.threads[t].at.Link? || s.threads[t].at.Relink?)
    ensures SameFor(s, GoThread(s, t, s.threads[t], stamp), r)
  {
    var th := s.threads[t];
    var s' := GoThread(s, t, th, stamp);
    assert s'.disk.journal == s.disk.journal;
    assert r in s.disk.runs ==> s'.disk.runs[r].fatalSentinel == s.disk.runs[r].fatalSentinel;
    if InFlight(s, r, FatalError) {
      OtherInFlight(s, t, stamp, r);
    }
  }

  lemma OtherMove(s: Store, t: nat, stamp: string, r: RunId)
    requires OtherStep(s, t, r)
    requires !s.threads[t].at.Append? && !s.threads[t].at.Link? && !s.threads[t].at.Relink?
    ensures SameFor(s, GoThread(s, t, s.threads[t], stamp), r)
  {
    var s' := GoThread(s, t, s.threads[t], stamp);
    assert s'.disk.journal == s.disk.journal && s'.disk.runs == s.disk.runs;
    if InFlight(s, r, FatalError) {
      OtherInFlight(s, t, stamp, r);
    }
  }

  /** A notifying step for another run or another kind leaves the run's fatal_error record alone. */
  lemma OtherSame(s: Store, t: nat, stamp: string, r: RunId)
    requires OtherStep(s, t, r)
    ensures SameFor(s, GoThread(s, t, s.threads[t], stamp), r)
  {
    var at := s.threads[t].at;
    if at.Append? {
      OtherAppend(s, t, stamp, r);
    } else if at.Link? || at.Relink? {
      OtherLink(s, t, stamp, r);
    } else {
      OtherMove(s, t, stamp, r);
    }
  }

  lemma OtherThread(s: Store, t: nat, stamp: string, r: RunId)
    requires OtherStep(s, t, r)
    ensures var s' := GoThread(s, t, s.threads[t], stamp);
      SameButFor(s.threads, s'.threads, t) && (t in s'.threads ==> !Aims(s'.threads[t], r))
  {
    assert ThreadOk(s.disk, s.used, s.crashes, s.threads[t]);
  }

  lemma OtherIsBounded(s: Store, t: nat, stamp: string, r: RunId, losses: nat)
    requires OtherStep(s, t, r) && BoundOk(s, r, losses)
    ensures BoundOk(GoThread(s, t, s.threads[t], stamp), r, losses)
  {
    OtherSame(s, t, stamp, r);
    OtherThread(s, t, stamp, r);
    SameIsBounded(s, t, GoThread(s, t, s.threads[t], stamp), r, losses);
  }

  /** A step of an operation on the run's own fatal_error record. */
  lemma OwnIsBounded(s: Store, t: nat, stamp: string, r: RunId, losses: nat)
    requires SafeInv(s) && BoundOk(s, r, losses) && t in s.threads && CanGo(s, s.threads[t])
    requires s.threads[t].Notifier? && s.threads[t].run == r && s.threads[t].kind == FatalError
    ensures BoundOk(GoThread(s, t, s.threads[t], stamp), r, losses)
  {
    var th := s.threads[t];
    if th.at.Append? {
      AppendIsBounded(s, t, stamp, r, losses);
    } else if th.at.Link? || th.at.Relink? {
      LinkIsBounded(s, t, stamp, r, losses);
    } else if th.at.Count? {
      CountIsBounded(s, t, stamp, r, losses);
    } else {
      MoveIsBounded(s, t, stamp, r, losses);
    }
  }

  lemma AppendIsBounded(s: Store, t: nat, stamp: string, r: RunId, losses: nat)
    requires SafeInv(s) && BoundOk(s, r, losses) && t in s.threads
    requires s.threads[t].Notifier? && s.threads[t].run == r && s.threads[t].kind == FatalError
    requires s.threads[t].at.Append?
    ensures BoundOk(GoThread(s, t, s.threads[t], stamp), r, losses)
  {
    var th := s.threads[t];
    var s' := GoThread(s, t, th, stamp);
    NumAboutAppend(s.disk.journal, Notification(NotificationId(th.at.next, stamp), r, FatalError), r, FatalError);
    assert HoldsLock(th) && s.lock == Some(t);
    if r in s'.disk.runs {
      assert LateOk(s, r, losses, th) && InFlight(s', r, FatalError);
      forall u <- s'.threads ensures LateOk(s', r, losses, s'.threads[u]) {
        assert u != t ==> !HoldsLock(s.threads[u]);
      }
    }
  }

  lemma LinkIsBounded(s: Store, t: nat, stamp: string, r: RunId, losses: nat)
    requires SafeInv(s) && BoundOk(s, r, losses) && t in s.threads
    requires s.threads[t].Notifier? && s.threads[t].run == r && s.threads[t].kind == FatalError
    requires s.threads[t].at.Link? || s.threads[t].at.Relink?
    ensures BoundOk(GoThread(s, t, s.threads[t], stamp), r, losses)
  {
    var th := s.threads[t];
    var s' := GoThread(s, t, th, stamp);
    assert ThreadOk(s.disk, s.used, s.crashes, th);
    if r in s'.disk.runs {
      assert !Loose(s', r, FatalError);
      forall u <- s'.threads ensures LateOk(s', r, losses, s'.threads[u]) {
        assert u != t ==> LateOk(s, r, losses, s.threads[u]);
      }
    }
  }

  lemma MoveSame(s: Store, t: nat, stamp: string, r: RunId)
    requires SafeInv(s) && t in s.threads && CanGo(s, s.threads[t]) && s.threads[t].Notifier?
    requires !s.threads[t].at.Append? && !s.threads[t].at.Link? && !s.threads[t].at.Relink?
    requires !s.threads[t].at.Count?
    ensures SameFor(s, GoThread(s, t, s.threads[t], stamp), r)
    ensures SameButFor(s.threads, GoThread(s, t, s.threads[t], stamp).threads, t)
  {
    var th := s.threads[t];
    var s' := GoThread(s, t, th, stamp);
    assert s'.disk.journal == s.disk.journal && s'.disk.runs == s.disk.runs;
    assert InFlight(s, r, FatalError) ==> InFlight(s', r, FatalError) by {
      assert HoldsLock(th) <==> s.lock == Some(t);
    }
  }

  lemma CountIsBounded(s: Store, t: nat, stamp: string, r: RunId, losses: nat)
    requires SafeInv(s) && BoundOk(s, r, losses) && t in s.threads
    requires s.threads[t].Notifier? && s.threads[t].at.Count?
    ensures BoundOk(GoThread(s, t, s.threads[t], stamp), r, losses)
  {
    var s' := GoThread(s, t, s.threads[t], stamp);
    assert InFlight(s, r, FatalError) ==> InFlight(s', r, FatalError);
    SameIsBounded(s, t, s', r, losses);
  }

  lemma MoveIsBounded(s: Store, t: nat, stamp: string, r: RunId, losses: nat)
    requires SafeInv(s) && BoundOk(s, r, losses) && t in s.threads && CanGo(s, s.threads[t])
    requires s.threads[t].Notifier? && s.threads[t].run == r && s.threads[t].kind == FatalError
    requires !s.threads[t].at.Append? && !s.threads[t].at.Link? && !s.threads[t].at.Relink?
    requires !s.threads[t].at.Count?
    ensures BoundOk(GoThread(s, t, s.threads[t], stamp), r, losses)
  {
    var th := s.threads[t];
    assert ThreadOk(s.disk, s.used, s.crashes, th) && (r in s.disk.runs ==> LateOk(s, r, losses, th));
    NumAboutPositive(s.disk.journal, r, FatalError);
    MoveSame(s, t, stamp, r);
    assert HoldsLock(th) <==> s.lock == Some(t);
    SameIsBounded(s, t, GoThread(s, t, th, stamp), r, losses);
  }

  lemma {:induction false} LossesAreCrashes(schedule: seq<Action>, r: RunId)
    ensures Losses(schedule, r) <= Run(schedule).crashes
  {
    if schedule != [] {
      LossesAreCrashes(schedule[..|schedule| - 1], r);
    }
  }

  /**
   * A run on disk has at most one fatal_error record more than there were crashes between one
   * of its own appends and the sentinel while it was running; a repeat needs such a crash.
   */
  lemma FatalBound(schedule: seq<Action>, r: RunId)
    requires r in Run(schedule).disk.runs
    ensures NumAbout(Run(schedule).disk.journal, r, FatalError) <= 1 + Losses(schedule, r)
    ensures Losses(schedule, r) <= Run(schedule).crashes
  {
    RunIsBounded(schedule, r);
    LossesAreCrashes(schedule, r);
  }

  // ---------- the daemon's own schedules ----------

  /** A crash has passed since the run was created. */
  ghost predicate Aged(schedule: seq<Action>, r: RunId) {
    schedule != []
    && var front := schedule[..|schedule| - 1];
       Aged(front, r) || (schedule[|schedule| - 1].Crash? && r in Run(front).used)
  }

  /** Only the daemon that created a run watches its worker and reports its fatal errors. */
  ghost predicate ReportsInFirstLife(schedule: seq<Action>, r: RunId) {
    schedule == []
    || var front, a := schedule[..|schedule| - 1], schedule[|schedule| - 1];
       ReportsInFirstLife(front, r) && (a.Report? && a.run == r ==> !Aged(front, r))
  }

  ghost predicate Unwatched(s: Store, r: RunId) {
    r in s.used && (Running(s.disk, r) ==> forall t <- s.threads :: !(s.threads[t].Notifier? && s.threads[t].run == r))
  }

  lemma NextUnwatched(s: Store, a: Action, r: RunId)
    requires SafeInv(s) && Unwatched(s, r) && !(a.Report? && a.run == r)
    ensures Unwatched(Next(s, a), r)
  {
    if Enabled(s, a) && a.Go? {
      GoUnwatched(s, a.t, a.stamp, r);
    }
  }

  lemma GoKeepsStatus(s: Store, t: nat, stamp: string, r: RunId)
    requires t in s.threads
    ensures var s' := GoThread(s, t, s.threads[t], stamp);
      && s'.used == s.used
      && (Running(s'.disk, r) ==> Running(s.disk, r))
      && (s.threads[t].Marker? && s.threads[t].run == r ==> !Running(s'.disk, r))
  {
  }

  lemma GoKeepsWatcher(s: Store, t: nat, stamp: string, r: RunId)
    requires t in s.threads
    ensures var s' := GoThread(s, t, s.threads[t], stamp);
      && (forall u <- s'.threads :: u != t ==> u in s.threads && s'.threads[u] == s.threads[u])
      && (t in s'.threads && s'.threads[t].Notifier? && s'.threads[t].run == r ==>
            (s.threads[t].Notifier? || s.threads[t].Marker?) && s.threads[t].run == r)
  {
  }

  lemma GoUnwatched(s: Store, t: nat, stamp: string, r: RunId)
    requires Unwatched(s, r) && t in s.threads
    ensures Unwatched(GoThread(s, t, s.threads[t], stamp), r)
  {
    GoKeepsStatus(s, t, stamp, r);
    GoKeepsWatcher(s, t, stamp, r);
  }

  lemma {:induction false} AgedIsUnwatched(schedule: seq<Action>, r: RunId)
    requires ReportsInFirstLife(schedule, r)
    ensures Aged(schedule, r) ==> Unwatched(Run(schedule), r)
    ensures Losses(schedule, r) <= if Aged(schedule, r) then 1 else 0
  {
    if schedule != [] {
      var front, a := schedule[..|schedule| - 1], schedule[|schedule| - 1];
      AgedIsUnwatched(front, r);
      RunIsSafe(front);
      RunIsBounded(front, r);
      if Aged(front, r) {
        NextUnwatched(Run(front), a, r);
        assert !Exposed(Run(front), r);
      } else if a.Crash? && Exposed(Run(front), r) {
        assert DirOk(Run(front).disk, Run(front).used, Run(front).crashes, r);
      }
    }
  }

  /** So a run of the daemon has at most two fatal_error records. */
  lemma FatalAtMostTwice(schedule: seq<Action>, r: RunId)
    requires r in Run(schedule).disk.runs && ReportsInFirstLife(schedule, r)
    ensures NumAbout(Run(schedule).disk.journal, r, FatalError) <= if Aged(schedule, r) then 2 else 1
  {
    FatalBound(schedule, r);
    AgedIsUnwatched(schedule, r);
  }

  // ---------- the bound is reached ----------

  /** The lock holder is between its sentinel check and its sentinel write for the run's fatal_error record. */
  ghost predicate AtWork(s: Store, r: RunId) {
    s.lock.Some? && s.lock.value in s.threads
    && var th := s.threads[s.lock.value];
       th.Notifier? && th.run == r && th.kind == FatalError
       && (th.at.ReadSeq? || th.at.Append? || th.at.Count? || th.at.Link?)
  }

  /** Meanwhile a running run has no sentinel: only the lock holder can write one. */
  ghost predicate Bare(s: Store, r: RunId) {
    Running(s.disk, r) && AtWork(s, r) ==> s.disk.runs[r].fatalSentinel.None?
  }

  lemma GoKeepsBare(s: Store, t: nat, stamp: string, r: RunId)
    requires SafeInv(s) && Bare(s, r) && t in s.threads && CanGo(s, s.threads[t])
    ensures Bare(GoThread(s, t, s.threads[t], stamp), r)
  {
    assert ThreadOk(s.disk, s.used, s.crashes, s.threads[t]);
    assert HoldsLock(s.threads[t]) <==> s.lock == Some(t);
  }

  lemma NextBare(s: Store, a: Action, r: RunId)
    requires SafeInv(s) && Bare(s, r)
    ensures Bare(Next(s, a), r)
  {
    if Enabled(s, a) {
      if a.Go? {
        GoKeepsBare(s, a.t, a.stamp, r);
      } else if a.Create? && AtWork(s, r) {
        assert ThreadOk(s.disk, s.used, s.crashes, s.threads[s.lock.value]);
      }
    }
  }

  lemma {:induction false} RunIsBare(schedule: seq<Action>, r: RunId)
    ensures Bare(Run(schedule), r)
  {
    if schedule != [] {
      RunIsBare(schedule[..|schedule| - 1], r);
      RunIsSafe(schedule[..|schedule| - 1]);
      NextBare(Run(schedule[..|schedule| - 1]), schedule[|schedule| - 1], r);
    }
  }

  /** Nothing is under way, and the run is running without a sentinel. */
  ghost predicate Ready(s: Store, r: RunId) {
    s.threads == map[] && s.lock.None? && Running(s.disk, r) && s.disk.runs[r].fatalSentinel.None?
  }

  function Record(s: Store, r: RunId, stamp: string): Notification {
    Notification(NotificationId(NextSeq(s.disk), stamp), r, FatalError)
  }

  /** A worker's fatal error is reported, up to the journal append. */
  function Reporting(r: RunId, stamp: string): seq<Action> {
    [Report(0, r)] + [Go(0, "")] + [Go(0, "")] + [Go(0, "")] + [Go(0, stamp)]
  }

  /** A restarted daemon marks the run orphaned, up to the append of its fatal_error record. */
  function Orphaning(r: RunId, stamp: string): seq<Action> {
    [StartMark(0, r, true)] + [Go(0, "")] + [Go(0, "")] + [Go(0, "")] + [Go(0, "")] + [Go(0, stamp)]
  }

  /** From its sentinel check to its append, an operation with the lock and without a sentinel. */
  lemma AppendSteps(h: seq<Action>, r: RunId, also: Option<Kind>, stamp: string)
    requires Run(h).threads == map[0 := Notifier(r, false, FatalError, also, Check)] && Run(h).lock == Some(0)
    requires !HasSentinel(Run(h).disk, r, FatalError)
    ensures var (s, n) := (Run(h), Record(Run(h), r, stamp));
      Run(h + [Go(0, "")] + [Go(0, "")] + [Go(0, stamp)])
      == s.(disk := s.disk.(journal := s.disk.journal + [n]),
            threads := map[0 := Notifier(r, false, FatalError, also, Count(n.id))])
  {
    RunExtend(h, Go(0, ""));
    RunExtend(h + [Go(0, "")], Go(0, ""));
    RunExtend(h + [Go(0, "")] + [Go(0, "")], Go(0, stamp));
    ReadSteps(Run(h), r, also);
  }

  lemma ReadSteps(s: Store, r: RunId, also: Option<Kind>)
    requires s.threads == map[0 := Notifier(r, false, FatalError, also, Check)] && s.lock == Some(0)
    requires !HasSentinel(s.disk, r, FatalError)
    ensures Next(Next(s, Go(0, "")), Go(0, ""))
         == s.(threads := map[0 := Notifier(r, false, FatalError, also, Append(NextSeq(s.disk)))])
  {
    assert Next(s, Go(0, "")) == s.(threads := map[0 := Notifier(r, false, FatalError, also, ReadSeq)]);
  }

  lemma ReportingAppends(h: seq<Action>, r: RunId, stamp: string)
    requires Ready(Run(h), r)
    ensures var (s, n) := (Run(h), Record(Run(h), r, stamp));
      Run(h + Reporting(r, stamp))
      == s.(disk := s.disk.(journal := s.disk.journal + [n]),
            threads := map[0 := Notifier(r, false, FatalError, None, Count(n.id))], lock := Some(0))
  {
    RunExtend(h, Report(0, r));
    var a := h + [Report(0, r)];
    assert Run(a).threads == map[0 := Notifier(r, false, FatalError, None, Queue)];
    RunExtend(a, Go(0, ""));
    AppendSteps(a + [Go(0, "")], r, None, stamp);
    assert a + [Go(0, "")] + [Go(0, "")] + [Go(0, "")] + [Go(0, stamp)] == h + Reporting(r, stamp);
  }

  lemma OrphaningAppends(h: seq<Action>, r: RunId, stamp: string)
    requires Ready(Run(h), r)
    ensures Run(h + Orphaning(r, stamp)).disk.journal == Run(h).disk.journal + [Record(Run(h), r, stamp)]
    ensures r in Run(h + Orphaning(r, stamp)).disk.runs && Run(h + Orphaning(r, stamp)).crashes == Run(h).crashes
  {
    RunExtend(h, StartMark(0, r, true));
    var a := h + [StartMark(0, r, true)];
    assert Run(a).threads == map[0 := Marker(r, true)];
    RunExtend(a, Go(0, ""));
    assert Run(a + [Go(0, "")]).threads == map[0 := Notifier(r, false, FatalError, Some(Terminal), Queue)];
    RunExtend(a + [Go(0, "")], Go(0, ""));
    var b := a + [Go(0, "")] + [Go(0, "")];
    AppendSteps(b, r, Some(Terminal), stamp);
    assert b + [Go(0, "")] + [Go(0, "")] + [Go(0, stamp)] == h + Orphaning(r, stamp);
  }

  lemma {:induction false} LossesOfCalm(h: seq<Action>, more: seq<Action>, r: RunId)
    requires forall a <- more :: !a.Crash?
    ensures Losses(h + more, r) == Losses(h, r)
    decreases |more|
  {
    if more == [] {
      assert h + more == h;
    } else {
      var front := more[..|more| - 1];
      assert (h + more)[..|h + more| - 1] == h + front;
      LossesOfCalm(h, front, r);
    }
  }

  /** A crash at an exposed moment leaves the run ready for another record. */
  lemma CrashLeavesReady(schedule: seq<Action>, r: RunId)
    requires Exposed(Run(schedule), r)
    ensures Ready(Run(schedule + [Crash]), r) && Run(schedule + [Crash]).disk == Run(schedule).disk
    ensures Losses(schedule + [Crash], r) == Losses(schedule, r) + 1
  {
    RunExtend(schedule, Crash);
    RunIsBare(schedule, r);
    assert (schedule + [Crash])[..|schedule|] == schedule;
  }

  lemma CrashOrphans(schedule: seq<Action>, r: RunId, stamp: string)
    requires Exposed(Run(schedule), r)
    ensures var orphaned := Run(schedule + [Crash] + Orphaning(r, stamp));
      r in orphaned.disk.runs
      && NumAbout(orphaned.disk.journal, r, FatalError) == NumAbout(Run(schedule).disk.journal, r, FatalError) + 1
  {
    var h := schedule + [Crash];
    CrashLeavesReady(schedule, r);
    OrphaningAppends(h, r, stamp);
    NumAboutAppend(Run(h).disk.journal, Record(Run(h), r, stamp), r, FatalError);
  }

  /** Reporting the run when it is ready exposes it with one record more. */
  lemma ReportingExposes(h: seq<Action>, r: RunId, stamp: string)
    requires Ready(Run(h), r)
    ensures var again := h + Reporting(r, stamp);
      && Exposed(Run(again), r) && Losses(again, r) == Losses(h, r)
      && NumAbout(Run(again).disk.journal, r, FatalError) == NumAbout(Run(h).disk.journal, r, FatalError) + 1
  {
    ReportingAppends(h, r, stamp);
    NumAboutAppend(Run(h).disk.journal, Record(Run(h), r, stamp), r, FatalError);
    LossesOfCalm(h, Reporting(r, stamp), r);
  }

  /**
   * Whenever a crash falls between the record's append and its sentinel while the run is
   * running, the run can get one record more: when the restarted daemon orphans it, and when
   * it is reported again, after which the next crash may do the same.
   */
  lemma CrashRepeats(schedule: seq<Action>, r: RunId, stamp: string)
    requires Exposed(Run(schedule), r)
    ensures var orphaned := Run(schedule + [Crash] + Orphaning(r, stamp));
      r in orphaned.disk.runs
      && NumAbout(orphaned.disk.journal, r, FatalError) == NumAbout(Run(schedule).disk.journal, r, FatalError) + 1
    ensures var again := schedule + [Crash] + Reporting(r, stamp);
      && Exposed(Run(again), r) && Losses(again, r) == Losses(schedule, r) + 1
      && NumAbout(Run(again).disk.journal, r, FatalError)
         == NumAbout(Run(schedule).disk.journal, r, FatalError) + 1
  {
    CrashLeavesReady(schedule, r);
    CrashOrphans(schedule, r, stamp);
    ReportingExposes(schedule + [Crash], r, stamp);
  }

  const CREATED: seq<Action> := [Create(0)] + [SetError(0, true)]

  /** A run reported n + 1 times, with a crash after each append but the last. */
  function Relapses(n: nat): seq<Action> {
    if n == 0 then CREATED + Reporting(0, "a") else Relapses(n - 1) + [Crash] + Reporting(0, "a")
  }

  lemma CreatedRun()
    ensures Run(CREATED)
         == Store(Disk([], 0, map[0 := RunDir(false, true, None, None)]), {0}, 0, map[], None, NotStarted)
    ensures Losses(CREATED, 0) == 0
  {
    RunExtend([], Create(0));
    assert [] + [Create(0)] == [Create(0)];
    RunExtend([Create(0)], SetError(0, true));
    assert Run(CREATED).disk.runs == map[0 := RunDir(false, true, None, None)];
    LossesOfCalm([], CREATED, 0);
    assert [] + CREATED == CREATED;
  }

  /** The bound on a run's records is reached for every number of losses. */
  lemma {:induction false} BoundIsReached(n: nat)
    ensures Exposed(Run(Relapses(n)), 0) && Losses(Relapses(n), 0) == n
    ensures NumAbout(Run(Relapses(n)).disk.journal, 0, FatalError) == n + 1
  {
    if n == 0 {
      CreatedRun();
      ReportingExposes(CREATED, 0, "a");
    } else {
      BoundIsReached(n - 1);
      CrashLeavesReady(Relapses(n - 1), 0);
      ReportingExposes(Relapses(n - 1) + [Crash], 0, "a");
    }
  }

  /** A worker reports a fatal error, and the daemon dies between the journal append and the sentinel. */
  const REPORTED: seq<Action> := CREATED + Reporting(0, "a") + [Crash]

  /** The restarted daemon reconciles, which skips the running run, and marks it orphaned. */
  const SKIPPED: seq<Action> := REPORTED + [BeginScan({0})] + [Visit(0, 0)]
  const ORPHANED: seq<Action> := SKIPPED + Orphaning(0, "b")

  lemma SkippedRun()
    ensures Ready(Run(SKIPPED), 0) && Run(SKIPPED).crashes == 1
    ensures NumAbout(Run(SKIPPED).disk.journal, 0, FatalError) == 1
  {
    ReportedRun();
    RunExtend(REPORTED, BeginScan({0}));
    RunExtend(REPORTED + [BeginScan({0})], Visit(0, 0));
  }

  lemma ReportedRun()
    ensures Ready(Run(REPORTED), 0) && Run(REPORTED).crashes == 1 && Run(REPORTED).disk.runs.Keys == {0}
    ensures Run(REPORTED).scan.NotStarted? && NumAbout(Run(REPORTED).disk.journal, 0, FatalError) == 1
  {
    CreatedRun();
    ReportingAppends(CREATED, 0, "a");
    ReportingExposes(CREATED, 0, "a");
    CrashLeavesReady(CREATED + Reporting(0, "a"), 0);
    RunExtend(CREATED + Reporting(0, "a"), Crash);
  }

  lemma {:induction false} CalmIsYoung(schedule: seq<Action>, r: RunId)
    requires forall a <- schedule :: !a.Crash?
    ensures !Aged(schedule, r) && ReportsInFirstLife(schedule, r)
  {
    if schedule != [] {
      CalmIsYoung(schedule[..|schedule| - 1], r);
    }
  }

  lemma {:induction false} NoMoreReports(h: seq<Action>, more: seq<Action>, r: RunId)
    requires ReportsInFirstLife(h, r) && forall a <- more :: !a.Report?
    ensures ReportsInFirstLife(h + more, r)
    decreases |more|
  {
    if more == [] {
      assert h + more == h;
    } else {
      assert (h + more)[..|h + more| - 1] == h + more[..|more| - 1];
      NoMoreReports(h, more[..|more| - 1], r);
    }
  }

  /** Two records are reached by the daemon itself. */
  lemma FatalTwice()
    ensures ReportsInFirstLife(ORPHANED, 0)
    ensures 0 in Run(ORPHANED).disk.runs && Run(ORPHANED).crashes == 1
    ensures NumAbout(Run(ORPHANED).disk.journal, 0, FatalError) == 2
  {
    CalmIsYoung(CREATED + Reporting(0, "a"), 0);
    var rest := [Crash] + [BeginScan({0})] + [Visit(0, 0)] + Orphaning(0, "b");
    NoMoreReports(CREATED + Reporting(0, "a"), rest, 0);
    assert CREATED + Reporting(0, "a") + rest == ORPHANED;
    SkippedRun();
    OrphaningAppends(SKIPPED, 0, "b");
    NumAboutAppend(Run(SKIPPED).disk.journal, Record(Run(SKIPPED), 0, "b"), 0, FatalError);
  }
}
