/**
 * Completeness of the journal: whatever the interleaving and wherever the crashes fall, a
 * terminal run that no operation is working on and that reconciliation has passed has
 * exactly one terminal record, at least one fatal_error record when its latest error is
 * fatal, and the sentinel of each.
 */
module StoreDelivery {
  import opened Prelude
  import opened StoreProtocol
  import opened StoreSafety

  ghost predicate Pursues(th: Thread, r: RunId, k: Kind) {
    th.Notifier? && th.run == r && (th.kind == k || th.also == Some(k))
  }

  ghost predicate Owed(s: Store, r: RunId, k: Kind) {
    r in s.disk.runs && s.disk.runs[r].Needs(k) && s.disk.runs[r].Sentinel(k).None?
  }

  ghost predicate Pursued(s: Store, r: RunId, k: Kind) {
    || s.scan.NotStarted?
    || r in s.scan.pending
    || exists t :: t in s.threads && Pursues(s.threads[t], r, k)
  }

  /** Every notification still owed has somebody working on it, or reconciliation ahead of it. */
  ghost predicate Covered(s: Store) {
    forall r, k :: Owed(s, r, k) ==> Pursued(s, r, k)
  }

  lemma FinishKeepsPursuit(s: Store, t: nat, th: Thread, r: RunId, k: Kind)
    requires t in s.threads && s.threads[t] == th && th.Notifier? && Pursues(th, r, k)
    requires th.kind != k
    ensures t in Finish(s, t, th).threads && Pursues(Finish(s, t, th).threads[t], r, k)
  {
  }

  /** A step of the pursuer that leaves the notification owed leaves it pursued. */
  lemma PursuerGoes(s: Store, t: nat, stamp: string, r: RunId, k: Kind)
    requires SafeInv(s) && t in s.threads && CanGo(s, s.threads[t]) && Pursues(s.threads[t], r, k)
    requires Owed(GoThread(s, t, s.threads[t], stamp), r, k)
    ensures var s' := GoThread(s, t, s.threads[t], stamp); t in s'.threads && Pursues(s'.threads[t], r, k)
  {
    var th := s.threads[t];
    var s' := GoThread(s, t, th, stamp);
    if th.at.Link? || th.at.Relink? {
      if th.kind != k {
        FinishKeepsPursuit(WriteSentinel(s, r, th.kind, if th.at.Link? then th.at.id else th.at.found), t, th, r, k);
      }
    } else if (th.at.Probe? || th.at.Check?) && HasSentinel(s.disk, r, th.kind) {
      assert th.kind != k;
      FinishKeepsPursuit(s, t, th, r, k);
    }
  }

  lemma GoKeepsOwed(s: Store, t: nat, stamp: string, r: RunId, k: Kind)
    requires SafeInv(s) && t in s.threads && CanGo(s, s.threads[t])
    requires s.threads[t].Marker? ==> s.threads[t].run != r
    requires Owed(GoThread(s, t, s.threads[t], stamp), r, k)
    ensures Owed(s, r, k)
  {
    var th := s.threads[t];
    if th.Notifier? {
      NotifierKeepsOwed(s, t, th, stamp, r, k);
    }
  }

  /** A step of an operation that notifies leaves the directories alone or writes one sentinel. */
  lemma NotifierKeepsOwed(s: Store, t: nat, th: Thread, stamp: string, r: RunId, k: Kind)
    requires t in s.threads && s.threads[t] == th && th.Notifier?
    requires Owed(GoNotifier(s, t, th, stamp), r, k)
    ensures Owed(s, r, k)
  {
    var s' := GoNotifier(s, t, th, stamp);
    assert s'.disk.runs == s.disk.runs
        || (exists id :: s'.disk.runs == WriteSentinel(s, th.run, th.kind, id).disk.runs) by {
      if th.at.Link? {
        assert s'.disk.runs == WriteSentinel(s, th.run, th.kind, th.at.id).disk.runs;
      } else if th.at.Relink? {
        assert s'.disk.runs == WriteSentinel(s, th.run, th.kind, th.at.found).disk.runs;
      }
    }
  }

  lemma GoLeavesOthers(s: Store, t: nat, stamp: string, u: nat)
    requires t in s.threads && u in s.threads && u != t
    ensures var s' := GoThread(s, t, s.threads[t], stamp);
      s'.scan == s.scan && u in s'.threads && s'.threads[u] == s.threads[u]
  {
  }

  lemma GoKeepsPursued(s: Store, t: nat, stamp: string, r: RunId, k: Kind)
    requires SafeInv(s) && Covered(s) && t in s.threads && CanGo(s, s.threads[t])
    requires Owed(GoThread(s, t, s.threads[t], stamp), r, k)
    ensures Pursued(GoThread(s, t, s.threads[t], stamp), r, k)
  {
    var s' := GoThread(s, t, s.threads[t], stamp);
    var th := s.threads[t];
    assert s'.scan == s.scan;
    if th.Marker? && th.run == r {
      assert ThreadOk(s.disk, s.used, s.crashes, th);
      assert Pursues(s'.threads[t], r, k);
    } else {
      GoKeepsOwed(s, t, stamp, r, k);
      if !s.scan.NotStarted? && r !in s.scan.pending {
        var u :| u in s.threads && Pursues(s.threads[u], r, k);
        if u == t {
          PursuerGoes(s, t, stamp, r, k);
        } else {
          GoLeavesOthers(s, t, stamp, u);
        }
      }
    }
  }

  lemma NextKeepsCovered(s: Store, a: Action)
    requires SafeInv(s) && Covered(s)
    ensures Covered(Next(s, a))
  {
    if Enabled(s, a) {
      var s' := Next(s, a);
      forall r, k | Owed(s', r, k) ensures Pursued(s', r, k) {
        if a.Go? {
          GoKeepsPursued(s, a.t, a.stamp, r, k);
        } else if a.Visit? && a.run == r {
          assert Pursues(s'.threads[a.t], r, k);
        } else if !a.Crash? && !a.BeginScan? {
          assert Owed(s, r, k);
          if !s.scan.NotStarted? && r !in s.scan.pending {
            var u :| u in s.threads && Pursues(s.threads[u], r, k);
            assert u in s'.threads && Pursues(s'.threads[u], r, k);
          }
        }
      }
    }
  }

  lemma {:induction false} RunIsCovered(schedule: seq<Action>)
    ensures Covered(Run(schedule))
  {
    if schedule != [] {
      var front := schedule[..|schedule| - 1];
      RunIsCovered(front);
      RunIsSafe(front);
      NextKeepsCovered(Run(front), schedule[|schedule| - 1]);
    }
  }

  // ---------- what a reader of the store may rely on ----------

  /** At every instant of every schedule the journal is in strictly increasing sequence order. */
  lemma JournalInOrder(schedule: seq<Action>)
    ensures Ordered(Run(schedule).disk.journal)
  {
    RunIsSafe(schedule);
  }

  /** The next number handed out is above every number in the journal, even if the counter file lags. */
  lemma NextSeqIsFresh(schedule: seq<Action>)
    ensures forall n <- Run(schedule).disk.journal :: n.id.seqNo < NextSeq(Run(schedule).disk)
  {
    RunIsSafe(schedule);
    LastIsLargest(Run(schedule).disk.journal);
  }

  /** At every instant a run on disk has at most one terminal record, and none while it is running. */
  lemma TerminalAtMostOnce(schedule: seq<Action>, r: RunId)
    requires r in Run(schedule).disk.runs
    ensures NumAbout(Run(schedule).disk.journal, r, Terminal)
         <= (if Run(schedule).disk.runs[r].terminal then 1 else 0)
  {
    RunIsSafe(schedule);
    assert DirOk(Run(schedule).disk, Run(schedule).used, Run(schedule).crashes, r);
  }

  /** Reconciliation has passed the run and no operation is working on it. */
  ghost predicate Settled(s: Store, r: RunId) {
    && s.scan.Scanning? && r !in s.scan.pending
    && forall t <- s.threads :: s.threads[t].Notifier? ==> s.threads[t].run != r
  }

  /** The run has the notifications it calls for, and each sentinel names one of them. */
  ghost predicate DeliveredTo(d: Disk, r: RunId)
    requires r in d.runs
  {
    && (d.runs[r].terminal ==>
          && NumAbout(d.journal, r, Terminal) == 1
          && d.runs[r].terminalSentinel.Some?
          && Notification(d.runs[r].terminalSentinel.value, r, Terminal) in d.journal)
    && (d.runs[r].terminal && d.runs[r].fatal ==>
          && NumAbout(d.journal, r, FatalError) >= 1
          && d.runs[r].fatalSentinel.Some?
          && Notification(d.runs[r].fatalSentinel.value, r, FatalError) in d.journal)
  }

  lemma DeliveredOnceSettled(schedule: seq<Action>, r: RunId)
    requires r in Run(schedule).disk.runs && Settled(Run(schedule), r)
    ensures DeliveredTo(Run(schedule).disk, r)
  {
    var s := Run(schedule);
    RunIsSafe(schedule);
    RunIsCovered(schedule);
    assert DirOk(s.disk, s.used, s.crashes, r);
    assert !Pursued(s, r, Terminal) && !Pursued(s, r, FatalError);
    assert !Owed(s, r, Terminal) && !Owed(s, r, FatalError);
    NumAboutPositive(s.disk.journal, r, Terminal);
    NumAboutPositive(s.disk.journal, r, FatalError);
  }

  /** Pruning some runs leaves the records of every other run, and their order, as they were. */
  lemma {:induction false} PruneKeepsOthers(journal: seq<Notification>, gone: set<RunId>, r: RunId)
    requires r !in gone
    ensures Filter(Kept(journal, gone), (n: Notification) => n.runId == r)
         == Filter(journal, (n: Notification) => n.runId == r)
  {
    if journal != [] {
      var front, last := journal[..|journal| - 1], journal[|journal| - 1];
      PruneKeepsOthers(front, gone, r);
      if last.runId !in gone {
        var kept := Kept(front, gone);
        assert (kept + [last])[..|kept|] == kept;
      }
    }
  }

  // ---------- running on ----------

  lemma RunExtend(schedule: seq<Action>, a: Action)
    ensures Run(schedule + [a]) == Next(Run(schedule), a)
  {
    assert (schedule + [a])[..|schedule|] == schedule;
  }
}
