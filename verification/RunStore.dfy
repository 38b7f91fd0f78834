/**
 * The run store's operations as the code performs them, one file write after another. The
 * ghost field `schedule` records each write as an action of the store protocol, so the
 * files always are what that schedule makes of them: a crash between any two writes of
 * these methods leaves a state that the protocol's theorems are about.
 */
module RunStoreModel {
  import opened Prelude
  import opened StoreProtocol
  import opened StoreSafety
  import opened StoreDelivery

  class RunStore {
    var journal: seq<Notification>
    var counter: nat
    var runs: map<RunId, RunDir>
    ghost var schedule: seq<Action>

    ghost function State(): Store reads this {
      Run(schedule)
    }

    /** The files are those of the schedule, and `threads` is what is in flight. */
    ghost predicate InFlightAre(threads: map<nat, Thread>)
      reads this
    {
      && State().disk == Disk(journal, counter, runs)
      && State().threads == threads
      && State().lock.None?
    }

    ghost predicate Valid() reads this {
      InFlightAre(map[])
    }

    constructor ()
      ensures Valid() && journal == [] && runs == map[] && State().scan.NotStarted?
    {
      journal, counter, runs := [], 0, map[];
      schedule := [];
    }

    ghost method Act(a: Action)
      modifies this`schedule
      ensures schedule == old(schedule) + [a]
      ensures State() == Next(old(State()), a)
    {
      RunExtend(schedule, a);
      schedule := schedule + [a];
    }

    /** The single operation in flight takes the lock and looks for its sentinel. */
    ghost method TurnToCheck(th: Thread)
      requires th.Notifier? && th.at == Queue && State().threads == map[0 := th] && State().lock.None?
      modifies this`schedule
      ensures State() == if HasSentinel(old(State()).disk, th.run, th.kind)
                         then Finish(old(State()), 0, th).(lock := None)
                         else old(State()).(threads := map[0 := th.(at := ReadSeq)], lock := Some(0))
    {
      ghost var s := State();
      Act(Go(0, ""));
      assert State() == s.(threads := map[0 := th.(at := Check)], lock := Some(0));
      Act(Go(0, ""));
      assert HasSentinel(s.disk, th.run, th.kind) ==> State().threads == Finish(s, 0, th).threads;
    }

    /** It reads the sequence number and appends the record. */
    ghost method TurnToAppend(th: Thread, stamp: string)
      requires th.Notifier? && State().threads == map[0 := th.(at := ReadSeq)]
      modifies this`schedule
      ensures var id := NotificationId(NextSeq(old(State()).disk), stamp);
        State() == old(State()).(
          disk := old(State()).disk.(journal := old(State()).disk.journal + [Notification(id, th.run, th.kind)]),
          threads := map[0 := th.(at := Count(id))])
    {
      ghost var s := State();
      Act(Go(0, ""));
      assert State() == s.(threads := map[0 := th.(at := Append(NextSeq(s.disk)))]);
      Act(Go(0, stamp));
    }

    /** It writes the counter. */
    ghost method TurnToCount(th: Thread, id: NotificationId)
      requires th.Notifier? && State().threads == map[0 := th.(at := Count(id))]
      modifies this`schedule
      ensures State() == old(State()).(disk := old(State()).disk.(counter := id.seqNo),
                                       threads := map[0 := th.(at := Link(id))])
    {
      Act(Go(0, ""));
    }

    /** It writes the sentinel, releases the lock and goes on to what else it has to do. */
    ghost method TurnToLink(th: Thread, id: NotificationId)
      requires th.Notifier? && State().threads == map[0 := th.(at := Link(id))]
      modifies this`schedule
      ensures State() == Finish(WriteSentinel(old(State()), th.run, th.kind, id), 0, th).(lock := None)
    {
      Act(Go(0, ""));
    }

    /** createRun: the new directory becomes visible with its meta.json. */
    method CreateRun(r: RunId)
      requires Valid() && r !in State().used
      modifies this
      ensures Valid() && State().scan == old(State().scan)
      ensures runs == old(runs)[r := RunDir(false, false, None, None)] && journal == old(journal)
    {
      runs := runs[r := RunDir(false, false, None, None)];
      Act(Create(r));
    }

    /**
     * appendTerminalNotificationIfNew and appendFatalErrorNotificationIfNew: under the
     * notification lock, append the record, write the counter, write the sentinel, unless
     * the sentinel is there.
     */
    method AppendNotificationIfNew(r: RunId, k: Kind, stamp: string, ghost th: Thread)
      returns (written: Option<Notification>)
      requires th.Notifier? && th.run == r && th.kind == k && th.at == Queue
      requires InFlightAre(map[0 := th])
      modifies this
      ensures InFlightAre(Finish(old(State()), 0, th).threads)
      ensures State().scan == old(State().scan) && State().crashes == old(State().crashes)
      ensures written.None? <==> old(HasSentinel(Disk(journal, counter, runs), r, k))
      ensures written.None? ==> journal == old(journal) && runs == old(runs)
      ensures written.Some? ==>
        && written.value == Notification(NotificationId(NextSeq(old(Disk(journal, counter, runs))), stamp), r, k)
        && journal == old(journal) + [written.value] && counter == written.value.id.seqNo
        && runs == if r in old(runs) then old(runs)[r := old(runs)[r].WithSentinel(k, written.value.id)]
                   else old(runs)
    {
      TurnToCheck(th);
      if r in runs && runs[r].Sentinel(k).Some? {
        return None;
      }
      var next := Max(counter, LastSeq(journal)) + 1;
      var record := Notification(NotificationId(next, stamp), r, k);
      journal := journal + [record];
      TurnToAppend(th, stamp);
      counter := next;
      TurnToCount(th, record.id);
      if r in runs {
        runs := runs[r := runs[r].WithSentinel(k, record.id)];
      }
      TurnToLink(th, record.id);
      written := Some(record);
    }

    /** A marker reads the meta of a running run under the run lock and writes it back as terminal. */
    ghost method TurnToMark(r: RunId, fatal: bool)
      requires State().threads == map[] && Running(State().disk, r)
      modifies this`schedule
      ensures State() == WriteDir(old(State()), r, old(State()).disk.runs[r].(terminal := true, fatal := fatal)).(
        threads := map[0 := if fatal then Notifier(r, false, FatalError, Some(Terminal), Queue)
                            else Notifier(r, false, Terminal, None, Queue)])
    {
      ghost var s := State();
      Act(StartMark(0, r, fatal));
      assert State() == s.(threads := map[0 := Marker(r, fatal)]);
      Act(Go(0, ""));
    }

    /**
     * markTerminal: the first call on a running run writes its meta, then the fatal_error
     * record when the latest error is fatal and not yet recorded, then the terminal record.
     */
    method MarkTerminal(r: RunId, fatal: bool, fatalStamp: string, stamp: string) returns (marked: bool)
      requires Valid()
      modifies this
      ensures Valid() && State().scan == old(State().scan) && State().crashes == old(State().crashes)
      ensures marked <==> old(Running(Disk(journal, counter, runs), r))
      ensures !marked ==> journal == old(journal) && runs == old(runs)
      ensures marked ==> runs.Keys == old(runs).Keys && runs[r].terminal && runs[r].fatal == fatal
      ensures marked ==> forall q <- runs | q != r :: runs[q] == old(runs)[q]
      ensures marked ==>
        && runs[r].terminalSentinel.Some?
        && var last := Notification(runs[r].terminalSentinel.value, r, Terminal);
           if fatal && old(runs[r].fatalSentinel).None?
           then runs[r].fatalSentinel.Some?
             && journal == old(journal) + [Notification(runs[r].fatalSentinel.value, r, FatalError), last]
           else runs[r].fatalSentinel == old(runs[r].fatalSentinel) && journal == old(journal) + [last]
    {
      if r !in runs || runs[r].terminal {
        return false;
      }
      RunIsSafe(schedule);
      assert DirOk(State().disk, State().used, State().crashes, r);
      TurnToMark(r, fatal);
      runs := runs[r := runs[r].(terminal := true, fatal := fatal)];
      ghost var mark := Notifier(r, false, Terminal, None, Queue);
      if fatal {
        ghost var both := Notifier(r, false, FatalError, Some(Terminal), Queue);
        assert State().threads == map[0 := both];
        var _ := AppendNotificationIfNew(r, FatalError, fatalStamp, both);
      }
      assert State().threads == map[0 := mark];
      var _ := AppendNotificationIfNew(r, Terminal, stamp, mark);
      marked := true;
    }

    /** Reconciliation looks for the sentinel, then for a record, before it queues for the lock. */
    ghost method TurnToSearch(th: Thread)
      requires th.Notifier? && th.at == Probe && State().threads == map[0 := th]
      modifies this`schedule
      ensures State() == if HasSentinel(old(State()).disk, th.run, th.kind) then Finish(old(State()), 0, th)
                         else match FirstAbout(old(State()).disk.journal, th.run, th.kind)
                           case Some(n) => old(State()).(threads := map[0 := th.(at := Relink(n.id))])
                           case None => old(State()).(threads := map[0 := th.(at := Queue)])
    {
      ghost var s := State();
      Act(Go(0, ""));
      if !HasSentinel(s.disk, th.run, th.kind) {
        assert State() == s.(threads := map[0 := th.(at := Search)]);
        Act(Go(0, ""));
      }
    }

    ghost method TurnToRelink(th: Thread, id: NotificationId)
      requires th.Notifier? && State().threads == map[0 := th.(at := Relink(id))]
      modifies this`schedule
      ensures State() == Finish(WriteSentinel(old(State()), th.run, th.kind, id), 0, th)
    {
      Act(Go(0, ""));
    }

    /** The sentinel write for a record that reconciliation found. */
    method LinkFound(r: RunId, k: Kind, id: NotificationId, ghost th: Thread)
      requires th.Notifier? && th.run == r && th.kind == k && th.at == Probe
      requires InFlightAre(map[0 := th.(at := Relink(id))])
      modifies this`runs, this`schedule
      ensures InFlightAre(Finish(old(State()), 0, th).threads)
      ensures State().scan == old(State().scan) && State().crashes == old(State().crashes)
      ensures runs == if r in old(runs) then old(runs)[r := old(runs)[r].WithSentinel(k, id)] else old(runs)
    {
      if r in runs {
        runs := runs[r := runs[r].WithSentinel(k, id)];
      }
      TurnToRelink(th, id);
    }

    /** One kind of one terminal run: relink a record the crash left unlinked, or append the missing one. */
    method ReconcileKind(r: RunId, k: Kind, stamp: string, ghost th: Thread) returns (backfilled: nat)
      requires th.Notifier? && th.run == r && th.kind == k && th.at == Probe
      requires InFlightAre(map[0 := th])
      modifies this
      ensures InFlightAre(Finish(old(State()), 0, th).threads)
      ensures State().scan == old(State().scan) && State().crashes == old(State().crashes)
      ensures old(HasSentinel(Disk(journal, counter, runs), r, k)) ==>
        backfilled == 0 && journal == old(journal) && runs == old(runs)
      ensures old(journal) <= journal && |journal| == |old(journal)| + backfilled
      ensures SameButSentinels(old(runs), runs)
    {
      TurnToSearch(th);
      if r in runs && runs[r].Sentinel(k).Some? {
        return 0;
      }
      var existing := FirstAbout(journal, r, k);
      match existing
      case Some(n) =>
        LinkFound(r, k, n.id, th);
        backfilled := 0;
      case None =>
        var written := AppendNotificationIfNew(r, k, stamp, th.(at := Queue));
        backfilled := 0;
        if written.Some? {
          backfilled := 1;
        }
    }

    /** One directory of the reconciliation scan. */
    method ReconcileRun(r: RunId, ulid: (RunId, Kind) -> string)
      returns (terminal: nat, fatal: nat, skipped: nat)
      requires Valid() && State().scan.Scanning? && r in State().scan.pending
      modifies this
      ensures Valid() && State().scan == Scanning(old(State().scan.pending) - {r})
      ensures SameButSentinels(old(runs), runs)
      ensures old(journal) <= journal && |journal| == |old(journal)| + terminal + fatal
      ensures old(Complete(runs)) ==> terminal + fatal == 0 && runs == old(runs)
      ensures skipped == if old(Running(Disk(journal, counter, runs), r)) then 1 else 0
    {
      terminal, fatal, skipped := 0, 0, 0;
      Act(Visit(0, r));
      if r !in runs {
        return;
      }
      var meta := runs[r];
      if !meta.terminal {
        skipped := 1;
        return;
      }
      ghost var th := Notifier(r, true, Terminal, if meta.fatal then Some(FatalError) else None, Probe);
      assert State().threads == map[0 := th];
      assert old(Complete(runs)) ==> meta.Needs(Terminal) && (meta.fatal ==> meta.Needs(FatalError));
      terminal := ReconcileKind(r, Terminal, ulid(r, Terminal), th);
      if meta.fatal {
        ghost var next := Notifier(r, true, FatalError, None, Probe);
        assert State().threads == map[0 := next];
        fatal := ReconcileKind(r, FatalError, ulid(r, FatalError), next);
      }
    }

    /** reconcileTerminalNotifications, over the directories the store root lists. */
    method ReconcileTerminalNotifications(dirs: seq<RunId>, ulid: (RunId, Kind) -> string)
      returns (backfilledTerminal: nat, backfilledFatal: nat, skipped: nat)
      requires Valid() && State().scan.NotStarted?
      requires forall i, j :: 0 <= i < j < |dirs| ==> dirs[i] != dirs[j]
      requires forall r <- runs :: r in dirs
      modifies this
      ensures Valid() && State().scan == Scanning({})
      ensures SameButSentinels(old(runs), runs)
      ensures old(journal) <= journal && |journal| == |old(journal)| + backfilledTerminal + backfilledFatal
      ensures old(Complete(runs)) ==> backfilledTerminal + backfilledFatal == 0 && runs == old(runs)
      ensures Delivered(Disk(journal, counter, runs))
    {
      backfilledTerminal, backfilledFatal, skipped := 0, 0, 0;
      Act(BeginScan(Elements(dirs)));
      assert dirs[0..] == dirs;
      for i := 0 to |dirs|
        invariant Valid() && State().scan == Scanning(Elements(dirs[i..]))
        invariant SameButSentinels(old(runs), runs)
        invariant old(journal) <= journal && |journal| == |old(journal)| + backfilledTerminal + backfilledFatal
        invariant old(Complete(runs)) ==> backfilledTerminal + backfilledFatal == 0 && runs == old(runs)
      {
        ElementsStep(dirs, i);
        var terminal, fatal, passed := ReconcileRun(dirs[i], ulid);
        backfilledTerminal := backfilledTerminal + terminal;
        backfilledFatal := backfilledFatal + fatal;
        skipped := skipped + passed;
      }
      forall r <- runs ensures DeliveredTo(Disk(journal, counter, runs), r) {
        DeliveredOnceSettled(schedule, r);
      }
    }

    /** pruneNotificationsForRuns: rewrite the journal without the records of the deleted runs. */
    method PruneNotificationsForRuns(deleted: seq<RunId>) returns (pruned: nat)
      requires InFlightAre(map[0 := PruneQueue(Elements(deleted))])
      modifies this
      ensures Valid() && State().scan == old(State().scan) && runs == old(runs)
      ensures journal == Kept(old(journal), Elements(deleted)) && pruned == |old(journal)| - |journal|
    {
      Act(Go(0, ""));
      assert State().threads == map[0 := PruneJournal(Elements(deleted))];
      var kept := Kept(journal, Elements(deleted));
      pruned := |journal| - |kept|;
      journal := kept;
      Act(Go(0, ""));
    }

    method RemoveRunDirs(matched: seq<RunId>)
      requires InFlightAre(map[0 := Remover(Elements(matched), {})])
      requires forall i, j :: 0 <= i < j < |matched| ==> matched[i] != matched[j]
      modifies this
      ensures InFlightAre(map[0 := Remover({}, Elements(matched))]) && State().scan == old(State().scan)
      ensures journal == old(journal) && runs == WithoutAll(old(runs), matched)
    {
      assert matched[0..] == matched && Elements(matched[..0]) == {};
      for i := 0 to |matched|
        invariant InFlightAre(map[0 := Remover(Elements(matched[i..]), Elements(matched[..i]))])
        invariant State().scan == old(State().scan)
        invariant journal == old(journal) && runs == WithoutAll(old(runs), matched[..i])
      {
        ElementsStep(matched, i);
        WithoutAllStep(old(runs), matched, i);
        runs := Without(runs, matched[i]);
        Act(Remove(0, matched[i]));
      }
      assert matched[..|matched|] == matched && Elements(matched[|matched|..]) == {};
    }

    /** The deleting half of pruneTerminalRuns: the matched directories first, then their records. */
    method PruneTerminalRuns(matched: seq<RunId>) returns (pruned: nat)
      requires Valid()
      requires forall i, j :: 0 <= i < j < |matched| ==> matched[i] != matched[j]
      requires forall r <- matched :: r in runs && runs[r].terminal
      modifies this
      ensures Valid() && State().scan == old(State().scan)
      ensures runs == WithoutAll(old(runs), matched)
      ensures journal == Kept(old(journal), Elements(matched)) && pruned == |old(journal)| - |journal|
      ensures forall q: RunId | q !in matched ::
        Filter(journal, (n: Notification) => n.runId == q) == Filter(old(journal), (n: Notification) => n.runId == q)
    {
      Act(StartPrune(0, Elements(matched)));
      assert State().threads == map[0 := Remover(Elements(matched), {})];
      RemoveRunDirs(matched);
      Act(Go(0, ""));
      if |matched| == 0 {
        KeptAll(journal);
        pruned := 0;
      } else {
        assert matched[0] in Elements(matched);
        assert State().threads == map[0 := PruneQueue(Elements(matched))];
        pruned := PruneNotificationsForRuns(matched);
      }
      forall q: RunId | q !in matched ensures
        Filter(journal, (n: Notification) => n.runId == q) == Filter(old(journal), (n: Notification) => n.runId == q)
      {
        PruneKeepsOthers(old(journal), Elements(matched), q);
      }
    }
  }

  function WithoutAll(runs: map<RunId, RunDir>, gone: seq<RunId>): map<RunId, RunDir> {
    map q | q in runs && q !in gone :: runs[q]
  }

  function Elements(dirs: seq<RunId>): set<RunId> {
    set r | r in dirs
  }

  lemma WithoutAllStep(runs: map<RunId, RunDir>, gone: seq<RunId>, i: nat)
    requires i < |gone|
    ensures WithoutAll(runs, gone[..i + 1]) == Without(WithoutAll(runs, gone[..i]), gone[i])
    ensures Elements(gone[..i + 1]) == Elements(gone[..i]) + {gone[i]}
  {
    assert gone[..i + 1] == gone[..i] + [gone[i]];
  }

  lemma ElementsStep(dirs: seq<RunId>, i: nat)
    requires i < |dirs| && forall i, j :: 0 <= i < j < |dirs| ==> dirs[i] != dirs[j]
    ensures dirs[i] in Elements(dirs[i..])
    ensures Elements(dirs[i..]) - {dirs[i]} == Elements(dirs[i + 1..])
  {
    assert dirs[i..] == [dirs[i]] + dirs[i + 1..];
  }

  lemma {:induction false} KeptAll(journal: seq<Notification>)
    ensures Kept(journal, Elements([])) == journal
  {
    if journal != [] {
      KeptAll(journal[..|journal| - 1]);
    }
  }

  /** Reconciliation writes sentinels and changes no meta.json. */
  ghost predicate SameButSentinels(a: map<RunId, RunDir>, b: map<RunId, RunDir>) {
    && a.Keys == b.Keys
    && forall r <- a :: a[r].terminal == b[r].terminal && a[r].fatal == b[r].fatal
  }

  ghost predicate Complete(runs: map<RunId, RunDir>) {
    forall r, k :: r in runs && runs[r].Needs(k) ==> runs[r].Sentinel(k).Some?
  }

  ghost predicate Delivered(d: Disk) {
    forall r <- d.runs :: DeliveredTo(d, r)
  }
}
