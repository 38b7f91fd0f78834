/**
 * The notification journal of the run store as a protocol: every file write is one
 * atomic action, every interleaving of the store's asynchronous operations is a
 * schedule of actions, and a crash may fall between any two of them.
 */
module StoreProtocol {
  import opened Prelude

  type RunId = nat

  datatype Kind = Terminal | FatalError

  datatype NotificationId = NotificationId(seqNo: nat, stamp: string)

  datatype Notification = Notification(id: NotificationId, runId: RunId, kind: Kind)

  /** What a run directory holds: the status and fatal flag of meta.json, and the two sentinel files. */
  datatype RunDir = RunDir(terminal: bool, fatal: bool,
                           terminalSentinel: Option<NotificationId>, fatalSentinel: Option<NotificationId>)
  {
    function Sentinel(k: Kind): Option<NotificationId> {
      if k == Terminal then terminalSentinel else fatalSentinel
    }

    function WithSentinel(k: Kind, id: NotificationId): RunDir {
      if k == Terminal then this.(terminalSentinel := Some(id)) else this.(fatalSentinel := Some(id))
    }

    /** The run calls for a notification of kind `k`. */
    predicate Needs(k: Kind) {
      terminal && (k == FatalError ==> fatal)
    }
  }

  /** notifications.jsonl, notifications.seq (a missing counter reads as 0) and the run directories. */
  datatype Disk = Disk(journal: seq<Notification>, counter: nat, runs: map<RunId, RunDir>)

  /** Where an operation that must leave one notification of a kind stands. */
  datatype At =
    | Probe                           // reconciliation: look for the sentinel, without the lock
    | Search                          // reconciliation: look through the journal, without the lock
    | Relink(found: NotificationId)   // reconciliation: write the sentinel of a record found
    | Queue                           // wait for the notification lock
    | Check                           // lock held: look for the sentinel
    | ReadSeq                         // lock held: compute the next sequence number
    | Append(next: nat)               // lock held: append the record
    | Count(id: NotificationId)       // lock held: write the counter
    | Link(id: NotificationId)        // lock held: write the sentinel, release the lock

  datatype Thread =
    | Marker(run: RunId, fatal: bool)
    | Notifier(run: RunId, scan: bool, kind: Kind, also: Option<Kind>, at: At)
    | Remover(matched: set<RunId>, deleted: set<RunId>)
    | PruneQueue(deleted: set<RunId>)
    | PruneJournal(deleted: set<RunId>)

  datatype Scan = NotStarted | Scanning(pending: set<RunId>)

  /**
   * The files, the run ids ever handed out, and the volatile half: the operations in
   * flight, the holder of the notification lock and the progress of reconciliation.
   */
  datatype Store = Store(disk: Disk, used: set<RunId>, crashes: nat,
                         threads: map<nat, Thread>, lock: Option<nat>, scan: Scan)

  datatype Action =
    | Create(run: RunId)
    | SetError(run: RunId, fatal: bool)
    | Report(t: nat, run: RunId)
    | StartMark(t: nat, run: RunId, fatal: bool)
    | BeginScan(dirs: set<RunId>)
    | Visit(t: nat, run: RunId)
    | StartPrune(t: nat, matched: set<RunId>)
    | Remove(t: nat, run: RunId)
    | Go(t: nat, stamp: string)
    | Crash

  const FRESH_STORE: Store := Store(Disk([], 0, map[]), {}, 0, map[], None, NotStarted)

  function LastSeq(journal: seq<Notification>): nat {
    if journal == [] then 0 else journal[|journal| - 1].id.seqNo
  }

  function NextSeq(d: Disk): nat {
    Max(d.counter, LastSeq(d.journal)) + 1
  }

  predicate About(n: Notification, r: RunId, k: Kind) {
    n.runId == r && n.kind == k
  }

  /** The record the one-element listing of a run and a kind returns. */
  function FirstAbout(journal: seq<Notification>, r: RunId, k: Kind): (found: Option<Notification>)
    ensures found.Some? ==> found.value in journal && About(found.value, r, k)
    ensures found.None? ==> forall n <- journal :: !About(n, r, k)
  {
    if journal == [] then None
    else if About(journal[0], r, k) then Some(journal[0])
    else FirstAbout(journal[1..], r, k)
  }

  function Kept(journal: seq<Notification>, gone: set<RunId>): seq<Notification> {
    Filter(journal, (n: Notification) => n.runId !in gone)
  }

  function SetThread(s: Store, t: nat, th: Thread): Store {
    s.(threads := s.threads[t := th])
  }

  function EndThread(s: Store, t: nat): Store {
    s.(threads := map u | u in s.threads && u != t :: s.threads[u])
  }

  function WriteDir(s: Store, r: RunId, d: RunDir): Store {
    s.(disk := s.disk.(runs := s.disk.runs[r := d]))
  }

  /** The sentinel write: a run directory that was pruned meanwhile is not an error. */
  function WriteSentinel(s: Store, r: RunId, k: Kind, id: NotificationId): Store {
    if r in s.disk.runs then WriteDir(s, r, s.disk.runs[r].WithSentinel(k, id)) else s
  }

  predicate HasSentinel(d: Disk, r: RunId, k: Kind) {
    r in d.runs && d.runs[r].Sentinel(k).Some?
  }

  /** The operation is through with its kind: go on with the other kind it has to do, or end. */
  function Finish(s: Store, t: nat, th: Thread): Store
    requires th.Notifier?
  {
    match th.also
    case None => EndThread(s, t)
    case Some(k) => SetThread(s, t, Notifier(th.run, th.scan, k, None, if th.scan then Probe else Queue))
  }

  predicate CanGo(s: Store, th: Thread) {
    match th
    case Notifier(_, _, _, _, Queue) => s.lock.None?
    case PruneQueue(_) => s.lock.None?
    case Remover(matched, _) => matched == {}
    case _ => true
  }

  /** The next atomic step of operation `t`. */
  function GoNotifier(s: Store, t: nat, th: Thread, stamp: string): Store
    requires th.Notifier?
  {
    var r, k := th.run, th.kind;
    match th.at
    case Probe =>
      if HasSentinel(s.disk, r, k) then Finish(s, t, th) else SetThread(s, t, th.(at := Search))
    case Search =>
      (match FirstAbout(s.disk.journal, r, k)
       case Some(n) => SetThread(s, t, th.(at := Relink(n.id)))
       case None => SetThread(s, t, th.(at := Queue)))
    case Relink(id) => Finish(WriteSentinel(s, r, k, id), t, th)
    case Queue => SetThread(s, t, th.(at := Check)).(lock := Some(t))
    case Check =>
      if HasSentinel(s.disk, r, k) then Finish(s, t, th).(lock := None) else SetThread(s, t, th.(at := ReadSeq))
    case ReadSeq => SetThread(s, t, th.(at := Append(NextSeq(s.disk))))
    case Append(next) =>
      var id := NotificationId(next, stamp);
      SetThread(s.(disk := s.disk.(journal := s.disk.journal + [Notification(id, r, k)])), t, th.(at := Count(id)))
    case Count(id) => SetThread(s.(disk := s.disk.(counter := id.seqNo)), t, th.(at := Link(id)))
    case Link(id) => Finish(WriteSentinel(s, r, k, id), t, th).(lock := None)
  }

  function GoThread(s: Store, t: nat, th: Thread, stamp: string): Store {
    match th
    case Marker(r, fatal) =>
      if r in s.disk.runs then
        var s' := WriteDir(s, r, s.disk.runs[r].(terminal := true, fatal := fatal));
        SetThread(s', t, if fatal then Notifier(r, false, FatalError, Some(Terminal), Queue)
                         else Notifier(r, false, Terminal, None, Queue))
      else EndThread(s, t)
    case Notifier(_, _, _, _, _) => GoNotifier(s, t, th, stamp)
    case Remover(_, deleted) => if deleted == {} then EndThread(s, t) else SetThread(s, t, PruneQueue(deleted))
    case PruneQueue(deleted) => SetThread(s, t, PruneJournal(deleted)).(lock := Some(t))
    case PruneJournal(deleted) =>
      EndThread(s.(disk := s.disk.(journal := Kept(s.disk.journal, deleted))), t).(lock := None)
  }

  predicate Running(d: Disk, r: RunId) {
    r in d.runs && !d.runs[r].terminal
  }

  /** Some markTerminal has read this run's meta under the run lock and not yet written it back. */
  predicate Marking(s: Store, r: RunId) {
    exists t :: t in s.threads && s.threads[t].Marker? && s.threads[t].run == r
  }

  predicate Enabled(s: Store, a: Action) {
    match a
    case Create(r) => r !in s.used
    case SetError(r, _) => Running(s.disk, r) && !Marking(s, r)
    case Report(t, r) => t !in s.threads && Running(s.disk, r)
    case StartMark(t, r, _) => t !in s.threads && Running(s.disk, r) && !Marking(s, r)
    case BeginScan(dirs) => s.scan.NotStarted? && s.disk.runs.Keys <= dirs
    case Visit(t, r) => t !in s.threads && s.scan.Scanning? && r in s.scan.pending
    case StartPrune(t, matched) =>
      t !in s.threads && matched <= s.disk.runs.Keys && forall r <- matched :: s.disk.runs[r].terminal
    case Remove(t, r) => t in s.threads && s.threads[t].Remover? && r in s.threads[t].matched
    case Go(t, _) => t in s.threads && CanGo(s, s.threads[t])
    case Crash => true
  }

  function Without(runs: map<RunId, RunDir>, r: RunId): map<RunId, RunDir> {
    map q | q in runs && q != r :: runs[q]
  }

  function Do(s: Store, a: Action): Store
    requires Enabled(s, a)
  {
    match a
    case Create(r) => WriteDir(s, r, RunDir(false, false, None, None)).(used := s.used + {r})
    case SetError(r, fatal) => WriteDir(s, r, s.disk.runs[r].(fatal := fatal))
    case Report(t, r) => SetThread(s, t, Notifier(r, false, FatalError, None, Queue))
    case StartMark(t, r, fatal) => SetThread(s, t, Marker(r, fatal))
    case BeginScan(dirs) => s.(scan := Scanning(dirs))
    case Visit(t, r) =>
      var s' := s.(scan := Scanning(s.scan.pending - {r}));
      if r in s.disk.runs && s.disk.runs[r].terminal then
        SetThread(s', t, Notifier(r, true, Terminal, if s.disk.runs[r].fatal then Some(FatalError) else None, Probe))
      else s'
    case StartPrune(t, matched) => SetThread(s, t, Remover(matched, {}))
    case Remove(t, r) =>
      var th := s.threads[t];
      SetThread(s.(disk := s.disk.(runs := Without(s.disk.runs, r))), t, Remover(th.matched - {r}, th.deleted + {r}))
    case Go(t, stamp) => GoThread(s, t, s.threads[t], stamp)
    case Crash => s.(threads := map[], lock := None, scan := NotStarted, crashes := s.crashes + 1)
  }

  /** A schedule: actions that are not enabled when their turn comes do nothing. */
  function Next(s: Store, a: Action): Store {
    if Enabled(s, a) then Do(s, a) else s
  }

  function Run(schedule: seq<Action>): Store {
    if schedule == [] then FRESH_STORE
    else Next(Run(schedule[..|schedule| - 1]), schedule[|schedule| - 1])
  }
}
