/**
 * The engine together with what it announces: the registry entry and the owned runs, which
 * change at any time, and recomputations that read them at one moment and finish at another, in
 * any order. Once nothing is outstanding for a slot, its last announcement is the final status
 * of what the recomputation that finished last had read; that is the current status unless it
 * had read before another one that finished earlier.
 */
module StatusSnapshots {
  import opened Prelude
  import opened StatusMachine

  /** A registry entry that was replaced or removed while a recomputation held it, and the changes seen by then. */
  datatype Held = Held(sup: Supervisor, at: nat)

  /** The owned runs as one scan found them, and the changes seen by then. */
  datatype Snapshot = Snapshot(runs: OwnedRuns, at: nat)

  /** What a suspended recomputation has: the live entry, or one no longer in the registry, and its scan. */
  datatype Reading = Reading(held: Option<Held>, snap: Option<Snapshot>)

  /** What a recomputation finished with, and the changes that took into account. */
  datatype Basis = Basis(sup: Supervisor, runs: OwnedRuns, at: nat)

  /**
   * `owed` says that something changed whose scheduleRecompute call is still to come. By slot,
   * `finished` is what the recomputation that finished last had read, `newest` the most changes
   * that one that ended had taken into account, or could have, if its scan failed, and `failed`
   * says of which slots the scan of the recomputation that ended last failed.
   */
  datatype World = World(engine: EngineState, registered: bool, sup: Supervisor, runs: OwnedRuns, changes: nat,
                         owed: bool, readings: seq<Reading>, finished: map<nat, Basis>, newest: map<nat, nat>,
                         failed: set<nat>, now: nat)

  datatype Step =
    | Register(s: Supervisor)
    | Signal(s: Supervisor)
    | Unregister
    | Own(runs: OwnedRuns)
    | Notify
    | Dismiss              // forget
    | Expire(h: nat)       // a timer fires
    | Scan(j: nat)
    | Fail(j: nat)         // the scan threw
    | Conclude(j: nat, lag: nat)
    | Wait(delay: nat)

  const NO_SUPERVISOR: Supervisor := Supervisor(false, false, false, None)
  const NEW_WORLD: World :=
    World(NEW_ENGINE, false, NO_SUPERVISOR, OwnedRuns(0, 0), 0, false, [], map[], map[], {}, 0)

  predicate CanStep(w: World, a: Step) {
    match a
    case Signal(_) => w.registered
    case Notify => Enabled(w.engine, Schedule(w.now))
    case Dismiss => Enabled(w.engine, Forget)
    case Expire(h) => Enabled(w.engine, Fire(h, w.registered)) && w.engine.timers[h].due <= w.now
    case Scan(j) => j < |w.readings| && w.readings[j].snap.None?
    case Fail(j) => j < |w.readings| && j < |w.engine.suspended| && w.readings[j].snap.None?
    case Conclude(j, _) =>
      && j < |w.readings| && w.readings[j].snap.Some?
      && j < |w.engine.suspended| && w.engine.suspended[j] in w.engine.slots
    case _ => true
  }

  /** Recomputations under way go on with the entry they have. */
  function Detached(w: World): seq<Reading> {
    seq(|w.readings|, k requires 0 <= k < |w.readings| =>
      if w.readings[k].held.None? then w.readings[k].(held := Some(Held(w.sup, w.changes))) else w.readings[k])
  }

  function BasisOf(w: World, r: Reading): Basis
    requires r.snap.Some?
  {
    match r.held
    case Some(entry) =>
      Basis(entry.sup, r.snap.value.runs, if entry.at < r.snap.value.at then entry.at else r.snap.value.at)
    case None => Basis(w.sup, r.snap.value.runs, r.snap.value.at)
  }

  function Newest(w: World, i: nat): nat {
    if i in w.newest then w.newest[i] else 0
  }

  function Concluded(w: World, j: nat, lag: nat): World
    requires CanStep(w, Conclude(j, lag))
  {
    var i, b := w.engine.suspended[j], BasisOf(w, w.readings[j]);
    w.(engine := Finished(w.engine, j, b.sup, b.runs, w.now, w.now + lag),
       readings := w.readings[..j] + w.readings[j + 1..],
       finished := w.finished[i := b], newest := w.newest[i := Max(Newest(w, i), b.at)],
       failed := w.failed - {i})
  }

  function Failed(w: World, j: nat): World
    requires CanStep(w, Fail(j))
  {
    var i := w.engine.suspended[j];
    w.(engine := Abandoned(w.engine, j), readings := w.readings[..j] + w.readings[j + 1..],
       newest := w.newest[i := w.changes], failed := w.failed + {i})
  }

  function Do(w: World, a: Step): World
    requires CanStep(w, a)
  {
    match a
    case Register(s) =>
      w.(registered := true, sup := s, changes := w.changes + 1, owed := true, readings := Detached(w))
    case Signal(s) => w.(sup := s, owed := true)
    case Unregister => w.(registered := false, readings := Detached(w))
    case Own(runs) => w.(runs := runs, changes := w.changes + 1, owed := true)
    case Notify => w.(engine := Scheduled(w.engine, w.now), owed := false)
    case Dismiss => w.(engine := Forgotten(w.engine))
    case Expire(h) =>
      w.(engine := Fired(w.engine, h, w.registered),
         readings := if w.registered then w.readings + [Reading(None, None)] else w.readings)
    case Scan(j) => w.(readings := w.readings[j := w.readings[j].(snap := Some(Snapshot(w.runs, w.changes)))])
    case Fail(j) => Failed(w, j)
    case Conclude(j, lag) => Concluded(w, j, lag)
    case Wait(delay) => w.(now := w.now + delay)
  }

  function Then(w: World, a: Step): World {
    if CanStep(w, a) then Do(w, a) else w
  }

  function After(steps: seq<Step>): World {
    if steps == [] then NEW_WORLD else Then(After(steps[..|steps| - 1]), steps[|steps| - 1])
  }

  /** The status once 600 s have passed without another event. */
  function Final(s: Supervisor, runs: OwnedRuns): Status {
    if s.sessionEnded || (s.lastEvent.Some? && !Suppressed(runs)) then Stale else LiveState(s, runs)
  }

  function FinalKey(s: Supervisor, runs: OwnedRuns): Key {
    Key(Final(s, runs), runs.running, runs.failedUnacked)
  }

  lemma FinalIsLimit(s: Supervisor, runs: OwnedRuns, now: nat)
    requires s.lastEvent.Some? ==> now >= s.lastEvent.value + STALE_AFTER_MS
    ensures StatusAt(s, runs, now) == Final(s, runs)
  {
  }

  /** Something will still happen for the slot: a call is owed, or it has a timer or a recomputation. */
  ghost predicate Busy(w: World, i: nat)
    requires i in w.engine.slots
  {
    || w.owed || i in w.engine.suspended
    || w.engine.slots[i].pendingTimer.Some? || w.engine.slots[i].staleTimer.Some?
  }

  // ---------- the invariant ----------

  ghost predicate ReadingOk(w: World, r: Reading) {
    && (r.snap.Some? ==> r.snap.value.at <= w.changes)
    && (r.snap.Some? && r.snap.value.at == w.changes ==> r.snap.value.runs == w.runs)
    && (r.held.Some? ==> r.held.value.at <= w.changes && (w.registered ==> r.held.value.at < w.changes))
  }

  ghost predicate FinishedOk(w: World, i: nat)
    requires i in w.finished
  {
    && i in w.newest && w.finished[i].at <= w.newest[i] <= w.changes
    && (w.finished[i].at == w.changes ==> w.finished[i].runs == w.runs)
  }

  /** The recomputation, if it scans now at the latest, will have taken every change into account. */
  ghost predicate UpToDate(w: World, r: Reading) {
    r.held.None? && (r.snap.Some? ==> r.snap.value.at == w.changes)
  }

  ghost predicate Working(w: World, i: nat) {
    exists k :: 0 <= k < |w.readings| && k < |w.engine.suspended| && w.engine.suspended[k] == i
                && UpToDate(w, w.readings[k])
  }

  /** The last change has been taken into account, or will be. */
  ghost predicate Covered(w: World, i: nat)
    requires i in w.engine.slots
  {
    w.owed || w.engine.slots[i].pendingTimer.Some? || Working(w, i) || Newest(w, i) == w.changes
  }

  /** At rest, unless the last scan failed, the slot has announced the final status of what was read. */
  ghost predicate RestOk(w: World, i: nat)
    requires i in w.engine.slots
  {
    !Busy(w, i) && i !in w.failed ==>
      && i in w.finished
      && w.engine.slots[i].lastKey == Some(FinalKey(w.finished[i].sup, w.finished[i].runs))
      && (w.finished[i].at == w.changes ==> w.finished[i].sup == w.sup)
  }

  ghost predicate WorldOk(w: World) {
    && Inv(w.engine) && |w.readings| == |w.engine.suspended|
    && (forall k :: 0 <= k < |w.readings| ==> ReadingOk(w, w.readings[k]))
    && (forall i <- w.finished :: FinishedOk(w, i))
    && (forall i <- w.newest :: w.newest[i] <= w.changes)
    && (w.registered && w.engine.current.Some? ==>
          Covered(w, w.engine.current.value) && RestOk(w, w.engine.current.value))
  }

  lemma ChangeKeepsOk(w: World, a: Step)
    requires WorldOk(w) && CanStep(w, a) && (a.Register? || a.Signal? || a.Unregister? || a.Own? || a.Wait?)
    ensures WorldOk(Do(w, a))
  {
    var w' := Do(w, a);
    forall k | 0 <= k < |w'.readings| ensures ReadingOk(w', w'.readings[k]) {
      assert ReadingOk(w, w.readings[k]);
    }
    forall i <- w'.finished ensures FinishedOk(w', i) {
      assert FinishedOk(w, i);
    }
    if a.Wait? && w.registered && w.engine.current.Some? && Working(w, w.engine.current.value) {
      var i := w.engine.current.value;
      var k :| 0 <= k < |w.readings| && k < |w.engine.suspended| && w.engine.suspended[k] == i
               && UpToDate(w, w.readings[k]);
      assert UpToDate(w', w'.readings[k]);
    }
  }

  lemma NotifyKeepsOk(w: World)
    requires WorldOk(w)
    ensures WorldOk(Then(w, Notify))
  {
    ScheduledInv(w.engine, w.now);
    var w' := Then(w, Notify);
    forall k | 0 <= k < |w'.readings| ensures ReadingOk(w', w'.readings[k]) {
      assert ReadingOk(w, w.readings[k]);
    }
    forall i <- w'.finished ensures FinishedOk(w', i) {
      assert FinishedOk(w, i);
    }
  }

  lemma DismissKeepsOk(w: World)
    requires WorldOk(w)
    ensures WorldOk(Then(w, Dismiss))
  {
    ForgottenInv(w.engine);
    var w' := Then(w, Dismiss);
    forall k | 0 <= k < |w'.readings| ensures ReadingOk(w', w'.readings[k]) {
      assert ReadingOk(w, w.readings[k]);
    }
    forall i <- w'.finished ensures FinishedOk(w', i) {
      assert FinishedOk(w, i);
    }
  }

  lemma ExpireKeepsOk(w: World, h: nat)
    requires WorldOk(w) && CanStep(w, Expire(h))
    ensures WorldOk(Do(w, Expire(h)))
  {
    FiredInv(w.engine, h, w.registered);
    var w' := Do(w, Expire(h));
    forall k | 0 <= k < |w'.readings| ensures ReadingOk(w', w'.readings[k]) {
      assert k < |w.readings| ==> ReadingOk(w, w.readings[k]);
    }
    forall i <- w'.finished ensures FinishedOk(w', i) {
      assert FinishedOk(w, i);
    }
    if w.registered && w.engine.current.Some? {
      ExpireCovers(w, h);
    }
  }

  /** A debounce timer that fires hands its work to a recomputation; any timer that fires leaves the slot busy. */
  lemma ExpireCovers(w: World, h: nat)
    requires WorldOk(w) && CanStep(w, Expire(h)) && w.registered && w.engine.current.Some?
    requires Inv(Do(w, Expire(h)).engine)
    ensures var (w', i) := (Do(w, Expire(h)), w.engine.current.value); Covered(w', i) && RestOk(w', i)
  {
    var w', i := Do(w, Expire(h)), w.engine.current.value;
    var last := |w.readings|;
    assert TimerOk(w.engine.slots, h, w.engine.timers[h]);
    assert w'.readings[last] == Reading(None, None) && w'.engine.suspended[last] == w.engine.timers[h].slot;
    assert UpToDate(w', w'.readings[last]);
    if Working(w, i) {
      var k :| 0 <= k < |w.readings| && k < |w.engine.suspended| && w.engine.suspended[k] == i
               && UpToDate(w, w.readings[k]);
      assert w'.engine.suspended[k] == i && UpToDate(w', w'.readings[k]);
    }
  }

  lemma ScanKeepsOk(w: World, j: nat)
    requires WorldOk(w) && CanStep(w, Scan(j))
    ensures WorldOk(Do(w, Scan(j)))
  {
    var w' := Do(w, Scan(j));
    forall k | 0 <= k < |w'.readings| ensures ReadingOk(w', w'.readings[k]) {
      assert ReadingOk(w, w.readings[k]);
    }
    forall i <- w'.finished ensures FinishedOk(w', i) {
      assert FinishedOk(w, i);
    }
    if w.registered && w.engine.current.Some? && Working(w, w.engine.current.value) {
      var i := w.engine.current.value;
      var k :| 0 <= k < |w.readings| && k < |w.engine.suspended| && w.engine.suspended[k] == i
               && UpToDate(w, w.readings[k]);
      assert UpToDate(w', w'.readings[k]);
    }
  }

  /** What a recomputation leaves when it arms no stale timer is final. */
  lemma NoTimerIsFinal(s: Supervisor, runs: OwnedRuns, now: nat)
    requires !Arms(s, StatusAt(s, runs, now), runs)
    ensures KeyAt(s, runs, now) == FinalKey(s, runs)
  {
  }

  /** Recomputation `j`, on slot `i`, has ended with a basis. */
  ghost predicate Ends(w: World, w': World, j: nat, i: nat, b: Basis) {
    && j < |w.readings| == |w.engine.suspended| && w.engine.suspended[j] == i
    && w.readings[j].snap.Some? && b == BasisOf(w, w.readings[j])
    && w' == w.(engine := w'.engine, readings := w.readings[..j] + w.readings[j + 1..],
                finished := w.finished[i := b], newest := w.newest[i := Max(Newest(w, i), b.at)],
                failed := w.failed - {i})
    && w'.engine.suspended == w.engine.suspended[..j] + w.engine.suspended[j + 1..]
    && w'.engine.current == w.engine.current && i in w.engine.slots && i in w'.engine.slots
    && w'.engine.slots[i].lastKey == Some(KeyAt(b.sup, b.runs, w.now))
    && w'.engine.slots[i].pendingTimer == w.engine.slots[i].pendingTimer
    && (w'.engine.slots[i].staleTimer.Some? <==> Arms(b.sup, StatusAt(b.sup, b.runs, w.now), b.runs))
    && forall q <- w.engine.slots | q != i :: q in w'.engine.slots && w'.engine.slots[q] == w.engine.slots[q]
  }

  lemma ConcludeEnds(w: World, j: nat, lag: nat)
    requires |w.readings| == |w.engine.suspended| && CanStep(w, Conclude(j, lag))
    ensures Ends(w, Concluded(w, j, lag), j, w.engine.suspended[j], BasisOf(w, w.readings[j]))
  {
    var b := BasisOf(w, w.readings[j]);
    FinishedSlot(w.engine, j, b.sup, b.runs, w.now, w.now + lag);
  }

  /** A recomputation other than `j` is still there. */
  lemma StillThere<T>(all: seq<T>, j: nat, k: nat) returns (k': nat)
    requires j < |all| && k < |all| && k != j
    ensures k' == (if k < j then k else k - 1) < |all| - 1 && (all[..j] + all[j + 1..])[k'] == all[k]
  {
    k' := if k < j then k else k - 1;
  }

  lemma EndKeepsReadings(w: World, w': World, j: nat, i: nat, b: Basis)
    requires Ends(w, w', j, i, b) && forall k :: 0 <= k < |w.readings| ==> ReadingOk(w, w.readings[k])
    ensures forall k :: 0 <= k < |w'.readings| ==> ReadingOk(w', w'.readings[k])
  {
    forall k | 0 <= k < |w'.readings| ensures ReadingOk(w', w'.readings[k]) {
      assert w'.readings[k] == w.readings[if k < j then k else k + 1];
    }
  }

  lemma EndKeepsFinished(w: World, w': World, j: nat, i: nat, b: Basis)
    requires Ends(w, w', j, i, b) && ReadingOk(w, w.readings[j])
    requires forall q <- w.finished :: FinishedOk(w, q)
    requires forall q <- w.newest :: w.newest[q] <= w.changes
    ensures forall q <- w'.finished :: FinishedOk(w', q)
    ensures forall q <- w'.newest :: w'.newest[q] <= w'.changes
  {
    forall q <- w'.finished ensures FinishedOk(w', q) {
      assert q != i ==> FinishedOk(w, q);
    }
  }

  lemma EndRests(w: World, w': World, j: nat, i: nat, b: Basis, q: nat)
    requires Ends(w, w', j, i, b) && ReadingOk(w, w.readings[j]) && w.registered
    requires q in w.engine.slots && RestOk(w, q)
    ensures q in w'.engine.slots && RestOk(w', q)
  {
    if q != i {
      if q in w.engine.suspended {
        var k: nat :| k < |w.engine.suspended| && w.engine.suspended[k] == q;
        var k' := StillThere(w.engine.suspended, j, k);
        assert w'.engine.suspended[k'] == q;
      }
    } else if !Busy(w', i) {
      NoTimerIsFinal(b.sup, b.runs, w.now);
    }
  }

  lemma EndCovers(w: World, w': World, j: nat, i: nat, b: Basis, q: nat)
    requires Ends(w, w', j, i, b) && ReadingOk(w, w.readings[j])
    requires forall p <- w.newest :: w.newest[p] <= w.changes
    requires q in w.engine.slots && Covered(w, q)
    ensures q in w'.engine.slots && Covered(w', q)
  {
    if Working(w, q) {
      var k: nat :| k < |w.readings| && k < |w.engine.suspended| && w.engine.suspended[k] == q
                    && UpToDate(w, w.readings[k]);
      if k != j {
        var k' := StillThere(w.engine.suspended, j, k);
        var k'' := StillThere(w.readings, j, k);
        assert w'.engine.suspended[k'] == q && w'.readings[k'] == w.readings[k] && UpToDate(w', w'.readings[k']);
      }
    }
  }

  lemma EndKeepsOk(w: World, w': World, j: nat, i: nat, b: Basis)
    requires WorldOk(w) && Ends(w, w', j, i, b) && Inv(w'.engine)
    ensures WorldOk(w')
  {
    EndKeepsReadings(w, w', j, i, b);
    EndKeepsFinished(w, w', j, i, b);
    if w.registered && w.engine.current.Some? {
      EndRests(w, w', j, i, b, w.engine.current.value);
      EndCovers(w, w', j, i, b, w.engine.current.value);
    }
  }

  lemma ConcludedEngine(w: World, j: nat, lag: nat)
    requires CanStep(w, Conclude(j, lag))
    ensures var b := BasisOf(w, w.readings[j]);
      Concluded(w, j, lag).engine == Finished(w.engine, j, b.sup, b.runs, w.now, w.now + lag)
  {
  }

  lemma FinishedIsInv(e: EngineState, j: nat, b: Basis, computed: nat, armed: nat, e': EngineState)
    requires Inv(e) && j < |e.suspended| && e.suspended[j] in e.slots
    requires e' == Finished(e, j, b.sup, b.runs, computed, armed)
    ensures Inv(e')
  {
    FinishedInv(e, j, b.sup, b.runs, computed, armed);
  }

  lemma ConcludeInv(w: World, j: nat, lag: nat)
    requires Inv(w.engine) && CanStep(w, Conclude(j, lag))
    ensures Inv(Concluded(w, j, lag).engine)
  {
    ConcludedEngine(w, j, lag);
    FinishedIsInv(w.engine, j, BasisOf(w, w.readings[j]), w.now, w.now + lag, Concluded(w, j, lag).engine);
  }

  lemma ConcludeKeepsOk(w: World, j: nat, lag: nat)
    requires WorldOk(w) && CanStep(w, Conclude(j, lag))
    ensures WorldOk(Concluded(w, j, lag))
  {
    ConcludeEnds(w, j, lag);
    ConcludeInv(w, j, lag);
    EndKeepsOk(w, Concluded(w, j, lag), j, w.engine.suspended[j], BasisOf(w, w.readings[j]));
  }

  /** A recomputation whose scan fails only leaves. */
  lemma FailKeepsOk(w: World, j: nat)
    requires WorldOk(w) && CanStep(w, Fail(j))
    ensures WorldOk(Failed(w, j))
  {
    var w' := Failed(w, j);
    forall k | 0 <= k < |w'.readings| ensures ReadingOk(w', w'.readings[k]) {
      assert w'.readings[k] == w.readings[if k < j then k else k + 1];
    }
    forall q <- w'.finished ensures FinishedOk(w', q) {
      assert FinishedOk(w, q);
    }
    if w.registered && w.engine.current.Some? && w.engine.current.value != w.engine.suspended[j] {
      FailLeavesOthers(w, j, w.engine.current.value);
    }
  }

  lemma FailLeavesOthers(w: World, j: nat, q: nat)
    requires |w.readings| == |w.engine.suspended| && CanStep(w, Fail(j)) && q != w.engine.suspended[j]
    requires q in w.engine.slots && Covered(w, q) && RestOk(w, q)
    ensures Covered(Failed(w, j), q) && RestOk(Failed(w, j), q)
  {
    var w' := Failed(w, j);
    if q in w.engine.suspended {
      var k: nat :| k < |w.engine.suspended| && w.engine.suspended[k] == q;
      var k' := StillThere(w.engine.suspended, j, k);
      assert w'.engine.suspended[k'] == q;
    }
    if Working(w, q) {
      var k: nat :| k < |w.readings| && k < |w.engine.suspended| && w.engine.suspended[k] == q
                    && UpToDate(w, w.readings[k]);
      var k' := StillThere(w.engine.suspended, j, k);
      var k'' := StillThere(w.readings, j, k);
      assert w'.engine.suspended[k'] == q && w'.readings[k'] == w.readings[k] && UpToDate(w', w'.readings[k']);
    }
  }

  lemma StepKeepsOk(w: World, a: Step)
    requires WorldOk(w)
    ensures WorldOk(Then(w, a))
  {
    if CanStep(w, a) {
      match a {
        case Notify => NotifyKeepsOk(w);
        case Dismiss => DismissKeepsOk(w);
        case Expire(h) => ExpireKeepsOk(w, h);
        case Scan(j) => ScanKeepsOk(w, j);
        case Fail(j) => FailKeepsOk(w, j);
        case Conclude(j, lag) => ConcludeKeepsOk(w, j, lag);
        case _ => ChangeKeepsOk(w, a);
      }
    }
  }

  lemma {:induction false} RunOk(steps: seq<Step>)
    ensures WorldOk(After(steps))
  {
    if steps != [] {
      var front := steps[..|steps| - 1];
      RunOk(front);
      StepKeepsOk(After(front), steps[|steps| - 1]);
    }
  }

  // ---------- at rest ----------

  /** The orchestrator is registered, and nothing more will happen for its slot unless something changes. */
  ghost predicate AtRest(w: World, i: nat) {
    w.registered && w.engine.current == Some(i) && i in w.engine.slots && !Busy(w, i)
  }

  /** The recomputation that finished last had read no earlier than any other that ended. */
  ghost predicate InOrder(w: World, i: nat) {
    i in w.finished && w.finished[i].at == Newest(w, i)
  }

  /**
   * Over every interleaving of changes, scheduling, timers and recomputations that scan and
   * finish in any order: at rest, unless the last scan failed, the last announcement is the
   * final status of what the recomputation that finished last had read, and that is what holds
   * now if it was not overtaken by one that had read later.
   */
  lemma RestAnnounces(steps: seq<Step>, i: nat)
    requires AtRest(After(steps), i) && i !in After(steps).failed
    ensures var w := After(steps);
      && i in w.finished
      && w.engine.slots[i].lastKey == Some(FinalKey(w.finished[i].sup, w.finished[i].runs))
      && Shows(FinalKey(w.finished[i].sup, w.finished[i].runs).state, w.finished[i].sup, w.finished[i].runs,
               w.finished[i].sup.lastEvent.Some?)
      && (InOrder(w, i) ==> w.finished[i].sup == w.sup && w.finished[i].runs == w.runs)
  {
    RunOk(steps);
    var w := After(steps);
    assert Covered(w, i) && RestOk(w, i) && FinishedOk(w, i);
    assert Working(w, i) ==> i in w.engine.suspended;
  }

  /** The last announcement of the slot. */
  function Announcement(w: World, i: nat): Option<Status> {
    if i in w.engine.slots then StateOf(w.engine.slots[i].lastKey) else None
  }

  /**
   * So a silent supervisor, which had an event and whose session has not ended, with nothing
   * owned, has been announced `Stale` at rest exactly when the recomputation that finished last
   * had found nothing owned, or an entry that was since replaced and had ended; and in
   * particular when it was not overtaken.
   */
  lemma SilentIsStaleIff(steps: seq<Step>, i: nat)
    requires AtRest(After(steps), i) && i !in After(steps).failed
    ensures var w := After(steps);
      && i in w.finished
      && (Announcement(w, i) == Some(Stale) <==>
            var b := w.finished[i]; b.sup.sessionEnded || (b.sup.lastEvent.Some? && !Suppressed(b.runs)))
      && (InOrder(w, i) && w.sup.lastEvent.Some? && !Suppressed(w.runs) ==> Announcement(w, i) == Some(Stale))
  {
    RestAnnounces(steps, i);
  }

  // ---------- silent, and not announced stale ----------

  lemma AfterExtend(steps: seq<Step>, a: Step)
    ensures After(steps + [a]) == Then(After(steps), a)
  {
    assert (steps + [a])[..|steps|] == steps;
  }

  lemma Moves(steps: seq<Step>, a: Step, w: World, w': World)
    requires After(steps) == w && Then(w, a) == w'
    ensures After(steps + [a]) == w'
  {
    AfterExtend(steps, a);
  }

  const SUPERVISOR: Supervisor := Supervisor(false, false, false, Some(0))
  const ONE_RUNNING: OwnedRuns := OwnedRuns(1, 0)
  const NONE_OWNED: OwnedRuns := OwnedRuns(0, 0)

  const IDLE_KEY: Key := Key(Idle, 0, 0)
  const BUSY_KEY: Key := Key(InProgress, 1, 0)

  // The engine's states, from the first debounce timer on.
  const DEBOUNCED: EngineState :=
    EngineState(Some(0), map[0 := Slot(None, Some(0), None, [])], map[0 := Timer(Pending, 0, 250)], 1, 1, [])
  const STARTED: EngineState := EngineState(Some(0), map[0 := EMPTY_SLOT], map[], 1, 1, [0])
  const AGAIN: EngineState :=
    EngineState(Some(0), map[0 := Slot(None, Some(1), None, [])], map[1 := Timer(Pending, 0, 500)], 2, 1, [0])
  const BOTH: EngineState := EngineState(Some(0), map[0 := EMPTY_SLOT], map[], 2, 1, [0, 0])
  const ARMED: EngineState :=
    EngineState(Some(0), map[0 := Slot(Some(IDLE_KEY), None, Some(2), [Payload(IDLE_KEY, None)])],
                map[2 := Timer(StaleTick, 0, STALE_AFTER_MS)], 3, 1, [0])
  const SETTLED: EngineState :=
    EngineState(Some(0), map[0 := Slot(Some(BUSY_KEY), None, None,
                                       [Payload(IDLE_KEY, None), Payload(BUSY_KEY, Some(Idle))])],
                map[], 3, 1, [])

  lemma DebounceSteps()
    ensures Scheduled(NEW_ENGINE, 0) == DEBOUNCED && Fired(DEBOUNCED, 0, true) == STARTED
  {
    assert Fired(DEBOUNCED, 0, true).timers == map[];
  }

  lemma SecondDebounceSteps()
    ensures Scheduled(STARTED, 250) == AGAIN && Fired(AGAIN, 1, true) == BOTH
  {
    assert Fired(AGAIN, 1, true).timers == map[];
  }

  lemma SecondFinishes()
    ensures Finished(BOTH, 1, SUPERVISOR, NONE_OWNED, 500, 500) == ARMED
  {
    assert Abandoned(BOTH, 1) == BOTH.(suspended := [0]);
    assert Cancelled(Abandoned(BOTH, 1), 0, StaleTick) == BOTH.(suspended := [0]);
    var e := StaleReset(Abandoned(BOTH, 1), 0, SUPERVISOR, Idle, NONE_OWNED, 500);
    assert e == EngineState(Some(0), map[0 := Slot(None, None, Some(2), [])],
                            map[2 := Timer(StaleTick, 0, STALE_AFTER_MS)], 3, 1, [0]);
    assert Announced(e.slots[0], IDLE_KEY).sent == [Payload(IDLE_KEY, None)];
  }

  lemma FirstFinishes()
    ensures Finished(ARMED, 0, SUPERVISOR, ONE_RUNNING, 500, 500) == SETTLED
  {
    var armed := ARMED.slots[0];
    assert Abandoned(ARMED, 0) == ARMED.(suspended := []);
    var e := Cancelled(Abandoned(ARMED, 0), 0, StaleTick);
    assert e == EngineState(Some(0), map[0 := armed.(staleTimer := None)], map[], 3, 1, []);
    assert StaleReset(Abandoned(ARMED, 0), 0, SUPERVISOR, InProgress, ONE_RUNNING, 500) == e;
    assert Announced(e.slots[0], BUSY_KEY).sent == [Payload(IDLE_KEY, None), Payload(BUSY_KEY, Some(Idle))];
  }

  /** A recomputation scans while a run is running, and is late. */
  const OWNING: seq<Step> := [Register(NO_SUPERVISOR)] + [Signal(SUPERVISOR)] + [Own(ONE_RUNNING)]
  const SCANNED: seq<Step> := OWNING + [Notify] + [Wait(250)] + [Expire(0)] + [Scan(0)]

  /** The run ends, another recomputation finds nothing owned and finishes, and then the late one does. */
  const RESCANNED: seq<Step> := SCANNED + [Own(NONE_OWNED)] + [Notify] + [Wait(250)] + [Expire(1)] + [Scan(1)]
  const OVERTAKEN: seq<Step> := RESCANNED + [Conclude(1, 0)] + [Conclude(0, 0)] + [Wait(STALE_AFTER_MS)]

  const EARLY: Reading := Reading(None, Some(Snapshot(ONE_RUNNING, 2)))
  const LATER: Reading := Reading(None, Some(Snapshot(NONE_OWNED, 3)))
  const OWNER: World :=
    NEW_WORLD.(registered := true, sup := SUPERVISOR, runs := ONE_RUNNING, changes := 2, owed := true)
  const SCANNER: World := OWNER.(engine := STARTED, owed := false, readings := [EARLY], now := 250)
  const TWO_SCANNERS: World :=
    SCANNER.(engine := BOTH, runs := NONE_OWNED, changes := 3, readings := [EARLY, LATER], now := 500)
  const OUTDATED: World :=
    TWO_SCANNERS.(engine := SETTLED, readings := [], finished := map[0 := Basis(SUPERVISOR, ONE_RUNNING, 2)],
                  newest := map[0 := 3])

  lemma OwnerWorld()
    ensures After(OWNING) == OWNER
  {
    var w := NEW_WORLD.(registered := true, changes := 1, owed := true);
    assert [] + [Register(NO_SUPERVISOR)] == [Register(NO_SUPERVISOR)];
    Moves([], Register(NO_SUPERVISOR), NEW_WORLD, w);
    Moves([Register(NO_SUPERVISOR)], Signal(SUPERVISOR), w, w.(sup := SUPERVISOR));
    Moves([Register(NO_SUPERVISOR)] + [Signal(SUPERVISOR)], Own(ONE_RUNNING), w.(sup := SUPERVISOR), OWNER);
  }

  lemma ScannerWorld()
    ensures After(SCANNED) == SCANNER
  {
    OwnerWorld();
    DebounceSteps();
    var w := OWNER.(engine := DEBOUNCED, owed := false);
    Moves(OWNING, Notify, OWNER, w);
    Moves(OWNING + [Notify], Wait(250), w, w.(now := 250));
    var started := SCANNER.(readings := [Reading(None, None)]);
    Moves(OWNING + [Notify] + [Wait(250)], Expire(0), w.(now := 250), started);
    Moves(OWNING + [Notify] + [Wait(250)] + [Expire(0)], Scan(0), started, SCANNER);
  }

  lemma TwoScannersWorld()
    ensures After(RESCANNED) == TWO_SCANNERS
  {
    ScannerWorld();
    SecondDebounceSteps();
    var w := SCANNER.(runs := NONE_OWNED, changes := 3, owed := true);
    Moves(SCANNED, Own(NONE_OWNED), SCANNER, w);
    var a, w' := SCANNED + [Own(NONE_OWNED)], w.(engine := AGAIN, owed := false);
    Moves(a, Notify, w, w');
    Moves(a + [Notify], Wait(250), w', w'.(now := 500));
    var started := TWO_SCANNERS.(readings := [EARLY, Reading(None, None)]);
    Moves(a + [Notify] + [Wait(250)], Expire(1), w'.(now := 500), started);
    Moves(a + [Notify] + [Wait(250)] + [Expire(1)], Scan(1), started, TWO_SCANNERS);
  }

  lemma OutdatedWorld()
    ensures After(OVERTAKEN) == OUTDATED.(now := 500 + STALE_AFTER_MS)
  {
    TwoScannersWorld();
    SecondFinishes();
    FirstFinishes();
    var w := TWO_SCANNERS.(engine := ARMED, readings := [EARLY],
                           finished := map[0 := Basis(SUPERVISOR, NONE_OWNED, 3)], newest := map[0 := 3]);
    Moves(RESCANNED, Conclude(1, 0), TWO_SCANNERS, w);
    Moves(RESCANNED + [Conclude(1, 0)], Conclude(0, 0), w, OUTDATED);
    Moves(RESCANNED + [Conclude(1, 0)] + [Conclude(0, 0)], Wait(STALE_AFTER_MS), OUTDATED,
          OUTDATED.(now := 500 + STALE_AFTER_MS));
  }

  /**
   * A recomputation that finishes after one that had read later cancels the stale timer and arms
   * none: 600 s after the event nothing is owned and nothing will happen, and the orchestrator
   * is still announced as in progress.
   */
  lemma OvertakenStaysLive()
    ensures AtRest(After(OVERTAKEN), 0) && After(OVERTAKEN).failed == {}
    ensures Announcement(After(OVERTAKEN), 0) == Some(InProgress)
    ensures var w := After(OVERTAKEN);
      w.runs == NONE_OWNED && StatusAt(w.sup, w.runs, w.now) == Stale && !InOrder(w, 0)
  {
    OutdatedWorld();
  }

  /**
   * When all that is left for a live slot is its stale timer, and the scan that the timer starts
   * fails, the slot stays as it was last announced, and nothing more will happen.
   */
  lemma FailedTickStaysLive(steps: seq<Step>, i: nat, h: nat)
    requires var w := After(steps);
      && w.registered && w.engine.current == Some(i) && !w.owed && i !in w.engine.suspended
      && h in w.engine.timers && w.engine.timers[h].slot == i && w.engine.timers[h].kind == StaleTick
      && w.engine.timers[h].due <= w.now
      && i in w.engine.slots && w.engine.slots[i].pendingTimer.None?
    ensures var w' := After(steps + [Expire(h)] + [Fail(|After(steps).readings|)]);
      AtRest(w', i) && Announcement(w', i) == Announcement(After(steps), i)
  {
    RunOk(steps);
    AfterExtend(steps, Expire(h));
    AfterExtend(steps + [Expire(h)], Fail(|After(steps).readings|));
    TickFails(After(steps), i, h);
  }

  lemma TickFails(w: World, i: nat, h: nat)
    requires WorldOk(w) && w.registered && w.engine.current == Some(i) && !w.owed && i !in w.engine.suspended
    requires h in w.engine.timers && w.engine.timers[h].slot == i && w.engine.timers[h].kind == StaleTick
    requires w.engine.timers[h].due <= w.now && w.engine.slots[i].pendingTimer.None?
    ensures var w' := Then(Then(w, Expire(h)), Fail(|w.readings|));
      AtRest(w', i) && Announcement(w', i) == Announcement(w, i)
  {
    TickFires(w.engine, i, h);
    var fired := Then(w, Expire(h));
    assert fired.engine == Fired(w.engine, h, true) && fired.readings == w.readings + [Reading(None, None)];
    assert Abandoned(fired.engine, |w.readings|).suspended == w.engine.suspended;
  }

  lemma TickFires(e: EngineState, i: nat, h: nat)
    requires Inv(e) && i in e.slots && h in e.timers && e.timers[h].slot == i && e.timers[h].kind == StaleTick
    ensures Enabled(e, Fire(h, true)) && Fired(e, h, true).suspended == e.suspended + [i]
    ensures Fired(e, h, true).current == e.current
    ensures Fired(e, h, true).slots == e.slots[i := e.slots[i].(staleTimer := None)]
  {
    FiredInv(e, h, true);
  }
}
