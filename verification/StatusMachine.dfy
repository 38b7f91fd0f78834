/**
 * The aggregate status of one orchestrator, and the state of the engine that announces its
 * changes: a debounce timer, a stale timer, recomputations that suspend while they read the
 * owned runs, and announcements that skip repetitions. Each call of the engine is a step.
 */
module StatusMachine {
  import opened Prelude

  const STALE_AFTER_MS: nat := 600000
  const DEBOUNCE_MS: nat := 250

  datatype Status = Attention | InProgress | WaitingForUser | Idle | Stale

  /** The registry entry: its flags, and the time of the last supervisor event. */
  datatype Supervisor = Supervisor(waitingForUser: bool, turnActive: bool, sessionEnded: bool, lastEvent: Option<nat>)

  datatype OwnedRuns = OwnedRuns(running: nat, failedUnacked: nat)

  function LiveState(s: Supervisor, runs: OwnedRuns): Status {
    if runs.failedUnacked > 0 then Attention
    else if runs.running > 0 then InProgress
    else if s.waitingForUser then WaitingForUser
    else if s.turnActive then InProgress
    else Idle
  }

  predicate Suppressed(runs: OwnedRuns) {
    runs.running > 0 || runs.failedUnacked > 0
  }

  function StatusAt(s: Supervisor, runs: OwnedRuns, now: nat): Status {
    if s.sessionEnded then Stale
    else if Suppressed(runs) || s.lastEvent.None? then LiveState(s, runs)
    else if now - s.lastEvent.value >= STALE_AFTER_MS then Stale
    else LiveState(s, runs)
  }

  /**
   * The state in terms of what it is computed from: an ended session is stale, and so is an
   * overdue one that owns nothing running or failed; else a failed run that was not acknowledged
   * comes first, then a running one, then a user who is waited for, then the turn.
   */
  ghost predicate Shows(state: Status, s: Supervisor, runs: OwnedRuns, overdue: bool) {
    var none := runs.running == 0 && runs.failedUnacked == 0;
    && (state == Stale <==> s.sessionEnded || (none && overdue))
    && (state == Attention <==> !s.sessionEnded && runs.failedUnacked > 0)
    && (state == InProgress <==> (!s.sessionEnded && runs.failedUnacked == 0
          && (runs.running > 0 || (!overdue && !s.waitingForUser && s.turnActive))))
    && (state == WaitingForUser <==> !s.sessionEnded && none && !overdue && s.waitingForUser)
    && (state == Idle <==> !s.sessionEnded && none && !overdue && !s.waitingForUser && !s.turnActive)
  }

  /** 600 s or more have passed since the last supervisor event. */
  ghost predicate Overdue(s: Supervisor, now: nat) {
    s.lastEvent.Some? && now >= s.lastEvent.value + 600000
  }

  lemma StatusShows(s: Supervisor, runs: OwnedRuns, now: nat)
    ensures Shows(StatusAt(s, runs, now), s, runs, Overdue(s, now))
  {
  }

  /** What a repeated announcement is recognized by. */
  datatype Key = Key(state: Status, running: nat, failed: nat)

  function KeyAt(s: Supervisor, runs: OwnedRuns, now: nat): Key {
    Key(StatusAt(s, runs, now), runs.running, runs.failedUnacked)
  }

  function StateOf(key: Option<Key>): Option<Status> {
    if key.Some? then Some(key.value.state) else None
  }

  datatype Payload = Payload(key: Key, previous: Option<Status>)

  datatype Slot = Slot(lastKey: Option<Key>, pendingTimer: Option<nat>, staleTimer: Option<nat>, sent: seq<Payload>)

  datatype TimerKind = Pending | StaleTick

  datatype Timer = Timer(kind: TimerKind, slot: nat, due: nat)

  const EMPTY_SLOT: Slot := Slot(None, None, None, [])

  /** Consecutive announcements differ, and each names the state of the one before. */
  ghost predicate ChainOk(sent: seq<Payload>, lastKey: Option<Key>) {
    && lastKey == (if sent == [] then None else Some(sent[|sent| - 1].key))
    && forall i :: 0 <= i < |sent| ==> Follows(sent, i)
  }

  ghost predicate Follows(sent: seq<Payload>, i: nat)
    requires i < |sent|
  {
    if i == 0 then sent[i].previous == None
    else sent[i].previous == Some(sent[i - 1].key.state) && sent[i].key != sent[i - 1].key
  }

  lemma ChainGrows(sent: seq<Payload>, lastKey: Option<Key>, key: Key)
    requires ChainOk(sent, lastKey) && lastKey != Some(key)
    ensures ChainOk(sent + [Payload(key, StateOf(lastKey))], Some(key))
  {
    var longer := sent + [Payload(key, StateOf(lastKey))];
    forall i | 0 <= i < |longer| ensures Follows(longer, i) {
      if i < |sent| {
        assert Follows(sent, i);
      }
    }
  }

  function TimerOf(slot: Slot, kind: TimerKind): Option<nat> {
    if kind == Pending then slot.pendingTimer else slot.staleTimer
  }

  function WithTimer(slot: Slot, kind: TimerKind, handle: Option<nat>): (r: Slot)
    ensures TimerOf(r, kind) == handle
    ensures forall other: TimerKind :: other != kind ==> TimerOf(r, other) == TimerOf(slot, other)
    ensures r.sent == slot.sent && r.lastKey == slot.lastKey
  {
    if kind == Pending then slot.(pendingTimer := handle) else slot.(staleTimer := handle)
  }

  /** An outstanding timer is the one its slot records. */
  ghost predicate TimerOk(slots: map<nat, Slot>, h: nat, timer: Timer) {
    timer.slot in slots && TimerOf(slots[timer.slot], timer.kind) == Some(h)
  }

  /** A timer a slot records is outstanding. */
  ghost predicate MarkOk(timers: map<nat, Timer>, i: nat, slot: Slot, kind: TimerKind) {
    TimerOf(slot, kind).Some? ==>
      var h := TimerOf(slot, kind).value; h in timers && timers[h].slot == i && timers[h].kind == kind
  }

  ghost predicate Linked(slots: map<nat, Slot>, timers: map<nat, Timer>) {
    && (forall h <- timers :: TimerOk(slots, h, timers[h]))
    && (forall i <- slots :: MarkOk(timers, i, slots[i], Pending) && MarkOk(timers, i, slots[i], StaleTick))
  }

  function DropTimer(timers: map<nat, Timer>, h: Option<nat>): map<nat, Timer> {
    map g | g in timers && h != Some(g) :: timers[g]
  }

  lemma CancelKeepsLinked(slots: map<nat, Slot>, timers: map<nat, Timer>, i: nat, kind: TimerKind)
    requires Linked(slots, timers) && i in slots
    ensures Linked(slots[i := WithTimer(slots[i], kind, None)], DropTimer(timers, TimerOf(slots[i], kind)))
  {
    var slots', timers' := slots[i := WithTimer(slots[i], kind, None)], DropTimer(timers, TimerOf(slots[i], kind));
    forall h <- timers' ensures TimerOk(slots', h, timers'[h]) {
      assert TimerOk(slots, h, timers[h]);
    }
    forall j <- slots', k: TimerKind ensures MarkOk(timers', j, slots'[j], k) {
      assert MarkOk(timers, j, slots[j], Pending) && MarkOk(timers, j, slots[j], StaleTick);
      assert MarkOk(timers, i, slots[i], Pending) && MarkOk(timers, i, slots[i], StaleTick);
      assert k == Pending || k == StaleTick;
    }
  }

  lemma StartKeepsLinked(slots: map<nat, Slot>, timers: map<nat, Timer>, i: nat, kind: TimerKind, h: nat, due: nat)
    requires Linked(slots, timers) && i in slots && TimerOf(slots[i], kind).None? && h !in timers
    ensures Linked(slots[i := WithTimer(slots[i], kind, Some(h))], timers[h := Timer(kind, i, due)])
  {
    var slots', timers' := slots[i := WithTimer(slots[i], kind, Some(h))], timers[h := Timer(kind, i, due)];
    forall g <- timers' ensures TimerOk(slots', g, timers'[g]) {
      if g != h {
        assert TimerOk(slots, g, timers[g]);
      }
    }
    forall j <- slots', k: TimerKind ensures MarkOk(timers', j, slots'[j], k) {
      assert MarkOk(timers, j, slots[j], Pending) && MarkOk(timers, j, slots[j], StaleTick);
      assert k == Pending || k == StaleTick;
    }
  }

  lemma RelabelKeepsLinked(slots: map<nat, Slot>, timers: map<nat, Timer>, i: nat, slot: Slot)
    requires Linked(slots, timers)
    requires if i in slots then slot.pendingTimer == slots[i].pendingTimer && slot.staleTimer == slots[i].staleTimer
             else slot.pendingTimer.None? && slot.staleTimer.None?
    ensures Linked(slots[i := slot], timers)
  {
    forall h <- timers ensures TimerOk(slots[i := slot], h, timers[h]) {
      assert TimerOk(slots, h, timers[h]);
    }
  }

  // ---------- the engine's state and its steps ----------

  /**
   * The slot of the orchestrator, if it has one; all slots, forgotten ones included; the timers
   * handed to setTimeout that have neither fired nor been cancelled; and, by slot, the
   * recomputations suspended at the owned-run snapshot.
   */
  datatype EngineState = EngineState(current: Option<nat>, slots: map<nat, Slot>, timers: map<nat, Timer>,
                                     nextHandle: nat, nextSlot: nat, suspended: seq<nat>)

  const NEW_ENGINE: EngineState := EngineState(None, map[], map[], 0, 0, [])

  ghost predicate Inv(e: EngineState) {
    && (e.current.Some? ==> e.current.value in e.slots)
    && (forall i <- e.slots :: i < e.nextSlot && ChainOk(e.slots[i].sent, e.slots[i].lastKey))
    && (forall h <- e.timers :: h < e.nextHandle)
    && Linked(e.slots, e.timers)
    && (forall j :: 0 <= j < |e.suspended| ==> e.suspended[j] in e.slots)
  }

  /** clearTimeout for the timer of a kind that a slot records, if any. */
  function Cancelled(e: EngineState, i: nat, kind: TimerKind): EngineState
    requires i in e.slots
  {
    e.(slots := e.slots[i := WithTimer(e.slots[i], kind, None)],
       timers := DropTimer(e.timers, TimerOf(e.slots[i], kind)))
  }

  /** setTimeout for a slot. */
  function Started(e: EngineState, i: nat, kind: TimerKind, due: nat): EngineState
    requires i in e.slots
  {
    e.(slots := e.slots[i := WithTimer(e.slots[i], kind, Some(e.nextHandle))],
       timers := e.timers[e.nextHandle := Timer(kind, i, due)], nextHandle := e.nextHandle + 1)
  }

  function WithSlot(e: EngineState): EngineState {
    if e.current.Some? then e
    else e.(slots := e.slots[e.nextSlot := EMPTY_SLOT], current := Some(e.nextSlot), nextSlot := e.nextSlot + 1)
  }

  function Scheduled(e: EngineState, now: nat): EngineState
    requires e.current.Some? ==> e.current.value in e.slots
  {
    var e' := WithSlot(e);
    if e'.slots[e'.current.value].pendingTimer.Some? then e'
    else Started(e', e'.current.value, Pending, now + DEBOUNCE_MS)
  }

  function Forgotten(e: EngineState): EngineState
    requires e.current.Some? ==> e.current.value in e.slots
  {
    if e.current.None? then e
    else Cancelled(Cancelled(e, e.current.value, Pending), e.current.value, StaleTick).(current := None)
  }

  function Fired(e: EngineState, h: nat, registered: bool): EngineState
    requires h in e.timers && e.timers[h].slot in e.slots
  {
    var timer := e.timers[h];
    var e' := Cancelled(e, timer.slot, timer.kind);
    if registered then e'.(suspended := e.suspended + [timer.slot]) else e'
  }

  function Abandoned(e: EngineState, j: nat): EngineState
    requires j < |e.suspended|
  {
    e.(suspended := e.suspended[..j] + e.suspended[j + 1..])
  }

  predicate Arms(s: Supervisor, state: Status, runs: OwnedRuns) {
    state != Stale && !Suppressed(runs) && s.lastEvent.Some?
  }

  /** A stale timer is wanted for a session that has not ended, owns nothing and is not overdue yet. */
  lemma ArmsWhen(s: Supervisor, runs: OwnedRuns, now: nat)
    ensures Arms(s, StatusAt(s, runs, now), runs) <==>
      && !s.sessionEnded && runs.running == 0 && runs.failedUnacked == 0
      && s.lastEvent.Some? && now < s.lastEvent.value + STALE_AFTER_MS
  {
  }

  function StaleReset(e: EngineState, i: nat, s: Supervisor, state: Status, runs: OwnedRuns, now: nat): EngineState
    requires i in e.slots
  {
    var e' := Cancelled(e, i, StaleTick);
    if !Arms(s, state, runs) then e'
    else Started(e', i, StaleTick, now + Max(0, s.lastEvent.value + STALE_AFTER_MS - now))
  }

  function Announced(slot: Slot, key: Key): Slot {
    if slot.lastKey == Some(key) then slot
    else slot.(lastKey := Some(key), sent := slot.sent + [Payload(key, StateOf(slot.lastKey))])
  }

  function Finished(e: EngineState, j: nat, s: Supervisor, runs: OwnedRuns, computed: nat, armed: nat): EngineState
    requires j < |e.suspended| && e.suspended[j] in e.slots
  {
    var i := e.suspended[j];
    var e' := StaleReset(Abandoned(e, j), i, s, StatusAt(s, runs, computed), runs, armed);
    e'.(slots := e'.slots[i := Announced(e'.slots[i], KeyAt(s, runs, computed))])
  }

  /** What the end of a recomputation leaves of its slot and of the others. */
  lemma FinishedSlot(e: EngineState, j: nat, s: Supervisor, runs: OwnedRuns, computed: nat, armed: nat)
    requires j < |e.suspended| && e.suspended[j] in e.slots
    ensures var (e', i) := (Finished(e, j, s, runs, computed, armed), e.suspended[j]);
      && e'.suspended == e.suspended[..j] + e.suspended[j + 1..] && e'.current == e.current
      && i in e'.slots && e'.slots[i].lastKey == Some(KeyAt(s, runs, computed))
      && e'.slots[i].pendingTimer == e.slots[i].pendingTimer
      && (e'.slots[i].staleTimer.Some? <==> Arms(s, StatusAt(s, runs, computed), runs))
      && (e'.slots[i].staleTimer.Some? ==>
            var h := e'.slots[i].staleTimer.value;
            h in e'.timers && e'.timers[h] == Timer(StaleTick, i, Max(armed, s.lastEvent.value + STALE_AFTER_MS)))
      && e'.slots[i].sent == Announced(e.slots[i], KeyAt(s, runs, computed)).sent
      && forall q <- e.slots | q != i :: q in e'.slots && e'.slots[q] == e.slots[q]
  {
  }

  /**
   * What a recomputation of slot `i` does: it announces exactly when state or counts changed,
   * naming the state before; and it leaves a stale timer exactly for a live session that owns
   * nothing, has had an event and is not overdue, due 600 s after the event or at once, and
   * later than the clock when both of its readings agree. Other slots are as they were.
   */
  ghost predicate Concludes(e: EngineState, e': EngineState, i: nat, s: Supervisor, runs: OwnedRuns,
                            computed: nat, armed: nat)
  {
    && i in e.slots && i in e'.slots && e'.slots[i].lastKey.Some?
    && var (before, after) := (e.slots[i], e'.slots[i]);
       var key := after.lastKey.value;
    && key.running == runs.running && key.failed == runs.failedUnacked
    && Shows(key.state, s, runs, Overdue(s, computed))
    && after.sent == before.sent + (if before.lastKey == Some(key) then [] else [Payload(key, StateOf(before.lastKey))])
    && (after.staleTimer.Some? <==>
          && !s.sessionEnded && runs.running == 0 && runs.failedUnacked == 0
          && s.lastEvent.Some? && computed < s.lastEvent.value + STALE_AFTER_MS)
    && (after.staleTimer.Some? ==>
          var h := after.staleTimer.value;
          && h in e'.timers && e'.timers[h] == Timer(StaleTick, i, Max(armed, s.lastEvent.value + STALE_AFTER_MS))
          && (computed == armed ==> e'.timers[h].due > armed))
    && forall q <- e'.slots | q != i :: q in e.slots && e'.slots[q] == e.slots[q]
  }

  lemma FinishedConcludes(e: EngineState, j: nat, s: Supervisor, runs: OwnedRuns, computed: nat, armed: nat)
    requires j < |e.suspended| && e.suspended[j] in e.slots
    ensures Concludes(e, Finished(e, j, s, runs, computed, armed), e.suspended[j], s, runs, computed, armed)
  {
    FinishedSlot(e, j, s, runs, computed, armed);
    StatusShows(s, runs, computed);
    ArmsWhen(s, runs, computed);
  }

  // ---------- the invariant ----------

  lemma CancelledInv(e: EngineState, i: nat, kind: TimerKind)
    requires Inv(e) && i in e.slots
    ensures Inv(Cancelled(e, i, kind))
  {
    CancelKeepsLinked(e.slots, e.timers, i, kind);
  }

  lemma StartedInv(e: EngineState, i: nat, kind: TimerKind, due: nat)
    requires Inv(e) && i in e.slots && TimerOf(e.slots[i], kind).None?
    ensures Inv(Started(e, i, kind, due))
  {
    StartKeepsLinked(e.slots, e.timers, i, kind, e.nextHandle, due);
  }

  lemma ScheduledInv(e: EngineState, now: nat)
    requires Inv(e)
    ensures Inv(Scheduled(e, now))
  {
    if e.current.None? {
      RelabelKeepsLinked(e.slots, e.timers, e.nextSlot, EMPTY_SLOT);
    }
    var e' := WithSlot(e);
    assert Inv(e');
    if e'.slots[e'.current.value].pendingTimer.None? {
      StartedInv(e', e'.current.value, Pending, now + DEBOUNCE_MS);
    }
  }

  lemma ForgottenInv(e: EngineState)
    requires Inv(e)
    ensures Inv(Forgotten(e))
  {
    if e.current.Some? {
      CancelledInv(e, e.current.value, Pending);
      CancelledInv(Cancelled(e, e.current.value, Pending), e.current.value, StaleTick);
    }
  }

  lemma FiredInv(e: EngineState, h: nat, registered: bool)
    requires Inv(e) && h in e.timers
    ensures e.timers[h].slot in e.slots && TimerOf(e.slots[e.timers[h].slot], e.timers[h].kind) == Some(h)
    ensures Inv(Fired(e, h, registered))
  {
    assert TimerOk(e.slots, h, e.timers[h]);
    CancelledInv(e, e.timers[h].slot, e.timers[h].kind);
  }

  lemma StaleResetInv(e: EngineState, i: nat, s: Supervisor, state: Status, runs: OwnedRuns, now: nat)
    requires Inv(e) && i in e.slots
    ensures Inv(StaleReset(e, i, s, state, runs, now))
  {
    CancelledInv(e, i, StaleTick);
    if Arms(s, state, runs) {
      StartedInv(Cancelled(e, i, StaleTick), i, StaleTick, now + Max(0, s.lastEvent.value + STALE_AFTER_MS - now));
    }
  }

  lemma FinishedInv(e: EngineState, j: nat, s: Supervisor, runs: OwnedRuns, computed: nat, armed: nat)
    requires Inv(e) && j < |e.suspended|
    ensures Inv(Finished(e, j, s, runs, computed, armed))
  {
    var i, key := e.suspended[j], KeyAt(s, runs, computed);
    StaleResetInv(Abandoned(e, j), i, s, StatusAt(s, runs, computed), runs, armed);
    var e' := StaleReset(Abandoned(e, j), i, s, StatusAt(s, runs, computed), runs, armed);
    var slot := e'.slots[i];
    RelabelKeepsLinked(e'.slots, e'.timers, i, Announced(slot, key));
    if slot.lastKey != Some(key) {
      ChainGrows(slot.sent, slot.lastKey, key);
    }
  }

  // ---------- any sequence of calls ----------

  datatype Call =
    | Schedule(now: nat)
    | Forget
    | Fire(h: nat, registered: bool)
    | Abandon(j: nat)
    | Finish(j: nat, s: Supervisor, runs: OwnedRuns, computed: nat, armed: nat)

  /** A timer that is not outstanding does not fire, and a recomputation that is not suspended does not go on. */
  predicate Enabled(e: EngineState, c: Call) {
    match c
    case Schedule(_) => e.current.Some? ==> e.current.value in e.slots
    case Forget => e.current.Some? ==> e.current.value in e.slots
    case Fire(h, _) => h in e.timers && e.timers[h].slot in e.slots
    case Abandon(j) => j < |e.suspended|
    case Finish(j, _, _, _, _) => j < |e.suspended| && e.suspended[j] in e.slots
  }

  function Next(e: EngineState, c: Call): EngineState {
    if !Enabled(e, c) then e
    else match c
      case Schedule(now) => Scheduled(e, now)
      case Forget => Forgotten(e)
      case Fire(h, registered) => Fired(e, h, registered)
      case Abandon(j) => Abandoned(e, j)
      case Finish(j, s, runs, computed, armed) => Finished(e, j, s, runs, computed, armed)
  }

  function Run(e: EngineState, calls: seq<Call>): EngineState {
    if calls == [] then e else Next(Run(e, calls[..|calls| - 1]), calls[|calls| - 1])
  }

  lemma NextInv(e: EngineState, c: Call)
    requires Inv(e)
    ensures Inv(Next(e, c))
  {
    if Enabled(e, c) {
      match c {
        case Schedule(now) => ScheduledInv(e, now);
        case Forget => ForgottenInv(e);
        case Fire(h, registered) => FiredInv(e, h, registered);
        case Abandon(_) =>
        case Finish(j, s, runs, computed, armed) => FinishedInv(e, j, s, runs, computed, armed);
      }
    }
  }

  lemma {:induction false} RunInv(e: EngineState, calls: seq<Call>)
    requires Inv(e)
    ensures Inv(Run(e, calls))
  {
    if calls != [] {
      RunInv(e, calls[..|calls| - 1]);
      NextInv(Run(e, calls[..|calls| - 1]), calls[|calls| - 1]);
    }
  }

  /** In every reachable state a slot is the target of at most one outstanding timer of each kind. */
  lemma OneTimerOfEachKind(calls: seq<Call>, h: nat, g: nat)
    requires var e := Run(NEW_ENGINE, calls);
      h in e.timers && g in e.timers && e.timers[h].slot == e.timers[g].slot && e.timers[h].kind == e.timers[g].kind
    ensures h == g
  {
    RunInv(NEW_ENGINE, calls);
    var e := Run(NEW_ENGINE, calls);
    assert TimerOk(e.slots, h, e.timers[h]) && TimerOk(e.slots, g, e.timers[g]);
  }

  /** In every reachable state each slot's announcements differ from one to the next and name the state before. */
  lemma AnnouncementsChain(calls: seq<Call>, i: nat)
    requires i in Run(NEW_ENGINE, calls).slots
    ensures var slot := Run(NEW_ENGINE, calls).slots[i]; ChainOk(slot.sent, slot.lastKey)
  {
    RunInv(NEW_ENGINE, calls);
  }
}
