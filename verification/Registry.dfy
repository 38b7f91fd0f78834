/**
 * The orchestrator registry: what the lifecycle events of a supervisor leave in the flags
 * from which its status is computed.
 */
module Registry {
  import opened Prelude
  import opened StatusMachine

  type Id = string

  datatype EventKind = TurnStarted | TurnStopped | WaitingEvent | SessionActive | SessionEnded

  datatype Input = Register(id: Id) | Unregister(id: Id) | Event(id: Id, kind: EventKind, at: nat)

  /** applyEvent on one entry. */
  function Applied(s: Supervisor, kind: EventKind, at: nat): Supervisor {
    var stamped := s.(lastEvent := Some(at));
    match kind
    case TurnStarted => stamped.(turnActive := true, waitingForUser := false)
    case TurnStopped => stamped.(turnActive := false, waitingForUser := false)
    case WaitingEvent => stamped.(waitingForUser := true)
    case SessionActive => stamped.(sessionEnded := false)
    case SessionEnded => stamped.(sessionEnded := true, turnActive := false)
  }

  /** Registering again keeps the turn flags, ends staleness and forgets the last event. */
  function Registered(previous: Option<Supervisor>): Supervisor {
    if previous.Some? then previous.value.(sessionEnded := false, lastEvent := None)
    else Supervisor(false, false, false, None)
  }

  /** The entry of an id after a history of inputs to the whole registry. */
  function EntryAfter(history: seq<Input>, id: Id): Option<Supervisor> {
    if history == [] then None
    else
      var before, input := EntryAfter(history[..|history| - 1], id), history[|history| - 1];
      if input.id != id then before
      else match input
        case Register(_) => Some(Registered(before))
        case Unregister(_) => None
        case Event(_, kind, at) => if before.Some? then Some(Applied(before.value, kind, at)) else None
  }

  class OrchestratorRegistry {
    var entries: map<Id, Supervisor>
    ghost var history: seq<Input>

    ghost predicate Valid() reads this {
      forall id: Id :: EntryAfter(history, id) == if id in entries then Some(entries[id]) else None
    }

    constructor ()
      ensures Valid() && history == [] && entries == map[]
    {
      entries, history := map[], [];
    }

    method Register(id: Id)
      requires Valid()
      modifies this
      ensures Valid() && history == old(history) + [Input.Register(id)]
      ensures entries == old(entries)[id := Registered(if id in old(entries) then Some(old(entries)[id]) else None)]
    {
      Extend(history, Input.Register(id));
      entries := entries[id := Registered(if id in entries then Some(entries[id]) else None)];
      history := history + [Input.Register(id)];
    }

    method Unregister(id: Id) returns (known: bool)
      requires Valid()
      modifies this
      ensures Valid() && history == old(history) + [Input.Unregister(id)]
      ensures known <==> id in old(entries)
      ensures entries == old(entries) - {id}
    {
      Extend(history, Input.Unregister(id));
      known := id in entries;
      entries := entries - {id};
      history := history + [Input.Unregister(id)];
    }

    method ApplyEvent(id: Id, kind: EventKind, at: nat) returns (state: Option<Supervisor>)
      requires Valid()
      modifies this
      ensures Valid() && history == old(history) + [Event(id, kind, at)]
      ensures state == if id in old(entries) then Some(Applied(old(entries)[id], kind, at)) else None
      ensures entries == if state.Some? then old(entries)[id := state.value] else old(entries)
    {
      Extend(history, Event(id, kind, at));
      history := history + [Event(id, kind, at)];
      if id !in entries {
        return None;
      }
      var next := Applied(entries[id], kind, at);
      entries := entries[id := next];
      return Some(next);
    }
  }

  lemma Extend(history: seq<Input>, input: Input)
    ensures (history + [input])[..|history|] == history
  {
  }

  // ---------- what the flags remember ----------

  /** The i-th input is an event of that kind that reached the entry of the id. */
  ghost predicate Reached(history: seq<Input>, i: nat, id: Id, kind: EventKind) {
    i < |history| && history[i].Event? && history[i].id == id && history[i].kind == kind
    && EntryAfter(history[..i], id).Some?
  }

  /** Nothing since the i-th input took the entry away or was one of the given kinds. */
  ghost predicate Standing(history: seq<Input>, i: nat, id: Id, kinds: set<EventKind>) {
    forall j :: i < j < |history| && history[j].id == id ==>
      !history[j].Unregister? && !(history[j].Event? && history[j].kind in kinds)
  }

  ghost predicate NotRegisteredSince(history: seq<Input>, i: nat, id: Id) {
    forall j :: i < j < |history| ==> history[j] != Input.Register(id)
  }

  ghost predicate TurnStands(history: seq<Input>, i: nat, id: Id) {
    Reached(history, i, id, TurnStarted) && Standing(history, i, id, {TurnStopped, SessionEnded})
  }

  ghost predicate WaitStands(history: seq<Input>, i: nat, id: Id) {
    Reached(history, i, id, WaitingEvent) && Standing(history, i, id, {TurnStarted, TurnStopped})
  }

  ghost predicate EndStands(history: seq<Input>, i: nat, id: Id) {
    && Reached(history, i, id, SessionEnded) && Standing(history, i, id, {SessionActive})
    && NotRegisteredSince(history, i, id)
  }

  lemma Grow(front: seq<Input>, input: Input, i: nat, id: Id)
    requires i < |front|
    ensures var history := front + [input];
      && (forall kind :: Reached(history, i, id, kind) == Reached(front, i, id, kind))
      && (forall kinds :: Standing(history, i, id, kinds) == (Standing(front, i, id, kinds)
            && (input.id == id ==> !input.Unregister? && !(input.Event? && input.kind in kinds))))
      && NotRegisteredSince(history, i, id) == (NotRegisteredSince(front, i, id) && input != Input.Register(id))
  {
    var history := front + [input];
    assert history[..i] == front[..i];
    assert forall j :: 0 <= j < |front| ==> history[j] == front[j];
    assert history[|front|] == input;
  }

  ghost predicate InTurn(history: seq<Input>, id: Id) {
    var entry := EntryAfter(history, id);
    entry.Some? && entry.value.turnActive
  }

  ghost predicate Waits(history: seq<Input>, id: Id) {
    var entry := EntryAfter(history, id);
    entry.Some? && entry.value.waitingForUser
  }

  ghost predicate Ended(history: seq<Input>, id: Id) {
    var entry := EntryAfter(history, id);
    entry.Some? && entry.value.sessionEnded
  }

  predicate Ends(input: Input, id: Id, kinds: set<EventKind>) {
    input.id == id && (input.Unregister? || (input.Event? && input.kind in kinds))
  }

  lemma TurnStep(front: seq<Input>, input: Input, id: Id)
    requires InTurn(front, id) <==> exists i :: TurnStands(front, i, id)
    ensures InTurn(front + [input], id) <==> exists i :: TurnStands(front + [input], i, id)
  {
    var history, n := front + [input], |front|;
    var ends := Ends(input, id, {TurnStopped, SessionEnded});
    forall i: nat | i < n ensures TurnStands(history, i, id) <==> TurnStands(front, i, id) && !ends {
      Grow(front, input, i, id);
    }
    assert history[..n] == front;
    assert TurnStands(history, n, id)
      <==> input.Event? && input.id == id && input.kind == TurnStarted && EntryAfter(front, id).Some?;
    if exists i :: TurnStands(front, i, id) {
      var i :| TurnStands(front, i, id);
      assert TurnStands(history, i, id) <==> !ends;
    }
  }

  lemma WaitStep(front: seq<Input>, input: Input, id: Id)
    requires Waits(front, id) <==> exists i :: WaitStands(front, i, id)
    ensures Waits(front + [input], id) <==> exists i :: WaitStands(front + [input], i, id)
  {
    var history, n := front + [input], |front|;
    var ends := Ends(input, id, {TurnStarted, TurnStopped});
    forall i: nat | i < n ensures WaitStands(history, i, id) <==> WaitStands(front, i, id) && !ends {
      Grow(front, input, i, id);
    }
    assert history[..n] == front;
    assert WaitStands(history, n, id)
      <==> input.Event? && input.id == id && input.kind == WaitingEvent && EntryAfter(front, id).Some?;
    if exists i :: WaitStands(front, i, id) {
      var i :| WaitStands(front, i, id);
      assert WaitStands(history, i, id) <==> !ends;
    }
  }

  lemma EndStep(front: seq<Input>, input: Input, id: Id)
    requires Ended(front, id) <==> exists i :: EndStands(front, i, id)
    ensures Ended(front + [input], id) <==> exists i :: EndStands(front + [input], i, id)
  {
    var history, n := front + [input], |front|;
    var ends := Ends(input, id, {SessionActive}) || input == Input.Register(id);
    forall i: nat | i < n ensures EndStands(history, i, id) <==> EndStands(front, i, id) && !ends {
      Grow(front, input, i, id);
    }
    assert history[..n] == front;
    assert EndStands(history, n, id)
      <==> input.Event? && input.id == id && input.kind == SessionEnded && EntryAfter(front, id).Some?;
    if exists i :: EndStands(front, i, id) {
      var i :| EndStands(front, i, id);
      assert EndStands(history, i, id) <==> !ends;
    }
  }

  /** Each flag of an orchestrator is set exactly when the event that sets it still stands. */
  lemma {:induction false} FlagsAreStandingEvents(history: seq<Input>, id: Id)
    ensures InTurn(history, id) <==> exists i :: TurnStands(history, i, id)
    ensures Waits(history, id) <==> exists i :: WaitStands(history, i, id)
    ensures Ended(history, id) <==> exists i :: EndStands(history, i, id)
  {
    if history != [] {
      var n := |history| - 1;
      FlagsAreStandingEvents(history[..n], id);
      assert history == history[..n] + [history[n]];
      TurnStep(history[..n], history[n], id);
      WaitStep(history[..n], history[n], id);
      EndStep(history[..n], history[n], id);
    }
  }

  // ---------- registration and the last event ----------

  /** The i-th input registers the id, and nothing has unregistered it since. */
  ghost predicate RegisteredAt(history: seq<Input>, i: nat, id: Id) {
    i < |history| && history[i] == Input.Register(id)
    && forall j :: i < j < |history| ==> history[j] != Input.Unregister(id)
  }

  /** The i-th input is the last for the id. */
  ghost predicate Latest(history: seq<Input>, i: nat, id: Id) {
    i < |history| && history[i].id == id && forall j :: i < j < |history| ==> history[j].id != id
  }

  /** The last input for the id is an event at that time, which found an entry. */
  ghost predicate LastEventAt(history: seq<Input>, id: Id, at: nat) {
    exists i: nat :: Latest(history, i, id) && history[i].Event? && history[i].at == at
                     && EntryAfter(history[..i], id).Some?
  }

  /** An orchestrator has an entry exactly when it was registered and not unregistered since. */
  lemma {:induction false} KnownIff(history: seq<Input>, id: Id)
    ensures EntryAfter(history, id).Some? <==> exists i: nat :: RegisteredAt(history, i, id)
  {
    if history != [] {
      var n := |history| - 1;
      var front, input := history[..n], history[n];
      KnownIff(front, id);
      forall i: nat | i < n ensures RegisteredAt(history, i, id)
        <==> RegisteredAt(front, i, id) && input != Input.Unregister(id)
      {
        assert forall j :: 0 <= j < n ==> history[j] == front[j];
      }
      assert RegisteredAt(history, n, id) <==> input == Input.Register(id);
    }
  }

  lemma LastEventStep(front: seq<Input>, input: Input, id: Id, at: nat)
    ensures input.id != id ==> (LastEventAt(front + [input], id, at) <==> LastEventAt(front, id, at))
    ensures input.id == id ==> (LastEventAt(front + [input], id, at)
                                <==> input.Event? && input.at == at && EntryAfter(front, id).Some?)
  {
    var history, n := front + [input], |front|;
    assert history[..n] == front;
    forall i: nat | i < n ensures Latest(history, i, id) <==> Latest(front, i, id) && input.id != id {
      assert forall j :: 0 <= j < n ==> history[j] == front[j];
      assert history[n] == input;
    }
    assert Latest(history, n, id) <==> input.id == id;
    assert forall i: nat :: i < n ==> history[..i] == front[..i];
  }

  /** The time of the last event is that of the last input, when that is an event. */
  lemma {:induction false} LastEventIs(history: seq<Input>, id: Id, at: nat)
    ensures EntryAfter(history, id).Some? && EntryAfter(history, id).value.lastEvent == Some(at)
       <==> LastEventAt(history, id, at)
  {
    if history != [] {
      var n := |history| - 1;
      LastEventIs(history[..n], id, at);
      assert history == history[..n] + [history[n]];
      LastEventStep(history[..n], history[n], id, at);
    }
  }

  /** The status of a registered orchestrator, in terms of the events of its history and the runs it owns. */
  lemma StatusOfHistory(history: seq<Input>, id: Id, runs: OwnedRuns, now: nat)
    requires EntryAfter(history, id).Some?
    ensures var state := StatusAt(EntryAfter(history, id).value, runs, now);
      var ended := exists i :: EndStands(history, i, id);
      var waits := exists i :: WaitStands(history, i, id);
      var turn := exists i :: TurnStands(history, i, id);
      var overdue := exists at: nat :: LastEventAt(history, id, at) && now >= at + STALE_AFTER_MS;
      var none := runs.running == 0 && runs.failedUnacked == 0;
      && (state == Stale <==> ended || (none && overdue))
      && (state == Attention <==> !ended && runs.failedUnacked > 0)
      && (state == InProgress <==> (!ended && runs.failedUnacked == 0
            && (runs.running > 0 || (!overdue && !waits && turn))))
      && (state == WaitingForUser <==> !ended && none && !overdue && waits)
      && (state == Idle <==> !ended && none && !overdue && !waits && !turn)
  {
    var entry := EntryAfter(history, id).value;
    FlagsAreStandingEvents(history, id);
    StatusShows(entry, runs, now);
    forall at: nat ensures entry.lastEvent == Some(at) <==> LastEventAt(history, id, at) {
      LastEventIs(history, id, at);
    }
  }

  /**
   * An ended session is stale, whatever runs it still owns and whatever turn events follow,
   * until the session is active again or the orchestrator is registered again.
   */
  lemma EndedIsStale(history: seq<Input>, i: nat, id: Id, runs: OwnedRuns, now: nat)
    requires EndStands(history, i, id)
    ensures EntryAfter(history, id).Some? && StatusAt(EntryAfter(history, id).value, runs, now) == Stale
  {
    FlagsAreStandingEvents(history, id);
  }
}
