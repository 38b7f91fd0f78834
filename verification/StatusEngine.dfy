/**
 * The status engine as the code performs it: every method updates the fields in place, one
 * timer or slot after another, and is one step of the engine's state machine.
 */
module StatusEngine {
  import opened Prelude
  import opened StatusMachine

  class Engine {
    var current: Option<nat>
    var slots: map<nat, Slot>
    var timers: map<nat, Timer>
    var nextHandle: nat
    var nextSlot: nat
    var suspended: seq<nat>

    ghost function State(): EngineState reads this {
      EngineState(current, slots, timers, nextHandle, nextSlot, suspended)
    }

    ghost predicate Valid() reads this {
      Inv(State())
    }

    constructor ()
      ensures Valid() && State() == NEW_ENGINE
    {
      current, slots, timers, nextHandle, nextSlot, suspended := None, map[], map[], 0, 0, [];
    }

    /** clearTimeout for the timer of a kind that a slot records, if any. */
    method CancelTimer(i: nat, kind: TimerKind)
      requires Valid() && i in slots
      modifies this`slots, this`timers
      ensures Valid() && State() == Cancelled(old(State()), i, kind)
    {
      CancelledInv(State(), i, kind);
      timers := DropTimer(timers, TimerOf(slots[i], kind));
      slots := slots[i := WithTimer(slots[i], kind, None)];
    }

    /** setTimeout for a slot that has no timer of that kind. */
    method StartTimer(i: nat, kind: TimerKind, due: nat)
      requires Valid() && i in slots && TimerOf(slots[i], kind).None?
      modifies this`slots, this`timers, this`nextHandle
      ensures Valid() && State() == Started(old(State()), i, kind, due)
    {
      StartedInv(State(), i, kind, due);
      timers := timers[nextHandle := Timer(kind, i, due)];
      slots := slots[i := WithTimer(slots[i], kind, Some(nextHandle))];
      nextHandle := nextHandle + 1;
    }

    /**
     * scheduleRecompute: a burst of inputs shares one debounce timer, due 250 ms after the
     * first; an orchestrator without a slot gets an empty one.
     */
    method ScheduleRecompute(now: nat)
      requires Valid()
      modifies this
      ensures Valid() && State() == Scheduled(old(State()), now)
      ensures current.Some? && slots[current.value].pendingTimer.Some?
      ensures old(current).Some? && old(slots)[old(current).value].pendingTimer.Some? ==> State() == old(State())
      ensures old(current).None? ==> current.value !in old(slots)
      ensures old(current).None? || old(slots)[old(current).value].pendingTimer.None? ==>
        timers == old(timers)[slots[current.value].pendingTimer.value
                              := Timer(Pending, current.value, now + 250)]
    {
      ScheduledInv(State(), now);
      if current.None? {
        RelabelKeepsLinked(slots, timers, nextSlot, EMPTY_SLOT);
        slots := slots[nextSlot := EMPTY_SLOT];
        current := Some(nextSlot);
        nextSlot := nextSlot + 1;
      }
      if slots[current.value].pendingTimer.Some? {
        return;
      }
      StartTimer(current.value, Pending, now + DEBOUNCE_MS);
    }

    /** forget: the slot's timers are cancelled and its de-duplication state is dropped. */
    method Forget()
      requires Valid()
      modifies this
      ensures Valid() && State() == Forgotten(old(State()))
      ensures old(current).Some? ==> forall h <- timers :: timers[h].slot != old(current).value
      ensures forall h <- old(timers) | old(current) != Some(old(timers)[h].slot) ::
        h in timers && timers[h] == old(timers)[h]
    {
      if current.Some? {
        CancelTimer(current.value, Pending);
        CancelTimer(current.value, StaleTick);
        forall h <- timers ensures timers[h].slot != current.value {
          assert TimerOk(slots, h, timers[h]);
        }
        TimersOfOthers(old(State()), current.value);
      }
      current := None;
    }

    /** A timer fires: it clears its own mark and starts a recomputation if the orchestrator is registered. */
    method Fire(h: nat, registered: bool)
      requires Valid() && h in timers
      modifies this
      ensures Valid() && old(timers)[h].slot in old(slots) && State() == Fired(old(State()), h, registered)
      ensures timers == DropTimer(old(timers), Some(h))
      ensures suspended == if registered then old(suspended) + [old(timers)[h].slot] else old(suspended)
    {
      FiredInv(State(), h, registered);
      var timer := timers[h];
      CancelTimer(timer.slot, timer.kind);
      if registered {
        suspended := suspended + [timer.slot];
      }
    }

    /** The snapshot of recomputation `j` could not be read. */
    method Abandon(j: nat)
      requires Valid() && j < |suspended|
      modifies this`suspended
      ensures Valid() && State() == Abandoned(old(State()), j)
    {
      suspended := suspended[..j] + suspended[j + 1..];
    }

    /**
     * resetStaleTimer, at clock reading `now`. A timer is armed exactly when the status is
     * not stale, nothing owned suppresses staleness and a supervisor event is known; it is
     * due 600 s after that event, or at once when that has already passed.
     */
    method ResetStaleTimer(i: nat, s: Supervisor, state: Status, runs: OwnedRuns, now: nat)
      requires Valid() && i in slots
      modifies this`slots, this`timers, this`nextHandle
      ensures Valid() && State() == StaleReset(old(State()), i, s, state, runs, now)
      ensures i in slots && (slots[i].staleTimer.Some? <==> Arms(s, state, runs))
      ensures slots[i].staleTimer.Some? ==>
        && slots[i].staleTimer.value in timers
        && timers[slots[i].staleTimer.value] == Timer(StaleTick, i, Max(now, s.lastEvent.value + STALE_AFTER_MS))
    {
      CancelTimer(i, StaleTick);
      if state == Stale || Suppressed(runs) || s.lastEvent.None? {
        return;
      }
      var deadline := s.lastEvent.value + STALE_AFTER_MS;
      var delay := Max(0, deadline - now);
      StartTimer(i, StaleTick, now + delay);
    }

    /**
     * The rest of runRecompute, once its snapshot is there: `computed` and `armed` are the
     * two clock readings it takes. With one reading for both, an armed timer has a
     * strictly positive delay.
     */
    method FinishRecompute(j: nat, s: Supervisor, runs: OwnedRuns, computed: nat, armed: nat)
      returns (announced: bool)
      requires Valid() && j < |suspended|
      modifies this
      ensures Valid() && State() == Finished(old(State()), j, s, runs, computed, armed)
      ensures Concludes(old(State()), State(), old(suspended)[j], s, runs, computed, armed)
      ensures announced <==> old(slots)[old(suspended)[j]].lastKey != Some(KeyAt(s, runs, computed))
    {
      ghost var before := State();
      FinishedInv(before, j, s, runs, computed, armed);
      var i := suspended[j];
      Abandon(j);
      var state := StatusAt(s, runs, computed);
      ResetStaleTimer(i, s, state, runs, armed);
      var key := Key(state, runs.running, runs.failedUnacked);
      var slot := slots[i];
      announced := slot.lastKey != Some(key);
      if announced {
        slots := slots[i := slot.(lastKey := Some(key), sent := slot.sent + [Payload(key, StateOf(slot.lastKey))])];
      } else {
        assert slots[i := slot] == slots;
      }
      assert State() == Finished(before, j, s, runs, computed, armed);
      FinishedConcludes(before, j, s, runs, computed, armed);
    }
  }

  /** Cancelling a slot's timers leaves the timers of other slots outstanding. */
  lemma TimersOfOthers(e: EngineState, i: nat)
    requires Inv(e) && e.current == Some(i)
    ensures forall h <- e.timers | e.timers[h].slot != i ::
      h in Forgotten(e).timers && Forgotten(e).timers[h] == e.timers[h]
  {
    assert MarkOk(e.timers, i, e.slots[i], Pending) && MarkOk(e.timers, i, e.slots[i], StaleTick);
  }
}
