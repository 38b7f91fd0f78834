/**
 * What holds over every sequence of engine calls: when forgetting a slot leaves nothing
 * behind, and that a supervisor that falls silent becomes stale and stays so, whatever is
 * scheduled, fired, abandoned or recomputed in between.
 */
module StatusRuns {
  import opened Prelude
  import opened StatusMachine

  // ---------- forgotten slots ----------

  /** Nothing can reach the slot any more. */
  ghost predicate Dead(e: EngineState, i: nat) {
    && i in e.slots && e.current != Some(i) && i !in e.suspended
    && e.slots[i].pendingTimer.None? && e.slots[i].staleTimer.None?
  }

  lemma NextKeepsDead(e: EngineState, c: Call, i: nat)
    requires Inv(e) && Dead(e, i)
    ensures Dead(Next(e, c), i) && Next(e, c).slots[i] == e.slots[i]
  {
    if Enabled(e, c) && c.Fire? {
      assert TimerOk(e.slots, c.h, e.timers[c.h]);
    }
  }

  lemma {:induction false} RunKeepsDead(e: EngineState, calls: seq<Call>, i: nat)
    requires Inv(e) && Dead(e, i)
    ensures Dead(Run(e, calls), i) && Run(e, calls).slots[i] == e.slots[i]
  {
    if calls != [] {
      var front := calls[..|calls| - 1];
      RunKeepsDead(e, front, i);
      RunInv(e, front);
      NextKeepsDead(Run(e, front), calls[|calls| - 1], i);
    }
  }

  /** The slot announces nothing, and holds no timer. */
  ghost predicate Silent(before: EngineState, after: EngineState, i: nat) {
    && i in before.slots && i in after.slots && after.slots[i].sent == before.slots[i].sent
    && forall h <- after.timers :: after.timers[h].slot != i
  }

  lemma DeadIsSilent(before: EngineState, after: EngineState, i: nat)
    requires Inv(after) && Dead(after, i) && i in before.slots && after.slots[i].sent == before.slots[i].sent
    ensures Silent(before, after, i)
  {
    forall h <- after.timers ensures after.timers[h].slot != i {
      assert TimerOk(after.slots, h, after.timers[h]);
    }
  }

  /** A suspended recomputation of the slot announces whenever its key is a new one. */
  lemma SuspendedAnnounces(e: EngineState, i: nat) returns (c: Call)
    requires i in e.suspended && i in e.slots
    ensures i in Next(e, c).slots && Next(e, c).slots[i].sent != e.slots[i].sent
  {
    var j: nat :| j < |e.suspended| && e.suspended[j] == i;
    var last := e.slots[i].lastKey;
    var runs := OwnedRuns(if last.Some? then last.value.running + 1 else 0, 0);
    c := Finish(j, Supervisor(false, false, false, None), runs, 0, 0);
    assert KeyAt(c.s, runs, 0).running == runs.running;
    assert |Next(e, c).slots[i].sent| == |e.slots[i].sent| + 1;
  }

  /**
   * After a slot is forgotten no sequence of calls makes it announce or leaves a timer of it
   * outstanding, exactly when no recomputation of the slot is suspended as it is forgotten.
   */
  lemma ForgetIsCleanIff(e: EngineState, i: nat)
    requires Inv(e) && e.current == Some(i)
    ensures (forall calls: seq<Call> :: Silent(e, Run(Forgotten(e), calls), i)) <==> i !in e.suspended
  {
    var after := Forgotten(e);
    ForgottenInv(e);
    if i !in e.suspended {
      forall calls: seq<Call> ensures Silent(e, Run(after, calls), i) {
        RunKeepsDead(after, calls, i);
        RunInv(after, calls);
        DeadIsSilent(e, Run(after, calls), i);
      }
    } else {
      var c := SuspendedAnnounces(after, i);
      assert [c][..0] == [];
      assert Run(after, [c]) == Next(after, c);
      assert !Silent(e, Run(after, [c]), i);
    }
  }

  // ---------- staleness ----------

  /** A later recomputation of the slot, its forgetting, or the timer's own firing. */
  ghost predicate Disturbs(e: EngineState, c: Call, i: nat, h: nat) {
    || (c.Finish? && c.j < |e.suspended| && e.suspended[c.j] == i)
    || (c.Forget? && e.current == Some(i))
    || (c.Fire? && c.h == h)
  }

  ghost predicate Undisturbed(e: EngineState, calls: seq<Call>, i: nat, h: nat) {
    forall k :: 0 <= k < |calls| ==> !Disturbs(Run(e, calls[..k]), calls[k], i, h)
  }

  lemma NextKeepsTimer(e: EngineState, c: Call, i: nat, h: nat)
    requires Inv(e) && h in e.timers && e.timers[h].slot == i && e.timers[h].kind == StaleTick
    requires !Disturbs(e, c, i, h)
    ensures h in Next(e, c).timers && Next(e, c).timers[h] == e.timers[h]
  {
    assert TimerOk(e.slots, h, e.timers[h]);
    if Enabled(e, c) {
      match c {
        case Fire(g, _) => assert TimerOk(e.slots, g, e.timers[g]);
        case Forget =>
          if e.current.Some? {
            var q := e.current.value;
            assert MarkOk(e.timers, q, e.slots[q], Pending) && MarkOk(e.timers, q, e.slots[q], StaleTick);
          }
        case Finish(j, _, _, _, _) =>
          var q := e.suspended[j];
          assert MarkOk(e.timers, q, e.slots[q], Pending) && MarkOk(e.timers, q, e.slots[q], StaleTick);
        case _ =>
      }
    }
  }

  lemma {:induction false} TimerStands(e: EngineState, calls: seq<Call>, i: nat, h: nat)
    requires Inv(e) && h in e.timers && e.timers[h].slot == i && e.timers[h].kind == StaleTick
    requires Undisturbed(e, calls, i, h)
    ensures h in Run(e, calls).timers && Run(e, calls).timers[h] == e.timers[h]
  {
    if calls != [] {
      var front := calls[..|calls| - 1];
      assert forall k :: 0 <= k < |front| ==> front[..k] == calls[..k] && front[k] == calls[k];
      TimerStands(e, front, i, h);
      RunInv(e, front);
      NextKeepsTimer(Run(e, front), calls[|calls| - 1], i, h);
    }
  }

  /** The recomputation leaves a live status that time alone will turn stale. */
  ghost predicate Live(s: Supervisor, runs: OwnedRuns, computed: nat) {
    Arms(s, StatusAt(s, runs, computed), runs)
  }

  /** The stale timer such a recomputation armed, and when it is due. */
  lemma FinishArms(e: EngineState, j: nat, s: Supervisor, runs: OwnedRuns, computed: nat, armed: nat)
    requires Inv(e) && j < |e.suspended| && Live(s, runs, computed)
    ensures var i := e.suspended[j];
      var after := Finished(e, j, s, runs, computed, armed);
      && i in after.slots && after.slots[i].staleTimer.Some? && after.slots[i].staleTimer.value in after.timers
      && after.timers[after.slots[i].staleTimer.value]
         == Timer(StaleTick, i, Max(armed, s.lastEvent.value + STALE_AFTER_MS))
  {
  }

  /**
   * Once the last finished recomputation of a live, unsuppressed slot saw a last event, its
   * stale timer is outstanding, due 600 s after that event or at once, over every sequence of
   * calls until the slot is recomputed or forgotten or the timer fires.
   */
  lemma StaleTimerStands(e: EngineState, j: nat, s: Supervisor, runs: OwnedRuns, computed: nat, armed: nat,
                         calls: seq<Call>)
    requires Inv(e) && j < |e.suspended| && Live(s, runs, computed)
    requires var after := Finished(e, j, s, runs, computed, armed);
      e.suspended[j] in after.slots && after.slots[e.suspended[j]].staleTimer.Some?
      && Undisturbed(after, calls, e.suspended[j], after.slots[e.suspended[j]].staleTimer.value)
    ensures var i := e.suspended[j];
      var after := Finished(e, j, s, runs, computed, armed);
      var (h, now) := (after.slots[i].staleTimer.value, Run(after, calls));
      && h in now.timers && now.timers[h] == Timer(StaleTick, i, Max(armed, s.lastEvent.value + STALE_AFTER_MS))
  {
    var i := e.suspended[j];
    var after := Finished(e, j, s, runs, computed, armed);
    FinishArms(e, j, s, runs, computed, armed);
    FinishedInv(e, j, s, runs, computed, armed);
    TimerStands(after, calls, i, after.slots[i].staleTimer.value);
  }

  ghost predicate FinishOf(e: EngineState, c: Call, i: nat) {
    c.Finish? && c.j < |e.suspended| && e.suspended[c.j] == i
  }

  /** No newer event and nothing owned, at a time when 600 s have passed since the event. */
  ghost predicate Quiet(e: EngineState, c: Call, i: nat, event: nat) {
    FinishOf(e, c, i) ==>
      c.s.lastEvent == Some(event) && !Suppressed(c.runs) && c.computed >= event + STALE_AFTER_MS
  }

  ghost predicate QuietFrom(e: EngineState, calls: seq<Call>, i: nat, event: nat) {
    forall k :: 0 <= k < |calls| ==> Quiet(Run(e, calls[..k]), calls[k], i, event)
  }

  /** The last announcement is `Stale`, and no stale timer is outstanding. */
  ghost predicate Settled(e: EngineState, i: nat) {
    && i in e.slots && e.slots[i].staleTimer.None?
    && e.slots[i].sent != [] && e.slots[i].sent[|e.slots[i].sent| - 1].key.state == Stale
  }

  lemma QuietFinishSettles(e: EngineState, c: Call, i: nat, event: nat)
    requires Inv(e) && FinishOf(e, c, i) && Quiet(e, c, i, event)
    ensures Settled(Next(e, c), i)
  {
    assert StatusAt(c.s, c.runs, c.computed) == Stale;
    assert ChainOk(e.slots[i].sent, e.slots[i].lastKey);
  }

  lemma NextKeepsSettled(e: EngineState, c: Call, i: nat, event: nat)
    requires Inv(e) && Settled(e, i) && Quiet(e, c, i, event)
    ensures Settled(Next(e, c), i)
  {
    if FinishOf(e, c, i) {
      QuietFinishSettles(e, c, i, event);
    }
  }

  lemma {:induction false} QuietSettles(e: EngineState, calls: seq<Call>, i: nat, event: nat, k: nat)
    requires Inv(e) && QuietFrom(e, calls, i, event)
    requires k < |calls| && FinishOf(Run(e, calls[..k]), calls[k], i)
    ensures Settled(Run(e, calls), i)
  {
    var front, c := calls[..|calls| - 1], calls[|calls| - 1];
    assert forall l :: 0 <= l < |front| ==> front[..l] == calls[..l] && front[l] == calls[l];
    RunInv(e, front);
    if k == |front| {
      QuietFinishSettles(Run(e, front), c, i, event);
    } else {
      QuietSettles(e, front, i, event, k);
      NextKeepsSettled(Run(e, front), c, i, event);
    }
  }

  /**
   * A supervisor that falls silent with nothing owned becomes stale, over every interleaving:
   * after a recomputation that left it live come any calls; its stale timer, still there, fires
   * once due and starts a recomputation; then come any calls that bring no newer event and
   * nothing owned. Once a recomputation of the slot has finished, the last announcement is
   * `Stale`, no stale timer is left, and so it stays.
   */
  lemma SilentBecomesStale(e: EngineState, j: nat, s: Supervisor, runs: OwnedRuns, computed: nat, armed: nat,
                           calls: seq<Call>, later: seq<Call>, k: nat)
    requires Inv(e) && j < |e.suspended| && Live(s, runs, computed)
    requires var after := Finished(e, j, s, runs, computed, armed);
      e.suspended[j] in after.slots && after.slots[e.suspended[j]].staleTimer.Some?
      && Undisturbed(after, calls, e.suspended[j], after.slots[e.suspended[j]].staleTimer.value)
    requires var i := e.suspended[j];
      var after := Finished(e, j, s, runs, computed, armed);
      var fired := Next(Run(after, calls), Fire(after.slots[i].staleTimer.value, true));
      && QuietFrom(fired, later, i, s.lastEvent.value)
      && k < |later| && FinishOf(Run(fired, later[..k]), later[k], i)
    ensures var i := e.suspended[j];
      var after := Finished(e, j, s, runs, computed, armed);
      var fired := Next(Run(after, calls), Fire(after.slots[i].staleTimer.value, true));
      i in fired.suspended && Settled(Run(fired, later), i)
  {
    var i := e.suspended[j];
    var after := Finished(e, j, s, runs, computed, armed);
    var h := after.slots[i].staleTimer.value;
    StaleTimerStands(e, j, s, runs, computed, armed, calls);
    FinishedInv(e, j, s, runs, computed, armed);
    RunInv(after, calls);
    FiredInv(Run(after, calls), h, true);
    QuietSettles(Next(Run(after, calls), Fire(h, true)), later, i, s.lastEvent.value, k);
  }

  // ---------- a forgotten slot that announces ----------

  /**
   * Announcements are only compared within one slot: an orchestrator that is forgotten while a
   * recomputation is suspended, and then registered again, has the same status announced by
   * both slots, and the forgotten one holds a stale timer.
   */
  const AT_SNAPSHOT: seq<Call> := [Schedule(0)] + [Fire(0, true)]
  const REGISTERED_AGAIN: seq<Call> := AT_SNAPSHOT + [Forget] + [Schedule(0)] + [Fire(1, true)]

  lemma RunExtend(e: EngineState, calls: seq<Call>, c: Call)
    ensures Run(e, calls + [c]) == Next(Run(e, calls), c)
  {
    assert (calls + [c])[..|calls|] == calls;
  }

  lemma TwoSnapshots()
    ensures Run(NEW_ENGINE, REGISTERED_AGAIN)
         == EngineState(Some(1), map[0 := EMPTY_SLOT, 1 := EMPTY_SLOT], map[], 2, 2, [0, 1])
  {
    RunExtend(NEW_ENGINE, [], Schedule(0));
    assert [] + [Schedule(0)] == [Schedule(0)];
    RunExtend(NEW_ENGINE, [Schedule(0)], Fire(0, true));
    assert Run(NEW_ENGINE, AT_SNAPSHOT) == EngineState(Some(0), map[0 := EMPTY_SLOT], map[], 1, 1, [0]);
    RunExtend(NEW_ENGINE, AT_SNAPSHOT, Forget);
    var a := AT_SNAPSHOT + [Forget];
    assert Run(NEW_ENGINE, a) == EngineState(None, map[0 := EMPTY_SLOT], map[], 1, 1, [0]);
    RunExtend(NEW_ENGINE, a, Schedule(0));
    RunExtend(NEW_ENGINE, a + [Schedule(0)], Fire(1, true));
  }

  lemma ForgottenAnnounces(s: Supervisor, runs: OwnedRuns, now: nat)
    requires Live(s, runs, now)
    ensures var e := Run(NEW_ENGINE,
        REGISTERED_AGAIN + [Finish(0, s, runs, now, now)] + [Finish(0, s, runs, now, now)]);
      && e.current == Some(1) && 0 in e.slots && 1 in e.slots && e.slots[0].staleTimer.Some?
      && e.slots[0].sent == e.slots[1].sent == [Payload(KeyAt(s, runs, now), None)]
  {
    TwoSnapshots();
    var c := Finish(0, s, runs, now, now);
    RunExtend(NEW_ENGINE, REGISTERED_AGAIN, c);
    var e := Run(NEW_ENGINE, REGISTERED_AGAIN + [c]);
    assert e.suspended == [1] && e.slots[0].sent == [Payload(KeyAt(s, runs, now), None)];
    RunExtend(NEW_ENGINE, REGISTERED_AGAIN + [c], c);
  }
}
