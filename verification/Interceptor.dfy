/**
 * One attempt at running a worker, with the early-event interceptor: events are buffered
 * while it is engaged, and either all of them reach the event log or, when it calls for a
 * retry, none does. Each method is one piece of code between two awaits, so any
 * interleaving of the attempt's callbacks is a sequence of calls.
 */
module Interceptor {
  import opened Prelude

  /** A worker event, with the verdict the interceptor's classifier gives it. */
  datatype Event = Event(text: string, wantsRetry: bool)

  const STARTED: Event := Event("started", false)
  const RETRY_MARKER: Event := Event("session_not_found_in_run_retry", false)

  datatype Interceptor = Interceptor(thresholdEvents: nat, thresholdMs: nat)

  /** A line being processed: the events still to append, and whether a meta update comes first. */
  datatype Task = Task(rest: seq<Event>, atMeta: bool)

  datatype Outcome = Retry(observedEvents: nat) | Finalize

  // ---------- when the interceptor asks for a retry ----------

  /** An event of a stdout line, with the time since the spawn at which it is classified. */
  datatype Timed = Timed(event: Event, elapsed: nat)

  function TimedLine(events: seq<Event>, elapsed: seq<nat>): (timed: seq<Timed>)
    requires |elapsed| == |events|
    ensures |timed| == |events|
    ensures forall k :: 0 <= k < |events| ==> timed[k] == Timed(events[k], elapsed[k])
  {
    seq(|events|, k requires 0 <= k < |events| => Timed(events[k], elapsed[k]))
  }

  /** The k-th event of the attempt's stdout comes within both thresholds. */
  predicate Within(i: Interceptor, timed: seq<Timed>, k: nat)
    requires k < |timed|
  {
    k < i.thresholdEvents && timed[k].elapsed < i.thresholdMs
  }

  /** Some event asks for a retry, and it and all events before it come within the thresholds. */
  ghost predicate Asks(i: Interceptor, timed: seq<Timed>) {
    exists k :: 0 <= k < |timed| && AsksAt(i, timed, k)
  }

  ghost predicate AsksAt(i: Interceptor, timed: seq<Timed>, k: nat)
    requires k < |timed|
  {
    timed[k].event.wantsRetry && forall j :: 0 <= j <= k ==> Within(i, timed, j)
  }

  /** An event is past the thresholds, and none before it asks for a retry. */
  ghost predicate LetsGo(i: Interceptor, timed: seq<Timed>) {
    exists k :: 0 <= k < |timed| && LetsGoAt(i, timed, k)
  }

  ghost predicate LetsGoAt(i: Interceptor, timed: seq<Timed>, k: nat)
    requires k < |timed|
  {
    !Within(i, timed, k) && forall j :: 0 <= j < k ==> !timed[j].event.wantsRetry
  }

  /** Every event so far comes within the thresholds, and none asks for a retry. */
  ghost predicate Watching(i: Interceptor, timed: seq<Timed>) {
    forall k :: 0 <= k < |timed| ==> Within(i, timed, k) && !timed[k].event.wantsRetry
  }

  /** What the two flags of an attempt say about the events of its stdout so far. */
  ghost predicate Decided(i: Interceptor, timed: seq<Timed>, cancelled: bool, disengaged: bool, observed: nat) {
    && (cancelled ==> 0 < observed <= |timed| && AsksAt(i, timed, observed - 1))
    && (disengaged ==> LetsGo(i, timed))
    && (!cancelled && !disengaged ==> Watching(i, timed) && observed == |timed|)
  }

  lemma DecisionStands(i: Interceptor, timed: seq<Timed>, more: seq<Timed>)
    ensures forall k :: 0 <= k < |timed| && AsksAt(i, timed, k) ==> AsksAt(i, timed + more, k)
    ensures LetsGo(i, timed) ==> LetsGo(i, timed + more)
  {
    var all := timed + more;
    assert forall j :: 0 <= j < |timed| ==> all[j] == timed[j];
    forall k | 0 <= k < |timed| && AsksAt(i, timed, k) ensures AsksAt(i, all, k) {
      assert forall j :: 0 <= j <= k ==> Within(i, timed, j) ==> Within(i, all, j);
    }
    if k :| 0 <= k < |timed| && LetsGoAt(i, timed, k) {
      assert LetsGoAt(i, all, k);
    }
  }

  /** What the next event decides while nothing has been decided. */
  lemma SeeNext(i: Interceptor, timed: seq<Timed>, next: Timed)
    requires Watching(i, timed)
    ensures var (all, k) := (timed + [next], |timed|);
      && (!Within(i, all, k) ==> LetsGo(i, all))
      && (Within(i, all, k) && next.event.wantsRetry ==> AsksAt(i, all, k))
      && (Within(i, all, k) && !next.event.wantsRetry ==> Watching(i, all))
  {
    var all, k := timed + [next], |timed|;
    assert forall j :: 0 <= j < k ==> all[j] == timed[j] && (Within(i, timed, j) ==> Within(i, all, j));
    assert !Within(i, all, k) ==> LetsGoAt(i, all, k);
  }

  // ---------- where each event is ----------

  function Pending(tasks: seq<Task>, e: Event): nat {
    if tasks == [] then 0 else Pending(tasks[..|tasks| - 1], e) + multiset(tasks[|tasks| - 1].rest)[e]
  }

  /** Every event produced is written, or buffered, or still ahead in some line. */
  ghost predicate Balanced(produced: multiset<Event>, written: multiset<Event>, buffer: seq<Event>, tasks: seq<Task>) {
    forall e :: BalancedAt(produced, written, buffer, tasks, e)
  }

  ghost predicate BalancedAt(produced: multiset<Event>, written: multiset<Event>, buffer: seq<Event>, tasks: seq<Task>,
                             e: Event)
  {
    produced[e] == written[e] + multiset(buffer)[e] + Pending(tasks, e)
  }

  lemma {:induction false} PendingUpdate(tasks: seq<Task>, i: nat, task: Task, e: Event)
    requires i < |tasks|
    ensures Pending(tasks[i := task], e) + multiset(tasks[i].rest)[e] == Pending(tasks, e) + multiset(task.rest)[e]
  {
    var front := tasks[..|tasks| - 1];
    if i < |front| {
      PendingUpdate(front, i, task, e);
      assert tasks[i := task][..|tasks| - 1] == front[i := task];
    } else {
      assert tasks[i := task][..|tasks| - 1] == front;
    }
  }

  lemma PendingPush(tasks: seq<Task>, task: Task, e: Event)
    ensures Pending(tasks + [task], e) == Pending(tasks, e) + multiset(task.rest)[e]
  {
    assert (tasks + [task])[..|tasks|] == tasks;
  }

  /** A line hands its next event to the buffer, or to the store. */
  lemma HandOver(produced: multiset<Event>, written: multiset<Event>, buffer: seq<Event>, tasks: seq<Task>,
                 i: nat, x: Event, task: Task)
    requires Balanced(produced, written, buffer, tasks)
    requires i < |tasks| && tasks[i].rest == [x] + task.rest
    ensures Balanced(produced, written, buffer + [x], tasks[i := task])
    ensures Balanced(produced, written + multiset{x}, buffer, tasks[i := task])
  {
    var after, more, longer := tasks[i := task], written + multiset{x}, buffer + [x];
    forall e ensures BalancedAt(produced, written, longer, after, e) && BalancedAt(produced, more, buffer, after, e)
    {
      assert BalancedAt(produced, written, buffer, tasks, e);
      PendingUpdate(tasks, i, task, e);
      assert multiset(tasks[i].rest) == multiset{x} + multiset(task.rest);
      assert multiset(buffer + [x]) == multiset(buffer) + multiset{x};
    }
  }

  lemma SameRest(produced: multiset<Event>, written: multiset<Event>, buffer: seq<Event>, tasks: seq<Task>,
                 i: nat, task: Task)
    requires Balanced(produced, written, buffer, tasks)
    requires i < |tasks| && tasks[i].rest == task.rest
    ensures Balanced(produced, written, buffer, tasks[i := task])
  {
    var after := tasks[i := task];
    forall e ensures BalancedAt(produced, written, buffer, after, e) {
      assert BalancedAt(produced, written, buffer, tasks, e);
      PendingUpdate(tasks, i, task, e);
    }
  }

  lemma NewLine(produced: multiset<Event>, written: multiset<Event>, buffer: seq<Event>, tasks: seq<Task>, task: Task)
    requires Balanced(produced, written, buffer, tasks)
    ensures Balanced(produced + multiset(task.rest), written, buffer, tasks + [task])
  {
    forall e ensures BalancedAt(produced + multiset(task.rest), written, buffer, tasks + [task], e) {
      assert BalancedAt(produced, written, buffer, tasks, e);
      PendingPush(tasks, task, e);
    }
  }

  lemma NewEvent(produced: multiset<Event>, written: multiset<Event>, buffer: seq<Event>, tasks: seq<Task>, x: Event)
    requires Balanced(produced, written, buffer, tasks)
    ensures Balanced(produced + multiset{x}, written, buffer + [x], tasks)
    ensures Balanced(produced + multiset{x}, written + multiset{x}, buffer, tasks)
  {
    forall e
      ensures BalancedAt(produced + multiset{x}, written, buffer + [x], tasks, e)
      ensures BalancedAt(produced + multiset{x}, written + multiset{x}, buffer, tasks, e)
    {
      assert BalancedAt(produced, written, buffer, tasks, e);
      assert multiset(buffer + [x]) == multiset(buffer) + multiset{x};
    }
  }

  lemma Flushed(produced: multiset<Event>, written: multiset<Event>, buffer: seq<Event>, tasks: seq<Task>)
    requires Balanced(produced, written, buffer, tasks)
    ensures Balanced(produced, written + multiset(buffer), [], tasks)
  {
    forall e ensures BalancedAt(produced, written + multiset(buffer), [], tasks, e) {
      assert BalancedAt(produced, written, buffer, tasks, e);
    }
  }

  lemma {:induction false} PendingNone(tasks: seq<Task>, e: Event)
    requires forall i :: 0 <= i < |tasks| ==> tasks[i].rest == []
    ensures Pending(tasks, e) == 0
  {
    if tasks != [] {
      PendingNone(tasks[..|tasks| - 1], e);
    }
  }

  /** With the lines done and the buffer empty, what was produced is what was written. */
  lemma AllWritten(produced: multiset<Event>, written: multiset<Event>, tasks: seq<Task>)
    requires Balanced(produced, written, [], tasks)
    requires forall i :: 0 <= i < |tasks| ==> tasks[i].rest == []
    ensures produced == written
  {
    forall e ensures produced[e] == written[e] {
      assert BalancedAt(produced, written, [], tasks, e);
      PendingNone(tasks, e);
    }
  }

  class Attempt {
    const interceptor: Option<Interceptor>
    var eventsObserved: nat
    var disengaged: bool
    var cancelled: bool
    var eventBuffer: seq<Event>
    var tasks: seq<Task>
    /** What store.appendEvent was called with: the run lock orders the writes arbitrarily. */
    var written: multiset<Event>
    /** Every event the worker produced, and those of its stdout in order. */
    ghost var produced: multiset<Event>
    ghost var seen: seq<Timed>

    ghost predicate Valid() reads this {
      && (interceptor.None? ==> disengaged)
      && (disengaged ==> !cancelled && eventBuffer == [])
      && (!disengaged ==> written == multiset{})
      && (cancelled ==> eventBuffer == [])
      && (!cancelled ==> Balanced(produced, written, eventBuffer, tasks))
      && (interceptor.Some? ==> eventsObserved <= interceptor.value.thresholdEvents)
      && (interceptor.Some? ==> Decided(interceptor.value, seen, cancelled, disengaged, eventsObserved))
    }

    constructor (interceptor: Option<Interceptor>)
      ensures Valid() && this.interceptor == interceptor && produced == multiset{STARTED} && tasks == []
      ensures !cancelled && seen == []
    {
      this.interceptor := interceptor;
      eventsObserved, disengaged, cancelled := 0, interceptor.None?, false;
      eventBuffer := if interceptor.Some? then [STARTED] else [];
      written := if interceptor.Some? then multiset{} else multiset{STARTED};
      tasks := [];
      produced, seen := multiset{STARTED}, [];
    }

    /** appendEventBuffered */
    method AppendEventBuffered(event: Event)
      modifies this`eventBuffer, this`written
      ensures if interceptor.Some? && !disengaged && !cancelled
              then eventBuffer == old(eventBuffer) + [event] && written == old(written)
              else written == old(written) + multiset{event} && eventBuffer == old(eventBuffer)
    {
      if interceptor.Some? && !disengaged && !cancelled {
        eventBuffer := eventBuffer + [event];
      } else {
        written := written + multiset{event};
      }
    }

    /** Hand every buffered event to the store and empty the buffer. */
    method FlushBuffer()
      modifies this`eventBuffer, this`written
      ensures eventBuffer == [] && written == old(written) + multiset(old(eventBuffer))
    {
      var i := 0;
      while i < |eventBuffer|
        invariant i <= |eventBuffer| && eventBuffer == old(eventBuffer)
        invariant written == old(written) + multiset(eventBuffer[..i])
      {
        assert eventBuffer[..i + 1] == eventBuffer[..i] + [eventBuffer[i]];
        written := written + multiset{eventBuffer[i]};
        i := i + 1;
      }
      assert eventBuffer[..i] == eventBuffer;
      eventBuffer := [];
    }

    /** The rest of a line is not classified: what has been decided stands. */
    ghost method SeeRest(rest: seq<Timed>)
      requires Valid() && (cancelled || disengaged)
      modifies this`seen
      ensures Valid() && seen == old(seen) + rest
    {
      if interceptor.Some? {
        DecisionStands(interceptor.value, seen, rest);
      }
      seen := seen + rest;
    }

    /**
     * interceptorAborted: classify the events of a line until one calls for a retry or the
     * thresholds are passed. `elapsed` holds the clock reading taken for each event.
     */
    method InterceptorAborted(events: seq<Event>, elapsed: seq<nat>) returns (aborted: bool)
      requires Valid() && |elapsed| == |events|
      modifies this`eventsObserved, this`disengaged, this`cancelled, this`eventBuffer, this`written, this`seen
      ensures Valid() && aborted == (cancelled && !old(cancelled))
      ensures old(cancelled) ==> cancelled
      ensures seen == old(seen) + TimedLine(events, elapsed)
      ensures aborted ==> exists event <- events :: event.wantsRetry
      ensures !aborted && !old(disengaged) && !old(cancelled) && !disengaged ==>
        forall event <- events :: !event.wantsRetry
    {
      ghost var line := TimedLine(events, elapsed);
      if interceptor.None? || disengaged || cancelled {
        SeeRest(line);
        return false;
      }
      var i := 0;
      while i < |events|
        invariant i <= |events| && Valid() && !disengaged && !cancelled
        invariant seen == old(seen) + line[..i]
        invariant forall j :: 0 <= j < i ==> !events[j].wantsRetry
      {
        var within := eventsObserved < interceptor.value.thresholdEvents && elapsed[i] < interceptor.value.thresholdMs;
        SeeNext(interceptor.value, seen, line[i]);
        assert seen + [line[i]] + line[i + 1..] == old(seen) + line;
        seen := seen + [line[i]];
        if !within {
          Flushed(produced, written, eventBuffer, tasks);
          FlushBuffer();
          disengaged := true;
          SeeRest(line[i + 1..]);
          return false;
        }
        eventsObserved := eventsObserved + 1;
        if events[i].wantsRetry {
          cancelled := true;
          eventBuffer := [];
          SeeRest(line[i + 1..]);
          return true;
        }
        assert line[..i + 1] == line[..i] + [line[i]];
        i := i + 1;
      }
      assert line[..i] == line;
      aborted := false;
    }

    /** Task `i` appends its next event, unless the attempt was cancelled meanwhile. */
    method Continue(i: nat)
      requires Valid() && i < |tasks| && !tasks[i].atMeta
      modifies this`tasks, this`eventBuffer, this`written
      ensures Valid() && cancelled == old(cancelled) && disengaged == old(disengaged)
      ensures |tasks| == |old(tasks)| && !tasks[i].atMeta
      ensures forall j :: 0 <= j < |tasks| && j != i ==> tasks[j] == old(tasks)[j]
      ensures tasks[i].rest == (if cancelled || old(tasks)[i].rest == [] then [] else old(tasks)[i].rest[1..])
    {
      var rest := tasks[i].rest;
      if cancelled || rest == [] {
        if !cancelled {
          SameRest(produced, written, eventBuffer, tasks, i, Task([], false));
        }
        tasks := tasks[i := Task([], false)];
        return;
      }
      assert rest == [rest[0]] + rest[1..];
      HandOver(produced, written, eventBuffer, tasks, i, rest[0], Task(rest[1..], false));
      tasks := tasks[i := Task(rest[1..], false)];
      AppendEventBuffered(rest[0]);
    }

    /** A stdout line: handleJsonLine up to its first await. */
    method OnLine(events: seq<Event>, needsMeta: bool, elapsed: seq<nat>)
      requires Valid() && |elapsed| == |events|
      modifies this
      ensures Valid() && produced == old(produced) + multiset(events)
      ensures old(cancelled) ==> cancelled && tasks == old(tasks)
      ensures seen == old(seen) + TimedLine(events, elapsed)
    {
      produced := produced + multiset(events);
      if cancelled {
        SeeRest(TimedLine(events, elapsed));
        return;
      }
      NewLine(old(produced), written, eventBuffer, tasks, Task(events, needsMeta));
      tasks := tasks + [Task(events, needsMeta)];
      var aborted := InterceptorAborted(events, elapsed);
      if aborted {
        tasks := tasks[|tasks| - 1 := Task([], false)];
        return;
      }
      if !needsMeta {
        Continue(|tasks| - 1);
      }
    }

    /** The await task `i` was suspended at resolves. */
    method Resume(i: nat)
      requires Valid() && i < |tasks|
      modifies this`tasks, this`eventBuffer, this`written
      ensures Valid() && cancelled == old(cancelled) && |tasks| == |old(tasks)|
      ensures forall j :: 0 <= j < |tasks| && j != i ==> tasks[j] == old(tasks)[j]
      ensures !tasks[i].atMeta && |tasks[i].rest| <= |old(tasks)[i].rest|
      ensures old(tasks)[i].rest != [] ==> |tasks[i].rest| < |old(tasks)[i].rest|
    {
      if !cancelled {
        SameRest(produced, written, eventBuffer, tasks, i, tasks[i].(atMeta := false));
      }
      tasks := tasks[i := tasks[i].(atMeta := false)];
      Continue(i);
    }

    /** A stderr line that surfaces as an error event. */
    method OnStderr(event: Event)
      requires Valid()
      modifies this`eventBuffer, this`written, this`produced
      ensures Valid() && produced == old(produced) + multiset{event} && cancelled == old(cancelled)
    {
      if cancelled {
        produced := produced + multiset{event};
        return;
      }
      NewEvent(produced, written, eventBuffer, tasks, event);
      produced := produced + multiset{event};
      AppendEventBuffered(event);
    }

    /** Promise.allSettled(parseTasks): every line runs to its end. */
    method SettleTasks()
      requires Valid()
      modifies this`tasks, this`eventBuffer, this`written
      ensures Valid() && cancelled == old(cancelled)
      ensures forall i :: 0 <= i < |tasks| ==> tasks[i].rest == []
    {
      var i := 0;
      while i < |tasks|
        invariant Valid() && cancelled == old(cancelled) && i <= |tasks| == |old(tasks)|
        invariant forall j :: 0 <= j < i ==> tasks[j].rest == []
      {
        while tasks[i].rest != []
          invariant Valid() && cancelled == old(cancelled) && i < |tasks| == |old(tasks)|
          invariant forall j :: 0 <= j < i ==> tasks[j].rest == []
          decreases |tasks[i].rest|
        {
          Resume(i);
        }
        i := i + 1;
      }
    }

    /**
     * The close handler, once the streams and the line tasks have settled: an attempt that
     * ends in a retry has written nothing, one that is finalized has written every event
     * the worker produced exactly as often as it produced it.
     */
    method OnClose() returns (outcome: Outcome)
      requires Valid()
      modifies this
      ensures outcome.Retry? <==> old(cancelled)
      ensures outcome.Retry? <==> interceptor.Some? && Asks(interceptor.value, old(seen))
      ensures outcome.Retry? ==>
        && written == multiset{} && 0 < outcome.observedEvents <= |old(seen)|
        && AsksAt(interceptor.value, old(seen), outcome.observedEvents - 1)
      ensures outcome.Finalize? ==> written == old(produced) && produced == old(produced)
    {
      assert interceptor.Some? && disengaged ==> !Asks(interceptor.value, seen);
      SettleTasks();
      if cancelled {
        return Retry(eventsObserved);
      }
      Flushed(produced, written, eventBuffer, tasks);
      if interceptor.Some? && !disengaged && |eventBuffer| > 0 {
        disengaged := true;
        FlushBuffer();
      }
      AllWritten(produced, written, tasks);
      outcome := Finalize;
    }
  }

  // ---------- every interleaving, and the retry loop ----------

  /** What may happen to an attempt while its worker runs. A resumption of no task does nothing. */
  datatype Input =
    | Line(events: seq<Event>, needsMeta: bool, elapsed: seq<nat>)
    | Resumed(task: nat)
    | Stderr(event: Event)

  predicate WellFormed(script: seq<Input>) {
    forall input <- script :: input.Line? ==> |input.elapsed| == |input.events|
  }

  function EventsOf(input: Input): multiset<Event> {
    match input
    case Line(events, _, _) => multiset(events)
    case Resumed(_) => multiset{}
    case Stderr(event) => multiset{event}
  }

  function ProducedBy(script: seq<Input>): multiset<Event> {
    if script == [] then multiset{STARTED}
    else ProducedBy(script[..|script| - 1]) + EventsOf(script[|script| - 1])
  }

  /** The events of the attempt's stdout, in order, with the times at which they are classified. */
  function TimedOf(input: Input): seq<Timed> {
    if input.Line? && |input.elapsed| == |input.events| then TimedLine(input.events, input.elapsed) else []
  }

  function Stdout(script: seq<Input>): seq<Timed> {
    if script == [] then [] else Stdout(script[..|script| - 1]) + TimedOf(script[|script| - 1])
  }

  /**
   * The worker's stdout makes the interceptor ask for a retry: some event calls for it, and it
   * and all before it come within both thresholds.
   */
  ghost predicate AsksRetry(interceptor: Option<Interceptor>, script: seq<Input>) {
    interceptor.Some? && Asks(interceptor.value, Stdout(script))
  }

  method Deliver(attempt: Attempt, input: Input)
    requires attempt.Valid() && (input.Line? ==> |input.elapsed| == |input.events|)
    modifies attempt
    ensures attempt.Valid() && attempt.produced == old(attempt.produced) + EventsOf(input)
    ensures attempt.seen == old(attempt.seen) + TimedOf(input)
  {
    match input {
      case Line(events, needsMeta, elapsed) => attempt.OnLine(events, needsMeta, elapsed);
      case Resumed(task) =>
        if task < |attempt.tasks| {
          attempt.Resume(task);
        }
      case Stderr(event) => attempt.OnStderr(event);
    }
  }

  lemma ScriptMore(script: seq<Input>, i: nat)
    requires i < |script|
    ensures ProducedBy(script[..i + 1]) == ProducedBy(script[..i]) + EventsOf(script[i]) && script[i] in script
    ensures Stdout(script[..i + 1]) == Stdout(script[..i]) + TimedOf(script[i])
  {
    assert script[..i + 1][..i] == script[..i];
  }

  /** executeAttempt under one interleaving of its callbacks. */
  method ExecuteAttempt(interceptor: Option<Interceptor>, script: seq<Input>)
    returns (outcome: Outcome, written: multiset<Event>)
    requires WellFormed(script)
    ensures outcome.Retry? <==> AsksRetry(interceptor, script)
    ensures outcome.Retry? ==>
      && written == multiset{} && 0 < outcome.observedEvents <= |Stdout(script)|
      && AsksAt(interceptor.value, Stdout(script), outcome.observedEvents - 1)
    ensures outcome.Finalize? ==> written == ProducedBy(script)
  {
    var attempt := new Attempt(interceptor);
    var i := 0;
    while i < |script|
      invariant i <= |script| && attempt.Valid() && attempt.interceptor == interceptor
      invariant attempt.produced == ProducedBy(script[..i]) && attempt.seen == Stdout(script[..i])
    {
      ScriptMore(script, i);
      Deliver(attempt, script[i]);
      i := i + 1;
    }
    assert script[..i] == script;
    outcome := attempt.OnClose();
    written := attempt.written;
  }

  /**
   * ProcessManager.start: the retry invocation carries no interceptor, so there are at most
   * two attempts, and the log holds either the first attempt's events or the retry marker
   * and the second attempt's. `scripts` is how the worker of each attempt behaves.
   */
  method Start(interceptor: Option<Interceptor>, scripts: nat -> seq<Input>)
    returns (log: multiset<Event>, attempts: nat)
    requires forall k: nat :: WellFormed(scripts(k))
    ensures attempts == if AsksRetry(interceptor, scripts(0)) then 2 else 1
    ensures log == if attempts == 1 then ProducedBy(scripts(0)) else multiset{RETRY_MARKER} + ProducedBy(scripts(1))
  {
    var outcome;
    outcome, log := ExecuteAttempt(interceptor, scripts(0));
    attempts := 1;
    while outcome.Retry?
      invariant attempts == 1 || (attempts == 2 && outcome.Finalize?)
      invariant AsksRetry(interceptor, scripts(0)) <==> outcome.Retry? || attempts == 2
      invariant outcome.Retry? ==> log == multiset{}
      invariant outcome.Finalize? && attempts == 1 ==> log == ProducedBy(scripts(0))
      invariant attempts == 2 ==> log == multiset{RETRY_MARKER} + ProducedBy(scripts(1))
      decreases 2 - attempts
    {
      log := log + multiset{RETRY_MARKER};
      var written;
      outcome, written := ExecuteAttempt(None, scripts(attempts));
      log := log + written;
      attempts := attempts + 1;
    }
  }
}
