/**
 * Account rotation: the picker, and the protocol by which concurrent follow-ups on one
 * parent run take turns under a lock made of chained promises, remember in memory what
 * they claimed, and rebuild that memory from the children on disk after a restart.
 */
module Rotation {
  import opened Prelude

  // ---------- picking an account ----------

  datatype Account = Account(name: string, cooldownUntil: Option<nat>)

  predicate CooledDown(a: Account, now: nat) {
    a.cooldownUntil.Some? && a.cooldownUntil.value != 0 && a.cooldownUntil.value > now
  }

  /** The registry as a map from names: a later entry of the same name wins. */
  function ByName(accounts: seq<Account>): map<string, Account> {
    if accounts == [] then map[]
    else ByName(accounts[..|accounts| - 1])[accounts[|accounts| - 1].name := accounts[|accounts| - 1]]
  }

  predicate Healthy(accounts: seq<Account>, name: string, now: nat) {
    name in ByName(accounts) && !CooledDown(ByName(accounts)[name], now)
  }

  /** The names listed before the first occurrence of `name`. */
  function Before(priority: seq<string>, name: string): seq<string> {
    if priority == [] || priority[0] == name then [] else [priority[0]] + Before(priority[1..], name)
  }

  /** The first healthy name of the priority list. */
  function FirstHealthy(accounts: seq<Account>, priority: seq<string>, now: nat): (picked: Option<string>)
    ensures picked.None? ==> forall name <- priority :: !Healthy(accounts, name, now)
    ensures picked.Some? ==> picked.value in priority && Healthy(accounts, picked.value, now)
    ensures picked.Some? ==> forall name <- Before(priority, picked.value) :: !Healthy(accounts, name, now)
  {
    if priority == [] then None
    else if Healthy(accounts, priority[0], now) then Some(priority[0])
    else
      var rest := FirstHealthy(accounts, priority[1..], now);
      assert priority == [priority[0]] + priority[1..];
      rest
  }

  method PickHealthyAccount(accounts: seq<Account>, priority: seq<string>, now: nat)
    returns (picked: Option<Account>, cooldowns: map<string, nat>)
    ensures picked.None? <==> FirstHealthy(accounts, priority, now).None?
    ensures picked.Some? ==>
      && FirstHealthy(accounts, priority, now) == Some(picked.value.name)
      && picked.value in accounts && !CooledDown(picked.value, now)
    ensures picked.None? ==> forall name <- priority | name in ByName(accounts) :: name in cooldowns
    ensures forall name <- cooldowns :: cooldowns[name] > now && exists i: nat ::
      LastNamed(accounts, i, name) && accounts[i].cooldownUntil == Some(cooldowns[name])
  {
    var byName := ByName(accounts);
    ByNameNames(accounts);
    forall name: string
      ensures name in byName ==> exists i: nat :: LastNamed(accounts, i, name) && byName[name] == accounts[i]
    {
      ByNameIsLast(accounts, name);
    }
    cooldowns := map[];
    var i := 0;
    while i < |priority|
      invariant i <= |priority|
      invariant FirstHealthy(accounts, priority, now) == FirstHealthy(accounts, priority[i..], now)
      invariant forall name <- priority[..i] | name in byName :: name in cooldowns
      invariant forall name <- cooldowns :: cooldowns[name] > now
      invariant forall name <- cooldowns :: name in byName && byName[name].cooldownUntil == Some(cooldowns[name])
    {
      var name := priority[i];
      assert priority[i..][0] == name && priority[i..][1..] == priority[i + 1..];
      assert priority[..i + 1] == priority[..i] + [name];
      i := i + 1;
      if name !in byName {
        continue;
      }
      var entry := byName[name];
      if !CooledDown(entry, now) {
        return Some(entry), cooldowns;
      }
      cooldowns := cooldowns[name := entry.cooldownUntil.value];
    }
    assert priority[..|priority|] == priority;
    picked := None;
  }

  lemma {:induction false} ByNameNames(accounts: seq<Account>)
    ensures forall name <- ByName(accounts) :: ByName(accounts)[name].name == name && ByName(accounts)[name] in accounts
  {
    if accounts != [] {
      ByNameNames(accounts[..|accounts| - 1]);
    }
  }

  // ---------- the protocol for one parent ----------

  /** What the parent run froze: its priority list and the account it used. */
  datatype Parent = Parent(priority: seq<string>, prior: Option<string>)

  function Candidates(p: Parent, claimed: set<string>): seq<string> {
    Filter(p.priority, (name: string) => p.prior != Some(name) && name !in claimed)
  }

  /** Where a follow-up stands between two awaits. */
  datatype Stage =
    | Waiting                 // awaits the previous caller's promise
    | Holding                 // owns the lock; has not yet looked at the claims
    | Choosing                // the claims are in memory
    | Chosen(account: string) // an account is picked; the child is not yet on disk
    | Written(account: string)

  /** `ticket` is the promise this caller installed, `previous` the one it found. */
  datatype FollowUp = FollowUp(ticket: nat, previous: nat, stage: Stage)

  datatype Tracker = Tracker(tail: nat, claimed: set<string>, reconstructed: bool)

  /** Promise 0 is the resolved one a new tracker starts with. `served` counts the releases. */
  datatype State = State(children: seq<string>, tracker: Tracker, resolved: set<nat>, served: nat,
                         calls: map<nat, FollowUp>)

  const NEW_TRACKER: Tracker := Tracker(0, {}, false)
  const FRESH: State := State([], NEW_TRACKER, {0}, 0, map[])

  datatype Action =
    | Arrive(t: nat)
    | Acquire(t: nat)
    | Rebuild(t: nat)
    | RebuildFails(t: nat)     // listing the runs failed: the claims start empty
    | Pick(t: nat, accounts: seq<Account>, now: nat)
    | GiveUp(t: nat)           // registry, spawn, settings or createRun failed: nothing on disk
    | Write(t: nat)            // createRun wrote the child's meta.json
    | Claim(t: nat)
    | LoseClaim(t: nat)        // a meta update after createRun threw
    | Restart

  predicate At(s: State, t: nat, stage: Stage) {
    t in s.calls && s.calls[t].stage == stage
  }

  predicate Enabled(s: State, a: Action) {
    match a
    case Arrive(t) => t !in s.calls
    case Acquire(t) => At(s, t, Waiting) && s.calls[t].previous in s.resolved
    case Rebuild(t) => At(s, t, Holding)
    case RebuildFails(t) => At(s, t, Holding) && !s.tracker.reconstructed
    case Pick(t, _, _) => At(s, t, Choosing)
    case GiveUp(t) => t in s.calls && !s.calls[t].stage.Waiting? && !s.calls[t].stage.Written?
    case Write(t) => t in s.calls && s.calls[t].stage.Chosen?
    case Claim(t) => t in s.calls && s.calls[t].stage.Written?
    case LoseClaim(t) => t in s.calls && s.calls[t].stage.Written?
    case Restart => true
  }

  function Move(s: State, t: nat, stage: Stage): State
    requires t in s.calls
  {
    s.(calls := s.calls[t := s.calls[t].(stage := stage)])
  }

  /** releaseLock(), and the call returns. */
  function Release(s: State, t: nat): State
    requires t in s.calls
  {
    s.(calls := map u | u in s.calls && u != t :: s.calls[u],
       resolved := s.resolved + {s.calls[t].ticket}, served := s.served + 1)
  }

  function Elements(names: seq<string>): set<string> {
    set name | name in names
  }

  function Next(p: Parent, s: State, a: Action): State {
    if !Enabled(s, a) then s
    else match a
      case Arrive(t) =>
        var ticket := s.tracker.tail + 1;
        s.(tracker := s.tracker.(tail := ticket), calls := s.calls[t := FollowUp(ticket, s.tracker.tail, Waiting)])
      case Acquire(t) => Move(s, t, Holding)
      case Rebuild(t) =>
        var s' := Move(s, t, Choosing);
        if s.tracker.reconstructed then s'
        else s'.(tracker := s.tracker.(claimed := Elements(s.children), reconstructed := true))
      case RebuildFails(t) => Move(s, t, Choosing).(tracker := s.tracker.(claimed := {}, reconstructed := true))
      case Pick(t, accounts, now) =>
        (match FirstHealthy(accounts, Candidates(p, s.tracker.claimed), now)
         case None => Release(s, t)
         case Some(name) => Move(s, t, Chosen(name)))
      case GiveUp(t) => Release(s, t)
      case Write(t) =>
        var account := s.calls[t].stage.account;
        Move(s, t, Written(account)).(children := s.children + [account])
      case Claim(t) =>
        Release(s, t).(tracker := s.tracker.(claimed := s.tracker.claimed + {s.calls[t].stage.account}))
      case LoseClaim(t) => Release(s, t)
      case Restart => State(s.children, NEW_TRACKER, {0}, 0, map[])
  }

  function Run(p: Parent, schedule: seq<Action>): State {
    if schedule == [] then FRESH
    else Next(p, Run(p, schedule[..|schedule| - 1]), schedule[|schedule| - 1])
  }

  predicate Loses(a: Action) {
    a.RebuildFails? || a.LoseClaim?
  }

  // ---------- the lock ----------

  predicate Holds(f: FollowUp) {
    !f.stage.Waiting?
  }

  ghost predicate InQueue(calls: map<nat, FollowUp>, ticket: nat) {
    exists t :: t in calls && calls[t].ticket == ticket
  }

  ghost predicate TurnOk(f: FollowUp, tail: nat, served: nat) {
    && f.previous + 1 == f.ticket <= tail
    && served < f.ticket
    && (Holds(f) ==> f.ticket == served + 1)
  }

  /** Promises resolve in the order they were installed; the caller whose turn it is holds or may take the lock. */
  ghost predicate Turns(tail: nat, calls: map<nat, FollowUp>, resolved: set<nat>, served: nat) {
    && (forall i: nat :: i in resolved <==> i <= served)
    && served <= tail
    && (forall t <- calls :: TurnOk(calls[t], tail, served))
    && (forall t, u :: t in calls && u in calls && t != u ==> calls[t].ticket != calls[u].ticket)
    && (forall i: nat :: served < i <= tail ==> InQueue(calls, i))
  }

  ghost predicate LockInv(s: State) {
    Turns(s.tracker.tail, s.calls, s.resolved, s.served)
  }

  lemma ArriveKeepsLock(p: Parent, s: State, t: nat)
    requires LockInv(s) && t !in s.calls
    ensures LockInv(Next(p, s, Arrive(t)))
  {
    var s' := Next(p, s, Arrive(t));
    forall i: nat | s'.served < i <= s'.tracker.tail ensures InQueue(s'.calls, i) {
      if i == s'.tracker.tail {
        assert s'.calls[t].ticket == i;
      } else {
        assert InQueue(s.calls, i);
        var u :| u in s.calls && s.calls[u].ticket == i;
        assert s'.calls[u].ticket == i;
      }
    }
  }

  lemma MoveKeepsLock(s: State, t: nat, stage: Stage)
    requires LockInv(s) && t in s.calls
    requires Holds(s.calls[t]) || s.calls[t].previous in s.resolved
    ensures LockInv(Move(s, t, stage))
  {
    var s' := Move(s, t, stage);
    forall i: nat | s'.served < i <= s'.tracker.tail ensures InQueue(s'.calls, i) {
      assert InQueue(s.calls, i);
      var u :| u in s.calls && s.calls[u].ticket == i;
      assert s'.calls[u].ticket == i;
    }
  }

  lemma ReleaseKeepsLock(s: State, t: nat)
    requires LockInv(s) && t in s.calls && Holds(s.calls[t])
    ensures LockInv(Release(s, t))
  {
    var s' := Release(s, t);
    forall i: nat | s'.served < i <= s'.tracker.tail ensures InQueue(s'.calls, i) {
      assert InQueue(s.calls, i);
      var u :| u in s.calls && s.calls[u].ticket == i;
      assert u != t && s'.calls[u].ticket == i;
    }
  }

  lemma NextKeepsLock(p: Parent, s: State, a: Action)
    requires LockInv(s)
    ensures LockInv(Next(p, s, a))
  {
    if Enabled(s, a) {
      match a
      case Arrive(t) => ArriveKeepsLock(p, s, t);
      case Acquire(t) => MoveKeepsLock(s, t, Holding);
      case Rebuild(t) => MoveKeepsLock(s, t, Choosing);
      case RebuildFails(t) => MoveKeepsLock(s, t, Choosing);
      case Pick(t, accounts, now) =>
        ReleaseKeepsLock(s, t);
        var picked := FirstHealthy(accounts, Candidates(p, s.tracker.claimed), now);
        if picked.Some? {
          MoveKeepsLock(s, t, Chosen(picked.value));
        }
      case GiveUp(t) => ReleaseKeepsLock(s, t);
      case Write(t) => MoveKeepsLock(s, t, Written(s.calls[t].stage.account));
      case Claim(t) => ReleaseKeepsLock(s, t);
      case LoseClaim(t) => ReleaseKeepsLock(s, t);
      case Restart =>
    }
  }

  lemma {:induction false} RunKeepsLock(p: Parent, schedule: seq<Action>)
    ensures LockInv(Run(p, schedule))
  {
    if schedule != [] {
      RunKeepsLock(p, schedule[..|schedule| - 1]);
      NextKeepsLock(p, Run(p, schedule[..|schedule| - 1]), schedule[|schedule| - 1]);
    }
  }

  /** At most one follow-up is past the lock, and nobody who arrived earlier is still waiting. */
  lemma OneAtATimeInOrder(p: Parent, schedule: seq<Action>, t: nat, u: nat)
    requires var s := Run(p, schedule); t in s.calls && u in s.calls && t != u && Holds(s.calls[t])
    ensures var s := Run(p, schedule); !Holds(s.calls[u]) && s.calls[t].ticket < s.calls[u].ticket
  {
    RunKeepsLock(p, schedule);
  }

  /** The lock is never lost: as long as calls are waiting, one of them holds the lock or may take it. */
  lemma LockNeverStuck(p: Parent, schedule: seq<Action>)
    requires Run(p, schedule).calls != map[]
    ensures var s := Run(p, schedule);
      exists t :: t in s.calls && (Holds(s.calls[t]) || Enabled(s, Acquire(t)))
  {
    var s := Run(p, schedule);
    RunKeepsLock(p, schedule);
    var u :| u in s.calls;
    assert InQueue(s.calls, s.served + 1);
    var t :| t in s.calls && s.calls[t].ticket == s.served + 1;
    assert Holds(s.calls[t]) || Enabled(s, Acquire(t));
  }

  // ---------- safety of the picks ----------

  ghost predicate Distinct(names: seq<string>) {
    forall i, j :: 0 <= i < j < |names| ==> names[i] != names[j]
  }

  ghost predicate Eligible(p: Parent, name: string) {
    name in p.priority && p.prior != Some(name)
  }

  /** The account a follow-up has put on disk and not yet claimed in memory. */
  ghost predicate Unclaimed(s: State, name: string) {
    exists t :: t in s.calls && s.calls[t].stage == Written(name)
  }

  /** Kept by every action, lost claims included. */
  ghost predicate ClaimsOnDisk(p: Parent, s: State) {
    && (forall name <- s.tracker.claimed :: name in s.children)
    && (forall name <- s.children :: Eligible(p, name))
    && (forall t <- s.calls :: s.calls[t].stage.Chosen? ==> Eligible(p, s.calls[t].stage.account))
    && (forall t <- s.calls :: s.calls[t].stage.Written? ==> s.calls[t].stage.account in s.children)
    && (forall t <- s.calls ::
          !s.calls[t].stage.Waiting? && !s.calls[t].stage.Holding? ==> s.tracker.reconstructed)
    && (!s.tracker.reconstructed ==> s.tracker.claimed == {})
  }

  /** Kept by every action that does not lose a claim. */
  ghost predicate NoneForgotten(s: State) {
    && Distinct(s.children)
    && (s.tracker.reconstructed ==> forall name <- s.children :: name in s.tracker.claimed || Unclaimed(s, name))
    && (forall t <- s.calls :: s.calls[t].stage.Chosen? ==> s.calls[t].stage.account !in s.children)
  }

  lemma NextKeepsClaims(p: Parent, s: State, a: Action)
    requires LockInv(s) && ClaimsOnDisk(p, s)
    ensures ClaimsOnDisk(p, Next(p, s, a))
  {
  }

  lemma NextForgetsNone(p: Parent, s: State, a: Action)
    requires LockInv(s) && ClaimsOnDisk(p, s) && NoneForgotten(s) && !Loses(a)
    ensures NoneForgotten(Next(p, s, a))
  {
    var s' := Next(p, s, a);
    if Enabled(s, a) && s'.tracker.reconstructed {
      forall name <- s'.children ensures name in s'.tracker.claimed || Unclaimed(s', name) {
        if a.Write? && name == s.calls[a.t].stage.account {
          assert s'.calls[a.t].stage == Written(name);
        } else if Unclaimed(s, name) && !a.Restart? {
          var t :| t in s.calls && s.calls[t].stage == Written(name);
          assert t in s'.calls ==> s'.calls[t].stage == Written(name);
        }
      }
    }
  }

  predicate KeepsClaims(schedule: seq<Action>) {
    forall a <- schedule :: !Loses(a)
  }

  lemma {:induction false} RunKeepsClaims(p: Parent, schedule: seq<Action>)
    ensures ClaimsOnDisk(p, Run(p, schedule))
  {
    if schedule != [] {
      var front := schedule[..|schedule| - 1];
      RunKeepsClaims(p, front);
      RunKeepsLock(p, front);
      NextKeepsClaims(p, Run(p, front), schedule[|schedule| - 1]);
    }
  }

  lemma {:induction false} RunForgetsNone(p: Parent, schedule: seq<Action>, more: seq<Action>)
    requires NoneForgotten(Run(p, schedule)) && KeepsClaims(more)
    ensures NoneForgotten(Run(p, schedule + more))
    decreases |more|
  {
    if more == [] {
      assert schedule + more == schedule;
    } else {
      var front, a := more[..|more| - 1], more[|more| - 1];
      assert (schedule + more)[..|schedule + more| - 1] == schedule + front;
      RunForgetsNone(p, schedule, front);
      RunKeepsClaims(p, schedule + front);
      RunKeepsLock(p, schedule + front);
      NextForgetsNone(p, Run(p, schedule + front), a);
    }
  }

  /**
   * In every schedule, restarts included: rotated children use accounts of the frozen list
   * other than the prior one, and every claim in memory is already on disk. When no action
   * loses a claim their accounts are pairwise distinct.
   */
  lemma RotationIsSafe(p: Parent, schedule: seq<Action>)
    ensures var s := Run(p, schedule);
      && (forall name <- s.children :: name in p.priority && p.prior != Some(name))
      && (forall name <- s.tracker.claimed :: name in s.children)
      && (KeepsClaims(schedule) ==> Distinct(s.children))
  {
    RunKeepsClaims(p, schedule);
    if KeepsClaims(schedule) {
      assert [] + schedule == schedule;
      RunForgetsNone(p, [], schedule);
    }
  }

  /**
   * Exactly when the next pick can repeat an account: some child on disk is missing from
   * the claims the picker is looking at.
   */
  lemma PickRepeatsIff(p: Parent, schedule: seq<Action>, t: nat)
    requires At(Run(p, schedule), t, Choosing)
    ensures var s := Run(p, schedule);
      (exists name :: name in s.children && name !in s.tracker.claimed)
      <==> (exists accounts, now, name :: name in s.children && At(Next(p, s, Pick(t, accounts, now)), t, Chosen(name)))
  {
    var s := Run(p, schedule);
    RunKeepsClaims(p, schedule);
    if name :| name in s.children && name !in s.tracker.claimed {
      OnlyHealthy(p, s, name);
      assert At(Next(p, s, Pick(t, [Account(name, None)], 0)), t, Chosen(name));
    }
  }

  // ---------- the order of the picks ----------

  /** The entry of a name that counts: no later one has it. */
  ghost predicate LastNamed(accounts: seq<Account>, i: nat, name: string) {
    i < |accounts| && accounts[i].name == name && forall j :: i < j < |accounts| ==> accounts[j].name != name
  }

  /** Registered, and not cooled down any more. */
  ghost predicate Available(accounts: seq<Account>, name: string, now: nat) {
    exists i: nat :: LastNamed(accounts, i, name)
      && (accounts[i].cooldownUntil.None? || accounts[i].cooldownUntil.value <= now)
  }

  lemma {:induction false} ByNameIsLast(accounts: seq<Account>, name: string)
    ensures name in ByName(accounts) ==> exists i: nat :: LastNamed(accounts, i, name)
    ensures forall i: nat :: LastNamed(accounts, i, name) ==>
      name in ByName(accounts) && ByName(accounts)[name] == accounts[i]
  {
    if accounts != [] {
      var n := |accounts| - 1;
      var front := accounts[..n];
      ByNameIsLast(front, name);
      if accounts[n].name == name {
        assert LastNamed(accounts, n, name);
      } else {
        assert forall i: nat :: LastNamed(accounts, i, name) <==> LastNamed(front, i, name);
      }
    }
  }

  lemma HealthyIsAvailable(accounts: seq<Account>, name: string, now: nat)
    ensures Healthy(accounts, name, now) <==> Available(accounts, name, now)
  {
    ByNameIsLast(accounts, name);
  }

  /** The i-th name is the first that is wanted. */
  ghost predicate FirstAt(names: seq<string>, wanted: string -> bool, i: nat) {
    i < |names| && wanted(names[i]) && forall j :: 0 <= j < i ==> !wanted(names[j])
  }

  lemma FirstAtHead(name: string, rest: seq<string>, wanted: string -> bool, i: nat)
    requires !wanted(name) && FirstAt(rest, wanted, i)
    ensures FirstAt([name] + rest, wanted, i + 1)
  {
  }

  function Wanted(accounts: seq<Account>, keep: string -> bool, now: nat): string -> bool {
    (name: string) => keep(name) && Healthy(accounts, name, now)
  }

  /** The head of the list is picked when it is wanted, and makes no difference otherwise. */
  lemma PickHead(head: string, rest: seq<string>, keep: string -> bool, accounts: seq<Account>, now: nat)
    ensures FirstHealthy(accounts, Filter([head] + rest, keep), now)
         == if Wanted(accounts, keep, now)(head) then Some(head) else FirstHealthy(accounts, Filter(rest, keep), now)
  {
    assert [head][..0] == [];
    FilterConcat([head], rest, keep);
    assert Filter([head], keep) == if keep(head) then [head] else [];
    assert ([head] + Filter(rest, keep))[1..] == Filter(rest, keep);
    assert [] + Filter(rest, keep) == Filter(rest, keep);
  }

  /** The picker behind a filter finds the first name that is admitted and healthy. */
  lemma {:induction false} PicksFirst(priority: seq<string>, keep: string -> bool, accounts: seq<Account>, now: nat)
    ensures var (picked, wanted) := (FirstHealthy(accounts, Filter(priority, keep), now), Wanted(accounts, keep, now));
      && (picked.None? ==> forall name <- priority :: !wanted(name))
      && (picked.Some? ==> exists i: nat :: FirstAt(priority, wanted, i) && priority[i] == picked.value)
    decreases |priority|
  {
    if priority != [] {
      var head, rest, wanted := priority[0], priority[1..], Wanted(accounts, keep, now);
      PicksFirst(rest, keep, accounts, now);
      PickHead(head, rest, keep, accounts, now);
      assert priority == [head] + rest;
      if wanted(head) {
        assert FirstAt(priority, wanted, 0);
      } else {
        var picked := FirstHealthy(accounts, Filter(rest, keep), now);
        if picked.Some? {
          var i: nat :| FirstAt(rest, wanted, i) && rest[i] == picked.value;
          FirstAtHead(head, rest, wanted, i);
          assert priority[i + 1] == picked.value;
        }
      }
    }
  }

  /** The follow-up can be given the account. */
  ghost predicate Usable(p: Parent, s: State, accounts: seq<Account>, now: nat, name: string) {
    p.prior != Some(name) && name !in s.tracker.claimed && Available(accounts, name, now)
  }

  /**
   * A follow-up is given the first account of the frozen list that is not the parent's, not
   * claimed, registered and not cooled down; it is refused, and releases the lock, exactly when
   * the list holds no such account.
   */
  lemma PickIsFirstUsable(p: Parent, schedule: seq<Action>, t: nat, accounts: seq<Account>, now: nat)
    requires At(Run(p, schedule), t, Choosing)
    ensures var (s, s') := (Run(p, schedule), Next(p, Run(p, schedule), Pick(t, accounts, now)));
      && (t !in s'.calls <==> forall name <- p.priority :: !Usable(p, s, accounts, now, name))
      && (t in s'.calls ==> exists i: nat ::
            && i < |p.priority| && At(s', t, Chosen(p.priority[i])) && Usable(p, s, accounts, now, p.priority[i])
            && forall j :: 0 <= j < i ==> !Usable(p, s, accounts, now, p.priority[j]))
  {
    var s := Run(p, schedule);
    var keep := (name: string) => p.prior != Some(name) && name !in s.tracker.claimed;
    var wanted := Wanted(accounts, keep, now);
    PicksFirst(p.priority, keep, accounts, now);
    forall name: string ensures wanted(name) <==> Usable(p, s, accounts, now, name) {
      HealthyIsAvailable(accounts, name, now);
    }
    var picked := FirstHealthy(accounts, Candidates(p, s.tracker.claimed), now);
    assert Candidates(p, s.tracker.claimed) == Filter(p.priority, keep);
    if picked.Some? {
      var i: nat :| FirstAt(p.priority, wanted, i) && p.priority[i] == picked.value;
      assert p.priority[i] in p.priority;
      assert At(Next(p, s, Pick(t, accounts, now)), t, Chosen(p.priority[i]));
    }
  }

  lemma RunExtend(p: Parent, schedule: seq<Action>, a: Action)
    ensures Run(p, schedule + [a]) == Next(p, Run(p, schedule), a)
  {
    assert (schedule + [a])[..|schedule|] == schedule;
  }

  // ---------- when the accounts stay distinct ----------

  /** A child on disk that the claims in memory miss, and that no call is about to claim. */
  ghost predicate Forgotten(s: State, name: string) {
    s.tracker.reconstructed && name in s.children && name !in s.tracker.claimed && !Unclaimed(s, name)
  }

  ghost predicate AnyAt(s: State, stage: Stage) {
    exists t :: At(s, t, stage)
  }

  /** How far the next pick is. */
  ghost function Distance(s: State): nat {
    if AnyAt(s, Choosing) then 0
    else if AnyAt(s, Holding) then 1
    else if exists t :: t in s.calls && Holds(s.calls[t]) then 4
    else if s.calls != map[] then 2
    else 3
  }

  /** Some action brings a pick nearer, without a restart, and leaves the child forgotten. */
  lemma TowardsPick(p: Parent, schedule: seq<Action>, name: string) returns (a: Action)
    requires Forgotten(Run(p, schedule), name) && Distance(Run(p, schedule)) > 0
    ensures !Loses(a) && Forgotten(Next(p, Run(p, schedule), a), name)
    ensures Distance(Next(p, Run(p, schedule), a)) < Distance(Run(p, schedule))
  {
    var s := Run(p, schedule);
    RunKeepsLock(p, schedule);
    if t :| At(s, t, Holding) {
      a := Rebuild(t);
      assert At(Next(p, s, a), t, Choosing);
    } else if t :| t in s.calls && Holds(s.calls[t]) {
      a := if s.calls[t].stage.Written? then Claim(t) else GiveUp(t);
      NobodyHolds(s, t);
    } else if s.calls != map[] {
      LockNeverStuck(p, schedule);
      var t :| t in s.calls && Enabled(s, Acquire(t));
      a := Acquire(t);
      assert At(Next(p, s, a), t, Holding);
    } else {
      a := Arrive(0);
    }
  }

  lemma NobodyHolds(s: State, t: nat)
    requires LockInv(s) && t in s.calls && Holds(s.calls[t])
    ensures forall u <- Release(s, t).calls :: !Holds(s.calls[u])
  {
  }

  lemma PickRebinds(p: Parent, schedule: seq<Action>, name: string) returns (more: seq<Action>)
    requires Forgotten(Run(p, schedule), name) && Distance(Run(p, schedule)) == 0
    ensures KeepsClaims(more) && !Distinct(Run(p, schedule + more).children)
  {
    var s := Run(p, schedule);
    var t :| At(s, t, Choosing);
    var registry := [Account(name, None)];
    RunKeepsClaims(p, schedule);
    OnlyHealthy(p, s, name);
    RunExtend(p, schedule, Pick(t, registry, 0));
    RunExtend(p, schedule + [Pick(t, registry, 0)], Write(t));
    more := [Pick(t, registry, 0)] + [Write(t)];
    assert schedule + more == schedule + [Pick(t, registry, 0)] + [Write(t)];
    RepeatedAtEnd(s.children, name);
  }

  /** A registry in which just this account is healthy has it picked. */
  lemma OnlyHealthy(p: Parent, s: State, name: string)
    requires ClaimsOnDisk(p, s) && name in s.children && name !in s.tracker.claimed
    ensures FirstHealthy([Account(name, None)], Candidates(p, s.tracker.claimed), 0) == Some(name)
  {
    var registry := [Account(name, None)];
    assert ByName(registry) == map[name := Account(name, None)];
    assert name in Candidates(p, s.tracker.claimed);
    assert Healthy(registry, name, 0);
  }

  lemma RepeatedAtEnd(names: seq<string>, name: string)
    requires name in names
    ensures !Distinct(names + [name])
  {
    var i :| 0 <= i < |names| && names[i] == name;
    assert (names + [name])[i] == (names + [name])[|names|];
  }

  lemma {:induction false} ForgottenRebinds(p: Parent, schedule: seq<Action>, name: string) returns (more: seq<Action>)
    requires Forgotten(Run(p, schedule), name)
    ensures KeepsClaims(more) && !Distinct(Run(p, schedule + more).children)
    decreases Distance(Run(p, schedule))
  {
    if Distance(Run(p, schedule)) == 0 {
      more := PickRebinds(p, schedule, name);
    } else {
      var a := TowardsPick(p, schedule, name);
      RunExtend(p, schedule, a);
      var rest := ForgottenRebinds(p, schedule + [a], name);
      more := [a] + rest;
      assert schedule + more == schedule + [a] + rest;
    }
  }

  /**
   * After any schedule: whatever follows without losing a claim, restarts included, keeps the
   * children's accounts pairwise distinct exactly when they are distinct by now, no call has
   * picked an account that is on disk, and every child on disk is in the claims in memory,
   * unless those are still to be rebuilt or its own call is about to claim it.
   */
  lemma StaysDistinctIff(p: Parent, schedule: seq<Action>)
    ensures (forall more :: KeepsClaims(more) ==> Distinct(Run(p, schedule + more).children))
       <==> NoneForgotten(Run(p, schedule))
  {
    var s := Run(p, schedule);
    if NoneForgotten(s) {
      forall more | KeepsClaims(more) ensures Distinct(Run(p, schedule + more).children) {
        RunForgetsNone(p, schedule, more);
      }
    } else {
      var more := SomeRebinding(p, schedule);
      assert KeepsClaims(more) && !Distinct(Run(p, schedule + more).children);
    }
  }

  lemma SomeRebinding(p: Parent, schedule: seq<Action>) returns (more: seq<Action>)
    requires !NoneForgotten(Run(p, schedule))
    ensures KeepsClaims(more) && !Distinct(Run(p, schedule + more).children)
  {
    var s := Run(p, schedule);
    if !Distinct(s.children) {
      more := [];
      assert schedule + more == schedule;
    } else if t :| t in s.calls && s.calls[t].stage.Chosen? && s.calls[t].stage.account in s.children {
      more := [Write(t)];
      RunExtend(p, schedule, Write(t));
      RepeatedAtEnd(s.children, s.calls[t].stage.account);
    } else {
      var name :| name in s.children && name !in s.tracker.claimed && !Unclaimed(s, name);
      more := ForgottenRebinds(p, schedule, name);
    }
  }

  // ---------- losing a claim ----------

  const TWO_ACCOUNTS: Parent := Parent(["main", "spare"], Some("main"))
  const REGISTRY: seq<Account> := [Account("main", None), Account("spare", None)]

  /** One follow-up, up to the child on disk. */
  function FollowUpOf(t: nat): seq<Action> {
    [Arrive(t), Acquire(t), Rebuild(t), Pick(t, REGISTRY, 0), Write(t)]
  }

  lemma PickSpare()
    ensures FirstHealthy(REGISTRY, Candidates(TWO_ACCOUNTS, {}), 0) == Some("spare")
  {
    var keep := (name: string) => TWO_ACCOUNTS.prior != Some(name) && name !in {};
    assert ["main", "spare"][..1] == ["main"] && ["main"][..0] == [];
    assert "main" != "spare";
    assert Filter(["main"], keep) == [];
    assert Candidates(TWO_ACCOUNTS, {}) == ["spare"];
    assert REGISTRY[..1] == [Account("main", None)];
    assert "spare" in ByName(REGISTRY);
  }

  predicate Quiet(s: State) {
    && s.calls == map[] && s.tracker.claimed == {} && s.tracker.tail in s.resolved
    && (s.tracker.reconstructed || s.children == [])
  }

  lemma FollowUpChooses(schedule: seq<Action>, t: nat)
    requires Quiet(Run(TWO_ACCOUNTS, schedule))
    ensures var s := Run(TWO_ACCOUNTS, schedule);
      Run(TWO_ACCOUNTS, schedule + [Arrive(t)] + [Acquire(t)] + [Rebuild(t)])
      == s.(tracker := Tracker(s.tracker.tail + 1, {}, true),
            calls := map[t := FollowUp(s.tracker.tail + 1, s.tracker.tail, Choosing)])
  {
    var p, s := TWO_ACCOUNTS, Run(TWO_ACCOUNTS, schedule);
    var a := schedule + [Arrive(t)];
    RunExtend(p, schedule, Arrive(t));
    assert Run(p, a).calls == map[t := FollowUp(s.tracker.tail + 1, s.tracker.tail, Waiting)];
    RunExtend(p, a, Acquire(t));
    RunExtend(p, a + [Acquire(t)], Rebuild(t));
    assert Elements([]) == {};
  }

  lemma FollowUpWrites(schedule: seq<Action>, t: nat)
    requires Quiet(Run(TWO_ACCOUNTS, schedule))
    ensures var s := Run(TWO_ACCOUNTS, schedule);
      Run(TWO_ACCOUNTS, schedule + FollowUpOf(t))
      == s.(tracker := Tracker(s.tracker.tail + 1, {}, true), children := s.children + ["spare"],
            calls := map[t := FollowUp(s.tracker.tail + 1, s.tracker.tail, Written("spare"))])
  {
    var p := TWO_ACCOUNTS;
    PickSpare();
    FollowUpChooses(schedule, t);
    var b := schedule + [Arrive(t)] + [Acquire(t)] + [Rebuild(t)];
    RunExtend(p, b, Pick(t, REGISTRY, 0));
    RunExtend(p, b + [Pick(t, REGISTRY, 0)], Write(t));
    assert b + [Pick(t, REGISTRY, 0)] + [Write(t)] == schedule + FollowUpOf(t);
  }

  /**
   * A meta update that throws after createRun releases the lock without the claim: the next
   * follow-up in the same daemon binds the account a second time.
   */
  lemma LostClaimRepeats()
    ensures Run(TWO_ACCOUNTS, FollowUpOf(0) + [LoseClaim(0)] + FollowUpOf(1)).children == ["spare", "spare"]
  {
    assert [] + FollowUpOf(0) == FollowUpOf(0);
    FollowUpWrites([], 0);
    RunExtend(TWO_ACCOUNTS, FollowUpOf(0), LoseClaim(0));
    FollowUpWrites(FollowUpOf(0) + [LoseClaim(0)], 1);
  }
}
