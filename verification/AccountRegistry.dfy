/**
 * The account registry: what each update does to the list of accounts, and the chained
 * promises that make concurrent read-modify-write updates of the one file take turns.
 */
module AccountRegistry {
  import opened Prelude

  // ---------- updates of the list ----------

  datatype Mode = ConfigDir | ApiEnv

  datatype Account = Account(name: string, mode: Mode, registeredAt: nat,
                             cooldownUntil: Option<nat>, lastError: Option<string>)

  datatype Update =
    | Upsert(name: string, mode: Mode, at: nat)
    | Remove(name: string)
    | CoolDown(name: string, until: nat, category: string)
    | ClearExpired(now: nat)

  /** A file of another schema version is left alone by every update. */
  datatype File = Accounts(list: seq<Account>) | OtherVersion

  /** accounts.findIndex by name, the length when there is none. */
  function IndexOf(list: seq<Account>, name: string): (i: nat)
    ensures i <= |list|
    ensures i < |list| ==> list[i].name == name
    ensures forall j :: 0 <= j < i ==> list[j].name != name
  {
    if list == [] || list[0].name == name then 0 else 1 + IndexOf(list[1..], name)
  }

  predicate Expired(a: Account, now: nat) {
    a.cooldownUntil.Some? && a.cooldownUntil.value <= now
  }

  function Thaw(a: Account, now: nat): Account {
    if Expired(a, now) then a.(cooldownUntil := None) else a
  }

  function Updated(list: seq<Account>, u: Update): seq<Account> {
    match u
    case Upsert(name, mode, at) =>
      var i := IndexOf(list, name);
      if i == |list| then list + [Account(name, mode, at, None, None)]
      else list[i := Account(name, mode, list[i].registeredAt, None, None)]
    case Remove(name) =>
      var i := IndexOf(list, name);
      if i == |list| then list else list[..i] + list[i + 1..]
    case CoolDown(name, until, category) =>
      var i := IndexOf(list, name);
      if i == |list| then list
      else list[i := list[i].(cooldownUntil := Some(until), lastError := Some(category))]
    case ClearExpired(now) => seq(|list|, i requires 0 <= i < |list| => Thaw(list[i], now))
  }

  function Apply(file: File, u: Update): File {
    if file.OtherVersion? then file else Accounts(Updated(file.list, u))
  }

  /** The loop of clearExpiredCooldowns, and the count it returns. */
  method ClearExpiredCooldowns(list: seq<Account>, now: nat) returns (accounts: seq<Account>, cleared: nat)
    ensures accounts == Updated(list, ClearExpired(now))
    ensures |accounts| == |list| && forall i :: 0 <= i < |list| ==>
      accounts[i] == if list[i].cooldownUntil.Some? && list[i].cooldownUntil.value <= now
                     then list[i].(cooldownUntil := None) else list[i]
    ensures cleared == |set i | 0 <= i < |list| && accounts[i] != list[i]|
    ensures cleared == 0 <==> accounts == list
  {
    accounts, cleared := list, 0;
    ghost var done: set<int> := {};
    var index := 0;
    while index < |list|
      invariant index <= |list| == |accounts|
      invariant forall j :: 0 <= j < index ==> accounts[j] == Thaw(list[j], now)
      invariant forall j :: index <= j < |list| ==> accounts[j] == list[j]
      invariant done == (set i | 0 <= i < |list| && accounts[i] != list[i]) && cleared == |done|
      invariant forall i <- done :: i < index
    {
      if Expired(accounts[index], now) {
        accounts := accounts[index := accounts[index].(cooldownUntil := None)];
        done := done + {index};
        cleared := cleared + 1;
      }
      index := index + 1;
    }
    if accounts != list {
      var i :| 0 <= i < |list| && accounts[i] != list[i];
      assert i in done;
    } else {
      assert done == {};
    }
  }

  ghost predicate NamesDistinct(list: seq<Account>) {
    forall i, j :: 0 <= i < j < |list| ==> list[i].name != list[j].name
  }

  function Lookup(list: seq<Account>, name: string): Option<Account> {
    var i := IndexOf(list, name);
    if i < |list| then Some(list[i]) else None
  }

  predicate Touches(u: Update, name: string) {
    u.ClearExpired? || u.name == name
  }

  lemma IndexOfUnique(list: seq<Account>, i: nat)
    requires NamesDistinct(list) && i < |list|
    ensures IndexOf(list, list[i].name) == i
  {
  }

  /** An update keeps names distinct and leaves every account it does not name as it was. */
  lemma UpdateKeepsOthers(list: seq<Account>, u: Update, name: string)
    requires NamesDistinct(list)
    ensures NamesDistinct(Updated(list, u))
    ensures !Touches(u, name) ==> Lookup(Updated(list, u), name) == Lookup(list, name)
  {
    var after := Updated(list, u);
    if !Touches(u, name) {
      var i, j := IndexOf(list, name), IndexOf(after, name);
      if i < |list| {
        var k := if u.Remove? && IndexOf(list, u.name) < i then i - 1 else i;
        assert after[k] == list[i];
        IndexOfUnique(after, k);
      }
    }
  }

  /** What each update does to the account it names. */
  lemma UpdateOfNamed(list: seq<Account>, u: Update)
    requires NamesDistinct(list)
    ensures u.Upsert? ==> Lookup(Updated(list, u), u.name) == Some(Account(u.name, u.mode,
              if Lookup(list, u.name).Some? then Lookup(list, u.name).value.registeredAt else u.at, None, None))
    ensures u.Remove? ==> Lookup(Updated(list, u), u.name) == None
    ensures u.CoolDown? && Lookup(list, u.name).None? ==> Lookup(Updated(list, u), u.name) == None
    ensures u.CoolDown? && Lookup(list, u.name).Some? ==>
      Lookup(Updated(list, u), u.name)
        == Some(Lookup(list, u.name).value.(cooldownUntil := Some(u.until), lastError := Some(u.category)))
    ensures u.ClearExpired? ==> |Updated(list, u)| == |list| && forall i :: 0 <= i < |list| ==>
      Updated(list, u)[i] == if list[i].cooldownUntil.Some? && list[i].cooldownUntil.value <= u.now
                             then list[i].(cooldownUntil := None) else list[i]
  {
    var after := Updated(list, u);
    if !u.ClearExpired? {
      var i := IndexOf(list, u.name);
      UpdateKeepsOthers(list, u, "");
      if !u.Remove? && i < |after| {
        IndexOfUnique(after, i);
      }
    }
  }

  /**
   * What an update does to the list, account by account: an upsert keeps the registration time
   * of a known account in its place and puts a new one at the end; a removal leaves the others in
   * their order; a cooldown changes a known account in its place.
   */
  lemma UpdateInPlace(list: seq<Account>, u: Update)
    requires NamesDistinct(list)
    ensures var (after, known) := (Updated(list, u), !u.ClearExpired? && exists a <- list :: a.name == u.name);
      && (u.Upsert? ==>
            && |after| == |list| + (if known then 0 else 1)
            && (!known ==> after[|list|] == Account(u.name, u.mode, u.at, None, None))
            && forall i :: 0 <= i < |list| ==>
                 after[i] == if list[i].name == u.name then Account(u.name, u.mode, list[i].registeredAt, None, None)
                             else list[i])
      && (u.Remove? ==> Selects(list, after, (a: Account) => a.name != u.name))
      && (u.CoolDown? ==>
            && |after| == |list|
            && forall i :: 0 <= i < |list| ==>
                 after[i] == if list[i].name == u.name
                             then list[i].(cooldownUntil := Some(u.until), lastError := Some(u.category)) else list[i])
  {
    if !u.ClearExpired? {
      var i := IndexOf(list, u.name);
      if i < |list| {
        assert list[i] in list;
      }
      if u.Remove? {
        RemoveSelects(list, u.name);
      }
    }
  }

  /** Without one position, or with all of them. */
  lemma SkipSelects(list: seq<Account>, i: nat, other: Account -> bool)
    requires i <= |list| && forall j :: 0 <= j < |list| ==> (other(list[j]) <==> j != i)
    ensures Selects(list, list[..i] + (if i < |list| then list[i + 1..] else []), other)
  {
    var left := list[..i] + (if i < |list| then list[i + 1..] else []);
    var at: seq<nat> := seq(|left|, k requires 0 <= k < |left| => if k < i then k else k + 1);
    forall j: nat ensures j in at <==> j < |list| && other(list[j]) {
      if j < |list| && j != i {
        assert at[if j < i then j else j - 1] == j;
      }
    }
    assert SelectedAt(list, left, other, at);
  }

  lemma RemoveSelects(list: seq<Account>, name: string)
    requires NamesDistinct(list)
    ensures Selects(list, Updated(list, Remove(name)), (a: Account) => a.name != name)
  {
    var i := IndexOf(list, name);
    SkipSelects(list, i, (a: Account) => a.name != name);
    if i == |list| {
      assert list[..i] + [] == list;
    }
  }

  // ---------- the lock ----------

  /** Between its awaits an update waits, has the lock, or has read the file. */
  datatype Stage = Waiting | Entered | Loaded(file: File) | Written

  /** `id` names the promise the caller put in the map, `previous` the one it found there. */
  datatype Call = Call(id: nat, stage: Stage)

  /**
   * The file, the map entry of its lock, the promises made so far (each with the one it is
   * chained to and the update it guards), those whose release was called, and the calls.
   */
  datatype State = State(file: File, entry: Option<nat>, previous: seq<Option<nat>>, updates: seq<Update>,
                         released: set<nat>, calls: map<nat, Call>, served: nat)

  datatype Action =
    | Arrive(t: nat, update: Update)
    | Enter(t: nat)
    | Load(t: nat)
    | Write(t: nat)
    | Leave(t: nat)

  function Start(file: File): State {
    State(file, None, [], [], {}, map[], 0)
  }

  /** previous.then(() => released): both must have resolved. */
  predicate Resolved(s: State, id: nat)
    decreases id
  {
    && id in s.released && id < |s.previous|
    && (s.previous[id].None? || (s.previous[id].value < id && Resolved(s, s.previous[id].value)))
  }

  predicate MayEnter(s: State, id: nat) {
    id < |s.previous| && (s.previous[id].None? || Resolved(s, s.previous[id].value))
  }

  predicate Enabled(s: State, a: Action) {
    match a
    case Arrive(t, _) => t !in s.calls
    case Enter(t) => t in s.calls && s.calls[t].stage.Waiting? && MayEnter(s, s.calls[t].id)
    case Load(t) => t in s.calls && s.calls[t].stage.Entered?
    case Write(t) => t in s.calls && s.calls[t].stage.Loaded? && s.calls[t].id < |s.updates|
    case Leave(t) => t in s.calls && s.calls[t].stage.Written?
  }

  function Next(s: State, a: Action): State {
    if !Enabled(s, a) then s
    else match a
      case Arrive(t, update) =>
        var id := |s.previous|;
        s.(entry := Some(id), previous := s.previous + [s.entry], updates := s.updates + [update],
           calls := s.calls[t := Call(id, Waiting)])
      case Enter(t) => s.(calls := s.calls[t := s.calls[t].(stage := Entered)])
      case Load(t) => s.(calls := s.calls[t := s.calls[t].(stage := Loaded(s.file))])
      case Write(t) =>
        s.(file := Apply(s.calls[t].stage.file, s.updates[s.calls[t].id]),
           calls := s.calls[t := s.calls[t].(stage := Written)])
      case Leave(t) =>
        var id := s.calls[t].id;
        s.(released := s.released + {id}, served := s.served + 1,
           entry := if s.entry == Some(id) then None else s.entry,
           calls := map u | u in s.calls && u != t :: s.calls[u])
  }

  function Run(file: File, schedule: seq<Action>): State {
    if schedule == [] then Start(file)
    else Next(Run(file, schedule[..|schedule| - 1]), schedule[|schedule| - 1])
  }

  /** The updates applied one after another. */
  function Fold(file: File, updates: seq<Update>): File {
    if updates == [] then file else Apply(Fold(file, updates[..|updates| - 1]), updates[|updates| - 1])
  }

  ghost predicate CallOk(file: File, served: nat, made: nat, c: Call) {
    && served <= c.id < made
    && (!c.stage.Waiting? ==> c.id == served)
    && (c.stage.Loaded? ==> c.stage.file == file)
  }

  ghost predicate HasCall(calls: map<nat, Call>, id: nat) {
    exists t :: t in calls && calls[t].id == id
  }

  /** The update being served has reached the file. */
  ghost predicate Wrote(s: State) {
    exists t :: t in s.calls && s.calls[t].stage.Written?
  }

  ghost predicate Chained(s: State) {
    && |s.updates| == |s.previous| && s.served <= |s.previous|
    && (forall i: nat :: i in s.released <==> i < s.served)
    && (forall i :: 0 <= i < |s.previous| ==>
          if s.previous[i].Some? then s.previous[i] == Some(i - 1) else i <= s.served)
    && s.entry == if s.served < |s.previous| then Some(|s.previous| - 1) else None
  }

  ghost predicate CallsInv(s: State) {
    && (forall t <- s.calls :: CallOk(s.file, s.served, |s.previous|, s.calls[t]))
    && (forall t, u :: t in s.calls && u in s.calls && t != u ==> s.calls[t].id != s.calls[u].id)
    && (forall i: nat :: s.served <= i < |s.previous| ==> HasCall(s.calls, i))
  }

  ghost predicate FileInv(start: File, s: State)
    requires Chained(s)
  {
    && (Wrote(s) ==> s.served < |s.updates|)
    && s.file == Fold(start, s.updates[..if Wrote(s) then s.served + 1 else s.served])
  }

  ghost predicate Inv(start: File, s: State) {
    Chained(s) && CallsInv(s) && FileInv(start, s)
  }

  lemma {:induction false} ResolvedIffServed(s: State, id: nat)
    requires Chained(s) && id < |s.previous|
    ensures Resolved(s, id) <==> id < s.served
    decreases id
  {
    if s.previous[id].Some? {
      ResolvedIffServed(s, id - 1);
    }
  }

  lemma OthersStay(s: State, a: Action, i: nat)
    requires CallsInv(s) && Enabled(s, a) && HasCall(s.calls, i)
    requires !(a.Leave? && s.calls[a.t].id == i)
    ensures HasCall(Next(s, a).calls, i)
  {
    var t :| t in s.calls && s.calls[t].id == i;
    assert t in Next(s, a).calls && Next(s, a).calls[t].id == i;
  }

  lemma NextKeepsCalls(start: File, s: State, a: Action)
    requires Inv(start, s) && Enabled(s, a)
    ensures Chained(Next(s, a)) && CallsInv(Next(s, a))
  {
    var s' := Next(s, a);
    if a.Enter? {
      var id := s.calls[a.t].id;
      if s.previous[id].Some? {
        ResolvedIffServed(s, id - 1);
      }
    }
    forall i: nat | s'.served <= i < |s'.previous| ensures HasCall(s'.calls, i) {
      if a.Arrive? && i == |s.previous| {
        assert s'.calls[a.t].id == i;
      } else {
        assert HasCall(s.calls, i);
        OthersStay(s, a, i);
      }
    }
  }

  lemma NextKeepsFile(start: File, s: State, a: Action)
    requires Inv(start, s) && Enabled(s, a) && Chained(Next(s, a))
    ensures FileInv(start, Next(s, a))
  {
    var s' := Next(s, a);
    match a
    case Arrive(t, u) =>
      assert Wrote(s) <==> Wrote(s') by {
        if v :| v in s.calls && s.calls[v].stage.Written? { assert s'.calls[v].stage.Written?; }
      }
      var k := if Wrote(s) then s.served + 1 else s.served;
      assert s'.updates[..k] == s.updates[..k];
    case Enter(t) =>
      assert !Wrote(s) && !Wrote(s');
    case Load(t) =>
      assert !Wrote(s) && !Wrote(s');
    case Write(t) =>
      assert !Wrote(s);
      assert s'.calls[t].stage.Written?;
      assert s.updates[..s.served + 1][..s.served] == s.updates[..s.served];
    case Leave(t) =>
      assert Wrote(s) && !Wrote(s');
  }

  lemma {:induction false} RunKeepsInv(start: File, schedule: seq<Action>)
    ensures Inv(start, Run(start, schedule))
  {
    if schedule != [] {
      var s, a := Run(start, schedule[..|schedule| - 1]), schedule[|schedule| - 1];
      RunKeepsInv(start, schedule[..|schedule| - 1]);
      if Enabled(s, a) {
        NextKeepsCalls(start, s, a);
        NextKeepsFile(start, s, a);
      }
    }
  }

  // ---------- what the lock guarantees ----------

  /** At most one update is between entering and leaving, and it is the earliest arrival not yet served. */
  lemma OneAtATimeInOrder(start: File, schedule: seq<Action>, t: nat, u: nat)
    requires var s := Run(start, schedule);
      t in s.calls && u in s.calls && t != u && !s.calls[t].stage.Waiting?
    ensures var s := Run(start, schedule); s.calls[u].stage.Waiting? && s.calls[t].id < s.calls[u].id
  {
    RunKeepsInv(start, schedule);
  }

  lemma {:induction false} FoldVersion(start: File, updates: seq<Update>)
    ensures Fold(start, updates).OtherVersion? <==> start.OtherVersion?
  {
    if updates != [] {
      FoldVersion(start, updates[..|updates| - 1]);
    }
  }

  /** A file of another version stays as it is, whatever is updated; one that can be read stays so. */
  lemma VersionStays(start: File, schedule: seq<Action>)
    ensures Run(start, schedule).file.OtherVersion? <==> start.OtherVersion?
  {
    NoLostUpdate(start, schedule);
    var s := Run(start, schedule);
    FoldVersion(start, s.updates[..s.served]);
    if s.served < |s.updates| {
      FoldVersion(start, s.updates[..s.served + 1]);
    }
  }

  /** One more update takes the list that the earlier ones left to the one that it makes of it. */
  lemma FoldExtends(list: seq<Account>, updates: seq<Update>, u: Update)
    ensures Fold(Accounts(list), updates).Accounts?
    ensures Fold(Accounts(list), updates + [u]) == Accounts(Updated(Fold(Accounts(list), updates).list, u))
  {
    FoldVersion(Accounts(list), updates);
    assert (updates + [u])[..|updates|] == updates;
  }

  /** No update is lost: the file is the fold of the updates served so far, in arrival order, at every instant. */
  lemma NoLostUpdate(start: File, schedule: seq<Action>)
    ensures var s := Run(start, schedule);
      && s.served <= |s.updates|
      && (s.file == Fold(start, s.updates[..s.served])
          || (s.served < |s.updates| && s.file == Fold(start, s.updates[..s.served + 1])))
    ensures Run(start, schedule).calls == map[] ==>
      Run(start, schedule).file == Fold(start, Run(start, schedule).updates)
  {
    RunKeepsInv(start, schedule);
    var s := Run(start, schedule);
    if s.calls == map[] {
      assert s.served < |s.previous| ==> HasCall(s.calls, s.served);
      assert s.updates[..|s.updates|] == s.updates;
    }
  }

  /** The map entry is there exactly while some call has not left: no waiter is cut off, no entry leaks. */
  lemma EntryIffWaiters(start: File, schedule: seq<Action>)
    ensures Run(start, schedule).entry.None? <==> Run(start, schedule).calls == map[]
  {
    RunKeepsInv(start, schedule);
    var s := Run(start, schedule);
    if s.entry.Some? {
      assert HasCall(s.calls, s.served);
    }
  }

  /** Whoever waits, somebody can always take the next step. */
  lemma LockNeverStuck(start: File, schedule: seq<Action>)
    requires Run(start, schedule).calls != map[]
    ensures exists a: Action :: !a.Arrive? && Enabled(Run(start, schedule), a)
  {
    RunKeepsInv(start, schedule);
    var s := Run(start, schedule);
    EntryIffWaiters(start, schedule);
    assert HasCall(s.calls, s.served);
    var t :| t in s.calls && s.calls[t].id == s.served;
    match s.calls[t].stage
    case Waiting =>
      if s.previous[s.served].Some? {
        ResolvedIffServed(s, s.served - 1);
      }
      assert Enabled(s, Enter(t));
    case Entered => assert Enabled(s, Load(t));
    case Loaded(_) => assert Enabled(s, Write(t));
    case Written => assert Enabled(s, Leave(t));
  }

  /** Under any interleaving of updates the names in the file stay distinct. */
  lemma {:induction false} NamesStayDistinct(start: File, updates: seq<Update>)
    requires start.Accounts? ==> NamesDistinct(start.list)
    ensures Fold(start, updates).Accounts? ==> NamesDistinct(Fold(start, updates).list)
  {
    if updates != [] {
      NamesStayDistinct(start, updates[..|updates| - 1]);
      var before := Fold(start, updates[..|updates| - 1]);
      if before.Accounts? {
        UpdateKeepsOthers(before.list, updates[|updates| - 1], "");
      }
    }
  }
}
