/**
 * The grouping of runs into sessions for the observability snapshot: root finding over parent
 * links, the session key, and the counts per session.
 */
module Sessions {
  import opened Prelude

  datatype Run = Run(runId: string, backend: string, session: Option<string>, parent: Option<string>, running: bool)

  type Index = map<string, Run>

  ghost predicate Indexed(runs: Index) {
    forall id <- runs :: runs[id].runId == id
  }

  ghost predicate In(run: Run, runs: Index) {
    run.runId in runs && runs[run.runId] == run
  }

  // ---------- roots ----------

  function ParentOf(run: Run, runs: Index): Option<Run> {
    if run.parent.Some? && run.parent.value in runs then Some(runs[run.parent.value]) else None
  }

  function Ancestor(run: Run, runs: Index, n: nat): Option<Run>
    decreases n
  {
    if n == 0 then Some(run)
    else
      var parent := ParentOf(run, runs);
      if parent.None? then None else Ancestor(parent.value, runs, n - 1)
  }

  /** The walk up the parent links from a run, with the ids already passed. */
  function RootFrom(run: Run, runs: Index, seen: set<string>): Run
    requires Indexed(runs) && In(run, runs)
    decreases runs.Keys - seen
  {
    var parent := ParentOf(run, runs);
    if parent.None? || run.runId in seen then run
    else
      assert run.runId in runs.Keys - seen && run.runId !in runs.Keys - (seen + {run.runId});
      RootFrom(parent.value, runs, seen + {run.runId})
  }

  function RootOf(run: Run, runs: Index): Run
    requires Indexed(runs) && In(run, runs)
  {
    RootFrom(run, runs, {})
  }

  /** rootMeta and rootRun: the loop ends on cyclic parent links too. */
  method RootMeta(run: Run, runs: Index) returns (root: Run)
    requires Indexed(runs) && In(run, runs)
    ensures root == RootOf(run, runs)
  {
    root := run;
    var seen: set<string> := {};
    while root.parent.Some? && root.runId !in seen
      invariant In(root, runs) && RootFrom(root, runs, seen) == RootOf(run, runs)
      decreases runs.Keys - seen
    {
      var current := root;
      assert current.runId in runs.Keys - seen && current.runId !in runs.Keys - (seen + {current.runId});
      seen := seen + {current.runId};
      if current.parent.value !in runs {
        break;
      }
      root := runs[current.parent.value];
    }
  }

  /** The chain ends at its n-th run. */
  ghost predicate Ends(run: Run, runs: Index, n: nat) {
    var last := Ancestor(run, runs, n);
    last.Some? && ParentOf(last.value, runs).None?
  }

  lemma {:induction false} EndsOnce(run: Run, runs: Index, n: nat, m: nat)
    requires Ends(run, runs, n) && Ends(run, runs, m)
    ensures n == m
    decreases n
  {
    if n > 0 && m > 0 {
      EndsOnce(ParentOf(run, runs).value, runs, n - 1, m - 1);
    }
  }

  lemma {:induction false} EndsFrom(run: Run, runs: Index, n: nat, k: nat)
    requires Ends(run, runs, n) && k <= n
    ensures Ancestor(run, runs, k).Some? && Ends(Ancestor(run, runs, k).value, runs, n - k)
    decreases k
  {
    if k > 0 {
      EndsFrom(ParentOf(run, runs).value, runs, n - 1, k - 1);
    }
  }

  /** None of the first n + 1 runs of the chain has one of the ids. */
  ghost predicate Unseen(run: Run, runs: Index, seen: set<string>, n: nat) {
    forall k: nat :: k <= n && Ancestor(run, runs, k).Some? ==> Ancestor(run, runs, k).value.runId !in seen
  }

  lemma {:induction false} EndIsRoot(run: Run, runs: Index, seen: set<string>, n: nat)
    requires Indexed(runs) && In(run, runs) && Ends(run, runs, n) && Unseen(run, runs, seen, n)
    ensures Some(RootFrom(run, runs, seen)) == Ancestor(run, runs, n)
    decreases n
  {
    assert Ancestor(run, runs, 0) == Some(run);
    if n > 0 {
      var parent := ParentOf(run, runs).value;
      forall k: nat | k <= n - 1 && Ancestor(parent, runs, k).Some?
        ensures Ancestor(parent, runs, k).value.runId !in seen + {run.runId}
      {
        var a := Ancestor(parent, runs, k).value;
        assert Ancestor(run, runs, k + 1) == Some(a);
        EndsFrom(run, runs, n, k + 1);
        if a.runId == run.runId {
          AncestorIn(run, runs, k + 1);
          EndsOnce(run, runs, n, n - k - 1);
        }
      }
      EndIsRoot(parent, runs, seen + {run.runId}, n - 1);
    }
  }

  lemma {:induction false} AncestorIn(run: Run, runs: Index, n: nat)
    requires Indexed(runs) && In(run, runs)
    ensures Ancestor(run, runs, n).Some? ==> In(Ancestor(run, runs, n).value, runs)
    decreases n
  {
    if n > 0 && ParentOf(run, runs).Some? {
      AncestorIn(ParentOf(run, runs).value, runs, n - 1);
    }
  }

  lemma {:induction false} RootIsAncestor(run: Run, runs: Index, seen: set<string>) returns (n: nat)
    requires Indexed(runs) && In(run, runs)
    ensures Ancestor(run, runs, n) == Some(RootFrom(run, runs, seen))
    decreases runs.Keys - seen
  {
    var parent := ParentOf(run, runs);
    if parent.None? || run.runId in seen {
      n := 0;
    } else {
      assert run.runId in runs.Keys - seen && run.runId !in runs.Keys - (seen + {run.runId});
      var m := RootIsAncestor(parent.value, runs, seen + {run.runId});
      n := m + 1;
    }
  }

  /** The root has no parent in the index exactly when the chain ends; then it is where the chain ends. */
  lemma RootIffChainEnds(run: Run, runs: Index)
    requires Indexed(runs) && In(run, runs)
    ensures ParentOf(RootOf(run, runs), runs).None? <==> exists n: nat :: Ends(run, runs, n)
    ensures forall n: nat :: Ends(run, runs, n) ==> Ancestor(run, runs, n) == Some(RootOf(run, runs))
  {
    var m := RootIsAncestor(run, runs, {});
    if ParentOf(RootOf(run, runs), runs).None? {
      assert Ends(run, runs, m);
    }
    forall n: nat | Ends(run, runs, n) ensures Ancestor(run, runs, n) == Some(RootOf(run, runs)) {
      EndIsRoot(run, runs, {}, n);
    }
  }

  // ---------- keys ----------

  function SessionKey(run: Run, runs: Index): string
    requires Indexed(runs) && In(run, runs)
  {
    if run.session.Some? then run.backend + ":" + run.session.value
    else run.backend + ":root:" + RootOf(run, runs).runId
  }

  /** The run is an ancestor of itself, n links up. */
  ghost predicate OnCycle(run: Run, runs: Index, n: nat) {
    n > 0 && Ancestor(run, runs, n) == Some(run)
  }

  lemma {:induction false} AncestorsAdd(run: Run, runs: Index, n: nat, m: nat)
    requires Ancestor(run, runs, n).Some?
    ensures Ancestor(run, runs, n + m) == Ancestor(Ancestor(run, runs, n).value, runs, m)
    decreases n
  {
    if n > 0 {
      AncestorsAdd(ParentOf(run, runs).value, runs, n - 1, m);
    }
  }

  /** The length of the cycle. */
  lemma {:induction false} Shortest(run: Run, runs: Index, n: nat) returns (p: nat)
    requires OnCycle(run, runs, n)
    ensures p <= n && OnCycle(run, runs, p) && forall m: nat :: m < p ==> !OnCycle(run, runs, m)
    decreases n
  {
    if m: nat :| m < n && OnCycle(run, runs, m) {
      p := Shortest(run, runs, m);
    } else {
      p := n;
    }
  }

  /** The ids of the first k runs of the chain. */
  ghost function IdsOf(run: Run, runs: Index, k: nat): set<string> {
    if k == 0 then {}
    else
      var a := Ancestor(run, runs, k - 1);
      IdsOf(run, runs, k - 1) + if a.Some? then {a.value.runId} else {}
  }

  lemma {:induction false} InIds(run: Run, runs: Index, k: nat, id: string)
    requires id in IdsOf(run, runs, k)
    ensures exists m: nat :: m < k && Ancestor(run, runs, m).Some? && Ancestor(run, runs, m).value.runId == id
  {
    if k > 0 && id in IdsOf(run, runs, k - 1) {
      InIds(run, runs, k - 1, id);
    }
  }

  lemma EarlierReturn(run: Run, runs: Index, p: nat, i: nat, j: nat)
    requires OnCycle(run, runs, p) && i < j < p
    requires Ancestor(run, runs, i).Some? && Ancestor(run, runs, i) == Ancestor(run, runs, j)
    ensures OnCycle(run, runs, i + p - j)
  {
    AncestorsAdd(run, runs, i, p - j);
    AncestorsAdd(run, runs, j, p - j);
  }

  /** On the shortest cycle a run does not come twice. */
  lemma NoEarlierReturn(run: Run, runs: Index, p: nat, i: nat, j: nat)
    requires Indexed(runs) && In(run, runs) && OnCycle(run, runs, p) && i < j < p
    requires forall m: nat :: m < p ==> !OnCycle(run, runs, m)
    requires Ancestor(run, runs, i).Some? && Ancestor(run, runs, j).Some?
    ensures Ancestor(run, runs, i).value.runId != Ancestor(run, runs, j).value.runId
  {
    AncestorIn(run, runs, i);
    AncestorIn(run, runs, j);
    if Ancestor(run, runs, i) == Ancestor(run, runs, j) {
      EarlierReturn(run, runs, p, i, j);
    }
  }

  lemma {:induction false} ChainOnCycle(run: Run, runs: Index, p: nat, k: nat)
    requires OnCycle(run, runs, p) && k <= p
    ensures Ancestor(run, runs, k).Some?
    decreases k
  {
    if k > 0 {
      ChainOnCycle(run, runs, p, k - 1);
      AncestorsAdd(run, runs, k - 1, 1);
      AncestorsAdd(run, runs, k - 1, p - k + 1);
    }
  }

  /** From the k-th run of the shortest cycle on, with the ones before it passed, the walk comes back to the run. */
  lemma {:induction false} CycleWalk(run: Run, runs: Index, p: nat, k: nat)
    requires Indexed(runs) && In(run, runs) && OnCycle(run, runs, p) && k <= p
    requires forall m: nat :: m < p ==> !OnCycle(run, runs, m)
    ensures Ancestor(run, runs, k).Some? && In(Ancestor(run, runs, k).value, runs)
    ensures RootFrom(Ancestor(run, runs, k).value, runs, IdsOf(run, runs, k)) == run
    decreases p - k
  {
    ChainOnCycle(run, runs, p, k);
    AncestorIn(run, runs, k);
    var a, seen := Ancestor(run, runs, k).value, IdsOf(run, runs, k);
    if k == p {
      FirstInIds(run, runs, p);
    } else {
      if a.runId in seen {
        InIds(run, runs, k, a.runId);
        var m: nat :| m < k && Ancestor(run, runs, m).Some? && Ancestor(run, runs, m).value.runId == a.runId;
        NoEarlierReturn(run, runs, p, m, k);
      }
      AncestorsAdd(run, runs, k, 1);
      ChainOnCycle(run, runs, p, k + 1);
      CycleWalk(run, runs, p, k + 1);
    }
  }

  lemma {:induction false} FirstInIds(run: Run, runs: Index, k: nat)
    requires k > 0
    ensures run.runId in IdsOf(run, runs, k)
  {
    if k > 1 {
      FirstInIds(run, runs, k - 1);
    }
  }

  /** A run is its own root exactly when it has no parent in the index or is on a cycle. */
  lemma OwnRootIff(run: Run, runs: Index)
    requires Indexed(runs) && In(run, runs)
    ensures RootOf(run, runs) == run <==> ParentOf(run, runs).None? || exists n: nat :: OnCycle(run, runs, n)
  {
    if n: nat :| OnCycle(run, runs, n) {
      var p := Shortest(run, runs, n);
      CycleWalk(run, runs, p, 0);
    } else if ParentOf(run, runs).Some? {
      var parent := ParentOf(run, runs).value;
      var m := RootIsAncestor(parent, runs, {run.runId});
      assert {} + {run.runId} == {run.runId};
      assert RootOf(run, runs) == RootFrom(parent, runs, {run.runId});
      assert Ancestor(run, runs, m + 1) == Some(RootOf(run, runs));
      assert !OnCycle(run, runs, m + 1);
    }
  }

  /** An id that the walk does not meet can be passed beforehand. */
  lemma {:induction false} UnmetSeen(run: Run, runs: Index, seen: set<string>, id: string)
    requires Indexed(runs) && In(run, runs)
    requires forall n: nat :: Ancestor(run, runs, n).Some? ==> Ancestor(run, runs, n).value.runId != id
    ensures RootFrom(run, runs, seen + {id}) == RootFrom(run, runs, seen)
    decreases runs.Keys - seen
  {
    var parent := ParentOf(run, runs);
    assert Ancestor(run, runs, 0) == Some(run);
    if parent.Some? && run.runId !in seen {
      assert run.runId in runs.Keys - seen && run.runId !in runs.Keys - (seen + {run.runId});
      forall n: nat | Ancestor(parent.value, runs, n).Some? ensures Ancestor(parent.value, runs, n).value.runId != id {
        assert Ancestor(run, runs, n + 1) == Ancestor(parent.value, runs, n);
      }
      UnmetSeen(parent.value, runs, seen + {run.runId}, id);
      assert seen + {id} + {run.runId} == seen + {run.runId} + {id};
    }
  }

  /** The run is a proper ancestor of its parent: both are on one cycle of at least two runs. */
  ghost predicate ParentDescends(run: Run, parent: Run, runs: Index) {
    exists n: nat :: n > 0 && Ancestor(parent, runs, n) == Some(run)
  }

  lemma SharedRoot(run: Run, parent: Run, runs: Index)
    requires Indexed(runs) && In(run, runs) && ParentOf(run, runs) == Some(parent)
    requires parent != run && !ParentDescends(run, parent, runs)
    ensures RootOf(run, runs) == RootOf(parent, runs)
  {
    forall n: nat | Ancestor(parent, runs, n).Some? ensures Ancestor(parent, runs, n).value.runId != run.runId {
      AncestorIn(parent, runs, n);
      assert Ancestor(parent, runs, 0) == Some(parent);
    }
    UnmetSeen(parent, runs, {}, run.runId);
    assert {} + {run.runId} == {run.runId};
  }

  lemma SplitRoots(run: Run, parent: Run, runs: Index)
    requires Indexed(runs) && In(run, runs) && ParentOf(run, runs) == Some(parent)
    requires ParentDescends(run, parent, runs)
    ensures RootOf(run, runs) == run && RootOf(parent, runs) == parent
  {
    var n: nat :| n > 0 && Ancestor(parent, runs, n) == Some(run);
    AncestorsAdd(run, runs, 1, n);
    assert OnCycle(run, runs, n + 1);
    AncestorsAdd(parent, runs, n, 1);
    assert OnCycle(parent, runs, n + 1);
    OwnRootIff(run, runs);
    OwnRootIff(parent, runs);
  }

  /**
   * Without session ids a run and its follow-up share a session key exactly when the run is its
   * own parent or no proper ancestor of the parent is the run: a chain that only leads into a
   * cycle shares one, two runs on a cycle do not.
   */
  lemma FollowupSharesKeyIff(run: Run, parent: Run, runs: Index)
    requires Indexed(runs) && In(run, runs) && In(parent, runs) && run.parent == Some(parent.runId)
    requires run.session.None? && parent.session.None? && run.backend == parent.backend
    ensures SessionKey(run, runs) == SessionKey(parent, runs) <==> parent == run || !ParentDescends(run, parent, runs)
  {
    var prefix := run.backend + ":root:";
    assert SessionKey(run, runs)[|prefix|..] == RootOf(run, runs).runId;
    assert SessionKey(parent, runs)[|prefix|..] == RootOf(parent, runs).runId;
    if parent != run {
      if ParentDescends(run, parent, runs) {
        SplitRoots(run, parent, runs);
      } else {
        SharedRoot(run, parent, runs);
      }
    }
  }

  /**
   * When two runs share a session key: those with session ids when backend and id agree, those
   * without when backend and root do, and one of each when that id spells out the other's root.
   * Backends are named without a colon.
   */
  lemma SharesKeyIff(a: Run, b: Run, runs: Index)
    requires Indexed(runs) && In(a, runs) && In(b, runs) && ':' !in a.backend && ':' !in b.backend
    ensures SessionKey(a, runs) == SessionKey(b, runs) <==>
      && a.backend == b.backend
      && if a.session.Some? && b.session.Some? then a.session == b.session
         else if a.session.Some? then a.session.value == "root:" + RootOf(b, runs).runId
         else if b.session.Some? then b.session.value == "root:" + RootOf(a, runs).runId
         else RootOf(a, runs) == RootOf(b, runs)
  {
    var ta := if a.session.Some? then a.session.value else "root:" + RootOf(a, runs).runId;
    var tb := if b.session.Some? then b.session.value else "root:" + RootOf(b, runs).runId;
    assert SessionKey(a, runs) == a.backend + ":" + ta;
    assert SessionKey(b, runs) == b.backend + ":" + tb;
    ColonSplits(a.backend, ta, b.backend, tb);
    assert ("root:" + RootOf(a, runs).runId)[5..] == RootOf(a, runs).runId;
    assert ("root:" + RootOf(b, runs).runId)[5..] == RootOf(b, runs).runId;
    var i := RootIsAncestor(a, runs, {});
    var j := RootIsAncestor(b, runs, {});
    AncestorIn(a, runs, i);
    AncestorIn(b, runs, j);
  }

  /** The first colon separates the two parts. */
  lemma ColonSplits(a: string, s: string, b: string, t: string)
    requires ':' !in a && ':' !in b
    ensures a + ":" + s == b + ":" + t <==> a == b && s == t
  {
    if a + ":" + s == b + ":" + t {
      assert (a + ":" + s)[|a|] == ':' && (b + ":" + t)[|b|] == ':';
      assert (a + ":" + s)[..|a|] == a && (b + ":" + t)[..|b|] == b;
      assert (a + ":" + s)[|a| + 1..] == s && (b + ":" + t)[|b| + 1..] == t;
    }
  }

  // ---------- groups ----------

  ghost predicate AllIn(list: seq<Run>, runs: Index) {
    Indexed(runs) && forall r <- list :: In(r, runs)
  }

  /** The runs of a list that have a session key, in the order of the list. */
  function WithKey(list: seq<Run>, runs: Index, key: string): seq<Run>
    requires AllIn(list, runs)
  {
    if list == [] then []
    else
      var last := list[|list| - 1];
      WithKey(list[..|list| - 1], runs, key) + if SessionKey(last, runs) == key then [last] else []
  }

  predicate Distinct(keys: seq<string>) {
    forall i, j :: 0 <= i < j < |keys| ==> keys[i] != keys[j]
  }

  /** The keys of the list without repetition, each with its runs. */
  ghost predicate Grouped(list: seq<Run>, runs: Index, order: seq<string>, groups: map<string, seq<Run>>) {
    && AllIn(list, runs) && Distinct(order)
    && (forall key :: key in order <==> key in groups)
    && (forall key <- groups :: groups[key] == WithKey(list, runs, key) != [])
    && (forall key :: key !in groups ==> WithKey(list, runs, key) == [])
  }

  lemma WithKeyGrows(list: seq<Run>, run: Run, runs: Index, key: string)
    requires AllIn(list, runs) && In(run, runs)
    ensures AllIn(list + [run], runs)
    ensures WithKey(list + [run], runs, key)
         == WithKey(list, runs, key) + if SessionKey(run, runs) == key then [run] else []
  {
    assert (list + [run])[..|list|] == list;
  }

  lemma GroupKnown(list: seq<Run>, run: Run, runs: Index, order: seq<string>, groups: map<string, seq<Run>>)
    requires Grouped(list, runs, order, groups) && In(run, runs) && SessionKey(run, runs) in groups
    ensures var key := SessionKey(run, runs);
      Grouped(list + [run], runs, order, groups[key := groups[key] + [run]])
  {
    var longer, after := list + [run], groups[SessionKey(run, runs) := groups[SessionKey(run, runs)] + [run]];
    WithKeyGrows(list, run, runs, "");
    forall k <- after ensures after[k] == WithKey(longer, runs, k) != [] {
      WithKeyGrows(list, run, runs, k);
    }
    forall k: string | k !in after ensures WithKey(longer, runs, k) == [] {
      WithKeyGrows(list, run, runs, k);
    }
  }

  lemma GroupNew(list: seq<Run>, run: Run, runs: Index, order: seq<string>, groups: map<string, seq<Run>>)
    requires Grouped(list, runs, order, groups) && In(run, runs) && SessionKey(run, runs) !in groups
    ensures var key := SessionKey(run, runs);
      Grouped(list + [run], runs, order + [key], groups[key := [run]])
  {
    var longer, after := list + [run], groups[SessionKey(run, runs) := [run]];
    WithKeyGrows(list, run, runs, "");
    forall k <- after ensures after[k] == WithKey(longer, runs, k) != [] {
      WithKeyGrows(list, run, runs, k);
    }
    forall k: string | k !in after ensures WithKey(longer, runs, k) == [] {
      WithKeyGrows(list, run, runs, k);
    }
  }

  /** sessionKey, with the root looked up only for a run without a session id. */
  method KeyOf(run: Run, runs: Index) returns (key: string)
    requires Indexed(runs) && In(run, runs)
    ensures key == SessionKey(run, runs)
  {
    if run.session.Some? {
      return run.backend + ":" + run.session.value;
    }
    var root := RootMeta(run, runs);
    key := run.backend + ":root:" + root.runId;
  }

  /** The Map of groups, and the order in which its keys were added. */
  method GroupBySession(list: seq<Run>, runs: Index) returns (order: seq<string>, groups: map<string, seq<Run>>)
    requires AllIn(list, runs)
    ensures Grouped(list, runs, order, groups)
  {
    order, groups := [], map[];
    for i := 0 to |list|
      invariant Grouped(list[..i], runs, order, groups)
    {
      var run := list[i];
      assert list[..i + 1] == list[..i] + [run];
      var key := KeyOf(run, runs);
      if key in groups {
        GroupKnown(list[..i], run, runs, order, groups);
        groups := groups[key := groups[key] + [run]];
      } else {
        GroupNew(list[..i], run, runs, order, groups);
        groups := groups[key := [run]];
        order := order + [key];
      }
    }
    assert list[..|list|] == list;
  }

  /** A group holds exactly the list's occurrences of the runs that have its key. */
  lemma {:induction false} WithKeyCounts(list: seq<Run>, runs: Index, key: string, r: Run)
    requires AllIn(list, runs) && In(r, runs)
    ensures multiset(WithKey(list, runs, key))[r] == if SessionKey(r, runs) == key then multiset(list)[r] else 0
  {
    if list != [] {
      var front, last := list[..|list| - 1], list[|list| - 1];
      WithKeyCounts(front, runs, key, r);
      assert list == front + [last];
    }
  }

  lemma KeyIsGrouped(list: seq<Run>, runs: Index, r: Run)
    requires AllIn(list, runs) && r in list
    ensures WithKey(list, runs, SessionKey(r, runs)) != []
  {
    WithKeyCounts(list, runs, SessionKey(r, runs), r);
    assert multiset(list)[r] > 0;
  }

  /** A run of the list stands in one session only: the one of its key, as often as in the list. */
  lemma SessionsPartition(list: seq<Run>, runs: Index, r: Run, key: string)
    requires AllIn(list, runs) && r in list
    ensures r in WithKey(list, runs, key) <==> SessionKey(r, runs) == key
    ensures SessionKey(r, runs) == key ==> multiset(WithKey(list, runs, key))[r] == multiset(list)[r]
  {
    WithKeyCounts(list, runs, key, r);
    assert multiset(list)[r] > 0;
    assert r in WithKey(list, runs, key) <==> r in multiset(WithKey(list, runs, key));
  }

  function RunCount(keys: seq<string>, list: seq<Run>, runs: Index): nat
    requires AllIn(list, runs)
  {
    if keys == [] then 0 else RunCount(keys[..|keys| - 1], list, runs) + |WithKey(list, runs, keys[|keys| - 1])|
  }

  lemma {:induction false} OneMore(keys: seq<string>, list: seq<Run>, runs: Index)
    requires AllIn(list, runs) && list != [] && Distinct(keys)
    ensures RunCount(keys, list, runs)
         == RunCount(keys, list[..|list| - 1], runs) + if SessionKey(list[|list| - 1], runs) in keys then 1 else 0
  {
    if keys != [] {
      var front, last := keys[..|keys| - 1], keys[|keys| - 1];
      OneMore(front, list, runs);
      assert keys == front + [last];
    }
  }

  /** The session counts add up to the number of runs, when every run's key is among the keys. */
  lemma {:induction false} CountsAddUp(keys: seq<string>, list: seq<Run>, runs: Index)
    requires AllIn(list, runs) && Distinct(keys)
    requires forall r <- list :: SessionKey(r, runs) in keys
    ensures RunCount(keys, list, runs) == |list|
  {
    if list == [] {
      NoRuns(keys, runs);
    } else {
      OneMore(keys, list, runs);
      CountsAddUp(keys, list[..|list| - 1], runs);
    }
  }

  lemma {:induction false} NoRuns(keys: seq<string>, runs: Index)
    requires Indexed(runs)
    ensures RunCount(keys, [], runs) == 0
  {
    if keys != [] {
      NoRuns(keys[..|keys| - 1], runs);
    }
  }

  /** The positions of the runs of a session, and of those that are running. */
  ghost function Places(list: seq<Run>, runs: Index, key: string): set<int>
    requires AllIn(list, runs)
  {
    set i | 0 <= i < |list| && SessionKey(list[i], runs) == key
  }

  ghost function RunningPlaces(list: seq<Run>, runs: Index, key: string): set<int>
    requires AllIn(list, runs)
  {
    set i | 0 <= i < |list| && SessionKey(list[i], runs) == key && list[i].running
  }

  lemma PlacesGrow(list: seq<Run>, runs: Index, key: string)
    requires AllIn(list, runs) && list != []
    ensures var (front, n) := (list[..|list| - 1], |list| - 1);
      var here := if SessionKey(list[n], runs) == key then {n} else {};
      && Places(list, runs, key) == Places(front, runs, key) + here
      && RunningPlaces(list, runs, key) == RunningPlaces(front, runs, key) + (if list[n].running then here else {})
      && n !in Places(front, runs, key) && n !in RunningPlaces(front, runs, key)
  {
    var front := list[..|list| - 1];
    assert forall i :: 0 <= i < |front| ==> front[i] == list[i];
  }

  lemma FilterLast(before: seq<Run>, run: Run)
    ensures Filter(before + [run], IsRunning) == Filter(before, IsRunning) + if run.running then [run] else []
  {
    assert (before + [run])[..|before|] == before;
  }

  lemma {:induction false} PlacesCount(list: seq<Run>, runs: Index, key: string)
    requires AllIn(list, runs)
    ensures |WithKey(list, runs, key)| == |Places(list, runs, key)|
    ensures |Filter(WithKey(list, runs, key), IsRunning)| == |RunningPlaces(list, runs, key)|
  {
    if list != [] {
      var front, last := list[..|list| - 1], list[|list| - 1];
      PlacesCount(front, runs, key);
      PlacesGrow(list, runs, key);
      var before := WithKey(front, runs, key);
      if SessionKey(last, runs) == key {
        FilterLast(before, last);
      } else {
        assert WithKey(list, runs, key) == before;
      }
    }
  }

  ghost function HasKey(runs: Index, key: string): Run -> bool {
    (r: Run) => Indexed(runs) && In(r, runs) && SessionKey(r, runs) == key
  }

  lemma {:induction false} GroupIsFilter(list: seq<Run>, runs: Index, key: string)
    requires AllIn(list, runs)
    ensures WithKey(list, runs, key) == Filter(list, HasKey(runs, key))
  {
    if list != [] {
      GroupIsFilter(list[..|list| - 1], runs, key);
      assert In(list[|list| - 1], runs);
    }
  }

  /** A session's runs are those of its key, each once, in the order of the list. */
  lemma GroupSelects(list: seq<Run>, runs: Index, key: string)
    requires AllIn(list, runs)
    ensures Selects(list, WithKey(list, runs, key), HasKey(runs, key))
  {
    GroupIsFilter(list, runs, key);
    FilterSelects(list, HasKey(runs, key));
  }

  datatype SessionStats = SessionStats(runCount: nat, runningCount: nat)

  predicate IsRunning(r: Run) {
    r.running
  }

  function StatsOf(metas: seq<Run>, runs: Index, key: string): SessionStats
    requires AllIn(metas, runs)
  {
    SessionStats(|WithKey(metas, runs, key)|, |Filter(WithKey(metas, runs, key), IsRunning)|)
  }

  ghost predicate StatsAre(keys: seq<string>, metas: seq<Run>, runs: Index, stats: map<string, SessionStats>) {
    && AllIn(metas, runs)
    && (forall key :: key in keys <==> key in stats)
    && (forall key <- stats :: stats[key] == StatsOf(metas, runs, key))
  }

  lemma EveryKeyIsListed(metas: seq<Run>, runs: Index, order: seq<string>, groups: map<string, seq<Run>>)
    requires Grouped(metas, runs, order, groups)
    ensures forall r <- metas :: SessionKey(r, runs) in order
  {
    forall r <- metas ensures SessionKey(r, runs) in order {
      KeyIsGrouped(metas, runs, r);
    }
  }

  /** buildSessionStats: the counts per key over all metas, which add up to the number of metas. */
  method BuildSessionStats(metas: seq<Run>, runs: Index) returns (order: seq<string>, stats: map<string, SessionStats>)
    requires AllIn(metas, runs)
    ensures StatsAre(order, metas, runs, stats)
    ensures Distinct(order) && RunCount(order, metas, runs) == |metas|
    ensures forall key <- stats ::
      stats[key] == SessionStats(|Places(metas, runs, key)|, |RunningPlaces(metas, runs, key)|)
  {
    var groups: map<string, seq<Run>>;
    order, groups := GroupBySession(metas, runs);
    EveryKeyIsListed(metas, runs, order, groups);
    CountsAddUp(order, metas, runs);
    stats := map[];
    for i := 0 to |order|
      invariant StatsAre(order[..i], metas, runs, stats)
    {
      assert order[..i + 1] == order[..i] + [order[i]] && order[i] in order;
      var group := groups[order[i]];
      stats := stats[order[i] := SessionStats(|group|, |Filter(group, IsRunning)|)];
    }
    assert order[..|order|] == order;
    forall key <- stats
      ensures stats[key] == SessionStats(|Places(metas, runs, key)|, |RunningPlaces(metas, runs, key)|)
    {
      PlacesCount(metas, runs, key);
    }
  }
}
