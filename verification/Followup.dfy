/**
 * What a follow-up inherits: whether its chain of parents began in profile mode, and the
 * model settings that are recorded for it.
 */
module Followup {
  import opened Prelude

  // ---------- ancestry ----------

  type RunId = nat

  /** A run's metadata: whether it records a profile-mode start, and its parent. */
  datatype Meta = Meta(profile: bool, parent: Option<RunId>)

  const MAX_DEPTH: nat := 1000

  /** The run behind the parent link; None when there is no link or the parent cannot be loaded. */
  function ParentOf(meta: Meta, metas: map<RunId, Meta>): Option<Meta> {
    if meta.parent.Some? && meta.parent.value in metas then Some(metas[meta.parent.value]) else None
  }

  /** The i-th ancestor, the run itself being the 0th. */
  function Ancestor(meta: Meta, metas: map<RunId, Meta>, i: nat): Option<Meta>
    decreases i
  {
    if i == 0 then Some(meta)
    else
      var parent := ParentOf(meta, metas);
      if parent.None? then None else Ancestor(parent.value, metas, i - 1)
  }

  /** Whether one of the first n runs of the chain is a profile-mode run. */
  predicate Reaches(meta: Meta, metas: map<RunId, Meta>, n: nat)
    decreases n
  {
    n > 0 && (meta.profile
              || (ParentOf(meta, metas).Some? && Reaches(ParentOf(meta, metas).value, metas, n - 1)))
  }

  ghost predicate ProfileAt(meta: Meta, metas: map<RunId, Meta>, i: nat) {
    var a := Ancestor(meta, metas, i);
    a.Some? && a.value.profile
  }

  lemma {:induction false} ReachesIff(meta: Meta, metas: map<RunId, Meta>, n: nat)
    ensures Reaches(meta, metas, n) <==> exists i: nat :: i < n && ProfileAt(meta, metas, i)
    decreases n
  {
    if n > 0 {
      assert meta.profile == ProfileAt(meta, metas, 0);
      var parent := ParentOf(meta, metas);
      if parent.Some? {
        ReachesIff(parent.value, metas, n - 1);
        forall i: nat ensures ProfileAt(parent.value, metas, i) == ProfileAt(meta, metas, i + 1) {
        }
        if i: nat :| 0 < i < n && ProfileAt(meta, metas, i) {
          assert ProfileAt(parent.value, metas, i - 1);
        }
      }
    }
  }

  /** Ids that lead only to each other, none of them a profile-mode run. */
  ghost predicate ClosedWithoutProfile(ids: set<RunId>, metas: map<RunId, Meta>) {
    forall id <- ids :: id in metas && !metas[id].profile && metas[id].parent.Some? && metas[id].parent.value in ids
  }

  lemma {:induction false} NeverReaches(id: RunId, ids: set<RunId>, metas: map<RunId, Meta>, n: nat)
    requires id in ids && ClosedWithoutProfile(ids, metas)
    ensures !Reaches(metas[id], metas, n)
    decreases n
  {
    if n > 0 {
      NeverReaches(metas[id].parent.value, ids, metas, n - 1);
    }
  }

  /** The ids passed so far lead to each other or to the current run, none of them a profile-mode run. */
  ghost predicate Passed(ids: set<RunId>, metas: map<RunId, Meta>, current: Meta) {
    forall id <- ids :: id in metas
      && (metas[id] == current
          || (!metas[id].profile && metas[id].parent.Some? && metas[id].parent.value in ids))
  }

  /**
   * The walk, cyclic chains and unreadable parents included: true exactly when a profile-mode
   * run is among the first 1000 of the chain.
   */
  method ChainOriginatedFromProfileMode(start: Meta, metas: map<RunId, Meta>) returns (found: bool)
    ensures found <==> exists i: nat :: i < MAX_DEPTH && ProfileAt(start, metas, i)
  {
    ReachesIff(start, metas, MAX_DEPTH);
    var current := start;
    var seen: set<RunId> := {};
    var depth := 0;
    while depth < MAX_DEPTH
      invariant depth <= MAX_DEPTH
      invariant Reaches(start, metas, MAX_DEPTH) == Reaches(current, metas, MAX_DEPTH - depth)
      invariant Passed(seen, metas, current)
    {
      if current.profile {
        return true;
      }
      if current.parent.None? {
        return false;
      }
      var parent := current.parent.value;
      if parent in seen {
        assert ClosedWithoutProfile(seen, metas);
        NeverReaches(parent, seen, metas, MAX_DEPTH - depth - 1);
        return false;
      }
      seen := seen + {parent};
      if parent !in metas {
        return false;
      }
      current := metas[parent];
      depth := depth + 1;
    }
    return false;
  }

  // ---------- model settings ----------

  datatype Backend = Codex | Claude | Cursor
  datatype Network = Isolated | Workspace | UserConfig
  datatype Effort = NoEffort | Minimal | Low | Medium | High | XHigh | MaxEffort
  datatype Tier = Fast | Flex | NormalTier

  datatype Settings = Settings(effort: Option<Effort>, tier: Option<Tier>,
                               mode: Option<string>, network: Option<Network>)
  datatype Outcome = Accepted(settings: Settings) | Rejected

  /** What a follow-up asks for, and what the model checks that are not modelled here answer. */
  datatype Request = Request(
    network: Option<Network>,
    effort: Option<Effort>,
    tier: Option<Tier>,
    model: Option<string>,
    claudeAgrees: bool,
    modelNamed: bool)

  function ModeOf(network: Network): Option<string> {
    if network == Isolated then Some("normal") else None
  }

  function ModelSettingsForBackend(backend: Backend, r: Request, network: Option<Network>): Outcome {
    match backend
    case Codex =>
      if r.effort == Some(MaxEffort) then Rejected
      else
        var resolved := if network.Some? then network.value else Isolated;
        var tier := if r.tier == Some(NormalTier) then None else r.tier;
        Accepted(Settings(r.effort, tier, ModeOf(resolved), Some(resolved)))
    case Cursor =>
      if network.Some? || r.effort.Some? || r.tier.Some? || !r.modelNamed then Rejected
      else Accepted(Settings(None, None, None, None))
    case Claude =>
      if network.Some? || r.tier.Some? || !r.claudeAgrees then Rejected
      else Accepted(Settings(r.effort, None, None, None))
  }

  function PatchCodexNetwork(settings: Settings, network: Network): Settings {
    settings.(mode := ModeOf(network), network := Some(network))
  }

  function ValidateInherited(backend: Backend, r: Request, settings: Settings): Outcome {
    match backend
    case Cursor =>
      if settings.effort.Some? || settings.tier.Some? || !r.modelNamed then Rejected else Accepted(settings)
    case Claude => if r.claudeAgrees then Accepted(settings) else Rejected
    case Codex => Accepted(settings)
  }

  function Asked(r: Request, settings: Settings): Option<Network> {
    if r.network.Some? then r.network else settings.network
  }

  /** The settings sendFollowup records for the child of a run, or its refusal. */
  function FollowupSettings(backend: Backend, parent: Settings, r: Request, profileOrigin: bool): Outcome {
    if r.network.Some? && (profileOrigin || backend != Codex) then Rejected
    else
      var outcome :=
        if r.effort.Some? || r.tier.Some? then ModelSettingsForBackend(backend, r, Asked(r, parent))
        else if r.network.Some? then Accepted(PatchCodexNetwork(parent, r.network.value))
        else if r.model.Some? || backend == Cursor then ValidateInherited(backend, r, parent)
        else Accepted(parent);
      if outcome.Accepted? && backend == Codex && outcome.settings.network.None?
      then Accepted(outcome.settings.(network := Some(Isolated), mode := Some("normal")))
      else outcome
  }

  // ---------- chains of follow-ups ----------

  /** A chain without branches: run k has parent k - 1, and only run 0 can be a profile-mode run. */
  function Lineage(profile: bool, n: nat): (metas: map<RunId, Meta>)
    ensures forall k: nat :: k in metas <==> k < n
    ensures forall k: nat :: k in metas ==> metas[k] == Meta(profile && k == 0, if k == 0 then None else Some(k - 1))
  {
    if n == 0 then map[]
    else Lineage(profile, n - 1)[n - 1 := Meta(profile && n == 1, if n == 1 then None else Some(n - 2))]
  }

  /** What chainOriginatedFromProfileMode answers for run k. */
  ghost predicate OriginIsProfile(profile: bool, k: nat) {
    var metas := Lineage(profile, k + 1);
    exists i: nat :: i < MAX_DEPTH && ProfileAt(metas[k], metas, i)
  }

  /** The settings after a chain of accepted follow-ups to a run. */
  ghost function Chain(backend: Backend, profile: bool, root: Settings, requests: seq<Request>): Outcome {
    if requests == [] then Accepted(root)
    else
      var n := |requests| - 1;
      var parent := Chain(backend, profile, root, requests[..n]);
      if parent.Rejected? then Rejected
      else FollowupSettings(backend, parent.settings, requests[n], OriginIsProfile(profile, n))
  }

  /** The posture a run has: a record without one is treated as isolated. */
  function Effective(settings: Settings): Network {
    if settings.network.Some? then settings.network.value else Isolated
  }

  /** The posture is recorded, and the mode says `normal` exactly for the isolated one. */
  ghost predicate Recorded(settings: Settings) {
    settings.network.Some? && (settings.mode == Some("normal") <==> settings.network == Some(Isolated))
  }

  lemma StartIsRecorded(r: Request)
    ensures var outcome := ModelSettingsForBackend(Codex, r, r.network);
      outcome.Accepted? ==>
        && Recorded(outcome.settings)
        && Effective(outcome.settings) == (if r.network.Some? then r.network.value else Isolated)
  {
  }

  lemma FollowupIsRecorded(parent: Settings, r: Request, profileOrigin: bool)
    requires parent.network.None? || Recorded(parent)
    ensures var outcome := FollowupSettings(Codex, parent, r, profileOrigin);
      outcome.Accepted? ==> Recorded(outcome.settings)
  {
  }

  /** Every child in a chain of codex runs has its posture recorded, whatever legacy run the chain starts from. */
  lemma {:induction false} ChainIsRecorded(profile: bool, root: Settings, requests: seq<Request>)
    requires root.network.None? || Recorded(root)
    ensures var outcome := Chain(Codex, profile, root, requests);
      outcome.Accepted? ==> (requests == [] && outcome.settings == root) || Recorded(outcome.settings)
  {
    if requests != [] {
      var n := |requests| - 1;
      ChainIsRecorded(profile, root, requests[..n]);
      var parent := Chain(Codex, profile, root, requests[..n]);
      if parent.Accepted? {
        FollowupIsRecorded(parent.settings, requests[n], OriginIsProfile(profile, n));
      }
    }
  }

  /**
   * A run that the service started and every follow-up of it record their posture, which is the
   * last one asked for, the start's own included, and isolated when none ever was.
   */
  lemma StartedChain(start: Request, profile: bool, requests: seq<Request>)
    requires ModelSettingsForBackend(Codex, start, start.network).Accepted?
    ensures var root := ModelSettingsForBackend(Codex, start, start.network).settings;
      var outcome := Chain(Codex, profile, root, requests);
      outcome.Accepted? ==>
        Recorded(outcome.settings)
        && Effective(outcome.settings)
           == LastAsked(requests, if start.network.Some? then start.network.value else Isolated)
  {
    var root := ModelSettingsForBackend(Codex, start, start.network).settings;
    StartIsRecorded(start);
    ChainIsRecorded(profile, root, requests);
    PostureIsLastAsked(profile, root, requests);
  }

  /** The last posture asked for in the chain, the given one when none was. */
  function LastAsked(requests: seq<Request>, otherwise: Network): Network {
    if requests == [] then otherwise
    else
      var last := requests[|requests| - 1];
      if last.network.Some? then last.network.value else LastAsked(requests[..|requests| - 1], otherwise)
  }

  /** No follow-up changes the posture except by asking for it. */
  lemma {:induction false} PostureIsLastAsked(profile: bool, root: Settings, requests: seq<Request>)
    ensures var outcome := Chain(Codex, profile, root, requests);
      outcome.Accepted? ==> Effective(outcome.settings) == LastAsked(requests, Effective(root))
  {
    if requests != [] {
      PostureIsLastAsked(profile, root, requests[..|requests| - 1]);
    }
  }

  /** The last reasoning effort and service tier asked for together, the root's when neither was ever asked for. */
  function LastTuning(requests: seq<Request>, root: Settings): (Option<Effort>, Option<Tier>) {
    if requests == [] then (root.effort, root.tier)
    else
      var last := requests[|requests| - 1];
      if last.effort.Some? || last.tier.Some?
      then (last.effort, if last.tier == Some(NormalTier) then None else last.tier)
      else LastTuning(requests[..|requests| - 1], root)
  }

  /** A posture override leaves effort and tier alone; asking for either resets the other. */
  lemma {:induction false} TuningIsLastAsked(profile: bool, root: Settings, requests: seq<Request>)
    ensures var outcome := Chain(Codex, profile, root, requests);
      outcome.Accepted? ==> (outcome.settings.effort, outcome.settings.tier) == LastTuning(requests, root)
  {
    if requests != [] {
      TuningIsLastAsked(profile, root, requests[..|requests| - 1]);
    }
  }

  // ---------- profile-mode chains ----------

  /** The only profile-mode ancestor of run k is run 0, k steps up. */
  lemma {:induction false} LineageProfileAt(profile: bool, n: nat, k: nat, i: nat)
    requires k < n
    ensures ProfileAt(Lineage(profile, n)[k], Lineage(profile, n), i) <==> profile && i == k
    decreases k
  {
    if k > 0 && i > 0 {
      LineageProfileAt(profile, n, k - 1, i - 1);
    }
  }

  /** Run k of a profile-mode chain is recognised as such exactly when k is below 1000. */
  lemma OriginIff(profile: bool, k: nat)
    ensures OriginIsProfile(profile, k) <==> profile && k < MAX_DEPTH
  {
    var metas := Lineage(profile, k + 1);
    forall i: nat ensures ProfileAt(metas[k], metas, i) <==> profile && i == k {
      LineageProfileAt(profile, k + 1, k, i);
    }
    if profile && k < MAX_DEPTH {
      assert ProfileAt(metas[k], metas, k);
    }
  }

  /** In a chain of up to 1000 follow-ups that began in profile mode the posture never changes. */
  lemma {:induction false} ProfilePostureHolds(root: Settings, requests: seq<Request>)
    requires |requests| <= MAX_DEPTH
    ensures var outcome := Chain(Codex, true, root, requests);
      outcome.Accepted? ==> Effective(outcome.settings) == Effective(root)
  {
    if requests != [] {
      ProfilePostureHolds(root, requests[..|requests| - 1]);
      OriginIff(true, |requests| - 1);
    }
  }

  /**
   * A posture override of run k that codex accepts otherwise is accepted exactly when the chain
   * did not begin in profile mode, or k is 1000 or more.
   */
  lemma OverrideAcceptedIff(profile: bool, root: Settings, requests: seq<Request>, r: Request)
    requires Chain(Codex, profile, root, requests).Accepted?
    requires r.network.Some?
    ensures Chain(Codex, profile, root, requests + [r]).Accepted?
       <==> (!profile || |requests| >= MAX_DEPTH) && r.effort != Some(MaxEffort)
  {
    OriginIff(profile, |requests|);
    assert (requests + [r])[..|requests|] == requests;
  }

  // ---------- which starts and chains are accepted ----------

  /** Which settings a start may ask for on each backend, and what is recorded for it. */
  lemma StartAcceptedIff(backend: Backend, r: Request)
    ensures var outcome := ModelSettingsForBackend(backend, r, r.network);
      && (outcome.Accepted? <==>
            match backend
            case Codex => r.effort != Some(MaxEffort)
            case Claude => r.network.None? && r.tier.None? && r.claudeAgrees
            case Cursor => r.network.None? && r.effort.None? && r.tier.None? && r.modelNamed)
      && (outcome.Accepted? ==>
            && outcome.settings.effort == r.effort
            && outcome.settings.tier == (if r.tier == Some(NormalTier) then None else r.tier)
            && (backend != Codex ==> outcome.settings.network.None? && outcome.settings.mode.None?))
  {
  }

  lemma ChainFront(backend: Backend, profile: bool, root: Settings, requests: seq<Request>)
    requires requests != []
    ensures var n := |requests| - 1;
      && (forall r <- requests :: r in requests[..n] || r == requests[n])
      && (forall r <- requests[..n] :: r in requests)
      && (forall k :: 0 <= k < n ==> requests[..n][k] == requests[k])
      && (Chain(backend, profile, root, requests).Accepted?
          ==> Chain(backend, profile, root, requests[..n]).Accepted?)
  {
  }

  /**
   * A chain of codex follow-ups is accepted exactly when none asks for the effort `max`, and none
   * of the first 1000 asks for a posture if the chain began in profile mode.
   */
  lemma {:induction false} CodexAcceptedIff(profile: bool, root: Settings, requests: seq<Request>)
    ensures Chain(Codex, profile, root, requests).Accepted? <==>
      forall k :: 0 <= k < |requests| ==>
        && requests[k].effort != Some(MaxEffort)
        && (requests[k].network.Some? ==> !profile || k >= 1000)
  {
    if requests != [] {
      var n := |requests| - 1;
      CodexAcceptedIff(profile, root, requests[..n]);
      ChainFront(Codex, profile, root, requests);
      OriginIff(profile, n);
    }
  }

  /**
   * A chain of Claude follow-ups is accepted exactly when none asks for a posture or a tier, each
   * that asks for an effort or a model names ones that agree, and the first run has no posture if
   * an effort is ever asked for. It then has the last effort asked for and nothing else, or the
   * first run's settings when none was.
   */
  lemma {:induction false} ClaudeChain(profile: bool, root: Settings, requests: seq<Request>)
    ensures Chain(Claude, profile, root, requests).Accepted? <==>
      && (forall r <- requests :: r.network.None? && r.tier.None?
            && (r.effort.Some? || r.model.Some? ==> r.claudeAgrees))
      && (root.network.Some? ==> forall r <- requests :: r.effort.None?)
    ensures var outcome := Chain(Claude, profile, root, requests);
      var tuned := exists r <- requests :: r.effort.Some?;
      outcome.Accepted? ==>
        outcome.settings == if tuned then Settings(LastTuning(requests, root).0, None, None, None) else root
  {
    if requests != [] {
      var n := |requests| - 1;
      ClaudeChain(profile, root, requests[..n]);
      ChainFront(Claude, profile, root, requests);
      assert requests[n] in requests;
    }
  }

  /**
   * A chain of Cursor follow-ups is accepted exactly when none asks for a posture, an effort or a
   * tier, every model is a named one, and the first run has neither effort nor tier. It keeps the
   * first run's settings.
   */
  lemma {:induction false} CursorChain(profile: bool, root: Settings, requests: seq<Request>)
    ensures var outcome := Chain(Cursor, profile, root, requests);
      && (outcome.Accepted? <==>
            && (forall r <- requests :: r.network.None? && r.effort.None? && r.tier.None? && r.modelNamed)
            && (requests != [] ==> root.effort.None? && root.tier.None?))
      && (outcome.Accepted? ==> outcome.settings == root)
  {
    if requests != [] {
      var n := |requests| - 1;
      CursorChain(profile, root, requests[..n]);
      ChainFront(Cursor, profile, root, requests);
      assert requests[n] in requests;
    }
  }
}
