/** Changes and trajectories, step by step (src/workflow.rs). */
module Workflow {
  import opened Varint
  import opened Paths
  import opened Wrappers
  import opened Objects
  import opened Graph
  import History
  import opened States

  // Steps over shared records, with the publication step of src/reconcile.rs. Every step but `Snapshot`
  // runs under the write lock; a finish snapshots first, outside the lock, so anything may happen
  // between its snapshot and its commit.

  type Name = seq<byte>
  type Workspace = string

  const CHANGE: Family := 0x07
  const TRAJECTORY: Family := 0x09
  const DEFAULT_WORKSPACE := "default"
  const CURRENT: Name := [0x63, 0x75, 0x72, 0x72, 0x65, 0x6E, 0x74]

  datatype Change = Change(intent: Option<Gid>, input: Option<Gid>, result: Gid, parents: seq<Gid>, at: int)

  /** One version of a trajectory. A version with an outcome is closed. */
  datatype Version = Version(previous: Option<Gid>, intent: Option<Gid>, base: Option<Gid>, added: seq<Gid>,
      outcome: Option<string>, at: int)

  /** `serial` tells pending records apart. */
  datatype Pending = Pending(serial: nat, input: Option<Gid>, intent: Option<Gid>)

  /** How objects get their identities. */
  datatype Ids = Ids(change: Change -> Digest, version: Version -> Digest)

  /** The shared records, with three histories: the changes in the order they were made, the number of
      pending records ever opened, and the serials of those that were consumed. */
  datatype State = State(
    changes: map<Gid, Change>, versions: map<Gid, Version>,
    head: Option<Gid>, stateHead: Option<Gid>, names: map<Name, Gid>, lastTrajectory: nat,
    pending: map<Workspace, Pending>, workspaces: map<Workspace, Gid>, snapshots: multiset<(Workspace, Gid)>,
    made: seq<Gid>, begun: nat, consumed: seq<nat>)

  const INITIAL := State(map[], map[], None, None, map[], 0, map[], map[], multiset{}, [], 0, [])

  datatype Step =
    | Begin(workspace: Workspace, from: Option<Gid>, intent: Option<Gid>)
    | Snapshot(workspace: Workspace, result: Gid)
    | Commit(workspace: Workspace, result: Gid, at: int)
    | Close(target: Gid, outcome: string, at: int)
    | Reconcile(base: Option<Gid>, intent: Option<Gid>, adopted: seq<Gid>, result: Gid, apply: bool, at: int)

  function Digits(n: nat): seq<byte>
  {
    if n < 10 then [48 + n] else Digits(n / 10) + [48 + n % 10]
  }

  /** The name of the n-th trajectory. */
  function TrajectoryName(n: nat): Name { [84] + Digits(n) }

  // ---- Storing ----

  predicate Collides<T(==)>(stored: map<Gid, T>, id: Gid, value: T) { id in stored && stored[id] != value }

  function WithChange(s: State, id: Gid, c: Change): State
  {
    s.(changes := s.changes[id := c], made := if id in s.changes then s.made else s.made + [id])
  }

  function WithVersion(s: State, id: Gid, v: Version): State { s.(versions := s.versions[id := v]) }

  function ChangeId(ids: Ids, c: Change): Gid { Gid(CHANGE, ids.change(c)) }

  function VersionId(ids: Ids, v: Version): Gid { Gid(TRAJECTORY, ids.version(v)) }

  // ---- The steps ----

  function DoBegin(s: State, workspace: Workspace, from: Option<Gid>, intent: Option<Gid>): State
  {
    if workspace in s.pending then s
    else
      var input := if from.Some? then from
                   else if workspace in s.workspaces then Some(s.workspaces[workspace])
                   else s.stateHead;
      s.(pending := s.pending[workspace := Pending(s.begun, input, intent)], begun := s.begun + 1)
  }

  function DoSnapshot(s: State, workspace: Workspace, result: Gid): State
  {
    if workspace !in s.pending then s else s.(snapshots := s.snapshots + multiset{(workspace, result)})
  }

  /** The head, when its resulting state is what the change started from. */
  function CausalParents(s: State, input: Option<Gid>): seq<Gid>
  {
    if s.head.Some? && s.head.value in s.changes && Some(s.changes[s.head.value].result) == input then [s.head.value]
      else []
  }

  /** The latest trajectory, when it has this intent and no outcome. */
  function OpenTrajectory(s: State, intent: Option<Gid>): Option<Gid>
  {
    var name := TrajectoryName(s.lastTrajectory);
    if s.lastTrajectory > 0 && name in s.names && s.names[name] in s.versions
       && s.versions[s.names[name]].intent == intent && s.versions[s.names[name]].outcome == None
    then Some(s.names[name]) else None
  }

  /** The change a finish makes of a pending record. */
  function FinishedChange(s: State, p: Pending, result: Gid, at: int): Change
  {
    Change(p.intent, p.input, result, CausalParents(s, p.input), at)
  }

  /** The trajectory version a finish adds its change to. */
  function NextVersion(s: State, p: Pending, change: Gid, at: int): Version
  {
    match OpenTrajectory(s, p.intent)
    case Some(g) => if g in s.versions then Version(Some(g), p.intent, s.versions[g].base, [change], None, at)
                    else Version(None, p.intent, p.input, [change], None, at)
    case None => Version(None, p.intent, p.input, [change], None, at)
  }

  /** The refs and records a finish sets once both objects are stored. */
  function Published(s: State, workspace: Workspace, result: Gid, change: Gid, version: Gid, isNew: bool,
        serial: nat): State
  {
    var n := if isNew then s.lastTrajectory + 1 else s.lastTrajectory;
    s.(head := Some(change), stateHead := Some(result), lastTrajectory := n,
       names := s.names[TrajectoryName(n) := version][CURRENT := version],
       workspaces := s.workspaces[workspace := result], pending :=
           s.pending - {workspace}, consumed := s.consumed + [serial])
  }

  function DoCommit(s0: State, workspace: Workspace, result: Gid, at: int, ids: Ids): State
  {
    if (workspace, result) !in s0.snapshots then s0
    else
      var s := s0.(snapshots := s0.snapshots - multiset{(workspace, result)});
      if workspace !in s.pending then s
      else
        var p := s.pending[workspace];
        var change := FinishedChange(s, p, result, at);
        var changeId := ChangeId(ids, change);
        if Collides(s.changes, changeId, change) then s
        else
          var s1 := WithChange(s, changeId, change);
          var version := NextVersion(s, p, changeId, at);
          var versionId := VersionId(ids, version);
          if Collides(s.versions, versionId, version) then s1
          else Published(WithVersion(s1, versionId, version), workspace, result, changeId, versionId,
                         OpenTrajectory(s, p.intent) == None, p.serial)
  }

  /** The first name, in name order, of a version. */
  ghost function NameOf(names: map<Name, Gid>, g: Gid): Option<Name>
  {
    var those := set n | n in names && names[n] == g;
    if those == {} then None else Some(Sorted(those)[0])
  }

  function ClosedVersion(s: State, target: Gid, outcome: string, at: int): Version
    requires target in s.versions
  {
    Version(Some(target), s.versions[target].intent, s.versions[target].base, [], Some(outcome), at)
  }

  ghost function DoClose(s: State, target: Gid, outcome: string, at: int, ids: Ids): State
  {
    if target !in s.versions then s
    else
      var version := ClosedVersion(s, target, outcome, at);
      var id := VersionId(ids, version);
      if Collides(s.versions, id, version) then s
      else
        var s1 := WithVersion(s, id, version);
        match NameOf(s.names, target)
        case None => s1
        case Some(name) => s1.(names := s1.names[name := id])
  }

  function DoReconcile(s: State, base: Option<Gid>, intent: Option<Gid>, adopted: seq<Gid>, result: Gid, apply: bool,
        at: int, ids: Ids): State
  {
    if exists g :: g in adopted && g !in s.changes then s
    else
      var change := Change(intent, base, result, adopted, at);
      var id := ChangeId(ids, change);
      if Collides(s.changes, id, change) then s
      else
        var s1 := WithChange(s, id, change);
        if apply then s1.(head :=
            Some(id), stateHead := Some(result), workspaces := s1.workspaces[DEFAULT_WORKSPACE := result])
        else s1
  }

  ghost function Do(s: State, step: Step, ids: Ids): State
  {
    match step
    case Begin(ws, from, intent) => DoBegin(s, ws, from, intent)
    case Snapshot(ws, result) => DoSnapshot(s, ws, result)
    case Commit(ws, result, at) => DoCommit(s, ws, result, at, ids)
    case Close(target, outcome, at) => DoClose(s, target, outcome, at, ids)
    case Reconcile(base, intent, adopted, result, apply, at) => DoReconcile(s, base, intent, adopted, result, apply, at,
        ids)
  }

  ghost function Run(s: State, steps: seq<Step>, ids: Ids): State
    decreases |steps|
  {
    if steps == [] then s else Run(Do(s, steps[0], ids), steps[1..], ids)
  }

  // ---- What every step keeps ----

  /** A version continues its previous one: same intent, same base, and nothing added after an outcome. */
  ghost predicate Continues(versions: map<Gid, Version>, v: Version)
  {
    v.previous.Some? ==>
      && v.previous.value in versions
      && v.intent == versions[v.previous.value].intent && v.base == versions[v.previous.value].base
      && (versions[v.previous.value].outcome.Some? ==> v.outcome.Some? && v.added == [])
  }

  ghost predicate ChainsHold(s: State)
  {
    && (forall g :: g in s.versions ==> Continues(s.versions, s.versions[g]))
    && (forall g :: g in s.versions && s.versions[g].outcome.Some? ==> s.versions[g].added == [])
    && (forall g, c :: g in s.versions && c in s.versions[g].added ==> c in s.changes)
    && forall n :: n in s.names ==> s.names[n] in s.versions
  }

  ghost predicate HeadsAgree(s: State)
  {
    match s.head
    case None => s.stateHead == None
    case Some(g) => g in s.changes && s.stateHead == Some(s.changes[g].result)
  }

  /** The causal parents of every stored change. */
  ghost function ParentLinks(s: State): Links
  {
    map g | g in s.changes :: s.changes[g].parents
  }

  /** The changes in the order they were made: each once, parents first. */
  ghost predicate MadeInOrder(s: State)
  {
    && (forall g :: g in s.made <==> g in s.changes)
    && Distinct(s.made) && History.ParentsFirst(ParentLinks(s), s.made)
  }

  ghost predicate DistinctSerials(consumed: seq<nat>)
  {
    forall i, j :: 0 <= i < j < |consumed| ==> consumed[i] != consumed[j]
  }

  /** Every serial was given to one record, which is either pending or consumed, and consumed once. */
  ghost predicate PendingOnce(s: State)
  {
    && Accounted(s)
    && DistinctSerials(s.consumed) && (forall n :: n in s.consumed ==> n < s.begun)
    && (forall w :: w in s.pending ==> s.pending[w].serial < s.begun && s.pending[w].serial !in s.consumed)
    && forall w, x :: w in s.pending && x in s.pending && s.pending[w].serial == s.pending[x].serial ==> w == x
  }

  ghost predicate Accounted(s: State)
  {
    forall n: nat :: n < s.begun ==> n in s.consumed || HasPending(s, n)
  }

  ghost predicate HasPending(s: State, serial: nat)
  {
    exists w :: w in s.pending && s.pending[w].serial == serial
  }

  ghost predicate Valid(s: State)
  {
    ChainsHold(s) && HeadsAgree(s) && MadeInOrder(s) && PendingOnce(s)
  }

  lemma {:induction false} StoreChange(s: State, id: Gid, c: Change)
    requires Valid(s) && !Collides(s.changes, id, c) && forall p :: p in c.parents ==> p in s.changes
    ensures Valid(WithChange(s, id, c))
  {
    var t := WithChange(s, id, c);
    assert MadeInOrder(t) by {
      if id in s.changes {
        assert t.changes == s.changes;
      } else {
        MadeMore(s, t, id, c);
      }
    }
  }

  lemma {:induction false} MadeMore(s: State, t: State, id: Gid, c: Change)
    requires MadeInOrder(s) && id !in s.changes && t.changes == s.changes[id := c] && t.made == s.made + [id]
    requires forall p :: p in c.parents ==> p in s.changes
    ensures MadeInOrder(t)
  {
    var links, links' := ParentLinks(s), ParentLinks(t);
    forall i, p | 0 <= i < |t.made| && t.made[i] in links' && p in links'[t.made[i]] ensures p in t.made[..i] {
      if i < |s.made| {
        assert t.made[i] == s.made[i] && s.made[i] in s.made;
        assert links'[t.made[i]] == links[s.made[i]];
        assert t.made[..i] == s.made[..i];
      } else {
        assert t.made[..i] == s.made;
      }
    }
  }

  lemma {:induction false} StoreVersion(s: State, id: Gid, v: Version)
    requires Valid(s) && !Collides(s.versions, id, v) && Continues(s.versions, v)
    requires (v.outcome.Some? ==> v.added == []) && forall c :: c in v.added ==> c in s.changes
    ensures Valid(WithVersion(s, id, v))
  {
    var t := WithVersion(s, id, v);
    forall g | g in t.versions ensures Continues(t.versions, t.versions[g]) {
      assert Continues(s.versions, t.versions[g]);
    }
  }

  lemma {:induction false} BeginKeeps(s: State, workspace: Workspace, from: Option<Gid>, intent: Option<Gid>)
    requires Valid(s)
    ensures Valid(DoBegin(s, workspace, from, intent))
  {
    hide ChainsHold, MadeInOrder, PendingOnce;
    var t := DoBegin(s, workspace, from, intent);
    SameMade(s, t);
    SameChains(s, t);
    PendingOpened(s, workspace, from, intent);
  }

  lemma {:induction false} PendingOpened(s: State, workspace: Workspace, from: Option<Gid>, intent: Option<Gid>)
    requires PendingOnce(s)
    ensures PendingOnce(DoBegin(s, workspace, from, intent))
  {
    hide Accounted;
    AccountedOpened(s, DoBegin(s, workspace, from, intent), workspace);
  }

  lemma {:induction false} AccountedOpened(s: State, t: State, workspace: Workspace)
    requires Accounted(s) && t.consumed == s.consumed
    requires t == s || (t.begun == s.begun + 1 && workspace !in s.pending && workspace in t.pending
                        && t.pending == s.pending[workspace := t.pending[workspace]]
                            && t.pending[workspace].serial == s.begun)
    ensures Accounted(t)
  {
    forall n: nat | n < t.begun ensures n in t.consumed || HasPending(t, n) {
      if n < s.begun {
        if n !in s.consumed {
          var w :| w in s.pending && s.pending[w].serial == n;
          assert w in t.pending && t.pending[w].serial == n;
        }
      } else {
        assert t.pending[workspace].serial == n;
      }
    }
  }

  lemma {:induction false} PendingConsumed(s: State, t: State, workspace: Workspace)
    requires PendingOnce(s) && workspace in s.pending && t.begun == s.begun
    requires t.pending == s.pending - {workspace} && t.consumed == s.consumed + [s.pending[workspace].serial]
    ensures PendingOnce(t)
  {
    hide Accounted;
    AccountedConsumed(s, t, workspace);
  }

  lemma {:induction false} AccountedConsumed(s: State, t: State, workspace: Workspace)
    requires Accounted(s) && workspace in s.pending && t.begun == s.begun
    requires t.pending == s.pending - {workspace} && t.consumed == s.consumed + [s.pending[workspace].serial]
    ensures Accounted(t)
  {
    forall n: nat | n < t.begun ensures n in t.consumed || HasPending(t, n) {
      if n !in s.consumed && n != s.pending[workspace].serial {
        var w :| w in s.pending && s.pending[w].serial == n;
        assert w in t.pending && t.pending[w].serial == n;
      }
    }
  }

  lemma {:induction false} SameMade(s: State, t: State)
    requires MadeInOrder(s) && t.changes == s.changes && t.made == s.made
    ensures MadeInOrder(t)
  {
    assert ParentLinks(s) == ParentLinks(t);
  }

  lemma {:induction false} SamePending(s: State, t: State)
    requires PendingOnce(s) && t.pending == s.pending && t.begun == s.begun && t.consumed == s.consumed
    ensures PendingOnce(t)
  {
  }

  lemma {:induction false} SameChains(s: State, t: State)
    requires ChainsHold(s) && t.changes == s.changes && t.versions == s.versions && t.names == s.names
    ensures ChainsHold(t)
  {
  }

  lemma {:induction false} OpenContinues(s: State, p: Pending, change: Gid, at: int)
    requires Valid(s)
    ensures Continues(s.versions, NextVersion(s, p, change, at))
  {
  }

  lemma {:induction false} PublishKeeps(s: State, workspace: Workspace, result: Gid, change: Gid, version: Gid,
        isNew: bool)
    requires Valid(s) && workspace in s.pending && change in s.changes && s.changes[change].result == result
        && version in s.versions
    ensures Valid(Published(s, workspace, result, change, version, isNew, s.pending[workspace].serial))
  {
    hide MadeInOrder, TrajectoryName, PendingOnce;
    var t := Published(s, workspace, result, change, version, isNew, s.pending[workspace].serial);
    SameMade(s, t);
    PendingConsumed(s, t, workspace);
  }

  lemma {:induction false} SnapshotKeeps(s: State, snapshots: multiset<(Workspace, Gid)>)
    requires Valid(s)
    ensures Valid(s.(snapshots := snapshots))
  {
    hide MadeInOrder;
    SameMade(s, s.(snapshots := snapshots));
  }

  lemma {:induction false} CommitKeeps(s0: State, workspace: Workspace, result: Gid, at: int, ids: Ids)
    requires Valid(s0)
    ensures Valid(DoCommit(s0, workspace, result, at, ids))
  {
    hide Valid, WithVersion, Published;
    var s := s0.(snapshots := s0.snapshots - multiset{(workspace, result)});
    SnapshotKeeps(s0, s.snapshots);
    if (workspace, result) in s0.snapshots && workspace in s.pending {
      var p := s.pending[workspace];
      var change := FinishedChange(s, p, result, at);
      var changeId := ChangeId(ids, change);
      if !Collides(s.changes, changeId, change) {
        StoreChange(s, changeId, change);
        var s1 := WithChange(s, changeId, change);
        var version := NextVersion(s, p, changeId, at);
        OpenContinues(s, p, changeId, at);
        if !Collides(s.versions, VersionId(ids, version), version) {
          StoreVersion(s1, VersionId(ids, version), version);
          var s2 := WithVersion(s1, VersionId(ids, version), version);
          assert s2.changes == s1.changes && s2.pending == s.pending && VersionId(ids, version) in s2.versions by {
            VersionStored(s1, VersionId(ids, version), version);
          }
          PublishKeeps(s2, workspace, result, changeId, VersionId(ids, version), OpenTrajectory(s, p.intent) == None);
        }
      }
    }
  }

  lemma {:induction false} VersionStored(s: State, id: Gid, v: Version)
    ensures var t := WithVersion(s, id, v);
      t.changes == s.changes && t.pending == s.pending && id in t.versions && t.versions[id] == v && t.names == s.names
  {
  }

  lemma {:induction false} CloseKeeps(s: State, target: Gid, outcome: string, at: int, ids: Ids)
    requires Valid(s)
    ensures Valid(DoClose(s, target, outcome, at, ids))
  {
    hide Valid, NameOf, WithVersion;
    if target in s.versions {
      var version := ClosedVersion(s, target, outcome, at);
      var id := VersionId(ids, version);
      if !Collides(s.versions, id, version) {
        StoreVersion(s, id, version);
        VersionStored(s, id, version);
        var s1 := WithVersion(s, id, version);
        if NameOf(s.names, target).Some? { RenameKeeps(s1, NameOf(s.names, target).value, id); }
      }
    }
  }

  lemma {:induction false} RenameKeeps(s: State, name: Name, id: Gid)
    requires Valid(s) && id in s.versions
    ensures Valid(s.(names := s.names[name := id]))
  {
    hide MadeInOrder;
    SameMade(s, s.(names := s.names[name := id]));
  }

  lemma {:induction false} ReconcileKeeps(s: State, base: Option<Gid>, intent: Option<Gid>, adopted: seq<Gid>,
        result: Gid, apply: bool, at: int, ids: Ids)
    requires Valid(s)
    ensures Valid(DoReconcile(s, base, intent, adopted, result, apply, at, ids))
  {
    hide ChainsHold, MadeInOrder, PendingOnce;
    if forall g :: g in adopted ==> g in s.changes {
      var change := Change(intent, base, result, adopted, at);
      var id := ChangeId(ids, change);
      if !Collides(s.changes, id, change) {
        StoreChange(s, id, change);
        var s1 := WithChange(s, id, change);
        var t := s1.(head :=
            Some(id), stateHead := Some(result), workspaces := s1.workspaces[DEFAULT_WORKSPACE := result]);
        SameMade(s1, t);
        SameChains(s1, t);
        SamePending(s1, t);
      }
    }
  }

  /** Every run, however its steps interleave, keeps the records valid. */
  lemma {:induction false} RunKeeps(s: State, steps: seq<Step>, ids: Ids)
    requires Valid(s)
    ensures Valid(Run(s, steps, ids))
    decreases |steps|
  {
    hide Valid, DoBegin, DoSnapshot, DoCommit, DoClose, DoReconcile;
    if steps != [] {
      match steps[0] {
        case Begin(ws, from, intent) => BeginKeeps(s, ws, from, intent);
        case Snapshot(ws, result) =>
          SnapshotKeeps(s, s.snapshots + multiset{(ws, result)});
          SnapshotIs(s, ws, result);
        case Commit(ws, result, at) => CommitKeeps(s, ws, result, at, ids);
        case Close(target, outcome, at) => CloseKeeps(s, target, outcome, at, ids);
        case Reconcile(base, intent, adopted, result, apply, at) => ReconcileKeeps(s, base, intent, adopted, result,
            apply, at, ids);
      }
      RunKeeps(Do(s, steps[0], ids), steps[1..], ids);
    }
  }

  lemma {:induction false} SnapshotIs(s: State, ws: Workspace, result: Gid)
    ensures DoSnapshot(s, ws, result) == s
        || DoSnapshot(s, ws, result) == s.(snapshots := s.snapshots + multiset{(ws, result)})
  {
  }

  lemma {:induction false} InitiallyValid()
    ensures Valid(INITIAL)
  {
  }

  // ---- What that means ----

  /** `g` is `n` versions above `a` in one chain. */
  ghost predicate VersionsAbove(versions: map<Gid, Version>, g: Gid, a: Gid, n: nat)
    decreases n
  {
    g in versions && if n == 0 then g == a
      else versions[g].previous.Some? && VersionsAbove(versions, versions[g].previous.value, a, n - 1)
  }

  /** All versions of a trajectory share intent and base state, and once one of them has an outcome no
      later one adds a change. */
  lemma {:induction false} ChainShares(s: State, g: Gid, a: Gid, n: nat)
    requires ChainsHold(s) && VersionsAbove(s.versions, g, a, n)
    ensures a in s.versions && s.versions[g].intent == s.versions[a].intent && s.versions[g].base == s.versions[a].base
    ensures s.versions[a].outcome.Some? ==> s.versions[g].outcome.Some? && s.versions[g].added == []
    decreases n
  {
    if n > 0 {
      assert Continues(s.versions, s.versions[g]);
      ChainShares(s, s.versions[g].previous.value, a, n - 1);
    }
  }

  /** Over every run from an empty repository: no pending record is consumed twice or is consumed and
      still pending, and every other record ever opened is pending or consumed; the state head is the
      resulting state of the head change; and the head's history has no cycle, so exporting it drops no
      causal parent. */
  lemma {:induction false} EveryRun(steps: seq<Step>, ids: Ids)
    ensures var s := Run(INITIAL, steps, ids);
      && PendingOnce(s) && HeadsAgree(s) && ChainsHold(s)
      && (s.head.Some? ==> AcyclicFrom(ParentLinks(s), s.head.value)
                           && forall g :: Reaches(ParentLinks(s), s.head.value, g) ==> g in s.changes)
  {
    hide AcyclicFrom, Reaches;
    InitiallyValid();
    RunKeeps(INITIAL, steps, ids);
    HeadHistory(Run(INITIAL, steps, ids));
  }

  /** The head's history is stored and has no cycle. */
  lemma {:induction false} HeadHistory(s: State)
    requires MadeInOrder(s) && HeadsAgree(s)
    ensures s.head.Some? ==>
        AcyclicFrom(ParentLinks(s), s.head.value) && forall g :: Reaches(ParentLinks(s), s.head.value, g) ==>
        g in s.changes
  {
    hide AcyclicFrom, Reaches;
    if s.head.Some? {
      var links := ParentLinks(s);
      var nodes := set g | g in s.changes;
      forall g, p | g in nodes && g in links && p in links[g] ensures p in nodes {
        var i :| 0 <= i < |s.made| && s.made[i] == g;
        assert p in s.made[..i];
      }
      ReachedSet(links, nodes, s.head.value);
      History.OrderedAcyclic(links, s.made, s.head.value);
    }
  }

  /** A finish that went through stored its change and its version and published both. */
  lemma {:induction false} CommitIs(s: State, workspace: Workspace, result: Gid, at: int, ids: Ids)
    requires DoCommit(s, workspace, result, at, ids).consumed != s.consumed
    ensures workspace in s.pending && (workspace, result) in s.snapshots
    ensures var p := s.pending[workspace];
      var taken := s.(snapshots := s.snapshots - multiset{(workspace, result)});
      var change := FinishedChange(s, p, result, at);
      var changeId := ChangeId(ids, change);
      var version := NextVersion(s, p, changeId, at);
      var versionId := VersionId(ids, version);
      DoCommit(s, workspace, result, at, ids)
        == Published(WithVersion(WithChange(taken, changeId, change), versionId, version), workspace, result, changeId,
            versionId,
                     OpenTrajectory(s, p.intent) == None, p.serial)
  {
    hide TrajectoryName, Published, ChangeId, VersionId;
    var taken := s.(snapshots := s.snapshots - multiset{(workspace, result)});
    if workspace in s.pending {
      SameOpen(s, taken, s.pending[workspace].intent);
      assert FinishedChange(taken, s.pending[workspace], result, at)
          == FinishedChange(s, s.pending[workspace], result, at);
    }
  }

  lemma {:induction false} FailsByCollision(s: State, workspace: Workspace, result: Gid, at: int, ids: Ids)
    requires DoCommit(s, workspace, result, at, ids).consumed == s.consumed
    ensures workspace in s.pending && (workspace, result) in s.snapshots ==>
      var c := FinishedChange(s, s.pending[workspace], result, at);
      var v := NextVersion(s, s.pending[workspace], Gid(CHANGE, ids.change(c)), at);
      Collides(s.changes, Gid(CHANGE, ids.change(c)), c) || Collides(s.versions, Gid(TRAJECTORY, ids.version(v)), v)
  {
    hide TrajectoryName, OpenTrajectory, Collides;
    var taken := s.(snapshots := s.snapshots - multiset{(workspace, result)});
    if workspace in s.pending {
      SameOpen(s, taken, s.pending[workspace].intent);
      assert FinishedChange(taken, s.pending[workspace], result, at)
        == FinishedChange(s, s.pending[workspace], result, at);
      Longer(s.consumed, s.pending[workspace].serial);
    }
  }

  lemma {:induction false} Longer(consumed: seq<nat>, serial: nat)
    ensures consumed + [serial] != consumed
  {
    assert |consumed + [serial]| > |consumed|;
  }

  /** What a finish that went through has done: the head is a change from the recorded input to the
      snapshot, with the old head as its parent exactly when the old state head is that input; the
      current trajectory version adds that change and nothing else, and it continues an open version
      of the same intent or starts afresh from the recorded input. */
  lemma {:induction false} CommitEffects(s: State, workspace: Workspace, result: Gid, at: int, ids: Ids)
    requires Valid(s) && DoCommit(s, workspace, result, at, ids).consumed != s.consumed
    ensures workspace in s.pending && (workspace, result) in s.snapshots
    ensures var p, t := s.pending[workspace], DoCommit(s, workspace, result, at, ids);
      && t.head.Some? && t.head.value in t.changes
      && t.changes[t.head.value]
          == Change(p.intent, p.input, result, if s.head.Some? && s.stateHead == p.input then [s.head.value]
            else [], at)
      && t.stateHead == Some(result) && workspace in t.workspaces && t.workspaces[workspace] == result
      && t.pending == s.pending - {workspace} && t.consumed == s.consumed + [p.serial]
      && t.workspaces == s.workspaces[workspace := result] && t.begun == s.begun
      && t.snapshots == s.snapshots - multiset{(workspace, result)}
      && t.changes == s.changes[t.head.value := t.changes[t.head.value]]
  {
    hide DoCommit, TrajectoryName, ChainsHold, MadeInOrder, PendingOnce, NextVersion, ChangeId, VersionId;
    CommitIs(s, workspace, result, at, ids);
  }

  /** A change stored under its identity and nothing published. */
  ghost predicate LeftBehind(s: State, t: State, c: Change, ids: Ids)
  {
    var id := Gid(CHANGE, ids.change(c));
    id !in s.changes && t.changes == s.changes[id := c] && t.made == s.made + [id]
  }

  /** A finish that does not go through takes its snapshot, and can leave its change behind; nothing else
      changes. It fails only when its snapshot or the pending record is gone or something else has the identity
      of its change or its version (`FailsByCollision`). */
  lemma {:induction false} CommitFails(s: State, workspace: Workspace, result: Gid, at: int, ids: Ids)
    requires DoCommit(s, workspace, result, at, ids).consumed == s.consumed
    ensures var t := DoCommit(s, workspace, result, at, ids);
      && (t.snapshots == s.snapshots || t.snapshots == s.snapshots - multiset{(workspace, result)})
      && t.(snapshots := s.snapshots, changes := s.changes, made := s.made) == s
      && (t.changes != s.changes ==> workspace in s.pending)
      && (t.changes != s.changes ==> LeftBehind(s, t, FinishedChange(s, s.pending[workspace], result, at), ids))
  {
    hide TrajectoryName, OpenTrajectory;
    var taken := s.(snapshots := s.snapshots - multiset{(workspace, result)});
    if workspace in s.pending {
      SameOpen(s, taken, s.pending[workspace].intent);
      assert FinishedChange(taken, s.pending[workspace], result, at)
        == FinishedChange(s, s.pending[workspace], result, at);
    }
  }

  lemma {:induction false} CommitContinues(s: State, workspace: Workspace, result: Gid, at: int, ids: Ids)
    requires Valid(s) && DoCommit(s, workspace, result, at, ids).consumed != s.consumed
    ensures workspace in s.pending
    ensures var p, t := s.pending[workspace], DoCommit(s, workspace, result, at, ids);
      && CURRENT in t.names && t.names[CURRENT] in t.versions && t.head.Some?
      && var v := t.versions[t.names[CURRENT]];
         v.added == [t.head.value] && v.intent == p.intent && v.outcome == None
         && v.previous == OpenTrajectory(s, p.intent)
         && (match v.previous
             case None => v.base == p.input && t.lastTrajectory == s.lastTrajectory + 1
             case Some(g) => g in s.versions && s.versions[g].intent == p.intent && s.versions[g].outcome == None
                             && v.base == s.versions[g].base && t.lastTrajectory == s.lastTrajectory)
         && t.versions == s.versions[t.names[CURRENT] := v] && v.at == at
         && t.lastTrajectory > 0
             && t.names == s.names[TrajectoryName(t.lastTrajectory) := t.names[CURRENT]][CURRENT := t.names[CURRENT]]
  {
    hide DoCommit, TrajectoryName, Valid, FinishedChange, ChangeId, VersionId;
    CommitIs(s, workspace, result, at, ids);
  }

  /** Work goes on where it stopped: after a finish, the next change begun and finished in the same
      workspace with the same intent starts from the result of the first, has it as its causal parent,
      and adds to the same trajectory, when nothing comes between. */
  lemma {:induction false} BackToBack(s: State, workspace: Workspace, first: Gid, at: int, second: Gid, later: int,
        ids: Ids)
    requires Valid(s) && DoCommit(s, workspace, first, at, ids).consumed != s.consumed
    ensures workspace in s.pending
    ensures var t := DoCommit(s, workspace, first, at, ids);
      var begun := DoSnapshot(DoBegin(t, workspace, None, s.pending[workspace].intent), workspace, second);
      var u := DoCommit(begun, workspace, second, later, ids);
      u.consumed != begun.consumed ==>
        && t.head.Some? && u.head.Some? && u.head.value in u.changes
        && u.changes[u.head.value].input == Some(first) && u.changes[u.head.value].parents == [t.head.value]
        && CURRENT in t.names && CURRENT in u.names && u.names[CURRENT] in u.versions
        && u.versions[u.names[CURRENT]].previous == Some(t.names[CURRENT]) && u.lastTrajectory == t.lastTrajectory
  {
    hide DoCommit, DoBegin, DoSnapshot, Valid, OpenTrajectory, TrajectoryName;
    var t := DoCommit(s, workspace, first, at, ids);
    CommitEffects(s, workspace, first, at, ids);
    var p := s.pending[workspace];
    CommitKeeps(s, workspace, first, at, ids);
    CommitOpens(s, workspace, first, at, ids);
    var resumed := DoBegin(t, workspace, None, p.intent);
    BeginKeeps(t, workspace, None, p.intent);
    BeginAgain(t, workspace, p.intent);
    var begun := DoSnapshot(resumed, workspace, second);
    SnapshotIs(resumed, workspace, second);
    SnapshotKeeps(resumed, resumed.snapshots + multiset{(workspace, second)});
    var u := DoCommit(begun, workspace, second, later, ids);
    if u.consumed != begun.consumed {
      CommitEffects(begun, workspace, second, later, ids);
      CommitContinues(begun, workspace, second, later, ids);
      SameOpen(t, begun, p.intent);
    }
  }

  /** A finish leaves its trajectory open for the same intent. */
  lemma {:induction false} CommitOpens(s: State, workspace: Workspace, result: Gid, at: int, ids: Ids)
    requires Valid(s) && DoCommit(s, workspace, result, at, ids).consumed != s.consumed
    ensures workspace in s.pending
    ensures var t := DoCommit(s, workspace, result, at, ids);
      CURRENT in t.names && OpenTrajectory(t, s.pending[workspace].intent) == Some(t.names[CURRENT])
  {
    hide DoCommit, TrajectoryName, Valid;
    CommitContinues(s, workspace, result, at, ids);
  }

  lemma {:induction false} BeginAgain(t: State, workspace: Workspace, intent: Option<Gid>)
    requires workspace !in t.pending && workspace in t.workspaces
    ensures var u := DoBegin(t, workspace, None, intent);
      && workspace in u.pending && u.pending[workspace].input == Some(t.workspaces[workspace])
          && u.pending[workspace].intent == intent
      && u.head == t.head && u.stateHead == t.stateHead && u.names == t.names && u.versions == t.versions
          && u.lastTrajectory == t.lastTrajectory
  {
  }

  lemma {:induction false} SameOpen(s: State, t: State, intent: Option<Gid>)
    requires t.names == s.names && t.versions == s.versions && t.lastTrajectory == s.lastTrajectory
    ensures OpenTrajectory(t, intent) == OpenTrajectory(s, intent)
  {
    hide TrajectoryName;
  }

  // ---- Where a change begins ----

  /** What beginning a change does to the records. */
  ghost predicate Begins(s: State, t: State, workspace: Workspace, from: Option<Gid>, intent: Option<Gid>)
  {
    && (workspace in s.pending ==> t == s)
    && (workspace !in s.pending ==>
        && workspace in t.pending && t.pending[workspace].serial == s.begun && t.begun == s.begun + 1
        && t.pending[workspace].intent == intent && t.pending - {workspace} == s.pending
        && (from.Some? ==> t.pending[workspace].input == from)
        && (from.None? && workspace in s.workspaces ==>
            t.pending[workspace].input == Some(s.workspaces[workspace]))
        && (from.None? && workspace !in s.workspaces ==> t.pending[workspace].input == s.stateHead)
        && t.(pending := s.pending, begun := s.begun) == s)
  }

  lemma {:induction false} BeginOpens(s: State, workspace: Workspace, from: Option<Gid>, intent: Option<Gid>)
    ensures Begins(s, DoBegin(s, workspace, from, intent), workspace, from, intent)
  {
    assert workspace !in s.pending ==> DoBegin(s, workspace, from, intent).pending - {workspace} == s.pending;
  }

  /** A change begun and finished at once starts from the state asked for, else from the workspace's own, else
      from the state head; it continues the head exactly when that state is the state head. */
  lemma {:induction false} FinishedFrom(s: State, workspace: Workspace, from: Option<Gid>, intent: Option<Gid>,
        result: Gid, at: int, ids: Ids)
    requires Valid(s) && workspace !in s.pending
    ensures var begun := DoSnapshot(DoBegin(s, workspace, from, intent), workspace, result);
      var u := DoCommit(begun, workspace, result, at, ids);
      u.consumed != begun.consumed ==>
        && u.head.Some? && u.head.value in u.changes && u.consumed == s.consumed + [s.begun]
        && var c := u.changes[u.head.value];
           && c.intent == intent && c.result == result && c.at == at
           && (from.Some? ==> c.input == from)
           && (from.None? && workspace in s.workspaces ==> c.input == Some(s.workspaces[workspace]))
           && (from.None? && workspace !in s.workspaces ==> c.input == s.stateHead)
           && c.parents == if s.head.Some? && c.input == s.stateHead then [s.head.value] else []
  {
    hide DoCommit, DoBegin, Valid;
    BeginOpens(s, workspace, from, intent);
    BeginKeeps(s, workspace, from, intent);
    var record := DoBegin(s, workspace, from, intent);
    var begun := DoSnapshot(record, workspace, result);
    SnapshotIs(record, workspace, result);
    SnapshotKeeps(record, record.snapshots + multiset{(workspace, result)});
    if DoCommit(begun, workspace, result, at, ids).consumed != begun.consumed {
      CommitEffects(begun, workspace, result, at, ids);
    }
  }

  // ---- Closing ----

  /** The first in name order of the names of a version. */
  ghost predicate FirstName(names: map<Name, Gid>, g: Gid, n: Name)
  {
    n in names && names[n] == g && forall m :: m in names && names[m] == g && m != n ==> Below(n, m)
  }

  lemma {:induction false} NameOfExactly(names: map<Name, Gid>, g: Gid)
    ensures match NameOf(names, g)
      case Some(name) => FirstName(names, g, name) && forall n :: FirstName(names, g, n) ==> n == name
      case None => forall n :: n in names ==> names[n] != g
  {
    hide Below;
    var those := set n | n in names && names[n] == g;
    if those != {} {
      var least := Sorted(those)[0];
      assert forall i :: 0 < i < |Sorted(those)| ==> Below(least, Sorted(those)[i]);
      assert FirstName(names, g, least);
      forall n | FirstName(names, g, n) ensures n == least { BelowTotal(n, least); }
    } else {
      forall n | n in names ensures names[n] != g { assert n !in those; }
    }
  }

  /** The version that closes another. */
  ghost predicate ClosesWith(s: State, v: Version, target: Gid, outcome: string, at: int)
  {
    && target in s.versions && v.previous == Some(target) && v.outcome == Some(outcome) && v.at == at && v.added == []
    && v.intent == s.versions[target].intent && v.base == s.versions[target].base
  }

  /** The records after a close that went through: one more version, which the first name of the closed one now
      means, and nothing else. */
  ghost predicate CloseRecorded(s: State, t: State, target: Gid, id: Gid, v: Version)
  {
    && id.family == 0x09 && id in t.versions && t.versions[id] == v
    && (forall g :: g != id ==>
        (g in t.versions <==> g in s.versions) && (g in s.versions ==> t.versions[g] == s.versions[g]))
    && (id in s.versions ==> s.versions[id] == v)
    && (forall n :: FirstName(s.names, target, n) ==> n in t.names && t.names[n] == id)
    && (forall n :: !FirstName(s.names, target, n) ==>
        (n in t.names <==> n in s.names) && (n in s.names ==> t.names[n] == s.names[n]))
    && t.(versions := s.versions, names := s.names) == s
  }

  /** A close does nothing for an unknown version or for one whose identity other content has; otherwise it goes
      through. */
  ghost predicate CloseDone(s: State, t: State, v: Version, target: Gid, outcome: string, at: int, ids: Ids)
  {
    var id := Gid(TRAJECTORY, ids.version(v));
    && (target in s.versions ==> ClosesWith(s, v, target, outcome, at))
    && if target in s.versions && (id in s.versions ==> s.versions[id] == v) then CloseRecorded(s, t, target, id, v)
       else t == s
  }

  lemma {:induction false} Closes(s: State, target: Gid, outcome: string, at: int, ids: Ids) returns (v: Version)
    ensures CloseDone(s, DoClose(s, target, outcome, at, ids), v, target, outcome, at, ids)
  {
    hide NameOf, FirstName, CloseRecorded;
    v := if target in s.versions then ClosedVersion(s, target, outcome, at)
      else Version(None, None, None, [], None, at);
    var t, id := DoClose(s, target, outcome, at, ids), VersionId(ids, v);
    if target in s.versions && (id in s.versions ==> s.versions[id] == v) {
      CloseNames(s, WithVersion(s, id, v), t, target, id, v);
    }
  }

  lemma {:induction false} CloseNames(s: State, stored: State, t: State, target: Gid, id: Gid, v: Version)
    requires id.family == TRAJECTORY && (id in s.versions ==> s.versions[id] == v) && stored == WithVersion(s, id, v)
    requires t == match NameOf(s.names, target)
      case None => stored
      case Some(name) => stored.(names := stored.names[name := id])
    ensures CloseRecorded(s, t, target, id, v)
  {
    hide NameOf, FirstName;
    NameOfExactly(s.names, target);
    if NameOf(s.names, target) == None {
      forall n ensures !FirstName(s.names, target, n) { FirstIsName(s.names, target, n); }
    }
  }

  lemma {:induction false} FirstIsName(names: map<Name, Gid>, g: Gid, n: Name)
    ensures FirstName(names, g, n) ==> n in names && names[n] == g
  {
  }

  /** A name that only "current" shares comes first. */
  lemma {:induction false} BeforeCurrent(names: map<Name, Gid>, g: Gid, n: nat)
    requires TrajectoryName(n) in names && names[TrajectoryName(n)] == g
    requires forall m :: m in names && names[m] == g ==> m == TrajectoryName(n) || m == CURRENT
    ensures FirstName(names, g, TrajectoryName(n))
  {
    hide Digits;
    assert TrajectoryName(n)[0] < CURRENT[0];
  }

  /** Closing the open version that the latest trajectory's name means: a finish with its intent starts afresh
      after it exactly when that name is the version's first. */
  lemma {:induction false} CloseEnds(s: State, target: Gid, outcome: string, at: int, ids: Ids)
    requires OpenTrajectory(s, if target in s.versions then s.versions[target].intent else None) == Some(target)
    requires DoClose(s, target, outcome, at, ids) != s
    ensures target in s.versions
    ensures OpenTrajectory(DoClose(s, target, outcome, at, ids), s.versions[target].intent) == None
      <==> FirstName(s.names, target, TrajectoryName(s.lastTrajectory))
  {
    hide TrajectoryName, DoClose, FirstName;
    var v := Closes(s, target, outcome, at, ids);
  }

  /** The number that decimal digits stand for. */
  ghost function Decimal(digits: seq<byte>): int
  {
    if digits == [] then 0 else 10 * Decimal(digits[..|digits| - 1]) + digits[|digits| - 1] - 48
  }

  lemma {:induction false} DigitsAreDecimal(n: nat)
    ensures Decimal(Digits(n)) == n && |Digits(n)| > 0 && forall i :: 0 <= i < |Digits(n)| ==> 48 <= Digits(n)[i] <= 57
    ensures n > 0 ==> Digits(n)[0] != 48
  {
    if n < 10 {
      assert Digits(n)[..0] == [];
    } else {
      DigitsAreDecimal(n / 10);
      assert Digits(n)[..|Digits(n)| - 1] == Digits(n / 10);
    }
  }

  /** The name of the n-th trajectory is "T" and n in decimal; no two trajectories share one, and none is "current". */
  lemma {:induction false} NamesDiffer(m: nat, n: nat)
    ensures |TrajectoryName(n)| > 1 && TrajectoryName(n)[0] == 84 && Decimal(TrajectoryName(n)[1..]) == n
    ensures TrajectoryName(m) == TrajectoryName(n) ==> m == n
    ensures TrajectoryName(n) != CURRENT
  {
    hide Decimal, Digits;
    DigitsAreDecimal(m);
    DigitsAreDecimal(n);
    assert TrajectoryName(m)[1..] == Digits(m) && TrajectoryName(n)[1..] == Digits(n);
    assert CURRENT[0] != 84;
  }

  /** A name means a stored version with this previous one and this outcome. */
  ghost predicate MeansVersion(s: State, name: Name, previous: Option<Gid>, outcome: Option<string>)
  {
    name in s.names && s.names[name] in s.versions
    && s.versions[s.names[name]].previous == previous && s.versions[s.names[name]].outcome == outcome
  }

  ghost predicate LeavesTrajectories(step: Step) { !step.Commit? && !step.Close? }

  lemma {:induction false} TrajectoriesLeft(s: State, steps: seq<Step>, ids: Ids)
    requires forall step :: step in steps ==> LeavesTrajectories(step)
    ensures var t := Run(s, steps, ids);
      t.names == s.names && t.versions == s.versions && t.lastTrajectory == s.lastTrajectory
    decreases |steps|
  {
    hide DoCommit, DoClose, ChangeId;
    if steps != [] {
      assert steps[0] in steps;
      TrajectoriesLeft(Do(s, steps[0], ids), steps[1..], ids);
    }
  }

  /** After the latest trajectory was closed, whatever is begun, snapshot or reconciled in between, the next
      finish with its intent opens the next trajectory with a first version of its own, and the name of the
      closed one still means the version with the outcome. */
  lemma {:induction false} StartsAfresh(s: State, target: Gid, outcome: string, at: int, between: seq<Step>,
        workspace: Workspace, result: Gid, later: int, ids: Ids)
    requires Valid(s) && target in s.versions && OpenTrajectory(s, s.versions[target].intent) == Some(target)
    requires forall m :: m in s.names && s.names[m] == target ==> m == TrajectoryName(s.lastTrajectory) || m == CURRENT
    requires DoClose(s, target, outcome, at, ids) != s
    requires forall step :: step in between ==> LeavesTrajectories(step)
    ensures var t := Run(DoClose(s, target, outcome, at, ids), between, ids);
      var u := DoCommit(t, workspace, result, later, ids);
      workspace in t.pending && t.pending[workspace].intent == s.versions[target].intent && u.consumed != t.consumed ==>
        && u.lastTrajectory == s.lastTrajectory + 1
        && MeansVersion(u, TrajectoryName(s.lastTrajectory), Some(target), Some(outcome))
        && MeansVersion(u, TrajectoryName(u.lastTrajectory), None, None)
        && u.versions[u.names[TrajectoryName(u.lastTrajectory)]].base == t.pending[workspace].input
  {
    hide TrajectoryName, DoClose, Valid, DoCommit, LeavesTrajectories;
    var closed := DoClose(s, target, outcome, at, ids);
    var t := Run(closed, between, ids);
    var intent := s.versions[target].intent;
    BeforeCurrent(s.names, target, s.lastTrajectory);
    CloseEnds(s, target, outcome, at, ids);
    var v := Closes(s, target, outcome, at, ids);
    var name := TrajectoryName(s.lastTrajectory);
    assert name in closed.names && closed.names[name] in closed.versions
        && closed.versions[closed.names[name]] == v by {
      assert FirstName(s.names, target, name);
    }
    hide CloseDone, ClosesWith, CloseRecorded, FirstName;
    assert v.previous == Some(target) && v.outcome == Some(outcome);
    CloseKeeps(s, target, outcome, at, ids);
    RunKeeps(closed, between, ids);
    TrajectoriesLeft(closed, between, ids);
    SameOpen(closed, t, intent);
    if workspace in t.pending && t.pending[workspace].intent == intent
        && DoCommit(t, workspace, result, later, ids).consumed != t.consumed {
      CommitContinues(t, workspace, result, later, ids);
      CommitGrows(t, workspace, result, later, ids);
      NamesDiffer(s.lastTrajectory + 1, s.lastTrajectory);
    }
  }

  /** The name "current" stays with the version that was closed when a trajectory's name means it too. */
  lemma {:induction false} CurrentStays(s: State, target: Gid, outcome: string, at: int, n: nat, ids: Ids)
    requires CURRENT in s.names && s.names[CURRENT] == target
    requires TrajectoryName(n) in s.names && s.names[TrajectoryName(n)] == target
    ensures var t := DoClose(s, target, outcome, at, ids); CURRENT in t.names && t.names[CURRENT] == target
  {
    hide DoClose, Digits;
    var v := Closes(s, target, outcome, at, ids);
    assert TrajectoryName(n)[0] < CURRENT[0];
    assert Below(TrajectoryName(n), CURRENT);
    BelowTotal(TrajectoryName(n), CURRENT);
  }

  // ---- Publishing a reconciliation ----

  /** The records after a published reconciliation: one more change, from the base to the result with the adopted
      changes as its parents; the head and the default workspace follow it when it is applied. */
  ghost predicate Reconciled(s: State, t: State, id: Gid, c: Change, apply: bool)
  {
    && id in t.changes && t.changes[id] == c && (id in s.changes ==> s.changes[id] == c)
    && (forall g :: g != id ==>
        (g in t.changes <==> g in s.changes) && (g in s.changes ==> t.changes[g] == s.changes[g]))
    && (apply ==> t.head == Some(id) && t.stateHead == Some(c.result))
    && (apply ==> "default" in t.workspaces && t.workspaces["default"] == c.result)
    && (apply ==> t.workspaces - {"default"} == s.workspaces - {"default"})
    && (!apply ==> t.head == s.head && t.stateHead == s.stateHead && t.workspaces == s.workspaces)
    && t.versions == s.versions && t.names == s.names && t.lastTrajectory == s.lastTrajectory
    && t.pending == s.pending && t.snapshots == s.snapshots && t.begun == s.begun && t.consumed == s.consumed
  }

  /** A reconciliation does nothing when an adopted change is unknown or other content has its identity. */
  lemma {:induction false} Reconciles(s: State, base: Option<Gid>, intent: Option<Gid>, adopted: seq<Gid>, result: Gid,
        apply: bool, at: int, ids: Ids)
    ensures var t := DoReconcile(s, base, intent, adopted, result, apply, at, ids);
      var c := Change(intent, base, result, adopted, at);
      var id := Gid(CHANGE, ids.change(c));
      if (forall g :: g in adopted ==> g in s.changes) && (id in s.changes ==> s.changes[id] == c)
      then Reconciled(s, t, id, c, apply) else t == s
  {
    hide Reconciled;
    var t := DoReconcile(s, base, intent, adopted, result, apply, at, ids);
    var c := Change(intent, base, result, adopted, at);
    var id := ChangeId(ids, c);
    if id in s.changes ==> s.changes[id] == c {
      StoredReconciles(s, WithChange(s, id, c), id, c, apply);
    }
  }

  lemma {:induction false} StoredReconciles(s: State, s1: State, id: Gid, c: Change, apply: bool)
    requires (id in s.changes ==> s.changes[id] == c) && s1 == WithChange(s, id, c)
    ensures Reconciled(s, if apply then s1.(head := Some(id), stateHead := Some(c.result),
      workspaces := s1.workspaces[DEFAULT_WORKSPACE := c.result]) else s1, id, c, apply)
  {
  }

  // ---- Which record a snapshot ends up in ----

  /** Whether a finish of this workspace goes through in a step. */
  ghost predicate FinishedBy(s: State, step: Step, workspace: Workspace, ids: Ids)
  {
    step.Commit? && step.workspace == workspace && Do(s, step, ids).consumed != s.consumed
  }

  ghost predicate FinishedIn(s: State, steps: seq<Step>, workspace: Workspace, ids: Ids)
    decreases |steps|
  {
    steps != [] && (FinishedBy(s, steps[0], workspace, ids)
        || FinishedIn(Do(s, steps[0], ids), steps[1..], workspace, ids))
  }

  ghost predicate SameRecord(s: State, t: State, workspace: Workspace)
  {
    workspace in s.pending && workspace in t.pending && t.pending[workspace] == s.pending[workspace]
  }

  lemma {:induction false} CommitRecords(s: State, ws: Workspace, result: Gid, at: int, ids: Ids)
    ensures var t := DoCommit(s, ws, result, at, ids);
      (t.pending == s.pending && t.consumed == s.consumed)
      || (ws in s.pending && t.pending == s.pending - {ws} && t.consumed == s.consumed + [s.pending[ws].serial])
  {
    hide FinishedChange, NextVersion, OpenTrajectory, TrajectoryName, VersionId, ChangeId, Collides;
  }

  lemma {:induction false} OthersRecord(s: State, step: Step, ids: Ids)
    requires !step.Commit?
    ensures Do(s, step, ids).consumed == s.consumed
    ensures forall w :: w in s.pending ==> SameRecord(s, Do(s, step, ids), w)
  {
    hide NameOf, VersionId, ChangeId, Collides;
  }

  lemma {:induction false} StepRecords(s: State, step: Step, workspace: Workspace, ids: Ids)
    requires workspace in s.pending
    ensures s.consumed <= Do(s, step, ids).consumed
    ensures if FinishedBy(s, step, workspace, ids) then s.pending[workspace].serial in Do(s, step, ids).consumed
            else SameRecord(s, Do(s, step, ids), workspace)
  {
    if step.Commit? {
      hide DoCommit;
      CommitRecords(s, step.workspace, step.result, step.at, ids);
      assert (s.consumed + [s.pending[workspace].serial])[|s.consumed|] == s.pending[workspace].serial;
    } else {
      hide Do;
      OthersRecord(s, step, ids);
    }
  }

  lemma {:induction false} ConsumedStays(s: State, steps: seq<Step>, ids: Ids)
    ensures s.consumed <= Run(s, steps, ids).consumed
    decreases |steps|
  {
    hide Do;
    if steps != [] {
      ConsumedStep(s, steps[0], ids);
      ConsumedStays(Do(s, steps[0], ids), steps[1..], ids);
    }
  }

  lemma {:induction false} ConsumedStep(s: State, step: Step, ids: Ids)
    ensures s.consumed <= Do(s, step, ids).consumed
  {
    hide DoCommit, DoClose, DoReconcile, DoBegin, DoSnapshot;
    if step.Commit? {
      CommitRecords(s, step.workspace, step.result, step.at, ids);
    } else {
      OthersRecord(s, step, ids);
    }
  }

  /** A pending record stays the workspace's until a finish of the workspace goes through, and never comes back. */
  lemma {:induction false} RecordStays(s: State, steps: seq<Step>, workspace: Workspace, ids: Ids)
    requires Valid(s) && workspace in s.pending
    ensures SameRecord(s, Run(s, steps, ids), workspace) <==> !FinishedIn(s, steps, workspace, ids)
    ensures s.pending[workspace].serial in Run(s, steps, ids).consumed <==> FinishedIn(s, steps, workspace, ids)
    decreases |steps|
  {
    hide ChainsHold, HeadsAgree, MadeInOrder, Do;
    RunKeeps(s, steps, ids);
    if steps != [] {
      var t := Do(s, steps[0], ids);
      StepRecords(s, steps[0], workspace, ids);
      RunKeeps(s, [steps[0]], ids);
      assert [steps[0]][1..] == [];
      if FinishedBy(s, steps[0], workspace, ids) {
        ConsumedStays(t, steps[1..], ids);
      } else {
        RecordStays(t, steps[1..], workspace, ids);
      }
    }
  }

  /** A finish takes the snapshot outside the lock. When its commit goes through it consumes the record
      that was pending at the snapshot exactly when no finish of the workspace went through in between;
      otherwise it consumes a record opened later. */
  lemma {:induction false} SnapshotServes(s: State, workspace: Workspace, result: Gid, steps: seq<Step>, at: int,
        ids: Ids)
    requires Valid(s) && workspace in s.pending
    ensures var s1 := DoSnapshot(s, workspace, result);
      var t := Run(s1, steps, ids);
      var u := DoCommit(t, workspace, result, at, ids);
      u.consumed != t.consumed ==>
        (u.consumed == t.consumed + [s.pending[workspace].serial] <==> !FinishedIn(s1, steps, workspace, ids))
  {
    hide ChainsHold, HeadsAgree, MadeInOrder, Run, FinishedIn, DoCommit;
    var s1 := DoSnapshot(s, workspace, result);
    SnapshotIs(s, workspace, result);
    SnapshotKeeps(s, s.snapshots + multiset{(workspace, result)});
    var t := Run(s1, steps, ids);
    var u := DoCommit(t, workspace, result, at, ids);
    RunKeeps(s1, steps, ids);
    RecordStays(s1, steps, workspace, ids);
    if u.consumed != t.consumed {
      CommitEffects(t, workspace, result, at, ids);
      assert u.consumed[|t.consumed|] == t.pending[workspace].serial;
    }
  }

  // The two changes and versions of a run in which a snapshot is overtaken.

  function FirstChange(newer: Gid): Change { Change(None, None, newer, [], 0) }

  function FirstVersion(newer: Gid, ids: Ids): Version
  {
    Version(None, None, None, [ChangeId(ids, FirstChange(newer))], None, 0)
  }

  function SecondChange(older: Gid, newer: Gid, ids: Ids): Change
  {
    Change(None, Some(newer), older, [ChangeId(ids, FirstChange(newer))], 1)
  }

  function SecondVersion(older: Gid, newer: Gid, ids: Ids): Version
  {
    Version(Some(VersionId(ids, FirstVersion(newer, ids))), None, None,
        [ChangeId(ids, SecondChange(older, newer, ids))], None, 1)
  }

  /** A first finish has taken its snapshot. */
  ghost function RaceStart(ws: Workspace, older: Gid, ids: Ids): State
  {
    Do(Do(INITIAL, Begin(ws, None, None), ids), Snapshot(ws, older), ids)
  }

  /** A second finish of the same record goes through, and the next change begins. */
  function RaceSteps(ws: Workspace, newer: Gid): seq<Step>
  {
    [Snapshot(ws, newer), Commit(ws, newer, 0), Begin(ws, None, None)]
  }

  lemma {:induction false} FirstGoesThrough(ws: Workspace, older: Gid, newer: Gid, ids: Ids)
    requires older != newer
    ensures var before, between := RaceStart(ws, older, ids), RaceSteps(ws, newer);
      var t := Run(before, between, ids);
      && FinishedIn(before, between, ws, ids)
      && ws in t.pending && t.pending[ws] == Pending(1, Some(newer), None) && (ws, older) in t.snapshots
      && t.consumed == [0]
      && t.changes == map[ChangeId(ids, FirstChange(newer)) := FirstChange(newer)]
      && t.versions == map[VersionId(ids, FirstVersion(newer, ids)) := FirstVersion(newer, ids)]
      && FinishedChange(t, t.pending[ws], older, 1) == SecondChange(older, newer, ids)
      && OpenTrajectory(t, None) == Some(VersionId(ids, FirstVersion(newer, ids)))
  {
    hide DoCommit, ChangeId, VersionId;
    var before, between := RaceStart(ws, older, ids), RaceSteps(ws, newer);
    var s1 := Do(before, between[0], ids);
    assert s1.pending[ws] == Pending(0, None, None);
    CommitGoesThrough(s1, ws, newer, 0, FirstChange(newer), FirstVersion(newer, ids), ids);
    RunThree(before, between, ids);
    assert FinishedBy(s1, between[1], ws, ids);
    assert between[1..][0] == between[1];
    assert FinishedIn(s1, between[1..], ws, ids);
  }

  /** A snapshot that is overtaken: two finishes share one pending record, the second commit comes after
      the first and after a new begin, and so consumes the new record with the older snapshot. All it takes
      is that the two changes and the two versions of the run have different identities. */
  lemma {:induction false} Overtaken(ws: Workspace, older: Gid, newer: Gid, ids: Ids)
    requires older != newer
    requires ids.change(FirstChange(newer)) != ids.change(SecondChange(older, newer, ids))
    requires ids.version(FirstVersion(newer, ids)) != ids.version(SecondVersion(older, newer, ids))
    ensures var before, between := RaceStart(ws, older, ids), RaceSteps(ws, newer);
      var u := DoCommit(Run(before, between, ids), ws, older, 1, ids);
      FinishedIn(before, between, ws, ids) && u.consumed == [0, 1] && u.stateHead == Some(older)
  {
    hide DoCommit, Run, FinishedIn, OpenTrajectory, FinishedChange, FirstChange, SecondChange;
    FirstGoesThrough(ws, older, newer, ids);
    var t := Run(RaceStart(ws, older, ids), RaceSteps(ws, newer), ids);
    CommitGoesThrough(t, ws, older, 1, SecondChange(older, newer, ids), SecondVersion(older, newer, ids), ids);
  }

  /** There are such identities: digests that tell the two times apart are enough. */
  lemma {:induction false} OvertakenHappens(ws: Workspace, older: Gid, newer: Gid) returns (ids: Ids)
    requires older != newer
    ensures var before, between := RaceStart(ws, older, ids), RaceSteps(ws, newer);
      FinishedIn(before, between, ws, ids) && DoCommit(Run(before, between, ids), ws, older, 1, ids).consumed == [0, 1]
  {
    hide Run, DoCommit, RaceStart, FinishedIn;
    var zero, one: Digest := seq(32, _ => 0), seq(32, _ => 1);
    assert zero[0] != one[0];
    ids := Ids((c: Change) => if c.at == 0 then zero else one, (v: Version) => if v.at == 0 then zero else one);
    Overtaken(ws, older, newer, ids);
  }

  lemma {:induction false} RunThree(s: State, steps: seq<Step>, ids: Ids)
    requires |steps| == 3
    ensures Run(s, steps, ids) == Do(Do(Do(s, steps[0], ids), steps[1], ids), steps[2], ids)
  {
    hide Do;
    assert steps[1..][0] == steps[1] && steps[1..][1..] == steps[2..] && steps[2..][0] == steps[2]
        && steps[2..][1..] == [];
    var t := Do(Do(Do(s, steps[0], ids), steps[1], ids), steps[2], ids);
    assert Run(t, [], ids) == t;
    assert Run(Do(Do(s, steps[0], ids), steps[1], ids), steps[2..], ids) == t;
    assert Run(Do(s, steps[0], ids), steps[1..], ids) == t;
  }

  /** A finish with a snapshot and a pending record goes through unless its change or its version collides. */
  lemma {:induction false} CommitGoesThrough(s: State, ws: Workspace, result: Gid, at: int, change: Change,
        version: Version, ids: Ids)
    requires ws in s.pending && (ws, result) in s.snapshots
    requires change == FinishedChange(s, s.pending[ws], result, at)
    requires version == NextVersion(s, s.pending[ws], ChangeId(ids, change), at)
    requires !Collides(s.changes, ChangeId(ids, change), change)
        && !Collides(s.versions, VersionId(ids, version), version)
    ensures DoCommit(s, ws, result, at, ids)
         == Published(WithVersion(WithChange(s.(snapshots := s.snapshots - multiset{(ws, result)}),
             ChangeId(ids, change), change),
                                  VersionId(ids, version), version),
                      ws, result, ChangeId(ids, change), VersionId(ids, version),
                      OpenTrajectory(s, s.pending[ws].intent) == None, s.pending[ws].serial)
  {
    hide TrajectoryName, Collides, ChangeId, VersionId, Published;
    var taken := s.(snapshots := s.snapshots - multiset{(ws, result)});
    SameOpen(s, taken, s.pending[ws].intent);
    assert FinishedChange(taken, s.pending[ws], result, at) == change;
  }

  // ---- What no run loses ----

  ghost predicate Keeps(s: State, t: State)
  {
    && (forall g :: g in s.changes ==> g in t.changes && t.changes[g] == s.changes[g])
    && forall g :: g in s.versions ==> g in t.versions && t.versions[g] == s.versions[g]
  }

  /** No step loses or changes a stored change or version. */
  lemma {:induction false} RunGrows(s: State, steps: seq<Step>, ids: Ids)
    ensures Keeps(s, Run(s, steps, ids))
    decreases |steps|
  {
    hide Do, Keeps;
    if steps == [] {
      assert Keeps(s, s) by { KeepsItself(s); }
    } else {
      StepGrows(s, steps[0], ids);
      RunGrows(Do(s, steps[0], ids), steps[1..], ids);
      KeepsOn(s, Do(s, steps[0], ids), Run(s, steps, ids));
    }
  }

  lemma {:induction false} KeepsItself(s: State)
    ensures Keeps(s, s)
  {
  }

  lemma {:induction false} KeepsOn(s: State, t: State, u: State)
    requires Keeps(s, t) && Keeps(t, u)
    ensures Keeps(s, u)
  {
  }

  lemma {:induction false} StepGrows(s: State, step: Step, ids: Ids)
    ensures Keeps(s, Do(s, step, ids))
  {
    hide DoCommit, DoClose, DoReconcile;
    match step
    case Begin(_, _, _) =>
    case Snapshot(_, _) =>
    case Commit(ws, result, at) => CommitGrows(s, ws, result, at, ids);
    case Close(target, outcome, at) => CloseGrows(s, target, outcome, at, ids);
    case Reconcile(base, intent, adopted, result, apply, at) => ReconcileGrows(s, base, intent, adopted, result, apply,
        at, ids);
  }

  lemma {:induction false} StoringKeeps(s: State, changeId: Gid, change: Change, versionId: Gid, version: Version)
    ensures !Collides(s.changes, changeId, change) ==>
        Keeps(s, WithChange(s, changeId, change)) && WithChange(s, changeId, change).versions == s.versions
    ensures !Collides(s.versions, versionId, version) ==> Keeps(s, WithVersion(s, versionId, version))
  {
  }

  lemma {:induction false} PublishedKeeps(s: State, workspace: Workspace, result: Gid, change: Gid, version: Gid,
        isNew: bool, serial: nat)
    ensures Keeps(s, Published(s, workspace, result, change, version, isNew, serial))
  {
    hide TrajectoryName;
  }

  lemma {:induction false} CommitGrows(s0: State, workspace: Workspace, result: Gid, at: int, ids: Ids)
    ensures Keeps(s0, DoCommit(s0, workspace, result, at, ids))
  {
    hide Keeps, WithChange, WithVersion, Published, OpenTrajectory, FinishedChange, NextVersion, ChangeId, VersionId;
    KeepsItself(s0);
    var s := s0.(snapshots := s0.snapshots - multiset{(workspace, result)});
    assert Keeps(s0, s) by { SameRecords(s0, s); }
    if (workspace, result) in s0.snapshots && workspace in s.pending {
      var p := s.pending[workspace];
      var change := FinishedChange(s, p, result, at);
      var changeId := ChangeId(ids, change);
      if !Collides(s.changes, changeId, change) {
        var version := NextVersion(s, p, changeId, at);
        var versionId := VersionId(ids, version);
        StoringKeeps(s, changeId, change, versionId, version);
        var s1 := WithChange(s, changeId, change);
        KeepsOn(s0, s, s1);
        if !Collides(s.versions, versionId, version) {
          StoringKeeps(s1, changeId, change, versionId, version);
          var s2 := WithVersion(s1, versionId, version);
          PublishedKeeps(s2, workspace, result, changeId, versionId, OpenTrajectory(s, p.intent) == None, p.serial);
          KeepsOn(s0, s1, s2);
          KeepsOn(s0, s2, DoCommit(s0, workspace, result, at, ids));
        }
      }
    }
  }

  lemma {:induction false} SameRecords(s: State, t: State)
    requires t.changes == s.changes && t.versions == s.versions
    ensures Keeps(s, t)
  {
  }

  lemma {:induction false} CloseGrows(s: State, target: Gid, outcome: string, at: int, ids: Ids)
    ensures Keeps(s, DoClose(s, target, outcome, at, ids))
  {
    hide NameOf, VersionId;
  }

  lemma {:induction false} ReconcileGrows(s: State, base: Option<Gid>, intent: Option<Gid>, adopted: seq<Gid>,
        result: Gid, apply: bool, at: int, ids: Ids)
    ensures Keeps(s, DoReconcile(s, base, intent, adopted, result, apply, at, ids))
  {
    hide ChangeId;
  }

  // ---- The repository ----

  lemma {:induction false} ReachesOn(links: Links, head: Gid, g: Gid, p: Gid)
    requires Reaches(links, head, g) && g in links && p in links[g]
    ensures Reaches(links, head, p)
  {
    hide Reaches, Above;
    ReachesLink(links, head, g, p);
    AboveReaches(links, head, p);
  }

  class Repository {
    const ids: Ids
    var changes: map<Gid, Change>
    var versions: map<Gid, Version>
    var head: Option<Gid>
    var stateHead: Option<Gid>
    var names: map<Name, Gid>
    var lastTrajectory: nat
    var pending: map<Workspace, Pending>
    var workspaces: map<Workspace, Gid>
    var snapshots: multiset<(Workspace, Gid)>
    var made: seq<Gid>
    var begun: nat
    var consumed: seq<nat>

    ghost function Now(): State
      reads this
    {
      State(changes, versions, head, stateHead, names, lastTrajectory, pending, workspaces, snapshots, made, begun,
          consumed)
    }

    constructor (ids: Ids)
      ensures this.ids == ids && Now() == INITIAL
    {
      this.ids := ids;
      changes, versions, names, pending, workspaces := map[], map[], map[], map[], map[];
      head, stateHead, lastTrajectory := None, None, 0;
      snapshots, made, begun, consumed := multiset{}, [], 0, [];
    }

    method StoreChange(c: Change) returns (id: Option<Gid>)
      modifies this`changes, this`made
      ensures var g := ChangeId(ids, c);
        if Collides(old(changes), g, c) then id == None && Now() == old(Now())
          else id == Some(g) && Now() == WithChange(old(Now()), g, c)
    {
      var g := ChangeId(ids, c);
      if Collides(changes, g, c) { return None; }
      if g !in changes { made := made + [g]; }
      changes := changes[g := c];
      return Some(g);
    }

    method StoreVersion(v: Version) returns (id: Option<Gid>)
      modifies this`versions
      ensures var g := VersionId(ids, v);
        if Collides(old(versions), g, v) then id == None && Now() == old(Now())
          else id == Some(g) && Now() == WithVersion(old(Now()), g, v)
    {
      var g := VersionId(ids, v);
      if Collides(versions, g, v) { return None; }
      versions := versions[g := v];
      return Some(g);
    }

    /** Exporting valid records succeeds exactly when every change the head reaches can be described, which its
        resulting state and producer decide, and then no commit lacks the commit of a causal parent. */
    method ExportHead(git: History.Git) returns (r: Option<(seq<History.Commit>, map<Gid, History.Oid>)>)
      requires Valid(Now())
      ensures head == None ==> r == Some(([], map[]))
      ensures head.Some? ==> (r.Some? <==> forall g :: Reaches(ParentLinks(Now()), head.value, g) ==> git.text(g).Some?)
      ensures head.Some? && r.Some? ==>
        && (forall g :: g in r.value.1 <==> Reaches(ParentLinks(Now()), head.value, g))
        && History.OneCommitEach(ParentLinks(Now()), r.value.0, r.value.1, git)
      ensures r.Some? ==> var (commits, oids) := r.value;
        forall i :: 0 <= i < |commits| ==> var c := commits[i];
          c.change in changes && (forall p :: p in changes[c.change].parents ==> p in oids)
          && c.parents == History.SortOids(History.Images(oids, changes[c.change].parents))
    {
      hide Reaches, AcyclicFrom, History.SortOids, History.Images;
      HeadHistory(Now());
      var links: Links := map g | g in changes :: changes[g].parents;
      assert links == ParentLinks(Now());
      r := History.ExportHistory(links, head, git);
      if r.Some? {
        var commits, oids := r.value.0, r.value.1;
        forall i, p | 0 <= i < |commits| && commits[i].change in changes && p in changes[commits[i].change].parents
          ensures p in oids
        {
          ReachesOn(ParentLinks(Now()), head.value, commits[i].change, p);
        }
      }
    }

    method BeginChange(workspace: Workspace, from: Option<Gid>, intent: Option<Gid>) returns (ok: bool)
      modifies this
      ensures Now() == DoBegin(old(Now()), workspace, from, intent)
      ensures Begins(old(Now()), Now(), workspace, from, intent)
      ensures ok <==> workspace !in old(pending)
    {
      BeginOpens(Now(), workspace, from, intent);
      if workspace in pending { return false; }
      var input := from;
      if input == None {
        input := if workspace in workspaces then Some(workspaces[workspace]) else stateHead;
      }
      pending := pending[workspace := Pending(begun, input, intent)];
      begun := begun + 1;
      return true;
    }

    /** The part of a finish before the lock: it fails fast when nothing is pending. */
    method TakeSnapshot(workspace: Workspace, result: Gid) returns (ok: bool)
      modifies this`snapshots
      ensures Now() == DoSnapshot(old(Now()), workspace, result)
      ensures snapshots == old(snapshots) + if workspace in pending then multiset{(workspace, result)} else multiset{}
      ensures ok <==> workspace in pending
    {
      if workspace !in pending { return false; }
      snapshots := snapshots + multiset{(workspace, result)};
      return true;
    }

    /** The causal parents of a change that starts from `input`. */
    method Parents(input: Option<Gid>) returns (parents: seq<Gid>)
      ensures parents == CausalParents(Now(), input)
    {
      parents := [];
      if head.Some? && head.value in changes {
        if Some(changes[head.value].result) == input { parents := [head.value]; }
      }
    }

    /** The version to continue, with its base state, or a fresh start from the change's own input. */
    method ContinueOrStart(p: Pending) returns (previous: Option<Gid>, base: Option<Gid>, isNew: bool)
      ensures previous == OpenTrajectory(Now(), p.intent) && (isNew <==> previous == None)
      ensures forall change, at ::
          NextVersion(Now(), p, change, at) == Version(previous, p.intent, base, [change], None, at)
    {
      hide TrajectoryName;
      previous, base, isNew := None, p.input, true;
      if lastTrajectory > 0 && TrajectoryName(lastTrajectory) in names
          && names[TrajectoryName(lastTrajectory)] in versions {
        var latest := names[TrajectoryName(lastTrajectory)];
        var sameIntent, closed := versions[latest].intent == p.intent, versions[latest].outcome.Some?;
        if sameIntent && !closed { previous, base, isNew := Some(latest), versions[latest].base, false; }
      }
    }

    /** The one ref transaction of a finish. */
    method SetRefs(result: Gid, change: Gid, version: Gid, n: nat)
      modifies this`head, this`stateHead, this`names, this`lastTrajectory
      ensures head == Some(change) && stateHead == Some(result) && lastTrajectory == n
      ensures names == old(names)[TrajectoryName(n) := version][CURRENT := version]
    {
      hide TrajectoryName;
      lastTrajectory := n;
      head, stateHead := Some(change), Some(result);
      names := names[TrajectoryName(n) := version][CURRENT := version];
    }

    /** Names and refs, then the workspace's state, then the pending record is cleared. */
    method PublishFinish(workspace: Workspace, result: Gid, change: Gid, version: Gid, isNew: bool, serial: nat)
      modifies this
      ensures Now() == Published(old(Now()), workspace, result, change, version, isNew, serial)
    {
      hide TrajectoryName;
      SetRefs(result, change, version, if isNew then lastTrajectory + 1 else lastTrajectory);
      workspaces := workspaces[workspace := result];
      pending := pending - {workspace};
      consumed := consumed + [serial];
    }

    /** The part of a finish under the lock. The pending record is read again here. */
    method CommitChange(workspace: Workspace, result: Gid, at: int) returns (ok: bool)
      requires (workspace, result) in snapshots
      modifies this
      ensures Now() == DoCommit(old(Now()), workspace, result, at, ids)
      ensures if ok then workspace in old(pending) && consumed == old(consumed) + [old(pending)[workspace].serial]
        else consumed == old(consumed)
    {
      hide OpenTrajectory, NextVersion, CausalParents, ChangeId, VersionId, TrajectoryName;
      snapshots := snapshots - multiset{(workspace, result)};
      if workspace !in pending { return false; }
      var p := pending[workspace];
      var parents := Parents(p.input);
      var previous, base, isNew := ContinueOrStart(p);
      var changeId := StoreChange(Change(p.intent, p.input, result, parents, at));
      if changeId == None { return false; }
      var versionId := StoreVersion(Version(previous, p.intent, base, [changeId.value], None, at));
      if versionId == None { return false; }
      PublishFinish(workspace, result, changeId.value, versionId.value, isNew, p.serial);
      return true;
    }

    /** A new version with an outcome; the first name of the version it closes now means the new one. */
    method CloseTrajectory(target: Gid, outcome: string, at: int) returns (ok: bool)
      modifies this
      ensures Now() == DoClose(old(Now()), target, outcome, at, ids)
      ensures exists v :: CloseDone(old(Now()), Now(), v, target, outcome, at, ids)
      ensures !ok && Now() != old(Now()) ==> forall n :: n in old(names) ==> old(names)[n] != target
      ensures ok ==> target in old(versions) && exists n :: n in old(names) && old(names)[n] == target
    {
      hide VersionId, Sorted, CloseDone;
      ghost var v := Closes(Now(), target, outcome, at, ids);
      if target !in versions { return false; }
      var version := Version(Some(target), versions[target].intent, versions[target].base, [], Some(outcome), at);
      var id := StoreVersion(version);
      if id == None { return false; }
      var those := set n | n in names && names[n] == target;
      assert forall n :: n in names && names[n] == target ==> n in those;
      if those == {} { return false; }
      var name := Least(those);
      SortedFrom(those, name);
      names := names[name := id.value];
      return true;
    }

    /** Publishing a reconciliation: its change has the adopted changes as causal parents. */
    method PublishReconciliation(base: Option<Gid>, intent: Option<Gid>, adopted: seq<Gid>, result: Gid, apply: bool,
        at: int) returns (ok: bool)
      modifies this
      ensures Now() == DoReconcile(old(Now()), base, intent, adopted, result, apply, at, ids)
      ensures var c := Change(intent, base, result, adopted, at);
        if ok then Reconciled(old(Now()), Now(), Gid(CHANGE, ids.change(c)), c, apply) else Now() == old(Now())
      ensures ok ==> forall g :: g in adopted ==> g in old(changes)
    {
      hide Reconciled;
      Reconciles(Now(), base, intent, adopted, result, apply, at, ids);
      if exists g :: g in adopted && g !in changes { return false; }
      var id := StoreChange(Change(intent, base, result, adopted, at));
      if id == None { return false; }
      if apply {
        head, stateHead := id, Some(result);
        workspaces := workspaces[DEFAULT_WORKSPACE := result];
      }
      return true;
    }
  }
}
