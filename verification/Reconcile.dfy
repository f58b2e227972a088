/** Per-path first-trajectory-wins merging (src/reconcile.rs, `analyze`). */
module Reconcile {
  import opened Varint
  import opened Paths
  import opened Wrappers
  import opened Objects
  import opened States
  import opened Store
  import opened Trees
  import opened TreeLaws
  import opened TreePrograms
  import opened StateLaws

  // ---- Recorded operations ----

  /** An operation's subject path, and the two paths of a rename. */
  datatype Operation = Operation(subject: Option<Path>, renameFrom: Option<Path>, renameTo: Option<Path>)

  /** What `synthesize_operations_ts` records for a delta. */
  function Synthesize(d: FileDelta): Operation
  {
    match d.kind
    case Renamed(from) => Operation(Some(d.path), Some(from), Some(d.path))
    case _ => Operation(Some(d.path), None, None)
  }

  function SynthesizeAll(ds: seq<FileDelta>): seq<Operation>
  {
    if ds == [] then [] else [Synthesize(ds[0])] + SynthesizeAll(ds[1..])
  }

  function OpPaths(op: Operation): set<Path>
  {
    (if op.subject.Some? then {op.subject.value} else {})
    + (if op.renameFrom.Some? then {op.renameFrom.value} else {})
    + (if op.renameTo.Some? then {op.renameTo.value} else {})
  }

  function PathsOf(ops: seq<Operation>): set<Path>
  {
    if ops == [] then {} else OpPaths(ops[0]) + PathsOf(ops[1..])
  }

  /** The operations recorded for a list of deltas touch exactly the paths the deltas name. */
  lemma {:induction false} OperationsCover(ds: seq<FileDelta>, p: Path)
    ensures p in PathsOf(SynthesizeAll(ds)) <==> Names(ds, p) > 0
  {
    if ds != [] {
      OperationsCover(ds[1..], p);
      assert SynthesizeAll(ds)[1..] == SynthesizeAll(ds[1..]);
    }
  }

  ghost predicate OpTouches(op: Operation, p: Path)
  {
    op.subject == Some(p) || op.renameFrom == Some(p) || op.renameTo == Some(p)
  }

  /** The paths of a list of operations are the subjects and both paths of every rename. */
  lemma {:induction false} PathsTouched(ops: seq<Operation>, p: Path)
    ensures p in PathsOf(ops) <==> exists op :: op in ops && OpTouches(op, p)
  {
    if ops != [] {
      PathsTouched(ops[1..], p);
      assert ops[0] in ops && forall op :: op in ops <==> op == ops[0] || op in ops[1..];
    }
  }

  // ---- Changes and occurrences ----

  /** A change: its operations and, when it records them, its input and output states. */
  datatype Change = Change(ops: seq<Operation>, input: Option<Files>, output: Option<Files>)

  ghost predicate Touches(c: Change, p: Path) { exists op :: op in c.ops && OpTouches(op, p) }

  /** A change as it stands in an input trajectory. */
  datatype Occurrence = Occurrence(ti: nat, change: Change)

  function Touched(o: Occurrence): set<Path> { PathsOf(o.change.ops) }

  /** The paths a change touches. */
  method ChangePaths(change: Change) returns (paths: set<Path>)
    ensures paths == PathsOf(change.ops) && forall p :: p in paths <==> Touches(change, p)
  {
    forall p ensures p in PathsOf(change.ops) <==> Touches(change, p) { PathsTouched(change.ops, p); }
    paths := {};
    assert change.ops[0..] == change.ops;
    for i := 0 to |change.ops|
      invariant paths + PathsOf(change.ops[i..]) == PathsOf(change.ops)
    {
      assert change.ops[i..][1..] == change.ops[i + 1..];
      paths := paths + OpPaths(change.ops[i]);
    }
    assert change.ops[|change.ops|..] == [];
  }

  /** All changes of all inputs, trajectory by trajectory. */
  function OccurrencesFrom(sequences: seq<seq<Change>>, ti: nat): seq<Occurrence>
    requires ti <= |sequences|
    decreases |sequences| - ti
  {
    if ti == |sequences| then []
    else seq(|sequences[ti]|, i requires 0 <= i < |sequences[ti]| => Occurrence(ti, sequences[ti][i]))
         + OccurrencesFrom(sequences, ti + 1)
  }

  function Occurrences(sequences: seq<seq<Change>>): seq<Occurrence> { OccurrencesFrom(sequences, 0) }

  ghost predicate InInputOrder(occs: seq<Occurrence>)
  {
    forall i, j :: 0 <= i < j < |occs| ==> occs[i].ti <= occs[j].ti
  }

  lemma {:induction false} OccurrencesOrdered(sequences: seq<seq<Change>>, ti: nat)
    requires ti <= |sequences|
    ensures InInputOrder(OccurrencesFrom(sequences, ti))
    ensures forall o :: o in OccurrencesFrom(sequences, ti) ==> ti <= o.ti < |sequences|
    decreases |sequences| - ti
  {
    if ti < |sequences| { OccurrencesOrdered(sequences, ti + 1); }
  }

  // ---- Ownership and adoption ----

  /** `o` touches a path that an earlier input trajectory touches too. */
  ghost predicate Disputed(o: Occurrence, occs: seq<Occurrence>)
  {
    exists e, p :: e in occs && e.ti < o.ti && p in Touched(e) && p in Touched(o)
  }

  function Adopted(occs: seq<Occurrence>, owner: map<Path, nat>): seq<Occurrence>
  {
    if occs == [] then []
    else (if Owns(occs[0], owner) then [occs[0]] else []) + Adopted(occs[1..], owner)
  }

  function Rejected(occs: seq<Occurrence>, owner: map<Path, nat>): seq<Occurrence>
  {
    if occs == [] then []
    else (if Owns(occs[0], owner) then [] else [occs[0]]) + Rejected(occs[1..], owner)
  }

  /** No touched path is owned by another trajectory. */
  predicate Owns(o: Occurrence, owner: map<Path, nat>)
  {
    forall p :: p in Touched(o) ==> (if p in owner then owner[p] else o.ti) == o.ti
  }

  /** `owner[p]` is the first trajectory that touches `p`. */
  ghost predicate OwnedBy(owner: map<Path, nat>, occs: seq<Occurrence>)
  {
    && (forall p :: p in owner ==> TouchedBy(occs, owner[p], p))
    && (forall o :: o in occs ==> OwnedUpTo(owner, o))
  }

  /** All paths of `o` are owned, by its trajectory or an earlier one. */
  ghost predicate OwnedUpTo(owner: map<Path, nat>, o: Occurrence)
  {
    forall p :: p in Touched(o) ==> p in owner && owner[p] <= o.ti
  }

  ghost predicate TouchedBy(occs: seq<Occurrence>, ti: nat, p: Path)
  {
    exists o :: o in occs && p in Touched(o) && o.ti == ti
  }

  /** The paths of one change recorded under its trajectory, unless already owned. */
  method Claim(owner: map<Path, nat>, paths: set<Path>, ti: nat) returns (owner': map<Path, nat>)
    ensures owner'.Keys == owner.Keys + paths
    ensures forall p :: p in owner' ==> owner'[p] == if p in owner then owner[p] else ti
  {
    owner' := owner;
    var rest := paths;
    while rest != {}
      invariant rest <= paths && owner'.Keys == owner.Keys + (paths - rest)
      invariant forall p :: p in owner' ==> owner'[p] == if p in owner then owner[p] else ti
      decreases rest
    {
      var p :| p in rest;
      if p !in owner' { owner' := owner'[p := ti]; }
      rest := rest - {p};
    }
  }

  method Owners(occs: seq<Occurrence>) returns (owner: map<Path, nat>)
    requires InInputOrder(occs)
    ensures OwnedBy(owner, occs)
  {
    owner := map[];
    for i := 0 to |occs|
      invariant OwnedBy(owner, occs[..i])
    {
      var paths := ChangePaths(occs[i].change);
      ghost var before := owner;
      owner := Claim(owner, paths, occs[i].ti);
      ClaimKeeps(before, owner, occs, i);
    }
    assert occs[..|occs|] == occs;
  }

  lemma {:induction false} ClaimKeeps(owner: map<Path, nat>, owner': map<Path, nat>, occs: seq<Occurrence>, i: nat)
    requires InInputOrder(occs) && i < |occs| && OwnedBy(owner, occs[..i])
    requires owner'.Keys == owner.Keys + Touched(occs[i])
    requires forall p :: p in owner' ==> owner'[p] == if p in owner then owner[p] else occs[i].ti
    ensures OwnedBy(owner', occs[..i + 1])
  {
    hide Touched, TouchedBy, OwnedUpTo;
    var o := occs[i];
    var done, next := occs[..i], occs[..i + 1];
    forall p | p in owner' ensures TouchedBy(next, owner'[p], p) { OwnerTouches(owner, owner', occs, i, p); }
    forall e | e in next ensures OwnedUpTo(owner', e) {
      if e in done {
        assert OwnedUpTo(owner, e);
        StillUpTo(owner, owner', e);
      } else {
        assert e == o;
        NowUpTo(owner, owner', occs, i);
      }
    }
  }

  lemma {:induction false} OwnerTouches(owner: map<Path, nat>, owner': map<Path, nat>, occs: seq<Occurrence>, i: nat,
        p: Path)
    requires i < |occs| && (p in owner ==> TouchedBy(occs[..i], owner[p], p)) && p in owner'
    requires owner'.Keys == owner.Keys + Touched(occs[i]) && owner'[p] == if p in owner then owner[p] else occs[i].ti
    ensures TouchedBy(occs[..i + 1], owner'[p], p)
  {
    hide Touched;
    if p in owner {
      StillTouched(occs[..i], occs[..i + 1], owner[p], p);
    } else {
      assert occs[..i + 1][i] == occs[i];
    }
  }

  lemma {:induction false} StillUpTo(owner: map<Path, nat>, owner': map<Path, nat>, e: Occurrence)
    requires OwnedUpTo(owner, e) && forall p :: p in owner ==> p in owner' && owner'[p] == owner[p]
    ensures OwnedUpTo(owner', e)
  {
    hide Touched;
  }

  lemma {:induction false} NowUpTo(owner: map<Path, nat>, owner': map<Path, nat>, occs: seq<Occurrence>, i: nat)
    requires InInputOrder(occs) && i < |occs| && forall p :: p in owner ==> TouchedBy(occs[..i], owner[p], p)
    requires owner'.Keys == owner.Keys + Touched(occs[i])
    requires forall p :: p in owner' ==> owner'[p] == if p in owner then owner[p] else occs[i].ti
    ensures OwnedUpTo(owner', occs[i])
  {
    hide Touched, TouchedBy;
    forall p | p in Touched(occs[i]) ensures p in owner' && owner'[p] <= occs[i].ti {
      if p in owner { TouchedBefore(occs, i, owner[p], p); }
    }
  }

  lemma {:induction false} StillTouched(done: seq<Occurrence>, next: seq<Occurrence>, ti: nat, p: Path)
    requires TouchedBy(done, ti, p) && forall e :: e in done ==> e in next
    ensures TouchedBy(next, ti, p)
  {
  }

  lemma {:induction false} TouchedBefore(occs: seq<Occurrence>, i: nat, ti: nat, p: Path)
    requires InInputOrder(occs) && i < |occs| && TouchedBy(occs[..i], ti, p)
    ensures ti <= occs[i].ti
  {
    var f :| f in occs[..i] && p in Touched(f) && f.ti == ti;
    var k :| 0 <= k < i && occs[k] == f;
  }

  /** The occurrences that dispute no path, in order, and those that do. */
  ghost function Undisputed(occs: seq<Occurrence>, all: seq<Occurrence>): seq<Occurrence>
  {
    if occs == [] then []
    else (if Disputed(occs[0], all) then [] else [occs[0]]) + Undisputed(occs[1..], all)
  }

  ghost function DisputedOnes(occs: seq<Occurrence>, all: seq<Occurrence>): seq<Occurrence>
  {
    if occs == [] then []
    else (if Disputed(occs[0], all) then [occs[0]] else []) + DisputedOnes(occs[1..], all)
  }

  lemma {:induction false} OwnsUndisputed(o: Occurrence, all: seq<Occurrence>, owner: map<Path, nat>)
    requires OwnedBy(owner, all) && o in all
    ensures Owns(o, owner) <==> !Disputed(o, all)
  {
    hide Touched;
    assert OwnedUpTo(owner, o);
    if Disputed(o, all) {
      var e, p :| e in all && e.ti < o.ti && p in Touched(e) && p in Touched(o);
      assert OwnedUpTo(owner, e);
    } else {
      forall p | p in Touched(o) ensures owner[p] == o.ti { assert TouchedBy(all, owner[p], p); }
    }
  }

  /** A change occurrence is rejected exactly when it touches a path an earlier trajectory touches. */
  lemma {:induction false} AdoptionRule(occs: seq<Occurrence>, all: seq<Occurrence>, owner: map<Path, nat>)
    requires OwnedBy(owner, all) && forall o :: o in occs ==> o in all
    ensures Adopted(occs, owner) == Undisputed(occs, all) && Rejected(occs, owner) == DisputedOnes(occs, all)
  {
    hide OwnedBy, Owns, Disputed;
    if occs != [] {
      OwnsUndisputed(occs[0], all, owner);
      AdoptionRule(occs[1..], all, owner);
    }
  }

  lemma {:induction false} UndisputedIn(occs: seq<Occurrence>, all: seq<Occurrence>, o: Occurrence)
    ensures o in Undisputed(occs, all) <==> o in occs && !Disputed(o, all)
  {
    if occs != [] { UndisputedIn(occs[1..], all, o); }
  }

  /** Adopted changes of different trajectories touch disjoint paths. */
  lemma {:induction false} AdoptedDisjoint(occs: seq<Occurrence>)
    ensures DisjointTrajectories(Undisputed(occs, occs))
  {
    forall o, e | o in Undisputed(occs, occs) && e in Undisputed(occs, occs) && o.ti != e.ti
      ensures Touched(o) !! Touched(e)
    {
      UndisputedIn(occs, occs, o);
      UndisputedIn(occs, occs, e);
    }
  }

  lemma {:induction false} NoneDisputed(o: Occurrence, owner: map<Path, nat>, paths: set<Path>, disputed: set<Path>)
    requires paths == Touched(o)
    requires disputed == set p | p in paths && (if p in owner then owner[p] else o.ti) != o.ti
    ensures disputed == {} <==> Owns(o, owner)
  {
    hide Touched;
    if disputed == {} {
      forall p | p in Touched(o) ensures (if p in owner then owner[p] else o.ti) == o.ti { assert p !in disputed; }
    }
  }

  lemma {:induction false} NextAdopted(occs: seq<Occurrence>, owner: map<Path, nat>, i: nat, adopted: seq<Occurrence>,
        rejected: seq<Occurrence>)
    requires i < |occs|
    ensures adopted + Adopted(occs[i..], owner)
        == (if Owns(occs[i], owner) then adopted + [occs[i]] else adopted) + Adopted(occs[i + 1..], owner)
    ensures rejected + Rejected(occs[i..], owner)
        == (if Owns(occs[i], owner) then rejected else rejected + [occs[i]]) + Rejected(occs[i + 1..], owner)
  {
    hide Owns;
    assert occs[i..][0] == occs[i] && occs[i..][1..] == occs[i + 1..];
  }

  lemma {:induction false} AdoptedEnds(occs: seq<Occurrence>, owner: map<Path, nat>, adopted: seq<Occurrence>,
        rejected: seq<Occurrence>)
    ensures occs[0..] == occs
    ensures [] + Adopted(occs, owner) == Adopted(occs, owner) && [] + Rejected(occs, owner) == Rejected(occs, owner)
    ensures adopted + Adopted(occs[|occs|..], owner) == adopted
        && rejected + Rejected(occs[|occs|..], owner) == rejected
  {
  }

  method Adopt(occs: seq<Occurrence>, owner: map<Path, nat>)
    returns (adopted: seq<Occurrence>, rejected: seq<Occurrence>)
    ensures adopted == Adopted(occs, owner) && rejected == Rejected(occs, owner)
  {
    hide Owns, Adopted, Rejected;
    adopted, rejected := [], [];
    AdoptedEnds(occs, owner, [], []);
    for i := 0 to |occs|
      invariant adopted + Adopted(occs[i..], owner) == Adopted(occs, owner)
      invariant rejected + Rejected(occs[i..], owner) == Rejected(occs, owner)
    {
      var o := occs[i];
      NextAdopted(occs, owner, i, adopted, rejected);
      var paths := ChangePaths(o.change);
      var disputed := set p | p in paths && (if p in owner then owner[p] else o.ti) != o.ti;
      NoneDisputed(o, owner, paths, disputed);
      if disputed == {} {
        adopted := adopted + [o];
      } else {
        rejected := rejected + [o];
      }
    }
    AdoptedEnds(occs, owner, adopted, rejected);
  }

  // ---- The merged file map ----

  /** What a change contributes: its output state laid over the map wherever it differs from its
      input state.  A change without both states contributes nothing. */
  function MergeChange(m: Files, c: Change): Files
  {
    if c.input.Some? && c.output.Some? then Overlay(m, c.input.value, c.output.value) else m
  }

  function Merge(m: Files, occs: seq<Occurrence>): Files
    decreases |occs|
  {
    if occs == [] then m else Merge(MergeChange(m, occs[0].change), occs[1..])
  }

  /** Folds the deltas of every adopted change over the base. */
  method MergeAll(base: Files, adopted: seq<Occurrence>) returns (merged: Files)
    ensures merged == Merge(base, adopted)
  {
    merged := base;
    assert adopted[0..] == adopted;
    for i := 0 to |adopted|
      invariant Merge(merged, adopted[i..]) == Merge(base, adopted)
    {
      var c := adopted[i].change;
      assert adopted[i..][0] == adopted[i] && adopted[i..][1..] == adopted[i + 1..];
      if c.input.Some? && c.output.Some? {
        var deltas := DiffStates(c.input.value, c.output.value);
        DescribedOverlay(merged, deltas, c.input.value, c.output.value);
        merged := FoldDeltas(merged, deltas, c.output.value);
      }
    }
  }

  method FoldDeltas(m: Files, deltas: seq<FileDelta>, out: Files) returns (m': Files)
    ensures m' == ApplyAll(m, deltas, out)
  {
    m' := m;
    assert deltas[0..] == deltas;
    for i := 0 to |deltas|
      invariant ApplyAll(m', deltas[i..], out) == ApplyAll(m, deltas, out)
    {
      assert deltas[i..][0] == deltas[i] && deltas[i..][1..] == deltas[i + 1..];
      m' := ApplyDelta(m', deltas[i], out);
    }
  }

  ghost predicate DeltaTouches(o: Occurrence, p: Path)
  {
    o.change.input.Some? && o.change.output.Some? && p in Differing(o.change.input.value, o.change.output.value)
  }

  /** The last occurrence whose delta touches a path. */
  ghost function LastTouching(occs: seq<Occurrence>, p: Path): Option<Occurrence>
    decreases |occs|
  {
    if occs == [] then None
    else match LastTouching(occs[1..], p)
      case Some(o) => Some(o)
      case None => if DeltaTouches(occs[0], p) then Some(occs[0]) else None
  }

  /** `merged[p]` is the output-state entry of the last change whose delta touches `p`, else `base[p]`. */
  lemma {:induction false} MergedAt(base: Files, occs: seq<Occurrence>, p: Path)
    ensures match LastTouching(occs, p)
      case None => Get(Merge(base, occs), p) == Get(base, p)
      case Some(o) => o in occs && DeltaTouches(o, p) && Get(Merge(base, occs), p) == Get(o.change.output.value, p)
    decreases |occs|
  {
    if occs != [] {
      var c := occs[0].change;
      MergedAt(MergeChange(base, c), occs[1..], p);
      if c.input.Some? && c.output.Some? { }
    }
  }

  // ---- Interleavings ----

  /** The occurrences of one trajectory, in order. */
  function OfTrajectory(occs: seq<Occurrence>, ti: nat): seq<Occurrence>
  {
    if occs == [] then [] else (if occs[0].ti == ti then [occs[0]] else []) + OfTrajectory(occs[1..], ti)
  }

  lemma {:induction false} OfTrajectoryIn(occs: seq<Occurrence>, ti: nat, o: Occurrence)
    ensures o in OfTrajectory(occs, ti) <==> o in occs && o.ti == ti
  {
    if occs != [] { OfTrajectoryIn(occs[1..], ti, o); }
  }

  /** A path that only one trajectory's deltas touch depends on that trajectory alone. */
  lemma {:induction false} OnlyItsTrajectory(occs: seq<Occurrence>, ti: nat, p: Path)
    requires forall o :: o in occs && DeltaTouches(o, p) ==> o.ti == ti
    ensures LastTouching(occs, p) == LastTouching(OfTrajectory(occs, ti), p)
    decreases |occs|
  {
    if occs != [] {
      OnlyItsTrajectory(occs[1..], ti, p);
      assert occs[0] in occs;
      var rest := OfTrajectory(occs[1..], ti);
      if occs[0].ti == ti {
        assert OfTrajectory(occs, ti)[1..] == rest;
      } else {
        assert OfTrajectory(occs, ti) == rest;
      }
    }
  }

  /** The recorded operations cover every path the deltas touch. */
  ghost predicate Covered(occs: seq<Occurrence>)
  {
    forall o, p :: o in occs && DeltaTouches(o, p) ==> p in Touched(o)
  }

  ghost predicate DisjointTrajectories(occs: seq<Occurrence>)
  {
    forall o, e :: o in occs && e in occs && o.ti != e.ti ==> Touched(o) !! Touched(e)
  }

  /** When the recorded operations cover the deltas, every interleaving of the adopted changes that
      keeps each trajectory's own order gives the same merged map. */
  lemma {:induction false} InterleavingsAgree(base: Files, occs: seq<Occurrence>, other: seq<Occurrence>)
    requires Covered(occs) && DisjointTrajectories(occs)
    requires forall ti: nat :: OfTrajectory(other, ti) == OfTrajectory(occs, ti)
    ensures Merge(base, other) == Merge(base, occs)
  {
    forall p ensures Get(Merge(base, other), p) == Get(Merge(base, occs), p) {
      SameAt(base, occs, other, p);
    }
    SameFiles(Merge(base, other), Merge(base, occs));
  }

  lemma {:induction false} SameAt(base: Files, occs: seq<Occurrence>, other: seq<Occurrence>, p: Path)
    requires Covered(occs) && DisjointTrajectories(occs)
    requires forall ti: nat :: OfTrajectory(other, ti) == OfTrajectory(occs, ti)
    ensures Get(Merge(base, other), p) == Get(Merge(base, occs), p)
  {
    forall o ensures o in other <==> o in occs {
      OfTrajectoryIn(other, o.ti, o);
      OfTrajectoryIn(occs, o.ti, o);
    }
    var ti := if exists o :: o in occs && DeltaTouches(o, p) then (var o :| o in occs && DeltaTouches(o, p); o.ti)
      else 0;
    assert forall o :: o in occs && DeltaTouches(o, p) ==> o.ti == ti;
    OnlyItsTrajectory(occs, ti, p);
    OnlyItsTrajectory(other, ti, p);
    MergedAt(base, occs, p);
    MergedAt(base, other, p);
  }

  /** Changes whose operations were synthesized from their own delta are covered. */
  lemma {:induction false} SynthesizedCovered(occs: seq<Occurrence>)
    requires forall o :: o in occs && o.change.input.Some? && o.change.output.Some? ==>
      exists ds :: Describes(ds, o.change.input.value, o.change.output.value) && o.change.ops == SynthesizeAll(ds)
    ensures Covered(occs)
  {
    forall o, p | o in occs && DeltaTouches(o, p) ensures p in Touched(o) {
      var a, b := o.change.input.value, o.change.output.value;
      var ds :| Describes(ds, a, b) && o.change.ops == SynthesizeAll(ds);
      assert Names(ds, p) == 1;
      OperationsCover(ds, p);
    }
  }

  // ---- When the merge has a state ----

  /** The merge holds a path: in the output of the last change whose delta touches it, else in the base. */
  ghost predicate Stands(base: Files, occs: seq<Occurrence>, p: Path)
  {
    match LastTouching(occs, p)
    case None => p in base
    case Some(o) => o.change.output.Some? && p in o.change.output.value
  }

  /** A file and one inside it, each held by the merge, that different changes (or a change and the base) put there. */
  ghost predicate Clash(base: Files, occs: seq<Occurrence>, p: Path, q: Path)
  {
    p + [SLASH] <= q && Stands(base, occs, p) && Stands(base, occs, q) && LastTouching(occs, p) != LastTouching(occs, q)
  }

  ghost predicate NoClash(base: Files, occs: seq<Occurrence>)
  {
    forall p, q :: !Clash(base, occs, p, q)
  }

  /** The states a change was recorded between are well formed, as every state that can be read is. */
  ghost predicate ChangeReads(c: Change)
  {
    (c.input.Some? ==> WellFormed(c.input.value)) && (c.output.Some? ==> WellFormed(c.output.value))
  }

  ghost predicate AllRead(occs: seq<Occurrence>) { forall o :: o in occs ==> ChangeReads(o.change) }

  lemma {:induction false} StandsExactly(base: Files, occs: seq<Occurrence>, p: Path)
    ensures p in Merge(base, occs) <==> Stands(base, occs, p)
  {
    hide LastTouching, Merge, DeltaTouches;
    MergedAt(base, occs, p);
  }

  /** Within the base, or within one output state, no file is inside another. */
  lemma {:induction false} AcrossOrigins(base: Files, occs: seq<Occurrence>, p: Path, q: Path)
    requires WellFormed(base) && AllRead(occs) && p + [SLASH] <= q
    requires Stands(base, occs, p) && Stands(base, occs, q)
    ensures LastTouching(occs, p) != LastTouching(occs, q)
  {
    hide LastTouching, Merge, DeltaTouches, CanonicalPaths, RegularFiles;
    MergedAt(base, occs, p);
    MergedAt(base, occs, q);
  }

  /** The merge has a file inside a file exactly when two different origins clash. */
  lemma {:induction false} MergeClashes(base: Files, occs: seq<Occurrence>)
    requires WellFormed(base) && AllRead(occs)
    ensures NoFileInsideFile(Merge(base, occs)) <==> NoClash(base, occs)
  {
    hide WellFormed, AllRead, Merge, Stands, LastTouching;
    forall p, q ensures Clash(base, occs, p, q)
        <==> p in Merge(base, occs) && q in Merge(base, occs) && p + [SLASH] <= q {
      StandsExactly(base, occs, p);
      StandsExactly(base, occs, q);
      if p + [SLASH] <= q && Stands(base, occs, p) && Stands(base, occs, q) { AcrossOrigins(base, occs, p, q); }
    }
  }

  /** Whatever is merged is canonical paths to regular files. */
  lemma {:induction false} MergeCanonical(base: Files, occs: seq<Occurrence>)
    requires WellFormed(base) && AllRead(occs)
    ensures CanonicalPaths(Merge(base, occs)) && RegularFiles(Merge(base, occs))
  {
    hide LastTouching, Merge, DeltaTouches, IsCanonicalPath, ValidUtf8, IsFileEntry, NoFileInsideFile;
    var merged := Merge(base, occs);
    forall p | p in merged ensures ValidUtf8(p) && IsCanonicalPath(p) && IsFileEntry(merged[p]) {
      MergedAt(base, occs, p);
      assert Get(merged, p) == Some(merged[p]);
    }
  }

  /** The merge of well-formed states has a state exactly when no two origins clash and everything is within
      the limits. */
  lemma {:induction false} MergeBuilds(base: Files, occs: seq<Occurrence>, w: World)
    requires WellFormed(base) && AllRead(occs) && w.table(TREE) == TREE_SCHEMA && w.table(STATE) == STATE_SCHEMA
    ensures Buildable(Merge(base, occs))
    ensures PlanState(Merge(base, occs), w).Ok?
      <==> NoClash(base, occs) && AllFit(Merge(base, occs), [], w.limits) && StateFits(w.limits)
  {
    hide WellFormed, AllRead, Merge, AllFit, PlanState, StateFits, NoClash;
    MergeCanonical(base, occs);
    MergeClashes(base, occs);
    StateBuildsExactly(Merge(base, occs), w);
  }

  lemma {:induction false} MergeBuildable(base: Files, occs: seq<Occurrence>)
    requires WellFormed(base) && AllRead(occs)
    ensures Buildable(Merge(base, occs))
  {
    hide WellFormed, AllRead, Merge, ValidUtf8, Split;
    MergeCanonical(base, occs);
  }

  // ---- The analysis ----

  /** A state by its identity, with its files. */
  datatype StateRef = StateRef(id: Gid, files: Files)

  datatype Trajectory = Trajectory(base: Option<StateRef>, changes: seq<Change>)

  datatype AnalyzeError = TooFewInputs | BaseMismatch | NoState(e: BuildError)

  datatype Plan = Plan(base: Option<StateRef>, adopted: seq<Occurrence>, rejected: seq<Occurrence>, merged: Files,
      result: Gid)

  /** The files of the shared base. */
  function BaseFiles(inputs: seq<Trajectory>): Files
    requires inputs != []
  {
    var base := inputs[|inputs| - 1].base;
    if base.Some? then base.value.files else map[]
  }

  ghost function AllOccurrences(inputs: seq<Trajectory>): seq<Occurrence> { Occurrences(Sequences(inputs)) }

  /** The changes of each input. */
  ghost function Sequences(inputs: seq<Trajectory>): (s: seq<seq<Change>>)
    ensures |s| == |inputs|
  {
    seq(|inputs|, i requires 0 <= i < |inputs| => inputs[i].changes)
  }

  /** What the adopted changes merge to. */
  ghost function Merged(inputs: seq<Trajectory>): Files
    requires inputs != []
  {
    var occs := AllOccurrences(inputs);
    Merge(BaseFiles(inputs), Undisputed(occs, occs))
  }

  // ---- The plan, over positions and paths ----

  /** Where a change stands: its trajectory, and its place there. */
  ghost predicate IsAt(inputs: seq<Trajectory>, at: (nat, nat), o: Occurrence)
  {
    at.0 < |inputs| && at.1 < |inputs[at.0].changes| && o == Occurrence(at.0, inputs[at.0].changes[at.1])
  }

  ghost predicate Before(at: (nat, nat), other: (nat, nat))
  {
    at.0 < other.0 || (at.0 == other.0 && at.1 < other.1)
  }

  ghost predicate Ascend(ats: seq<(nat, nat)>)
  {
    forall j, k :: 0 <= j < k < |ats| ==> Before(ats[j], ats[k])
  }

  ghost predicate Aligned(inputs: seq<Trajectory>, occs: seq<Occurrence>, ats: seq<(nat, nat)>)
  {
    |occs| == |ats| && forall k :: 0 <= k < |ats| ==> IsAt(inputs, ats[k], occs[k])
  }

  /** The change at a place touches a path that a change of an earlier input touches. */
  ghost predicate Contested(inputs: seq<Trajectory>, at: (nat, nat))
  {
    at.0 < |inputs| && at.1 < |inputs[at.0].changes|
    && exists e, c, p :: 0 <= e < at.0 && c in inputs[e].changes && Touches(c, p)
        && Touches(inputs[at.0].changes[at.1], p)
  }

  /** The places hold, in input order and each once, the changes that are contested or those that are not. */
  ghost predicate ListedAt(inputs: seq<Trajectory>, occs: seq<Occurrence>, ats: seq<(nat, nat)>, contested: bool)
  {
    && Aligned(inputs, occs, ats) && Ascend(ats)
    && forall ti: nat, i: nat :: (ti, i) in ats
        <==> ti < |inputs| && i < |inputs[ti].changes| && Contested(inputs, (ti, i)) == contested
  }

  ghost predicate Listed(inputs: seq<Trajectory>, occs: seq<Occurrence>, contested: bool)
  {
    exists ats :: ListedAt(inputs, occs, ats, contested)
  }

  ghost function PlacesFrom(inputs: seq<Trajectory>, ti: nat): seq<(nat, nat)>
    requires ti <= |inputs|
    decreases |inputs| - ti
  {
    if ti == |inputs| then [] else Row(inputs, ti) + PlacesFrom(inputs, ti + 1)
  }

  /** Lists of places in which all of one come before all of the other. */
  lemma {:induction false} Concatenated(inputs: seq<Trajectory>, occs: seq<Occurrence>, ats: seq<(nat, nat)>,
        more: seq<Occurrence>, later: seq<(nat, nat)>)
    requires Aligned(inputs, occs, ats) && Aligned(inputs, more, later) && Ascend(ats) && Ascend(later)
    requires forall at, other :: at in ats && other in later ==> Before(at, other)
    ensures Aligned(inputs, occs + more, ats + later) && Ascend(ats + later)
  {
    hide IsAt, Before;
    var all := ats + later;
    forall j, k | 0 <= j < k < |all| ensures Before(all[j], all[k]) {
      if j < |ats| && k >= |ats| { assert all[j] in ats && all[k] in later; }
    }
  }

  ghost function Row(inputs: seq<Trajectory>, ti: nat): seq<(nat, nat)>
    requires ti < |inputs|
  {
    seq(|inputs[ti].changes|, i requires 0 <= i < |inputs[ti].changes| => (ti, i))
  }

  lemma {:induction false} RowAligns(inputs: seq<Trajectory>, ti: nat)
    requires ti < |inputs|
    ensures Aligned(inputs, seq(|inputs[ti].changes|, i requires 0 <= i < |inputs[ti].changes| =>
      Occurrence(ti, inputs[ti].changes[i])), Row(inputs, ti))
    ensures Ascend(Row(inputs, ti))
    ensures forall e: nat, i: nat :: (e, i) in Row(inputs, ti) <==> e == ti && i < |inputs[ti].changes|
  {
    forall i: nat | i < |inputs[ti].changes| ensures (ti, i) in Row(inputs, ti) {
      assert Row(inputs, ti)[i] == (ti, i);
    }
  }

  ghost predicate Places(inputs: seq<Trajectory>, ti: nat, ats: seq<(nat, nat)>)
  {
    forall e: nat, i: nat :: (e, i) in ats <==> ti <= e < |inputs| && i < |inputs[e].changes|
  }

  lemma {:induction false} PlacesAlign(inputs: seq<Trajectory>, ti: nat)
    requires ti <= |inputs|
    ensures Aligned(inputs, OccurrencesFrom(Sequences(inputs), ti), PlacesFrom(inputs, ti))
    ensures Ascend(PlacesFrom(inputs, ti)) && Places(inputs, ti, PlacesFrom(inputs, ti))
    decreases |inputs| - ti
  {
    hide Aligned, Ascend, Row;
    if ti < |inputs| {
      PlacesAlign(inputs, ti + 1);
      RowAligns(inputs, ti);
      var row, rest := Row(inputs, ti), PlacesFrom(inputs, ti + 1);
      var occs, more := OccurrencesFrom(Sequences(inputs), ti), OccurrencesFrom(Sequences(inputs), ti + 1);
      var mine := seq(|inputs[ti].changes|, i requires 0 <= i < |inputs[ti].changes| =>
        Occurrence(ti, inputs[ti].changes[i]));
      assert occs == mine + more;
      Concatenated(inputs, mine, row, more, rest);
    } else {
      NoPlaces(inputs);
    }
  }

  lemma {:induction false} NoPlaces(inputs: seq<Trajectory>)
    ensures Aligned(inputs, [], []) && Ascend([])
  {
  }

  /** The places of the disputed, or of the undisputed, occurrences. */
  ghost function Picked(occs: seq<Occurrence>, ats: seq<(nat, nat)>, all: seq<Occurrence>,
        disputed: bool): seq<(nat, nat)>
    requires |occs| == |ats|
  {
    if occs == [] then []
    else (if Disputed(occs[0], all) == disputed then [ats[0]] else []) + Picked(occs[1..], ats[1..], all, disputed)
  }

  ghost function Part(occs: seq<Occurrence>, all: seq<Occurrence>, disputed: bool): seq<Occurrence>
  {
    if disputed then DisputedOnes(occs, all) else Undisputed(occs, all)
  }

  ghost predicate From(occs: seq<Occurrence>, ats: seq<(nat, nat)>, all: seq<Occurrence>, disputed: bool,
        at: (nat, nat))
    requires |occs| == |ats|
  {
    exists k :: 0 <= k < |ats| && ats[k] == at && Disputed(occs[k], all) == disputed
  }

  lemma {:induction false} PickedAlign(inputs: seq<Trajectory>, occs: seq<Occurrence>, ats: seq<(nat, nat)>,
        all: seq<Occurrence>, disputed: bool)
    requires Aligned(inputs, occs, ats) && Ascend(ats)
    ensures var picked := Picked(occs, ats, all, disputed);
      && Aligned(inputs, Part(occs, all, disputed), picked) && Ascend(picked)
      && forall at :: at in picked <==> From(occs, ats, all, disputed, at)
    decreases |occs|
  {
    hide IsAt, Before, Disputed;
    if occs != [] {
      PickedAlign(inputs, occs[1..], ats[1..], all, disputed);
      PickedStep(inputs, occs, ats, all, disputed);
    }
  }

  lemma {:induction false} PickedStep(inputs: seq<Trajectory>, occs: seq<Occurrence>, ats: seq<(nat, nat)>,
        all: seq<Occurrence>, disputed: bool)
    requires occs != [] && Aligned(inputs, occs, ats) && Ascend(ats)
    requires var picked := Picked(occs[1..], ats[1..], all, disputed);
      && Aligned(inputs, Part(occs[1..], all, disputed), picked) && Ascend(picked)
      && forall at :: at in picked <==> From(occs[1..], ats[1..], all, disputed, at)
    ensures var picked := Picked(occs, ats, all, disputed);
      && Aligned(inputs, Part(occs, all, disputed), picked) && Ascend(picked)
      && forall at :: at in picked <==> From(occs, ats, all, disputed, at)
  {
    hide IsAt, Before, Disputed, From, Ascend, Picked, Part;
    var rest, picked := Picked(occs[1..], ats[1..], all, disputed), Picked(occs, ats, all, disputed);
    var part := Part(occs[1..], all, disputed);
    hide Aligned;
    PickedOne(occs, ats, all, disputed);
    if Disputed(occs[0], all) == disputed {
      forall at | at in rest ensures Before(ats[0], at) {
        Later(occs[1..], ats[1..], all, disputed, at);
        FirstBefore(ats, at);
      }
      FirstAt(inputs, occs, ats);
      Prepended(inputs, occs[0], ats[0], part, rest);
    }
    forall at ensures at in picked <==> From(occs, ats, all, disputed, at) { FromTail(occs, ats, all, disputed, at); }
  }

  lemma {:induction false} PickedOne(occs: seq<Occurrence>, ats: seq<(nat, nat)>, all: seq<Occurrence>, disputed: bool)
    requires occs != [] && |occs| == |ats|
    ensures Picked(occs, ats, all, disputed)
      == if Disputed(occs[0], all) == disputed then [ats[0]] + Picked(occs[1..], ats[1..], all, disputed)
         else Picked(occs[1..], ats[1..], all, disputed)
    ensures Part(occs, all, disputed)
      == if Disputed(occs[0], all) == disputed then [occs[0]] + Part(occs[1..], all, disputed)
         else Part(occs[1..], all, disputed)
  {
    hide Disputed;
  }

  lemma {:induction false} FirstBefore(ats: seq<(nat, nat)>, at: (nat, nat))
    requires ats != [] && Ascend(ats) && at in ats[1..]
    ensures Before(ats[0], at)
  {
    hide Before;
  }

  lemma {:induction false} FirstAt(inputs: seq<Trajectory>, occs: seq<Occurrence>, ats: seq<(nat, nat)>)
    requires occs != [] && Aligned(inputs, occs, ats)
    ensures IsAt(inputs, ats[0], occs[0])
  {
  }

  lemma {:induction false} Prepended(inputs: seq<Trajectory>, o: Occurrence, at: (nat, nat), occs: seq<Occurrence>,
        ats: seq<(nat, nat)>)
    requires IsAt(inputs, at, o) && Aligned(inputs, occs, ats) && Ascend(ats)
    requires forall other :: other in ats ==> Before(at, other)
    ensures Aligned(inputs, [o] + occs, [at] + ats) && Ascend([at] + ats)
  {
    hide IsAt, Before;
  }

  lemma {:induction false} Later(occs: seq<Occurrence>, ats: seq<(nat, nat)>, all: seq<Occurrence>, disputed: bool,
        at: (nat, nat))
    requires |occs| == |ats| && From(occs, ats, all, disputed, at)
    ensures at in ats
  {
  }

  lemma {:induction false} FromTail(occs: seq<Occurrence>, ats: seq<(nat, nat)>, all: seq<Occurrence>, disputed: bool,
        at: (nat, nat))
    requires occs != [] && |occs| == |ats|
    ensures From(occs, ats, all, disputed, at)
      <==> (ats[0] == at && Disputed(occs[0], all) == disputed) || From(occs[1..], ats[1..], all, disputed, at)
  {
    hide Disputed;
    if From(occs[1..], ats[1..], all, disputed, at) {
      var k :| 0 <= k < |ats| - 1 && ats[1..][k] == at && Disputed(occs[1..][k], all) == disputed;
      assert ats[k + 1] == at && occs[k + 1] == occs[1..][k];
    }
    if From(occs, ats, all, disputed, at) {
      var k :| 0 <= k < |ats| && ats[k] == at && Disputed(occs[k], all) == disputed;
      if k > 0 { assert ats[1..][k - 1] == at && occs[1..][k - 1] == occs[k]; }
    }
  }

  lemma {:induction false} ContestedExactly(inputs: seq<Trajectory>, at: (nat, nat), o: Occurrence)
    requires IsAt(inputs, at, o)
    ensures Disputed(o, AllOccurrences(inputs)) <==> Contested(inputs, at)
  {
    hide PathsOf, Touches, AllOccurrences;
    var all := AllOccurrences(inputs);
    forall c: Change, p ensures p in PathsOf(c.ops) <==> Touches(c, p) { TouchedExactly(c, p); }
    if Disputed(o, all) {
      var e, p :| e in all && e.ti < o.ti && p in Touched(e) && p in Touched(o);
      OccurrencePlaced(inputs, e);
      assert e.change in inputs[e.ti].changes && Touches(e.change, p) && Touches(o.change, p);
    }
    if Contested(inputs, at) {
      var e, c, p :| 0 <= e < at.0 && c in inputs[e].changes && Touches(c, p) && Touches(o.change, p);
      ChangeOccurs(inputs, e, c);
      assert p in Touched(Occurrence(e, c)) && p in Touched(o);
    }
  }

  lemma {:induction false} OccurrencePlaced(inputs: seq<Trajectory>, o: Occurrence)
    requires o in AllOccurrences(inputs)
    ensures o.ti < |inputs| && o.change in inputs[o.ti].changes
  {
    hide OccurrencesFrom, PlacesFrom;
    PlacesAlign(inputs, 0);
    var k :| 0 <= k < |AllOccurrences(inputs)| && AllOccurrences(inputs)[k] == o;
    assert IsAt(inputs, PlacesFrom(inputs, 0)[k], o);
  }

  lemma {:induction false} ChangeOccurs(inputs: seq<Trajectory>, ti: nat, c: Change)
    requires ti < |inputs| && c in inputs[ti].changes
    ensures Occurrence(ti, c) in AllOccurrences(inputs)
  {
    hide OccurrencesFrom, PlacesFrom;
    PlacesAlign(inputs, 0);
    var i :| 0 <= i < |inputs[ti].changes| && inputs[ti].changes[i] == c;
    assert (ti, i) in PlacesFrom(inputs, 0);
    var k :| 0 <= k < |PlacesFrom(inputs, 0)| && PlacesFrom(inputs, 0)[k] == (ti, i);
    assert IsAt(inputs, PlacesFrom(inputs, 0)[k], AllOccurrences(inputs)[k]);
  }

  lemma {:induction false} TouchedExactly(c: Change, p: Path)
    ensures p in PathsOf(c.ops) <==> Touches(c, p)
  {
    PathsTouched(c.ops, p);
  }

  /** The undisputed occurrences are the uncontested changes in input order, the disputed ones the contested. */
  lemma {:induction false} AllListed(inputs: seq<Trajectory>)
    ensures var all := AllOccurrences(inputs);
      Listed(inputs, Undisputed(all, all), false) && Listed(inputs, DisputedOnes(all, all), true)
  {
    PartListed(inputs, false);
    PartListed(inputs, true);
  }

  lemma {:induction false} PartListed(inputs: seq<Trajectory>, disputed: bool)
    ensures var all := AllOccurrences(inputs); Listed(inputs, Part(all, all, disputed), disputed)
  {
    hide Disputed, Contested, OccurrencesFrom, PlacesFrom, Part, Picked, Before;
    var all, places := AllOccurrences(inputs), PlacesFrom(inputs, 0);
    PlacesAlign(inputs, 0);
    PickedAlign(inputs, all, places, all, disputed);
    var ats := Picked(all, places, all, disputed);
    forall k | 0 <= k < |places| ensures Disputed(all[k], all) <==> Contested(inputs, places[k]) {
      ContestedExactly(inputs, places[k], all[k]);
    }
    forall ti: nat, i: nat ensures (ti, i) in ats
        <==> ti < |inputs| && i < |inputs[ti].changes| && Contested(inputs, (ti, i)) == disputed {
      if (ti, i) in places { var k :| 0 <= k < |places| && places[k] == (ti, i); }
    }
    assert ListedAt(inputs, Part(all, all, disputed), ats, disputed);
  }

  /** The delta of a change names a path. */
  ghost predicate Moves(c: Change, p: Path)
  {
    c.input.Some? && c.output.Some? && Get(c.input.value, p) != Get(c.output.value, p)
  }

  ghost predicate NoneMoves(occs: seq<Occurrence>, p: Path) { forall o :: o in occs ==> !Moves(o.change, p) }

  ghost predicate LastMover(occs: seq<Occurrence>, k: nat, p: Path)
  {
    k < |occs| && Moves(occs[k].change, p) && forall j :: k < j < |occs| ==> !Moves(occs[j].change, p)
  }

  /** At every path the map holds what the last change that moves it put there, and what the base holds where
      none does. */
  ghost predicate LaidOver(base: Option<StateRef>, occs: seq<Occurrence>, m: Files)
  {
    && (forall p :: NoneMoves(occs, p) ==> Get(m, p) == if base.Some? then Get(base.value.files, p) else None)
    && forall k: nat, p :: LastMover(occs, k, p) ==> Get(m, p) == Get(occs[k].change.output.value, p)
  }

  lemma {:induction false} MovesExactly(o: Occurrence, p: Path)
    ensures DeltaTouches(o, p) <==> Moves(o.change, p)
  {
  }

  lemma {:induction false} LastMoves(occs: seq<Occurrence>, p: Path)
    ensures LastTouching(occs, p).None? <==> NoneMoves(occs, p)
    ensures forall k: nat :: LastMover(occs, k, p) ==> LastTouching(occs, p) == Some(occs[k])
    decreases |occs|
  {
    hide DeltaTouches, Moves;
    if occs != [] {
      var rest := occs[1..];
      LastMoves(rest, p);
      MovesExactly(occs[0], p);
      forall k: nat | LastMover(occs, k, p) ensures LastTouching(occs, p) == Some(occs[k]) {
        if k > 0 {
          assert LastMover(rest, k - 1, p) && rest[k - 1] == occs[k];
        } else {
          assert forall j :: 0 <= j < |rest| ==> rest[j] == occs[j + 1];
        }
      }
    }
  }

  lemma {:induction false} LaidOverExactly(base: Option<StateRef>, files: Files, occs: seq<Occurrence>)
    requires files == if base.Some? then base.value.files else map[]
    ensures LaidOver(base, occs, Merge(files, occs))
  {
    hide Moves, DeltaTouches, LastTouching, Merge;
    forall p ensures match LastTouching(occs, p)
        case None => Get(Merge(files, occs), p) == if base.Some? then Get(base.value.files, p) else None
        case Some(o) => o.change.output.Some? && Get(Merge(files, occs), p) == Get(o.change.output.value, p) {
      LaidAt(files, occs, p);
    }
    forall p ensures (LastTouching(occs, p).None? <==> NoneMoves(occs, p))
        && forall k: nat :: LastMover(occs, k, p) ==> LastTouching(occs, p) == Some(occs[k]) {
      LastMoves(occs, p);
    }
  }

  lemma {:induction false} LaidAt(files: Files, occs: seq<Occurrence>, p: Path)
    ensures match LastTouching(occs, p)
      case None => Get(Merge(files, occs), p) == Get(files, p)
      case Some(o) => o.change.output.Some? && Get(Merge(files, occs), p) == Get(o.change.output.value, p)
  {
    MergedAt(files, occs, p);
  }

  /** All states of the inputs are well formed, as every state that can be read is. */
  ghost predicate InputsRead(inputs: seq<Trajectory>)
  {
    && (forall t :: t in inputs && t.base.Some? ==> WellFormed(t.base.value.files))
    && forall t, c :: t in inputs && c in t.changes ==> ChangeReads(c)
  }

  /** No input contradicts the base of an earlier one. */
  ghost predicate BasesAgree(inputs: seq<Trajectory>)
  {
    forall i, j :: 0 <= i < j < |inputs| && inputs[i].base.Some? ==> inputs[j].base == inputs[i].base
  }

  /** The base state the inputs share: the first one given, which no later input contradicts. */
  method SharedBase(inputs: seq<Trajectory>) returns (r: Result<Option<StateRef>, AnalyzeError>)
    ensures if BasesAgree(inputs) then r == Ok(if inputs == [] then None else inputs[|inputs| - 1].base)
      else r == Err(BaseMismatch)
  {
    var base: Option<StateRef> := None;
    for k := 0 to |inputs|
      invariant base == if k == 0 then None else inputs[k - 1].base
      invariant forall i, j :: 0 <= i < j < k && inputs[i].base.Some? ==> inputs[j].base == inputs[i].base
    {
      if base.None? {
        base := inputs[k].base;
      } else if base != inputs[k].base {
        assert inputs[k - 1].base.Some? && inputs[k].base != inputs[k - 1].base;
        return Err(BaseMismatch);
      }
    }
    return Ok(base);
  }

  method Flatten(inputs: seq<Trajectory>) returns (occs: seq<Occurrence>)
    ensures occs == AllOccurrences(inputs)
  {
    ghost var sequences := Sequences(inputs);
    occs := [];
    for ti := 0 to |inputs|
      invariant occs + OccurrencesFrom(sequences, ti) == Occurrences(sequences)
    {
      var changes := inputs[ti].changes;
      var mine := seq(|changes|, i requires 0 <= i < |changes| => Occurrence(ti, changes[i]));
      assert OccurrencesFrom(sequences, ti) == mine + OccurrencesFrom(sequences, ti + 1);
      occs := occs + mine;
    }
  }

  lemma {:induction false} OccurrenceReads(inputs: seq<Trajectory>, ti: nat)
    requires InputsRead(inputs) && ti <= |inputs|
    ensures AllRead(OccurrencesFrom(Sequences(inputs), ti))
    decreases |inputs| - ti
  {
    hide ChangeReads;
    if ti < |inputs| {
      OccurrenceReads(inputs, ti + 1);
      assert inputs[ti] in inputs;
    }
  }

  lemma {:induction false} AdoptedRead(inputs: seq<Trajectory>)
    requires InputsRead(inputs) && inputs != []
    ensures var occs := AllOccurrences(inputs); WellFormed(BaseFiles(inputs)) && AllRead(Undisputed(occs, occs))
  {
    hide ChangeReads, Undisputed;
    var occs := AllOccurrences(inputs);
    OccurrenceReads(inputs, 0);
    forall o | o in Undisputed(occs, occs) ensures ChangeReads(o.change) { UndisputedIn(occs, occs, o); }
    assert inputs[|inputs| - 1] in inputs;
  }

  /** The merge plan of two or more trajectories that share a base state. There is one exactly when what the
      adopted changes merge to has a state. */
  method Analyze(inputs: seq<Trajectory>, w: World) returns (r: Result<Plan, AnalyzeError>)
    requires InputsRead(inputs)
    ensures |inputs| < 2 ==> r == Err(TooFewInputs)
    ensures |inputs| >= 2 && !BasesAgree(inputs) ==> r == Err(BaseMismatch)
    ensures |inputs| >= 2 ==> Buildable(Merged(inputs))
    ensures |inputs| >= 2 ==>
      LaidOver(inputs[|inputs| - 1].base, Undisputed(AllOccurrences(inputs), AllOccurrences(inputs)), Merged(inputs))
    ensures |inputs| >= 2 && BasesAgree(inputs) ==>
      match PlanState(Merged(inputs), w)
      case Err(e) => r == Err(NoState(e))
      case Ok((_, state)) => r.Ok? && r.value.result == state
    ensures r.Ok? ==>
      && Listed(inputs, r.value.adopted, false) && Listed(inputs, r.value.rejected, true)
      && DisjointTrajectories(r.value.adopted)
      && r.value.base == inputs[|inputs| - 1].base && r.value.merged == Merged(inputs)
      && LaidOver(r.value.base, r.value.adopted, r.value.merged)
  {
    hide InputsRead, AllRead, WellFormed, PlanState, Buildable, Undisputed, DisputedOnes, Merge, OccurrencesFrom,
        DisjointTrajectories, Listed, LaidOver;
    if |inputs| < 2 { return Err(TooFewInputs); }
    ghost var all := AllOccurrences(inputs);
    AdoptedRead(inputs);
    MergeBuildable(BaseFiles(inputs), Undisputed(all, all));
    LaidOverExactly(inputs[|inputs| - 1].base, BaseFiles(inputs), Undisputed(all, all));
    AllListed(inputs);
    var base := SharedBase(inputs);
    if base.Err? { return Err(base.error); }
    var occs := Flatten(inputs);
    OccurrencesOrdered(Sequences(inputs), 0);
    var owner := Owners(occs);
    var adopted, rejected := Adopt(occs, owner);
    AdoptionRule(occs, occs, owner);
    AdoptedDisjoint(occs);
    var merged := MergeAll(if base.value.Some? then base.value.value.files else map[], adopted);
    var state := StateIdentityFromFiles(merged, w);
    if state.Err? { return Err(NoState(state.error)); }
    return Ok(Plan(base.value, adopted, rejected, merged, state.value.1));
  }

  /** Inputs that agree on a base get a plan exactly when no two origins clash and everything is within the limits. */
  lemma {:induction false} PlannedExactly(inputs: seq<Trajectory>, w: World)
    requires InputsRead(inputs) && inputs != [] && w.table(TREE) == TREE_SCHEMA && w.table(STATE) == STATE_SCHEMA
    ensures Buildable(Merged(inputs))
    ensures PlanState(Merged(inputs), w).Ok?
      <==> var occs := AllOccurrences(inputs);
           NoClash(BaseFiles(inputs), Undisputed(occs, occs)) && AllFit(Merged(inputs), [], w.limits)
               && StateFits(w.limits)
  {
    hide InputsRead, AllRead, WellFormed, PlanState, AllFit, NoClash, StateFits, Undisputed;
    var occs := AllOccurrences(inputs);
    AdoptedRead(inputs);
    MergeBuilds(BaseFiles(inputs), Undisputed(occs, occs), w);
  }

  // ---- Disjoint changes that do not merge ----

  /** A change that creates one file in an empty state. */
  function Creating(p: Path, e: Entry): Change
  {
    Change([Operation(Some(p), None, None)], Some(map[]), Some(map[p := e]))
  }

  const A: Path := [97]
  const A_B: Path := [97, SLASH, 98]

  /** One trajectory creates the file "a", another the file "a/b". */
  function NestedInputs(e: Entry): seq<Trajectory>
  {
    [Trajectory(None, [Creating(A, e)]), Trajectory(None, [Creating(A_B, e)])]
  }

  lemma {:induction false} CreatingReads(e: Entry)
    requires IsFileEntry(e)
    ensures ChangeReads(Creating(A, e)) && ChangeReads(Creating(A_B, e))
  {
    hide IsFileEntry, ValidUtf8, IsCanonicalPath, WellFormed;
    NothingAdded([], None, map[]);
    OneLetter(97);
    OneLetter(98);
    assert Under([]) + [97] == A && Under(A) + [98] == A_B;
    JoinCanonical([], [97]);
    OneFile([], [97], e);
    JoinCanonical(A, [98]);
    OneFile(A, [98], e);
  }

  lemma {:induction false} OneLetter(c: byte)
    requires 97 <= c <= 98
    ensures ValidUtf8([]) && ValidUtf8([c]) && IsTreeName([c])
  {
    assert [c][1..] == [];
  }

  lemma {:induction false} CreatingTouches(ti: nat, p: Path, e: Entry, q: Path)
    ensures Touched(Occurrence(ti, Creating(p, e))) == {p}
    ensures DeltaTouches(Occurrence(ti, Creating(p, e)), q) <==> q == p
  {
    var op := Operation(Some(p), None, None);
    assert [op][1..] == [];
    assert PathsOf([op]) == OpPaths(op) + PathsOf([]);
  }

  lemma {:induction false} NestedOccurrences(e: Entry)
    ensures var all := AllOccurrences(NestedInputs(e));
      all == [Occurrence(0, Creating(A, e)), Occurrence(1, Creating(A_B, e))] && Undisputed(all, all) == all
  {
    var x, y := Occurrence(0, Creating(A, e)), Occurrence(1, Creating(A_B, e));
    hide Creating, Touched;
    var inputs := NestedInputs(e);
    var sequences := Sequences(inputs);
    assert OccurrencesFrom(sequences, 2) == [];
    assert OccurrencesFrom(sequences, 1) == [y] + [];
    assert OccurrencesFrom(sequences, 0) == [x] + [y];
    var all := [x, y];
    CreatingTouches(0, A, e, A);
    CreatingTouches(1, A_B, e, A);
    assert !Disputed(x, all) && !Disputed(y, all);
    assert all[1..] == [y] && [y][1..] == [];
    assert Undisputed([y], all) == [y] + [];
  }

  /** Disjoint paths are not enough. These inputs agree on a base and dispute no path, so everything is
      adopted, but a file would lie inside a file: what they merge to has no state, and there is no plan. */
  lemma {:induction false} NestedHasNoPlan(e: Entry, w: World)
    requires IsFileEntry(e)
    ensures var inputs, all := NestedInputs(e), AllOccurrences(NestedInputs(e));
      && InputsRead(inputs) && BasesAgree(inputs) && Undisputed(all, all) == all && DisjointTrajectories(all)
      && Clash(BaseFiles(inputs), all, A, A_B)
      && Buildable(Merged(inputs)) && PlanState(Merged(inputs), w).Err?
  {
    hide PlanTree, Merge, Creating, Touched, DeltaTouches, WellFormed, Undisputed, OccurrencesFrom, Buildable;
    var inputs, all := NestedInputs(e), AllOccurrences(NestedInputs(e));
    CreatingReads(e);
    NestedOccurrences(e);
    AdoptedDisjoint(all);
    assert Clash(map[], all, A, A_B) by { NestedClashes(e); }
    AdoptedRead(inputs);
    MergeBuildable(BaseFiles(inputs), all);
    StandsExactly(map[], all, A);
    StandsExactly(map[], all, A_B);
    ConflictFails(Merged(inputs), [], A, A_B, w);
  }

  lemma {:induction false} NestedClashes(e: Entry)
    ensures Clash(map[], [Occurrence(0, Creating(A, e)), Occurrence(1, Creating(A_B, e))], A, A_B)
  {
    hide DeltaTouches;
    var x, y := Occurrence(0, Creating(A, e)), Occurrence(1, Creating(A_B, e));
    CreatingTouches(0, A, e, A);
    CreatingTouches(0, A, e, A_B);
    CreatingTouches(1, A_B, e, A);
    CreatingTouches(1, A_B, e, A_B);
    hide Creating;
    assert [x, y][1..] == [y] && [y][1..] == [] && A != A_B;
    assert LastTouching([], A) == None && LastTouching([], A_B) == None;
    assert LastTouching([y], A) == None;
    assert LastTouching([y], A_B) == Some(y);
    assert LastTouching([x, y], A) == Some(x);
    assert LastTouching([x, y], A_B) == Some(y);
    CreatingHolds(A, e);
    CreatingHolds(A_B, e);
  }

  lemma {:induction false} CreatingHolds(p: Path, e: Entry)
    ensures Creating(p, e).output.Some? && p in Creating(p, e).output.value
  {
  }
}
