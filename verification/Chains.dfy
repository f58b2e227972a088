/** Version chains (src/query.rs, src/workflow.rs). */
module Chains {
  import opened Wrappers
  import opened Objects

  // `chain_latest`, and `resolve_residual`, the one step that extends a residual's chain.

  const MAX_HOPS := 4096

  const RESIDUAL: Family := 0x0C

  /** The families whose field 0x01 names the previous version: episode, case, trajectory, residual,
      checkpoint and config. */
  const CHAINED: set<Family> := {0x05, 0x08, 0x09, 0x0C, 0x14, 0x15}

  /** The stored objects, each with the identity in its field 0x01 if it has one. */
  type Stored = map<Gid, Option<Gid>>

  /** Field 0x01 as the schemas type it: in a chained family the previous version, of the same family;
      elsewhere a root tree, a producer or a state, never a chained family. */
  ghost predicate Typed(stored: Stored)
  {
    forall g :: g in stored ==> TypedEntry(g, stored[g])
  }

  ghost predicate TypedEntry(g: Gid, first: Option<Gid>)
  {
    first.Some? ==> if g.family in CHAINED then first.value.family == g.family else first.value.family !in CHAINED
  }

  /** A version whose chain is a line: chained, and in a family without two successors anywhere. */
  ghost predicate InLine(stored: Stored, g: Gid)
  {
    g.family in CHAINED && OneSuccessor(stored, g.family)
  }

  predicate Follows(stored: Stored, next: Gid, g: Gid)
  {
    next in stored && stored[next] == Some(g)
  }

  /** No version of this family has two successors. */
  ghost predicate OneSuccessor(stored: Stored, family: Family)
  {
    forall a, b, g: Gid :: g.family == family && Follows(stored, a, g) && Follows(stored, b, g) ==> a == b
  }

  ghost function Next(stored: Stored, g: Gid): (next: Option<Gid>)
    ensures next.Some? ==> Follows(stored, next.value, g)
    ensures next.None? ==> forall n :: !Follows(stored, n, g)
  {
    if n :| Follows(stored, n, g) then Some(n) else None
  }

  /** The end of the chain above a version, if it is at most `hops` versions away. */
  ghost function Latest(stored: Stored, g: Gid, hops: nat): Option<Gid>
    decreases hops
  {
    if Next(stored, g).None? then Some(g)
    else if hops == 0 then None
    else Latest(stored, Next(stored, g).value, hops - 1)
  }

  lemma {:induction false} LatestEnds(stored: Stored, g: Gid, hops: nat)
    ensures Latest(stored, g, hops).Some? ==> forall n :: !Follows(stored, n, Latest(stored, g, hops).value)
    decreases hops
  {
    if Next(stored, g).Some? && hops > 0 { LatestEnds(stored, Next(stored, g).value, hops - 1); }
  }

  /** `l` is `n` versions above `g`. */
  ghost predicate VersionsUp(stored: Stored, g: Gid, l: Gid, n: nat)
    decreases n
  {
    if n == 0 then l == g else exists next :: Follows(stored, next, g) && VersionsUp(stored, next, l, n - 1)
  }

  ghost predicate WithinHops(stored: Stored, g: Gid, l: Gid, hops: nat)
  {
    exists n: nat :: n <= hops && VersionsUp(stored, g, l, n)
  }

  /** Where no version has two successors, the latest version is the one within reach that nothing follows. */
  lemma {:induction false} LatestExactly(stored: Stored, g: Gid, l: Gid, hops: nat)
    requires Typed(stored) && InLine(stored, g)
    ensures Latest(stored, g, hops) == Some(l)
        <==> (forall n :: !Follows(stored, n, l)) && WithinHops(stored, g, l, hops)
    decreases hops
  {
    hide WithinHops;
    OneHop(stored, g, l, hops);
    if Next(stored, g).Some? {
      FollowerFamily(stored, Next(stored, g).value, g);
      if hops > 0 { LatestExactly(stored, Next(stored, g).value, l, hops - 1); }
    }
  }

  lemma {:induction false} OneHop(stored: Stored, g: Gid, l: Gid, hops: nat)
    requires OneSuccessor(stored, g.family)
    ensures WithinHops(stored, g, l, hops)
      <==> l == g || (hops > 0 && Next(stored, g).Some? && WithinHops(stored, Next(stored, g).value, l, hops - 1))
  {
    assert VersionsUp(stored, g, g, 0);
    if l != g && WithinHops(stored, g, l, hops) {
      var n: nat :| n <= hops && VersionsUp(stored, g, l, n);
      var next :| Follows(stored, next, g) && VersionsUp(stored, next, l, n - 1);
    }
    if hops > 0 && Next(stored, g).Some? && WithinHops(stored, Next(stored, g).value, l, hops - 1) {
      var n: nat :| n <= hops - 1 && VersionsUp(stored, Next(stored, g).value, l, n);
      assert VersionsUp(stored, g, l, n + 1);
    }
  }

  /** A longer reach finds the same end. */
  lemma {:induction false} LatestFurther(stored: Stored, g: Gid, hops: nat, more: nat)
    requires Latest(stored, g, hops).Some? && hops <= more
    ensures Latest(stored, g, more) == Latest(stored, g, hops)
    decreases hops
  {
    if Next(stored, g).Some? { LatestFurther(stored, Next(stored, g).value, hops - 1, more - 1); }
  }

  lemma {:induction false} FollowerFamily(stored: Stored, n: Gid, g: Gid)
    requires Typed(stored) && Follows(stored, n, g)
    ensures if g.family in CHAINED then n.family == g.family else n.family !in CHAINED
  {
    assert TypedEntry(n, stored[n]);
  }

  /** The index query: any one object with a `previous` edge to this version. */
  method QueryNext(stored: Stored, g: Gid) returns (next: Option<Gid>)
    ensures next.Some? ==> Follows(stored, next.value, g) && next.value.family in CHAINED
    ensures next.None? ==> forall n :: Follows(stored, n, g) ==> n.family !in CHAINED
  {
    var found := set n | n in stored && stored[n] == Some(g) && n.family in CHAINED;
    if found == {} {
      next := None;
      assert forall n :: Follows(stored, n, g) && n.family in CHAINED ==> n in found;
    } else {
      var n :| n in found;
      next := Some(n);
    }
  }

  /** Following the index: it gives up before its 4097th query. */
  method ChainLatestFast(stored: Stored, g: Gid) returns (r: Option<Gid>)
    requires Typed(stored)
    ensures InLine(stored, g) ==> r == Latest(stored, g, MAX_HOPS - 1)
    ensures r.Some? ==> (r.value.family == RESIDUAL <==> g.family == RESIDUAL)
  {
    hide Latest, OneSuccessor;
    var current := g;
    var guard := 0;
    while true
      invariant 0 <= guard <= MAX_HOPS
          && (current.family == g.family || (g.family !in CHAINED && current.family !in CHAINED))
      invariant InLine(stored, g) ==>
          Latest(stored, g, MAX_HOPS - 1) == if guard < MAX_HOPS then Latest(stored, current, MAX_HOPS - 1 - guard)
            else None
      decreases MAX_HOPS - guard
    {
      guard := guard + 1;
      if guard > MAX_HOPS { return None; }
      var next := QueryNext(stored, current);
      match next
      case Some(n) =>
        FollowerFamily(stored, n, current);
        if InLine(stored, g) { Hop(stored, current, n, MAX_HOPS - guard); }
        current := n;
      case None =>
        if InLine(stored, g) { AtEnd(stored, current, MAX_HOPS - guard); }
        return Some(current);
    }
  }

  lemma {:induction false} Hop(stored: Stored, g: Gid, n: Gid, hops: nat)
    requires OneSuccessor(stored, g.family) && Follows(stored, n, g)
    ensures Latest(stored, g, hops) == if hops > 0 then Latest(stored, n, hops - 1) else None
  {
  }

  lemma {:induction false} AtEnd(stored: Stored, g: Gid, hops: nat)
    requires Typed(stored) && g.family in CHAINED && forall n :: Follows(stored, n, g) ==> n.family !in CHAINED
    ensures Latest(stored, g, hops) == Some(g)
  {
    if Next(stored, g).Some? { FollowerFamily(stored, Next(stored, g).value, g); }
  }

  /** Following a map built from one scan of every object: it gives up on its 4097th hop. */
  method ChainLatestSlow(stored: Stored, scan: seq<Gid>, g: Gid) returns (r: Option<Gid>)
    requires Typed(stored) && forall id :: id in scan <==> id in stored
    ensures InLine(stored, g) ==> r == Latest(stored, g, MAX_HOPS)
    ensures r.Some? ==> (r.value.family == RESIDUAL <==> g.family == RESIDUAL)
  {
    hide Latest, OneSuccessor, Typed;
    var nextOf: map<Gid, Gid> := map[];
    for i := 0 to |scan|
      invariant forall p :: p in nextOf ==> Follows(stored, nextOf[p], p)
      invariant forall id, p :: id in scan[..i] && Follows(stored, id, p) ==> p in nextOf
    {
      assert scan[i] in scan && scan[..i + 1] == scan[..i] + [scan[i]];
      var previous := stored[scan[i]];
      if previous.Some? { nextOf := nextOf[previous.value := scan[i]]; }
    }
    assert scan[..|scan|] == scan;
    var current := g;
    var guard := 0;
    while current in nextOf
      invariant 0 <= guard <= MAX_HOPS
          && (current.family == g.family || (g.family !in CHAINED && current.family !in CHAINED))
      invariant InLine(stored, g) ==> Latest(stored, g, MAX_HOPS) == Latest(stored, current, MAX_HOPS - guard)
      decreases MAX_HOPS - guard
    {
      FollowerFamily(stored, nextOf[current], current);
      if InLine(stored, g) { Hop(stored, current, nextOf[current], MAX_HOPS - guard); }
      guard := guard + 1;
      if guard > MAX_HOPS { return None; }
      current := nextOf[current];
    }
    if InLine(stored, g) { AtEnd(stored, current, MAX_HOPS - guard); }
    return Some(current);
  }

  /** The index is consulted only when fresh, and its failures fall back to the scan: the answer is
      the scan's, also for a chain of exactly 4096 hops, on which the index gives up and the scan does not. */
  method ChainLatest(stored: Stored, scan: seq<Gid>, g: Gid, indexIsFresh: bool) returns (r: Option<Gid>)
    requires Typed(stored) && forall id :: id in scan <==> id in stored
    ensures InLine(stored, g) ==> r == Latest(stored, g, MAX_HOPS)
    ensures r.Some? ==> (r.value.family == RESIDUAL <==> g.family == RESIDUAL)
  {
    hide Latest, OneSuccessor;
    if indexIsFresh {
      var fast := ChainLatestFast(stored, g);
      if fast.Some? {
        if InLine(stored, g) { LatestFurther(stored, g, MAX_HOPS - 1, MAX_HOPS); }
        return fast;
      }
    }
    r := ChainLatestSlow(stored, scan, g);
  }

  // ---- Extending a chain ----

  datatype ResolveError = ChainTooLong | NotFound | NotAResidual

  /** A new version above the latest one. */
  function WithVersion(stored: Stored, version: Gid, latest: Gid): Stored
  {
    stored[version := Some(latest)]
  }

  lemma {:induction false} StaysSingle(stored: Stored, version: Gid, latest: Gid)
    requires Typed(stored) && OneSuccessor(stored, RESIDUAL) && version.family == latest.family == RESIDUAL
    requires forall n :: !Follows(stored, n, latest)
    requires version in stored ==> stored[version] == Some(latest)
    ensures version !in stored
    ensures Typed(WithVersion(stored, version, latest)) && OneSuccessor(WithVersion(stored, version, latest), RESIDUAL)
  {
    if version in stored { assert Follows(stored, version, latest); }
    var later := WithVersion(stored, version, latest);
    forall a, b, g: Gid | g.family == RESIDUAL && Follows(later, a, g) && Follows(later, b, g) ensures a == b {
      if a != version { assert Follows(stored, a, g); }
      if b != version { assert Follows(stored, b, g); }
    }
  }

  /** Every chain that ended at the old latest version ends at the new one; every other chain is as it was. */
  lemma {:induction false} ChainsExtended(stored: Stored, version: Gid, latest: Gid, g: Gid, hops: nat)
    requires Typed(stored) && OneSuccessor(stored, RESIDUAL) && version.family == latest.family == RESIDUAL
    requires version !in stored && (forall n :: !Follows(stored, n, latest))
        && (forall n :: !Follows(stored, n, version))
    requires g.family == RESIDUAL && g != version && Latest(stored, g, hops).Some?
    ensures Latest(WithVersion(stored, version, latest), g, hops + 1)
         == if Latest(stored, g, hops) == Some(latest) then Some(version) else Latest(stored, g, hops)
    decreases hops
  {
    var later := WithVersion(stored, version, latest);
    StaysSingle(stored, version, latest);
    forall n, p | Follows(later, n, p) ensures Follows(stored, n, p) || (n == version && p == latest) {}
    if Next(stored, g).None? {
      if g == latest {
        assert Follows(later, version, latest);
        assert Next(later, version).None?;
        assert Latest(later, version, hops) == Some(version);
      } else {
        assert Next(later, g).None?;
      }
    } else {
      var n := Next(stored, g).value;
      assert Follows(later, n, g);
      assert n != version;
      ChainsExtended(stored, version, latest, n, hops - 1);
    }
  }

  class Versions {
    var stored: Stored

    constructor ()
      ensures stored == map[] && Valid()
    {
      stored := map[];
    }

    /** What every step keeps: no residual has two successors, and every version that exists or is
        referred to as previous is stored. */
    ghost predicate Valid()
      reads this
    {
      && Typed(stored) && OneSuccessor(stored, RESIDUAL)
      && PreviousStored(stored)
    }

    /** Storing an object of another kind, or a residual of a new change, which has no previous version. */
    method Publish(id: Gid, first: Option<Gid>)
      requires Valid() && TypedEntry(id, first)
      requires id.family == RESIDUAL ==> first == None
      requires id in stored ==> stored[id] == first
      modifies this
      ensures Valid() && stored == old(stored)[id := first]
    {
      PublishKeeps(stored, id, first);
      stored := stored[id := first];
    }

    /** Resolving a residual by any of its versions: the new version goes on top of the latest one. The
        identity of the new version is that of its bytes, so if it is stored already it is this very version. */
    method Resolve(base: Gid, scan: seq<Gid>, indexIsFresh: bool, version: Gid) returns (r: Result<Gid, ResolveError>)
      requires Valid() && forall id :: id in scan <==> id in stored
      requires version.family == RESIDUAL
      requires version in stored && Latest(stored, base, MAX_HOPS).Some? ==>
          stored[version] == Latest(stored, base, MAX_HOPS)
      modifies this
      ensures Valid()
      ensures r.Err? ==> stored == old(stored)
      ensures r.Ok? <==> base.family == RESIDUAL && old(Latest(stored, base, MAX_HOPS)).Some? && base in old(stored)
      ensures r.Ok? ==>
        && r.value == version && version !in old(stored)
        && stored == WithVersion(old(stored), version, old(Latest(stored, base, MAX_HOPS)).value)
        && Latest(stored, base, MAX_HOPS + 1) == Some(version)
    {
      var latest := ChainLatest(stored, scan, base, indexIsFresh);
      LatestStored(stored, base, MAX_HOPS);
      if latest == None { return Err(ChainTooLong); }
      if latest.value !in stored { return Err(NotFound); }
      if latest.value.family != RESIDUAL { return Err(NotAResidual); }
      LatestEnds(stored, base, MAX_HOPS);
      StaysSingle(stored, version, latest.value);
      ChainsExtended(stored, version, latest.value, base, MAX_HOPS);
      stored := WithVersion(stored, version, latest.value);
      return Ok(version);
    }
  }

  ghost predicate PreviousStored(stored: Stored)
  {
    forall g :: g in stored && g.family == RESIDUAL && stored[g].Some? ==> stored[g].value in stored
  }

  lemma {:induction false} PublishKeeps(stored: Stored, id: Gid, first: Option<Gid>)
    requires Typed(stored) && OneSuccessor(stored, RESIDUAL) && PreviousStored(stored) && TypedEntry(id, first)
    requires (id.family == RESIDUAL ==> first == None) && (id in stored ==> stored[id] == first)
    ensures var later := stored[id := first]; Typed(later) && OneSuccessor(later, RESIDUAL) && PreviousStored(later)
  {
    var later := stored[id := first];
    forall a, g: Gid | g.family == RESIDUAL && Follows(later, a, g) ensures Follows(stored, a, g) {
      if a == id { }
    }
  }

  lemma {:induction false} LatestStored(stored: Stored, g: Gid, hops: nat)
    ensures Latest(stored, g, hops).Some? ==>
        (Latest(stored, g, hops).value == g && Next(stored, g).None?) || Latest(stored, g, hops).value in stored
    decreases hops
  {
    if Next(stored, g).Some? && hops > 0 { LatestStored(stored, Next(stored, g).value, hops - 1); }
  }
}
