/** Object graphs, as loadable nodes with the nodes they refer to: reachability, and the worklist that computes it. */
module Graph {
  import opened Objects

  /** What each loadable object refers to; an identity without an entry cannot be loaded. */
  type Links = map<Gid, seq<Gid>>

  ghost predicate IsPath(links: Links, path: seq<Gid>, a: Gid, b: Gid)
  {
    && path != [] && path[0] == a && path[|path| - 1] == b
    && forall i :: 0 <= i < |path| - 1 ==> path[i] in links && path[i + 1] in links[path[i]]
  }

  ghost predicate Reaches(links: Links, a: Gid, b: Gid)
  {
    exists path :: IsPath(links, path, a, b)
  }

  /** Reached by following at least one link. */
  ghost predicate Above(links: Links, a: Gid, b: Gid)
  {
    exists path :: IsPath(links, path, a, b) && |path| >= 2
  }

  ghost predicate AcyclicFrom(links: Links, a: Gid)
  {
    forall g :: Reaches(links, a, g) ==> !Above(links, g, g)
  }

  lemma {:induction false} ReachesSelf(links: Links, a: Gid)
    ensures Reaches(links, a, a)
  {
    assert IsPath(links, [a], a, a);
  }

  lemma {:induction false} LinkAbove(links: Links, a: Gid, p: Gid, b: Gid)
    requires a in links && p in links[a] && Reaches(links, p, b)
    ensures Above(links, a, b)
  {
    var path :| IsPath(links, path, p, b);
    var longer := [a] + path;
    assert forall i :: 0 < i < |longer| ==> longer[i] == path[i - 1];
    assert IsPath(links, longer, a, b);
  }

  lemma {:induction false} AboveReaches(links: Links, a: Gid, b: Gid)
    requires Above(links, a, b)
    ensures Reaches(links, a, b)
  {
  }

  lemma {:induction false} ReachesLink(links: Links, a: Gid, b: Gid, p: Gid)
    requires Reaches(links, a, b) && b in links && p in links[b]
    ensures Above(links, a, p)
  {
    var path :| IsPath(links, path, a, b);
    var longer := path + [p];
    assert forall i :: 0 <= i < |path| ==> longer[i] == path[i];
    assert IsPath(links, longer, a, p);
  }

  /** A set with all that its members refer to. */
  ghost predicate Closed(links: Links, nodes: set<Gid>)
  {
    forall g, p :: g in nodes && g in links && p in links[g] ==> p in nodes
  }

  lemma {:induction false} ClosedHolds(links: Links, nodes: set<Gid>, path: seq<Gid>, a: Gid, b: Gid)
    requires Closed(links, nodes) && a in nodes && IsPath(links, path, a, b)
    ensures b in nodes
    decreases |path|
  {
    if |path| > 1 {
      var rest := path[1..];
      assert path[0 + 1] in links[path[0]];
      assert forall i :: 0 <= i < |rest| ==> rest[i] == path[i + 1];
      ClosedHolds(links, nodes, rest, path[1], b);
    }
  }

  /** A closed set of nodes reached from `a` that contains `a` is exactly what `a` reaches. */
  lemma {:induction false} ReachedSet(links: Links, nodes: set<Gid>, a: Gid)
    requires Closed(links, nodes) && a in nodes
    ensures forall g :: Reaches(links, a, g) ==> g in nodes
  {
    forall g | Reaches(links, a, g) ensures g in nodes {
      var path :| IsPath(links, path, a, g);
      ClosedHolds(links, nodes, path, a, g);
    }
  }

  /** Every node there is, loadable or only referred to. */
  ghost function Nodes(links: Links): (nodes: set<Gid>)
    ensures forall g :: g in links ==> g in nodes
    ensures forall g, p :: g in links && p in links[g] ==> p in nodes
  {
    links.Keys + set g, p | g in links && p in links[g] :: p
  }

  ghost predicate Distinct(s: seq<Gid>)
  {
    forall i, j :: 0 <= i < j < |s| ==> s[i] != s[j]
  }

  // ---- Worklists ----

  ghost predicate ReachedFrom(links: Links, roots: seq<Gid>, g: Gid)
  {
    exists r :: r in roots && Reaches(links, r, g)
  }

  /** A worklist: all visited or waiting is reached from the roots, and all a visited node refers to is visited
      or waiting. */
  ghost predicate Walking(links: Links, roots: seq<Gid>, visited: set<Gid>, stack: seq<Gid>)
  {
    && (forall g :: g in visited || g in stack ==> ReachedFrom(links, roots, g))
    && (forall g :: g in visited || g in stack ==> g in Nodes(links) || g in roots)
    && (forall r :: r in roots ==> r in visited || r in stack)
    && forall g, p :: g in visited && g in links && p in links[g] ==> p in visited || p in stack
  }

  lemma {:induction false} WalkStarts(links: Links, roots: seq<Gid>)
    ensures Walking(links, roots, {}, roots)
  {
    hide Reaches;
    forall r | r in roots ensures ReachedFrom(links, roots, r) { ReachesSelf(links, r); }
  }

  lemma {:induction false} WalkSkips(links: Links, roots: seq<Gid>, visited: set<Gid>, stack: seq<Gid>, c: Gid)
    requires Walking(links, roots, visited, stack + [c]) && c in visited
    ensures Walking(links, roots, visited, stack)
  {
    hide ReachedFrom;
    assert forall g :: g in stack + [c] <==> g in stack || g == c;
  }

  lemma {:induction false} WalkGoesOn(links: Links, roots: seq<Gid>, visited: set<Gid>, stack: seq<Gid>, c: Gid)
    requires Walking(links, roots, visited, stack + [c]) && c !in visited
    ensures Walking(links, roots, visited + {c}, stack + if c in links then links[c] else [])
    ensures (c in Nodes(links) || c in roots) && ReachedFrom(links, roots, c)
  {
    hide Reaches, Above, Nodes, ReachedFrom;
    var more := if c in links then links[c] else [];
    assert c in stack + [c];
    assert forall g :: g in stack + [c] <==> g in stack || g == c;
    assert forall g :: g in stack + more <==> g in stack || g in more;
    forall p | p in more ensures ReachedFrom(links, roots, p) { LinkReached(links, roots, c, p); }
  }

  lemma {:induction false} LinkReached(links: Links, roots: seq<Gid>, c: Gid, p: Gid)
    requires ReachedFrom(links, roots, c) && c in links && p in links[c]
    ensures ReachedFrom(links, roots, p)
  {
    hide Reaches, Above;
    var r :| r in roots && Reaches(links, r, c);
    ReachesLink(links, r, c, p);
    AboveReaches(links, r, p);
  }

  lemma {:induction false} WalkDone(links: Links, roots: seq<Gid>, visited: set<Gid>)
    requires Walking(links, roots, visited, [])
    ensures forall g :: g in visited <==> ReachedFrom(links, roots, g)
  {
    hide Reaches;
    forall g | ReachedFrom(links, roots, g) ensures g in visited {
      var r :| r in roots && Reaches(links, r, g);
      ReachedSet(links, visited, r);
    }
  }

  lemma {:induction false} SmallerLeft(all: set<Gid>, visited: set<Gid>, visited': set<Gid>, gid: Gid)
    requires visited' == visited + {gid} && gid in all && gid !in visited
    ensures |all - visited'| < |all - visited|
  {
    assert all - visited == (all - visited') + {gid};
  }

  lemma {:induction false} FewerLeft(all: set<Gid>, visited: set<Gid>, visited': set<Gid>)
    requires visited <= visited'
    ensures |all - visited'| <= |all - visited|
  {
    var gone := (all - visited) - (all - visited');
    assert all - visited == (all - visited') + gone && (all - visited') !! gone;
  }

  lemma {:induction false} Fewer(all: set<Gid>, visited: set<Gid>, visited': set<Gid>)
    requires visited < visited' <= all
    ensures |all - visited'| < |all - visited|
  {
    var gone := visited' - visited;
    assert gone != {};
    assert all - visited == (all - visited') + gone && (all - visited') !! gone;
  }
}
