/** Causal history (src/git_interop.rs, src/query.rs). */
module History {
  import opened Varint
  import opened Paths
  import opened Wrappers
  import opened Objects
  import opened Graph

  // The causal closure of the head, the Git parents of its changes, and the persistence of residuals.
  // Links are causal parents.

  /** Every causal parent of a listed change is listed before it. */
  ghost predicate ParentsFirst(links: Links, order: seq<Gid>)
  {
    forall i, p :: 0 <= i < |order| && order[i] in links && p in links[order[i]] ==> p in order[..i]
  }

  /** The state of the search: finished changes in `order`, and the chain `open` of changes being visited. */
  ghost predicate Searching(links: Links, visited: set<Gid>, order: seq<Gid>, open: set<Gid>)
  {
    && (forall g :: g in visited <==> g in order || g in open)
    && (forall g :: g in order ==> g !in open && g in links)
    && Distinct(order)
    && forall g, p :: g in order && p in links[g] ==> p in visited
  }

  /** All that is finished after a step was finished before or is reached from `gid`. */
  ghost predicate Reached(links: Links, gid: Gid, order: seq<Gid>, order': seq<Gid>)
  {
    order <= order' && forall i :: |order| <= i < |order'| ==> Reaches(links, gid, order'[i])
  }

  ghost predicate OpenReaches(links: Links, open: set<Gid>, gid: Gid)
  {
    forall g :: g in open ==> Reaches(links, g, gid)
  }

  ghost predicate NoCycleAt(links: Links, gid: Gid)
  {
    forall g :: Reaches(links, gid, g) ==> !Above(links, g, g)
  }

  /** Visiting a change: it and all it reaches get finished, parents first, or something it reaches cannot be loaded. */
  method VisitClosure(links: Links, gid: Gid, visited: set<Gid>, order: seq<Gid>, ghost open: set<Gid>)
    returns (ok: bool, visited': set<Gid>, order': seq<Gid>)
    requires Searching(links, visited, order, open) && OpenReaches(links, open, gid)
    ensures ok ==> Searching(links, visited', order', open) && visited <= visited' && gid in visited'
    ensures ok ==> Reached(links, gid, order, order')
    ensures ok && gid !in visited ==> order' != [] && order'[|order'| - 1] == gid
    ensures ok && ParentsFirst(links, order) && NoCycleAt(links, gid) ==> ParentsFirst(links, order')
    ensures !ok ==> exists g :: Reaches(links, gid, g) && g !in links
    decreases |links.Keys - visited|
  {
    hide Reaches, Above, ParentsFirst, NoCycleAt, Searching, Reached, OpenReaches, Distinct;
    ReachesSelf(links, gid);
    visited', order' := visited, order;
    StartsVisit(links, gid, visited, order, open);
    if gid in visited { return true, visited', order'; }
    visited' := visited' + {gid};
    if gid !in links { return false, visited', order'; }
    ghost var inner := open + {gid};
    var parents := links[gid];
    assert links.Keys - visited' < links.Keys - visited by { assert gid in links.Keys - visited; }
    ghost var bound := |links.Keys - visited|;
    SmallerLeft(links.Keys, visited, visited', gid);
    for i := 0 to |parents|
      invariant Searching(links, visited', order', inner) && visited + {gid} <= visited'
      invariant Reached(links, gid, order, order')
      invariant forall j :: 0 <= j < i ==> parents[j] in visited'
      invariant ParentsFirst(links, order) && NoCycleAt(links, gid) ==> ParentsFirst(links, order')
      invariant |links.Keys - visited'| < bound
    {
      var p := parents[i];
      OpenToParent(links, open, gid, p);
      ghost var before, done := visited', order';
      ok, visited', order' := VisitClosure(links, p, visited', order', inner);
      if !ok {
        FailureReached(links, gid, p);
        return;
      }
      ReachedOn(links, gid, p, order, done, order');
      NoCycleBelow(links, gid, p);
      FewerLeft(links.Keys, before, visited');
    }
    if ParentsFirst(links, order) && NoCycleAt(links, gid) {
      ParentsDone(links, gid, visited', order', open);
    }
    Finish(links, gid, visited', order', open);
    ReachedPush(links, gid, order, order');
    order' := order' + [gid];
    ok := true;
  }

  lemma {:induction false} StartsVisit(links: Links, gid: Gid, visited: set<Gid>, order: seq<Gid>, open: set<Gid>)
    requires Searching(links, visited, order, open)
    ensures Reached(links, gid, order, order)
    ensures gid in links && gid !in visited ==> Searching(links, visited + {gid}, order, open + {gid}) && gid !in open
  {
  }

  lemma {:induction false} OpenToParent(links: Links, open: set<Gid>, gid: Gid, p: Gid)
    requires OpenReaches(links, open, gid) && gid in links && p in links[gid]
    ensures OpenReaches(links, open + {gid}, p)
  {
    hide Reaches;
    ReachesSelf(links, gid);
    forall g | g in open + {gid} ensures Reaches(links, g, p) {
      ReachesLink(links, g, gid, p);
      AboveReaches(links, g, p);
    }
  }

  lemma {:induction false} FailureReached(links: Links, gid: Gid, p: Gid)
    requires gid in links && p in links[gid] && exists g :: Reaches(links, p, g) && g !in links
    ensures exists g :: Reaches(links, gid, g) && g !in links
  {
    hide Reaches;
    var g :| Reaches(links, p, g) && g !in links;
    LinkAbove(links, gid, p, g);
    AboveReaches(links, gid, g);
  }

  lemma {:induction false} ReachedOn(links: Links, gid: Gid, p: Gid, order: seq<Gid>, done: seq<Gid>, order': seq<Gid>)
    requires gid in links && p in links[gid] && Reached(links, gid, order, done) && Reached(links, p, done, order')
    ensures Reached(links, gid, order, order')
  {
    hide Reaches;
    forall i | |order| <= i < |order'| ensures Reaches(links, gid, order'[i]) {
      if i < |done| {
        assert order'[i] == done[i];
      } else {
        LinkAbove(links, gid, p, order'[i]);
        AboveReaches(links, gid, order'[i]);
      }
    }
  }

  lemma {:induction false} ReachedPush(links: Links, gid: Gid, order: seq<Gid>, order': seq<Gid>)
    requires Reached(links, gid, order, order')
    ensures Reached(links, gid, order, order' + [gid])
  {
    hide Reaches;
    ReachesSelf(links, gid);
  }

  lemma {:induction false} NoCycleBelow(links: Links, gid: Gid, p: Gid)
    requires gid in links && p in links[gid]
    ensures NoCycleAt(links, gid) ==> NoCycleAt(links, p)
  {
    hide Reaches, Above;
    if NoCycleAt(links, gid) {
      forall g | Reaches(links, p, g) ensures !Above(links, g, g) {
        LinkAbove(links, gid, p, g);
        AboveReaches(links, gid, g);
      }
    }
  }

  /** Without cycles a visited parent cannot be one of the changes still open, so it is finished. */
  lemma {:induction false} ParentsDone(links: Links, gid: Gid, visited: set<Gid>, order: seq<Gid>, open: set<Gid>)
    requires gid in links && Searching(links, visited, order, open + {gid}) && NoCycleAt(links, gid)
    requires forall p :: p in links[gid] ==> p in visited
    requires OpenReaches(links, open, gid) && ParentsFirst(links, order)
    ensures ParentsFirst(links, order + [gid])
  {
    hide Reaches, Above;
    ReachesSelf(links, gid);
    forall p | p in links[gid] ensures p in order {
      if p in open + {gid} {
        LinkAbove(links, gid, p, gid);
        assert false;
      }
    }
    var longer := order + [gid];
    forall i, p | 0 <= i < |longer| && longer[i] in links && p in links[longer[i]] ensures p in longer[..i] {
      if i < |order| {
        assert longer[i] == order[i] && longer[..i] == order[..i];
      } else {
        assert longer[..i] == order;
      }
    }
  }

  lemma {:induction false} Finish(links: Links, gid: Gid, visited: set<Gid>, order: seq<Gid>, open: set<Gid>)
    requires gid in links && Searching(links, visited, order, open + {gid}) && gid !in open
    requires forall p :: p in links[gid] ==> p in visited
    ensures Searching(links, visited, order + [gid], open)
  {
    var longer := order + [gid];
    assert forall g :: g in longer <==> g in order || g == gid;
  }

  /** The closure of the head lists exactly what the head reaches, once each and the head last; it
      fails exactly when something reached cannot be loaded; and it lists parents before children
      exactly when the history has no cycle. */
  method HeadClosure(links: Links, head: Option<Gid>) returns (r: Option<seq<Gid>>)
    ensures head == None ==> r == Some([])
    ensures head.Some? ==> (r.Some? <==> forall g :: Reaches(links, head.value, g) ==> g in links)
    ensures head.Some? && r.Some? ==>
      && Distinct(r.value) && r.value != [] && r.value[|r.value| - 1] == head.value
      && (forall g :: g in r.value <==> Reaches(links, head.value, g))
      && (ParentsFirst(links, r.value) <==> AcyclicFrom(links, head.value))
  {
    hide Reaches, Above, ParentsFirst;
    if head == None { return Some([]); }
    assert ParentsFirst(links, []) by { NothingListed(links); }
    var ok, visited, order := VisitClosure(links, head.value, {}, [], {});
    if !ok { return None; }
    ReachedSet(links, visited, head.value);
    if ParentsFirst(links, order) { OrderedAcyclic(links, order, head.value); }
    return Some(order);
  }

  lemma {:induction false} NothingListed(links: Links)
    ensures ParentsFirst(links, [])
  {
  }

  lemma {:induction false} OrderedAcyclic(links: Links, order: seq<Gid>, head: Gid)
    requires ParentsFirst(links, order) && Distinct(order) && forall g :: Reaches(links, head, g) ==> g in order
    ensures AcyclicFrom(links, head)
  {
    hide Reaches;
    forall g | Reaches(links, head, g) ensures !Above(links, g, g) {
      var i :| 0 <= i < |order| && order[i] == g;
      forall path | IsPath(links, path, g, g) && |path| >= 2 ensures false {
        var j := PathDescends(links, order, path, g, g, i);
      }
    }
  }

  lemma {:induction false} PathDescends(links: Links, order: seq<Gid>, path: seq<Gid>, a: Gid, b: Gid, i: nat)
    returns (j: nat)
    requires ParentsFirst(links, order) && i < |order| && order[i] == a && IsPath(links, path, a, b)
    ensures j <= i && order[j] == b && (|path| >= 2 ==> j < i)
    decreases |path|
  {
    if |path| == 1 {
      j := i;
    } else {
      var rest := path[1..];
      assert path[0 + 1] in links[path[0]];
      assert path[1] in order[..i];
      var k :| 0 <= k < i && order[k] == path[1];
      assert forall m :: 0 <= m < |rest| ==> rest[m] == path[m + 1];
      j := PathDescends(links, order, rest, path[1], b, k);
    }
  }

  // ---- Git parents ----

  type Oid = seq<byte>

  datatype Commit = Commit(change: Gid, parents: seq<Oid>)

  /** The commits of those parents that have one. */
  function Images(oids: map<Gid, Oid>, parents: seq<Gid>): (r: seq<Oid>)
    ensures |r| <= |parents|
    ensures |r| == |parents| <==> forall p :: p in parents ==> p in oids
  {
    if parents == [] then []
    else (if parents[0] in oids then [oids[parents[0]]] else []) + Images(oids, parents[1..])
  }

  function InsertOid(o: Oid, sorted: seq<Oid>): seq<Oid>
  {
    if sorted == [] || !Below(sorted[0], o) then [o] + sorted else [sorted[0]] + InsertOid(o, sorted[1..])
  }

  function SortOids(oids: seq<Oid>): seq<Oid>
  {
    if oids == [] then [] else InsertOid(oids[0], SortOids(oids[1..]))
  }

  ghost predicate Rising(oids: seq<Oid>)
  {
    forall i, j :: 0 <= i < j < |oids| ==> !Below(oids[j], oids[i])
  }

  lemma {:induction false} InsertRises(o: Oid, sorted: seq<Oid>)
    requires Rising(sorted)
    ensures Rising(InsertOid(o, sorted)) && multiset(InsertOid(o, sorted)) == multiset{o} + multiset(sorted)
  {
    hide Below;
    if sorted == [] {
    } else if !Below(sorted[0], o) {
      forall j | 0 <= j < |sorted| ensures !Below(sorted[j], o) {
        if Below(sorted[j], o) { BelowChain(sorted[j], o, sorted[0]); }
      }
    } else {
      BelowTotal(sorted[0], o);
      InsertRises(o, sorted[1..]);
      var rest := InsertOid(o, sorted[1..]);
      assert sorted == [sorted[0]] + sorted[1..];
      forall j | 0 <= j < |rest| ensures !Below(rest[j], sorted[0]) {
        assert rest[j] in multiset(rest);
        if rest[j] != o {
          assert rest[j] in sorted[1..];
          var k :| 0 <= k < |sorted[1..]| && sorted[1..][k] == rest[j];
          assert sorted[k + 1] == rest[j];
        }
      }
    }
  }

  lemma {:induction false} BelowChain(x: Oid, o: Oid, first: Oid)
    requires Below(x, o) && !Below(first, o)
    ensures Below(x, first)
  {
    BelowTotal(first, o);
    if first != o { BelowTransitive(x, o, first); }
  }

  /** A commit's parent list holds every image once and is in order. */
  lemma {:induction false} SortRises(oids: seq<Oid>)
    ensures Rising(SortOids(oids)) && multiset(SortOids(oids)) == multiset(oids) && |SortOids(oids)| == |oids|
  {
    hide InsertOid;
    if oids != [] {
      SortRises(oids[1..]);
      InsertRises(oids[0], SortOids(oids[1..]));
      assert oids == [oids[0]] + oids[1..];
      assert |multiset(SortOids(oids))| == |oids|;
    }
  }

  lemma {:induction false} ImagesGrow(oids: map<Gid, Oid>, oids': map<Gid, Oid>, parents: seq<Gid>)
    requires forall g :: g in oids ==> g in oids' && oids'[g] == oids[g]
    requires forall p :: p in parents ==> p in oids
    ensures Images(oids', parents) == Images(oids, parents)
  {
    if parents != [] { ImagesGrow(oids, oids', parents[1..]); }
  }

  /** Where every parent has a commit, the images are those commits in order, and a commit lists each once and in
      byte order. */
  lemma {:induction false} ParentImages(oids: map<Gid, Oid>, parents: seq<Gid>)
    requires forall p :: p in parents ==> p in oids
    ensures |Images(oids, parents)| == |parents|
    ensures forall i :: 0 <= i < |parents| ==> Images(oids, parents)[i] == oids[parents[i]]
    ensures Rising(SortOids(Images(oids, parents)))
      && multiset(SortOids(Images(oids, parents))) == multiset(Images(oids, parents))
  {
    hide SortOids, Rising;
    ImagesInOrder(oids, parents);
    SortRises(Images(oids, parents));
  }

  lemma {:induction false} ImagesInOrder(oids: map<Gid, Oid>, parents: seq<Gid>)
    requires forall p :: p in parents ==> p in oids
    ensures |Images(oids, parents)| == |parents|
    ensures forall i :: 0 <= i < |parents| ==> Images(oids, parents)[i] == oids[parents[i]]
  {
    if parents != [] { ImagesInOrder(oids, parents[1..]); }
  }

  /** How changes become commits: what a commit says apart from its parents (its tree, author and message),
      `None` when the change records no resulting state or something it needs cannot be read; and the
      identity of a commit. */
  datatype Git = Git(text: Gid -> Option<Text>, oid: (Text, seq<Oid>) -> Oid)

  type Text = seq<byte>

  function CommitId(git: Git, change: Gid, parents: seq<Oid>): Option<Oid>
  {
    match git.text(change)
    case None => None
    case Some(text) => Some(git.oid(text, parents))
  }

  /** The Git commits of a chain, made exactly when all of them can be described. Each commit's parents are
      exactly the commits of all its causal parents when the chain lists parents first, and only then is no
      parent dropped. */
  method ExportCommits(links: Links, chain: seq<Gid>, git: Git)
    returns (ok: bool, commits: seq<Commit>, oids: map<Gid, Oid>)
    requires Distinct(chain) && forall g :: g in chain ==> g in links
    ensures ok <==> forall g :: g in chain ==> git.text(g).Some?
    ensures ok ==> |commits| == |chain| && forall g :: g in oids <==> g in chain
    ensures ok ==> forall i :: 0 <= i < |chain| ==>
        commits[i].change == chain[i] && Some(oids[chain[i]]) == CommitId(git, chain[i], commits[i].parents)
    ensures ok && ParentsFirst(links, chain) ==>
      forall i :: 0 <= i < |chain| ==> commits[i].parents == SortOids(Images(oids, links[chain[i]]))
    ensures ok ==>
      (ParentsFirst(links, chain) <==> forall i :: 0 <= i < |chain| ==> |commits[i].parents| == |links[chain[i]]|)
  {
    hide Below, SortOids, Images, ParentsFirst;
    commits, oids := [], map[];
    for i := 0 to |chain|
      invariant |commits| == i && forall g :: g in oids <==> g in chain[..i]
      invariant forall j :: 0 <= j < i ==> CommitAt(links, chain, commits, oids, git, j)
      invariant forall g :: g in chain[..i] ==> git.text(g).Some?
    {
      var change := chain[i];
      var text := git.text(change);
      if text == None { return false, commits, oids; }
      var parents := SortOids(Images(oids, links[change]));
      SortRises(Images(oids, links[change]));
      var oid := git.oid(text.value, parents);
      ghost var before := oids;
      assert change !in chain[..i];
      commits := commits + [Commit(change, parents)];
      oids := oids[change := oid];
      assert chain[..i + 1] == chain[..i] + [change];
      forall j | 0 <= j < i + 1 ensures CommitAt(links, chain, commits, oids, git, j) {
        if j < i {
          assert CommitAt(links, chain, commits[..i], before, git, j);
          CommitKept(links, chain, commits[..i], commits, before, oids, git, j);
        } else {
          ParentsKnown(links, chain, before, i);
          if forall p :: p in links[change] ==> p in chain[..i] { ImagesGrow(before, oids, links[change]); }
        }
      }
    }
    assert chain[..|chain|] == chain;
    NoneDropped(links, chain, commits, oids, git);
    ok := true;
  }

  /** The whole export, from the head to the commits: one commit for every change the head reaches. It fails
      exactly when one of these changes cannot be loaded or cannot be described, as one without a resulting
      state. On a history without cycles every commit has the commits of all its causal parents, and only
      there is no parent dropped. */
  method ExportHistory(links: Links, head: Option<Gid>, git: Git) returns (r: Option<(seq<Commit>, map<Gid, Oid>)>)
    ensures head == None ==> r == Some(([], map[]))
    ensures head.Some? ==> (r.Some? <==> forall g :: Reaches(links, head.value, g) ==> g in links && git.text(g).Some?)
    ensures head.Some? && r.Some? ==> var (commits, oids) := r.value;
      && (forall g :: g in oids <==> Reaches(links, head.value, g))
      && OneCommitEach(links, commits, oids, git) && commits != [] && commits[|commits| - 1].change == head.value
      && (AcyclicFrom(links, head.value)
          <==> forall i :: 0 <= i < |commits| ==> |commits[i].parents| == |links[commits[i].change]|)
      && (AcyclicFrom(links, head.value) ==>
          forall i :: 0 <= i < |commits| ==> commits[i].parents == SortOids(Images(oids, links[commits[i].change])))
  {
    hide Reaches, AcyclicFrom, ParentsFirst, SortOids, Images;
    var chain := HeadClosure(links, head);
    if chain == None { return None; }
    var ok, commits, oids := ExportCommits(links, chain.value, git);
    if !ok { return None; }
    AsManyKeys(chain.value, oids);
    return Some((commits, oids));
  }

  lemma {:induction false} AsManyKeys(chain: seq<Gid>, oids: map<Gid, Oid>)
    requires Distinct(chain) && forall g :: g in oids <==> g in chain
    ensures |oids| == |chain|
  {
    if chain == [] {
      assert oids == map[];
    } else {
      var last := chain[|chain| - 1];
      var front := chain[..|chain| - 1];
      assert last !in front;
      AsManyKeys(front, oids - {last});
      assert oids.Keys == (oids - {last}).Keys + {last};
    }
  }

  /** Each change with a commit has one, whose identity is that of its text and its parents. */
  ghost predicate OneCommitEach(links: Links, commits: seq<Commit>, oids: map<Gid, Oid>, git: Git)
  {
    && |commits| == |oids| && (forall i, j :: 0 <= i < j < |commits| ==> commits[i].change != commits[j].change)
    && forall i :: 0 <= i < |commits| ==> var c := commits[i];
         && c.change in links && c.change in oids && git.text(c.change).Some?
         && oids[c.change] == git.oid(git.text(c.change).value, c.parents)
  }

  /** What holds of one exported commit. */
  ghost predicate CommitAt(links: Links, chain: seq<Gid>, commits: seq<Commit>, oids: map<Gid, Oid>,
        git: Git, j: nat)
    requires j < |chain| && j < |commits|
  {
    var change, parents := chain[j], commits[j].parents;
    && commits[j].change == change && change in links && change in oids
        && Some(oids[change]) == CommitId(git, change, parents)
    && (|parents| == |links[change]| <==> forall p :: p in links[change] ==> p in chain[..j])
    && (|parents| == |links[change]| ==>
        (forall p :: p in links[change] ==> p in oids) && parents == SortOids(Images(oids, links[change])))
  }

  lemma {:induction false} ParentsKnown(links: Links, chain: seq<Gid>, oids: map<Gid, Oid>, i: nat)
    requires i < |chain| && chain[i] in links && forall g :: g in oids <==> g in chain[..i]
    ensures |Images(oids, links[chain[i]])| == |links[chain[i]]|
        <==> forall p :: p in links[chain[i]] ==> p in chain[..i]
  {
  }

  lemma {:induction false} CommitKept(links: Links, chain: seq<Gid>, commits: seq<Commit>, commits': seq<Commit>,
        oids: map<Gid, Oid>, oids': map<Gid, Oid>, git: Git, j: nat)
    requires j < |chain| && j < |commits| && commits <= commits' && CommitAt(links, chain, commits, oids, git, j)
    requires forall g :: g in oids ==> g in oids' && oids'[g] == oids[g]
    ensures CommitAt(links, chain, commits', oids', git, j)
  {
    hide Images, SortOids;
    assert commits'[j] == commits[j];
    if |commits[j].parents| == |links[chain[j]]| { ImagesGrow(oids, oids', links[chain[j]]); }
  }

  lemma {:induction false} NoneDropped(links: Links, chain: seq<Gid>, commits: seq<Commit>, oids: map<Gid, Oid>,
        git: Git)
    requires |commits| == |chain| && forall g :: g in chain ==> g in links
    requires forall j :: 0 <= j < |chain| ==> CommitAt(links, chain, commits, oids, git, j)
    ensures forall i :: 0 <= i < |chain| ==>
      commits[i].change == chain[i] && chain[i] in oids
          && Some(oids[chain[i]]) == CommitId(git, chain[i], commits[i].parents)
    ensures ParentsFirst(links, chain) <==> forall i :: 0 <= i < |chain| ==> |commits[i].parents| == |links[chain[i]]|
    ensures ParentsFirst(links, chain) ==>
      forall i :: 0 <= i < |chain| ==> commits[i].parents == SortOids(Images(oids, links[chain[i]]))
  {
    hide Images, SortOids;
    forall i | 0 <= i < |chain|
      ensures commits[i].change == chain[i] && chain[i] in oids
          && Some(oids[chain[i]]) == CommitId(git, chain[i], commits[i].parents)
    {
      assert CommitAt(links, chain, commits, oids, git, i);
    }
    if ParentsFirst(links, chain) {
      forall i | 0 <= i < |chain|
        ensures |commits[i].parents| == |links[chain[i]]|
            && commits[i].parents == SortOids(Images(oids, links[chain[i]]))
      {
        assert CommitAt(links, chain, commits, oids, git, i);
      }
    }
    if forall i :: 0 <= i < |chain| ==> |commits[i].parents| == |links[chain[i]]| {
      forall i, p | 0 <= i < |chain| && chain[i] in links && p in links[chain[i]] ensures p in chain[..i] {
        assert CommitAt(links, chain, commits, oids, git, i);
      }
    }
  }

  // ---- Persistence ----

  function Kids(children: map<Gid, seq<Gid>>, p: Gid): seq<Gid> { if p in children then children[p] else [] }

  /** Changes by the changes that have them as a causal parent, over the changes seen so far. */
  ghost predicate ChildrenOf(links: Links, seen: set<Gid>, children: map<Gid, seq<Gid>>)
  {
    forall p, k :: k in Kids(children, p) <==> k in seen && k in links && p in links[k]
  }

  lemma {:induction false} PushKid(children: map<Gid, seq<Gid>>, p: Gid, c: Gid, q: Gid)
    ensures Kids(children[p := Kids(children, p) + [c]], q) == if q == p then Kids(children, p) + [c]
      else Kids(children, q)
  {
  }

  method AddChild(children: map<Gid, seq<Gid>>, parents: seq<Gid>, c: Gid) returns (r: map<Gid, seq<Gid>>)
    ensures forall p, k :: k in Kids(r, p) <==> k in Kids(children, p) || (k == c && p in parents)
  {
    hide Kids;
    r := children;
    for i := 0 to |parents|
      invariant forall p, k :: k in Kids(r, p) <==> k in Kids(children, p) || (k == c && p in parents[..i])
    {
      var p := parents[i];
      ghost var before := r;
      r := r[p := Kids(r, p) + [c]];
      assert parents[..i + 1] == parents[..i] + [p];
      forall q, k ensures k in Kids(r, q) <==> k in Kids(children, q) || (k == c && q in parents[..i + 1]) {
        PushKid(before, p, c, q);
      }
    }
    assert parents[..|parents|] == parents;
  }

  lemma {:induction false} OneMoreSeen(links: Links, seen: set<Gid>, children: map<Gid, seq<Gid>>, c: Gid,
        children': map<Gid, seq<Gid>>)
    requires ChildrenOf(links, seen, children)
    requires forall p, k ::
      k in Kids(children', p) <==> k in Kids(children, p) || (k == c && c in links && p in links[c])
    ensures ChildrenOf(links, seen + {c}, children')
  {
    hide Kids;
  }

  /** Everything the head reaches. */
  ghost function FromHead(links: Links, head: Option<Gid>): (nodes: set<Gid>)
    ensures forall g :: g in nodes <==> head.Some? && Reaches(links, head.value, g)
  {
    if head == None then {}
    else
      var all := Nodes(links) + {head.value};
      ReachesSelf(links, head.value);
      ReachedSet(links, all, head.value);
      set g | g in all && Reaches(links, head.value, g)
  }

  /** The reverse of the causal-parent relation over what the head reaches. */
  method ReachedChildren(links: Links, head: Option<Gid>) returns (children: map<Gid, seq<Gid>>)
    ensures ChildrenOf(links, FromHead(links, head), children)
  {
    hide Reaches, ChildrenOf, Walking, Nodes, Kids, FromHead;
    children := map[];
    var visited: set<Gid> := {};
    ghost var roots := if head.Some? then [head.value] else [];
    var stack := if head.Some? then [head.value] else [];
    ghost var all := Nodes(links) + set g | g in roots;
    WalkStarts(links, roots);
    NoneSeen(links);
    while stack != []
      invariant ChildrenOf(links, visited, children) && Walking(links, roots, visited, stack)
      decreases |all - visited|, |stack|
    {
      var c := stack[|stack| - 1];
      assert stack == stack[..|stack| - 1] + [c];
      stack := stack[..|stack| - 1];
      if c in visited {
        WalkSkips(links, roots, visited, stack, c);
      } else {
        WalkGoesOn(links, roots, visited, stack, c);
        SmallerLeft(all, visited, visited + {c}, c);
        ghost var before := children;
        if c in links {
          children := AddChild(children, links[c], c);
          stack := stack + links[c];
        } else {
          assert stack + [] == stack;
        }
        OneMoreSeen(links, visited, before, c, children);
        visited := visited + {c};
      }
    }
    WalkDone(links, roots, visited);
    assert visited == FromHead(links, head) by { RootsOfHead(links, head, visited); }
  }

  lemma {:induction false} RootsOfHead(links: Links, head: Option<Gid>, visited: set<Gid>)
    requires forall g :: g in visited <==> ReachedFrom(links, if head.Some? then [head.value] else [], g)
    ensures visited == FromHead(links, head)
  {
    hide Reaches, FromHead;
  }

  lemma {:induction false} NoneSeen(links: Links)
    ensures ChildrenOf(links, {}, map[])
  {
  }

  /** The changes the head reaches that have an affected change as a strict ancestor. */
  ghost predicate Descends(links: Links, head: Option<Gid>, affected: seq<Gid>, k: Gid)
  {
    head.Some? && Reaches(links, head.value, k) && exists a :: a in affected && Above(links, k, a)
  }

  /** The changes that make a residual persist. */
  ghost function Descendants(links: Links, head: Option<Gid>, affected: seq<Gid>): (those: set<Gid>)
    ensures forall k :: k in those <==> Descends(links, head, affected, k)
  {
    set k | k in FromHead(links, head) && Descends(links, head, affected, k)
  }

  /** Persistence counts exactly the changes the head reaches that descend from an affected change. */
  method ResidualPersistence(links: Links, head: Option<Gid>, affected: seq<Gid>) returns (count: nat)
    ensures count == |Descendants(links, head, affected)|
  {
    hide Reaches, Above, Descends, FromHead, Descendants;
    var children := ReachedChildren(links, head);
    ghost var seen := FromHead(links, head);
    count := 0;
    var queue := affected;
    var visited: set<Gid> := {};
    while queue != []
      invariant count == |visited| && visited <= seen
      invariant forall k :: k in visited ==> Descends(links, head, affected, k)
      invariant forall g :: g in queue ==> g in affected || g in visited
      invariant forall g, k :: (g in affected || g in visited) && g !in queue && k in Kids(children, g) ==> k in visited
      decreases |seen - visited|, |queue|
    {
      var node := queue[|queue| - 1];
      ghost var before, had := queue, visited;
      queue := queue[..|queue| - 1];
      assert before == queue + [node];
      if node in children {
        assert children[node] == Kids(children, node);
        count, visited, queue := CountKids(links, head, affected, seen, node, children[node], count, visited, queue);
        FewerLeft(seen, had, visited);
        assert visited == had ==> queue == before[..|before| - 1];
        if visited != had { Fewer(seen, had, visited); }
      }
    }
    forall k | Descends(links, head, affected, k) ensures k in visited {
      DescendantCounted(links, head, affected, seen, children, visited, k);
    }
    assert visited == Descendants(links, head, affected);
  }

  /** The children of one node: those not yet visited are counted and queued. */
  method CountKids(links: Links, head: Option<Gid>, affected: seq<Gid>, ghost seen: set<Gid>, node: Gid, kids: seq<Gid>,
        count: nat, visited: set<Gid>, queue: seq<Gid>)
    returns (count': nat, visited': set<Gid>, queue': seq<Gid>)
    requires count == |visited| && visited <= seen
    requires forall g :: g in seen <==> head.Some? && Reaches(links, head.value, g)
    requires forall k :: k in kids ==> k in seen && k in links && node in links[k]
    requires node in affected || (node in visited && Descends(links, head, affected, node))
    requires forall k :: k in visited ==> Descends(links, head, affected, k)
    ensures count' == |visited'| && visited <= visited' <= seen
    ensures forall k :: k in visited' <==> k in visited || k in kids
    ensures forall k :: k in visited' ==> Descends(links, head, affected, k)
    ensures queue <= queue' && forall g :: g in queue' <==> g in queue || (g in visited' && g !in visited)
    ensures visited' == visited ==> queue' == queue
  {
    hide Reaches, Above, Descends;
    count', visited', queue' := count, visited, queue;
    for i := 0 to |kids|
      invariant count' == |visited'| && visited <= visited' <= seen
      invariant forall k :: k in visited' <==> k in visited || k in kids[..i]
      invariant forall k :: k in visited' ==> Descends(links, head, affected, k)
      invariant queue <= queue' && forall g :: g in queue' <==> g in queue || (g in visited' && g !in visited)
      invariant visited' == visited ==> queue' == queue
    {
      var k := kids[i];
      assert kids[..i + 1] == kids[..i] + [k];
      assert k in kids;
      if k !in visited' {
        KidDescends(links, head, affected, node, k);
        visited' := visited' + {k};
        count' := count' + 1;
        queue' := queue' + [k];
      }
    }
    assert kids[..|kids|] == kids;
  }

  lemma {:induction false} KidDescends(links: Links, head: Option<Gid>, affected: seq<Gid>, node: Gid, k: Gid)
    requires head.Some? && Reaches(links, head.value, k) && k in links && node in links[k]
    requires node in affected || Descends(links, head, affected, node)
    ensures Descends(links, head, affected, k)
  {
    hide Reaches, Above;
    if node in affected {
      ReachesSelf(links, node);
      LinkAbove(links, k, node, node);
    } else {
      var a :| a in affected && Above(links, node, a);
      AboveReaches(links, node, a);
      LinkAbove(links, k, node, a);
    }
  }

  lemma {:induction false} DescendantCounted(links: Links, head: Option<Gid>, affected: seq<Gid>, seen: set<Gid>,
        children: map<Gid, seq<Gid>>, visited: set<Gid>, k: Gid)
    requires ChildrenOf(links, seen, children)
    requires forall g :: g in seen <==> head.Some? && Reaches(links, head.value, g)
    requires forall g, k :: (g in affected || g in visited) && k in Kids(children, g) ==> k in visited
    requires Descends(links, head, affected, k)
    ensures k in visited
  {
    hide Reaches;
    var a :| a in affected && Above(links, k, a);
    var path :| IsPath(links, path, k, a) && |path| >= 2;
    AlongPath(links, head, affected, seen, children, visited, path, k, a);
  }

  lemma {:induction false} AlongPath(links: Links, head: Option<Gid>, affected: seq<Gid>, seen: set<Gid>,
        children: map<Gid, seq<Gid>>, visited: set<Gid>,
                                     path: seq<Gid>, k: Gid, a: Gid)
    requires ChildrenOf(links, seen, children)
    requires forall g :: g in seen <==> head.Some? && Reaches(links, head.value, g)
    requires forall g, k :: (g in affected || g in visited) && k in Kids(children, g) ==> k in visited
    requires head.Some? && Reaches(links, head.value, k) && a in affected && IsPath(links, path, k, a) && |path| >= 2
    ensures k in visited
    decreases |path|
  {
    hide Reaches, Above;
    var next := path[1];
    assert path[0 + 1] in links[path[0]];
    ReachesLink(links, head.value, k, next);
    AboveReaches(links, head.value, next);
    if |path| > 2 {
      var rest := path[1..];
      assert forall i :: 0 <= i < |rest| ==> rest[i] == path[i + 1];
      AlongPath(links, head, affected, seen, children, visited, rest, next, a);
    }
    assert next in affected || next in visited;
    assert k in Kids(children, next);
  }
}
