/** Collecting the objects of an export (src/exchange/export.rs, `collect_export_objects`), and what the
    packs built from them hold. */
module Export {
  import opened Paths
  import opened Wrappers
  import opened Objects
  import opened Graph
  import opened Store
  import opened Packs
  import opened PackPrograms

  ghost function Families(): set<Family>
  {
    {1, 2, 3, 4, 5, 6, 7, 8, 9, 10, 11, 12, 13, 14, 15, 16, 17, 18, 19, 20, 21, 22, 23, 24}
  }

  /** The loadable objects with what they refer to; nothing is followed from a blob. */
  ghost function ExportLinks(objects: ObjectMap, edges: Object -> seq<Gid>, w: World): Links
  {
    map g | g in (set d, f | d in objects && f in Families() :: Gid(f, d)) && Load(objects, g, w).Ok?
      :: if g.family == BLOB then [] else edges(Load(objects, g, w).value)
  }

  lemma {:induction false} LinksAt(objects: ObjectMap, edges: Object -> seq<Gid>, w: World, g: Gid)
    ensures var links := ExportLinks(objects, edges, w);
      && (g in links <==> Load(objects, g, w).Ok?)
      && (g in links ==> links[g] == if g.family == BLOB then [] else edges(Load(objects, g, w).value))
  {
    assert g.family in Families();
  }

  predicate EncodedBy(objects: ObjectMap, o: PackObject)
  {
    o.id.digest in objects && o.envelope == objects[o.id.digest]
  }

  /** What can be loaded is genuine as a pack object. */
  lemma {:induction false} LoadedGenuine(objects: ObjectMap, g: Gid, w: World)
    requires Load(objects, g, w).Ok?
    ensures g.digest in objects && Genuine(PackObject(g, objects[g.digest]), w)
        && |objects[g.digest]| <= w.limits.maxObjectBytes
  {
  }

  function InsertObject(o: PackObject, sorted: seq<PackObject>): seq<PackObject>
  {
    if sorted == [] || !GidBelow(sorted[0].id, o.id) then [o] + sorted else [sorted[0]] + InsertObject(o, sorted[1..])
  }

  function SortObjects(objects: seq<PackObject>): seq<PackObject>
  {
    if objects == [] then [] else InsertObject(objects[0], SortObjects(objects[1..]))
  }

  ghost predicate IdsDistinct(objects: seq<PackObject>)
  {
    forall i, j :: 0 <= i < j < |objects| ==> objects[i].id != objects[j].id
  }

  lemma {:induction false} GidOrder(g: Gid, h: Gid)
    ensures GidBelow(g, h) || g == h || GidBelow(h, g)
  {
    BelowTotal(g.ToBytes(), h.ToBytes());
    if g.ToBytes() == h.ToBytes() {
      assert g.ToBytes()[0] == h.ToBytes()[0] && g.ToBytes()[1..] == g.digest && h.ToBytes()[1..] == h.digest;
    }
  }

  lemma {:induction false} InsertStrict(o: PackObject, sorted: seq<PackObject>, prev: Option<Gid>)
    requires Strict(sorted, prev) && (prev.Some? ==> GidBelow(prev.value, o.id))
    requires forall x :: x in sorted ==> x.id != o.id
    ensures Strict(InsertObject(o, sorted), prev)
    ensures forall x :: x in InsertObject(o, sorted) <==> x == o || x in sorted
  {
    hide GidBelow;
    var r := InsertObject(o, sorted);
    if sorted != [] {
      GidOrder(sorted[0].id, o.id);
      if GidBelow(sorted[0].id, o.id) {
        InsertStrict(o, sorted[1..], Some(sorted[0].id));
        assert r[1..] == InsertObject(o, sorted[1..]);
      } else {
        assert r[1..] == sorted;
      }
    } else {
      assert r[1..] == [];
    }
  }

  lemma {:induction false} SortStrict(objects: seq<PackObject>)
    requires IdsDistinct(objects)
    ensures Strict(SortObjects(objects), None)
    ensures forall x :: x in SortObjects(objects) <==> x in objects
  {
    hide InsertObject, Strict;
    if objects != [] {
      SortStrict(objects[1..]);
      InsertStrict(objects[0], SortObjects(objects[1..]), None);
    } else {
      assert Strict([], None) by { NoneStrict(); }
    }
  }

  lemma {:induction false} NoneStrict()
    ensures Strict([], None)
  {
  }

  predicate Included(g: Gid, includeBlobs: bool) { includeBlobs || g.family != BLOB }

  /** What is collected is exactly what has been visited, less the blobs of a profile without them. */
  ghost predicate Collected(objects: ObjectMap, visited: set<Gid>, out: seq<PackObject>, includeBlobs: bool, w: World)
  {
    && IdsDistinct(out)
    && (forall o :: o in out <==> o.id in visited && Included(o.id, includeBlobs) && EncodedBy(objects, o))
    && forall g :: g in visited ==> Load(objects, g, w).Ok?
  }

  lemma {:induction false} CollectOne(objects: ObjectMap, visited: set<Gid>, out: seq<PackObject>, includeBlobs: bool,
        w: World, g: Gid)
    requires Collected(objects, visited, out, includeBlobs, w) && g !in visited && Load(objects, g, w).Ok?
    ensures g.digest in objects
    ensures Collected(objects, visited + {g}, out + if Included(g, includeBlobs) then [PackObject(g, objects[g.digest])]
      else [], includeBlobs, w)
  {
    hide Load;
    LoadedGenuine(objects, g, w);
    if Included(g, includeBlobs) {
      var o := PackObject(g, objects[g.digest]);
      assert forall i :: 0 <= i < |out| ==> out[i] in out;
      assert forall x :: x in out + [o] <==> x in out || x == o;
    } else {
      assert out + [] == out;
    }
  }

  /** The collected list is ascending, holds genuine objects only, and holds exactly what the seeds
      reach; collecting fails exactly when something reached cannot be loaded. */
  method CollectExportObjects(objects: ObjectMap, seeds: seq<Gid>, includeBlobs: bool, edges: Object -> seq<Gid>,
        w: World)
    returns (r: Result<seq<PackObject>, Gid>)
    ensures var links := ExportLinks(objects, edges, w);
      r.Ok? <==> forall g :: ReachedFrom(links, seeds, g) ==> Load(objects, g, w).Ok?
    ensures r.Ok? ==> Strict(r.value, None) && AllGenuine(r.value, w)
    ensures r.Ok? ==> forall o :: o in r.value ==> |o.envelope| <= w.limits.maxObjectBytes
    ensures r.Ok? ==> forall o :: o in r.value <==>
      ReachedFrom(ExportLinks(objects, edges, w), seeds, o.id) && (includeBlobs || o.id.family != 0x01)
      && EncodedBy(objects, o)
  {
    hide Load, ExportLinks, ReachedFrom, Walking, Nodes, Collected, EncodedBy;
    ghost var links := ExportLinks(objects, edges, w);
    ghost var all := Nodes(links) + set g | g in seeds;
    var visited: set<Gid> := {};
    var out: seq<PackObject> := [];
    var queue := seeds;
    WalkStarts(links, seeds);
    assert Collected(objects, {}, [], includeBlobs, w) by { NothingCollected(objects, includeBlobs, w); }
    while queue != []
      invariant Walking(links, seeds, visited, queue) && Collected(objects, visited, out, includeBlobs, w)
      decreases |all - visited|, |queue|
    {
      var id := queue[|queue| - 1];
      assert queue == queue[..|queue| - 1] + [id];
      queue := queue[..|queue| - 1];
      if id in visited {
        WalkSkips(links, seeds, visited, queue, id);
      } else {
        WalkGoesOn(links, seeds, visited, queue, id);
        SmallerLeft(all, visited, visited + {id}, id);
        LinksAt(objects, edges, w, id);
        var obj := Load(objects, id, w);
        if obj.Err? { return Err(id); }
        CollectOne(objects, visited, out, includeBlobs, w, id);
        if id.family != BLOB {
          out := out + [PackObject(id, objects[id.digest])];
          queue := queue + edges(obj.value);
        } else {
          if includeBlobs { out := out + [PackObject(id, objects[id.digest])]; } else { assert out + [] == out; }
          assert queue + [] == queue;
        }
        visited := visited + {id};
      }
    }
    WalkDone(links, seeds, visited);
    CollectedSorted(objects, visited, out, includeBlobs, w);
    return Ok(SortObjects(out));
  }

  lemma {:induction false} NothingCollected(objects: ObjectMap, includeBlobs: bool, w: World)
    ensures Collected(objects, {}, [], includeBlobs, w)
  {
  }

  lemma {:induction false} CollectedSorted(objects: ObjectMap, visited: set<Gid>, out: seq<PackObject>,
        includeBlobs: bool, w: World)
    requires Collected(objects, visited, out, includeBlobs, w)
    ensures var r := SortObjects(out);
      && Strict(r, None) && AllGenuine(r, w)
      && (forall o :: o in r ==> |o.envelope| <= w.limits.maxObjectBytes)
      && (forall o :: o in r <==> o.id in visited && Included(o.id, includeBlobs) && EncodedBy(objects, o))
      && forall g :: g in visited ==> Load(objects, g, w).Ok?
  {
    hide Load, Genuine, SortObjects, Strict;
    SortStrict(out);
    forall o | o in SortObjects(out) ensures Genuine(o, w) && |o.envelope| <= w.limits.maxObjectBytes {
      LoadedGenuine(objects, o.id, w);
      assert o == PackObject(o.id, objects[o.id.digest]);
    }
  }

  datatype ExportError = Unloadable(id: Gid) | Unpackable(pack: PackError)

  /** From the store to the packs: the export fails exactly when something reached cannot be loaded or an
      exported object is longer than a 32-bit length. Where the receiver, with its own limits, takes every
      object as genuine, decoding the packs there gives every exported object back exactly once, precisely
      when each object alone is within the decoder's pack limit. */
  method ExportPacks(objects: ObjectMap, seeds: seq<Gid>, includeBlobs: bool, edges: Object -> seq<Gid>, w: World,
        ghost receiver: World)
    returns (r: Result<seq<Artifact>, ExportError>, ghost exported: seq<PackObject>)
    requires receiver.hash == w.hash
    ensures r.Ok? || r.error.Unpackable?
        <==> forall g :: ReachedFrom(ExportLinks(objects, edges, w), seeds, g) ==> Load(objects, g, w).Ok?
    ensures r.Ok? || r.error.Unpackable? ==> forall o :: o in exported <==>
      ReachedFrom(ExportLinks(objects, edges, w), seeds, o.id) && (includeBlobs || o.id.family != 0x01)
      && EncodedBy(objects, o)
    ensures r.Ok? || r.error.Unpackable? ==> Strict(exported, None) && (r.Ok? <==> AllShort(exported))
    ensures r.Ok? && AllGenuine(exported, receiver) ==>
      (Contents(r.value, receiver) == multiset(exported) <==> forall o :: o in exported ==> Carried(o))
    ensures r.Ok? && receiver == w ==> AllGenuine(exported, receiver)
    ensures r.Ok? ==> InIdOrder(r.value) && forall p :: p in r.value ==> p.id == w.hash(p.bytes)
  {
    hide Load, ExportLinks, ReachedFrom, Genuine, Strict, Contents, Built, Carried, EncodedBy, InIdOrder;
    exported := [];
    var collected := CollectExportObjects(objects, seeds, includeBlobs, edges, w);
    if collected.Err? { return Err(Unloadable(collected.error)), []; }
    exported := collected.value;
    var packs := BuildPacks(collected.value, w);
    BuiltWhen(exported, w);
    if packs.Err? { return Err(Unpackable(packs.error)), exported; }
    BuiltIds(exported, w);
    SameBuilt(exported, w, receiver);
    if AllGenuine(exported, receiver) { BuiltHolds(exported, [], receiver); }
    return Ok(packs.value), exported;
  }
}
