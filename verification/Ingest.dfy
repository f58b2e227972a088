/** The ingestion pass (src/exchange/ingest.rs): quarantine first, then promotion, then refs. What was
    imported stays stored with everything it builds on, and a second pass over the same disk does nothing. */
module Ingest {
  import opened Varint
  import opened Wrappers
  import opened Objects
  import Codec
  import CodecLaws
  import Conformance
  import Validate
  import opened Store
  import opened Packs
  import opened Quarantine

  const CONFIG: Family := 0x15

  datatype RefName =
    | Head | StateHead | CurrentTrajectory | Config | ImportedFrontier(id: Digest) | OtherRef(name: string)

  ghost predicate HasObject(objects: ObjectMap, o: PackObject)
  {
    o.id.digest in objects && objects[o.id.digest] == o.envelope
  }

  /** The first configuration among objects. */
  function FirstConfig(objects: seq<PackObject>): Option<Gid>
  {
    if objects == [] then None
    else if objects[0].id.family == CONFIG then Some(objects[0].id)
    else FirstConfig(objects[1..])
  }

  ghost predicate IsFirstConfig(objects: seq<PackObject>, config: Option<Gid>)
  {
    match config
    case None => forall o :: o in objects ==> o.id.family != 0x15
    case Some(g) => exists k :: ConfigAt(objects, k, g)
  }

  ghost predicate ConfigAt(objects: seq<PackObject>, k: int, g: Gid)
  {
    0 <= k < |objects| && objects[k].id == g && g.family == 0x15
    && forall j :: 0 <= j < k ==> objects[j].id.family != 0x15
  }

  lemma {:induction false} FirstConfigExactly(objects: seq<PackObject>)
    ensures IsFirstConfig(objects, FirstConfig(objects))
  {
    if objects != [] {
      var rest := objects[1..];
      FirstConfigExactly(rest);
      if objects[0].id.family == CONFIG {
        assert ConfigAt(objects, 0, objects[0].id);
      } else if FirstConfig(rest).Some? {
        var k :| ConfigAt(rest, k, FirstConfig(rest).value);
        assert forall j :: 0 < j < |objects| ==> objects[j] == rest[j - 1];
        assert ConfigAt(objects, k + 1, FirstConfig(rest).value);
      }
    }
  }

  /** The first `n` validated objects are stored, and nothing else has been added. */
  ghost predicate Promoting(first: ObjectMap, objects: ObjectMap, pending: seq<PackObject>, n: nat)
    requires n <= |pending|
  {
    Grows(first, objects) && AddedFrom(first, objects, pending) && forall j :: 0 <= j < n ==>
        HasObject(objects, pending[j])
  }

  lemma {:induction false} PromoteStarts(objects: ObjectMap, pending: seq<PackObject>)
    ensures Promoting(objects, objects, pending, 0) && pending[0..] == pending
  {
  }

  lemma {:induction false} PromoteHolds(first: ObjectMap, objects: ObjectMap, pending: seq<PackObject>, n: nat)
    requires n <= |pending| && Promoting(first, objects, pending, n)
    ensures Grows(first, objects) && AddedFrom(first, objects, pending)
    ensures n == |pending| ==> forall o :: o in pending ==> HasObject(objects, o)
  {
  }

  lemma {:induction false} PromoteNext(first: ObjectMap, objects: ObjectMap, pending: seq<PackObject>, i: nat)
    requires i < |pending| && Promoting(first, objects, pending, i)
    requires pending[i].id.digest in objects ==> objects[pending[i].id.digest] == pending[i].envelope
    ensures Promoting(first, objects[pending[i].id.digest := pending[i].envelope], pending, i + 1)
  {
    var later := objects[pending[i].id.digest := pending[i].envelope];
    forall d | d in later && d !in first
      ensures exists o :: o in pending && o.id.digest == d && o.envelope == later[d]
    {
      if d == pending[i].id.digest {
        assert pending[i] in pending;
      } else {
        var o :| o in pending && o.id.digest == d && o.envelope == objects[d];
      }
    }
  }

  lemma {:induction false} ConfigNext(pending: seq<PackObject>, i: nat)
    requires i < |pending|
    ensures FirstConfig(pending[i..]) == if pending[i].id.family == CONFIG then Some(pending[i].id)
      else FirstConfig(pending[i + 1..])
  {
    assert pending[i..][0] == pending[i] && pending[i..][1..] == pending[i + 1..];
  }

  lemma {:induction false} PromoteEnds(pending: seq<PackObject>)
    ensures FirstConfig(pending[|pending|..]) == None
  {
  }

  /** Every object of every pack of the closure is stored. */
  ghost predicate ClosureStored(s: Setting, objects: ObjectMap, root: Frontier)
  {
    forall f, hex, o :: InClosure(s, root, f) && hex in f.packs && FromPack(s, hex, o) ==> HasObject(objects, o)
  }

  ghost predicate PacksStored(s: Setting, objects: ObjectMap, processed: set<Hex>)
  {
    forall hex, o :: hex in processed && FromPack(s, hex, o) ==> HasObject(objects, o)
  }

  /** What was added is from these objects. */
  ghost predicate AddedFrom(objects: ObjectMap, objects': ObjectMap, pending: seq<PackObject>)
  {
    forall d :: d in objects' && d !in objects ==>
        exists o :: o in pending && o.id.digest == d && o.envelope == objects'[d]
  }

  /** What was added belongs to the closure of a frontier that is sound throughout. */
  ghost predicate FromClosure(s: Setting, root: Frontier, d: Digest, bytes: seq<byte>)
  {
    AllSound(s, root) && exists f, hex, o ::
        InClosure(s, root, f) && hex in f.packs && FromPack(s, hex, o) && o.id.digest == d && o.envelope == bytes
  }

  ghost predicate AddedFromClosure(s: Setting, objects: ObjectMap, objects': ObjectMap, root: Frontier)
  {
    forall d :: d in objects' && d !in objects ==> FromClosure(s, root, d, objects'[d])
  }

  class Local {
    const w: World
    var objects: ObjectMap
    var refs: map<RefName, Gid>
    var imported: set<Digest>
    var active: Option<Digest>

    constructor (w: World)
      ensures this.w == w && objects == map[] && refs == map[] && imported == {} && active == None
    {
      this.w := w;
      objects, refs, imported, active := map[], map[], {}, None;
    }

    /** Storing what the quarantine let through under its own limits. Where the store has the same limits, only
        bytes already under an identity, or an envelope that is too large with its header, can be in the way. */
    method Promote(pending: seq<PackObject>, ghost checked: World)
      returns (r: Result<nat, IngestError>, config: Option<Gid>)
      requires SameObjects(checked, w) && AllGenuine(pending, checked)
      modifies this`objects
      ensures Grows(old(objects), objects) && AddedFrom(old(objects), objects, pending)
      ensures r.Ok? ==> r.value == |pending| && forall o :: o in pending ==> HasObject(objects, o)
      ensures r.Err? ==> r.error.NotPromoted?
      ensures r.Err? && checked.limits == w.limits ==>
          r.error == NotPromoted(HashCollision) || r.error == NotPromoted(TooLarge)
      ensures r.Ok? ==> IsFirstConfig(pending, config)
      ensures pending == [] ==> objects == old(objects) && r == Ok(0) && config == None
    {
      hide Genuine, InsertBytes, Promoting, FirstConfig, IsFirstConfig;
      config := None;
      var total := 0;
      PromoteStarts(objects, pending);
      for i := 0 to |pending|
        invariant Promoting(old(objects), objects, pending, i) && total == i
        invariant FirstConfig(pending) == if config == None then FirstConfig(pending[i..]) else config
        invariant i == 0 ==> objects == old(objects) && config == None
      {
        var o := pending[i];
        ConfigNext(pending, i);
        if o.id.family == CONFIG && config == None { config := Some(o.id); }
        var id := InsertBytes(objects, o.envelope, w);
        assert Genuine(o, checked) by { assert o in pending; }
        InsertGenuine(objects, o, checked, w);
        PromoteHolds(old(objects), objects, pending, i);
        if id.Err? { return Err(NotPromoted(id.error)), config; }
        PromoteNext(old(objects), objects, pending, i);
        objects := objects[id.value.digest := o.envelope];
        total := total + 1;
      }
      PromoteHolds(old(objects), objects, pending, |pending|);
      PromoteEnds(pending);
      FirstConfigExactly(pending);
      r := Ok(total);
    }

    /** One frontier with all it builds on. Before the whole closure has been validated nothing is stored. */
    method IngestFrontier(s: Setting, root: Frontier, processed: set<Hex>, totalBytes: nat)
      returns (r: Result<nat, IngestError>, processed': set<Hex>, totalBytes': nat, config: Option<Gid>)
      requires SameObjects(s.w, w) && totalBytes <= s.limits.maxIngestBytes && AllGood(s, processed)
          && PacksStored(s, objects, processed)
      modifies this`objects
      ensures Grows(old(objects), objects) && AddedFromClosure(s, old(objects), objects, root)
      ensures r.Ok? ==> AllSound(s, root) && ClosureStored(s, objects, root)
      ensures r.Ok? ==> AllGood(s, processed') && PacksStored(s, objects, processed')
      ensures r.Ok? ==>
          Marked(s, root, processed, processed') && processed <= processed'
          && r.value == Sum(processed' - processed, ObjectCount(s))
      ensures r.Ok? ==>
          totalBytes' <= s.limits.maxIngestBytes && totalBytes' == totalBytes + Sum(processed' - processed, FileSize(s))
      ensures r.Ok? ==> BringsFrom(s, processed, processed', config)
      ensures r.Err? && !r.error.NotPromoted? ==> objects == old(objects)
      ensures r == Err(TooManyBytes) ==> OverBudget(s, root, processed, totalBytes)
      ensures r.Err? && !r.error.NotPromoted? && r.error != TooManyBytes ==> !AllSound(s, root)
    {
      hide AllSound, AllGood, Marked, PacksStored, ClosureStored, AddedFromClosure, AddedFrom, Grows, AllGenuine,
          HasObject, BringsFrom, IsFirstConfig;
      config := None;
      NothingAdded(s, objects, root);
      var pending;
      pending, processed', totalBytes' := ValidateClosure(s, root, processed, totalBytes);
      if pending.Err? { return Err(pending.error), processed', totalBytes', config; }
      ghost var before := objects;
      GatheredGenuine(s, processed, processed', pending.value);
      r, config := Promote(pending.value, s.w);
      AddedGathered(s, before, objects, root, processed, processed', pending.value);
      if r.Ok? {
        AllStored(s, before, objects, root, processed, processed', pending.value);
        Brought(s, processed, processed', pending.value, config);
      }
    }

    /** The pass over the frontiers found on disk. */
    method Ingest(s: Setting, frontiers: seq<(Frontier, Digest)>, current: Gid)
      returns (r: Result<Outcome, IngestError>)
      requires SameObjects(s.w, w) && Discovered(frontiers)
      requires ImportsStored(s, frontiers, objects, imported)
      modifies this
      ensures Grows(old(objects), objects) && old(imported) <= imported
      ensures ImportsStored(s, frontiers, objects, imported)
      ensures AddedFor(s, frontiers, old(imported), old(objects), objects)
      ensures r.Ok? ==> Settled(frontiers, current, imported, refs) && r.value.imported == |imported - old(imported)|
      ensures r.Ok? ==>
          exists packs: set<Hex> ::
          NewPacks(s, frontiers, |frontiers|, old(imported), packs) && r.value.promoted == Sum(packs, ObjectCount(s))
      ensures r.Ok? ==>
          forall i :: 0 <= i < |frontiers| && frontiers[i].1 !in old(imported) ==> ImportedAs(refs, frontiers[i])
      ensures r.Ok? ==> RefsLeft(s, frontiers, current, r.value.activated, old(imported), objects, old(refs), refs, w)
      ensures r.Ok? ==> active == if r.value.activated.Some? then r.value.activated else old(active)
      ensures old(Settled(frontiers, current, imported, refs)) ==>
        r.Ok? && r.value.promoted == 0 && r.value.activated == None
        && objects == old(objects) && refs == old(refs) && imported == old(imported) && active == old(active)
      ensures r.Err? && r.error != TooManyBytes && !r.error.NotPromoted? ==>
        Stuck(s, frontiers, imported)
            || (AllImported(frontiers, imported) && Headless(frontiers, current, objects, refs, w))
      ensures old(Stuck(s, frontiers, imported)
          || (AllImported(frontiers, imported) && Headless(frontiers, current, objects, refs, w))) ==>
        r.Err? && objects == old(objects) && refs == old(refs) && imported == old(imported) && active == old(active)
    {
      hide Passing, Grows, SchemasSupported, ImportsStored, AddedFor, Discovered, Sum, NewPacks, Settled, ImportedAs,
        AllGood, PacksStored, ClosureStored, AddedFromClosure, Marked, AllSound, OverBudget, StuckAt, AllImported,
        Headless, Bookkept, BringsFrom, RefsLeft, AdoptsOne, OtherRefs, FirstFor;
      ghost var stuck, stands := |frontiers|, AllImported(frontiers, imported);
      if Stuck(s, frontiers, imported) { stuck :| 0 <= stuck < |frontiers| && StuckAt(s, frontiers, imported, stuck); }
      var processed: set<Hex>, totalBytes: nat := {}, 0;
      var count, promoted := 0, 0;
      var configs: map<Digest, Gid> := map[];
      PassStarts(s, frontiers, objects, imported, refs);
      BookStarts(s, frontiers, imported, refs);
      AsSettled(frontiers, current, imported, refs);
      for i := 0 to |frontiers|
        invariant Passing(s, frontiers, i, old(imported), old(objects),
            Progress(objects, imported, refs, processed, totalBytes, count, promoted))
        invariant Bookkept(s, frontiers, i, old(imported), old(refs), refs, configs)
        invariant (Head in refs <==> Head in old(refs)) && active == old(active)
        invariant old(Settled(frontiers, current, imported, refs)) ==>
          promoted == 0 && objects == old(objects) && refs == old(refs) && imported == old(imported)
        invariant stuck < |frontiers| ==> i <= stuck && StuckAt(s, frontiers, imported, stuck)
        invariant stuck < |frontiers| || stands ==>
            objects == old(objects) && refs == old(refs) && imported == old(imported)
        invariant forall j :: 0 <= j < i ==> frontiers[j].1 in imported
      {
        var (frontier, id) := frontiers[i];
        ghost var p := Progress(objects, imported, refs, processed, totalBytes, count, promoted);
        PassHolds(s, frontiers, i, old(imported), old(objects), p);
        StuckHere(s, frontiers, imported, i, stuck);
        if id !in imported {
          StandsNot(frontiers, imported, i);
          if !SchemasSupported(frontier) { return Err(UnsupportedSchema); }
          var n, config;
          n, processed, totalBytes, config := IngestFrontier(s, frontier, processed, totalBytes);
          if !AllSound(s, frontier) { NothingFrom(s, p.objects, objects, frontier); }
          if n.Err? {
            PassFails(s, frontiers, i, old(imported), old(objects), p, objects);
            return Err(n.error);
          }
          PassImports(s, frontiers, i, old(imported), old(objects), p, objects, processed, totalBytes, n.value);
          BookImports(s, frontiers, i, old(imported), old(refs), refs, configs, old(objects), p, processed,
              config);
          if config.Some? { configs := configs[id := config.value]; }
          promoted := promoted + n.value;
          refs := refs[ImportedFrontier(id) := frontier.headChange];
          imported := imported + {id};
          count := count + 1;
        } else {
          PassSkips(s, frontiers, i, old(imported), old(objects), p);
          BookSkips(s, frontiers, i, old(imported), old(objects), p, old(refs), refs, configs);
        }
      }
      NoneStuck(s, frontiers, imported);
      ghost var p := Progress(objects, imported, refs, processed, totalBytes, count, promoted);
      PassHolds(s, frontiers, |frontiers|, old(imported), old(objects), p);
      PassEnds(s, frontiers, old(imported), old(objects), p);
      var activated := Activate(frontiers, current, configs);
      if activated.Err? { return Err(activated.error); }
      AfterActivation(frontiers, current, activated.value, configs, objects, p.refs, refs, w);
      BookEnds(s, frontiers, current, activated.value, old(imported), objects, old(refs), p.refs, refs, configs, w);
      IsSettled(frontiers, current, imported, refs);
      RefsKept(frontiers, old(imported), p.refs, refs);
      return Ok(Outcome(count, promoted, activated.value));
    }

    /** A repository without a head takes the first frontier that describes the current source. */
    method Activate(frontiers: seq<(Frontier, Digest)>, current: Gid, configs: map<Digest,
        Gid>) returns (r: Result<Option<Digest>, IngestError>)
      modifies this`refs, this`active
      ensures r.Err? ==> r.error == NoHead
      ensures r.Err? <==> Headless(frontiers, current, objects, old(refs), w)
      ensures r.Err? ==> refs == old(refs) && active == old(active)
      ensures r.Ok? && r.value == None ==> refs == old(refs) && active == old(active)
      ensures r.Ok? ==>
        (r.value.Some? <==> Head !in old(refs) && exists i: nat :: FirstFor(frontiers, current, i))
      ensures r.Ok? && r.value.Some? ==>
        AdoptsOne(frontiers, current, r.value.value, configs, objects, old(refs), refs, w)
      ensures r.Ok? && r.value.Some? ==> active == r.value && OtherRefs(old(refs), refs)
      ensures Head in old(refs) || (forall i :: 0 <= i < |frontiers| ==> frontiers[i].0.sourceState != current) ==>
        r == Ok(None)
    {
      hide ResultingState, ResultsIn;
      if Head in refs { return Ok(None); }
      for k := 0 to |frontiers|
        invariant forall j :: 0 <= j < k ==> frontiers[j].0.sourceState != current
        invariant refs == old(refs) && active == old(active)
      {
        var (frontier, id) := frontiers[k];
        if frontier.sourceState == current {
          var state := ResultingState(objects, frontier.headChange, w);
          ResultsExactly(objects, frontier.headChange, w);
          assert FirstFor(frontiers, current, k);
          if state == None {
            assert HeadlessAt(frontiers, current, objects, w, k);
            return Err(NoHead);
          }
          refs := refs[Head := frontier.headChange][StateHead := state.value];
          if frontier.trajectory.Some? { refs := refs[CurrentTrajectory := frontier.trajectory.value]; }
          if id in configs { refs := refs[Config := configs[id]]; }
          active := Some(id);
          assert Adopts(frontiers, current, k, ConfigOf(configs, id), objects, old(refs), refs, w);
          return Ok(Some(id));
        }
      }
      return Ok(None);
    }

    /** After a pass that succeeded, another over the same disk and the same source does nothing. After one
        that failed, another fails too and changes nothing, unless what stopped the first was the byte
        budget, which each pass has anew, or the store. */
    method IngestTwice(s: Setting, frontiers: seq<(Frontier, Digest)>, current: Gid)
      returns (first: Result<Outcome, IngestError>, second: Result<Outcome, IngestError>, ghost after: ObjectMap,
          ghost refsAfter: map<RefName, Gid>)
      requires SameObjects(s.w, w) && Discovered(frontiers)
      requires ImportsStored(s, frontiers, objects, imported)
      modifies this
      ensures first.Ok? ==> second.Ok? && second.value.promoted == 0 && objects == after && refs == refsAfter
      ensures first.Ok? ==> forall i :: 0 <= i < |frontiers| ==> ClosureStored(s, objects, frontiers[i].0)
      ensures first.Err? && first.error != TooManyBytes && !first.error.NotPromoted? ==>
          second.Err? && objects == after && refs == refsAfter
    {
      hide ClosureStored, Grows, FromClosure, AddedFor, Stuck, AllImported, Headless;
      first := Ingest(s, frontiers, current);
      after, refsAfter := objects, refs;
      second := Ingest(s, frontiers, current);
    }
  }

  // ---- Passes that can only fail ----

  /** The first frontier not yet imported asks for a schema that is not supported or builds on something unsound. */
  ghost predicate StuckAt(s: Setting, frontiers: seq<(Frontier, Digest)>, imported: set<Digest>, i: nat)
    requires i < |frontiers|
  {
    && (forall j :: 0 <= j < i ==> frontiers[j].1 in imported) && frontiers[i].1 !in imported
    && !(SchemasSupported(frontiers[i].0) && AllSound(s, frontiers[i].0))
  }

  ghost predicate Stuck(s: Setting, frontiers: seq<(Frontier, Digest)>, imported: set<Digest>)
  {
    exists i :: 0 <= i < |frontiers| && StuckAt(s, frontiers, imported, i)
  }

  ghost predicate AllImported(frontiers: seq<(Frontier, Digest)>, imported: set<Digest>)
  {
    forall j :: 0 <= j < |frontiers| ==> frontiers[j].1 in imported
  }

  /** There is no head, and the first frontier that describes the source has a change without a resulting state. */
  ghost predicate Headless(frontiers: seq<(Frontier, Digest)>, current: Gid, objects: ObjectMap,
        refs: map<RefName, Gid>, w: World)
  {
    Head !in refs && exists i :: 0 <= i < |frontiers| && HeadlessAt(frontiers, current, objects, w, i)
  }

  ghost predicate HeadlessAt(frontiers: seq<(Frontier, Digest)>, current: Gid, objects: ObjectMap, w: World, i: nat)
    requires i < |frontiers|
  {
    FirstFor(frontiers, current, i) && forall g :: !ResultsIn(objects, frontiers[i].0.headChange, g, w)
  }

  lemma {:induction false} StuckHere(s: Setting, frontiers: seq<(Frontier, Digest)>, imported: set<Digest>, i: nat,
        stuck: nat)
    requires i < |frontiers| && forall j :: 0 <= j < i ==> frontiers[j].1 in imported
    requires stuck < |frontiers| ==> i <= stuck && StuckAt(s, frontiers, imported, stuck)
    ensures frontiers[i].1 in imported ==> i != stuck
    ensures frontiers[i].1 !in imported && stuck < |frontiers| ==> i == stuck
    ensures frontiers[i].1 !in imported && !(SchemasSupported(frontiers[i].0) && AllSound(s, frontiers[i].0)) ==>
        Stuck(s, frontiers, imported)
    ensures stuck == i ==> !(SchemasSupported(frontiers[i].0) && AllSound(s, frontiers[i].0))
  {
    hide SchemasSupported, AllSound;
    assert frontiers[i].1 !in imported && !(SchemasSupported(frontiers[i].0) && AllSound(s, frontiers[i].0)) ==>
        StuckAt(s, frontiers, imported, i);
  }

  lemma {:induction false} StandsNot(frontiers: seq<(Frontier, Digest)>, imported: set<Digest>, i: nat)
    requires i < |frontiers| && frontiers[i].1 !in imported
    ensures !AllImported(frontiers, imported)
  {
  }

  lemma {:induction false} NoneStuck(s: Setting, frontiers: seq<(Frontier, Digest)>, imported: set<Digest>)
    requires forall j :: 0 <= j < |frontiers| ==> frontiers[j].1 in imported
    ensures AllImported(frontiers, imported) && !Stuck(s, frontiers, imported)
  {
  }

  /** Nothing is added from a closure that is not sound. */
  lemma {:induction false} NothingFrom(s: Setting, objects: ObjectMap, objects': ObjectMap, root: Frontier)
    requires Grows(objects, objects') && AddedFromClosure(s, objects, objects', root) && !AllSound(s, root)
    ensures objects' == objects
  {
    hide AllSound;
    assert objects'.Keys <= objects.Keys;
  }

  datatype Outcome = Outcome(imported: nat, promoted: nat, activated: Option<Digest>)

  /** The stored change loads and has a field 0x05 with this state. */
  ghost predicate ResultsIn(objects: ObjectMap, change: Gid, state: Gid, w: World)
  {
    match Load(objects, change, w)
    case Ok(obj) => obj.body.Fields? && Field(0x05, Ref(state)) in obj.body.fields
    case Err(_) => false
  }

  lemma {:induction false} ResultsExactly(objects: ObjectMap, change: Gid, w: World)
    ensures forall g :: ResultsIn(objects, change, g, w) <==> ResultingState(objects, change, w) == Some(g)
  {
    hide Load, Validate.FindValue, Validate.FirstIs;
    var r := Load(objects, change, w);
    if r.Ok? && r.value.body.Fields? {
      var fields := r.value.body.fields;
      Validate.FindsFirst(fields, 0x05);
      LoadedRise(objects, change, w, r.value);
      forall v ensures Validate.FirstIs(fields, 0x05, v) <==> Field(0x05, v) in fields {
        FirstIsMember(fields, 0x05, v);
      }
    }
  }

  lemma {:induction false} LoadedRise(objects: ObjectMap, g: Gid, w: World, obj: Object)
    requires Load(objects, g, w) == Ok(obj) && obj.body.Fields?
    ensures Conformance.TagsRise(obj.body.fields)
  {
    hide Codec.DecodeObject, Conformance.TagsRise;
    var body := Conformance.ObjectDecodes(objects[g.digest], w.table, w.limits, obj);
  }

  lemma {:induction false} FirstIsMember(fields: seq<Field>, tag: byte, v: Value)
    requires Conformance.TagsRise(fields)
    ensures Validate.FirstIs(fields, tag, v) <==> Field(tag, v) in fields
  {
    if Field(tag, v) in fields {
      var k :| 0 <= k < |fields| && fields[k] == Field(tag, v);
      RisesTo(fields, k);
      assert Validate.FirstAt(fields, tag, k, v);
    }
  }

  lemma {:induction false} RisesTo(fields: seq<Field>, k: nat)
    requires Conformance.TagsRise(fields) && k < |fields|
    ensures forall j :: 0 <= j < k ==> fields[j].tag < fields[k].tag
  {
    if k > 0 { RisesTo(fields, k - 1); }
  }

  /** The resulting state a stored change records. */
  function ResultingState(objects: ObjectMap, change: Gid, w: World): Option<Gid>
  {
    match Load(objects, change, w)
    case Err(_) => None
    case Ok(obj) =>
      if !obj.body.Fields? then None
      else match Validate.FindValue(obj.body.fields, 0x05)
        case Some(Ref(g)) => Some(g)
        case _ => None
  }

  /** The refs an activation sets: the head is this frontier's change and the state head the state that change
      results in; its trajectory and the configuration it brought replace what was there. No frontier before it
      describes the source. */
  ghost predicate Adopts(frontiers: seq<(Frontier, Digest)>, current: Gid, i: nat, config: Option<Gid>,
        objects: ObjectMap, was: map<RefName, Gid>, refs: map<RefName, Gid>, w: World)
  {
    && FirstFor(frontiers, current, i)
    && var f := frontiers[i].0;
       && Head in refs && refs[Head] == f.headChange
       && StateHead in refs && ResultsIn(objects, f.headChange, refs[StateHead], w)
       && At(refs, CurrentTrajectory) == (if f.trajectory.Some? then f.trajectory else At(was, CurrentTrajectory))
       && At(refs, Config) == if config.Some? then config else At(was, Config)
  }

  ghost predicate OtherRefs(was: map<RefName, Gid>, refs: map<RefName, Gid>)
  {
    forall name :: !ActivationRef(name) ==> At(refs, name) == At(was, name)
  }

  ghost predicate AdoptsOne(frontiers: seq<(Frontier, Digest)>, current: Gid, id: Digest, configs: map<Digest, Gid>,
        objects: ObjectMap, was: map<RefName, Gid>, refs: map<RefName, Gid>, w: World)
  {
    exists i: nat :: FirstFor(frontiers, current, i) && frontiers[i].1 == id
      && Adopts(frontiers, current, i, ConfigOf(configs, id), objects, was, refs, w)
  }

  /** The first frontier that describes the source. */
  ghost predicate FirstFor(frontiers: seq<(Frontier, Digest)>, current: Gid, i: nat)
  {
    i < |frontiers| && frontiers[i].0.sourceState == current
    && forall j :: 0 <= j < i ==> frontiers[j].0.sourceState != current
  }

  ghost function At(refs: map<RefName, Gid>, name: RefName): Option<Gid>
  {
    if name in refs then Some(refs[name]) else None
  }

  ghost function ConfigOf(configs: map<Digest, Gid>, id: Digest): Option<Gid>
  {
    if id in configs then Some(configs[id]) else None
  }

  /** The ref of an imported frontier is its head change. */
  ghost predicate ImportedAs(refs: map<RefName, Gid>, f: (Frontier, Digest))
  {
    ImportedFrontier(f.1) in refs && refs[ImportedFrontier(f.1)] == f.0.headChange
  }

  /** The packs of the closures of the first `n` frontiers, less those imported before. */
  ghost predicate NewPacks(s: Setting, frontiers: seq<(Frontier, Digest)>, n: nat, had: set<Digest>, packs: set<Hex>)
    requires n <= |frontiers|
  {
    forall hex :: hex in packs
        <==> exists i, f :: 0 <= i < n && frontiers[i].1 !in had && InClosure(s, frontiers[i].0, f) && hex in f.packs
  }

  lemma {:induction false} NoPacks(s: Setting, frontiers: seq<(Frontier, Digest)>, had: set<Digest>)
    ensures NewPacks(s, frontiers, 0, had, {}) && Sum({}, ObjectCount(s)) == 0
  {
  }

  lemma {:induction false} MorePacks(s: Setting, frontiers: seq<(Frontier, Digest)>, i: nat, had: set<Digest>,
        read: set<Hex>, processed: set<Hex>)
    requires i < |frontiers| && frontiers[i].1 !in had && NewPacks(s, frontiers, i, had, read) && read <= processed
    requires Marked(s, frontiers[i].0, read, processed)
    ensures NewPacks(s, frontiers, i + 1, had, processed)
  {
    hide InClosure;
    forall hex | hex in processed
      ensures exists j, f ::
          0 <= j < i + 1 && frontiers[j].1 !in had && InClosure(s, frontiers[j].0, f) && hex in f.packs
    {
      if hex in read {
        var j, f :| 0 <= j < i && frontiers[j].1 !in had && InClosure(s, frontiers[j].0, f) && hex in f.packs;
      } else {
        var f :| InClosure(s, frontiers[i].0, f) && hex in f.packs;
      }
    }
  }

  /** The first `n` frontiers are imported, and nothing else has become so. */
  ghost predicate ImportedSoFar(frontiers: seq<(Frontier, Digest)>, n: nat, had: set<Digest>, imported: set<Digest>)
    requires n <= |frontiers|
  {
    && had <= imported
    && (forall j :: 0 <= j < n ==> frontiers[j].1 in imported)
    && forall id :: id in imported && id !in had ==> exists j :: 0 <= j < n && frontiers[j].1 == id
  }

  ghost predicate RefsSoFar(frontiers: seq<(Frontier, Digest)>, n: nat, had: set<Digest>, refs: map<RefName, Gid>)
    requires n <= |frontiers|
  {
    forall j :: 0 <= j < n && frontiers[j].1 !in had ==> ImportedAs(refs, frontiers[j])
  }

  lemma {:induction false} NothingImported(frontiers: seq<(Frontier, Digest)>, imported: set<Digest>,
        refs: map<RefName, Gid>)
    ensures ImportedSoFar(frontiers, 0, imported, imported) && RefsSoFar(frontiers, 0, imported, refs)
        && |imported - imported| == 0
  {
    assert imported - imported == {};
  }

  lemma {:induction false} RefsNext(frontiers: seq<(Frontier, Digest)>, i: nat, had: set<Digest>,
        refs: map<RefName, Gid>)
    requires i < |frontiers| && Discovered(frontiers) && RefsSoFar(frontiers, i, had, refs)
    ensures RefsSoFar(frontiers, i + 1, had, refs[ImportedFrontier(frontiers[i].1) := frontiers[i].0.headChange])
  {
    var later := refs[ImportedFrontier(frontiers[i].1) := frontiers[i].0.headChange];
    forall j | 0 <= j < i + 1 && frontiers[j].1 !in had ensures ImportedAs(later, frontiers[j]) {
      if j < i { assert ImportedAs(refs, frontiers[j]) && frontiers[j].1 != frontiers[i].1; }
    }
  }

  // ---- The refs and configurations of a pass ----

  ghost predicate PackOf(s: Setting, root: Frontier, hex: Hex)
  {
    exists f :: InClosure(s, root, f) && hex in f.packs
  }

  /** A pack of the i-th frontier's closure that no frontier imported before it in this pass has. */
  ghost predicate FreshPack(s: Setting, frontiers: seq<(Frontier, Digest)>, i: nat, had: set<Digest>, hex: Hex)
    requires i < |frontiers|
  {
    PackOf(s, frontiers[i].0, hex)
    && forall j :: 0 <= j < i && frontiers[j].1 !in had ==> !PackOf(s, frontiers[j].0, hex)
  }

  /** The configuration that importing the i-th frontier brings: one from its fresh packs, if they hold any. */
  ghost predicate Brings(s: Setting, frontiers: seq<(Frontier, Digest)>, i: nat, had: set<Digest>, config: Option<Gid>)
    requires i < |frontiers|
  {
    if frontiers[i].1 in had then config == None
    else match config
      case None => forall hex, o :: FreshPack(s, frontiers, i, had, hex) && FromPack(s, hex, o) ==> o.id.family != 0x15
      case Some(g) =>
        g.family == 0x15 && exists hex, o :: FreshPack(s, frontiers, i, had, hex) && FromPack(s, hex, o) && o.id == g
  }

  /** No frontier imported in this pass has this ref. */
  ghost predicate Untouched(frontiers: seq<(Frontier, Digest)>, n: nat, had: set<Digest>, name: RefName)
    requires n <= |frontiers|
  {
    forall j :: 0 <= j < n && frontiers[j].1 !in had ==> name != ImportedFrontier(frontiers[j].1)
  }

  ghost predicate Bookkept(s: Setting, frontiers: seq<(Frontier, Digest)>, n: nat, had: set<Digest>,
        was: map<RefName, Gid>, refs: map<RefName, Gid>, configs: map<Digest, Gid>)
    requires n <= |frontiers|
  {
    && (forall name :: Untouched(frontiers, n, had, name) ==> At(refs, name) == At(was, name))
    && (forall j :: 0 <= j < n ==> Brings(s, frontiers, j, had, ConfigOf(configs, frontiers[j].1)))
    && forall id :: id in configs ==> exists j :: 0 <= j < n && frontiers[j].1 == id
  }

  lemma {:induction false} BookStarts(s: Setting, frontiers: seq<(Frontier, Digest)>, had: set<Digest>,
        was: map<RefName, Gid>)
    ensures Bookkept(s, frontiers, 0, had, was, was, map[])
  {
  }

  lemma {:induction false} NotYetIn(s: Setting, frontiers: seq<(Frontier, Digest)>, i: nat, had: set<Digest>,
        was: map<RefName, Gid>, refs: map<RefName, Gid>, configs: map<Digest, Gid>)
    requires i < |frontiers| && Discovered(frontiers) && Bookkept(s, frontiers, i, had, was, refs, configs)
    ensures frontiers[i].1 !in configs
  {
    hide Brings, Untouched;
  }

  lemma {:induction false} Apart(frontiers: seq<(Frontier, Digest)>, i: nat)
    requires i < |frontiers| && Discovered(frontiers)
    ensures forall j :: 0 <= j < i ==> frontiers[j].1 != frontiers[i].1
  {
  }

  lemma {:induction false} BringsNothing(s: Setting, frontiers: seq<(Frontier, Digest)>, i: nat, had: set<Digest>)
    requires i < |frontiers| && frontiers[i].1 in had
    ensures Brings(s, frontiers, i, had, None)
  {
  }

  lemma {:induction false} BookSkips(s: Setting, frontiers: seq<(Frontier, Digest)>, i: nat, had: set<Digest>,
        first: ObjectMap, p: Progress, was: map<RefName, Gid>, refs: map<RefName, Gid>, configs: map<Digest, Gid>)
    requires i < |frontiers| && Discovered(frontiers) && Bookkept(s, frontiers, i, had, was, refs, configs)
    requires Passing(s, frontiers, i, had, first, p) && frontiers[i].1 in p.imported
    ensures Bookkept(s, frontiers, i + 1, had, was, refs, configs)
  {
    hide Passing, Brings, Discovered;
    NotYetIn(s, frontiers, i, had, was, refs, configs);
    PassKnows(s, frontiers, i, had, first, p);
    BringsNothing(s, frontiers, i, had);
    forall name | Untouched(frontiers, i + 1, had, name) ensures At(refs, name) == At(was, name) {
      assert Untouched(frontiers, i, had, name);
    }
  }

  lemma {:induction false} PassKnows(s: Setting, frontiers: seq<(Frontier, Digest)>, i: nat, had: set<Digest>,
        first: ObjectMap, p: Progress)
    requires i < |frontiers| && Discovered(frontiers) && Passing(s, frontiers, i, had, first, p)
    ensures (frontiers[i].1 in p.imported <==> frontiers[i].1 in had) && NewPacks(s, frontiers, i, had, p.processed)
  {
    hide ImportsStored, Sum, AllGood, PacksStored, AddedFor, Grows, RefsSoFar, NewPacks;
  }

  lemma {:induction false} BookImports(s: Setting, frontiers: seq<(Frontier, Digest)>, i: nat, had: set<Digest>,
        was: map<RefName, Gid>, refs: map<RefName, Gid>, configs: map<Digest, Gid>, first: ObjectMap, p: Progress,
        processed: set<Hex>, config: Option<Gid>)
    requires i < |frontiers| && Discovered(frontiers) && Bookkept(s, frontiers, i, had, was, refs, configs)
    requires Passing(s, frontiers, i, had, first, p) && frontiers[i].1 !in p.imported
    requires Marked(s, frontiers[i].0, p.processed, processed) && BringsFrom(s, p.processed, processed, config)
    ensures Bookkept(s, frontiers, i + 1, had, was, refs[ImportedFrontier(frontiers[i].1) := frontiers[i].0.headChange],
      if config.Some? then configs[frontiers[i].1 := config.value] else configs)
  {
    hide Passing, Brings, NewPacks, Marked, BringsFrom, Discovered;
    PassKnows(s, frontiers, i, had, first, p);
    assert forall j :: 0 <= j < i ==> frontiers[j].1 != frontiers[i].1 by { Apart(frontiers, i); }
    var id := frontiers[i].1;
    var later := refs[ImportedFrontier(id) := frontiers[i].0.headChange];
    var more := if config.Some? then configs[id := config.value] else configs;
    NotYetIn(s, frontiers, i, had, was, refs, configs);
    forall name | Untouched(frontiers, i + 1, had, name) ensures At(later, name) == At(was, name) {
      assert Untouched(frontiers, i, had, name) && name != ImportedFrontier(id);
    }
    BringsFresh(s, frontiers, i, had, p.processed, processed, config);
    forall j | 0 <= j < i + 1 ensures Brings(s, frontiers, j, had, ConfigOf(more, frontiers[j].1)) {
      if j < i { assert frontiers[j].1 != id; }
    }
  }

  lemma {:induction false} BringsFresh(s: Setting, frontiers: seq<(Frontier, Digest)>, i: nat, had: set<Digest>,
        read: set<Hex>, processed: set<Hex>, config: Option<Gid>)
    requires i < |frontiers| && frontiers[i].1 !in had && NewPacks(s, frontiers, i, had, read)
    requires Marked(s, frontiers[i].0, read, processed) && BringsFrom(s, read, processed, config)
    ensures Brings(s, frontiers, i, had, config)
  {
    hide FreshPack, FromPack, NewPacks, Marked;
    forall hex ensures FreshPack(s, frontiers, i, had, hex) <==> hex in processed && hex !in read {
      FreshRead(s, frontiers, i, had, read, processed, hex);
    }
  }

  lemma {:induction false} FreshRead(s: Setting, frontiers: seq<(Frontier, Digest)>, i: nat, had: set<Digest>,
        read: set<Hex>, processed: set<Hex>, hex: Hex)
    requires i < |frontiers| && NewPacks(s, frontiers, i, had, read) && Marked(s, frontiers[i].0, read, processed)
    ensures FreshPack(s, frontiers, i, had, hex) <==> hex in processed && hex !in read
  {
    hide InClosure;
    if hex in read {
      var j, f :| 0 <= j < i && frontiers[j].1 !in had && InClosure(s, frontiers[j].0, f) && hex in f.packs;
      assert PackOf(s, frontiers[j].0, hex);
    }
  }

  ghost predicate ActivationRef(name: RefName) { name in {Head, StateHead, CurrentTrajectory, Config} }

  ghost predicate AdoptsWith(s: Setting, frontiers: seq<(Frontier, Digest)>, current: Gid, i: nat, config: Option<Gid>,
        id: Digest, had: set<Digest>, objects: ObjectMap, was: map<RefName, Gid>, refs: map<RefName, Gid>, w: World)
  {
    FirstFor(frontiers, current, i) && frontiers[i].1 == id && Brings(s, frontiers, i, had, config)
    && Adopts(frontiers, current, i, config, objects, was, refs, w)
  }

  /** The refs after a pass. Those of the frontiers it imported apart, only an activation changes any: the first
      frontier that describes the source is adopted exactly when there was no head. */
  ghost predicate RefsLeft(s: Setting, frontiers: seq<(Frontier, Digest)>, current: Gid, activated: Option<Digest>,
        had: set<Digest>, objects: ObjectMap, was: map<RefName, Gid>, refs: map<RefName, Gid>, w: World)
  {
    && (activated.Some? <==> Head !in was && exists i: nat :: FirstFor(frontiers, current, i))
    && (activated == None ==>
        forall name :: Untouched(frontiers, |frontiers|, had, name) ==> At(refs, name) == At(was, name))
    && (activated.Some? ==>
        && (exists i: nat, config ::
            AdoptsWith(s, frontiers, current, i, config, activated.value, had, objects, was, refs, w))
        && forall name :: Untouched(frontiers, |frontiers|, had, name) && !ActivationRef(name) ==>
            At(refs, name) == At(was, name))
  }

  lemma {:induction false} BookEnds(s: Setting, frontiers: seq<(Frontier, Digest)>, current: Gid,
        activated: Option<Digest>, had: set<Digest>, objects: ObjectMap, was: map<RefName, Gid>,
        mid: map<RefName, Gid>, refs: map<RefName, Gid>, configs: map<Digest, Gid>, w: World)
    requires Bookkept(s, frontiers, |frontiers|, had, was, mid, configs)
    requires activated.Some? <==> Head !in mid && exists i: nat :: FirstFor(frontiers, current, i)
    requires activated == None ==> refs == mid
    requires activated.Some? ==>
      OtherRefs(mid, refs) && AdoptsOne(frontiers, current, activated.value, configs, objects, mid, refs, w)
    ensures RefsLeft(s, frontiers, current, activated, had, objects, was, refs, w)
  {
    hide Brings, FirstFor, AdoptsOne, AdoptsWith;
    forall name | ActivationRef(name) ensures At(mid, name) == At(was, name) {
      assert Untouched(frontiers, |frontiers|, had, name);
    }
    assert ActivationRef(Head) && (Head in mid <==> Head in was);
    if activated.Some? {
      AdoptedWith(s, frontiers, current, activated.value, had, objects, was, mid, refs, configs, w);
    }
  }

  lemma {:induction false} AdoptedWith(s: Setting, frontiers: seq<(Frontier, Digest)>, current: Gid, id: Digest,
        had: set<Digest>, objects: ObjectMap, was: map<RefName, Gid>, mid: map<RefName, Gid>, refs: map<RefName, Gid>,
        configs: map<Digest, Gid>, w: World)
    requires forall j :: 0 <= j < |frontiers| ==> Brings(s, frontiers, j, had, ConfigOf(configs, frontiers[j].1))
    requires AdoptsOne(frontiers, current, id, configs, objects, mid, refs, w)
    requires forall name :: ActivationRef(name) ==> At(mid, name) == At(was, name)
    ensures exists i: nat, config :: AdoptsWith(s, frontiers, current, i, config, id, had, objects, was, refs, w)
  {
    hide Brings, ResultsIn;
    var i: nat :| FirstFor(frontiers, current, i) && frontiers[i].1 == id
      && Adopts(frontiers, current, i, ConfigOf(configs, id), objects, mid, refs, w);
    assert ActivationRef(CurrentTrajectory) && ActivationRef(Config);
    assert AdoptsWith(s, frontiers, current, i, ConfigOf(configs, id), id, had, objects, was, refs, w);
  }

  lemma {:induction false} AfterActivation(frontiers: seq<(Frontier, Digest)>, current: Gid, activated: Option<Digest>,
        configs: map<Digest, Gid>, objects: ObjectMap, was: map<RefName, Gid>, refs: map<RefName, Gid>, w: World)
    requires activated.Some? <==> Head !in was && exists i: nat :: FirstFor(frontiers, current, i)
    requires activated == None ==> refs == was
    requires activated.Some? ==>
      OtherRefs(was, refs) && AdoptsOne(frontiers, current, activated.value, configs, objects, was, refs, w)
    ensures Head in refs || forall i :: 0 <= i < |frontiers| ==> frontiers[i].0.sourceState != current
    ensures forall name :: name in was && name.ImportedFrontier? ==> name in refs && refs[name] == was[name]
  {
    hide ResultsIn;
    forall name | name in was && name.ImportedFrontier? ensures name in refs && refs[name] == was[name] {
      assert activated.Some? ==> At(refs, name) == At(was, name);
    }
    if Head !in refs { NoneFor(frontiers, current, |frontiers|); }
  }

  lemma {:induction false} NoneFor(frontiers: seq<(Frontier, Digest)>, current: Gid, n: nat)
    requires n <= |frontiers| && forall i: nat :: !FirstFor(frontiers, current, i)
    ensures forall i :: 0 <= i < n ==> frontiers[i].0.sourceState != current
  {
    if n > 0 {
      NoneFor(frontiers, current, n - 1);
      assert !FirstFor(frontiers, current, n - 1);
    }
  }

  /** Where a pass stands. */
  datatype Progress = Progress(objects: ObjectMap, imported: set<Digest>, refs: map<RefName, Gid>,
                               processed: set<Hex>, totalBytes: nat, count: nat, promoted: nat)

  /** What holds after the first `n` frontiers of a pass that began with `had` imported and `first` stored. */
  ghost predicate Passing(s: Setting, frontiers: seq<(Frontier, Digest)>, n: nat, had: set<Digest>, first: ObjectMap,
        p: Progress)
    requires n <= |frontiers|
  {
    && Grows(first, p.objects) && AddedFor(s, frontiers, had, first, p.objects)
        && ImportsStored(s, frontiers, p.objects, p.imported)
    && ImportedSoFar(frontiers, n, had, p.imported) && RefsSoFar(frontiers, n, had, p.refs)
        && p.count == |p.imported - had|
    && AllGood(s, p.processed) && PacksStored(s, p.objects, p.processed) && p.totalBytes <= s.limits.maxIngestBytes
    && NewPacks(s, frontiers, n, had, p.processed) && p.promoted == Sum(p.processed, ObjectCount(s))
  }

  lemma {:induction false} PassStarts(s: Setting, frontiers: seq<(Frontier, Digest)>, objects: ObjectMap,
        imported: set<Digest>, refs: map<RefName, Gid>)
    requires ImportsStored(s, frontiers, objects, imported)
    ensures Passing(s, frontiers, 0, imported, objects, Progress(objects, imported, refs, {}, 0, 0, 0))
  {
    hide ImportsStored, Sum, AllGood, PacksStored, AddedFor, Grows, ImportedSoFar, RefsSoFar, NewPacks;
    NothingProcessed(s, objects);
    NothingAddedFor(s, frontiers, imported, objects);
    NoPacks(s, frontiers, imported);
    NothingImported(frontiers, imported, refs);
  }

  lemma {:induction false} PassHolds(s: Setting, frontiers: seq<(Frontier, Digest)>, n: nat, had: set<Digest>,
        first: ObjectMap, p: Progress)
    requires n <= |frontiers| && Passing(s, frontiers, n, had, first, p)
    ensures Grows(first, p.objects) && AddedFor(s, frontiers, had, first, p.objects)
        && ImportsStored(s, frontiers, p.objects, p.imported)
    ensures AllGood(s, p.processed) && PacksStored(s, p.objects, p.processed) && p.totalBytes <= s.limits.maxIngestBytes
        && had <= p.imported
  {
    hide ImportsStored, Sum, AllGood, PacksStored, AddedFor, Grows, RefsSoFar, NewPacks;
  }

  lemma {:induction false} PassFails(s: Setting, frontiers: seq<(Frontier, Digest)>, i: nat, had: set<Digest>,
        first: ObjectMap, p: Progress, objects: ObjectMap)
    requires i < |frontiers| && Passing(s, frontiers, i, had, first, p) && frontiers[i].1 !in p.imported
    requires Grows(p.objects, objects) && AddedFromClosure(s, p.objects, objects, frontiers[i].0)
    ensures Grows(first, objects) && AddedFor(s, frontiers, had, first, objects)
        && ImportsStored(s, frontiers, objects, p.imported)
  {
    hide ImportsStored, Sum, AllGood, PacksStored, AddedFor, Grows, RefsSoFar, NewPacks, AddedFromClosure;
    ImportsKept(s, frontiers, p.objects, objects, p.imported);
    AddedMore(s, frontiers, had, first, p.objects, objects, i);
    GrowsOn(first, p.objects, objects);
  }

  lemma {:induction false} PassImports(s: Setting, frontiers: seq<(Frontier, Digest)>, i: nat, had: set<Digest>,
        first: ObjectMap, p: Progress,
                                       objects: ObjectMap, processed: set<Hex>, totalBytes: nat, n: nat)
    requires i < |frontiers| && Discovered(frontiers) && Passing(s, frontiers, i, had, first, p)
        && frontiers[i].1 !in p.imported
    requires Grows(p.objects, objects) && AddedFromClosure(s, p.objects, objects, frontiers[i].0)
        && ClosureStored(s, objects, frontiers[i].0)
    requires AllGood(s, processed) && PacksStored(s, objects, processed) && totalBytes <= s.limits.maxIngestBytes
    requires Marked(s, frontiers[i].0, p.processed, processed) && p.processed <= processed
    requires n == Sum(processed - p.processed, ObjectCount(s))
    ensures Passing(s, frontiers, i + 1, had, first,
      Progress(objects, p.imported + {frontiers[i].1},
          p.refs[ImportedFrontier(frontiers[i].1) := frontiers[i].0.headChange],
               processed, totalBytes, p.count + 1, p.promoted + n))
  {
    hide ImportsStored, Sum, AllGood, PacksStored, AddedFor, Grows, RefsSoFar, NewPacks, AddedFromClosure,
        ImportedSoFar,
      Discovered, Marked, ClosureStored;
    PassFails(s, frontiers, i, had, first, p, objects) by { OneImported(frontiers, i, p.imported, had); }
    OneImported(frontiers, i, p.imported, had);
    ImportedOne(s, frontiers, objects, p.imported, i);
    MorePacks(s, frontiers, i, had, p.processed, processed);
    SumSplit(p.processed, processed, ObjectCount(s));
    RefsNext(frontiers, i, had, p.refs);
  }

  lemma {:induction false} PassSkips(s: Setting, frontiers: seq<(Frontier, Digest)>, i: nat, had: set<Digest>,
        first: ObjectMap, p: Progress)
    requires i < |frontiers| && Discovered(frontiers) && Passing(s, frontiers, i, had, first, p)
        && frontiers[i].1 in p.imported
    ensures Passing(s, frontiers, i + 1, had, first, p)
  {
    hide ImportsStored, Sum, AllGood, PacksStored, AddedFor, Grows, RefsSoFar, NewPacks, ImportedSoFar, Discovered;
    SkippedOne(s, frontiers, i, had, p.imported, p.processed, p.refs);
  }

  lemma {:induction false} PassEnds(s: Setting, frontiers: seq<(Frontier, Digest)>, had: set<Digest>, first: ObjectMap,
        p: Progress)
    requires Passing(s, frontiers, |frontiers|, had, first, p)
    ensures (forall j :: 0 <= j < |frontiers| ==> frontiers[j].1 in p.imported) && p.count == |p.imported - had|
    ensures forall j :: 0 <= j < |frontiers| && frontiers[j].1 !in had ==> ImportedAs(p.refs, frontiers[j])
    ensures NewPacks(s, frontiers, |frontiers|, had, p.processed) && p.promoted == Sum(p.processed, ObjectCount(s))
  {
    hide ImportsStored, Sum, AllGood, PacksStored, AddedFor, Grows, NewPacks;
  }

  lemma {:induction false} RefsKept(frontiers: seq<(Frontier, Digest)>, had: set<Digest>, refs: map<RefName, Gid>,
        refs': map<RefName, Gid>)
    requires forall name :: name in refs && name.ImportedFrontier? ==> name in refs' && refs'[name] == refs[name]
    requires forall j :: 0 <= j < |frontiers| && frontiers[j].1 !in had ==> ImportedAs(refs, frontiers[j])
    ensures forall j :: 0 <= j < |frontiers| && frontiers[j].1 !in had ==> ImportedAs(refs', frontiers[j])
  {
  }

  lemma {:induction false} AsSettled(frontiers: seq<(Frontier, Digest)>, current: Gid, imported: set<Digest>,
        refs: map<RefName, Gid>)
    ensures Settled(frontiers, current, imported, refs) ==>
      (forall j :: 0 <= j < |frontiers| ==> frontiers[j].1 in imported)
      && (Head in refs || forall j :: 0 <= j < |frontiers| ==> frontiers[j].0.sourceState != current)
  {
  }

  lemma {:induction false} IsSettled(frontiers: seq<(Frontier, Digest)>, current: Gid, imported: set<Digest>,
        refs: map<RefName, Gid>)
    requires forall j :: 0 <= j < |frontiers| ==> frontiers[j].1 in imported
    requires Head in refs || forall j :: 0 <= j < |frontiers| ==> frontiers[j].0.sourceState != current
    ensures Settled(frontiers, current, imported, refs)
  {
  }

  lemma {:induction false} SkippedOne(s: Setting, frontiers: seq<(Frontier, Digest)>, i: nat, had: set<Digest>,
        imported: set<Digest>, processed: set<Hex>, refs: map<RefName, Gid>)
    requires i < |frontiers| && Discovered(frontiers) && frontiers[i].1 in imported
        && NewPacks(s, frontiers, i, had, processed)
    requires ImportedSoFar(frontiers, i, had, imported) && RefsSoFar(frontiers, i, had, refs)
    ensures frontiers[i].1 in had && NewPacks(s, frontiers, i + 1, had, processed)
    ensures ImportedSoFar(frontiers, i + 1, had, imported) && RefsSoFar(frontiers, i + 1, had, refs)
  {
    hide InClosure;
  }

  lemma {:induction false} SumSplit(read: set<Hex>, processed: set<Hex>, of: Hex -> nat)
    requires read <= processed
    ensures Sum(processed, of) == Sum(read, of) + Sum(processed - read, of)
    decreases |processed - read|
  {
    if processed - read == {} {
      assert read == processed;
    } else {
      var hex :| hex in processed - read;
      var less := processed - {hex};
      assert less - read == (processed - read) - {hex};
      SumSplit(read, less, of);
      SumAdd(less, hex, of);
      SumAdd(less - read, hex, of);
      assert less + {hex} == processed && (less - read) + {hex} == processed - read;
    }
  }

  lemma {:induction false} OneImported(frontiers: seq<(Frontier, Digest)>, i: nat, imported: set<Digest>,
        had: set<Digest>)
    requires i < |frontiers| && frontiers[i].1 !in imported && ImportedSoFar(frontiers, i, had, imported)
    ensures |(imported + {frontiers[i].1}) - had| == |imported - had| + 1 && frontiers[i].1 !in had
    ensures ImportedSoFar(frontiers, i + 1, had, imported + {frontiers[i].1})
  {
    assert (imported + {frontiers[i].1}) - had == (imported - had) + {frontiers[i].1};
    forall id | id in imported + {frontiers[i].1} && id !in had
      ensures exists j :: 0 <= j < i + 1 && frontiers[j].1 == id
    {
      if id in imported { var j :| 0 <= j < i && frontiers[j].1 == id; }
    }
  }

  /** One frontier per identity. */
  ghost predicate Discovered(frontiers: seq<(Frontier, Digest)>)
  {
    forall i, j :: 0 <= i < j < |frontiers| ==> frontiers[i].1 != frontiers[j].1
  }

  /** Whatever is marked as imported has its whole closure stored. */
  ghost predicate ImportsStored(s: Setting, frontiers: seq<(Frontier, Digest)>, objects: ObjectMap,
        imported: set<Digest>)
  {
    forall i :: 0 <= i < |frontiers| && frontiers[i].1 in imported ==> ClosureStored(s, objects, frontiers[i].0)
  }

  /** Everything found is imported, and a head exists if the current source calls for one. */
  ghost predicate Settled(frontiers: seq<(Frontier, Digest)>, current: Gid, imported: set<Digest>,
        refs: map<RefName, Gid>)
  {
    && (forall i :: 0 <= i < |frontiers| ==> frontiers[i].1 in imported)
    && (Head in refs || forall i :: 0 <= i < |frontiers| ==> frontiers[i].0.sourceState != current)
  }

  ghost predicate AddedFor(s: Setting, frontiers: seq<(Frontier, Digest)>, had: set<Digest>, objects: ObjectMap,
        objects': ObjectMap)
  {
    forall d :: d in objects' && d !in objects ==>
      exists i :: 0 <= i < |frontiers| && frontiers[i].1 !in had && FromClosure(s, frontiers[i].0, d, objects'[d])
  }

  /** Both hash and read objects alike, but for their limits: packs are checked under the default ones. */
  ghost predicate SameObjects(w: World, w': World) { w.table == w'.table && w.hash == w'.hash }

  lemma {:induction false} InsertGenuine(objects: ObjectMap, o: PackObject, checked: World, w: World)
    requires Genuine(o, checked) && SameObjects(checked, w)
    ensures var r := InsertBytes(objects, o.envelope, w);
      if r.Ok? then r.value == o.id && (o.id.digest in objects ==> objects[o.id.digest] == o.envelope)
      else r.error == HashCollision || r.error == TooLarge || (checked.limits != w.limits && r.error.Refused?)
  {
    CodecLaws.DecodedFamily(o.envelope, checked.table, checked.limits);
    CodecLaws.DecodedFamily(o.envelope, w.table, w.limits);
  }

  lemma {:induction false} NothingAdded(s: Setting, objects: ObjectMap, root: Frontier)
    ensures AddedFromClosure(s, objects, objects, root) && Grows(objects, objects)
  {
  }

  lemma {:induction false} GatheredGenuine(s: Setting, before: set<Hex>, processed: set<Hex>, pending: seq<PackObject>)
    requires Gathered(s, before, processed, pending)
    ensures AllGenuine(pending, s.w)
  {
    hide ReadPack, Genuine;
    forall o | o in pending ensures Genuine(o, s.w) {
      var hex :| hex in processed && hex !in before && FromPack(s, hex, o);
      PackGenuine(s, hex);
    }
  }

  lemma {:induction false} PackGenuine(s: Setting, hex: Hex)
    requires ReadPack(s, hex).Ok?
    ensures AllGenuine(ReadPack(s, hex).value, s.w)
  {
    hide Genuine, DecodePack;
    var bytes := PackFile(s, hex).value.1;
    DecodedGenuine(bytes, s.limits.packs, s.w);
  }

  lemma {:induction false} DecodedGenuine(bytes: seq<byte>, limits: ExchangeLimits, w: World)
    requires DecodePack(bytes, limits, w).Ok?
    ensures AllGenuine(DecodePack(bytes, limits, w).value, w)
  {
    hide Genuine, DecodeBodies, LeValue;
    BodiesGenuine(bytes, 13, |bytes| - 8, LeValue(bytes[5..13]), None, w);
  }

  lemma {:induction false} BodiesGenuine(bytes: seq<byte>, cursor: nat, bodyEnd: nat, count: nat, prev: Option<Gid>,
        w: World)
    requires bodyEnd <= |bytes| && DecodeBodies(bytes, cursor, bodyEnd, count, prev, w).Ok?
    ensures AllGenuine(DecodeBodies(bytes, cursor, bodyEnd, count, prev, w).value.0, w)
    decreases count
  {
    hide Genuine, DecodeOne;
    if count > 0 {
      var (o, c) := DecodeOne(bytes, cursor, bodyEnd, prev, w).value;
      assert Genuine(o, w) by { OneGenuine(bytes, cursor, bodyEnd, prev, w); }
      BodiesGenuine(bytes, c, bodyEnd, count - 1, Some(o.id), w);
    }
  }

  lemma {:induction false} OneGenuine(bytes: seq<byte>, cursor: nat, bodyEnd: nat, prev: Option<Gid>, w: World)
    requires bodyEnd <= |bytes| && DecodeOne(bytes, cursor, bodyEnd, prev, w).Ok?
    ensures Genuine(DecodeOne(bytes, cursor, bodyEnd, prev, w).value.0, w)
  {
    hide GidBelow, LeValue, EnvelopeError;
  }

  lemma {:induction false} AddedGathered(s: Setting, objects: ObjectMap, objects': ObjectMap, root: Frontier,
                                         before: set<Hex>, processed: set<Hex>, pending: seq<PackObject>)
    requires AddedFrom(objects, objects', pending) && Gathered(s, before, processed, pending)
    requires AllSound(s, root) && Marked(s, root, before, processed)
    ensures AddedFromClosure(s, objects, objects', root)
  {
    hide InClosure, FromPack, AllSound;
    forall d | d in objects' && d !in objects ensures FromClosure(s, root, d, objects'[d]) {
      var o :| o in pending && o.id.digest == d && o.envelope == objects'[d];
      var hex :| hex in processed && hex !in before && FromPack(s, hex, o);
      var f :| InClosure(s, root, f) && hex in f.packs;
    }
  }

  lemma {:induction false} AllStored(s: Setting, objects: ObjectMap, objects': ObjectMap, root: Frontier,
                                     before: set<Hex>, processed: set<Hex>, pending: seq<PackObject>)
    requires PacksStored(s, objects, before) && Grows(objects, objects')
    requires Gathered(s, before, processed, pending) && forall o :: o in pending ==> HasObject(objects', o)
    requires Marked(s, root, before, processed)
    ensures PacksStored(s, objects', processed) && ClosureStored(s, objects', root)
  {
    hide ReadPack, InClosure;
  }

  /** A configuration from the packs newly read, or none when they hold none. */
  ghost predicate BringsFrom(s: Setting, before: set<Hex>, processed: set<Hex>, config: Option<Gid>)
  {
    match config
    case None => forall hex, o :: hex in processed && hex !in before && FromPack(s, hex, o) ==> o.id.family != 0x15
    case Some(g) =>
      g.family == 0x15 && exists hex, o :: hex in processed && hex !in before && FromPack(s, hex, o) && o.id == g
  }

  lemma {:induction false} Brought(s: Setting, before: set<Hex>, processed: set<Hex>, pending: seq<PackObject>,
        config: Option<Gid>)
    requires Gathered(s, before, processed, pending) && IsFirstConfig(pending, config)
    ensures BringsFrom(s, before, processed, config)
  {
    hide ReadPack, Sum;
    if config.Some? {
      var k :| ConfigAt(pending, k, config.value);
      assert pending[k] in pending;
      var hex :| hex in processed && hex !in before && FromPack(s, hex, pending[k]);
    }
  }

  lemma {:induction false} NothingProcessed(s: Setting, objects: ObjectMap)
    ensures AllGood(s, {}) && PacksStored(s, objects, {})
  {
  }

  lemma {:induction false} NothingAddedFor(s: Setting, frontiers: seq<(Frontier, Digest)>, had: set<Digest>,
        objects: ObjectMap)
    ensures AddedFor(s, frontiers, had, objects, objects) && Grows(objects, objects)
  {
  }

  lemma {:induction false} ImportsKept(s: Setting, frontiers: seq<(Frontier, Digest)>, objects: ObjectMap,
        objects': ObjectMap, imported: set<Digest>)
    requires ImportsStored(s, frontiers, objects, imported) && Grows(objects, objects')
    ensures ImportsStored(s, frontiers, objects', imported)
  {
    hide InClosure, FromPack;
  }

  lemma {:induction false} ImportedOne(s: Setting, frontiers: seq<(Frontier, Digest)>, objects: ObjectMap,
        imported: set<Digest>, i: nat)
    requires ImportsStored(s, frontiers, objects, imported) && Discovered(frontiers) && i < |frontiers|
    requires ClosureStored(s, objects, frontiers[i].0)
    ensures ImportsStored(s, frontiers, objects, imported + {frontiers[i].1})
  {
    hide ClosureStored;
  }

  lemma {:induction false} AddedMore(s: Setting, frontiers: seq<(Frontier, Digest)>, had: set<Digest>,
        first: ObjectMap, before: ObjectMap, after: ObjectMap, i: nat)
    requires AddedFor(s, frontiers, had, first, before) && Grows(before, after)
    requires i < |frontiers| && frontiers[i].1 !in had && AddedFromClosure(s, before, after, frontiers[i].0)
    ensures AddedFor(s, frontiers, had, first, after)
  {
    hide FromClosure;
    forall d | d in after && d !in first
      ensures exists j :: 0 <= j < |frontiers| && frontiers[j].1 !in had && FromClosure(s, frontiers[j].0, d, after[d])
    {
      if d in before {
        var j :| 0 <= j < |frontiers| && frontiers[j].1 !in had && FromClosure(s, frontiers[j].0, d, before[d]);
      } else {
        assert FromClosure(s, frontiers[i].0, d, after[d]);
      }
    }
  }
}
