/** Validating a frontier's closure (src/exchange/ingest.rs). */
module Quarantine {
  import opened Varint
  import opened Wrappers
  import opened Objects
  import opened Store
  import opened Packs

  // An explicit stack of frontiers, bounded in depth, that looks at every chain of parents before
  // anything is stored.

  /** An identity as a descriptor writes it. */
  type Hex = string

  datatype Frontier = Frontier(sourceState: Gid, headChange: Gid, trajectory: Option<Gid>,
                               parents: seq<Hex>, packs: seq<Hex>, requiredSchemas: seq<nat>)

  /** The exchange directory: descriptor and pack files by identity, and the readings of hex and of descriptors. */
  datatype Disk = Disk(frontiers: map<Digest, seq<byte>>, packs: map<Digest, seq<byte>>,
                       digestOf: Hex -> Option<Digest>, parse: seq<byte> -> Option<Frontier>)

  datatype IngestLimits = IngestLimits(packs: ExchangeLimits, maxIngestBytes: nat, maxDepth: nat)

  datatype IngestError =
    | DepthExceeded | UnsupportedSchema | MalformedId | MissingParent | ParentMismatch | BadDescriptor
    | MissingPack | TooManyBytes | PackMismatch | BadPack(pack: PackError) | NotPromoted(store: StoreError) | NoHead

  /** What a validation needs to know. */
  datatype Setting = Setting(disk: Disk, limits: IngestLimits, w: World)

  function ReadParent(s: Setting, hex: Hex): Result<Frontier, IngestError>
  {
    match s.disk.digestOf(hex)
    case None => Err(MalformedId)
    case Some(id) =>
      if id !in s.disk.frontiers then Err(MissingParent)
      else
        var bytes := s.disk.frontiers[id];
        if s.w.hash(bytes) != id then Err(ParentMismatch)
        else match s.disk.parse(bytes)
          case None => Err(BadDescriptor)
          case Some(f) => Ok(f)
  }

  /** The bytes of a pack file. */
  function PackFile(s: Setting, hex: Hex): Result<(Digest, seq<byte>), IngestError>
  {
    match s.disk.digestOf(hex)
    case None => Err(MalformedId)
    case Some(id) => if id !in s.disk.packs then Err(MissingPack) else Ok((id, s.disk.packs[id]))
  }

  /** A pack as the quarantine accepts it. */
  function ReadPack(s: Setting, hex: Hex): Result<seq<PackObject>, IngestError>
  {
    match PackFile(s, hex)
    case Err(e) => Err(e)
    case Ok((id, bytes)) =>
      if s.w.hash(bytes) != id then Err(PackMismatch)
      else match DecodePack(bytes, s.limits.packs, s.w)
        case Err(e) => Err(BadPack(e))
        case Ok(objects) => Ok(objects)
  }

  predicate SchemasSupported(f: Frontier) { forall i :: 0 <= i < |f.requiredSchemas| ==> f.requiredSchemas[i] == 1 }

  // ---- Sums over packs ----

  ghost function Sum(packs: set<Hex>, of: Hex -> nat): nat
  {
    if packs == {} then 0 else var hex :| hex in packs; of(hex) + Sum(packs - {hex}, of)
  }

  lemma {:induction false} SumAdd(packs: set<Hex>, hex: Hex, of: Hex -> nat)
    requires hex !in packs
    ensures Sum(packs + {hex}, of) == Sum(packs, of) + of(hex)
  {
    var all := packs + {hex};
    var first :| first in all && Sum(all, of) == of(first) + Sum(all - {first}, of);
    if first == hex {
      assert all - {first} == packs;
    } else {
      SumAdd(packs - {first}, hex, of);
      assert all - {first} == (packs - {first}) + {hex};
      SumAdd(packs - {first}, first, of);
      assert packs == (packs - {first}) + {first};
    }
  }

  ghost function SizeOf(s: Setting, hex: Hex): nat { if PackFile(s, hex).Ok? then |PackFile(s, hex).value.1| else 0 }

  ghost function CountOf(s: Setting, hex: Hex): nat { if ReadPack(s, hex).Ok? then |ReadPack(s, hex).value| else 0 }

  /** The size of a pack file. */
  ghost function FileSize(s: Setting): Hex -> nat { hex => SizeOf(s, hex) }

  /** How many objects a pack holds. */
  ghost function ObjectCount(s: Setting): Hex -> nat { hex => CountOf(s, hex) }

  // ---- The closure of a frontier ----

  ghost predicate IsParent(s: Setting, f: Frontier, p: Frontier)
  {
    exists hex :: hex in f.parents && ReadParent(s, hex) == Ok(p)
  }

  /** A chain of frontiers, each a parent of the one before, starting at `root`. */
  ghost predicate Chain(s: Setting, root: Frontier, chain: seq<Frontier>)
  {
    && chain != [] && chain[0] == root
    && forall i :: 0 <= i < |chain| - 1 ==> IsParent(s, chain[i], chain[i + 1])
  }

  ghost predicate InClosure(s: Setting, root: Frontier, f: Frontier)
  {
    exists chain :: Chain(s, root, chain) && chain[|chain| - 1] == f
  }

  /** A frontier whose schemas, parents and packs are all fine. */
  ghost predicate Sound(s: Setting, f: Frontier)
  {
    && SchemasSupported(f)
    && (forall hex :: hex in f.parents ==> ReadParent(s, hex).Ok?)
    && forall hex :: hex in f.packs ==> ReadPack(s, hex).Ok?
  }

  /** No chain of parents is longer than the limit, and every frontier at the end of one is sound. */
  ghost predicate AllSound(s: Setting, root: Frontier)
  {
    forall chain :: Chain(s, root, chain) ==> |chain| - 1 <= s.limits.maxDepth && Sound(s, chain[|chain| - 1])
  }

  // ---- What being sound comes to ----

  /** The file named by this identity is on disk, hashes to it, and describes this frontier. */
  ghost predicate ParentIs(s: Setting, hex: Hex, id: Digest, f: Frontier)
  {
    && s.disk.digestOf(hex) == Some(id) && id in s.disk.frontiers
    && s.w.hash(s.disk.frontiers[id]) == id && s.disk.parse(s.disk.frontiers[id]) == Some(f)
  }

  /** The pack file named by this identity is on disk, hashes to it, and decodes to these objects. */
  ghost predicate PackIs(s: Setting, hex: Hex, id: Digest, objects: seq<PackObject>)
  {
    && s.disk.digestOf(hex) == Some(id) && id in s.disk.packs
    && s.w.hash(s.disk.packs[id]) == id && DecodePack(s.disk.packs[id], s.limits.packs, s.w) == Ok(objects)
  }

  lemma {:induction false} ReadsParent(s: Setting, hex: Hex, f: Frontier)
    ensures ReadParent(s, hex) == Ok(f) <==> exists id: Digest :: ParentIs(s, hex, id, f)
  {
    if ReadParent(s, hex) == Ok(f) { assert ParentIs(s, hex, s.disk.digestOf(hex).value, f); }
  }

  lemma {:induction false} ReadsPack(s: Setting, hex: Hex, objects: seq<PackObject>)
    ensures ReadPack(s, hex) == Ok(objects) <==> exists id: Digest :: PackIs(s, hex, id, objects)
  {
    hide DecodePack;
    if ReadPack(s, hex) == Ok(objects) { assert PackIs(s, hex, s.disk.digestOf(hex).value, objects); }
  }

  ghost predicate HasParent(s: Setting, hex: Hex) { exists id: Digest, f :: ParentIs(s, hex, id, f) }

  ghost predicate HasPack(s: Setting, hex: Hex) { exists id: Digest, objects :: PackIs(s, hex, id, objects) }

  /** A frontier is sound exactly when it asks for no schema version but 1 and every parent and every pack it
      names is on disk, has the identity it is named by, and can be read. */
  lemma {:induction false} SoundExactly(s: Setting, f: Frontier)
    ensures Sound(s, f)
      <==> && (forall v :: v in f.requiredSchemas ==> v == 1)
           && (forall hex :: hex in f.parents ==> HasParent(s, hex))
           && forall hex :: hex in f.packs ==> HasPack(s, hex)
  {
    hide ReadParent, ReadPack, ParentIs, PackIs;
    forall hex ensures ReadParent(s, hex).Ok? <==> HasParent(s, hex) { ParentReads(s, hex); }
    forall hex ensures ReadPack(s, hex).Ok? <==> HasPack(s, hex) { PackReads(s, hex); }
    SchemasAre(f);
    hide SchemasSupported, HasParent, HasPack;
  }

  lemma {:induction false} SchemasAre(f: Frontier)
    ensures SchemasSupported(f) <==> forall v :: v in f.requiredSchemas ==> v == 1
  {
    assert forall i :: 0 <= i < |f.requiredSchemas| ==> f.requiredSchemas[i] in f.requiredSchemas;
  }

  lemma {:induction false} ParentReads(s: Setting, hex: Hex)
    ensures ReadParent(s, hex).Ok? <==> HasParent(s, hex)
  {
    hide ReadParent, ParentIs;
    if ReadParent(s, hex).Ok? { ReadsParent(s, hex, ReadParent(s, hex).value); }
    if HasParent(s, hex) {
      var id: Digest, f :| ParentIs(s, hex, id, f);
      ReadsParent(s, hex, f);
    }
  }

  lemma {:induction false} PackReads(s: Setting, hex: Hex)
    ensures ReadPack(s, hex).Ok? <==> HasPack(s, hex)
  {
    hide ReadPack, PackIs;
    if ReadPack(s, hex).Ok? { ReadsPack(s, hex, ReadPack(s, hex).value); }
    if HasPack(s, hex) {
      var id: Digest, objects :| PackIs(s, hex, id, objects);
      ReadsPack(s, hex, objects);
    }
  }

  // ---- The stack walk ----

  datatype Frame = Frame(frontier: Frontier, depth: nat)

  /** More than any descriptor on disk has parents. */
  ghost function Breadth(frontiers: map<Digest, seq<byte>>, parse: seq<byte> -> Option<Frontier>): (n: nat)
    ensures forall d :: d in frontiers && parse(frontiers[d]).Some? ==> |parse(frontiers[d]).value.parents| < n
  {
    if frontiers == map[] then 1
    else
      var d :| d in frontiers;
      var rest := frontiers - {d};
      var n := Breadth(rest, parse);
      assert forall e :: e in frontiers && e != d ==> e in rest && rest[e] == frontiers[e];
      var own := if parse(frontiers[d]).Some? then |parse(frontiers[d]).value.parents| + 1 else 0;
      if own > n then own else n
  }

  ghost function Pow(b: nat, k: nat): nat { if k == 0 then 1 else b * Pow(b, k - 1) }

  /** What a frame may still cost: a frame weighs more than all the parents it can push together. */
  ghost function Weight(b: nat, limit: nat, f: Frame): nat
  {
    if f.depth > limit then 1 else Pow(b, limit + 1 - f.depth)
  }

  ghost function TotalWeight(b: nat, limit: nat, stack: seq<Frame>): nat
  {
    if stack == [] then 0 else Weight(b, limit, stack[|stack| - 1]) + TotalWeight(b, limit, stack[..|stack| - 1])
  }

  lemma {:induction false} WeighPush(b: nat, limit: nat, stack: seq<Frame>, f: Frame)
    ensures TotalWeight(b, limit, stack + [f]) == TotalWeight(b, limit, stack) + Weight(b, limit, f)
  {
    assert (stack + [f])[..|stack|] == stack;
  }

  lemma {:induction false} PowPositive(b: nat, k: nat)
    requires b > 0
    ensures Pow(b, k) > 0
  {
    if k > 0 { PowPositive(b, k - 1); }
  }

  lemma {:induction false} FewerThan(n: nat, b: nat, unit: nat)
    requires n < b && unit > 0
    ensures n * unit < b * unit
  {
  }

  /** The parents of a frame together weigh less than the frame. */
  lemma {:induction false} Outweighs(b: nat, limit: nat, depth: nat, n: nat)
    requires n < b && depth <= limit
    ensures n * Pow(b, limit - depth) < Pow(b, limit + 1 - depth)
  {
    PowPositive(b, limit - depth);
    FewerThan(n, b, Pow(b, limit - depth));
  }

  /** A frame stands at the end of a chain as long as its depth. */
  ghost predicate AtDepth(s: Setting, root: Frontier, f: Frame)
  {
    exists chain :: Chain(s, root, chain) && chain[|chain| - 1] == f.frontier && |chain| == f.depth + 1
  }

  lemma {:induction false} RootAtDepth(s: Setting, root: Frontier)
    ensures AtDepth(s, root, Frame(root, 0))
  {
    assert Chain(s, root, [root]);
  }

  lemma {:induction false} ParentAtDepth(s: Setting, root: Frontier, f: Frame, p: Frontier)
    requires AtDepth(s, root, f) && IsParent(s, f.frontier, p)
    ensures AtDepth(s, root, Frame(p, f.depth + 1))
  {
    hide IsParent;
    var chain: seq<Frontier> :| Chain(s, root, chain) && chain[|chain| - 1] == f.frontier && |chain| == f.depth + 1;
    var longer := chain + [p];
    assert forall i :: 0 <= i < |chain| ==> longer[i] == chain[i];
    assert Chain(s, root, longer);
  }

  /** The frames seen so far (`done`) and those waiting (`stack`): every one is in the closure, and
      every parent of a frame that was seen is seen or waiting one level deeper. */
  ghost predicate Walked(s: Setting, root: Frontier, done: set<Frame>, stack: seq<Frame>)
  {
    && (Frame(root, 0) in done || Frame(root, 0) in stack)
    && (forall f :: f in done || f in stack ==> AtDepth(s, root, f))
    && (forall f :: f in done ==> f.depth <= s.limits.maxDepth && SchemasSupported(f.frontier))
    && (forall f, hex :: f in done && hex in f.frontier.parents ==> ReadParent(s, hex).Ok?)
    && forall f, p :: f in done && IsParent(s, f.frontier, p) ==>
        Frame(p, f.depth + 1) in done || Frame(p, f.depth + 1) in stack
  }

  /** The frames one frame pushes. */
  ghost predicate Pushed(s: Setting, f: Frame, parents: seq<Hex>, more: seq<Frame>)
  {
    && |more| == |parents|
    && forall i :: 0 <= i < |parents| ==>
        ReadParent(s, parents[i]) == Ok(more[i].frontier) && more[i].depth == f.depth + 1
  }

  lemma {:induction false} WalkStart(s: Setting, root: Frontier)
    ensures Walked(s, root, {}, [Frame(root, 0)])
  {
    RootAtDepth(s, root);
  }

  lemma {:induction false} WalkStep(s: Setting, root: Frontier, done: set<Frame>, stack: seq<Frame>, f: Frame,
        more: seq<Frame>)
    requires Walked(s, root, done, stack + [f]) && Pushed(s, f, f.frontier.parents, more)
    requires f.depth <= s.limits.maxDepth && SchemasSupported(f.frontier)
    ensures Walked(s, root, done + {f}, stack + more)
  {
    hide ReadParent, SchemasSupported, AtDepth;
    assert f in stack + [f];
    assert forall g :: g in stack + [f] <==> g in stack || g == f;
    assert forall g :: g in stack + more <==> g in stack || g in more;
    forall g | g in more ensures AtDepth(s, root, g) {
      var i :| 0 <= i < |more| && more[i] == g;
      assert f.frontier.parents[i] in f.frontier.parents;
      assert IsParent(s, f.frontier, g.frontier);
      ParentAtDepth(s, root, f, g.frontier);
    }
    forall hex | hex in f.frontier.parents ensures ReadParent(s, hex).Ok? {
      var i :| 0 <= i < |f.frontier.parents| && f.frontier.parents[i] == hex;
    }
    forall p | IsParent(s, f.frontier, p) ensures Frame(p, f.depth + 1) in more {
      var hex :| hex in f.frontier.parents && ReadParent(s, hex) == Ok(p);
      var i :| 0 <= i < |f.frontier.parents| && f.frontier.parents[i] == hex;
      assert more[i] == Frame(p, f.depth + 1);
    }
  }

  /** When the stack is empty every chain from the root has been walked to its end. */
  lemma {:induction false} ChainWalked(s: Setting, root: Frontier, done: set<Frame>, chain: seq<Frontier>, i: nat)
    requires Walked(s, root, done, []) && Chain(s, root, chain) && i < |chain|
    ensures Frame(chain[i], i) in done
  {
    hide IsParent, ReadParent, SchemasSupported, AtDepth;
    if i > 0 {
      ChainWalked(s, root, done, chain, i - 1);
      assert IsParent(s, chain[i - 1], chain[i - 1 + 1]);
    }
  }

  /** What reading the packs has done: every pack newly marked is good and waits with all its
      objects, and nothing else waits. */
  ghost predicate Gathered(s: Setting, before: set<Hex>, processed: set<Hex>, pending: seq<PackObject>)
  {
    && before <= processed
    && |pending| == Sum(processed - before, ObjectCount(s))
    && (forall hex :: hex in processed && hex !in before ==>
        ReadPack(s, hex).Ok? && forall o :: o in ReadPack(s, hex).value ==> o in pending)
    && forall o :: o in pending ==> exists hex :: hex in processed && hex !in before && FromPack(s, hex, o)
  }

  ghost predicate FromPack(s: Setting, hex: Hex, o: PackObject)
  {
    ReadPack(s, hex).Ok? && o in ReadPack(s, hex).value
  }

  lemma {:induction false} GatherOne(s: Setting, before: set<Hex>, processed: set<Hex>, pending: seq<PackObject>,
        hex: Hex)
    requires Gathered(s, before, processed, pending) && hex !in processed && ReadPack(s, hex).Ok?
    ensures Gathered(s, before, processed + {hex}, pending + ReadPack(s, hex).value)
  {
    hide ReadPack, Sum;
    var objects := ReadPack(s, hex).value;
    var all := pending + objects;
    if hex !in before {
      SumAdd(processed - before, hex, ObjectCount(s));
      assert (processed + {hex}) - before == (processed - before) + {hex};
    }
    forall o | o in all ensures exists h :: h in processed + {hex} && h !in before && FromPack(s, h, o) {
      if o in objects {
        assert FromPack(s, hex, o);
      } else {
        assert o in pending;
        var h :| h in processed && h !in before && FromPack(s, h, o);
      }
    }
  }

  /** The bytes counted are those of the packs marked since `before`, and within the budget. */
  ghost predicate Budgeted(s: Setting, before: set<Hex>, bytesBefore: nat, processed: set<Hex>, totalBytes: nat)
  {
    before <= processed && totalBytes == bytesBefore + Sum(processed - before, FileSize(s))
        && totalBytes <= s.limits.maxIngestBytes
  }

  ghost predicate Among(over: set<Hex>, before: set<Hex>, processed: set<Hex>, packs: seq<Hex>)
  {
    forall hex :: hex in over ==> hex !in before && (hex in processed || hex in packs)
  }

  ghost predicate Exceeds(s: Setting, bytesBefore: nat, packs: set<Hex>)
  {
    bytesBefore + Sum(packs, FileSize(s)) > s.limits.maxIngestBytes
  }

  lemma {:induction false} CountFile(s: Setting, before: set<Hex>, bytesBefore: nat, processed: set<Hex>,
        totalBytes: nat, hex: Hex)
    requires Budgeted(s, before, bytesBefore, processed, totalBytes) && hex !in processed && PackFile(s, hex).Ok?
    ensures totalBytes + |PackFile(s, hex).value.1| == bytesBefore + Sum((processed + {hex}) - before, FileSize(s))
  {
    hide Sum;
    SumAdd(processed - before, hex, FileSize(s));
    assert (processed + {hex}) - before == (processed - before) + {hex};
  }

  /** The packs of one frontier, each read once over a whole pass and within the byte budget. */
  method ReadPacks(s: Setting, packs: seq<Hex>, ghost before: set<Hex>, ghost bytesBefore: nat,
                   processed: set<Hex>, pending: seq<PackObject>, totalBytes: nat)
    returns (r: Result<seq<PackObject>, IngestError>, processed': set<Hex>, totalBytes': nat)
    requires Gathered(s, before, processed, pending) && Budgeted(s, before, bytesBefore, processed, totalBytes)
    ensures r.Ok? ==>
        Gathered(s, before, processed', r.value) && processed <= processed'
        && Budgeted(s, before, bytesBefore, processed', totalBytes')
    ensures r == Err(TooManyBytes) ==>
      exists over: set<Hex> :: Among(over, before, processed, packs) && Exceeds(s, bytesBefore, over)
    ensures r.Ok? ==> forall hex :: hex in packs ==> hex in processed'
    ensures r.Ok? ==> forall hex :: hex in processed' ==> hex in processed || hex in packs
    ensures r.Err? ==> r.error == TooManyBytes || exists hex :: hex in packs && ReadPack(s, hex).Err?
  {
    hide Gathered, DecodePack, Sum;
    var objects := pending;
    processed', totalBytes' := processed, totalBytes;
    for i := 0 to |packs|
      invariant Gathered(s, before, processed', objects) && processed <= processed'
          && Budgeted(s, before, bytesBefore, processed', totalBytes')
      invariant forall j :: 0 <= j < i ==> packs[j] in processed'
      invariant forall hex :: hex in processed' ==> hex in processed || hex in packs
    {
      var hex := packs[i];
      assert hex in packs;
      var id := s.disk.digestOf(hex);
      if id == None { return Err(MalformedId), processed', totalBytes'; }
      if hex !in processed' {
        if id.value !in s.disk.packs { return Err(MissingPack), processed', totalBytes'; }
        var bytes := s.disk.packs[id.value];
        CountFile(s, before, bytesBefore, processed', totalBytes', hex);
        totalBytes' := totalBytes' + |bytes|;
        if totalBytes' > s.limits.maxIngestBytes {
          ghost var over := (processed' + {hex}) - before;
          assert Among(over, before, processed, packs) && Exceeds(s, bytesBefore, over);
          return Err(TooManyBytes), processed', totalBytes';
        }
        if s.w.hash(bytes) != id.value { return Err(PackMismatch), processed', totalBytes'; }
        var decoded := DecodePack(bytes, s.limits.packs, s.w);
        if decoded.Err? { return Err(BadPack(decoded.error)), processed', totalBytes'; }
        assert ReadPack(s, hex) == Ok(decoded.value);
        GatherOne(s, before, processed', objects, hex);
        objects := objects + decoded.value;
        processed' := processed' + {hex};
      }
    }
    r := Ok(objects);
  }

  method ReadParents(s: Setting, f: Frame) returns (r: Result<seq<Frame>, IngestError>)
    ensures r.Ok? ==> Pushed(s, f, f.frontier.parents, r.value)
    ensures r.Err? ==> r.error != TooManyBytes && exists hex :: hex in f.frontier.parents && ReadParent(s, hex).Err?
  {
    var more: seq<Frame> := [];
    for i := 0 to |f.frontier.parents|
      invariant Pushed(s, f, f.frontier.parents[..i], more)
    {
      var parent := ReadParent(s, f.frontier.parents[i]);
      if parent.Err? {
        assert f.frontier.parents[i] in f.frontier.parents;
        return Err(parent.error);
      }
      more := more + [Frame(parent.value, f.depth + 1)];
    }
    assert f.frontier.parents[..|f.frontier.parents|] == f.frontier.parents;
    return Ok(more);
  }

  lemma {:induction false} OneMoreUnit(n: nat, unit: nat)
    requires n > 0
    ensures n * unit == (n - 1) * unit + unit
  {
  }

  lemma {:induction false} ParentWeight(b: nat, limit: nat, f: Frame)
    requires 1 <= f.depth <= limit + 1
    ensures Weight(b, limit, f) == Pow(b, limit + 1 - f.depth)
  {
  }

  lemma {:induction false} WeighPushed(s: Setting, b: nat, stack: seq<Frame>, f: Frame, parents: seq<Hex>,
        more: seq<Frame>)
    requires Pushed(s, f, parents, more) && f.depth <= s.limits.maxDepth
    ensures TotalWeight(b, s.limits.maxDepth, stack + more)
        == TotalWeight(b, s.limits.maxDepth, stack) + |more| * Pow(b, s.limits.maxDepth - f.depth)
  {
    hide ReadParent, Pow, TotalWeight, Weight;
    if more == [] {
      assert stack + more == stack;
    } else {
      OneMoreUnit(|more|, Pow(b, s.limits.maxDepth - f.depth));
      var last := more[|more| - 1];
      ParentWeight(b, s.limits.maxDepth, last);
      WeighPushed(s, b, stack, f, parents[..|parents| - 1], more[..|more| - 1]);
      assert stack + more == (stack + more[..|more| - 1]) + [last];
      WeighPush(b, s.limits.maxDepth, stack + more[..|more| - 1], last);
    }
  }

  ghost predicate Narrow(s: Setting, root: Frontier, b: nat)
  {
    |root.parents| < b && Breadth(s.disk.frontiers, s.disk.parse) <= b
  }

  lemma {:induction false} NarrowAt(s: Setting, root: Frontier, b: nat, f: Frame)
    requires Narrow(s, root, b) && AtDepth(s, root, f)
    ensures |f.frontier.parents| < b
  {
    var chain: seq<Frontier> :| Chain(s, root, chain) && chain[|chain| - 1] == f.frontier;
    if |chain| > 1 {
      assert IsParent(s, chain[|chain| - 2], chain[|chain| - 2 + 1]);
      var hex :| hex in chain[|chain| - 2].parents && ReadParent(s, hex) == Ok(f.frontier);
    }
  }

  /** All packs of the closure are marked, and every pack this call marked belongs to the closure. */
  ghost predicate Marked(s: Setting, root: Frontier, before: set<Hex>, processed: set<Hex>)
  {
    && (forall f, hex :: InClosure(s, root, f) && hex in f.packs ==> hex in processed)
    && forall hex :: hex in processed && hex !in before ==> exists f :: InClosure(s, root, f) && hex in f.packs
  }

  /** Packs of the closure that had not been read before and alone exceed what is left of the budget. */
  ghost predicate OverBudget(s: Setting, root: Frontier, before: set<Hex>, bytesBefore: nat)
  {
    exists over: set<Hex> :: Exceeds(s, bytesBefore, over) && UnreadOf(s, root, before, over)
  }

  ghost predicate UnreadOf(s: Setting, root: Frontier, before: set<Hex>, packs: set<Hex>)
  {
    forall hex :: hex in packs ==> hex !in before && exists f :: InClosure(s, root, f) && hex in f.packs
  }

  /** The packs read so far, in this call or before it, were all good. */
  ghost predicate AllGood(s: Setting, processed: set<Hex>)
  {
    forall hex :: hex in processed ==> ReadPack(s, hex).Ok?
  }

  /** All packs read so far are those of the frames seen. */
  ghost predicate PacksSeen(done: set<Frame>, before: set<Hex>, processed: set<Hex>)
  {
    && (forall f, hex :: f in done && hex in f.frontier.packs ==> hex in processed)
    && forall hex :: hex in processed && hex !in before ==> exists f :: f in done && hex in f.frontier.packs
  }

  lemma {:induction false} PacksMore(done: set<Frame>, before: set<Hex>, processed: set<Hex>, f: Frame,
        processed': set<Hex>)
    requires PacksSeen(done, before, processed) && processed <= processed'
    requires forall hex :: hex in f.frontier.packs ==> hex in processed'
    requires forall hex :: hex in processed' ==> hex in processed || hex in f.frontier.packs
    ensures PacksSeen(done + {f}, before, processed')
  {
    forall hex | hex in processed' && hex !in before ensures exists g :: g in done + {f} && hex in g.frontier.packs {
      if hex in f.frontier.packs { assert f in done + {f}; } else { var g :| g in done && hex in g.frontier.packs; }
    }
  }

  lemma {:induction false} AllAccepted(s: Setting, root: Frontier, done: set<Frame>, before: set<Hex>,
        processed: set<Hex>, pending: seq<PackObject>)
    requires Walked(s, root, done, []) && PacksSeen(done, before, processed) && AllGood(s, before)
        && Gathered(s, before, processed, pending)
    ensures AllSound(s, root) && Marked(s, root, before, processed) && AllGood(s, processed)
  {
    hide ReadParent, ReadPack, SchemasSupported, IsParent, AtDepth;
    forall chain | Chain(s, root, chain)
      ensures |chain| - 1 <= s.limits.maxDepth && Sound(s, chain[|chain| - 1])
    {
      ChainWalked(s, root, done, chain, |chain| - 1);
      assert Frame(chain[|chain| - 1], |chain| - 1) in done;
    }
    forall f, hex | InClosure(s, root, f) && hex in f.packs ensures hex in processed {
      var chain: seq<Frontier> :| Chain(s, root, chain) && chain[|chain| - 1] == f;
      ChainWalked(s, root, done, chain, |chain| - 1);
      assert Frame(f, |chain| - 1) in done;
    }
    forall hex | hex in processed && hex !in before ensures exists f :: InClosure(s, root, f) && hex in f.packs {
      var f :| f in done && hex in f.frontier.packs;
      DepthInClosure(s, root, f);
    }
  }

  lemma {:induction false} DepthInClosure(s: Setting, root: Frontier, f: Frame)
    requires AtDepth(s, root, f)
    ensures InClosure(s, root, f.frontier)
  {
  }

  /** A frame on the stack that is too deep or not sound shows that the closure is not. */
  lemma {:induction false} Unsound(s: Setting, root: Frontier, done: set<Frame>, stack: seq<Frame>, f: Frame)
    requires Walked(s, root, done, stack) && f in stack && (f.depth > s.limits.maxDepth || !Sound(s, f.frontier))
    ensures !AllSound(s, root)
  {
    hide Sound;
    var chain: seq<Frontier> :| Chain(s, root, chain) && chain[|chain| - 1] == f.frontier && |chain| == f.depth + 1;
  }

  /** The quarantine: it walks every chain of parents with an explicit stack and no record of what it
      has seen, and stores nothing. It ends because a frame outweighs all it pushes. */
  method ValidateClosure(s: Setting, root: Frontier, processed: set<Hex>, totalBytes: nat)
    returns (r: Result<seq<PackObject>, IngestError>, processed': set<Hex>, totalBytes': nat)
    requires totalBytes <= s.limits.maxIngestBytes && AllGood(s, processed)
    ensures r.Ok? ==> AllSound(s, root) && AllGood(s, processed') && Marked(s, root, processed, processed')
    ensures r.Ok? ==>
        Gathered(s, processed, processed', r.value) && Budgeted(s, processed, totalBytes, processed', totalBytes')
    ensures r.Err? ==>
        if r.error == TooManyBytes then OverBudget(s, root, processed, totalBytes) else !AllSound(s, root)
  {
    hide Walked, Gathered, Marked, AllGood, AllSound, Pushed, ReadPack, ReadParent, SchemasSupported, PacksSeen,
      Pow, TotalWeight, Narrow, OverBudget, Budgeted, Exceeds;
    var stack := [Frame(root, 0)];
    var pending: seq<PackObject> := [];
    processed', totalBytes' := processed, totalBytes;
    ghost var done: set<Frame> := {};
    ghost var b := Breadth(s.disk.frontiers, s.disk.parse) + |root.parents| + 1;
    assert Narrow(s, root, b) by { IsNarrow(s, root, b); }
    WalkStart(s, root);
    NothingGathered(s, processed, totalBytes);
    while stack != []
      invariant Walked(s, root, done, stack) && PacksSeen(done, processed, processed')
      invariant Gathered(s, processed, processed', pending)
          && Budgeted(s, processed, totalBytes, processed', totalBytes')
      decreases TotalWeight(b, s.limits.maxDepth, stack)
    {
      var frame := stack[|stack| - 1];
      var rest := stack[..|stack| - 1];
      assert stack == rest + [frame];
      assert frame in stack;
      if frame.depth > s.limits.maxDepth {
        Unsound(s, root, done, stack, frame);
        return Err(DepthExceeded), processed', totalBytes';
      }
      if !SchemasSupported(frame.frontier) {
        Unsound(s, root, done, stack, frame);
        return Err(UnsupportedSchema), processed', totalBytes';
      }
      var parents := ReadParents(s, frame);
      if parents.Err? {
        Unsound(s, root, done, stack, frame);
        return Err(parents.error), processed', totalBytes';
      }
      ghost var had := processed';
      r, processed', totalBytes' :=
          ReadPacks(s, frame.frontier.packs, processed, totalBytes, processed', pending, totalBytes');
      if r.Err? {
        if r.error == TooManyBytes {
          Overrun(s, root, done, stack, frame, processed, totalBytes, had);
        } else {
          Unsound(s, root, done, stack, frame);
        }
        return;
      }
      pending := r.value;
      PacksMore(done, processed, had, frame, processed');
      WalkStep(s, root, done, rest, frame, parents.value);
      assert TotalWeight(b, s.limits.maxDepth, rest + parents.value) < TotalWeight(b, s.limits.maxDepth, stack) by {
        StepWeight(s, root, b, done, rest, frame, parents.value);
      }
      done := done + {frame};
      stack := rest + parents.value;
    }
    AllAccepted(s, root, done, processed, processed', pending);
    r := Ok(pending);
  }

  lemma {:induction false} IsNarrow(s: Setting, root: Frontier, b: nat)
    requires b == Breadth(s.disk.frontiers, s.disk.parse) + |root.parents| + 1
    ensures Narrow(s, root, b)
  {
  }

  lemma {:induction false} NothingGathered(s: Setting, processed: set<Hex>, totalBytes: nat)
    requires totalBytes <= s.limits.maxIngestBytes
    ensures Gathered(s, processed, processed, []) && PacksSeen({}, processed, processed)
        && Budgeted(s, processed, totalBytes, processed, totalBytes)
  {
    assert processed - processed == {};
  }

  /** The packs that break the budget are all of the closure. */
  lemma {:induction false} Overrun(s: Setting, root: Frontier, done: set<Frame>, stack: seq<Frame>, frame: Frame,
        before: set<Hex>, bytesBefore: nat, had: set<Hex>)
    requires Walked(s, root, done, stack) && frame in stack && PacksSeen(done, before, had)
    requires exists over: set<Hex> :: Among(over, before, had, frame.frontier.packs) && Exceeds(s, bytesBefore, over)
    ensures OverBudget(s, root, before, bytesBefore)
  {
    hide AtDepth, InClosure, IsParent, ReadParent, SchemasSupported, Exceeds;
    var over: set<Hex> :| Among(over, before, had, frame.frontier.packs) && Exceeds(s, bytesBefore, over);
    forall hex | hex in over ensures exists f :: InClosure(s, root, f) && hex in f.packs {
      if hex in frame.frontier.packs {
        DepthInClosure(s, root, frame);
      } else {
        var f :| f in done && hex in f.frontier.packs;
        DepthInClosure(s, root, f);
      }
    }
  }

  lemma {:induction false} StepWeight(s: Setting, root: Frontier, b: nat, done: set<Frame>, rest: seq<Frame>,
        frame: Frame, more: seq<Frame>)
    requires Narrow(s, root, b) && Walked(s, root, done, rest + [frame]) && frame.depth <= s.limits.maxDepth
    requires Pushed(s, frame, frame.frontier.parents, more)
    ensures TotalWeight(b, s.limits.maxDepth, rest + more) < TotalWeight(b, s.limits.maxDepth, rest + [frame])
  {
    hide Narrow, AtDepth, ReadParent, Pow, TotalWeight;
    assert frame in rest + [frame];
    NarrowAt(s, root, b, frame);
    WeighPushed(s, b, rest, frame, frame.frontier.parents, more);
    WeighPush(b, s.limits.maxDepth, rest, frame);
    Outweighs(b, s.limits.maxDepth, frame.depth, |more|);
  }
}
