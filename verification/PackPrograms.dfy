/** The pack encoder, decoder and builder as src/exchange/mod.rs and src/exchange/export.rs run them. */
module PackPrograms {
  import opened Varint
  import opened Paths
  import opened Wrappers
  import opened Objects
  import opened Store
  import opened Packs
  import opened PackBuilder

  datatype Artifact = Artifact(bytes: seq<byte>, id: Digest)

  lemma {:induction false} BodyPush(objects: seq<PackObject>, o: PackObject)
    ensures BodyBytes(objects + [o]) == BodyBytes(objects) + ObjectBytes(o)
  {
    hide ObjectBytes;
    if objects == [] {
      assert [] + [o] == [o] && [o][1..] == [];
      assert BodyBytes([o]) == ObjectBytes(o) + [] == ObjectBytes(o);
    } else {
      BodyPush(objects[1..], o);
      assert (objects + [o])[1..] == objects[1..] + [o] && (objects + [o])[0] == objects[0];
    }
  }

  method EncodeObjects(objects: seq<PackObject>) returns (r: Result<seq<byte>, PackError>)
    ensures r == EncodePack(objects)
  {
    hide GidBelow, LeBytes;
    var prev: Option<Gid> := None;
    assert objects[0..] == objects;
    for i := 0 to |objects|
      invariant ObjectsError(objects, None) == ObjectsError(objects[i..], prev)
    {
      var o := objects[i];
      assert objects[i..][0] == o && objects[i..][1..] == objects[i + 1..];
      if prev.Some? && !GidBelow(prev.value, o.id) { return Err(NotAscending); }
      prev := Some(o.id);
      if |o.envelope| > U32_MAX { return Err(ObjectTooLong); }
    }
    var out := PACK_MAGIC;
    out := out + [PACK_VERSION];
    out := out + LeBytes(|objects|, 8);
    assert out == PackHeader(|objects|);
    for i := 0 to |objects|
      invariant out == PackHeader(|objects|) + BodyBytes(objects[..i])
    {
      var o := objects[i];
      out := out + [o.id.family as byte];
      out := out + o.id.digest;
      out := out + LeBytes(|o.envelope|, 8);
      out := out + o.envelope;
      BodyPush(objects[..i], o);
      assert objects[..i + 1] == objects[..i] + [o];
      assert out == PackHeader(|objects|) + BodyBytes(objects[..i]) + ObjectBytes(o);
    }
    assert objects[..|objects|] == objects;
    return Ok(out + PACK_TRAILER);
  }

  /** Objects already read before those still to be read. */
  ghost function ReadBefore(out: seq<PackObject>, rest: Result<(seq<PackObject>, nat),
        PackError>): Result<(seq<PackObject>, nat), PackError>
  {
    match rest
    case Err(e) => Err(e)
    case Ok((more, c)) => Ok((out + more, c))
  }

  lemma {:induction false} ReadNext(out: seq<PackObject>, bytes: seq<byte>, cursor: nat, bodyEnd: nat, count: nat,
        prev: Option<Gid>, w: World)
    requires bodyEnd <= |bytes| && count > 0
    ensures var all := ReadBefore(out, DecodeBodies(bytes, cursor, bodyEnd, count, prev, w));
      match DecodeOne(bytes, cursor, bodyEnd, prev, w)
      case Err(e) => all == Err(e)
      case Ok((o, c)) => all == ReadBefore(out + [o], DecodeBodies(bytes, c, bodyEnd, count - 1, Some(o.id), w))
  {
    hide DecodeOne;
    match DecodeOne(bytes, cursor, bodyEnd, prev, w)
    case Err(_) =>
    case Ok((o, c)) =>
      var rest := DecodeBodies(bytes, c, bodyEnd, count - 1, Some(o.id), w);
      if rest.Ok? { assert out + ([o] + rest.value.0) == out + [o] + rest.value.0; }
  }

  /** The part of the loop that reads and checks one object. */
  method ReadObject(bytes: seq<byte>, cursor: nat, bodyEnd: nat, prev: Option<Gid>, w: World)
    returns (r: Result<(PackObject, nat), PackError>)
    requires bodyEnd <= |bytes|
    ensures r == DecodeOne(bytes, cursor, bodyEnd, prev, w)
  {
    hide GidBelow, LeValue, EnvelopeError;
    if cursor + 33 + 8 > bodyEnd { return Err(HeaderTruncated); }
    var family := FamilyFromCode(bytes[cursor]);
    if family.None? { return Err(PackError.UnknownFamily); }
    var id := Gid(family.value, bytes[cursor + 1..cursor + 33]);
    if prev.Some? && !GidBelow(prev.value, id) { return Err(OutOfOrder); }
    var len := LeValue(bytes[cursor + 33..cursor + 41]);
    var start := cursor + 41;
    if start + len >= TWO_64 { return Err(LengthOverflow); }
    if start + len > bodyEnd { return Err(BodyTruncated); }
    var o := PackObject(id, bytes[start..start + len]);
    if w.hash(o.envelope) != id.digest { return Err(IdMismatch); }
    var bad := EnvelopeError(o, w);
    if bad.Some? { return Err(bad.value); }
    return Ok((o, start + len));
  }

  method DecodeObjects(bytes: seq<byte>, limits: ExchangeLimits, w: World)
    returns (r: Result<seq<PackObject>, PackError>)
    ensures r == DecodePack(bytes, limits, w)
  {
    hide LeValue, DecodeBodies, DecodeOne;
    if |bytes| > limits.maxPackBytes { return Err(PackTooLarge); }
    if |bytes| < 21 { return Err(TooShort); }
    if bytes[..4] != PACK_MAGIC { return Err(PackError.BadMagic); }
    if bytes[4] != PACK_VERSION { return Err(BadVersion); }
    var count := LeValue(bytes[5..13]);
    if count > limits.maxObjectsPerPack { return Err(TooManyObjects); }
    var bodyEnd := |bytes| - 8;
    if bytes[bodyEnd..] != PACK_TRAILER { return Err(BadTrailer); }
    var cursor: nat := 13;
    var out: seq<PackObject> := [];
    var prev: Option<Gid> := None;
    ghost var all := DecodeBodies(bytes, 13, bodyEnd, count, None, w);
    assert all.Ok? ==> [] + all.value.0 == all.value.0;
    for i := 0 to count
      invariant all == ReadBefore(out, DecodeBodies(bytes, cursor, bodyEnd, count - i, prev, w))
    {
      ReadNext(out, bytes, cursor, bodyEnd, count - i, prev, w);
      var one := ReadObject(bytes, cursor, bodyEnd, prev, w);
      if one.Err? { return Err(one.error); }
      prev := Some(one.value.0.id);
      cursor := one.value.1;
      out := out + [one.value.0];
    }
    assert all == Ok((out, cursor)) by { NoneLeft(out, bytes, cursor, bodyEnd, prev, w); }
    if cursor != bodyEnd { return Err(PackError.TrailingBytes); }
    return Ok(out);
  }

  lemma {:induction false} NoneLeft(out: seq<PackObject>, bytes: seq<byte>, cursor: nat, bodyEnd: nat,
        prev: Option<Gid>, w: World)
    requires bodyEnd <= |bytes|
    ensures ReadBefore(out, DecodeBodies(bytes, cursor, bodyEnd, 0, prev, w)) == Ok((out, cursor))
  {
    assert out + [] == out;
  }

  // ---- Building ----

  function EncodeChunks(chunks: seq<Chunk>, w: World): Result<seq<Artifact>, PackError>
  {
    if chunks == [] then Ok([])
    else match EncodePack(chunks[0])
      case Err(e) => Err(e)
      case Ok(bytes) =>
        match EncodeChunks(chunks[1..], w)
        case Err(e) => Err(e)
        case Ok(packs) => Ok([Artifact(bytes, w.hash(bytes))] + packs)
  }

  function InsertById(pack: Artifact, sorted: seq<Artifact>): seq<Artifact>
  {
    if sorted == [] || !Below(sorted[0].id, pack.id) then [pack] + sorted
    else [sorted[0]] + InsertById(pack, sorted[1..])
  }

  /** Sorted by identity; equal identities keep their order. */
  function SortById(packs: seq<Artifact>): seq<Artifact>
  {
    if packs == [] then [] else InsertById(packs[0], SortById(packs[1..]))
  }

  ghost function Built(objects: seq<PackObject>, w: World): Result<seq<Artifact>, PackError>
  {
    match EncodeChunks(Cut([], objects), w)
    case Err(e) => Err(e)
    case Ok(packs) => Ok(SortById(packs))
  }

  /** Every two packs are in the order of their identities. */
  ghost predicate InIdOrder(packs: seq<Artifact>)
  {
    forall i, j :: 0 <= i < j < |packs| ==> !Below(packs[j].id, packs[i].id)
  }

  lemma {:induction false} InsertOrders(pack: Artifact, sorted: seq<Artifact>)
    requires InIdOrder(sorted)
    ensures InIdOrder(InsertById(pack, sorted))
        && multiset(InsertById(pack, sorted)) == multiset{pack} + multiset(sorted)
  {
    hide Below, InIdOrder;
    if sorted == [] || !Below(sorted[0].id, pack.id) {
      forall j | 0 <= j < |sorted| ensures !Below(sorted[j].id, pack.id) { NotAfter(pack, sorted, j); }
      OrderedAfter(pack, sorted);
    } else {
      var rest := InsertById(pack, sorted[1..]);
      assert sorted == [sorted[0]] + sorted[1..];
      OrderedOn(sorted);
      InsertOrders(pack, sorted[1..]);
      BelowTotal(sorted[0].id, pack.id);
      forall j | 0 <= j < |rest| ensures !Below(rest[j].id, sorted[0].id) { assert rest[j] in multiset(rest); }
      OrderedAfter(sorted[0], rest);
    }
  }

  lemma {:induction false} OrderedAfter(pack: Artifact, packs: seq<Artifact>)
    requires InIdOrder(packs) && forall j :: 0 <= j < |packs| ==> !Below(packs[j].id, pack.id)
    ensures InIdOrder([pack] + packs)
  {
    hide Below;
  }

  lemma {:induction false} OrderedOn(packs: seq<Artifact>)
    requires packs != [] && InIdOrder(packs)
    ensures InIdOrder(packs[1..]) && forall p :: p in packs[1..] ==> !Below(p.id, packs[0].id)
  {
    hide Below;
    forall p | p in packs[1..] ensures !Below(p.id, packs[0].id) {
      var k :| 0 <= k < |packs| - 1 && packs[1..][k] == p;
      assert packs[k + 1] == p;
    }
  }

  lemma {:induction false} NotAfter(pack: Artifact, sorted: seq<Artifact>, j: nat)
    requires InIdOrder(sorted) && j < |sorted| && !Below(sorted[0].id, pack.id)
    ensures !Below(sorted[j].id, pack.id)
  {
    hide Below;
    BelowTotal(sorted[0].id, sorted[j].id);
    if Below(sorted[j].id, pack.id) && Below(sorted[0].id, sorted[j].id) {
      BelowTransitive(sorted[0].id, sorted[j].id, pack.id);
    }
  }

  lemma {:induction false} SortOrders(packs: seq<Artifact>)
    ensures InIdOrder(SortById(packs))
  {
    hide InIdOrder, InsertById;
    if packs == [] {
      assert InIdOrder([]) by { NoneOrdered(); }
    } else {
      SortOrders(packs[1..]);
      InsertOrders(packs[0], SortById(packs[1..]));
    }
  }

  lemma {:induction false} NoneOrdered()
    ensures InIdOrder([])
  {
  }

  /** Packs already written before those still to be cut. */
  ghost function WrittenBefore(packs: seq<Artifact>,
        rest: Result<seq<Artifact>, PackError>): Result<seq<Artifact>, PackError>
  {
    match rest
    case Err(e) => Err(e)
    case Ok(more) => Ok(packs + more)
  }

  lemma {:induction false} WriteNext(packs: seq<Artifact>, chunk: Chunk, rest: seq<Chunk>, w: World)
    ensures var all := WrittenBefore(packs, EncodeChunks([chunk] + rest, w));
      match EncodePack(chunk)
      case Err(e) => all == Err(e)
      case Ok(bytes) => all == WrittenBefore(packs + [Artifact(bytes, w.hash(bytes))], EncodeChunks(rest, w))
  {
    hide EncodePack;
    assert ([chunk] + rest)[1..] == rest;
    match EncodePack(chunk)
    case Err(_) =>
    case Ok(bytes) =>
      var more := EncodeChunks(rest, w);
      var a := Artifact(bytes, w.hash(bytes));
      if more.Ok? { assert packs + ([a] + more.value) == packs + [a] + more.value; }
  }

  lemma {:induction false} NothingWritten(packs: seq<Artifact>, w: World)
    ensures WrittenBefore(packs, EncodeChunks([], w)) == Ok(packs)
    ensures var all := EncodeChunks([], w); all.Ok? ==> all == Ok([])
  {
    assert packs + [] == packs;
  }

  method Flush(current: Chunk, packs: seq<Artifact>, w: World) returns (r: Result<seq<Artifact>, PackError>)
    ensures r == WrittenBefore(packs, EncodeChunks(if current == [] then [] else [current], w))
  {
    hide EncodePack;
    NothingWritten(packs, w);
    if current == [] { return Ok(packs); }
    var bytes := EncodeObjects(current);
    assert [current] + [] == [current];
    WriteNext(packs, current, [], w);
    if bytes.Err? { return Err(bytes.error); }
    NothingWritten(packs + [Artifact(bytes.value, w.hash(bytes.value))], w);
    return Ok(packs + [Artifact(bytes.value, w.hash(bytes.value))]);
  }

  method BuildPacks(objects: seq<PackObject>, w: World) returns (r: Result<seq<Artifact>, PackError>)
    ensures r == Built(objects, w) && (r.Ok? ==> InIdOrder(r.value))
  {
    hide EncodePack, SortById, EncodeChunks, InIdOrder;
    var packs: seq<Artifact> := [];
    var current: Chunk := [];
    var currentBytes := 0;
    ghost var all := EncodeChunks(Cut([], objects), w);
    assert objects[0..] == objects;
    assert all == WrittenBefore([], all) by { if all.Ok? { assert [] + all.value == all.value; } }
    for i := 0 to |objects|
      invariant currentBytes == Total(current)
      invariant all == WrittenBefore(packs, EncodeChunks(Cut(current, objects[i..]), w))
    {
      var o := objects[i];
      assert objects[i..][0] == o && objects[i..][1..] == objects[i + 1..];
      var size := 41 + |o.envelope|;
      TotalPush(current, o);
      if current != [] && currentBytes + size > TARGET_PACK_BYTES {
        WriteNext(packs, current, Cut([o], objects[i + 1..]), w);
        var written := Flush(current, packs, w);
        FlushedOne(packs, current, w);
        if written.Err? { return Err(written.error); }
        packs := written.value;
        current := [];
        currentBytes := 0;
        TotalPush([], o);
        assert [] + [o] == [o];
      }
      current := current + [o];
      currentBytes := currentBytes + size;
    }
    assert objects[|objects|..] == [];
    var written := Flush(current, packs, w);
    if written.Err? { return Err(written.error); }
    SortOrders(written.value);
    return Ok(SortById(written.value));
  }

  lemma {:induction false} FlushedOne(packs: seq<Artifact>, current: Chunk, w: World)
    ensures var r := WrittenBefore(packs, EncodeChunks([current], w));
      match EncodePack(current)
      case Err(e) => r == Err(e)
      case Ok(bytes) => r == Ok(packs + [Artifact(bytes, w.hash(bytes))])
  {
    hide EncodePack;
    assert [current] + [] == [current];
    WriteNext(packs, current, [], w);
    match EncodePack(current)
    case Err(_) =>
    case Ok(bytes) => NothingWritten(packs + [Artifact(bytes, w.hash(bytes))], w);
  }

  // ---- What the packs hold ----

  const DEFAULT_LIMITS := ExchangeLimits(64 * 1024 * 1024, 1000000)

  /** The pack of an object alone is within the size the decoder accepts. */
  predicate Carried(o: PackObject) { Size(o) + 21 <= DEFAULT_LIMITS.maxPackBytes }

  lemma {:induction false} BodyTotal(chunk: Chunk)
    ensures |BodyBytes(chunk)| == Total(chunk) && 41 * |chunk| <= Total(chunk)
  {
    hide ObjectBytes;
    if chunk != [] { BodyTotal(chunk[1..]); }
  }

  lemma {:induction false} StrictPart(c: Chunk, d: seq<PackObject>, prev: Option<Gid>)
    requires Strict(c + d, prev)
    ensures Strict(c, prev) && (c != [] ==> Strict(d, Some(c[|c| - 1].id))) && (c == [] ==> Strict(d, prev))
    ensures Strict(d, None)
  {
    hide GidBelow;
    if c == [] {
      assert c + d == d;
    } else {
      assert (c + d)[1..] == c[1..] + d && (c + d)[0] == c[0];
      StrictPart(c[1..], d, Some(c[0].id));
    }
  }

  /** What a pack holds, as the decoder sees it. */
  ghost function Contents(packs: seq<Artifact>, w: World): multiset<PackObject>
  {
    if packs == [] then multiset{}
    else Held(packs[0], w) + Contents(packs[1..], w)
  }

  ghost function Held(pack: Artifact, w: World): multiset<PackObject>
  {
    match DecodePack(pack.bytes, DEFAULT_LIMITS, w)
    case Err(_) => multiset{}
    case Ok(objects) => multiset(objects)
  }

  lemma {:induction false} InsertHolds(pack: Artifact, sorted: seq<Artifact>, w: World)
    ensures Contents(InsertById(pack, sorted), w) == Held(pack, w) + Contents(sorted, w)
    ensures |InsertById(pack, sorted)| == |sorted| + 1
    ensures forall p :: p in InsertById(pack, sorted) <==> p == pack || p in sorted
  {
    hide Held, Below;
    var r := InsertById(pack, sorted);
    if sorted == [] || !Below(sorted[0].id, pack.id) {
      assert r[0] == pack && r[1..] == sorted;
    } else {
      InsertHolds(pack, sorted[1..], w);
      assert r[0] == sorted[0] && r[1..] == InsertById(pack, sorted[1..]);
    }
  }

  lemma {:induction false} SortHolds(packs: seq<Artifact>, w: World)
    ensures Contents(SortById(packs), w) == Contents(packs, w) && |SortById(packs)| == |packs|
    ensures forall p :: p in SortById(packs) <==> p in packs
  {
    hide Held, InsertById;
    if packs != [] {
      SortHolds(packs[1..], w);
      InsertHolds(packs[0], SortById(packs[1..]), w);
    }
  }

  /** A pack of the cut decodes to its objects exactly when the decoder's size limit lets it through. */
  lemma {:induction false} ChunkDecodes(chunk: Chunk, w: World)
    requires Strict(chunk, None) && AllShort(chunk) && AllGenuine(chunk, w) && Fits(chunk)
    ensures EncodePack(chunk).Ok?
    ensures DecodePack(EncodePack(chunk).value, DEFAULT_LIMITS, w)
         == if forall o :: o in chunk ==> Carried(o) then Ok(chunk) else Err(PackTooLarge)
  {
    hide Genuine, DecodeBodies, Strict, ObjectsError, BodyBytes;
    EncodesWhen(chunk, None);
    BodyTotal(chunk);
    var bytes := EncodePack(chunk).value;
    assert |bytes| == 21 + Total(chunk);
    CarriedWhole(chunk);
    PackRoundTrip(chunk, bytes, DEFAULT_LIMITS, w);
  }

  /** The objects of a pack that fits are each within the decoder's limit exactly when their pack is. */
  lemma {:induction false} CarriedWhole(chunk: Chunk)
    requires Fits(chunk)
    ensures (forall o :: o in chunk ==> Carried(o)) <==> 21 + Total(chunk) <= DEFAULT_LIMITS.maxPackBytes
  {
    if |chunk| == 1 {
      assert Total(chunk[1..]) == 0;
      assert Total(chunk) == Size(chunk[0]) && chunk[0] in chunk;
    }
    forall o | o in chunk ensures 21 + Total(chunk) <= DEFAULT_LIMITS.maxPackBytes ==> Carried(o) { InTotal(chunk, o); }
  }

  lemma {:induction false} InTotal(chunk: Chunk, o: PackObject)
    requires o in chunk
    ensures Size(o) <= Total(chunk)
  {
    if chunk[0] != o { InTotal(chunk[1..], o); }
  }

  lemma {:induction false} ChunksHold(chunks: seq<Chunk>, objects: seq<PackObject>, w: World)
    requires Partition(chunks, objects) && Strict(objects, None) && AllShort(objects) && AllGenuine(objects, w)
    ensures var r := EncodeChunks(chunks, w);
      && r.Ok? && |r.value| == |chunks|
      && (forall p :: p in r.value ==> p.id == w.hash(p.bytes))
      && (if forall o :: o in objects ==> Carried(o) then Contents(r.value, w) == multiset(objects)
          else |Contents(r.value, w)| < |objects|)
  {
    hide Genuine, DecodePack, Strict, EncodePack, Fits, Carried;
    if chunks != [] {
      var chunk, rest := chunks[0], Concat(chunks[1..]);
      assert objects == chunk + rest;
      assert chunk in chunks;
      StrictPart(chunk, rest, None);
      assert AllShort(chunk) && AllShort(rest) && AllGenuine(chunk, w) && AllGenuine(rest, w);
      ChunkDecodes(chunk, w);
      ChunksHold(chunks[1..], rest, w);
      assert EncodeChunks(chunks, w).value[1..] == EncodeChunks(chunks[1..], w).value;
      assert forall o :: o in objects <==> o in chunk || o in rest;
    }
  }

  /** Packs are built exactly when no object is longer than a 32-bit length. */
  lemma {:induction false} BuiltWhen(objects: seq<PackObject>, w: World)
    requires Strict(objects, None)
    ensures Built(objects, w).Ok? <==> AllShort(objects)
  {
    hide Strict, EncodePack, SortById, EncodeChunks;
    CutPartitions([], objects);
    assert [] + objects == objects;
    ChunksEncode(Cut([], objects), objects, w);
  }

  /** The identity of every pack is the hash of its bytes. */
  lemma {:induction false} BuiltIds(objects: seq<PackObject>, w: World)
    requires Built(objects, w).Ok?
    ensures forall p :: p in Built(objects, w).value ==> p.id == w.hash(p.bytes)
  {
    hide EncodeChunks, SortById, Cut, Contents;
    ChunkIds(Cut([], objects), w);
    SortHolds(EncodeChunks(Cut([], objects), w).value, w);
  }

  lemma {:induction false} ChunkIds(chunks: seq<Chunk>, w: World)
    requires EncodeChunks(chunks, w).Ok?
    ensures forall p :: p in EncodeChunks(chunks, w).value ==> p.id == w.hash(p.bytes)
  {
    hide EncodePack;
    if chunks != [] { ChunkIds(chunks[1..], w); }
  }

  lemma {:induction false} ChunksEncode(chunks: seq<Chunk>, objects: seq<PackObject>, w: World)
    requires Concat(chunks) == objects && Strict(objects, None)
    ensures EncodeChunks(chunks, w).Ok? <==> AllShort(objects)
  {
    hide Strict, ObjectsError;
    if chunks != [] {
      var chunk, rest := chunks[0], Concat(chunks[1..]);
      StrictPart(chunk, rest, None);
      EncodesWhen(chunk, None);
      ChunksEncode(chunks[1..], rest, w);
      assert forall o :: o in objects <==> o in chunk || o in rest;
    }
  }

  /** Only the hash of a world enters into building packs. */
  lemma {:induction false} SameBuilt(objects: seq<PackObject>, w: World, w': World)
    requires w.hash == w'.hash
    ensures Built(objects, w) == Built(objects, w')
  {
    SameChunks(Cut([], objects), w, w');
  }

  lemma {:induction false} SameChunks(chunks: seq<Chunk>, w: World, w': World)
    requires w.hash == w'.hash
    ensures EncodeChunks(chunks, w) == EncodeChunks(chunks, w')
  {
    hide EncodePack;
    if chunks != [] { SameChunks(chunks[1..], w, w'); }
  }

  /** Building packs from an ascending list of genuine objects succeeds; each pack carries its own
      hash; together they hold every object exactly once, precisely when each object alone is within the
      decoder's pack limit; and no order-preserving cut has fewer packs. */
  lemma {:induction false} BuiltHolds(objects: seq<PackObject>, other: seq<Chunk>, w: World)
    requires Strict(objects, None) && AllShort(objects) && AllGenuine(objects, w)
    ensures var r := Built(objects, w);
      && r.Ok?
      && (forall p :: p in r.value ==> p.id == w.hash(p.bytes))
      && (Contents(r.value, w) == multiset(objects) <==> forall o :: o in objects ==> Carried(o))
      && (Partition(other, objects) ==> |r.value| <= |other|)
  {
    hide Genuine, Strict, Fits, Carried, EncodeChunks, SortById, Cut, Contents;
    assert [] + objects == objects;
    CutPartitions([], objects) by { SingleFits([]); }
    ChunksHold(Cut([], objects), objects, w);
    SortHolds(EncodeChunks(Cut([], objects), w).value, w);
    if Partition(other, objects) { CutIsShortest(objects, other); }
  }
}
