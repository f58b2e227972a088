/** The content-addressed object store (src/store/objects.rs, src/store/mod.rs): canonical bytes
    under the digest they hash to. The hash is any function of the bytes. */
module Store {
  import opened Varint
  import opened Wrappers
  import opened Objects
  import Validate
  import opened Codec
  import opened CodecLaws

  datatype World = World(table: Table, limits: Limits, hash: seq<byte> -> Digest)

  type ObjectMap = map<Digest, seq<byte>>

  datatype StoreError = Refused(e: ObjectError) | HashCollision | TooLarge | NotFound | Corrupt

  /** The settings under which every encoding can be read back. */
  ghost predicate Supported(w: World)
  {
    && w.limits.maxStringBytes >= 33
    && w.limits.maxObjectBytes <= 0x200_0000_0000_0000
    && forall f: Family :: NoBoolArrays(w.table(f).specs)
  }

  /** The identity an object would have, without storing it (src/content.rs). */
  function Identify(obj: Object, w: World): Result<Gid, StoreError>
  {
    match EncodeObject(obj, w.table, w.limits)
    case Err(e) => Err(Refused(e))
    case Ok(bytes) => Ok(Gid(obj.family, w.hash(bytes)))
  }

  /** Storing canonical bytes: they are decoded first, and bytes already there must be the same. */
  function InsertBytes(objects: ObjectMap, bytes: seq<byte>, w: World): Result<Gid, StoreError>
  {
    match DecodeObject(bytes, w.table, w.limits)
    case Err(e) => Err(Refused(e))
    case Ok(obj) =>
      var digest := w.hash(bytes);
      if digest in objects then
        if objects[digest] == bytes then Ok(Gid(obj.family, digest)) else Err(HashCollision)
      else if |bytes| > w.limits.maxObjectBytes then Err(TooLarge)
      else Ok(Gid(obj.family, digest))
  }

  function Insert(objects: ObjectMap, obj: Object, w: World): Result<Gid, StoreError>
  {
    match EncodeObject(obj, w.table, w.limits)
    case Err(e) => Err(Refused(e))
    case Ok(bytes) => InsertBytes(objects, bytes, w)
  }

  /** Reading an object back re-hashes and decodes it. */
  function Load(objects: ObjectMap, g: Gid, w: World): Result<Object, StoreError>
  {
    if g.digest !in objects then Err(NotFound)
    else
      var bytes := objects[g.digest];
      if |bytes| > w.limits.maxObjectBytes then Err(TooLarge)
      else if w.hash(bytes) != g.digest then Err(Corrupt)
      else match DecodeObject(bytes, w.table, w.limits)
        case Err(e) => Err(Refused(e))
        case Ok(obj) => if obj.family != g.family then Err(Corrupt) else Ok(obj)
  }

  /** Nothing is lost or overwritten. */
  ghost predicate Grows(objects: ObjectMap, objects': ObjectMap)
  {
    forall d :: d in objects ==> d in objects' && objects'[d] == objects[d]
  }

  lemma {:induction false} GrowsOn(a: ObjectMap, b: ObjectMap, c: ObjectMap)
    requires Grows(a, b) && Grows(b, c)
    ensures Grows(a, c)
  {
  }

  lemma {:induction false} GrowsSame(objects: ObjectMap)
    ensures Grows(objects, objects)
  {
  }

  class Repo {
    const w: World
    var objects: ObjectMap

    constructor (w: World)
      ensures this.w == w && objects == map[]
    {
      this.w := w;
      objects := map[];
    }

    method InsertObject(obj: Object) returns (r: Result<Gid, StoreError>)
      modifies this
      ensures r == Insert(old(objects), obj, w)
      ensures r.Err? ==> objects == old(objects)
      ensures r.Ok? ==> objects == old(objects)[r.value.digest := EncodeObject(obj, w.table, w.limits).value]
      ensures Grows(old(objects), objects)
    {
      hide EncodeObject, DecodeObject;
      var encoded := EncodeObject(obj, w.table, w.limits);
      if encoded.Err? { return Err(Refused(encoded.error)); }
      r := InsertBytes(objects, encoded.value, w);
      if r.Ok? { objects := objects[r.value.digest := encoded.value]; }
    }
  }

  lemma {:induction false} EnvelopeFits(obj: Object, bytes: seq<byte>, w: World)
    requires EncodeObject(obj, w.table, w.limits) == Ok(bytes) && w.limits.maxObjectBytes <= 0x200_0000_0000_0000
    ensures |bytes| <= w.limits.maxObjectBytes
  {
    hide EncodeFields, Validate.ValidationError, EncodeU64;
    var body := if obj.body.Blob? then obj.body.content
      else EncodeFields(w.table(obj.family), obj.body.fields, 1, w.limits).value;
    assert bytes == Header(obj.family, obj.schemever) + Sized(body);
    assert Bound(1) == 0x200_0000_0000_0000 by { assert Bound(0) == 128 * Bound(1); }
    AtMostTen(|body|, 1);
  }

  /** Storing an object gives it the identity the plan computed. Where encodings can be read back, only
      other bytes under that digest can be in the way. */
  lemma {:induction false} InsertIdentified(objects: ObjectMap, obj: Object, w: World)
    ensures var r := Insert(objects, obj, w);
      && (r.Ok? ==> r == Identify(obj, w))
      && (Supported(w) ==> r == Identify(obj, w) || (r == Err(HashCollision) && Identify(obj, w).Ok?))
      && (r == Err(HashCollision) ==> exists bytes :: EncodeObject(obj, w.table, w.limits) == Ok(bytes)
                                                      && w.hash(bytes) in objects && objects[w.hash(bytes)] != bytes)
  {
    hide EncodeObject, DecodeObject;
    var encoded := EncodeObject(obj, w.table, w.limits);
    if encoded.Ok? {
      EncodedFamily(obj, w.table, w.limits);
      DecodedFamily(encoded.value, w.table, w.limits);
    }
    if encoded.Ok? && Supported(w) {
      PlainRoundTrip(obj, encoded.value, w.table, w.limits);
      EnvelopeFits(obj, encoded.value, w);
    }
  }

  ghost predicate StandsFor(objects: ObjectMap, g: Gid, obj: Object, w: World)
  {
    && g.digest in objects && EncodeObject(obj, w.table, w.limits) == Ok(objects[g.digest])
    && g.family == obj.family && g.digest == w.hash(objects[g.digest])
  }

  /** What the store hands out is what its name stands for: an identity loads exactly the object whose encoding
      it names. Only an object whose bytes come within 8 of the limit may load without being encoded again,
      because the encoder counts 17 bytes for an envelope that can be shorter. */
  lemma {:induction false} LoadsExactly(objects: ObjectMap, g: Gid, obj: Object, w: World)
    requires Supported(w)
    ensures StandsFor(objects, g, obj, w) ==> Load(objects, g, w) == Ok(obj)
    ensures Load(objects, g, w) == Ok(obj) ==>
      StandsFor(objects, g, obj, w)
      || (EncodeObject(obj, w.table, w.limits) == Err(LimitExceeded)
          && |objects[g.digest]| + 8 > w.limits.maxObjectBytes)
  {
    hide EncodeObject, DecodeObject;
    if Load(objects, g, w) == Ok(obj) {
      Canonicality(objects[g.digest], w.table, w.limits, obj);
      BodyInside(objects[g.digest], w.table, w.limits, obj);
    }
    if StandsFor(objects, g, obj, w) { LoadsBack(objects, obj, g, w); }
  }

  lemma {:induction false} BodyInside(bytes: seq<byte>, table: Table, limits: Limits, obj: Object)
    requires DecodeObject(bytes, table, limits) == Ok(obj)
    ensures ReadVarint(bytes, 8).Ok? && 9 + ReadVarint(bytes, 8).value.0 <= |bytes|
  {
    hide DecodeU64, EncodeU64, DecodeFields, EncodeFields, Validate.ValidationError;
    var body := AcceptedBytes(bytes, table, limits, obj);
  }

  /** An object's encoding under its identity is the object. */
  lemma {:induction false} LoadsBack(objects: ObjectMap, obj: Object, g: Gid, w: World)
    requires Supported(w) && Identify(obj, w) == Ok(g)
    requires g.digest in objects && objects[g.digest] == EncodeObject(obj, w.table, w.limits).value
    ensures Load(objects, g, w) == Ok(obj)
  {
    hide EncodeObject, DecodeObject;
    PlainRoundTrip(obj, objects[g.digest], w.table, w.limits);
    EnvelopeFits(obj, objects[g.digest], w);
  }
}
