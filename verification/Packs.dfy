/** The exchange pack format (src/exchange/mod.rs): an encoder and a checking decoder that undo each other. */
module Packs {
  import opened Varint
  import opened Paths
  import opened Wrappers
  import opened Objects
  import opened Codec
  import opened Store

  datatype PackObject = PackObject(id: Gid, envelope: seq<byte>)

  datatype ExchangeLimits = ExchangeLimits(maxPackBytes: nat, maxObjectsPerPack: nat)

  datatype PackError =
    | NotAscending | ObjectTooLong | PackTooLarge | TooShort | BadMagic | BadVersion | TooManyObjects | BadTrailer
    | HeaderTruncated | UnknownFamily | OutOfOrder | LengthOverflow | BodyTruncated | IdMismatch
    | BadObject(e: ObjectError) | FamilyDiffers | TrailingBytes

  const PACK_MAGIC: seq<byte> := [0x47, 0x58, 0x50, 0x4B]
  const PACK_VERSION: byte := 1
  const PACK_TRAILER: seq<byte> := [0x47, 0x58, 0x50, 0x4B, 0x2D, 0x45, 0x4E, 0x44]
  const U32_MAX: nat := 0xFFFF_FFFF
  const TWO_64: nat := 0x1_0000_0000_0000_0000

  /** The order of identities: the family code, then the digest. */
  predicate GidBelow(g: Gid, h: Gid) { Below(g.ToBytes(), h.ToBytes()) }

  // ---- Fixed-width integers ----

  /** The `k` low bytes of a number, least significant first. */
  function LeBytes(n: nat, k: nat): (r: seq<byte>)
    ensures |r| == k
  {
    if k == 0 then [] else [n % 256] + LeBytes(n / 256, k - 1)
  }

  function LeValue(s: seq<byte>): nat
  {
    if s == [] then 0 else s[0] + 256 * LeValue(s[1..])
  }

  ghost function Pow256(k: nat): nat { if k == 0 then 1 else 256 * Pow256(k - 1) }

  lemma {:induction false} LeReads(n: nat, k: nat)
    requires n < Pow256(k)
    ensures LeValue(LeBytes(n, k)) == n
  {
    if k > 0 {
      LeReads(n / 256, k - 1);
      assert LeBytes(n, k)[1..] == LeBytes(n / 256, k - 1);
    }
  }

  lemma {:induction false} LeWrites(s: seq<byte>)
    ensures LeBytes(LeValue(s), |s|) == s && LeValue(s) < Pow256(|s|)
  {
    if s != [] {
      LeWrites(s[1..]);
      var v := LeValue(s[1..]);
      LowByte(s[0], v);
      assert LeBytes(LeValue(s), |s|) == [s[0]] + LeBytes(v, |s| - 1);
      assert s == [s[0]] + s[1..];
    }
  }

  lemma {:induction false} LowByte(b: byte, v: nat)
    ensures (b + 256 * v) % 256 == b && (b + 256 * v) / 256 == v
  {
  }

  // ---- Encoding ----

  /** The first object that is out of order or too long. */
  function ObjectsError(objects: seq<PackObject>, prev: Option<Gid>): Option<PackError>
  {
    if objects == [] then None
    else if prev.Some? && !GidBelow(prev.value, objects[0].id) then Some(NotAscending)
    else if |objects[0].envelope| > U32_MAX then Some(ObjectTooLong)
    else ObjectsError(objects[1..], Some(objects[0].id))
  }

  function ObjectBytes(o: PackObject): (r: seq<byte>)
    ensures |r| == 41 + |o.envelope|
  {
    o.id.ToBytes() + LeBytes(|o.envelope|, 8) + o.envelope
  }

  function BodyBytes(objects: seq<PackObject>): seq<byte>
  {
    if objects == [] then [] else ObjectBytes(objects[0]) + BodyBytes(objects[1..])
  }

  function PackHeader(count: nat): (r: seq<byte>)
    ensures |r| == 13
  {
    PACK_MAGIC + [PACK_VERSION] + LeBytes(count, 8)
  }

  function EncodePack(objects: seq<PackObject>): Result<seq<byte>, PackError>
  {
    match ObjectsError(objects, None)
    case Some(e) => Err(e)
    case None => Ok(PackHeader(|objects|) + BodyBytes(objects) + PACK_TRAILER)
  }

  // ---- Decoding ----

  /** An identity that is the hash of the envelope, and an envelope that decodes in that family. */
  predicate Genuine(o: PackObject, w: World)
  {
    w.hash(o.envelope) == o.id.digest && EnvelopeError(o, w) == None
  }

  function EnvelopeError(o: PackObject, w: World): Option<PackError>
  {
    match DecodeObject(o.envelope, w.table, w.limits)
    case Err(e) => Some(BadObject(e))
    case Ok(obj) => if obj.family != o.id.family then Some(FamilyDiffers) else None
  }

  /** One object at the cursor, and the cursor after it. */
  function DecodeOne(bytes: seq<byte>, cursor: nat, bodyEnd: nat, prev: Option<Gid>, w: World): (r: Result<(PackObject,
        nat), PackError>)
    requires bodyEnd <= |bytes|
    ensures r.Ok? ==> cursor + 41 <= r.value.1 <= bodyEnd
  {
    if cursor + 33 + 8 > bodyEnd then Err(HeaderTruncated)
    else match FamilyFromCode(bytes[cursor])
      case None => Err(PackError.UnknownFamily)
      case Some(family) =>
        var id := Gid(family, bytes[cursor + 1..cursor + 33]);
        var len := LeValue(bytes[cursor + 33..cursor + 41]);
        var start := cursor + 41;
        if prev.Some? && !GidBelow(prev.value, id) then Err(OutOfOrder)
        else if start + len >= TWO_64 then Err(LengthOverflow)
        else if start + len > bodyEnd then Err(BodyTruncated)
        else
          var o := PackObject(id, bytes[start..start + len]);
          if w.hash(o.envelope) != id.digest then Err(IdMismatch)
          else match EnvelopeError(o, w)
            case Some(e) => Err(e)
            case None => Ok((o, start + len))
  }

  function DecodeBodies(bytes: seq<byte>, cursor: nat, bodyEnd: nat, count: nat, prev: Option<Gid>,
        w: World): (r: Result<(seq<PackObject>, nat), PackError>)
    requires bodyEnd <= |bytes|
    decreases count
  {
    if count == 0 then Ok(([], cursor))
    else match DecodeOne(bytes, cursor, bodyEnd, prev, w)
      case Err(e) => Err(e)
      case Ok((o, c)) =>
        match DecodeBodies(bytes, c, bodyEnd, count - 1, Some(o.id), w)
        case Err(e) => Err(e)
        case Ok((rest, end)) => Ok(([o] + rest, end))
  }

  function DecodePack(bytes: seq<byte>, limits: ExchangeLimits, w: World): Result<seq<PackObject>, PackError>
  {
    if |bytes| > limits.maxPackBytes then Err(PackTooLarge)
    else if |bytes| < 21 then Err(TooShort)
    else if bytes[..4] != PACK_MAGIC then Err(PackError.BadMagic)
    else if bytes[4] != PACK_VERSION then Err(BadVersion)
    else
      var count := LeValue(bytes[5..13]);
      var bodyEnd := |bytes| - 8;
      if count > limits.maxObjectsPerPack then Err(TooManyObjects)
      else if bytes[bodyEnd..] != PACK_TRAILER then Err(BadTrailer)
      else match DecodeBodies(bytes, 13, bodyEnd, count, None, w)
        case Err(e) => Err(e)
        case Ok((objects, cursor)) => if cursor != bodyEnd then Err(PackError.TrailingBytes) else Ok(objects)
  }

  // ---- Laws ----

  ghost predicate AllGenuine(objects: seq<PackObject>, w: World)
  {
    forall o :: o in objects ==> Genuine(o, w)
  }

  ghost predicate Strict(objects: seq<PackObject>, prev: Option<Gid>)
  {
    objects == [] || ((prev.Some? ==> GidBelow(prev.value, objects[0].id)) && Strict(objects[1..], Some(objects[0].id)))
  }

  ghost predicate AllShort(objects: seq<PackObject>)
  {
    forall o :: o in objects ==> |o.envelope| <= U32_MAX
  }

  lemma {:induction false} EncodesWhen(objects: seq<PackObject>, prev: Option<Gid>)
    ensures ObjectsError(objects, prev) == None <==> Strict(objects, prev) && AllShort(objects)
  {
    hide GidBelow;
    if objects != [] {
      EncodesWhen(objects[1..], Some(objects[0].id));
      assert forall o :: o in objects <==> o == objects[0] || o in objects[1..];
    }
  }

  lemma {:induction false} Inner(bytes: seq<byte>, cursor: nat, part: seq<byte>, i: nat, j: nat)
    requires cursor + |part| <= |bytes| && bytes[cursor..cursor + |part|] == part && i <= j <= |part|
    ensures bytes[cursor + i..cursor + j] == part[i..j]
  {
    forall k | 0 <= k < j - i ensures bytes[cursor + i..cursor + j][k] == part[i..j][k] {
      assert bytes[cursor + (i + k)] == bytes[cursor..cursor + |part|][i + k];
    }
  }

  /** An object's bytes standing at the cursor are read as that object, when it is genuine. */
  lemma {:induction false} ReadsOne(o: PackObject, bytes: seq<byte>, cursor: nat, bodyEnd: nat, prev: Option<Gid>,
        w: World)
    requires cursor + |ObjectBytes(o)| <= bodyEnd <= |bytes| && |bytes| < TWO_64
    requires bytes[cursor..cursor + |ObjectBytes(o)|] == ObjectBytes(o)
    requires prev.Some? ==> GidBelow(prev.value, o.id)
    ensures DecodeOne(bytes, cursor, bodyEnd, prev, w) == Ok((o, cursor + |ObjectBytes(o)|)) <==> Genuine(o, w)
    ensures DecodeOne(bytes, cursor, bodyEnd, prev, w).Ok? <==> Genuine(o, w)
  {
    hide GidBelow, DecodeObject, LeValue, LeBytes, ObjectBytes;
    LeReads(|o.envelope|, 8);
    ObjectParts(o, bytes, cursor);
  }

  /** Where an object's bytes stand, its parts stand. */
  lemma {:induction false} ObjectParts(o: PackObject, bytes: seq<byte>, cursor: nat)
    requires cursor + |ObjectBytes(o)| <= |bytes| && bytes[cursor..cursor + |ObjectBytes(o)|] == ObjectBytes(o)
    ensures bytes[cursor] == o.id.family && bytes[cursor + 1..cursor + 33] == o.id.digest
    ensures bytes[cursor + 33..cursor + 41] == LeBytes(|o.envelope|, 8)
    ensures bytes[cursor + 41..cursor + 41 + |o.envelope|] == o.envelope
  {
    hide LeBytes;
    var part := bytes[cursor..cursor + |ObjectBytes(o)|];
    var id, len := o.id.ToBytes(), LeBytes(|o.envelope|, 8);
    assert part == id + len + o.envelope;
    Inner(bytes, cursor, part, 1, 33);
    Inner(bytes, cursor, part, 33, 41);
    Inner(bytes, cursor, part, 41, |part|);
    assert bytes[cursor] == part[0];
    assert part[1..33] == id[1..];
    assert part[33..41] == len;
    assert part[41..|part|] == o.envelope;
  }

  lemma {:induction false} ReadsBodies(objects: seq<PackObject>, bytes: seq<byte>, cursor: nat, bodyEnd: nat,
        prev: Option<Gid>, w: World)
    requires cursor + |BodyBytes(objects)| <= bodyEnd <= |bytes| && |bytes| < TWO_64
    requires bytes[cursor..cursor + |BodyBytes(objects)|] == BodyBytes(objects)
    requires Strict(objects, prev)
    ensures AllGenuine(objects, w) ==>
      DecodeBodies(bytes, cursor, bodyEnd, |objects|, prev, w) == Ok((objects, cursor + |BodyBytes(objects)|))
    ensures DecodeBodies(bytes, cursor, bodyEnd, |objects|, prev, w).Ok? ==> AllGenuine(objects, w)
  {
    hide GidBelow, ObjectBytes, DecodeOne, Genuine;
    if objects != [] {
      var first := ObjectBytes(objects[0]);
      var rest := BodyBytes(objects[1..]);
      assert BodyBytes(objects) == first + rest;
      var part := bytes[cursor..cursor + |BodyBytes(objects)|];
      Inner(bytes, cursor, part, 0, |first|);
      Inner(bytes, cursor, part, |first|, |part|);
      assert part[0..|first|] == first;
      assert part[|first|..|part|] == rest;
      ReadsOne(objects[0], bytes, cursor, bodyEnd, prev, w);
      ReadsBodies(objects[1..], bytes, cursor + |first|, bodyEnd, Some(objects[0].id), w);
      assert objects == [objects[0]] + objects[1..];
    }
  }

  /** An encoded pack decodes to its objects exactly when it is within the limits and every object is genuine. */
  lemma {:induction false} PackRoundTrip(objects: seq<PackObject>, bytes: seq<byte>, limits: ExchangeLimits, w: World)
    requires EncodePack(objects) == Ok(bytes) && |bytes| < TWO_64
    ensures DecodePack(bytes, limits, w) == Ok(objects)
      <==> |bytes| <= limits.maxPackBytes && |objects| <= limits.maxObjectsPerPack && AllGenuine(objects, w)
  {
    hide ObjectsError, LeValue, LeBytes, DecodeBodies, Strict, Genuine, BodyBytes;
    EncodesWhen(objects, None);
    var body := BodyBytes(objects);
    CountFits(objects);
    LeReads(|objects|, 8);
    assert bytes[..4] == PACK_MAGIC && bytes[4] == PACK_VERSION;
    assert bytes[5..13] == PackHeader(|objects|)[5..] == LeBytes(|objects|, 8);
    assert bytes[|bytes| - 8..] == PACK_TRAILER;
    assert bytes[13..13 + |body|] == body;
    ReadsBodies(objects, bytes, 13, |bytes| - 8, None, w);
  }

  lemma {:induction false} CountFits(objects: seq<PackObject>)
    ensures |objects| <= |BodyBytes(objects)|
  {
    if objects != [] { CountFits(objects[1..]); }
  }

  lemma {:induction false} Slices(bytes: seq<byte>, i: nat, j: nat, k: nat, l: nat, m: nat)
    requires i <= j <= k <= l <= m <= |bytes|
    ensures bytes[i..m] == bytes[i..j] + bytes[j..k] + bytes[k..l] + bytes[l..m]
  {
    assert bytes[i..k] == bytes[i..j] + bytes[j..k];
    assert bytes[i..l] == bytes[i..k] + bytes[k..l];
  }

  lemma {:induction false} OneCanonical(bytes: seq<byte>, cursor: nat, bodyEnd: nat, prev: Option<Gid>, w: World)
    requires bodyEnd <= |bytes| && DecodeOne(bytes, cursor, bodyEnd, prev, w).Ok?
    ensures var (o, c) := DecodeOne(bytes, cursor, bodyEnd, prev, w).value;
      bytes[cursor..c] == ObjectBytes(o) && (prev.Some? ==> GidBelow(prev.value, o.id))
  {
    hide GidBelow, DecodeObject, LeValue, LeBytes;
    var (o, c) := DecodeOne(bytes, cursor, bodyEnd, prev, w).value;
    LeWrites(bytes[cursor + 33..cursor + 41]);
    Slices(bytes, cursor, cursor + 1, cursor + 33, cursor + 41, c);
    assert bytes[cursor..cursor + 1] == [bytes[cursor]];
  }

  lemma {:induction false} BodiesCanonical(bytes: seq<byte>, cursor: nat, bodyEnd: nat, count: nat, prev: Option<Gid>,
        w: World)
    requires cursor <= bodyEnd <= |bytes| && DecodeBodies(bytes, cursor, bodyEnd, count, prev, w).Ok?
    ensures var (objects, end) := DecodeBodies(bytes, cursor, bodyEnd, count, prev, w).value;
      |objects| == count && cursor <= end <= bodyEnd && bytes[cursor..end] == BodyBytes(objects)
          && Strict(objects, prev)
    decreases count
  {
    hide GidBelow, DecodeOne, ObjectBytes;
    if count > 0 {
      OneCanonical(bytes, cursor, bodyEnd, prev, w);
      var (o, c) := DecodeOne(bytes, cursor, bodyEnd, prev, w).value;
      BodiesCanonical(bytes, c, bodyEnd, count - 1, Some(o.id), w);
      var (rest, end) := DecodeBodies(bytes, c, bodyEnd, count - 1, Some(o.id), w).value;
      assert ([o] + rest)[1..] == rest;
      assert bytes[cursor..end] == bytes[cursor..c] + bytes[c..end];
    }
  }

  /** Encoding what an accepted pack decodes to gives back its bytes, unless the encoder finds an
      object longer than a 32-bit length; the decoder has no such limit of its own. */
  lemma {:induction false} PackCanonical(bytes: seq<byte>, objects: seq<PackObject>, limits: ExchangeLimits, w: World)
    requires DecodePack(bytes, limits, w) == Ok(objects)
    ensures EncodePack(objects) == Ok(bytes) <==> AllShort(objects)
    ensures limits.maxPackBytes <= U32_MAX ==> AllShort(objects)
  {
    hide ObjectsError, LeValue, LeBytes, DecodeBodies, Strict, Genuine, BodyBytes;
    var bodyEnd := |bytes| - 8;
    var count := LeValue(bytes[5..13]);
    BodiesCanonical(bytes, 13, bodyEnd, count, None, w);
    EncodesWhen(objects, None);
    LeWrites(bytes[5..13]);
    assert bytes == bytes[..4] + [bytes[4]] + bytes[5..13] + bytes[13..bodyEnd] + bytes[bodyEnd..];
    forall o | o in objects ensures |o.envelope| <= |bytes| { BodyHolds(objects, o); }
  }

  lemma {:induction false} BodyHolds(objects: seq<PackObject>, o: PackObject)
    requires o in objects
    ensures |o.envelope| <= |BodyBytes(objects)|
  {
    if objects[0] != o { BodyHolds(objects[1..], o); }
  }
}
