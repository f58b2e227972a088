/** The bytes and the order of packs (src/exchange/mod.rs, src/exchange/export.rs). */
module PackLayout {
  import opened Varint
  import opened Paths
  import opened Wrappers
  import opened Objects
  import opened Packs
  import opened PackBuilder
  import opened PackPrograms

  // Where every byte of a pack stands, in which order its objects and the packs themselves are, and where the
  // builder cuts: without the encoder's or the builder's own functions.

  // ---- Bytes ----

  /** Byte `i` of a little-endian number is its `i`-th digit to the base 256. */
  lemma {:induction false} LeByteAt(n: nat, k: nat, i: nat)
    requires i < k
    ensures Pow256(i) > 0 && LeBytes(n, k)[i] == n / Pow256(i) % 256
  {
    if i > 0 {
      LeByteAt(n / 256, k - 1, i - 1);
      DivideBytes(n, i - 1);
      assert LeBytes(n, k)[i] == LeBytes(n / 256, k - 1)[i - 1];
    }
  }

  lemma {:induction false} DivideBytes(n: nat, i: nat)
    requires Pow256(i) > 0
    ensures n / 256 / Pow256(i) == n / Pow256(i + 1)
  {
    var p := Pow256(i);
    var q, r := n / 256, n % 256;
    var a, c := q / p, q % p;
    assert n == 256 * (a * p + c) + r;
    assert n == a * (256 * p) + (256 * c + r) by { assert 256 * (a * p) == a * (256 * p); }
    Quotient(n, 256 * p, a, 256 * c + r);
  }

  ghost predicate NumberAt(bytes: seq<byte>, at: nat, n: nat)
  {
    at + 8 <= |bytes| && forall i: nat :: i < 8 ==> Pow256(i) > 0 && bytes[at + i] == n / Pow256(i) % 256
  }

  /** An object in a pack: its family, its digest, the length of its envelope in eight bytes, the envelope. */
  ghost predicate ObjectAt(bytes: seq<byte>, at: nat, o: PackObject)
  {
    && at + 41 + |o.envelope| <= |bytes|
    && bytes[at] == o.id.family && bytes[at + 1..at + 33] == o.id.digest
    && NumberAt(bytes, at + 33, |o.envelope|) && bytes[at + 41..at + 41 + |o.envelope|] == o.envelope
  }

  lemma {:induction false} StandsAt(bytes: seq<byte>, at: nat, o: PackObject)
    requires at + |ObjectBytes(o)| <= |bytes| && bytes[at..at + |ObjectBytes(o)|] == ObjectBytes(o)
    ensures ObjectAt(bytes, at, o)
  {
    hide LeBytes, Pow256, ObjectBytes;
    ObjectParts(o, bytes, at);
    LengthAt(bytes, at + 33, |o.envelope|);
  }

  lemma {:induction false} LengthAt(bytes: seq<byte>, at: nat, n: nat)
    requires at + 8 <= |bytes| && bytes[at..at + 8] == LeBytes(n, 8)
    ensures NumberAt(bytes, at, n)
  {
    hide LeBytes, Pow256;
    forall i: nat | i < 8 ensures Pow256(i) > 0 && bytes[at + i] == n / Pow256(i) % 256 {
      LeByteAt(n, 8, i);
      assert bytes[at + i] == bytes[at..at + 8][i];
    }
  }

  lemma {:induction false} BodyAt(bytes: seq<byte>, at: nat, objects: seq<PackObject>, k: nat)
    requires at + |BodyBytes(objects)| <= |bytes| && bytes[at..at + |BodyBytes(objects)|] == BodyBytes(objects)
    requires k < |objects|
    ensures ObjectAt(bytes, at + Total(objects[..k]), objects[k])
    decreases k
  {
    hide ObjectBytes, ObjectAt;
    var first, rest := ObjectBytes(objects[0]), BodyBytes(objects[1..]);
    var part := bytes[at..at + |BodyBytes(objects)|];
    assert part == first + rest;
    Inner(bytes, at, part, 0, |first|);
    Inner(bytes, at, part, |first|, |part|);
    assert part[0..|first|] == first && part[|first|..|part|] == rest;
    if k == 0 {
      StandsAt(bytes, at, objects[0]);
      assert Total(objects[..0]) == 0;
    } else {
      BodyAt(bytes, at + |first|, objects[1..], k - 1);
      assert objects[..k][1..] == objects[1..][..k - 1] && objects[..k][0] == objects[0];
    }
  }

  /** An identity before another: a smaller family code, or the same and a smaller byte where the digests first
      differ. */
  ghost predicate IdBelow(g: Gid, h: Gid)
  {
    g.family < h.family || (g.family == h.family && exists k :: DigestBelowAt(g.digest, h.digest, k))
  }

  ghost predicate DigestBelowAt(d: Digest, e: Digest, k: int)
  {
    0 <= k < 32 && d[..k] == e[..k] && d[k] < e[k]
  }

  lemma {:induction false} GidBelowExactly(g: Gid, h: Gid)
    ensures GidBelow(g, h) <==> IdBelow(g, h)
  {
    hide Below;
    var s, t := g.ToBytes(), h.ToBytes();
    BelowExactly(s, t);
    assert s == [g.family as byte] + g.digest && t == [h.family as byte] + h.digest;
    forall k | SmallerAt(s, t, k) && k > 0 ensures s[0] == t[0] { assert s[..k][0] == t[..k][0]; }
    if g.family == h.family {
      forall k | 0 <= k < 32 ensures SmallerAt(s, t, k + 1) <==> DigestBelowAt(g.digest, h.digest, k) {
        SmallerTail(g, h, k);
      }
      if k :| SmallerAt(s, t, k) { assert k > 0 && DigestBelowAt(g.digest, h.digest, k - 1); }
    } else {
      assert g.family < h.family ==> SmallerAt(s, t, 0);
    }
  }

  lemma {:induction false} SmallerTail(g: Gid, h: Gid, k: nat)
    requires g.family == h.family && k < 32
    ensures SmallerAt(g.ToBytes(), h.ToBytes(), k + 1) <==> DigestBelowAt(g.digest, h.digest, k)
  {
    var s, t := g.ToBytes(), h.ToBytes();
    assert s[..k + 1] == [g.family as byte] + g.digest[..k] && t[..k + 1] == [h.family as byte] + h.digest[..k];
    assert g.digest[..k] == s[..k + 1][1..] && h.digest[..k] == t[..k + 1][1..];
  }

  ghost predicate IdsRise(objects: seq<PackObject>)
  {
    forall k :: 0 < k < |objects| ==> IdBelow(objects[k - 1].id, objects[k].id)
  }

  lemma {:induction false} StrictRises(objects: seq<PackObject>, prev: Option<Gid>)
    ensures Strict(objects, prev)
      <==> IdsRise(objects) && (objects != [] && prev.Some? ==> IdBelow(prev.value, objects[0].id))
  {
    hide GidBelow, IdBelow;
    if objects != [] {
      var rest := objects[1..];
      if prev.Some? { GidBelowExactly(prev.value, objects[0].id); }
      StrictRises(rest, Some(objects[0].id));
      if IdsRise(objects) {
        forall k | 0 < k < |rest| ensures IdBelow(rest[k - 1].id, rest[k].id) {
          assert rest[k] == objects[k + 1] && rest[k - 1] == objects[k + 1 - 1];
        }
        if rest != [] { assert rest[0] == objects[1] && objects[0] == objects[1 - 1]; }
      }
      if IdsRise(rest) && (rest != [] ==> IdBelow(objects[0].id, rest[0].id)) {
        forall k | 0 < k < |objects| ensures IdBelow(objects[k - 1].id, objects[k].id) {
          if k > 1 { assert rest[k - 1] == objects[k] && rest[k - 1 - 1] == objects[k - 1]; }
        }
      }
    }
  }

  /** A pack is encoded exactly of objects whose identities rise and whose lengths fit 32 bits. It is "GXPK", the
      version 1, the number of objects in eight bytes, each object where the sizes of those before it put it,
      and "GXPK-END". */
  lemma {:induction false} PackBytes(objects: seq<PackObject>)
    ensures EncodePack(objects).Ok? <==> IdsRise(objects) && forall o :: o in objects ==> |o.envelope| < 0x1_0000_0000
    ensures EncodePack(objects).Ok? ==> var bytes := EncodePack(objects).value;
      && |bytes| == 21 + Total(objects)
      && bytes[..5] == [0x47, 0x58, 0x50, 0x4B, 0x01] && NumberAt(bytes, 5, |objects|)
      && (forall k: nat :: k < |objects| ==> ObjectAt(bytes, 13 + Total(objects[..k]), objects[k]))
      && bytes[|bytes| - 8..] == [0x47, 0x58, 0x50, 0x4B, 0x2D, 0x45, 0x4E, 0x44]
  {
    hide ObjectsError, LeBytes, Pow256, Strict, BodyBytes, ObjectAt, NumberAt, IdsRise, Total;
    EncodesWhen(objects, None);
    StrictRises(objects, None);
    if EncodePack(objects).Ok? {
      var bytes, body := EncodePack(objects).value, BodyBytes(objects);
      BodyTotal(objects);
      assert bytes[5..5 + 8] == PackHeader(|objects|)[5..] == LeBytes(|objects|, 8);
      LengthAt(bytes, 5, |objects|);
      assert bytes[13..13 + |body|] == body;
      forall k: nat | k < |objects| ensures ObjectAt(bytes, 13 + Total(objects[..k]), objects[k]) {
        BodyAt(bytes, 13, objects, k);
      }
    }
  }

  // ---- Where the builder cuts ----

  /** Every pack but the last was closed because the next object would have taken it past 262144 bytes. */
  lemma {:induction false} CutWhenFull(current: Chunk, rest: seq<PackObject>, k: nat)
    requires k + 1 < |Cut(current, rest)|
    ensures Cut(current, rest)[k + 1] != []
      && Total(Cut(current, rest)[k]) + Size(Cut(current, rest)[k + 1][0]) > 262144
    decreases |rest|
  {
    hide Total;
    if rest != [] {
      if current != [] && Total(current) + Size(rest[0]) > TARGET_PACK_BYTES {
        var more := Cut([rest[0]], rest[1..]);
        StartsWith([rest[0]], rest[1..]);
        if k > 0 { CutWhenFull([rest[0]], rest[1..], k - 1); }
      } else {
        CutWhenFull(current + [rest[0]], rest[1..], k);
      }
    }
  }

  lemma {:induction false} StartsWith(current: Chunk, rest: seq<PackObject>)
    requires current != []
    ensures Cut(current, rest) != [] && current <= Cut(current, rest)[0]
    decreases |rest|
  {
    hide Total;
    if rest != [] { StartsWith(current + [rest[0]], rest[1..]); }
  }

  // ---- The order of the packs ----

  /** Packs in the order of their identities; equal identities in the order they were written. */
  lemma {:induction false} SortedPacks(packs: seq<Artifact>)
    ensures InIdOrder(SortById(packs)) && multiset(SortById(packs)) == multiset(packs)
    ensures forall id :: WithId(SortById(packs), id) == WithId(packs, id)
  {
    hide InsertById, WithId, InIdOrder;
    SortOrders(packs);
    if packs != [] {
      SortedPacks(packs[1..]);
      InsertOrders(packs[0], SortById(packs[1..]));
      assert packs == [packs[0]] + packs[1..];
      forall id ensures WithId(SortById(packs), id) == WithId(packs, id) {
        InsertStable(packs[0], SortById(packs[1..]), id);
        FirstWithId(packs, id);
      }
    }
  }

  function WithId(packs: seq<Artifact>, id: Digest): seq<Artifact>
  {
    if packs == [] then [] else (if packs[0].id == id then [packs[0]] else []) + WithId(packs[1..], id)
  }

  lemma {:induction false} FirstWithId(packs: seq<Artifact>, id: Digest)
    requires packs != []
    ensures WithId(packs, id) == (if packs[0].id == id then [packs[0]] else []) + WithId(packs[1..], id)
  {
  }

  lemma {:induction false} InsertStable(pack: Artifact, sorted: seq<Artifact>, id: Digest)
    ensures WithId(InsertById(pack, sorted), id) == (if pack.id == id then [pack] else []) + WithId(sorted, id)
  {
    hide Below, WithId;
    var r := InsertById(pack, sorted);
    FirstWithId(r, id);
    if sorted == [] || !Below(sorted[0].id, pack.id) {
      assert r[0] == pack && r[1..] == sorted;
    } else {
      InsertStable(pack, sorted[1..], id);
      FirstWithId(sorted, id);
      assert r[0] == sorted[0] && r[1..] == InsertById(pack, sorted[1..]);
      BelowTotal(sorted[0].id, pack.id);
      assert !(pack.id == id && sorted[0].id == id);
    }
  }
}
