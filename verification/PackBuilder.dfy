/** Cutting objects into packs (src/exchange/export.rs). */
module PackBuilder {
  import opened Packs

  // Greedy, and no order-preserving cut into packs of the target size is shorter.

  const TARGET_PACK_BYTES: nat := 262144

  type Chunk = seq<PackObject>

  function Size(o: PackObject): nat { 41 + |o.envelope| }

  function Total(chunk: Chunk): nat
  {
    if chunk == [] then 0 else Size(chunk[0]) + Total(chunk[1..])
  }

  /** A pack holds at most the target size, or one object. */
  predicate Fits(chunk: Chunk) { Total(chunk) <= TARGET_PACK_BYTES || |chunk| <= 1 }

  /** The chunks the loop makes from an open chunk and the objects still to come. */
  function Cut(current: Chunk, rest: seq<PackObject>): seq<Chunk>
    decreases |rest|
  {
    if rest == [] then if current == [] then [] else [current]
    else if current != [] && Total(current) + Size(rest[0]) > TARGET_PACK_BYTES then
        [current] + Cut([rest[0]], rest[1..])
    else Cut(current + [rest[0]], rest[1..])
  }

  function Concat(chunks: seq<Chunk>): seq<PackObject>
  {
    if chunks == [] then [] else chunks[0] + Concat(chunks[1..])
  }

  /** A cut of a list into non-empty packs that fit, keeping the order. */
  ghost predicate Partition(chunks: seq<Chunk>, objects: seq<PackObject>)
  {
    Concat(chunks) == objects && forall c :: c in chunks ==> c != [] && Fits(c)
  }

  lemma {:induction false} TotalPush(chunk: Chunk, o: PackObject)
    ensures Total(chunk + [o]) == Total(chunk) + Size(o)
  {
    if chunk == [] {
      assert [] + [o] == [o] && [o][1..] == [];
    } else {
      TotalPush(chunk[1..], o);
      assert (chunk + [o])[1..] == chunk[1..] + [o] && (chunk + [o])[0] == chunk[0];
    }
  }

  lemma {:induction false} TotalJoin(c: Chunk, d: Chunk)
    ensures Total(c + d) == Total(c) + Total(d)
  {
    if c == [] {
      assert c + d == d;
    } else {
      TotalJoin(c[1..], d);
      assert (c + d)[1..] == c[1..] + d && (c + d)[0] == c[0];
    }
  }

  /** The cut keeps every object in order, and every pack fits. */
  lemma {:induction false} CutPartitions(current: Chunk, rest: seq<PackObject>)
    requires Fits(current)
    ensures Partition(Cut(current, rest), current + rest)
    decreases |rest|
  {
    hide Fits;
    if rest == [] {
      assert current + rest == current;
      assert [current][1..] == [] && Concat([current]) == current + [];
    } else {
      var o := rest[0];
      TotalPush(current, o);
      assert [o] + rest[1..] == rest;
      if current != [] && Total(current) + Size(o) > TARGET_PACK_BYTES {
        SingleFits([o]);
        CutPartitions([o], rest[1..]);
        var more := Cut([o], rest[1..]);
        assert ([current] + more)[1..] == more;
      } else {
        assert Fits(current + [o]) by { FitsPush(current, o); }
        CutPartitions(current + [o], rest[1..]);
        assert current + [o] + rest[1..] == current + rest;
      }
    }
  }

  lemma {:induction false} SingleFits(c: Chunk)
    requires |c| <= 1
    ensures Fits(c)
  {
  }

  lemma {:induction false} FitsPush(current: Chunk, o: PackObject)
    requires current == [] || Total(current) + Size(o) <= TARGET_PACK_BYTES
    ensures Fits(current + [o])
  {
    TotalPush(current, o);
  }

  // ---- No cut is shorter ----

  /** Part of a pack that fits also fits. */
  lemma {:induction false} PartFits(c: Chunk, d: Chunk)
    requires Fits(c + d)
    ensures Fits(c) && Fits(d)
  {
    TotalJoin(c, d);
  }

  /** Another cut of what the loop still has to place: of the tail `kept` of its open chunk and of the
      rest. It needs as many packs as the loop, less one when it has already closed a pack inside the
      open chunk. */
  lemma {:induction false} CutShortest(dropped: Chunk, kept: Chunk, rest: seq<PackObject>, other: seq<Chunk>)
    requires Partition(other, kept + rest)
    requires kept != [] ==> other != [] && kept <= other[0]
    requires dropped != [] ==> kept != []
    ensures |Cut(dropped + kept, rest)| <= |other| + if dropped == [] then 0 else 1
    decreases |rest|
  {
    hide Total;
    var current := dropped + kept;
    if rest != [] {
      var o := rest[0];
      assert kept + rest == kept + [o] + rest[1..];
      if other == [] { assert false; }
      var first := other[0];
      assert first in other;
      var closes := current != [] && Total(current) + Size(o) > TARGET_PACK_BYTES;
      if kept < first {
        FirstTakes(kept, rest, other);
        if closes {
          // The loop closes its chunk, so `kept` is only part of it; the other pack is cut in two here.
          if dropped == [] {
            assert current == kept;
            Overfull(kept, o, first);
            assert false;
          }
          var cut := [first[|kept|..]] + other[1..];
          CutFirst(kept, rest, other, cut);
          assert [o] + rest[1..] == rest && [] + [o] == [o];
          CutShortest([], [o], rest[1..], cut);
        } else {
          assert dropped + (kept + [o]) == current + [o];
          CutShortest(dropped, kept + [o], rest[1..], other);
        }
      } else {
        // The other cut closes its pack where the open chunk ends.
        NextChunk(kept, rest, other);
        assert [o] + rest[1..] == rest && [] + [o] == [o];
        if closes {
          CutShortest([], [o], rest[1..], other[1..]);
        } else {
          CutShortest(current, [o], rest[1..], other[1..]);
        }
      }
    }
  }

  lemma {:induction false} FirstTakes(kept: Chunk, rest: seq<PackObject>, other: seq<Chunk>)
    requires rest != [] && other != [] && kept < other[0] && Concat(other) == kept + rest
    ensures kept + [rest[0]] <= other[0]
  {
    var first := other[0];
    assert first[|kept|] == Concat(other)[|kept|] == rest[0];
    assert first[..|kept| + 1] == kept + [rest[0]];
  }

  lemma {:induction false} Overfull(kept: Chunk, o: PackObject, first: Chunk)
    requires kept != [] && kept + [o] <= first && Fits(first)
    ensures Total(kept) + Size(o) <= TARGET_PACK_BYTES
  {
    hide Total;
    assert first == (kept + [o]) + first[|kept| + 1..];
    PartFits(kept + [o], first[|kept| + 1..]);
    TotalPush(kept, o);
  }

  lemma {:induction false} CutFirst(kept: Chunk, rest: seq<PackObject>, other: seq<Chunk>, cut: seq<Chunk>)
    requires rest != [] && other != [] && kept < other[0] && Partition(other, kept + rest)
    requires cut == [other[0][|kept|..]] + other[1..]
    ensures Partition(cut, rest) && [rest[0]] <= cut[0]
  {
    hide Total;
    var first := other[0];
    assert first == kept + first[|kept|..];
    PartFits(kept, first[|kept|..]);
    assert cut[1..] == other[1..];
    assert first in other;
    assert Concat(cut) == (kept + rest)[|kept|..] == rest;
    assert cut[0][0] == rest[0];
  }

  lemma {:induction false} NextChunk(kept: Chunk, rest: seq<PackObject>, other: seq<Chunk>)
    requires rest != [] && other != [] && kept == other[0] && Partition(other, kept + rest)
    ensures Partition(other[1..], rest) && other[1..] != [] && [rest[0]] <= other[1..][0]
  {
    assert Concat(other[1..]) == (kept + rest)[|kept|..] == rest;
    var next := other[1..];
    assert next[0] in other;
    assert next[0][0] == rest[0];
  }

  /** No order-preserving cut into packs of the target size, or of one object, uses fewer packs. */
  lemma {:induction false} CutIsShortest(objects: seq<PackObject>, other: seq<Chunk>)
    requires Partition(other, objects)
    ensures Partition(Cut([], objects), objects) && |Cut([], objects)| <= |other|
  {
    assert [] + objects == objects;
    var none: Chunk := [];
    assert none + none == none;
    CutPartitions([], objects);
    CutShortest([], [], objects, other);
  }
}
