/** Furthest-reaching points: what the V arrays of the greedy search hold. */
module Frontier {
  import opened EditDistance

  /** `x` is the furthest column on diagonal `k` (where y == x - k) at distance at most `d`. */
  ghost predicate Furthest(a: seq<Line>, b: seq<Line>, d: int, k: int, x: int)
  {
    x >= 0 && x >= k && Dist(a, b, x, x - k) <= d < Dist(a, b, x + 1, x + 1 - k)
  }

  ghost predicate FurthestAt(a: seq<Line>, b: seq<Line>, v: seq<int>, offset: int, d: int, k: int)
  {
    0 <= offset + k < |v| && Furthest(a, b, d, k, v[offset + k])
  }

  /** The diagonals below `k` that depth `e` visits hold their furthest points. */
  ghost predicate Layer(a: seq<Line>, b: seq<Line>, v: seq<int>, offset: int, e: int, k: int)
  {
    forall j :: -e <= j < k && j <= e && (j + e) % 2 == 0 ==> FurthestAt(a, b, v, offset, e, j)
  }

  lemma {:induction false} LayerAt(a: seq<Line>, b: seq<Line>, v: seq<int>, offset: int, e: int, j: int)
    requires Layer(a, b, v, offset, e, e + 1) && -e <= j <= e && (j + e) % 2 == 0
    ensures 0 <= offset + j < |v| && Furthest(a, b, e, j, v[offset + j])
  {
    assert FurthestAt(a, b, v, offset, e, j);
  }

  /** What depth `d` reads: the furthest points of depth `d - 1`, or the initial zero. */
  ghost predicate Ready(a: seq<Line>, b: seq<Line>, v: seq<int>, offset: int, d: int)
  {
    && 0 <= d <= offset + 1 && |v| == 2 * offset + 3
    && (d > 0 ==> Layer(a, b, v, offset, d - 1, d))
    && (d == 0 ==> v[offset + 1] == 0)
  }

  /** The array during depth `d`, with the diagonals below `k` already advanced. */
  ghost predicate Holds(a: seq<Line>, b: seq<Line>, v: seq<int>, offset: int, d: int, k: int)
  {
    Ready(a, b, v, offset, d) && Layer(a, b, v, offset, d, k)
  }

  /** Where the walk on diagonal `k` starts at depth `d`: one step off the better neighbour. */
  function Start(v: seq<int>, offset: int, d: int, k: int): int
    requires 0 <= d <= offset && -d <= k <= d && |v| == 2 * offset + 3
  {
    if k == -d || (k != d && v[offset + k - 1] < v[offset + k + 1]) then v[offset + k + 1]
    else v[offset + k - 1] + 1
  }

  lemma {:induction false} StartReached(a: seq<Line>, b: seq<Line>, v: seq<int>, offset: int, d: int, k: int)
    requires Ready(a, b, v, offset, d) && -d <= k <= d <= offset && (k + d) % 2 == 0
    ensures var x := Start(v, offset, d, k); x >= 0 && x >= k && Dist(a, b, x, x - k) <= d
  {
    if d > 0 { hide Dist; }
    var x := Start(v, offset, d, k);
    if d == 0 {
    } else if k == -d || (k != d && v[offset + k - 1] < v[offset + k + 1]) {
      assert FurthestAt(a, b, v, offset, d - 1, k + 1);
      Adjacent(a, b, x, x - k - 1);
    } else {
      assert FurthestAt(a, b, v, offset, d - 1, k - 1);
      Adjacent(a, b, x - 1, x - k);
    }
  }

  /** Past the start, diagonal `k` is left behind at the first unequal pair. */
  lemma {:induction false} Blocked(a: seq<Line>, b: seq<Line>, v: seq<int>, offset: int, d: int, k: int, x: int)
    requires Ready(a, b, v, offset, d) && -d <= k <= d <= offset && (k + d) % 2 == 0
    requires 0 <= Start(v, offset, d, k) <= x && x >= k && !Match(a, b, x, x - k)
    ensures Dist(a, b, x + 1, x + 1 - k) > d
  {
    BelowFar(a, b, v, offset, d, k, x);
    RightFar(a, b, v, offset, d, k, x);
  }

  /** Below the blocked point: (x, y + 1) lies on diagonal k - 1. */
  lemma {:induction false} BelowFar(a: seq<Line>, b: seq<Line>, v: seq<int>, offset: int, d: int, k: int, x: int)
    requires Ready(a, b, v, offset, d) && -d <= k <= d <= offset && (k + d) % 2 == 0
    requires 0 <= Start(v, offset, d, k) <= x && x >= k
    ensures Dist(a, b, x, x - k + 1) > d - 1
  {
    hide Dist;
    if k == -d {
      AtLeastOffset(a, b, x, x - k + 1);
    } else {
      assert FurthestAt(a, b, v, offset, d - 1, k - 1);
      Monotone(a, b, k - 1, v[offset + (k - 1)] + 1, x);
    }
  }

  /** To its right: (x + 1, y) lies on diagonal k + 1. */
  lemma {:induction false} RightFar(a: seq<Line>, b: seq<Line>, v: seq<int>, offset: int, d: int, k: int, x: int)
    requires Ready(a, b, v, offset, d) && -d <= k <= d <= offset && (k + d) % 2 == 0
    requires 0 <= Start(v, offset, d, k) <= x && x >= k
    ensures Dist(a, b, x + 1, x - k) > d - 1
  {
    hide Dist;
    if k == d {
      AtLeastOffset(a, b, x + 1, x - k);
    } else {
      assert FurthestAt(a, b, v, offset, d - 1, k + 1);
      Monotone(a, b, k + 1, v[offset + (k + 1)] + 1, x + 1);
    }
  }

  /** A point within distance `d` is not past the furthest one of its diagonal. */
  lemma {:induction false} Reached(a: seq<Line>, b: seq<Line>, d: int, k: int, x: int, p: int)
    requires Furthest(a, b, d, k, x)
    requires p >= 0 && p >= k && Dist(a, b, p, p - k) <= d
    ensures p <= x
  {
    if p > x {
      Monotone(a, b, k, x + 1, p);
    }
  }

  /** Storing the advanced point of diagonal `k` completes that diagonal. */
  lemma {:induction false} Advance(a: seq<Line>, b: seq<Line>, v: seq<int>, offset: int, d: int, k: int, x: int)
    requires Holds(a, b, v, offset, d, k) && -d <= k <= d <= offset && (k + d) % 2 == 0
    requires x >= 0 && x >= k && Start(v, offset, d, k) <= x && Start(v, offset, d, k) >= 0
    requires Dist(a, b, x, x - k) <= d && !Match(a, b, x, x - k)
    ensures Furthest(a, b, d, k, x)
    ensures Holds(a, b, v[offset + k := x], offset, d, k + 2)
  {
    Blocked(a, b, v, offset, d, k, x);
    var v' := v[offset + k := x];
    forall j | -d <= j < k + 2 && j <= d && (j + d) % 2 == 0
      ensures FurthestAt(a, b, v', offset, d, j)
    {
      assert j != k ==> FurthestAt(a, b, v, offset, d, j);
    }
    var e := d - 1;
    forall j | -e <= j < d && j <= e && (j + e) % 2 == 0
      ensures FurthestAt(a, b, v', offset, e, j)
    {
      assert FurthestAt(a, b, v, offset, e, j);
    }
  }

  /** Between the start and the furthest point of a diagonal every pair is equal. */
  lemma {:induction false} SnakeMatches(a: seq<Line>, b: seq<Line>, v: seq<int>, offset: int, d: int, k: int, x: int,
        p: int)
    requires Ready(a, b, v, offset, d) && -d <= k <= d <= offset && (k + d) % 2 == 0
    requires 0 <= Start(v, offset, d, k) < p <= x && p > k && Start(v, offset, d, k) >= k
    requires Dist(a, b, x, x - k) <= d
    ensures Match(a, b, p - 1, p - 1 - k)
  {
    if !Match(a, b, p - 1, p - 1 - k) {
      Blocked(a, b, v, offset, d, k, p - 1);
      Monotone(a, b, k, p, x);
    }
  }

  /** The body of every search loop: pick the better neighbour, slide along the equal pairs,
      and store the point reached. */
  method AdvanceDiagonal(a: seq<Line>, b: seq<Line>, v: array<int>, offset: int, d: int, k: int) returns (x: int)
    requires Holds(a, b, v[..], offset, d, k) && -d <= k <= d <= offset && (k + d) % 2 == 0
    modifies v
    ensures v[..] == old(v[..])[offset + k := x]
    ensures Furthest(a, b, d, k, x)
    ensures Holds(a, b, v[..], offset, d, k + 2)
  {
    var kk := k + offset;
    x := if k == -d || (k != d && v[kk - 1] < v[kk + 1]) then v[kk + 1] else v[kk - 1] + 1;
    var y := x - k;
    ghost var was := v[..];
    assert x == Start(was, offset, d, k);
    StartReached(a, b, was, offset, d, k);
    while x < |a| && y < |b| && a[x] == b[y]
      invariant y == x - k && y >= 0 && x >= Start(was, offset, d, k)
      invariant Dist(a, b, x, y) <= d
    {
      x := x + 1;
      y := y + 1;
    }
    Advance(a, b, was, offset, d, k, x);
    v[kk] := x;
    assert v[..] == was[offset + k := x];
  }
}
