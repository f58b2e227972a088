/** The linear-space divide and conquer (src/content.rs). */
module MiddleSnake {
  import opened EditDistance
  import opened Frontier
  import opened Myers

  // `find_middle_snake`, `diff_rec` and `myers_diff`: a search from both ends and the recursion over it.

  // ---- When the two searches meet ----

  /** The diagonal on which the two searches first meet crosses the grid. */
  lemma {:induction false} CrossesGrid(a: seq<Line>, b: seq<Line>, df: int, db: int, j: int, x: int, x': int)
    requires Furthest(a, b, df, j, x) && Furthest(Reverse(a), Reverse(b), db, |a| - |b| - j, x')
    requires df + db <= Total(a, b)
    ensures -|b| <= j <= |a|
  {
    AtLeastOffset(a, b, |a|, |b|);
    AtLeastOffset(a, b, x, x - j);
    AtLeastOffset(Reverse(a), Reverse(b), x', x' - (|a| - |b| - j));
  }

  /** Some grid point between the two furthest points splits the distance into the two depths. */
  lemma {:induction false} MeetingPoint(a: seq<Line>, b: seq<Line>, df: int, db: int, j: int, x: int, x': int, p: int)
    requires Furthest(a, b, df, j, x) && Furthest(Reverse(a), Reverse(b), db, |a| - |b| - j, x')
    requires df + db <= Total(a, b) && |a| <= x + x' && -|b| <= j <= |a|
    requires p == Min(x, Min(|a|, |b| + j))
    ensures 0 <= p <= |a| && 0 <= p - j <= |b|
    ensures Dist(a, b, p, p - j) == df && Back(a, b, p, p - j) == db && df + db == Total(a, b)
  {
    hide Dist, Reverse;
    Monotone(a, b, j, p, x);
    Monotone(Reverse(a), Reverse(b), |a| - |b| - j, |a| - p, x');
    assert |a| - p - (|a| - |b| - j) == |b| - (p - j);
    Through(a, b, p, p - j);
  }

  /** The two searches meet first at a grid point that splits the distance into their depths. */
  lemma {:induction false} Meeting(a: seq<Line>, b: seq<Line>, df: int, db: int, j: int, x: int, x': int)
    requires Furthest(a, b, df, j, x) && Furthest(Reverse(a), Reverse(b), db, |a| - |b| - j, x')
    requires df + db <= Total(a, b) && |a| <= x + x'
    ensures x <= |a| && 0 <= x - j <= |b|
    ensures Dist(a, b, x, x - j) == df && Back(a, b, x, x - j) == db && df + db == Total(a, b)
  {
    CrossesGrid(a, b, df, db, j, x, x');
    var p := Min(x, Min(|a|, |b| + j));
    MeetingPoint(a, b, df, db, j, x, x', p);
    if p < x {
      PastTheBorder(a, b, p, p - j);
      Monotone(a, b, j, p + 1, x);
    }
  }

  /** Leaving the grid from a border point on a shortest way costs two. */
  lemma {:induction false} PastTheBorder(a: seq<Line>, b: seq<Line>, p: nat, q: nat)
    requires p <= |a| && q <= |b| && (p == |a| || q == |b|)
    requires Dist(a, b, p, q) + Back(a, b, p, q) == Total(a, b)
    ensures Dist(a, b, p + 1, q + 1) > Dist(a, b, p, q)
  {
    BackStep(a, b, p, q);
    OffGrid(a, b, p, q);
    if p == |a| && q < |b| {
      Adjacent(a, b, p, q);
      BackStep(a, b, p, q + 1);
      Through(a, b, p, q + 1);
    }
    if q == |b| && p < |a| {
      Adjacent(a, b, p, q);
      BackStep(a, b, p + 1, q);
      Through(a, b, p + 1, q);
    }
  }

  /** The searches have not met on forward diagonal `j`. */
  ghost predicate Apart(vf: seq<int>, vb: seq<int>, offset: int, n: int, delta: int, j: int)
  {
    0 <= offset + j < |vf| && 0 <= offset + (delta - j) < |vb| && vf[offset + j] + vb[offset + (delta - j)] < n
  }

  /** They have not met on any forward diagonal below `k` that both of them visit. */
  ghost predicate ApartBelow(vf: seq<int>, vb: seq<int>, offset: int, n: int, delta: int, df: int, db: int, k: int)
  {
    forall j :: -df <= j < k && j <= df && delta - db <= j <= delta + db && (j + df) % 2 == 0
      ==> Apart(vf, vb, offset, n, delta, j)
  }

  /** A point that each side reaches in its depth is where their furthest points overlap. */
  lemma {:induction false} Overlap(a: seq<Line>, b: seq<Line>, ra: seq<Line>, rb: seq<Line>, vf: seq<int>,
        vb: seq<int>, offset: int,
                delta: int, df: int, db: int, p: int, q: int)
    requires 0 <= df && 0 <= db && Layer(a, b, vf, offset, df, df + 1) && Layer(ra, rb, vb, offset, db, db + 1)
    requires 0 <= p <= |a| && 0 <= q <= |b| && delta == |a| - |b|
    requires Dist(a, b, p, q) == df && Dist(ra, rb, |a| - p, |b| - q) == db
    ensures !ApartBelow(vf, vb, offset, |a|, delta, df, db, df + 1)
  {
    hide Dist, Layer, ApartBelow;
    var j := p - q;
    AtLeastOffset(a, b, p, q);
    AtLeastOffset(ra, rb, |a| - p, |b| - q);
    Parity(a, b, p, q);
    EvenOffset(p, q, df);
    Parity(ra, rb, |a| - p, |b| - q);
    EvenOffset(|a| - p, |b| - q, db);
    LayerAt(a, b, vf, offset, df, j);
    LayerAt(ra, rb, vb, offset, db, delta - j);
    Reached(a, b, df, j, vf[offset + j], p);
    Reached(ra, rb, db, delta - j, vb[offset + (delta - j)], |a| - p);
    assert !Apart(vf, vb, offset, |a|, delta, j);
    NotApartBelow(vf, vb, offset, |a|, delta, df, db, j);
  }

  lemma {:induction false} NotApartBelow(vf: seq<int>, vb: seq<int>, offset: int, n: int, delta: int, df: int, db: int,
        j: int)
    requires -df <= j <= df && delta - db <= j <= delta + db && (j + df) % 2 == 0 && !Apart(vf, vb, offset, n, delta, j)
    ensures !ApartBelow(vf, vb, offset, n, delta, df, db, df + 1)
  {
  }

  /** Two complete layers that have not met anywhere bound the distance from below. */
  lemma {:induction false} NotMet(a: seq<Line>, b: seq<Line>, vf: seq<int>, vb: seq<int>, offset: int, delta: int,
        df: int, db: int)
    requires 0 <= df && 0 <= db && Layer(a, b, vf, offset, df, df + 1)
    requires Layer(Reverse(a), Reverse(b), vb, offset, db, db + 1)
    requires delta == |a| - |b| && ApartBelow(vf, vb, offset, |a|, delta, df, db, df + 1)
    requires df + db <= Total(a, b)
    ensures df + db < Total(a, b)
  {
    if Total(a, b) == df + db {
      var p, q := Split(a, b, df);
      Overlap(a, b, Reverse(a), Reverse(b), vf, vb, offset, delta, df, db, p, q);
    }
  }

  lemma {:induction false} ApartAdvance(vf: seq<int>, vb: seq<int>, offset: int, n: int, delta: int, df: int, db: int,
        k: int, x: int)
    requires ApartBelow(vf, vb, offset, n, delta, df, db, k) && (k + df) % 2 == 0 && -df <= k <= df
    requires 0 <= offset + k < |vf| && 0 <= df <= offset && 0 <= db <= offset && |vb| == 2 * offset + 3
    requires delta - db <= k <= delta + db ==> x + vb[offset + (delta - k)] < n
    ensures ApartBelow(vf[offset + k := x], vb, offset, n, delta, df, db, k + 2)
  {
    var vf' := vf[offset + k := x];
    forall j | -df <= j < k + 2 && j <= df && delta - db <= j <= delta + db && (j + df) % 2 == 0
      ensures Apart(vf', vb, offset, n, delta, j)
    {
      assert j != k ==> Apart(vf, vb, offset, n, delta, j);
    }
  }

  // ---- The middle snake ----

  /** One side of one depth: advances every diagonal and, when asked to, stops where the point
      reached overlaps the other side's.  The backward side reads both lists reversed. */
  method SearchDepth(a: seq<Line>, b: seq<Line>, va: array<int>, vb: array<int>, offset: int, d: int, db: int,
        check: bool)
    returns (met: bool, k: int, x: int)
    requires va != vb && d <= offset && -1 <= db <= offset && (db == -1 ==> d == 0)
    requires vb.Length == 2 * offset + 3
    requires Holds(a, b, va[..], offset, d, -d)
    requires db >= 0 ==> Layer(Reverse(a), Reverse(b), vb[..], offset, db, db + 1)
    requires check ==> (d + db + |a| + |b|) % 2 == 0 && d + db <= Total(a, b)
    modifies va
    ensures !met ==> Holds(a, b, va[..], offset, d, d + 1)
    ensures !met && check ==> d + db < Total(a, b)
    ensures met ==> Met(a, b, d, db, k, x) && d + db == Total(a, b)
  {
    var delta := |a| - |b|;
    k, x, met := -d, 0, false;
    while k <= d
      invariant -d <= k <= d + 2 && (k + d) % 2 == 0
      invariant Holds(a, b, va[..], offset, d, k)
      invariant check && db >= 0 ==> ApartBelow(va[..], vb[..], offset, |a|, delta, d, db, k)
    {
      ghost var was := va[..];
      x := AdvanceDiagonal(a, b, va, offset, d, k);
      if check && Abs(k - delta) <= db && x + vb[(delta - k) + offset] >= |a| {
        MeetingHere(a, b, vb[..], offset, d, db, k, x, delta - k);
        met := true;
        return;
      }
      if check && db >= 0 { ApartAdvance(was, vb[..], offset, |a|, delta, d, db, k, x); }
      k := k + 2;
    }
    if check && db >= 0 { NotMet(a, b, va[..], vb[..], offset, delta, d, db); }
  }

  /** Column `x` of diagonal `k` is the end of an equal run and splits the distance. */
  ghost predicate Met(a: seq<Line>, b: seq<Line>, d: int, db: int, k: int, x: int)
  {
    && 0 <= x <= |a| && 0 <= x - k <= |b| && !Match(a, b, x, x - k)
    && Dist(a, b, x, x - k) == d && Back(a, b, x, x - k) == db
  }

  lemma {:induction false} MeetingHere(a: seq<Line>, b: seq<Line>, vb: seq<int>, offset: int, d: int, db: int, k: int,
        x: int, k': int)
    requires Furthest(a, b, d, k, x) && k' == |a| - |b| - k && -db <= k' <= db
    requires Layer(Reverse(a), Reverse(b), vb, offset, db, db + 1)
    requires (d + db + |a| + |b|) % 2 == 0 && (k + d) % 2 == 0 && d + db <= Total(a, b)
    requires 0 <= offset + k' < |vb| && x + vb[offset + k'] >= |a|
    ensures Met(a, b, d, db, k, x) && d + db == Total(a, b)
  {
    EvenDiagonal(|a|, |b|, d, db, k);
    var x' := vb[offset + k'];
    assert Furthest(Reverse(a), Reverse(b), db, k', x') by {
      LayerAt(Reverse(a), Reverse(b), vb, offset, db, k');
    }
    Meeting(a, b, d, db, k, x, x');
  }

  /** Walks back from (x, y) to the start of the equal run ending there. */
  method SnakeStart(a: seq<Line>, b: seq<Line>, x: int, y: int) returns (sx: int, sy: int)
    requires 0 <= x <= |a| && 0 <= y <= |b|
    ensures Snake(a, b, x - y, sx, x) && sy == sx - (x - y)
    ensures sx > 0 && sy > 0 ==> a[sx - 1] != b[sy - 1]
  {
    sx, sy := x, y;
    while sx > 0 && sy > 0 && a[sx - 1] == b[sy - 1]
      invariant Snake(a, b, x - y, sx, x) && sy == sx - (x - y)
    {
      sx := sx - 1;
      sy := sy - 1;
      assert EqualAt(a, b, x - y, sx);
    }
  }

  /** The same walk in reversed coordinates: from (x, y) counted from the far ends. */
  method SnakeStartRev(a: seq<Line>, b: seq<Line>, x: int, y: int) returns (sx: int, sy: int)
    requires 0 <= x <= |a| && 0 <= y <= |b|
    ensures Snake(a, b, (|a| - x) - (|b| - y), |a| - x, |a| - sx) && x - sx == y - sy
    ensures sx > 0 && sy > 0 ==> a[|a| - sx] != b[|b| - sy]
  {
    sx, sy := x, y;
    ghost var k := (|a| - x) - (|b| - y);
    while sx > 0 && sy > 0 && a[|a| - sx] == b[|b| - sy]
      invariant Snake(a, b, k, |a| - x, |a| - sx) && x - sx == y - sy
    {
      assert EqualAt(a, b, k, |a| - sx);
      sx := sx - 1;
      sy := sy - 1;
    }
  }

  /** A run of equal pairs that splits the problem into two smaller, again trimmed, halves
      whose distances add up. */
  ghost predicate MiddleRun(a: seq<Line>, b: seq<Line>, sx: int, sy: int, ex: int, ey: int)
  {
    && Snake(a, b, sx - sy, sx, ex) && 0 <= sy && ey == ex - (sx - sy)
    && sx + sy < |a| + |b| && 0 < ex + ey
    && Trimmed(a[..sx], b[..sy]) && Trimmed(a[ex..], b[ey..])
    && Total(a[..sx], b[..sy]) + Total(a[ex..], b[ey..]) == Total(a, b)
  }

  /** The distances on both sides of an equal run are those of any point on it. */
  lemma {:induction false} RunTotals(a: seq<Line>, b: seq<Line>, sx: int, sy: int, ex: int, ey: int, x: int)
    requires Snake(a, b, sx - sy, sx, ex) && 0 <= sy && ey == ex - (sx - sy) && sx <= x <= ex
    ensures Total(a[..sx], b[..sy]) == Dist(a, b, x, x - (sx - sy))
    ensures Total(a[ex..], b[ey..]) == Back(a, b, x, x - (sx - sy))
  {
    SnakeKeeps(a, b, sx - sy, sx, x);
    PrefixOnly(a, b, sx, sy);
    SnakeKeeps(a, b, sx - sy, x, ex);
    BackIsTotal(a, b, ex, ey);
  }

  /** A maximal equal run through a point that splits the distance is a middle run. */
  lemma {:induction false} MeetingRun(a: seq<Line>, b: seq<Line>, sx: int, sy: int, ex: int, ey: int, x: int)
    requires Trimmed(a, b) && a != [] && b != []
    requires Snake(a, b, sx - sy, sx, ex) && 0 <= sy && ey == ex - (sx - sy) && sx <= x <= ex
    requires sx > 0 && sy > 0 ==> a[sx - 1] != b[sy - 1]
    requires ex < |a| && ey < |b| ==> a[ex] != b[ey]
    requires var y := x - (sx - sy);
      0 < Dist(a, b, x, y) < Total(a, b) && Dist(a, b, x, y) + Back(a, b, x, y) == Total(a, b)
    ensures MiddleRun(a, b, sx, sy, ex, ey)
  {
    RunTotals(a, b, sx, sy, ex, ey, x);
    Halves(a, b, sx, sy, ex, ey);
  }

  lemma {:induction false} Halves(a: seq<Line>, b: seq<Line>, sx: int, sy: int, ex: int, ey: int)
    requires Trimmed(a, b) && 0 <= sx <= |a| && 0 <= sy <= |b| && 0 <= ex <= |a| && 0 <= ey <= |b|
    requires sx > 0 && sy > 0 ==> a[sx - 1] != b[sy - 1]
    requires ex < |a| && ey < |b| ==> a[ex] != b[ey]
    ensures Trimmed(a[..sx], b[..sy]) && Trimmed(a[ex..], b[ey..])
    ensures sx + sy == |a| + |b| ==> Total(a[..sx], b[..sy]) == Total(a, b)
    ensures ex + ey == 0 ==> Total(a[ex..], b[ey..]) == Total(a, b)
  {
    assert a[..|a|] == a && b[..|b|] == b && a[0..] == a && b[0..] == b;
  }

  /** The middle run around a forward meeting point: back to the start of the run that ends there. */
  method ForwardRun(a: seq<Line>, b: seq<Line>, ghost d: int, ghost db: int, x: int, y: int)
    returns (sx: int, sy: int)
    requires Trimmed(a, b) && a != [] && b != []
    requires Met(a, b, d, db, x - y, x) && d + db == Total(a, b) && 0 < d && 0 < db
    ensures MiddleRun(a, b, sx, sy, x, y)
  {
    sx, sy := SnakeStart(a, b, x, y);
    MeetingRun(a, b, sx, sy, x, y, x);
  }

  /** The same around a backward meeting point, given in reversed coordinates. */
  method BackwardRun(a: seq<Line>, b: seq<Line>, ghost d: int, x: int, y: int)
    returns (sx: int, sy: int, ex: int, ey: int)
    requires Trimmed(a, b) && a != [] && b != []
    requires Met(Reverse(a), Reverse(b), d, d, x - y, x) && 2 * d == Total(a, b) && 0 < d
    ensures MiddleRun(a, b, sx, sy, ex, ey)
  {
    hide Reverse, Trimmed, Total, MiddleRun, Dist;
    ReverseTwice(a); ReverseTwice(b);
    var rsx, rsy := SnakeStartRev(a, b, x, y);
    sx, sy, ex, ey := |a| - x, |b| - y, |a| - rsx, |b| - rsy;
    assert Match(Reverse(a), Reverse(b), x, y) <==> x < |a| && y < |b| && a[|a| - 1 - x] == b[|b| - 1 - y] by {
      if x < |a| && y < |b| { ReverseAt(a, x); ReverseAt(b, y); }
    }
    MeetingRun(a, b, sx, sy, ex, ey, sx);
  }

  lemma {:induction false} EvenTotal(a: seq<Line>, b: seq<Line>)
    ensures (Total(a, b) + |a| + |b|) % 2 == 0 && Total(a, b) >= 0
  {
    Parity(a, b, |a|, |b|);
  }

  /** Both searches stand before depth `d` and have not met at any smaller one. */
  ghost predicate Searching(a: seq<Line>, b: seq<Line>, vf: seq<int>, vb: seq<int>, offset: int, d: int, odd: bool)
  {
    && Holds(a, b, vf, offset, d, -d) && Holds(Reverse(a), Reverse(b), vb, offset, d, -d)
    && 2 * d - (if odd then 1 else 0) <= Total(a, b)
  }

  /** The forward half of depth `d`, checked against the backward points of depth `d - 1`. */
  method ForwardDepth(a: seq<Line>, b: seq<Line>, vf: array<int>, vb: array<int>, offset: int, d: int, odd: bool)
    returns (met: bool, sx: int, sy: int, ex: int, ey: int)
    requires Trimmed(a, b) && a != [] && b != [] && vf != vb && d <= offset
    requires odd == ((|a| - |b|) % 2 != 0) && Searching(a, b, vf[..], vb[..], offset, d, odd)
    modifies vf
    ensures Holds(Reverse(a), Reverse(b), vb[..], offset, d, -d)
    ensures met ==> MiddleRun(a, b, sx, sy, ex, ey) && 2 * d - 1 == Total(a, b)
    ensures !met ==> Holds(a, b, vf[..], offset, d, d + 1) && 2 * d + (if odd then 1 else 0) <= Total(a, b)
  {
    hide Layer, MiddleRun, Trimmed, Total, Met, Reverse;
    EvenTotal(a, b);
    sx, sy, ex, ey := 0, 0, 0, 0;
    var k, x;
    met, k, x := SearchDepth(a, b, vf, vb, offset, d, d - 1, odd);
    if met {
      TrimmedApart(a, b);
      ex, ey := x, x - k;
      sx, sy := ForwardRun(a, b, d, d - 1, ex, ey);
    }
  }

  /** The backward half of depth `d`, checked against the forward points of depth `d`. */
  method BackwardDepth(a: seq<Line>, b: seq<Line>, vf: array<int>, vb: array<int>, offset: int, d: int, odd: bool)
    returns (met: bool, sx: int, sy: int, ex: int, ey: int)
    requires Trimmed(a, b) && a != [] && b != [] && vf != vb && 0 <= d <= offset
    requires odd == ((|a| - |b|) % 2 != 0) && 2 * d <= Total(a, b)
    requires Layer(a, b, vf[..], offset, d, d + 1) && vf.Length == 2 * offset + 3
    requires Holds(Reverse(a), Reverse(b), vb[..], offset, d, -d)
    modifies vb
    ensures met ==> MiddleRun(a, b, sx, sy, ex, ey) && 2 * d == Total(a, b)
    ensures !met ==> Holds(Reverse(a), Reverse(b), vb[..], offset, d, d + 1)
    ensures !met && !odd ==> 2 * d + 2 <= Total(a, b)
  {
    hide Holds, Layer, MiddleRun, Trimmed, Total, Met, Reverse;
    ReverseTwice(a); ReverseTwice(b); ReverseTotal(a, b);
    EvenTotal(a, b);
    sx, sy, ex, ey := 0, 0, 0, 0;
    var k, x;
    met, k, x := SearchDepth(Reverse(a), Reverse(b), vb, vf, offset, d, d, !odd);
    if met {
      TrimmedApart(a, b);
      sx, sy, ex, ey := BackwardRun(a, b, d, x, x - k);
    }
  }

  /** One depth of both searches. */
  method BothDepths(a: seq<Line>, b: seq<Line>, vf: array<int>, vb: array<int>, offset: int, d: int, odd: bool)
    returns (met: bool, sx: int, sy: int, ex: int, ey: int)
    requires Trimmed(a, b) && a != [] && b != [] && vf != vb && 0 <= d <= offset
    requires odd == ((|a| - |b|) % 2 != 0) && Searching(a, b, vf[..], vb[..], offset, d, odd)
    modifies vf, vb
    ensures met ==> MiddleRun(a, b, sx, sy, ex, ey) && d == (Total(a, b) + 1) / 2
    ensures !met ==> Searching(a, b, vf[..], vb[..], offset, d + 1, odd)
  {
    hide Searching, Holds, Layer, MiddleRun, Trimmed, Total, Dist, Reverse;
    met, sx, sy, ex, ey := ForwardDepth(a, b, vf, vb, offset, d, odd);
    if met { return; }
    DepthTurns(a, b, vf[..], vb[..], offset, d);
    met, sx, sy, ex, ey := BackwardDepth(a, b, vf, vb, offset, d, odd);
    if met { return; }
    SearchingNext(a, b, vf[..], vb[..], offset, d, odd);
  }

  method FindMiddleSnake(a: seq<Line>, b: seq<Line>) returns (sx: int, sy: int, ex: int, ey: int, d: int)
    requires Trimmed(a, b) && a != [] && b != []
    ensures MiddleRun(a, b, sx, sy, ex, ey)
    ensures d == (Total(a, b) + 1) / 2 && d > 0
  {
    var n, m := |a|, |b|;
    var odd := (n - m) % 2 != 0;
    var maxD := (n + m) / 2 + 1;
    var vf := new int[2 * maxD + 3](_ => 0);
    var vb := new int[2 * maxD + 3](_ => 0);
    hide Searching, Holds, Layer, MiddleRun, Trimmed, Total, Dist, Reverse;
    TrimmedApart(a, b);
    d := 0;
    SearchingStarts(a, b, vf[..], vb[..], maxD, odd);
    while d <= maxD
      invariant 0 <= d <= maxD + 1 && Searching(a, b, vf[..], vb[..], maxD, d, odd)
    {
      var met;
      met, sx, sy, ex, ey := BothDepths(a, b, vf, vb, maxD, d, odd);
      if met { return; }
      d := d + 1;
    }
    // The searches have met by now; the source falls back to the whole range here.
    SearchingEnds(a, b, vf[..], vb[..], maxD, d, odd);
    assert false;
  }

  lemma {:induction false} SearchingStarts(a: seq<Line>, b: seq<Line>, vf: seq<int>, vb: seq<int>, offset: int,
        odd: bool)
    requires offset >= 0 && |vf| == |vb| == 2 * offset + 3
    requires forall i :: 0 <= i < |vf| ==> vf[i] == 0 && vb[i] == 0
    ensures Searching(a, b, vf, vb, offset, 0, odd)
  {
    hide Dist;
  }

  /** What the backward half needs of the forward half. */
  lemma {:induction false} DepthTurns(a: seq<Line>, b: seq<Line>, vf: seq<int>, vb: seq<int>, offset: int, d: int)
    requires Holds(a, b, vf, offset, d, d + 1) && Holds(Reverse(a), Reverse(b), vb, offset, d, -d)
    ensures Layer(a, b, vf, offset, d, d + 1) && |vf| == 2 * offset + 3
  {
  }

  lemma {:induction false} SearchingNext(a: seq<Line>, b: seq<Line>, vf: seq<int>, vb: seq<int>, offset: int, d: int,
        odd: bool)
    requires Holds(a, b, vf, offset, d, d + 1) && Holds(Reverse(a), Reverse(b), vb, offset, d, d + 1)
    requires d <= offset && 2 * (d + 1) - (if odd then 1 else 0) <= Total(a, b)
    ensures Searching(a, b, vf, vb, offset, d + 1, odd)
  {
    hide FurthestAt, Total;
  }

  lemma {:induction false} SearchingEnds(a: seq<Line>, b: seq<Line>, vf: seq<int>, vb: seq<int>, offset: int, d: int,
        odd: bool)
    requires Searching(a, b, vf, vb, offset, d, odd)
    ensures 2 * d - 1 <= |a| + |b|
  {
    hide Holds, Dist;
    AtLeastOffset(a, b, |a|, |b|);
  }

  function Abs(i: int): nat { if i < 0 then -i else i }

  // ---- Divide and conquer ----

  /** What was pushed after `out`. */
  function Added(out: seq<Edit>, out': seq<Edit>): seq<Edit>
    requires out <= out'
  {
    out'[|out|..]
  }

  lemma {:induction false} RunInside(a: seq<Line>, b: seq<Line>, sx: int, sy: int, ex: int, ey: int)
    requires MiddleRun(a, b, sx, sy, ex, ey)
    ensures 0 <= sx <= ex <= |a| && 0 <= sy <= ey <= |b| && sx + sy < |a| + |b| && 0 < ex + ey
    ensures Trimmed(a[..sx], b[..sy]) && Trimmed(a[ex..], b[ey..])
  {
  }

  lemma {:induction false} OneSided(a: seq<Line>, b: seq<Line>)
    ensures a == [] && b == [] ==> Optimal([], a, b) && NoEmptyRun([])
    ensures a == [] && b != [] ==> Optimal([Insert(|b|)], a, b) && NoEmptyRun([Insert(|b|)])
    ensures a != [] && b == [] ==> Optimal([Delete(|a|)], a, b) && NoEmptyRun([Delete(|a|)])
  {
    assert [Insert(|b|)][1..] == [] && [Delete(|a|)][1..] == [];
  }

  /** Optimal scripts of both sides and the run between them make an optimal script. */
  lemma {:induction false} JoinOptimal(left: seq<Edit>, run: seq<Edit>, right: seq<Edit>, a: seq<Line>, b: seq<Line>,
        sx: int, sy: int, ex: int, ey: int)
    requires MiddleRun(a, b, sx, sy, ex, ey) && run == if ex > sx then [Equal(ex - sx)] else []
    requires Optimal(left, a[..sx], b[..sy]) && Optimal(right, a[ex..], b[ey..]) && NoEmptyRun(left)
        && NoEmptyRun(right)
    ensures Optimal(left + run + right, a, b) && NoEmptyRun(left + run + right)
  {
    JoinHalves(left, run, right, a, b, sx, sy, ex, ey);
  }

  /** Appends an optimal script for two trimmed lists. */
  method DiffRec(a: seq<Line>, b: seq<Line>, out: seq<Edit>) returns (out': seq<Edit>)
    requires Trimmed(a, b)
    ensures out <= out' && Optimal(Added(out, out'), a, b) && NoEmptyRun(Added(out, out'))
    decreases |a| + |b|
  {
    hide Optimal, NoEmptyRun, IsScript, Coalesced, MiddleRun, Trimmed, Total, Cost, Minimal;
    out' := out;
    assert Added(out, out) == [];
    if a == [] || b == [] { OneSided(a, b); }
    if a == [] {
      if b != [] {
        out' := out' + [Insert(|b|)];
        assert Added(out, out') == [Insert(|b|)];
      }
      return;
    }
    if b == [] {
      out' := out' + [Delete(|a|)];
      assert Added(out, out') == [Delete(|a|)];
      return;
    }
    if |a| * |b| <= 2500 {
      var small := MyersTrace(a, b);
      out' := out' + small;
      assert Added(out, out') == small;
      IsOptimal(small, a, b);
      return;
    }
    var sx, sy, ex, ey, d := FindMiddleSnake(a, b);
    RunInside(a, b, sx, sy, ex, ey);
    if d == 0 {
      assert false;  // two trimmed lists are never equal
    }
    out' := DiffRec(a[..sx], b[..sy], out');
    ghost var left := Added(out, out');
    ghost var run := if ex > sx then [Equal(ex - sx)] else [];
    if ex > sx {
      out' := out' + [Equal(ex - sx)];
    }
    ghost var before := out';
    out' := DiffRec(a[ex..], b[ey..], out');
    ghost var right := Added(before, out');
    JoinOptimal(left, run, right, a, b, sx, sy, ex, ey);
    assert before == out + left + run;
    assert Added(out, out') == left + run + right;
  }

  lemma {:induction false} IsOptimal(es: seq<Edit>, a: seq<Line>, b: seq<Line>)
    requires IsScript(es, a, b) && Cost(es) == Total(a, b) && Coalesced(es)
    ensures Optimal(es, a, b) && NoEmptyRun(es)
  {
  }

  lemma {:induction false} JoinHalves(left: seq<Edit>, run: seq<Edit>, right: seq<Edit>, a: seq<Line>, b: seq<Line>,
        sx: int, sy: int, ex: int, ey: int)
    requires MiddleRun(a, b, sx, sy, ex, ey) && run == if ex > sx then [Equal(ex - sx)] else []
    requires IsScript(left, a[..sx], b[..sy]) && IsScript(right, a[ex..], b[ey..])
    ensures IsScript(left + run + right, a, b) && Cost(left + run + right) == Cost(left) + Cost(right)
  {
    forall i | 0 <= i < ex - sx ensures a[sx..ex][i] == b[sy..ey][i] {
      assert EqualAt(a, b, sx - sy, sx + i);
    }
    assert IsScript(run, a[sx..ex], b[sy..ey]) by {
      if ex > sx { assert run[1..] == [] && a[sx..ex][ex - sx..] == [] && b[sy..ey][ex - sx..] == []; }
    }
    assert a[..ex][..sx] == a[..sx] && a[..ex][sx..] == a[sx..ex];
    assert b[..ey][..sy] == b[..sy] && b[..ey][sy..] == b[sy..ey];
    ScriptThrough(left, run, a[..ex], b[..ey], sx, sy);
    ScriptThrough(left + run, right, a, b, ex, ey);
  }

  /** How many leading lines agree. */
  method CommonPrefix(a: seq<Line>, b: seq<Line>) returns (i: nat)
    ensures i <= |a| && i <= |b| && a[..i] == b[..i]
    ensures i < |a| && i < |b| ==> a[i] != b[i]
  {
    i := 0;
    while i < |a| && i < |b| && a[i] == b[i]
      invariant i <= |a| && i <= |b| && a[..i] == b[..i]
    {
      i := i + 1;
    }
  }

  /** How many trailing lines agree. */
  method CommonSuffix(a: seq<Line>, b: seq<Line>) returns (j: nat)
    ensures j <= |a| && j <= |b| && a[|a| - j..] == b[|b| - j..]
    ensures j < |a| && j < |b| ==> a[|a| - 1 - j] != b[|b| - 1 - j]
  {
    j := 0;
    while j < |a| && j < |b| && a[|a| - 1 - j] == b[|b| - 1 - j]
      invariant j <= |a| && j <= |b| && a[|a| - j..] == b[|b| - j..]
    {
      j := j + 1;
    }
  }

  ghost function Run(n: nat): seq<Edit> { if n > 0 then [Equal(n)] else [] }

  ghost predicate Optimal(es: seq<Edit>, a: seq<Line>, b: seq<Line>)
  {
    IsScript(es, a, b) && Cost(es) == Total(a, b)
  }

  /** An equal run put before an optimal script keeps it optimal. */
  lemma {:induction false} WithPrefix(a: seq<Line>, b: seq<Line>, i: nat, es: seq<Edit>)
    requires i <= |a| && i <= |b| && a[..i] == b[..i] && Optimal(es, a[i..], b[i..])
    ensures Optimal(Run(i) + es, a, b)
  {
    EqualPrefix(a, b, i);
    ScriptThrough(Run(i), es, a, b, i, i);
  }

  /** An equal run put after an optimal script keeps it optimal. */
  lemma {:induction false} WithSuffix(a: seq<Line>, b: seq<Line>, j: nat, es: seq<Edit>)
    requires j <= |a| && j <= |b| && a[|a| - j..] == b[|b| - j..] && Optimal(es, a[..|a| - j], b[..|b| - j])
    ensures Optimal(es + Run(j), a, b)
  {
    EqualSuffix(a, b, j);
    ScriptThrough(es, Run(j), a, b, |a| - j, |b| - j);
  }

  lemma {:induction false} RunNotEmpty(es: seq<Edit>, n: nat)
    requires NoEmptyRun(es)
    ensures NoEmptyRun(es + Run(n)) && NoEmptyRun(Run(n) + es)
  {
  }

  /** Trims the common tail, divides, and puts the tail back. */
  method DiffUpToSuffix(a: seq<Line>, b: seq<Line>, out: seq<Edit>) returns (out': seq<Edit>)
    requires a != [] && b != [] ==> a[0] != b[0]
    ensures out <= out' && Optimal(Added(out, out'), a, b) && NoEmptyRun(Added(out, out'))
  {
    var j := CommonSuffix(a, b);
    hide Optimal, NoEmptyRun, Trimmed, Added;
    TrimmedSuffix(a, b, j);
    var divided := DiffRec(a[..|a| - j], b[..|b| - j], out);
    ghost var middle := Added(out, divided);
    WithSuffix(a, b, j, middle);
    out' := divided;
    if j > 0 {
      out' := out' + [Equal(j)];
    }
    AddedRun(out, divided, j);
    RunNotEmpty(middle, j);
  }

  lemma {:induction false} AddedRun(out: seq<Edit>, divided: seq<Edit>, j: nat)
    requires out <= divided
    ensures out <= divided + Run(j) && Added(out, divided + Run(j)) == Added(out, divided) + Run(j)
    ensures j > 0 ==> divided + Run(j) == divided + [Equal(j)]
    ensures j == 0 ==> divided + Run(j) == divided
  {
  }

  lemma {:induction false} TrimmedSuffix(a: seq<Line>, b: seq<Line>, j: nat)
    requires a != [] && b != [] ==> a[0] != b[0]
    requires j <= |a| && j <= |b|
    requires j < |a| && j < |b| ==> a[|a| - 1 - j] != b[|b| - 1 - j]
    ensures Trimmed(a[..|a| - j], b[..|b| - j])
  {
  }

  /** The shortest edit script between two lists of lines: trims the common ends, then divides. */
  method MyersDiff(a: seq<Line>, b: seq<Line>) returns (script: seq<Edit>)
    ensures IsScript(script, a, b)
    ensures Minimal(script, a, b) && Cost(script) == Total(a, b)
    ensures Coalesced(script)
  {
    var edits: seq<Edit> := [];
    var i := CommonPrefix(a, b);
    if i > 0 {
      edits := edits + [Equal(i)];
    }
    ghost var prefix := edits;
    edits := DiffUpToSuffix(a[i..], b[i..], edits);
    assert edits == Run(i) + Added(prefix, edits);
    WithPrefix(a, b, i, Added(prefix, edits));
    script := Coalesce(edits, a, b);
    OptimalIsMinimal(script, a, b);
  }
}
