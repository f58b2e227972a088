/** Edit scripts and their distance. */
module EditDistance {
  // The distance is defined on an extended plane: a point (x, y) may lie beyond the ends of the two
  // lists, where no diagonal step exists. The frontiers kept by the searches in `Myers` and
  // `MiddleSnake` hold such points.

  type Line = string

  datatype Edit = Equal(n: nat) | Delete(n: nat) | Insert(n: nat)

  /** Replaying `es` consumes exactly `a`, produces exactly `b`, and keeps only equal lines. */
  ghost predicate IsScript(es: seq<Edit>, a: seq<Line>, b: seq<Line>)
  {
    if es == [] then a == [] && b == []
    else match es[0]
      case Equal(n) => n <= |a| && n <= |b| && a[..n] == b[..n] && IsScript(es[1..], a[n..], b[n..])
      case Delete(n) => n <= |a| && IsScript(es[1..], a[n..], b)
      case Insert(n) => n <= |b| && IsScript(es[1..], a, b[n..])
  }

  /** The number of deleted and inserted lines. */
  ghost function Cost(es: seq<Edit>): nat
  {
    if es == [] then 0
    else (if es[0].Equal? then 0 else es[0].n) + Cost(es[1..])
  }

  /** No script from `a` to `b` is cheaper. */
  ghost predicate Minimal(es: seq<Edit>, a: seq<Line>, b: seq<Line>)
  {
    forall other :: IsScript(other, a, b) ==> Cost(es) <= Cost(other)
  }

  predicate Match(a: seq<Line>, b: seq<Line>, x: nat, y: nat)
  {
    x < |a| && y < |b| && a[x] == b[y]
  }

  ghost function Min(i: int, j: int): int { if i < j then i else j }

  /** The least number of single-line insertions and deletions on a way from (0, 0) to (x, y). */
  ghost function Dist(a: seq<Line>, b: seq<Line>, x: nat, y: nat): nat
    decreases x + y
  {
    if x == 0 then y
    else if y == 0 then x
    else if Match(a, b, x - 1, y - 1) then Dist(a, b, x - 1, y - 1)
    else 1 + Min(Dist(a, b, x - 1, y), Dist(a, b, x, y - 1))
  }

  ghost function Total(a: seq<Line>, b: seq<Line>): nat { Dist(a, b, |a|, |b|) }

  // ---- The distance on the extended plane ----

  /** Parity bookkeeping for diagonals seen from both ends. */
  lemma {:induction false} EvenDiagonal(n: int, m: int, df: int, db: int, j: int)
    requires (df + db + n + m) % 2 == 0 && (j + df) % 2 == 0
    ensures (n - m - j + db) % 2 == 0
  {
    assert n - m - j + db == (df + db + n + m) - (j + df) - 2 * m;
  }

  lemma {:induction false} EvenOffset(x: int, y: int, d: int)
    requires (d + x + y) % 2 == 0
    ensures (x - y + d) % 2 == 0
  {
    assert x - y + d == d + x + y - 2 * y;
  }

  ghost predicate Even(n: int) { n % 2 == 0 }

  lemma {:induction false} EvenSums(n: int)
    ensures Even(n + n) && (Even(n) ==> Even(n + 2))
  {
  }

  lemma {:induction false} Parity(a: seq<Line>, b: seq<Line>, x: nat, y: nat)
    ensures (Dist(a, b, x, y) + x + y) % 2 == 0
  {
    hide Dist;
    EvenDistance(a, b, x, y);
  }

  lemma {:induction false} EvenDistance(a: seq<Line>, b: seq<Line>, x: nat, y: nat)
    ensures Even(Dist(a, b, x, y) + x + y)
    decreases x + y
  {
    hide Even;
    EvenSums(x + y);
    if x > 0 && y > 0 {
      if Match(a, b, x - 1, y - 1) {
        EvenDistance(a, b, x - 1, y - 1);
        EvenSums(Dist(a, b, x - 1, y - 1) + (x - 1) + (y - 1));
      } else if Dist(a, b, x - 1, y) < Dist(a, b, x, y - 1) {
        EvenDistance(a, b, x - 1, y);
        EvenSums(Dist(a, b, x - 1, y) + (x - 1) + y);
      } else {
        EvenDistance(a, b, x, y - 1);
        EvenSums(Dist(a, b, x, y - 1) + x + (y - 1));
      }
    }
  }

  /** Neighbouring points are one edit apart. */
  lemma {:induction false} Adjacent(a: seq<Line>, b: seq<Line>, x: nat, y: nat)
    ensures Dist(a, b, x + 1, y) == Dist(a, b, x, y) + 1 || Dist(a, b, x + 1, y) == Dist(a, b, x, y) - 1
    ensures Dist(a, b, x, y + 1) == Dist(a, b, x, y) + 1 || Dist(a, b, x, y + 1) == Dist(a, b, x, y) - 1
    decreases x + y, 1
  {
    hide Dist;
    RightOf(a, b, x, y);
    Below(a, b, x, y);
  }

  lemma {:induction false} RightOf(a: seq<Line>, b: seq<Line>, x: nat, y: nat)
    ensures Dist(a, b, x + 1, y) == Dist(a, b, x, y) + 1 || Dist(a, b, x + 1, y) == Dist(a, b, x, y) - 1
    decreases x + y, 0
  {
    Parity(a, b, x, y);
    Parity(a, b, x + 1, y);
    if y > 0 { Adjacent(a, b, x, y - 1); }
  }

  lemma {:induction false} Below(a: seq<Line>, b: seq<Line>, x: nat, y: nat)
    ensures Dist(a, b, x, y + 1) == Dist(a, b, x, y) + 1 || Dist(a, b, x, y + 1) == Dist(a, b, x, y) - 1
    decreases x + y, 0
  {
    Parity(a, b, x, y);
    Parity(a, b, x, y + 1);
    if x > 0 { Adjacent(a, b, x - 1, y); }
  }

  lemma {:induction false} Diagonal(a: seq<Line>, b: seq<Line>, x: nat, y: nat)
    ensures Dist(a, b, x, y) <= Dist(a, b, x + 1, y + 1)
  {
    Adjacent(a, b, x, y);
  }

  lemma {:induction false} AlongDiagonal(a: seq<Line>, b: seq<Line>, x: nat, y: nat, i: nat)
    ensures Dist(a, b, x, y) <= Dist(a, b, x + i, y + i)
    decreases i
  {
    if i > 0 {
      AlongDiagonal(a, b, x, y, i - 1);
      Diagonal(a, b, x + i - 1, y + i - 1);
    }
  }

  /** Monotone along one diagonal. */
  lemma {:induction false} Monotone(a: seq<Line>, b: seq<Line>, k: int, x: int, x': int)
    requires 0 <= x <= x' && k <= x
    ensures Dist(a, b, x, x - k) <= Dist(a, b, x', x' - k)
  {
    AlongDiagonal(a, b, x, x - k, x' - x);
  }

  lemma {:induction false} AtLeastOffset(a: seq<Line>, b: seq<Line>, x: nat, y: nat)
    ensures x - y <= Dist(a, b, x, y) && y - x <= Dist(a, b, x, y) <= x + y
    decreases x + y
  {
    if x > 0 && y > 0 {
      AtLeastOffset(a, b, x - 1, y - 1);
      AtLeastOffset(a, b, x - 1, y);
      AtLeastOffset(a, b, x, y - 1);
    }
  }

  /** Beyond the end of either list every step costs one. */
  lemma {:induction false} OffGrid(a: seq<Line>, b: seq<Line>, x: nat, y: nat)
    ensures x >= |a| ==> Dist(a, b, x + 1, y) == Dist(a, b, x, y) + 1
    ensures y >= |b| ==> Dist(a, b, x, y + 1) == Dist(a, b, x, y) + 1
    decreases x + y
  {
    if y > 0 { OffGrid(a, b, x, y - 1); Adjacent(a, b, x, y - 1); }
    if x > 0 { OffGrid(a, b, x - 1, y); Adjacent(a, b, x - 1, y); }
  }

  /** Points beyond both ends cost more than the corner they lie beyond. */
  lemma {:induction false} BeyondCorner(a: seq<Line>, b: seq<Line>, x: nat, y: nat)
    requires x >= |a| && y >= |b|
    ensures Dist(a, b, x, y) == Total(a, b) + (x - |a|) + (y - |b|)
    decreases x + y
  {
    if x > |a| {
      BeyondCorner(a, b, x - 1, y);
      OffGrid(a, b, x - 1, y);
    } else if y > |b| {
      BeyondCorner(a, b, x, y - 1);
      OffGrid(a, b, x, y - 1);
    }
  }

  /** Only the consumed prefixes matter. */
  lemma {:induction false} PrefixOnly(a: seq<Line>, b: seq<Line>, x: nat, y: nat)
    requires x <= |a| && y <= |b|
    ensures Dist(a, b, x, y) == Total(a[..x], b[..y])
  {
    SamePrefix(a, b, a[..x], b[..y], x, y);
  }

  lemma {:induction false} SamePrefix(a: seq<Line>, b: seq<Line>, a': seq<Line>, b': seq<Line>, x: nat, y: nat)
    requires x <= |a| && y <= |b| && x <= |a'| && y <= |b'|
    requires a[..x] == a'[..x] && b[..y] == b'[..y]
    ensures Dist(a, b, x, y) == Dist(a', b', x, y)
    decreases x + y
  {
    if x > 0 && y > 0 {
      assert a[x - 1] == a[..x][x - 1] == a'[..x][x - 1] == a'[x - 1];
      assert b[y - 1] == b[..y][y - 1] == b'[..y][y - 1] == b'[y - 1];
      assert a[..x - 1] == a[..x][..x - 1] && a'[..x - 1] == a'[..x][..x - 1];
      assert b[..y - 1] == b[..y][..y - 1] && b'[..y - 1] == b'[..y][..y - 1];
      SamePrefix(a, b, a', b', x - 1, y - 1);
      SamePrefix(a, b, a', b', x - 1, y);
      SamePrefix(a, b, a', b', x, y - 1);
    }
  }

  // ---- The distance seen from the other end ----

  function Reverse<T>(s: seq<T>): (r: seq<T>)
    ensures |r| == |s|
  {
    if s == [] then [] else Reverse(s[1..]) + [s[0]]
  }

  lemma {:induction false} ReverseAt<T>(s: seq<T>, i: nat)
    requires i < |s|
    ensures Reverse(s)[i] == s[|s| - 1 - i]
  {
    if i < |s| - 1 { ReverseAt(s[1..], i); }
  }

  lemma {:induction false} ReverseSnoc<T>(s: seq<T>, x: T)
    ensures Reverse(s + [x]) == [x] + Reverse(s)
  {
    if s == [] {
      assert [] + [x] == [x] && [x][1..] == [];
    } else {
      ReverseSnoc(s[1..], x);
      assert (s + [x])[1..] == s[1..] + [x];
    }
  }

  lemma {:induction false} ReverseTwice<T>(s: seq<T>)
    ensures Reverse(Reverse(s)) == s
  {
    if s != [] {
      ReverseTwice(s[1..]);
      ReverseSnoc(Reverse(s[1..]), s[0]);
      assert [s[0]] + s[1..] == s;
    }
  }

  lemma {:induction false} ReverseDrop<T>(s: seq<T>, p: nat)
    requires p <= |s|
    ensures Reverse(s[p..]) == Reverse(s)[..|s| - p]
  {
    forall i | 0 <= i < |s| - p ensures Reverse(s[p..])[i] == Reverse(s)[i] {
      ReverseAt(s[p..], i);
      ReverseAt(s, i);
    }
  }

  /** The distance from (p, q) to the corner, computed by reading both lists backwards. */
  ghost function Back(a: seq<Line>, b: seq<Line>, p: nat, q: nat): nat
    requires p <= |a| && q <= |b|
  {
    Dist(Reverse(a), Reverse(b), |a| - p, |b| - q)
  }

  lemma {:induction false} BackStep(a: seq<Line>, b: seq<Line>, p: nat, q: nat)
    requires p <= |a| && q <= |b|
    ensures p == |a| ==> Back(a, b, p, q) == |b| - q
    ensures q == |b| ==> Back(a, b, p, q) == |a| - p
    ensures Match(a, b, p, q) ==> Back(a, b, p, q) == Back(a, b, p + 1, q + 1)
    ensures p < |a| && q < |b| && a[p] != b[q]
      ==> Back(a, b, p, q) == 1 + Min(Back(a, b, p + 1, q), Back(a, b, p, q + 1))
  {
    if p < |a| { ReverseAt(a, |a| - p - 1); }
    if q < |b| { ReverseAt(b, |b| - q - 1); }
  }

  /** Going through (p, q) is never shorter than the distance itself. */
  lemma {:induction false} Through(a: seq<Line>, b: seq<Line>, p: nat, q: nat)
    requires p <= |a| && q <= |b|
    ensures Total(a, b) <= Dist(a, b, p, q) + Back(a, b, p, q)
    decreases |a| - p + |b| - q
  {
    BackStep(a, b, p, q);
    Adjacent(a, b, p, q);
    if p < |a| { Through(a, b, p + 1, q); }
    if q < |b| { Through(a, b, p, q + 1); }
    if p < |a| && q < |b| { Through(a, b, p + 1, q + 1); }
    if p == |a| && q < |b| { BackStep(a, b, p, q + 1); }
    if q == |b| && p < |a| { BackStep(a, b, p + 1, q); }
  }

  /** Reading both lists backwards does not change the distance. */
  lemma {:induction false} ReverseTotal(a: seq<Line>, b: seq<Line>)
    ensures Total(Reverse(a), Reverse(b)) == Total(a, b)
  {
    Through(a, b, 0, 0);
    Through(Reverse(a), Reverse(b), 0, 0);
    ReverseTwice(a);
    ReverseTwice(b);
  }

  lemma {:induction false} BackIsTotal(a: seq<Line>, b: seq<Line>, p: nat, q: nat)
    requires p <= |a| && q <= |b|
    ensures Back(a, b, p, q) == Total(a[p..], b[q..])
  {
    PrefixOnly(Reverse(a), Reverse(b), |a| - p, |b| - q);
    ReverseDrop(a, p);
    ReverseDrop(b, q);
    ReverseTotal(a[p..], b[q..]);
  }

  /** The distance can be split at any value: some grid point lies at distance `s` from the
      start and at the remaining distance from the corner. */
  lemma {:induction false} Split(a: seq<Line>, b: seq<Line>, s: nat) returns (p: int, q: int)
    requires s <= Total(a, b)
    ensures 0 <= p <= |a| && 0 <= q <= |b|
    ensures Dist(a, b, p, q) == s && Back(a, b, p, q) == Total(a, b) - s
  {
    ReverseTotal(a, b);
    p, q := 0, 0;
    while Dist(a, b, p, q) < s
      invariant 0 <= p <= |a| && 0 <= q <= |b|
      invariant Dist(a, b, p, q) <= s
      invariant Dist(a, b, p, q) + Back(a, b, p, q) == Total(a, b)
      decreases |a| - p + |b| - q
    {
      p, q := StepOnWay(a, b, p, q);
    }
  }

  lemma {:induction false} StepOnWay(a: seq<Line>, b: seq<Line>, p: nat, q: nat) returns (p': nat, q': nat)
    requires p <= |a| && q <= |b|
    requires Dist(a, b, p, q) + Back(a, b, p, q) == Total(a, b) && Back(a, b, p, q) > 0
    ensures p <= p' <= |a| && q <= q' <= |b| && p + q < p' + q'
    ensures Dist(a, b, p', q') + Back(a, b, p', q') == Total(a, b)
    ensures Dist(a, b, p', q') <= Dist(a, b, p, q) + 1
  {
    BackStep(a, b, p, q);
    Adjacent(a, b, p, q);
    if p == |a| {
      p', q' := p, q + 1;
      BackStep(a, b, p', q');
    } else if q == |b| {
      p', q' := p + 1, q;
      BackStep(a, b, p', q');
    } else if a[p] == b[q] {
      p', q' := p + 1, q + 1;
    } else if Back(a, b, p + 1, q) <= Back(a, b, p, q + 1) {
      p', q' := p + 1, q;
    } else {
      p', q' := p, q + 1;
    }
    Through(a, b, p', q');
  }

  /** Crossing any point splits the distance. */
  lemma {:induction false} TotalThrough(a: seq<Line>, b: seq<Line>, p: nat, q: nat)
    requires p <= |a| && q <= |b|
    ensures Total(a, b) <= Total(a[..p], b[..q]) + Total(a[p..], b[q..])
  {
    Through(a, b, p, q);
    BackIsTotal(a, b, p, q);
    PrefixOnly(a, b, p, q);
  }

  // ---- Equal pairs ----

  /** Walking a run of equal pairs leaves the distance unchanged. */
  lemma {:induction false} EqualRun(a: seq<Line>, b: seq<Line>, x: nat, y: nat, i: nat)
    requires x + i <= |a| && y + i <= |b| && a[x..x + i] == b[y..y + i]
    ensures Dist(a, b, x + i, y + i) == Dist(a, b, x, y)
    decreases i
  {
    if i > 0 {
      var s, t := a[x..x + i], b[y..y + i];
      assert a[x + i - 1] == s[i - 1];
      assert b[y + i - 1] == t[i - 1];
      assert a[x..x + (i - 1)] == s[..i - 1];
      assert b[y..y + (i - 1)] == t[..i - 1];
      EqualRun(a, b, x, y, i - 1);
    }
  }

  lemma {:induction false} EqualPrefix(a: seq<Line>, b: seq<Line>, i: nat)
    requires i <= |a| && i <= |b| && a[..i] == b[..i]
    ensures Total(a, b) == Total(a[i..], b[i..])
  {
    TotalThrough(a, b, i, i);
    assert Total(a[..i], b[..i]) == 0 by {
      EqualRun(a[..i], b[..i], 0, 0, i);
    }
    BackIsTotal(a, b, i, i);
    BackRun(a, b, i);
  }

  lemma {:induction false} BackRun(a: seq<Line>, b: seq<Line>, i: nat)
    requires i <= |a| && i <= |b| && a[..i] == b[..i]
    ensures Back(a, b, i, i) == Total(a, b)
  {
    ReverseTotal(a, b);
    if i > 0 {
      assert a[..i - 1] == a[..i][..i - 1] && b[..i - 1] == b[..i][..i - 1];
      assert a[i - 1] == a[..i][i - 1] == b[..i][i - 1] == b[i - 1];
      BackRun(a, b, i - 1);
      BackStep(a, b, i - 1, i - 1);
    }
  }

  lemma {:induction false} EqualSuffix(a: seq<Line>, b: seq<Line>, i: nat)
    requires i <= |a| && i <= |b| && a[|a| - i..] == b[|b| - i..]
    ensures Total(a, b) == Total(a[..|a| - i], b[..|b| - i])
  {
    EqualRun(a, b, |a| - i, |b| - i, i);
    PrefixOnly(a, b, |a| - i, |b| - i);
  }

  lemma {:induction false} ZeroMeansEqual(a: seq<Line>, b: seq<Line>, x: nat, y: nat)
    requires x <= |a| && y <= |b| && Dist(a, b, x, y) == 0
    ensures x == y && a[..x] == b[..y]
    decreases x
  {
    AtLeastOffset(a, b, x, y);
    if x > 0 {
      assert Match(a, b, x - 1, y - 1);
      ZeroMeansEqual(a, b, x - 1, y - 1);
      assert a[..x] == a[..x - 1] + [a[x - 1]] && b[..y] == b[..y - 1] + [b[y - 1]];
    }
  }

  /** No common first and no common last element. */
  predicate Trimmed(a: seq<Line>, b: seq<Line>)
  {
    a != [] && b != [] ==> a[0] != b[0] && a[|a| - 1] != b[|b| - 1]
  }

  /** Two non-empty trimmed lists differ by at least two lines. */
  lemma {:induction false} TrimmedApart(a: seq<Line>, b: seq<Line>)
    requires Trimmed(a, b) && a != [] && b != []
    ensures Total(a, b) >= 2
  {
    var n, m := |a|, |b|;
    if Total(a, b) < 2 {
      if Dist(a, b, n - 1, m) == 0 {
        ZeroMeansEqual(a, b, n - 1, m);
      } else {
        ZeroMeansEqual(a, b, n, m - 1);
      }
    }
  }

  predicate EqualAt(a: seq<Line>, b: seq<Line>, k: int, i: int)
  {
    0 <= i < |a| && 0 <= i - k < |b| && a[i] == b[i - k]
  }

  /** Diagonal `k` runs along equal pairs from column `x0` to column `x`. */
  ghost predicate Snake(a: seq<Line>, b: seq<Line>, k: int, x0: int, x: int)
  {
    && 0 <= x0 <= x <= |a| && k <= x0 && x - k <= |b|
    && forall i :: x0 <= i < x ==> EqualAt(a, b, k, i)
  }

  /** Along a snake neither distance changes. */
  lemma {:induction false} SnakeKeeps(a: seq<Line>, b: seq<Line>, k: int, x0: int, x: int)
    requires Snake(a, b, k, x0, x)
    ensures Dist(a, b, x0, x0 - k) == Dist(a, b, x, x - k)
    ensures Back(a, b, x0, x0 - k) == Back(a, b, x, x - k)
    decreases x
  {
    if x0 < x {
      assert EqualAt(a, b, k, x - 1);
      SnakeKeeps(a, b, k, x0, x - 1);
      BackStep(a, b, x - 1, x - 1 - k);
    }
  }

  // ---- Scripts ----

  /** Every script costs at least the distance. */
  lemma {:induction false} ScriptAtLeastTotal(es: seq<Edit>, a: seq<Line>, b: seq<Line>)
    requires IsScript(es, a, b)
    ensures Total(a, b) <= Cost(es)
  {
    if es != [] {
      match es[0]
      case Equal(n) =>
        ScriptAtLeastTotal(es[1..], a[n..], b[n..]);
        EqualPrefix(a, b, n);
      case Delete(n) =>
        ScriptAtLeastTotal(es[1..], a[n..], b);
        TotalThrough(a, b, n, 0);
        assert b[0..] == b;
        AtLeastOffset(a[..n], b[..0], n, 0);
      case Insert(n) =>
        ScriptAtLeastTotal(es[1..], a, b[n..]);
        TotalThrough(a, b, 0, n);
        assert a[0..] == a;
        AtLeastOffset(a[..0], b[..n], 0, n);
    }
  }

  lemma {:induction false} OptimalIsMinimal(es: seq<Edit>, a: seq<Line>, b: seq<Line>)
    requires Cost(es) == Total(a, b)
    ensures Minimal(es, a, b)
  {
    forall other | IsScript(other, a, b) ensures Cost(es) <= Cost(other) {
      ScriptAtLeastTotal(other, a, b);
    }
  }

  lemma {:induction false} CostConcat(es: seq<Edit>, fs: seq<Edit>)
    ensures Cost(es + fs) == Cost(es) + Cost(fs)
  {
    if es == [] {
      assert es + fs == fs;
    } else {
      CostConcat(es[1..], fs);
      assert (es + fs)[1..] == es[1..] + fs;
    }
  }

  lemma {:induction false} ScriptConcat(es: seq<Edit>, fs: seq<Edit>,
                                        a: seq<Line>, b: seq<Line>, a': seq<Line>, b': seq<Line>)
    requires IsScript(es, a, b) && IsScript(fs, a', b')
    ensures IsScript(es + fs, a + a', b + b')
  {
    if es == [] {
      assert es + fs == fs && a + a' == a' && b + b' == b';
    } else {
      var n := es[0].n;
      assert (es + fs)[1..] == es[1..] + fs;
      match es[0]
      case Equal(_) =>
        ScriptConcat(es[1..], fs, a[n..], b[n..], a', b');
        assert (a + a')[n..] == a[n..] + a' && (b + b')[n..] == b[n..] + b';
        assert (a + a')[..n] == a[..n] && (b + b')[..n] == b[..n];
      case Delete(_) =>
        ScriptConcat(es[1..], fs, a[n..], b, a', b');
        assert (a + a')[n..] == a[n..] + a';
      case Insert(_) =>
        ScriptConcat(es[1..], fs, a, b[n..], a', b');
        assert (b + b')[n..] == b[n..] + b';
    }
  }

  /** Optimal scripts of the two halves around a point on a shortest way join to an optimal script. */
  lemma {:induction false} ScriptThrough(es: seq<Edit>, fs: seq<Edit>, a: seq<Line>, b: seq<Line>, p: nat, q: nat)
    requires p <= |a| && q <= |b|
    requires IsScript(es, a[..p], b[..q]) && IsScript(fs, a[p..], b[q..])
    ensures IsScript(es + fs, a, b) && Cost(es + fs) == Cost(es) + Cost(fs)
  {
    ScriptConcat(es, fs, a[..p], b[..q], a[p..], b[q..]);
    assert a == a[..p] + a[p..] && b == b[..q] + b[q..];
    CostConcat(es, fs);
  }
}
