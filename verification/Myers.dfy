/** The greedy O(ND) search with a recorded trace (src/content.rs, `myers_trace`). */
module Myers {
  import opened EditDistance
  import opened Frontier

  // ---- Merging adjacent runs ----

  /** No empty run and no two adjacent runs of one kind. */
  ghost predicate Coalesced(es: seq<Edit>)
  {
    && (forall i :: 0 <= i < |es| ==> es[i].n > 0)
    && (forall i :: 0 < i < |es| ==> !SameKind(es[i - 1], es[i]))
  }

  predicate SameKind(e: Edit, f: Edit)
  {
    (e.Equal? && f.Equal?) || (e.Delete? && f.Delete?) || (e.Insert? && f.Insert?)
  }

  ghost predicate NoEmptyRun(es: seq<Edit>) { forall i :: 0 <= i < |es| ==> es[i].n > 0 }

  /** Appends a run, merging it into the last one when the kinds agree. */
  function Push(out: seq<Edit>, e: Edit): seq<Edit>
  {
    if out != [] && SameKind(out[|out| - 1], e)
    then out[..|out| - 1] + [out[|out| - 1].(n := out[|out| - 1].n + e.n)]
    else out + [e]
  }

  lemma {:induction false} PushCoalesced(out: seq<Edit>, e: Edit)
    requires Coalesced(out) && e.n > 0
    ensures Coalesced(Push(out, e))
  {
  }

  /** Moving one run from the rest to the output keeps the script they form together. */
  lemma {:induction false} PushKeeps(out: seq<Edit>, edits: seq<Edit>, i: nat, a: seq<Line>, b: seq<Line>)
    requires i < |edits| && IsScript(out + edits[i..], a, b)
    ensures IsScript(Push(out, edits[i]) + edits[i + 1..], a, b)
    ensures Cost(Push(out, edits[i]) + edits[i + 1..]) == Cost(out + edits[i..])
  {
    var e, tail := edits[i], edits[i + 1..];
    assert out + edits[i..] == out + [e] + tail;
    if out != [] && SameKind(out[|out| - 1], e) {
      var front, last := out[..|out| - 1], out[|out| - 1];
      assert out + edits[i..] == front + [last, e] + tail;
      MergeInside(front, last, e, tail, a, b);
    }
  }

  method Coalesce(edits: seq<Edit>, ghost a: seq<Line>, ghost b: seq<Line>) returns (out: seq<Edit>)
    requires IsScript(edits, a, b) && NoEmptyRun(edits)
    ensures IsScript(out, a, b) && Cost(out) == Cost(edits)
    ensures Coalesced(out)
  {
    out := [];
    ghost var rest := edits;
    assert out + rest == edits;
    for i := 0 to |edits|
      invariant rest == edits[i..]
      invariant IsScript(out + rest, a, b) && Cost(out + rest) == Cost(edits)
      invariant Coalesced(out)
    {
      PushKeeps(out, edits, i, a, b);
      PushCoalesced(out, edits[i]);
      out := Push(out, edits[i]);
      rest := edits[i + 1..];
    }
    assert out + rest == out;
  }

  /** Merging two adjacent runs of one kind inside a script. */
  lemma {:induction false} MergeInside(es: seq<Edit>, e: Edit, f: Edit, tail: seq<Edit>, a: seq<Line>, b: seq<Line>)
    requires SameKind(e, f) && IsScript(es + [e, f] + tail, a, b)
    ensures var g := e.(n := e.n + f.n);
      IsScript(es + [g] + tail, a, b) && Cost(es + [g] + tail) == Cost(es + [e, f] + tail)
  {
    var g := e.(n := e.n + f.n);
    var whole, merged := es + [e, f] + tail, es + [g] + tail;
    if es == [] {
      assert whole[1..] == [f] + tail && whole[1..][1..] == tail && merged[1..] == tail;
      if e.Equal? { assert a[..g.n] == a[..e.n] + a[e.n..][..f.n] && b[..g.n] == b[..e.n] + b[e.n..][..f.n]; }
      if !e.Insert? { assert a[e.n..][f.n..] == a[g.n..]; }
      if !e.Delete? { assert b[e.n..][f.n..] == b[g.n..]; }
    } else {
      var n := es[0].n;
      assert whole[1..] == es[1..] + [e, f] + tail && merged[1..] == es[1..] + [g] + tail;
      MergeInside(es[1..], e, f, tail, if es[0].Insert? then a else a[n..], if es[0].Delete? then b else b[n..]);
    }
  }

  // ---- Search ----

  ghost predicate ShortOfCorner(a: seq<Line>, b: seq<Line>, v: seq<int>, offset: int, j: int)
  {
    0 <= offset + j < |v| && (v[offset + j] < |a| || v[offset + j] - j < |b|)
  }

  /** None of the diagonals advanced at depth `d` has touched the far corner. */
  ghost predicate ShortBelow(a: seq<Line>, b: seq<Line>, v: seq<int>, offset: int, d: int, k: int)
  {
    forall j :: -d <= j < k && (j + d) % 2 == 0 ==> ShortOfCorner(a, b, v, offset, j)
  }

  lemma {:induction false} ShortAdvance(a: seq<Line>, b: seq<Line>, v: seq<int>, offset: int, d: int, k: int, x: int)
    requires ShortBelow(a, b, v, offset, d, k) && (k + d) % 2 == 0
    requires 0 <= offset + k < |v| && (x < |a| || x - k < |b|)
    ensures ShortBelow(a, b, v[offset + k := x], offset, d, k + 2)
  {
    var v' := v[offset + k := x];
    forall j | -d <= j < k + 2 && (j + d) % 2 == 0
      ensures ShortOfCorner(a, b, v', offset, j)
    {
      assert j != k ==> ShortOfCorner(a, b, v, offset, j);
    }
  }

  /** What depth `d` has established when it ended without touching the far corner. */
  lemma {:induction false} NotYet(a: seq<Line>, b: seq<Line>, v: seq<int>, offset: int, d: int, k: int)
    requires Holds(a, b, v, offset, d, k) && ShortBelow(a, b, v, offset, d, k)
    requires d < k && d <= offset && d <= Total(a, b)
    ensures d < Total(a, b) && Holds(a, b, v, offset, d + 1, -(d + 1))
  {
    if Total(a, b) == d {
      var j := |a| - |b|;
      Parity(a, b, |a|, |b|);
      AtLeastOffset(a, b, |a|, |b|);
      assert FurthestAt(a, b, v, offset, d, j) && ShortOfCorner(a, b, v, offset, j);
      Reached(a, b, d, j, v[offset + j], |a|);
    }
  }

  lemma {:induction false} SearchStarts(a: seq<Line>, b: seq<Line>, v: seq<int>, offset: int)
    requires offset >= 0 && |v| == 2 * offset + 3 && forall i :: 0 <= i < |v| ==> v[i] == 0
    ensures Holds(a, b, v, offset, 0, 0)
  {
  }

  lemma {:induction false} DepthStarts(a: seq<Line>, b: seq<Line>, v: seq<int>, offset: int, d: int)
    requires Holds(a, b, v, offset, d, -d)
    ensures Ready(a, b, v, offset, d) && |v| == 2 * offset + 3 && ShortBelow(a, b, v, offset, d, -d)
  {
  }

  /** A furthest point beyond both ends is the corner, at its distance. */
  lemma {:induction false} AtCorner(a: seq<Line>, b: seq<Line>, d: int, k: int, x: int)
    requires Furthest(a, b, d, k, x) && d <= Total(a, b) && x >= |a| && x - k >= |b|
    ensures d == Total(a, b) && k == |a| - |b| && x == |a|
  {
    BeyondCorner(a, b, x, x - k);
  }

  /** The edits pushed so far, read backwards, turn the rest of `a` from `x` into the rest of `b` from `y`. */
  ghost predicate Walked(edits: seq<Edit>, a: seq<Line>, b: seq<Line>, x: int, y: int, cost: int)
  {
    && 0 <= x <= |a| && 0 <= y <= |b| && NoEmptyRun(edits)
    && IsScript(Reverse(edits), a[x..], b[y..]) && Cost(Reverse(edits)) == cost
  }

  /** One more step of the walk. */
  lemma {:induction false} WalkOn(edits: seq<Edit>, e: Edit, a: seq<Line>, b: seq<Line>, x: int, y: int, cost: int)
    requires Walked(edits, a, b, x, y, cost) && e.n == 1
    requires !e.Insert? ==> x > 0
    requires !e.Delete? ==> y > 0
    requires e.Equal? ==> a[x - 1] == b[y - 1]
    ensures Walked(edits + [e], a, b, if e.Insert? then x else x - 1, if e.Delete? then y else y - 1,
                   if e.Equal? then cost else cost + 1)
  {
    var es := Reverse(edits);
    ReverseSnoc(edits, e);
    assert ([e] + es)[1..] == es;
    if !e.Insert? { assert a[x - 1..][1..] == a[x..]; }
    if !e.Delete? { assert b[y - 1..][1..] == b[y..]; }
  }

  lemma {:induction false} DistanceBound(a: seq<Line>, b: seq<Line>)
    ensures 0 <= Total(a, b) <= |a| + |b|
  {
    AtLeastOffset(a, b, |a|, |b|);
  }

  method SearchTrace(a: seq<Line>, b: seq<Line>) returns (trace: seq<seq<int>>, foundD: int)
    ensures foundD == Total(a, b) && |trace| == foundD + 1
    ensures forall i :: 0 <= i < |trace| ==> Ready(a, b, trace[i], |a| + |b|, i)
    ensures Furthest(a, b, foundD, |a| - |b|, |a|)
  {
    hide Dist, Total, Furthest, ShortBelow, Holds, Ready;
    var n, m := |a|, |b|;
    var max := n + m;
    var offset := max;
    var v := new int[2 * max + 3](_ => 0);
    trace, foundD := [], 0;
    DistanceBound(a, b);
    SearchStarts(a, b, v[..], offset);
    var d := 0;
    label outer: while d <= max
      invariant 0 <= d <= Total(a, b) <= max
      invariant |trace| == d && forall i :: 0 <= i < d ==> Ready(a, b, trace[i], offset, i)
      invariant Holds(a, b, v[..], offset, d, -d)
    {
      DepthStarts(a, b, v[..], offset, d);
      trace := trace + [v[..]];
      var k := -d;
      while k <= d
        invariant -d <= k <= d + 2 && (k + d) % 2 == 0
        invariant Holds(a, b, v[..], offset, d, k)
        invariant ShortBelow(a, b, v[..], offset, d, k)
      {
        ghost var was := v[..];
        var x := AdvanceDiagonal(a, b, v, offset, d, k);
        var y := x - k;
        if x >= n && y >= m {
          AtCorner(a, b, d, k, x);
          foundD := d;
          break outer;
        }
        ShortAdvance(a, b, was, offset, d, k, x);
        k := k + 2;
      }
      NotYet(a, b, v[..], offset, d, k);
      d := d + 1;
    }
  }

  /** Which neighbour diagonal the walk to diagonal `k` came from. */
  function Previous(v: seq<int>, offset: int, d: int, k: int): int
    requires 0 <= d <= offset && -d <= k <= d && |v| == 2 * offset + 3
  {
    if k == -d || (k != d && v[k + offset - 1] < v[k + offset + 1]) then k + 1 else k - 1
  }

  /** How the furthest point `x` of diagonal `k` was reached: from its start along equal pairs
      only, and to its start from a neighbour that is furthest one depth earlier. */
  lemma {:induction false} HowReached(a: seq<Line>, b: seq<Line>, v: seq<int>, offset: int, d: int, k: int, x: int)
    requires Ready(a, b, v, offset, d) && -d <= k <= d <= offset && (k + d) % 2 == 0
    requires Furthest(a, b, d, k, x) && x <= |a| && x - k <= |b|
    ensures Snake(a, b, k, Start(v, offset, d, k), x)
    ensures var k' := Previous(v, offset, d, k); var x' := v[k' + offset];
      && x' == Start(v, offset, d, k) - (if k' > k then 0 else 1)
      && (d > 0 ==> Furthest(a, b, d - 1, k', x'))
  {
    hide Dist;
    var x0 := Start(v, offset, d, k);
    StartReached(a, b, v, offset, d, k);
    Reached(a, b, d, k, x, x0);
    forall i | x0 <= i < x ensures EqualAt(a, b, k, i) {
      SnakeMatches(a, b, v, offset, d, k, x, i + 1);
    }
    if d > 0 { PreviousFurthest(a, b, v, offset, d, k); }
  }

  lemma {:induction false} PreviousFurthest(a: seq<Line>, b: seq<Line>, v: seq<int>, offset: int, d: int, k: int)
    requires Ready(a, b, v, offset, d) && -d <= k <= d <= offset && (k + d) % 2 == 0 && d > 0
    ensures var k' := Previous(v, offset, d, k); Furthest(a, b, d - 1, k', v[k' + offset])
  {
    hide Dist;
    assert FurthestAt(a, b, v, offset, d - 1, Previous(v, offset, d, k));
  }

  /** The run of equal pairs that ended at (x, y), walked back to its start on column `x0`. */
  method WalkSnake(a: seq<Line>, b: seq<Line>, ghost cost: int, ghost x0: int,
                   x: int, y: int, prevX: int, prevY: int, edits: seq<Edit>)
    returns (x': int, y': int, out: seq<Edit>)
    requires Snake(a, b, x - y, x0, x)
    requires (prevX == x0 && prevY < x0 - (x - y)) || (prevX < x0 && prevY == x0 - (x - y))
    requires Walked(edits, a, b, x, y, cost)
    ensures x' == x0 && y' == x0 - (x - y)
    ensures Walked(out, a, b, x', y', cost)
  {
    x', y', out := x, y, edits;
    while x' > prevX && y' > prevY
      invariant x0 <= x' <= x && y' == x' - (x - y)
      invariant Walked(out, a, b, x', y', cost)
    {
      assert EqualAt(a, b, x - y, x' - 1);
      WalkOn(out, Equal(1), a, b, x', y', cost);
      out := out + [Equal(1)];
      x' := x' - 1;
      y' := y' - 1;
    }
  }

  /** Where the walk back stands before depth `d` is undone. */
  ghost predicate At(a: seq<Line>, b: seq<Line>, edits: seq<Edit>, d: int, x: int, y: int, cost: int)
  {
    Walked(edits, a, b, x, y, cost) && Furthest(a, b, d, x - y, x) && (x - y + d) % 2 == 0
  }

  /** Undoes depth `d`: back along the snake, then over the one edit that led to it. */
  method UndoDepth(a: seq<Line>, b: seq<Line>, vd: seq<int>, d: int, x: int, y: int, edits: seq<Edit>, ghost cost: int)
    returns (x': int, y': int, out: seq<Edit>)
    requires 0 <= d <= |a| + |b| && Ready(a, b, vd, |a| + |b|, d)
    requires At(a, b, edits, d, x, y, cost)
    ensures d > 0 ==> At(a, b, out, d - 1, x', y', cost + 1)
    ensures d == 0 ==> Walked(out, a, b, 0, 0, cost)
  {
    hide IsScript, Dist;
    var offset := |a| + |b|;
    var k := x - y;
    AtLeastOffset(a, b, x, y);
    var prevK := Previous(vd, offset, d, k);
    var prevX := vd[prevK + offset];
    var prevY := prevX - prevK;
    HowReached(a, b, vd, offset, d, k, x);
    x', y', out := WalkSnake(a, b, cost, Start(vd, offset, d, k), x, y, prevX, prevY, edits);
    if d > 0 {
      var e := if x' == prevX then Insert(1) else Delete(1);
      WalkOn(out, e, a, b, x', y', cost);
      out := out + [e];
    }
    x', y' := prevX, prevY;
    assert x' - y' == prevK && (prevK + d - 1) % 2 == 0;
  }

  lemma {:induction false} ReverseNoEmptyRun(edits: seq<Edit>)
    requires NoEmptyRun(edits)
    ensures NoEmptyRun(Reverse(edits))
  {
    forall i | 0 <= i < |edits| ensures Reverse(edits)[i].n > 0 {
      ReverseAt(edits, i);
    }
  }

  /** Walks the recorded trace back from the far corner. */
  method MyersTrace(a: seq<Line>, b: seq<Line>) returns (out: seq<Edit>)
    ensures IsScript(out, a, b) && Cost(out) == Total(a, b) && Coalesced(out)
  {
    hide Dist;
    var trace, foundD := SearchTrace(a, b);
    AtLeastOffset(a, b, |a|, |b|);
    Parity(a, b, |a|, |b|);
    var edits: seq<Edit> := [];
    var x, y := |a|, |b|;
    for d := foundD + 1 downto 0
      invariant d > 0 ==> At(a, b, edits, d - 1, x, y, foundD - (d - 1))
      invariant d == 0 ==> Walked(edits, a, b, 0, 0, foundD)
    {
      x, y, edits := UndoDepth(a, b, trace[d], d, x, y, edits, foundD - d);
    }
    assert a[0..] == a && b[0..] == b;
    ReverseNoEmptyRun(edits);
    edits := Reverse(edits);
    out := Coalesce(edits, a, b);
  }
}
