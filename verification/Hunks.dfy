/** Unified-diff hunks (src/content.rs). */
module Hunks {
  import opened EditDistance
  import opened Wrappers

  // `to_hunks`, and what applying its hunks to the old lines yields.

  /** One line of the expanded script: ' ' kept, '-' deleted, '+' inserted. */
  type Op = (char, Line)

  datatype Hunk = Hunk(aStart: nat, aCount: nat, bStart: nat, bCount: nat, lines: seq<Op>)

  /** The lines of the operations not tagged `c`. */
  function Without(ops: seq<Op>, c: char): seq<Line>
  {
    if ops == [] then [] else (if ops[0].0 != c then [ops[0].1] else []) + Without(ops[1..], c)
  }

  function Olds(ops: seq<Op>): seq<Line> { Without(ops, '+') }

  function News(ops: seq<Op>): seq<Line> { Without(ops, '-') }

  lemma {:induction false} Concat(s: seq<Op>, t: seq<Op>, c: char)
    ensures Without(s + t, c) == Without(s, c) + Without(t, c)
  {
    if s == [] {
      assert s + t == t;
    } else {
      assert (s + t)[1..] == s[1..] + t && (s + t)[0] == s[0];
      Concat(s[1..], t, c);
    }
  }

  lemma {:induction false} ConcatLines(s: seq<Op>, t: seq<Op>)
    ensures Olds(s + t) == Olds(s) + Olds(t) && News(s + t) == News(s) + News(t)
  {
    hide Without;
    Concat(s, t, '+');
    Concat(s, t, '-');
  }

  ghost predicate Kept(ops: seq<Op>) { forall i :: 0 <= i < |ops| ==> ops[i].0 == ' ' }

  lemma {:induction false} KeptSame(ops: seq<Op>)
    requires Kept(ops)
    ensures Olds(ops) == News(ops)
  {
    if ops != [] { KeptSame(ops[1..]); }
  }

  /** The number of deleted and inserted lines. */
  function Changes(ops: seq<Op>): nat
  {
    if ops == [] then 0 else (if ops[0].0 != ' ' then 1 else 0) + Changes(ops[1..])
  }

  lemma {:induction false} ChangesConcat(s: seq<Op>, t: seq<Op>)
    ensures Changes(s + t) == Changes(s) + Changes(t)
  {
    if s == [] {
      assert s + t == t;
    } else {
      assert (s + t)[1..] == s[1..] + t && (s + t)[0] == s[0];
      ChangesConcat(s[1..], t);
    }
  }

  lemma {:induction false} NoChanges(ops: seq<Op>)
    requires Kept(ops)
    ensures Changes(ops) == 0
  {
    if ops != [] { NoChanges(ops[1..]); }
  }

  // ---- Tags ----

  function TagsOf(ops: seq<Op>): (r: seq<char>)
    ensures |r| == |ops|
  {
    seq(|ops|, i requires 0 <= i < |ops| => ops[i].0)
  }

  function Tag(e: Edit): char
  {
    match e
    case Equal(_) => ' '
    case Delete(_) => '-'
    case Insert(_) => '+'
  }

  function Repeat(c: char, n: nat): (r: seq<char>)
    ensures |r| == n && forall i :: 0 <= i < n ==> r[i] == c
  {
    if n == 0 then [] else Repeat(c, n - 1) + [c]
  }

  /** What a script does line by line. */
  function Tags(edits: seq<Edit>): seq<char>
  {
    if edits == [] then [] else Repeat(Tag(edits[0]), edits[0].n) + Tags(edits[1..])
  }

  /** A maximal block of changes. */
  ghost predicate Block(tags: seq<char>, s: int, e: int)
  {
    && 0 <= s < e <= |tags| && (forall t :: s <= t < e ==> tags[t] != ' ')
    && (s > 0 ==> tags[s - 1] == ' ') && (e < |tags| ==> tags[e] == ' ')
  }

  ghost predicate Other(tags: seq<char>, s: int, e: int, c: char)
  {
    exists t :: s <= t < e && 0 <= t < |tags| && tags[t] != c
  }

  /** Every block of changes, but one that starts the script, both deletes and inserts. */
  ghost predicate Anchored(tags: seq<char>)
  {
    forall s, e :: 0 < s && Block(tags, s, e) ==> Other(tags, s, e, '+') && Other(tags, s, e, '-')
  }

  // ---- Expansion ----

  lemma {:induction false} PushOp(ops: seq<Op>, op: Op)
    ensures Olds(ops + [op]) == Olds(ops) + (if op.0 != '+' then [op.1] else [])
    ensures News(ops + [op]) == News(ops) + (if op.0 != '-' then [op.1] else [])
    ensures Changes(ops + [op]) == Changes(ops) + if op.0 != ' ' then 1 else 0
  {
    ConcatLines(ops, [op]);
    ChangesConcat(ops, [op]);
    assert [op][1..] == [] && Without([op][1..], '+') == [] && Without([op][1..], '-') == [];
  }

  /** Where the expansion stands after (ai, bi) lines. */
  ghost predicate Expanded(ops: seq<Op>, a: seq<Line>, b: seq<Line>, ai: nat, bi: nat)
  {
    ai <= |a| && bi <= |b| && Olds(ops) == a[..ai] && News(ops) == b[..bi]
  }

  lemma {:induction false} PushExpanded(ops: seq<Op>, c: char, a: seq<Line>, b: seq<Line>, ai: nat, bi: nat)
    requires Expanded(ops, a, b, ai, bi)
    requires c != '+' ==> ai < |a|
    requires c != '-' ==> bi < |b|
    requires c != '+' && c != '-' ==> a[ai] == b[bi]
    ensures ai <= |a| && bi <= |b|
    ensures var op := (c, if c == '+' then b[bi] else a[ai]);
      && Expanded(ops + [op], a, b, if c == '+' then ai else ai + 1, if c == '-' then bi else bi + 1)
      && Changes(ops + [op]) == Changes(ops) + if c != ' ' then 1 else 0
  {
    PushOp(ops, (c, if c == '+' then b[bi] else a[ai]));
    if c != '+' { assert a[..ai + 1] == a[..ai] + [a[ai]]; }
    if c != '-' { assert b[..bi + 1] == b[..bi] + [b[bi]]; }
  }

  lemma {:induction false} PushTag(ops: seq<Op>, op: Op)
    ensures TagsOf(ops + [op]) == TagsOf(ops) + [op.0]
  {
  }

  lemma {:induction false} RepeatMore(tags: seq<char>, c: char, n: nat)
    ensures tags + Repeat(c, n) + [c] == tags + Repeat(c, n + 1) && tags + Repeat(c, 0) == tags
  {
  }

  /** Expands one run into per-line operations. */
  method ExpandRun(ops: seq<Op>, e: Edit, a: seq<Line>, b: seq<Line>, ai: nat, bi: nat)
    returns (out: seq<Op>, ai': nat, bi': nat)
    requires Expanded(ops, a, b, ai, bi)
    requires !e.Insert? ==> ai + e.n <= |a|
    requires !e.Delete? ==> bi + e.n <= |b|
    requires e.Equal? ==> a[ai..ai + e.n] == b[bi..bi + e.n]
    ensures ai' == (if e.Insert? then ai else ai + e.n) && bi' == (if e.Delete? then bi else bi + e.n)
    ensures Expanded(out, a, b, ai', bi')
    ensures Changes(out) == Changes(ops) + if e.Equal? then 0 else e.n
    ensures TagsOf(out) == TagsOf(ops) + Repeat(Tag(e), e.n)
  {
    hide Expanded, Changes, TagsOf, Repeat;
    out, ai', bi' := ops, ai, bi;
    assert TagsOf(ops) + Repeat(Tag(e), 0) == TagsOf(ops) by { RepeatMore(TagsOf(ops), Tag(e), 0); }
    for t := 0 to e.n
      invariant ai' == (if e.Insert? then ai else ai + t) && bi' == (if e.Delete? then bi else bi + t)
      invariant Expanded(out, a, b, ai', bi')
      invariant Changes(out) == Changes(ops) + if e.Equal? then 0 else t
      invariant TagsOf(out) == TagsOf(ops) + Repeat(Tag(e), t)
    {
      ghost var before := out;
      match e {
        case Equal(_) =>
          assert a[ai + t] == a[ai..ai + e.n][t] == b[bi..bi + e.n][t] == b[bi + t];
          PushExpanded(out, ' ', a, b, ai', bi');
          out := out + [(' ', a[ai'])];
          ai', bi' := ai' + 1, bi' + 1;
        case Delete(_) =>
          PushExpanded(out, '-', a, b, ai', bi');
          out := out + [('-', a[ai'])];
          ai' := ai' + 1;
        case Insert(_) =>
          PushExpanded(out, '+', a, b, ai', bi');
          out := out + [('+', b[bi'])];
          bi' := bi' + 1;
      }
      PushTag(before, out[|before|]);
      RepeatMore(TagsOf(ops), Tag(e), t);
    }
  }

  /** Replays a script from the front: the kept and deleted lines are `a`, the kept and inserted ones
      `b`, and each line is treated as the script says. */
  method Expand(edits: seq<Edit>, a: seq<Line>, b: seq<Line>) returns (ops: seq<Op>)
    requires IsScript(edits, a, b)
    ensures Olds(ops) == a && News(ops) == b && Changes(ops) == Cost(edits) && TagsOf(ops) == Tags(edits)
  {
    hide IsScript, Expanded, Changes, Cost, Tags, TagsOf, Repeat;
    ops := [];
    var ai: nat, bi: nat := 0, 0;
    ExpandStarts(edits, a, b);
    for i := 0 to |edits|
      invariant Expanded(ops, a, b, ai, bi) && ai <= |a| && bi <= |b| && IsScript(edits[i..], a[ai..], b[bi..])
      invariant Changes(ops) + Cost(edits[i..]) == Cost(edits)
      invariant TagsOf(ops) + Tags(edits[i..]) == Tags(edits)
    {
      var e := edits[i];
      ghost var rest, before := edits[i..], TagsOf(ops);
      assert rest[0] == e && rest[1..] == edits[i + 1..];
      FirstRun(e, a, b, ai, bi, rest);
      ops, ai, bi := ExpandRun(ops, e, a, b, ai, bi);
      assert before + (Repeat(Tag(e), e.n) + Tags(rest[1..])) == TagsOf(ops) + Tags(rest[1..]);
    }
    ExpandEnds(edits, ops, a, b, ai, bi);
  }

  lemma {:induction false} ExpandStarts(edits: seq<Edit>, a: seq<Line>, b: seq<Line>)
    ensures Expanded([], a, b, 0, 0) && Changes([]) == 0 && TagsOf([]) == []
    ensures edits[0..] == edits && a[0..] == a && b[0..] == b && [] + Tags(edits) == Tags(edits)
  {
  }

  lemma {:induction false} ExpandEnds(edits: seq<Edit>, ops: seq<Op>, a: seq<Line>, b: seq<Line>, ai: nat, bi: nat)
    requires Expanded(ops, a, b, ai, bi) && IsScript(edits[|edits|..], a[ai..], b[bi..])
    requires Changes(ops) + Cost(edits[|edits|..]) == Cost(edits) && TagsOf(ops) + Tags(edits[|edits|..]) == Tags(edits)
    ensures Olds(ops) == a && News(ops) == b && Changes(ops) == Cost(edits) && TagsOf(ops) == Tags(edits)
  {
    assert edits[|edits|..] == [];
    assert a[..ai] == a && b[..bi] == b;
    assert TagsOf(ops) + [] == TagsOf(ops);
  }

  lemma {:induction false} FirstRun(e: Edit, a: seq<Line>, b: seq<Line>, ai: nat, bi: nat, rest: seq<Edit>)
    requires ai <= |a| && bi <= |b| && rest != [] && rest[0] == e && IsScript(rest, a[ai..], b[bi..])
    ensures !e.Insert? ==> ai + e.n <= |a|
    ensures !e.Delete? ==> bi + e.n <= |b|
    ensures e.Equal? ==> a[ai..ai + e.n] == b[bi..bi + e.n]
    ensures IsScript(rest[1..], a[if e.Insert? then ai else ai + e.n..], b[if e.Delete? then bi else bi + e.n..])
    ensures Tags(rest) == Repeat(Tag(e), e.n) + Tags(rest[1..])
        && Cost(rest) == (if e.Equal? then 0 else e.n) + Cost(rest[1..])
  {
    if e.Equal? { assert a[ai..][..e.n] == a[ai..ai + e.n] && b[bi..][..e.n] == b[bi..bi + e.n]; }
    if !e.Insert? { assert a[ai..][e.n..] == a[ai + e.n..]; }
    if !e.Delete? { assert b[bi..][e.n..] == b[bi + e.n..]; }
  }

  // ---- Hunks ----

  function HunkOf(ops: seq<Op>, start: nat, end: nat): Hunk
    requires start <= end <= |ops|
  {
    var lines := ops[start..end];
    var aCount, bCount := |Olds(lines)|, |News(lines)|;
    Hunk(if aCount == 0 then 0 else |Olds(ops[..start])| + 1, aCount,
         if bCount == 0 then 0 else |News(ops[..start])| + 1, bCount, lines)
  }

  /** A region of the operations shown as one hunk. */
  datatype Span = Span(start: nat, end: nat)

  ghost predicate Changed(ops: seq<Op>, t: int) { 0 <= t < |ops| && ops[t].0 != ' ' }

  ghost predicate Inside(s: Span, t: int) { s.start <= t < s.end }

  ghost predicate NoChange(ops: seq<Op>, p: int, s: int) { forall t :: p <= t < s ==> !Changed(ops, t) }

  ghost function GapStart(spans: seq<Span>, k: int): nat
    requires 0 <= k <= |spans|
  {
    if k == 0 then 0 else spans[k - 1].end
  }

  /** A span starts at most the context before its first change and ends at most the context after
      its last one, and each further change is at most three times the context after an earlier one. */
  ghost predicate Snug(ops: seq<Op>, s: Span, context: nat)
  {
    && (exists u :: Inside(s, u) && Changed(ops, u) && u <= s.start + context)
    && (exists u :: Inside(s, u) && Changed(ops, u) && s.end <= u + 1 + context)
    && forall v :: Inside(s, v) && Changed(ops, v) ==> Follows(ops, s, v, context)
  }

  ghost predicate Follows(ops: seq<Op>, s: Span, v: int, context: nat)
  {
    v <= s.start + context || exists u :: Inside(s, u) && u < v && Changed(ops, u) && v <= u + 1 + 3 * context
  }

  /** Span `k` follows the one before it with no change in between nor within twice the context after
      it, is snug around its changes, and, given any context, starts on a kept line unless it starts the file. */
  ghost predicate Placed(ops: seq<Op>, spans: seq<Span>, context: nat, k: int)
    requires 0 <= k < |spans|
  {
    var s := spans[k];
    && GapStart(spans, k) <= s.start < s.end <= |ops|
    && NoChange(ops, GapStart(spans, k), s.start)
    && Snug(ops, s, context)
    && (k > 0 ==> Isolated(ops, GapStart(spans, k), context))
    && (context > 0 && s.start > 0 ==> ops[s.start].0 == ' ')
  }

  /** The spans come in order, do not overlap, and leave no change before `i` outside them. */
  ghost predicate Covers(ops: seq<Op>, spans: seq<Span>, context: nat, i: int)
  {
    && (forall k :: 0 <= k < |spans| ==> Placed(ops, spans, context, k))
    && GapStart(spans, |spans|) <= i <= |ops| && NoChange(ops, GapStart(spans, |spans|), i)
  }

  /** No change lies within twice the context after `end`. */
  ghost predicate Isolated(ops: seq<Op>, end: nat, context: nat)
  {
    forall t :: end <= t <= end + 2 * context ==> !Changed(ops, t)
  }

  // Where a hunk ends, exactly.

  ghost predicate FirstChange(ops: seq<Op>, from: nat, u: nat)
  {
    from <= u && Changed(ops, u) && NoChange(ops, from, u)
  }

  ghost function Least(i: nat, j: nat): nat { if i < j then i else j }

  /** The next change is within twice the context after one end, and gives the next end. */
  ghost predicate TakesIn(ops: seq<Op>, context: nat, end: nat, end': nat)
  {
    exists u: nat :: FirstChange(ops, end, u) && u <= end + 2 * context && end' == Least(u + context, |ops|)
  }

  /** The ends a hunk goes through: the context after its first region, then the context from each change it
      takes in, until no change is near. */
  ghost predicate Extension(ops: seq<Op>, context: nat, regionEnd: nat, ends: seq<nat>)
  {
    && ends != [] && ends[0] == Least(regionEnd + context, |ops|)
    && (forall k :: 0 <= k < |ends| - 1 ==> TakesIn(ops, context, ends[k], ends[k + 1]))
    && Isolated(ops, ends[|ends| - 1], context)
  }

  ghost predicate Region(ops: seq<Op>, start: nat, end: nat)
  {
    start < end <= |ops| && (forall t :: start <= t < end ==> Changed(ops, t)) && !Changed(ops, end)
  }

  /** A span starts the context before the first change from `from` on and ends where the extension ends. */
  ghost predicate ExactSpan(ops: seq<Op>, from: nat, s: Span, context: nat)
  {
    exists f: nat, r: nat, ends: seq<nat> :: SpanFrom(ops, from, s, context, f, r, ends)
  }

  ghost predicate SpanFrom(ops: seq<Op>, from: nat, s: Span, context: nat, f: nat, r: nat, ends: seq<nat>)
  {
    && FirstChange(ops, from, f) && Region(ops, f, r) && Extension(ops, context, r, ends)
    && s == Span(if f > context then f - context else 0, ends[|ends| - 1])
  }

  /** All spans are exact, and no change is left after the last. */
  ghost predicate ExactSpans(ops: seq<Op>, spans: seq<Span>, context: nat, i: nat)
  {
    && (forall k :: 0 <= k < |spans| ==> ExactSpan(ops, GapStart(spans, k), spans[k], context))
    && NoChange(ops, GapStart(spans, |spans|), i)
  }

  lemma {:induction false} OneExtension(ops: seq<Op>, context: nat, ends: seq<nat>, ends': seq<nat>)
    requires ends != [] && ends' != [] && ends[0] == ends'[0]
    requires forall k :: 0 <= k < |ends| - 1 ==> TakesIn(ops, context, ends[k], ends[k + 1])
    requires forall k :: 0 <= k < |ends'| - 1 ==> TakesIn(ops, context, ends'[k], ends'[k + 1])
    requires Isolated(ops, ends[|ends| - 1], context) && Isolated(ops, ends'[|ends'| - 1], context)
    ensures ends[|ends| - 1] == ends'[|ends'| - 1]
    decreases |ends|
  {
    hide Changed;
    if |ends| > 1 || |ends'| > 1 {
      assert |ends| > 1 ==> TakesIn(ops, context, ends[0], ends[0 + 1]);
      assert |ends'| > 1 ==> TakesIn(ops, context, ends'[0], ends'[0 + 1]);
      var rest, rest' := ends[1..], ends'[1..];
      forall k | 0 <= k < |rest| - 1 ensures TakesIn(ops, context, rest[k], rest[k + 1]) {
        assert TakesIn(ops, context, ends[k + 1], ends[k + 1 + 1]);
      }
      forall k | 0 <= k < |rest'| - 1 ensures TakesIn(ops, context, rest'[k], rest'[k + 1]) {
        assert TakesIn(ops, context, ends'[k + 1], ends'[k + 1 + 1]);
      }
      OneExtension(ops, context, rest, rest');
    }
  }

  lemma {:induction false} OneSpan(ops: seq<Op>, from: nat, s: Span, s': Span, context: nat)
    requires ExactSpan(ops, from, s, context) && ExactSpan(ops, from, s', context)
    ensures s == s'
  {
    hide Isolated, TakesIn;
    var f: nat, r: nat, ends: seq<nat> :| SpanFrom(ops, from, s, context, f, r, ends);
    var f': nat, r': nat, ends': seq<nat> :| SpanFrom(ops, from, s', context, f', r', ends');
    assert f == f';
    assert r == r';
    OneExtension(ops, context, ends, ends');
  }

  /** The spans of an operation list are determined by it and the context: there is only one way to be exact. */
  lemma {:induction false} SpansUnique(ops: seq<Op>, spans: seq<Span>, spans': seq<Span>, context: nat, n: nat)
    requires ExactSpans(ops, spans, context, |ops|) && ExactSpans(ops, spans', context, |ops|) && n <= |spans|
    ensures n <= |spans'| && spans[..n] == spans'[..n]
    ensures n == |spans| ==> spans == spans'
  {
    hide ExactSpan;
    if n > 0 {
      SpansUnique(ops, spans, spans', context, n - 1);
      assert GapStart(spans, n - 1) == GapStart(spans', n - 1) by {
        assert n > 1 ==> spans[..n - 1][n - 2] == spans'[..n - 1][n - 2];
      }
      assert ExactSpan(ops, GapStart(spans, n - 1), spans[n - 1], context);
      HoldsChange(ops, GapStart(spans, n - 1), spans[n - 1], context);
      assert n <= |spans'|;
      assert ExactSpan(ops, GapStart(spans', n - 1), spans'[n - 1], context);
      OneSpan(ops, GapStart(spans, n - 1), spans[n - 1], spans'[n - 1], context);
    }
    if n == |spans| && |spans'| > n {
      assert GapStart(spans, n) == GapStart(spans', n) by { assert n > 0 ==> spans[..n][n - 1] == spans'[..n][n - 1]; }
      assert ExactSpan(ops, GapStart(spans', n), spans'[n], context);
      HoldsChange(ops, GapStart(spans', n), spans'[n], context);
    }
  }

  lemma {:induction false} HoldsChange(ops: seq<Op>, from: nat, s: Span, context: nat)
    requires ExactSpan(ops, from, s, context)
    ensures !NoChange(ops, from, |ops|)
  {
    hide Extension;
    var f: nat, r: nat, ends: seq<nat> :| SpanFrom(ops, from, s, context, f, r, ends);
  }

  /** Every change from `from` on to before `end` is within three times the context after another. */
  ghost predicate Stepwise(ops: seq<Op>, from: int, end: int, context: nat)
  {
    forall v :: from <= v < end && Changed(ops, v) ==>
        exists u :: from - 1 <= u < v && Changed(ops, u) && v <= u + 1 + 3 * context
  }

  lemma {:induction false} StepOn(ops: seq<Op>, from: int, end: int, context: nat, last: int, next: int, end': int)
    requires Stepwise(ops, from, end, context) && from - 1 <= last < end <= next && end <= last + 1 + context
        && Changed(ops, last)
    requires next <= end + 2 * context && end' <= next + context && Changed(ops, next) && NoChange(ops, end, next)
    ensures Stepwise(ops, from, end', context)
  {
    forall v | from <= v < end' && Changed(ops, v)
      ensures exists u :: from - 1 <= u < v && Changed(ops, u) && v <= u + 1 + 3 * context
    {
      if v == next {
        assert Changed(ops, last);
      } else if v > next {
        assert Changed(ops, next);
      } else {
        assert v < end;
      }
    }
  }

  /** The end of the hunk whose first change region ends at `regionEnd`. */
  method HunkEnd(ops: seq<Op>, regionEnd: nat, context: nat) returns (end: nat, ghost ends: seq<nat>)
    requires 0 < regionEnd <= |ops| && Changed(ops, regionEnd - 1) && !Changed(ops, regionEnd)
    ensures regionEnd <= end <= |ops| && Isolated(ops, end, context)
    ensures Stepwise(ops, regionEnd, end, context)
    ensures exists u :: regionEnd - 1 <= u < end && Changed(ops, u) && end <= u + 1 + context
    ensures Extension(ops, context, regionEnd, ends) && end == ends[|ends| - 1]
    ensures end == |ops| || end == regionEnd + context
         || exists u :: regionEnd + context <= u < end && Changed(ops, u) && end == u + context
  {
    hide Stepwise, Changed, NoChange, Isolated, TakesIn;
    end := if regionEnd + context > |ops| then |ops| else regionEnd + context;
    ghost var last := regionEnd - 1;
    ends := [end];
    FirstSteps(ops, regionEnd, end, context);
    EndsIsolated(ops, end, end, context);
    while end < |ops|
      invariant regionEnd <= end <= |ops|
      invariant context == 0 ==> !Changed(ops, end)
      invariant regionEnd - 1 <= last < end <= last + 1 + context && Changed(ops, last)
      invariant Stepwise(ops, regionEnd, end, context)
      invariant end == |ops| ==> Isolated(ops, end, context)
      invariant ends != [] && ends[0] == Least(regionEnd + context, |ops|) && ends[|ends| - 1] == end
      invariant forall k :: 0 <= k < |ends| - 1 ==> TakesIn(ops, context, ends[k], ends[k + 1])
      invariant end == |ops| || end == regionEnd + context
             || exists u :: regionEnd + context <= u < end && Changed(ops, u) && end == u + context
      decreases |ops| - end
    {
      var nextChange := end;
      NothingYet(ops, end);
      while nextChange < |ops| && ops[nextChange].0 == ' '
        invariant end <= nextChange <= |ops| && NoChange(ops, end, nextChange)
      {
        PassKept(ops, end, nextChange);
        nextChange := nextChange + 1;
      }
      EndsIsolated(ops, end, nextChange, context);
      if nextChange >= |ops| { break; }
      if nextChange - end <= 2 * context {
        assert Changed(ops, nextChange) by { FoundChange(ops, nextChange); }
        var reach := if nextChange + context > |ops| then |ops| else nextChange + context;
        StepOn(ops, regionEnd, end, context, last, nextChange, reach);
        EndsIsolated(ops, reach, reach, context);
        assert TakesIn(ops, context, end, reach) by { NextEnd(ops, context, end, nextChange, reach); }
        ends := ends + [reach];
        end := reach;
        last := nextChange;
      } else {
        break;
      }
    }
  }

  lemma {:induction false} NextEnd(ops: seq<Op>, context: nat, end: nat, u: nat, end': nat)
    requires end <= u <= end + 2 * context && Changed(ops, u) && NoChange(ops, end, u)
        && end' == Least(u + context, |ops|)
    ensures TakesIn(ops, context, end, end')
  {
    assert FirstChange(ops, end, u);
  }

  lemma {:induction false} NothingYet(ops: seq<Op>, p: int)
    ensures NoChange(ops, p, p)
  {
  }

  lemma {:induction false} PassKept(ops: seq<Op>, p: int, s: nat)
    requires NoChange(ops, p, s) && s < |ops| && ops[s].0 == ' '
    ensures NoChange(ops, p, s + 1)
  {
  }

  lemma {:induction false} FoundChange(ops: seq<Op>, s: nat)
    requires s < |ops| && ops[s].0 != ' '
    ensures Changed(ops, s)
  {
  }

  /** No change is near when none comes at all, or the next one is far. */
  lemma {:induction false} EndsIsolated(ops: seq<Op>, end: nat, next: nat, context: nat)
    requires end == next || NoChange(ops, end, next)
    ensures next >= |ops| || next > end + 2 * context ==> Isolated(ops, end, context)
  {
  }

  lemma {:induction false} FirstSteps(ops: seq<Op>, from: nat, end: nat, context: nat)
    requires 0 < from <= |ops| && Changed(ops, from - 1) && end <= from + context
    ensures Stepwise(ops, from, end, context)
  {
  }

  /** A first region of changes and what the extension reaches make a snug span. */
  lemma {:induction false} SpanSnug(ops: seq<Op>, context: nat, regionStart: nat, regionEnd: nat, start: nat, end: nat)
    requires regionStart < regionEnd <= end <= |ops| && start <= regionStart <= start + context
    requires forall t :: regionStart <= t < regionEnd ==> Changed(ops, t)
    requires NoChange(ops, start, regionStart) && Stepwise(ops, regionEnd, end, context)
    requires exists u :: regionEnd - 1 <= u < end && Changed(ops, u) && end <= u + 1 + context
    ensures Snug(ops, Span(start, end), context)
  {
    hide Stepwise, NoChange;
    var s := Span(start, end);
    assert Inside(s, regionStart) && Changed(ops, regionStart);
    var last :| regionEnd - 1 <= last < end && Changed(ops, last) && end <= last + 1 + context;
    assert Inside(s, last);
    forall v | Inside(s, v) && Changed(ops, v)
      ensures Follows(ops, s, v, context)
    {
      ChangeNear(ops, context, regionStart, regionEnd, start, end, v);
    }
  }

  lemma {:induction false} ChangeNear(ops: seq<Op>, context: nat, regionStart: nat, regionEnd: nat, start: nat,
        end: nat, v: int)
    requires regionStart < regionEnd <= end <= |ops| && start <= regionStart <= start + context
    requires forall t :: regionStart <= t < regionEnd ==> Changed(ops, t)
    requires NoChange(ops, start, regionStart) && Stepwise(ops, regionEnd, end, context)
    requires start <= v < end && Changed(ops, v)
    ensures Follows(ops, Span(start, end), v, context)
  {
    var s := Span(start, end);
    if regionStart < v < regionEnd {
      assert Changed(ops, v - 1) && Inside(s, v - 1);
    } else if v >= regionEnd {
      var u :| regionEnd - 1 <= u < v && Changed(ops, u) && v <= u + 1 + 3 * context;
      assert Inside(s, u);
    } else {
      assert v == regionStart;
    }
  }

  /** The end of the region of changes that starts at a change. */
  method RegionEnd(ops: seq<Op>, regionStart: nat) returns (regionEnd: nat)
    requires Changed(ops, regionStart)
    ensures regionStart < regionEnd <= |ops| && !Changed(ops, regionEnd)
    ensures forall t :: regionStart <= t < regionEnd ==> Changed(ops, t)
  {
    regionEnd := regionStart;
    while regionEnd < |ops| && ops[regionEnd].0 != ' '
      invariant regionStart <= regionEnd <= |ops|
      invariant regionEnd == regionStart ==> Changed(ops, regionEnd)
      invariant forall t :: regionStart <= t < regionEnd ==> Changed(ops, t)
    {
      regionEnd := regionEnd + 1;
    }
  }

  /** What the grouping loop keeps: spans up to `i`, the last one isolated, and their hunks. */
  ghost predicate Grouped(ops: seq<Op>, spans: seq<Span>, hunks: seq<Hunk>, context: nat, i: int)
  {
    && Covers(ops, spans, context, i) && HunksOf(ops, spans, hunks) && 0 <= i && ExactSpans(ops, spans, context, i)
    && (spans != [] ==> Isolated(ops, GapStart(spans, |spans|), context))
  }

  lemma {:induction false} GroupKept(ops: seq<Op>, spans: seq<Span>, hunks: seq<Hunk>, context: nat, i: nat)
    requires i < |ops| && ops[i].0 == ' ' && Grouped(ops, spans, hunks, context, i)
    ensures Grouped(ops, spans, hunks, context, i + 1)
  {
    hide Isolated, Placed, HunkOf, ExactSpan;
  }

  lemma {:induction false} GroupHunk(ops: seq<Op>, spans: seq<Span>, hunks: seq<Hunk>, context: nat, regionStart: nat,
        regionEnd: nat, start: nat, end: nat, ends: seq<nat>)
    requires Region(ops, regionStart, regionEnd) && Extension(ops, context, regionEnd, ends) && end == ends[|ends| - 1]
    requires Grouped(ops, spans, hunks, context, regionStart) && regionStart < regionEnd <= end <= |ops|
    requires start == if regionStart > context then regionStart - context else 0
    requires forall t :: regionStart <= t < regionEnd ==> Changed(ops, t)
    requires Isolated(ops, end, context) && Stepwise(ops, regionEnd, end, context)
    requires exists u :: regionEnd - 1 <= u < end && Changed(ops, u) && end <= u + 1 + context
    ensures Grouped(ops, spans + [Span(start, end)], hunks + [HunkOf(ops, start, end)], context, end)
  {
    hide Isolated, Placed, Snug, Stepwise, HunkOf, ExactSpan, Extension, Region;
    assert Changed(ops, regionStart);
    AddExact(ops, spans, context, regionStart, regionEnd, Span(start, end), ends);
    StartClear(ops, spans, context, regionStart, start);
    SpanSnug(ops, context, regionStart, regionEnd, start, end);
    AddSpan(ops, spans, context, regionStart, start, end);
  }

  lemma {:induction false} ThisSpan(ops: seq<Op>, from: nat, s: Span, context: nat, f: nat, r: nat, ends: seq<nat>)
    requires from <= f && Changed(ops, f) && NoChange(ops, from, f) && Region(ops, f, r)
        && Extension(ops, context, r, ends)
    requires s == Span(if f > context then f - context else 0, ends[|ends| - 1])
    ensures ExactSpan(ops, from, s, context)
  {
    hide Extension, Region;
    assert SpanFrom(ops, from, s, context, f, r, ends);
  }

  lemma {:induction false} AddExact(ops: seq<Op>, spans: seq<Span>, context: nat, f: nat, r: nat, s: Span,
        ends: seq<nat>)
    requires ExactSpans(ops, spans, context, f) && GapStart(spans, |spans|) <= f && Changed(ops, f)
    requires Region(ops, f, r) && Extension(ops, context, r, ends)
    requires s == Span(if f > context then f - context else 0, ends[|ends| - 1])
    ensures ExactSpans(ops, spans + [s], context, s.end)
  {
    hide Extension, Region, Changed, ExactSpan, NoChange;
    var spans' := spans + [s];
    ThisSpan(ops, GapStart(spans, |spans|), s, context, f, r, ends);
    NothingYet(ops, s.end);
    forall k | 0 <= k < |spans'| ensures ExactSpan(ops, GapStart(spans', k), spans'[k], context) {
      assert GapStart(spans', k) == GapStart(spans, k);
      if k < |spans| { assert ExactSpan(ops, GapStart(spans, k), spans[k], context); }
    }
  }

  /** Groups the changed operations into hunks with `context` kept lines around them. */
  method ToHunks(ops: seq<Op>, context: nat) returns (hunks: seq<Hunk>, ghost spans: seq<Span>)
    ensures Covers(ops, spans, context, |ops|) && HunksOf(ops, spans, hunks) && ExactSpans(ops, spans, context, |ops|)
  {
    hide Grouped, Isolated, Stepwise, HunkOf, Extension, ExactSpans;
    hunks, spans := [], [];
    assert Grouped(ops, spans, hunks, context, 0) by { NothingGrouped(ops, context); }
    var i := 0;
    while i < |ops|
      invariant 0 <= i <= |ops| && Grouped(ops, spans, hunks, context, i)
      decreases |ops| - i
    {
      if ops[i].0 == ' ' {
        GroupKept(ops, spans, hunks, context, i);
        i := i + 1;
        continue;
      }
      var regionStart := i;
      var regionEnd := RegionEnd(ops, regionStart);
      var start := if regionStart > context then regionStart - context else 0;
      var end;
      ghost var ends;
      end, ends := HunkEnd(ops, regionEnd, context);
      GroupHunk(ops, spans, hunks, context, regionStart, regionEnd, start, end, ends);
      hunks := hunks + [HunkOf(ops, start, end)];
      spans := spans + [Span(start, end)];
      i := end;
    }
    assert Covers(ops, spans, context, |ops|) && HunksOf(ops, spans, hunks)
        && ExactSpans(ops, spans, context, |ops|) by {
      AllGrouped(ops, spans, hunks, context);
    }
  }

  lemma {:induction false} NothingGrouped(ops: seq<Op>, context: nat)
    ensures Grouped(ops, [], [], context, 0)
  {
  }

  lemma {:induction false} AllGrouped(ops: seq<Op>, spans: seq<Span>, hunks: seq<Hunk>, context: nat)
    requires Grouped(ops, spans, hunks, context, |ops|)
    ensures Covers(ops, spans, context, |ops|) && HunksOf(ops, spans, hunks) && ExactSpans(ops, spans, context, |ops|)
  {
  }

  ghost predicate HunksOf(ops: seq<Op>, spans: seq<Span>, hunks: seq<Hunk>)
  {
    && |hunks| == |spans|
    && forall k :: 0 <= k < |spans| ==>
        spans[k].start <= spans[k].end <= |ops| && hunks[k] == HunkOf(ops, spans[k].start, spans[k].end)
  }

  /** Between isolated spans and the next change there is room for its context. */
  lemma {:induction false} StartClear(ops: seq<Op>, spans: seq<Span>, context: nat, i: int, start: nat)
    requires Covers(ops, spans, context, i) && Changed(ops, i)
    requires start == if i > context then i - context else 0
    requires spans != [] ==> Isolated(ops, GapStart(spans, |spans|), context)
    ensures GapStart(spans, |spans|) <= start && NoChange(ops, start, i)
  {
  }

  /** The first change after isolated spans opens a span of its own. */
  lemma {:induction false} AddSpan(ops: seq<Op>, spans: seq<Span>, context: nat, i: int, start: nat, end: nat)
    requires Covers(ops, spans, context, i) && Changed(ops, i) && i < end <= |ops|
        && Snug(ops, Span(start, end), context)
    requires start == if i > context then i - context else 0
    requires spans != [] ==> Isolated(ops, GapStart(spans, |spans|), context)
    ensures Covers(ops, spans + [Span(start, end)], context, end)
  {
    var s := Span(start, end);
    var spans' := spans + [s];
    forall k | 0 <= k < |spans'| ensures Placed(ops, spans', context, k) {
      if k < |spans| {
        assert Placed(ops, spans, context, k);
      } else {
        assert Inside(s, i);
        assert start < i ==> !Changed(ops, start);
      }
    }
  }

  /** Every changed operation lies in exactly one hunk. */
  lemma {:induction false} ChangedOnce(ops: seq<Op>, spans: seq<Span>, context: nat, i: int, t: int)
    requires Covers(ops, spans, context, i) && 0 <= t < i && Changed(ops, t)
    ensures exists k :: 0 <= k < |spans| && Inside(spans[k], t)
    ensures forall j, k :: 0 <= j < k < |spans| ==> !(Inside(spans[j], t) && Inside(spans[k], t))
    decreases |spans|
  {
    if spans != [] {
      var n := |spans| - 1;
      var front := spans[..n];
      assert Placed(ops, spans, context, n);
      forall k | 0 <= k < n ensures Placed(ops, front, context, k) { assert Placed(ops, spans, context, k); }
      InOrder(ops, spans, context, n);
      if t < spans[n].start {
        ChangedOnce(ops, front, context, spans[n].start, t);
        var k :| 0 <= k < n && Inside(front[k], t);
        assert Inside(spans[k], t);
        forall j, k | 0 <= j < k < |spans| ensures !(Inside(spans[j], t) && Inside(spans[k], t)) {
          if k < n { assert !(Inside(front[j], t) && Inside(front[k], t)); }
        }
      } else {
        assert Inside(spans[n], t);
        forall j, k | 0 <= j < k < |spans| ensures !(Inside(spans[j], t) && Inside(spans[k], t)) {
          assert spans[j].end <= spans[n].start;
        }
      }
    }
  }

  lemma {:induction false} InOrder(ops: seq<Op>, spans: seq<Span>, context: nat, n: int)
    requires 0 <= n <= |spans| && forall k :: 0 <= k < |spans| ==> Placed(ops, spans, context, k)
    ensures forall j :: 0 <= j < n ==> spans[j].end <= GapStart(spans, n)
  {
    if n > 0 {
      InOrder(ops, spans, context, n - 1);
      assert Placed(ops, spans, context, n - 1);
    }
  }

  // ---- Applying hunks ----

  /** Applies unified-diff hunks to `a`, of which `ai` lines are consumed and `bi` lines produced:
      every hunk must sit where its headers say and match the old lines there. */
  function Patch(a: seq<Line>, ai: nat, bi: nat, hunks: seq<Hunk>): Option<seq<Line>>
    requires ai <= |a|
    decreases |hunks|
  {
    if hunks == [] then Some(a[ai..])
    else
      var h := hunks[0];
      var at := if h.aCount == 0 then h.aStart else h.aStart - 1;
      var to := if h.bCount == 0 then h.bStart else h.bStart - 1;
      if ai <= at && at + h.aCount <= |a| && a[at..at + h.aCount] == Olds(h.lines)
         && bi + (at - ai) == to && h.bCount == |News(h.lines)|
      then
        match Patch(a, at + h.aCount, to + h.bCount, hunks[1..])
        case Some(rest) => Some(a[ai..at] + News(h.lines) + rest)
        case None => None
      else None
  }

  /** The hunks, applied where (ai, bi) lines are done, give the new lines of the operations from `p` on. */
  ghost predicate Completes(ops: seq<Op>, p: nat, hunks: seq<Hunk>)
  {
    && p <= |ops| && |Olds(ops[..p])| <= |Olds(ops)|
    && Patch(Olds(ops), |Olds(ops[..p])|, |News(ops[..p])|, hunks) == Some(News(ops[p..]))
  }

  /** Applying the remaining hunks to what is left of the old lines yields what is left of the new
      ones exactly when each of them knows its place. */
  lemma {:induction false} PatchFrom(ops: seq<Op>, hunks: seq<Hunk>, spans: seq<Span>, context: nat, k: nat)
    requires Covers(ops, spans, context, |ops|) && HunksOf(ops, spans, hunks) && k <= |spans|
    ensures Completes(ops, GapStart(spans, k), hunks[k..])
        <==> forall j :: k <= j < |spans| ==> HeaderExact(ops, spans[j])
    decreases |spans| - k
  {
    hide Without, Patch;
    if k < |spans| {
      assert Placed(ops, spans, context, k);
      PatchFrom(ops, hunks, spans, context, k + 1);
      assert hunks[k..][1..] == hunks[k + 1..];
      OneHunk(ops, GapStart(spans, k), spans[k].start, spans[k].end, hunks[k..]);
    } else {
      assert hunks[k..] == [];
      LastLines(ops, GapStart(spans, k));
    }
  }

  /** Patching the old lines gives the new ones exactly when every header is exact. */
  lemma {:induction false} PatchesByHeaders(ops: seq<Op>, hunks: seq<Hunk>, spans: seq<Span>, context: nat)
    requires Covers(ops, spans, context, |ops|) && HunksOf(ops, spans, hunks)
    ensures Patch(Olds(ops), 0, 0, hunks) == Some(News(ops))
        <==> forall k :: 0 <= k < |spans| ==> HeaderExact(ops, spans[k])
  {
    hide Patch;
    PatchFrom(ops, hunks, spans, context, 0);
    assert hunks[0..] == hunks && ops[0..] == ops && ops[..0] == [];
  }

  lemma {:induction false} WithoutNothing(ops: seq<Op>, c: char)
    ensures Without(ops, c) == [] <==> forall i :: 0 <= i < |ops| ==> ops[i].0 == c
  {
    if ops != [] {
      WithoutNothing(ops[1..], c);
      assert forall i :: 0 < i < |ops| ==> ops[i] == ops[1..][i - 1];
      assert ops[0].0 == c && Without(ops[1..], c) == [] ==> forall i :: 0 <= i < |ops| ==> ops[i].0 == c;
    }
  }

  lemma {:induction false} SideEmpty(ops: seq<Op>, s: nat, e: nat, c: char)
    requires s <= e <= |ops|
    ensures Without(ops[s..e], c) == [] <==> !Other(TagsOf(ops), s, e, c)
  {
    hide Without;
    WithoutNothing(ops[s..e], c);
    var tags := TagsOf(ops);
    assert forall t :: s <= t < e ==> ops[s..e][t - s].0 == tags[t];
    if Other(tags, s, e, c) {
      var t :| s <= t < e && 0 <= t < |tags| && tags[t] != c;
      assert ops[s..e][t - s].0 != c;
    } else {
      forall i | 0 <= i < e - s ensures ops[s..e][i].0 == c { assert tags[s + i] == c; }
    }
  }

  /** A block that starts the file, or deletes and inserts, has an exact header, and no other has. */
  lemma {:induction false} BlockHeader(ops: seq<Op>, s: nat, e: nat)
    requires Block(TagsOf(ops), s, e)
    ensures HeaderExact(ops, Span(s, e)) <==> s == 0 || (Other(TagsOf(ops), s, e, '+') && Other(TagsOf(ops), s, e, '-'))
  {
    hide Without;
    var tags := TagsOf(ops);
    SideEmpty(ops, s, e, '+');
    SideEmpty(ops, s, e, '-');
    if s == 0 {
      WithoutNothing([], '+');
      WithoutNothing([], '-');
      assert ops[..0] == [];
    } else {
      assert tags[s - 1] == ' ';
      SideEmpty(ops, 0, s, '+');
      SideEmpty(ops, 0, s, '-');
      assert ops[0..s] == ops[..s];
    }
  }

  lemma {:induction false} SnugChanged(ops: seq<Op>, s: Span, v: int)
    requires Snug(ops, s, 0) && Inside(s, v)
    ensures Changed(ops, v)
    decreases s.end - v
  {
    hide Changed, Follows;
    if v + 1 < s.end {
      SnugChanged(ops, s, v + 1);
      assert Inside(s, v + 1);
      FollowsNext(ops, s, v);
    } else {
      var u :| Inside(s, u) && Changed(ops, u) && s.end <= u + 1 + 0;
      assert u == v;
    }
  }

  lemma {:induction false} FollowsNext(ops: seq<Op>, s: Span, v: int)
    requires Follows(ops, s, v + 1, 0) && s.start <= v
    ensures Changed(ops, v)
  {
    var u :| Inside(s, u) && u < v + 1 && Changed(ops, u) && v + 1 <= u + 1 + 3 * 0;
    assert u == v;
  }

  /** Without context the spans are the blocks of changes. */
  lemma {:induction false} SpanIsBlock(ops: seq<Op>, spans: seq<Span>, k: nat)
    requires Covers(ops, spans, 0, |ops|) && k < |spans|
    ensures Placed(ops, spans, 0, k) && Block(TagsOf(ops), spans[k].start, spans[k].end)
  {
    hide Snug;
    var s, tags := spans[k], TagsOf(ops);
    assert Placed(ops, spans, 0, k);
    forall t | s.start <= t < s.end ensures tags[t] != ' ' { SnugChanged(ops, s, t); }
    assert tags[s.start] != ' ';
    assert Changed(ops, s.start);
    if k + 1 < |spans| { assert Placed(ops, spans, 0, k + 1); }
    if s.start > 0 { assert !Changed(ops, s.start - 1); }
    if s.end < |ops| { assert !Changed(ops, s.end); }
  }

  /** Two blocks that share a position are the same. */
  lemma {:induction false} OneBlock(tags: seq<char>, s: int, e: int, s': int, e': int, t: int)
    requires Block(tags, s, e) && Block(tags, s', e') && s <= t < e && s' <= t < e'
    ensures s == s' && e == e'
  {
  }

  lemma {:induction false} BlockIsSpan(ops: seq<Op>, spans: seq<Span>, s: nat, e: nat) returns (k: nat)
    requires Covers(ops, spans, 0, |ops|) && Block(TagsOf(ops), s, e)
    ensures k < |spans| && spans[k] == Span(s, e)
  {
    hide Snug, Placed;
    var tags := TagsOf(ops);
    assert tags[s] != ' ';
    ChangedOnce(ops, spans, 0, |ops|, s);
    k :| 0 <= k < |spans| && Inside(spans[k], s);
    SpanIsBlock(ops, spans, k);
    var (s', e') := (spans[k].start, spans[k].end);
    OneBlock(tags, s, e, s', e', s);
  }

  /** Patching the old lines gives the new ones exactly when there is context or every block of changes,
      but one that starts the file, both deletes and inserts. */
  lemma {:induction false} PatchTheorem(ops: seq<Op>, hunks: seq<Hunk>, spans: seq<Span>, context: nat)
    requires Covers(ops, spans, context, |ops|) && HunksOf(ops, spans, hunks)
    ensures Patch(Olds(ops), 0, 0, hunks) == Some(News(ops)) <==> context > 0 || Anchored(TagsOf(ops))
  {
    hide Patch, Without, Snug, Block, Other;
    PatchesByHeaders(ops, hunks, spans, context);
    if context > 0 {
      forall k | 0 <= k < |spans| ensures HeaderExact(ops, spans[k]) { ContextExact(ops, spans, context, k); }
    } else {
      hide Covers, HunksOf;
      AnchoredExact(ops, spans);
    }
  }

  lemma {:induction false} ContextExact(ops: seq<Op>, spans: seq<Span>, context: nat, k: nat)
    requires Covers(ops, spans, context, |ops|) && context > 0 && k < |spans|
    ensures spans[k].start <= spans[k].end <= |ops| && HeaderExact(ops, spans[k])
  {
    hide Snug;
    assert Placed(ops, spans, context, k);
    if spans[k].start > 0 { assert ops[spans[k].start..spans[k].end][0].0 == ' '; }
  }

  lemma {:induction false} AnchoredExact(ops: seq<Op>, spans: seq<Span>)
    requires Covers(ops, spans, 0, |ops|)
    ensures Anchored(TagsOf(ops))
      <==> forall k :: 0 <= k < |spans| ==> spans[k].start <= spans[k].end <= |ops| && HeaderExact(ops, spans[k])
  {
    hide Covers, Placed, Block, Other, HeaderExact;
    var tags := TagsOf(ops);
    forall k | 0 <= k < |spans|
      ensures spans[k].start <= spans[k].end <= |ops|
      ensures Anchored(tags) ==> HeaderExact(ops, spans[k])
    {
      SpanIsBlock(ops, spans, k);
      BlockBounds(tags, spans[k].start, spans[k].end);
      BlockHeader(ops, spans[k].start, spans[k].end);
    }
    if forall k :: 0 <= k < |spans| ==> HeaderExact(ops, spans[k]) {
      forall s, e | 0 < s && Block(tags, s, e) ensures Other(tags, s, e, '+') && Other(tags, s, e, '-') {
        BlockBounds(tags, s, e);
        var k := BlockIsSpan(ops, spans, s, e);
        BlockHeader(ops, s, e);
      }
    }
  }

  lemma {:induction false} BlockBounds(tags: seq<char>, s: int, e: int)
    requires Block(tags, s, e)
    ensures 0 <= s < e <= |tags|
  {
  }

  lemma {:induction false} LastLines(ops: seq<Op>, p: nat)
    requires p <= |ops| && NoChange(ops, p, |ops|)
    ensures Completes(ops, p, [])
  {
    hide Without;
    assert ops == ops[..p] + ops[p..];
    ConcatLines(ops[..p], ops[p..]);
    KeptRange(ops, p, |ops|);
    KeptSame(ops[p..]);
    assert Olds(ops)[|Olds(ops[..p])|..] == News(ops[p..]);
  }

  lemma {:induction false} KeptRange(ops: seq<Op>, p: nat, s: nat)
    requires p <= s <= |ops| && NoChange(ops, p, s)
    ensures Kept(ops[p..s])
  {
    forall i | 0 <= i < s - p ensures ops[p..s][i].0 == ' ' { assert !Changed(ops, p + i); }
  }

  /** The lines before, in and after a span that follows a gap without changes. */
  lemma {:induction false} SplitAtSpan(ops: seq<Op>, p: nat, s: nat, e: nat)
    requires p <= s <= e <= |ops| && NoChange(ops, p, s)
    ensures Olds(ops[..s]) == Olds(ops[..p]) + Olds(ops[p..s]) && News(ops[..s]) == News(ops[..p]) + Olds(ops[p..s])
    ensures Olds(ops[..e]) == Olds(ops[..s]) + Olds(ops[s..e]) && News(ops[..e]) == News(ops[..s]) + News(ops[s..e])
    ensures Olds(ops) == Olds(ops[..e]) + Olds(ops[e..])
    ensures News(ops[p..]) == Olds(ops[p..s]) + News(ops[s..e]) + News(ops[e..])
  {
    hide Without;
    KeptRange(ops, p, s);
    KeptSame(ops[p..s]);
    assert ops[..s] == ops[..p] + ops[p..s];
    ConcatLines(ops[..p], ops[p..s]);
    assert ops[..e] == ops[..s] + ops[s..e];
    ConcatLines(ops[..s], ops[s..e]);
    assert ops == ops[..e] + ops[e..];
    ConcatLines(ops[..e], ops[e..]);
    assert ops[p..] == ops[p..s] + (ops[s..e] + ops[e..]);
    ConcatLines(ops[p..s], ops[s..e] + ops[e..]);
    ConcatLines(ops[s..e], ops[e..]);
  }

  /** The header of a span's hunk says where it sits: only a hunk with no old (new) lines and some
      before it loses its place, because its start is then written as 0. */
  ghost predicate HeaderExact(ops: seq<Op>, s: Span)
    requires s.start <= s.end <= |ops|
  {
    && (Olds(ops[s.start..s.end]) == [] ==> Olds(ops[..s.start]) == [])
    && (News(ops[s.start..s.end]) == [] ==> News(ops[..s.start]) == [])
  }

  /** A change leaves some old or some new line. */
  lemma {:induction false} NotEmpty(ops: seq<Op>)
    requires ops != []
    ensures Olds(ops) != [] || News(ops) != []
  {
  }

  /** Applying one hunk whose place agrees with its header, then the rest. */
  lemma {:induction false} PatchOne(a: seq<Line>, ai: nat, bi: nat, hunks: seq<Hunk>, at: nat, to: nat, rest: seq<Line>)
    requires hunks != [] && ai <= at && at + hunks[0].aCount <= |a| && bi + (at - ai) == to
    requires var h := hunks[0];
      && at == (if h.aCount == 0 then h.aStart else h.aStart - 1)
      && to == (if h.bCount == 0 then h.bStart else h.bStart - 1)
      && a[at..at + h.aCount] == Olds(h.lines) && h.bCount == |News(h.lines)|
    ensures Patch(a, at + hunks[0].aCount, to + hunks[0].bCount, hunks[1..]) == Some(rest)
      <==> Patch(a, ai, bi, hunks) == Some(a[ai..at] + News(hunks[0].lines) + rest)
  {
    hide Without;
    match Patch(a, at + hunks[0].aCount, to + hunks[0].bCount, hunks[1..])
    case None =>
    case Some(r) =>
      var front := a[ai..at] + News(hunks[0].lines);
      assert (front + r)[|front|..] == r && (front + rest)[|front|..] == rest;
  }

  lemma {:induction false} ExactApplies(ops: seq<Op>, p: nat, s: nat, e: nat, hunks: seq<Hunk>)
    requires p <= s < e <= |ops| && NoChange(ops, p, s) && HeaderExact(ops, Span(s, e))
    requires hunks != [] && hunks[0] == HunkOf(ops, s, e)
    ensures Completes(ops, p, hunks) <==> Completes(ops, e, hunks[1..])
  {
    hide Without, Patch;
    SplitAtSpan(ops, p, s, e);
    var a, ai, at := Olds(ops), |Olds(ops[..p])|, |Olds(ops[..s])|;
    assert a[ai..at] == Olds(ops[p..s]);
    assert a[at..at + |Olds(ops[s..e])|] == Olds(ops[s..e]);
    var bi, to, rest := |News(ops[..p])|, |News(ops[..s])|, News(ops[e..]);
    assert a[ai..at] + News(ops[s..e]) + rest == News(ops[p..]);
    assert at + hunks[0].aCount == |Olds(ops[..e])| && to + hunks[0].bCount == |News(ops[..e])|;
    PatchOne(a, ai, bi, hunks, at, to, rest);
  }

  lemma {:induction false} InexactFails(ops: seq<Op>, p: nat, s: nat, e: nat, hunks: seq<Hunk>)
    requires p <= s < e <= |ops| && NoChange(ops, p, s) && !HeaderExact(ops, Span(s, e))
    requires hunks != [] && hunks[0] == HunkOf(ops, s, e)
    ensures !Completes(ops, p, hunks)
  {
    hide Without;
    SplitAtSpan(ops, p, s, e);
    NotEmpty(ops[s..e]);
  }

  /** One hunk applies, leaving the rest to be applied, exactly when its header is exact. */
  lemma {:induction false} OneHunk(ops: seq<Op>, p: nat, s: nat, e: nat, hunks: seq<Hunk>)
    requires p <= s < e <= |ops| && NoChange(ops, p, s)
    requires hunks != [] && hunks[0] == HunkOf(ops, s, e)
    ensures Completes(ops, p, hunks) <==> HeaderExact(ops, Span(s, e)) && Completes(ops, e, hunks[1..])
  {
    hide Without, Patch, NoChange;
    if HeaderExact(ops, Span(s, e)) {
      ExactApplies(ops, p, s, e, hunks);
    } else {
      InexactFails(ops, p, s, e, hunks);
    }
  }

  /** The deleted and inserted lines that hunks show. */
  function Shown(hunks: seq<Hunk>): nat
  {
    if hunks == [] then 0 else Shown(hunks[..|hunks| - 1]) + Changes(hunks[|hunks| - 1].lines)
  }

  lemma {:induction false} ChangesUpTo(ops: seq<Op>, gap: nat, start: nat, end: nat)
    requires gap <= start <= end <= |ops| && NoChange(ops, gap, start)
    ensures Changes(ops[..end]) == Changes(ops[..gap]) + Changes(ops[start..end])
  {
    var kept := ops[gap..start];
    forall i | 0 <= i < |kept| ensures kept[i].0 == ' ' { assert !Changed(ops, gap + i); }
    NoChanges(kept);
    ChangesConcat(ops[..gap], kept);
    ChangesConcat(ops[..start], ops[start..end]);
    assert ops[..start] == ops[..gap] + kept && ops[..end] == ops[..start] + ops[start..end];
  }

  lemma {:induction false} ShownSoFar(ops: seq<Op>, hunks: seq<Hunk>, spans: seq<Span>, context: nat, k: nat)
    requires Covers(ops, spans, context, |ops|) && HunksOf(ops, spans, hunks) && k <= |spans|
    requires GapStart(spans, k) <= |ops|
    ensures Shown(hunks[..k]) == Changes(ops[..GapStart(spans, k)])
  {
    hide Changes, Snug, Isolated;
    if k == 0 {
      assert ops[..0] == [] && hunks[..0] == [];
      NoChanges([]);
    } else {
      var s := spans[k - 1];
      assert Placed(ops, spans, context, k - 1);
      ShownSoFar(ops, hunks, spans, context, k - 1);
      ChangesUpTo(ops, GapStart(spans, k - 1), s.start, s.end);
      assert hunks[..k][..k - 1] == hunks[..k - 1] && hunks[..k][k - 1] == hunks[k - 1];
    }
  }

  /** The hunks show every deleted and inserted line once, whatever the context. */
  lemma {:induction false} AllShown(ops: seq<Op>, hunks: seq<Hunk>, spans: seq<Span>, context: nat)
    requires Covers(ops, spans, context, |ops|) && HunksOf(ops, spans, hunks)
    ensures Shown(hunks) == Changes(ops)
  {
    hide Changes, Shown, Placed;
    var end := GapStart(spans, |spans|);
    ShownSoFar(ops, hunks, spans, context, |spans|);
    var tail := ops[end..];
    assert Kept(tail) by { forall i | 0 <= i < |tail| ensures tail[i].0 == ' ' { assert !Changed(ops, end + i); } }
    NoChanges(tail);
    ChangesConcat(ops[..end], tail);
    assert ops == ops[..end] + tail && hunks[..|spans|] == hunks;
  }

  /** `to_hunks`: the hunks are those of the exact spans of the replayed script. They show as many changed
      lines as the script has, and they turn `a` into `b` exactly when there is context or the script needs none. */
  method ScriptToHunks(edits: seq<Edit>, a: seq<Line>, b: seq<Line>, context: nat)
    returns (hunks: seq<Hunk>, ghost ops: seq<Op>, ghost spans: seq<Span>)
    requires IsScript(edits, a, b)
    ensures Olds(ops) == a && News(ops) == b && TagsOf(ops) == Tags(edits)
    ensures HunksOf(ops, spans, hunks) && ExactSpans(ops, spans, context, |ops|)
    ensures Shown(hunks) == Cost(edits)
    ensures Patch(a, 0, 0, hunks) == Some(b) <==> context > 0 || Anchored(Tags(edits))
  {
    hide Covers, HunksOf, Patch, Anchored, ExactSpans;
    var replayed := Expand(edits, a, b);
    ops := replayed;
    hunks, spans := ToHunks(replayed, context);
    PatchTheorem(ops, hunks, spans, context);
    AllShown(ops, hunks, spans, context);
  }

  /** A hunk that takes in a further change ends the context from that change, not after it: with one line of
      context the second of two changes has no line after it. */
  lemma {:induction false} ShortTail(x: Line)
    ensures var ops := [('-', x), (' ', x), ('-', x), (' ', x)];
      ExactSpans(ops, [Span(0, 3)], 1, |ops|)
  {
    var ops: seq<Op> := [('-', x), (' ', x), ('-', x), (' ', x)];
    assert FirstChange(ops, 2, 2);
    assert TakesIn(ops, 1, 2, 3);
    assert Extension(ops, 1, 1, [2, 3]);
    assert FirstChange(ops, 0, 0) && Region(ops, 0, 1);
    assert SpanFrom(ops, 0, Span(0, 3), 1, 0, 1, [2, 3]);
    assert ExactSpan(ops, 0, Span(0, 3), 1);
  }

  /** Without context an insertion after a kept line does not apply. */
  lemma {:induction false} LosesItsPlace()
    ensures var edits, ops := [Equal(1), Insert(1)], [(' ', "x"), ('+', "y")];
      && IsScript(edits, ["x"], ["x", "y"]) && TagsOf(ops) == Tags(edits) && !Anchored(Tags(edits))
      && Patch(["x"], 0, 0, [HunkOf(ops, 1, 2)]) == None
  {
    var edits: seq<Edit> := [Equal(1), Insert(1)];
    var ops: seq<Op> := [(' ', "x"), ('+', "y")];
    assert edits[1..] == [Insert(1)] && edits[1..][1..] == [];
    assert IsScript(edits, ["x"], ["x", "y"]) by {
      assert ["x"][1..] == [] && ["x", "y"][1..] == ["y"] && ["y"][1..] == [];
      assert ["x"][..1] == ["x", "y"][..1];
      assert IsScript(edits[1..], [], ["y"]);
    }
    assert Tags(edits) == [' ', '+'] by {
      assert Repeat(' ', 1) == [' '] && Repeat('+', 1) == ['+'];
      assert Tags(edits[1..]) == ['+'];
    }
    assert TagsOf(ops) == [' ', '+'];
    assert Block(Tags(edits), 1, 2) && !Other(Tags(edits), 1, 2, '+');
    assert HunkOf(ops, 1, 2) == Hunk(0, 0, 2, 1, [ops[1]]) by {
      assert ops[1..2] == [ops[1]] && ops[..1] == [ops[0]];
      assert ops[1..2][1..] == [] && ops[..1][1..] == [];
    }
  }
}
