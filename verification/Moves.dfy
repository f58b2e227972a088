/** Which moves a delta reports as renames (src/content.rs). */
module Moves {
  import opened Paths
  import opened Wrappers
  import opened States

  // The pairing runs once over the deleted and the created paths, both in path order, and compares contents. It
  // finds every move when contents come in the same order as paths, and can pass one by when they do not.

  ghost predicate Gone(a: Files, b: Files, p: Path) { p in a && p !in b }

  /** Of two gone paths, the later one does not have the smaller content. */
  ghost predicate ContentsFollowPaths(a: Files, b: Files)
  {
    forall p, q :: Gone(a, b, p) && Gone(a, b, q) && Below(p, q) ==> !KeyBelow(a[q], a[p])
  }

  ghost predicate InKeyOrder(ds: seq<FileDelta>, m: Files)
  {
    (forall d :: d in ds ==> d.path in m)
    && forall i, j :: 0 <= i < j < |ds| ==> !KeyBelow(m[ds[j].path], m[ds[i].path])
  }

  // ---- What pairing leaves ----

  /** Pairing adds nothing but renames. */
  lemma {:induction false} PairedFrom(deletes: seq<FileDelta>, creates: seq<FileDelta>, ds: seq<FileDelta>, a: Files,
        b: Files, d: FileDelta)
    requires (forall e :: e in deletes ==> e.path in a) && forall e :: e in creates ==> e.path in b
    requires d in Paired(deletes, creates, ds, a, b) && !d.kind.Renamed?
    ensures d in ds
    decreases |deletes| + |creates|
  {
    hide KeyBelow, Retain;
    if deletes != [] && creates != [] {
      var del, cre := deletes[0], creates[0];
      var dkey, ckey := a[del.path], b[cre.path];
      if KeyBelow(dkey, ckey) {
        PairedFrom(deletes[1..], creates, ds, a, b, d);
      } else if KeyBelow(ckey, dkey) {
        PairedFrom(deletes, creates[1..], ds, a, b, d);
      } else if del.path == cre.path {
        PairedFrom(deletes[1..], creates[1..], ds, a, b, d);
      } else {
        var once := Retain(ds, del.path, Deleted);
        var ren := FileDelta(cre.path, Renamed(del.path), Some(dkey.blob), Some(ckey.blob));
        PairedFrom(deletes[1..], creates[1..], Retain(once, cre.path, Created) + [ren], a, b, d);
        RetainIn(once, cre.path, Created, d);
        RetainIn(ds, del.path, Deleted, d);
      }
    }
  }

  ghost predicate OneLeft(deletes: seq<FileDelta>, creates: seq<FileDelta>, r: seq<FileDelta>, a: Files, b: Files)
    requires (forall d :: d in deletes ==> d.path in a) && forall d :: d in creates ==> d.path in b
  {
    forall i, j :: 0 <= i < |deletes| && 0 <= j < |creates| && a[deletes[i].path] == b[creates[j].path] ==>
      deletes[i] !in r || creates[j] !in r
  }

  ghost predicate Plain(ds: seq<FileDelta>, kind: DeltaKind) { forall d :: d in ds ==> d.kind == kind }

  /** Where both lists are in content order, no deletion is left beside a creation of the same content. */
  lemma {:induction false} PairedAll(deletes: seq<FileDelta>, creates: seq<FileDelta>, ds: seq<FileDelta>, a: Files,
        b: Files)
    requires InKeyOrder(deletes, a) && InKeyOrder(creates, b) && Plain(deletes, Deleted) && Plain(creates, Created)
    requires forall d, c :: d in deletes && c in creates ==> d.path != c.path
    ensures OneLeft(deletes, creates, Paired(deletes, creates, ds, a, b), a, b)
    decreases |deletes| + |creates|
  {
    hide KeyBelow, Retain;
    if deletes != [] && creates != [] {
      var del, cre := deletes[0], creates[0];
      var dkey, ckey := a[del.path], b[cre.path];
      var r := Paired(deletes, creates, ds, a, b);
      if KeyBelow(dkey, ckey) {
        PairedAll(deletes[1..], creates, ds, a, b);
        forall j | 0 <= j < |creates| ensures b[creates[j].path] != dkey {
          if j > 0 { NotBackBelow(dkey, ckey, b[creates[j].path]); } else { NotBelowItself(dkey); }
        }
        DropDeletion(deletes, creates, r, a, b);
      } else if KeyBelow(ckey, dkey) {
        PairedAll(deletes, creates[1..], ds, a, b);
        forall i | 0 <= i < |deletes| ensures a[deletes[i].path] != ckey {
          if i > 0 { NotBackBelow(ckey, dkey, a[deletes[i].path]); } else { NotBelowItself(ckey); }
        }
        DropCreation(deletes, creates, r, a, b);
      } else {
        var once := Retain(ds, del.path, Deleted);
        var ren := FileDelta(cre.path, Renamed(del.path), Some(dkey.blob), Some(ckey.blob));
        var left := Retain(once, cre.path, Created) + [ren];
        PairedAll(deletes[1..], creates[1..], left, a, b);
        NotLeft(deletes[1..], creates[1..], ds, del, cre, ren, a, b);
        DropBoth(deletes, creates, r, a, b);
      }
    }
  }

  /** What follows the larger of two contents is not the smaller one. */
  lemma {:induction false} NotBackBelow(k: Entry, l: Entry, m: Entry)
    requires KeyBelow(k, l) && !KeyBelow(m, l)
    ensures m != k
  {
  }

  lemma {:induction false} DropDeletion(deletes: seq<FileDelta>, creates: seq<FileDelta>, r: seq<FileDelta>, a: Files,
        b: Files)
    requires (forall d :: d in deletes ==> d.path in a) && forall d :: d in creates ==> d.path in b
    requires deletes != [] && OneLeft(deletes[1..], creates, r, a, b)
    requires forall j :: 0 <= j < |creates| ==> b[creates[j].path] != a[deletes[0].path]
    ensures OneLeft(deletes, creates, r, a, b)
  {
    assert forall i :: 0 < i < |deletes| ==> deletes[i] == deletes[1..][i - 1];
  }

  lemma {:induction false} DropCreation(deletes: seq<FileDelta>, creates: seq<FileDelta>, r: seq<FileDelta>, a: Files,
        b: Files)
    requires (forall d :: d in deletes ==> d.path in a) && forall d :: d in creates ==> d.path in b
    requires creates != [] && OneLeft(deletes, creates[1..], r, a, b)
    requires forall i :: 0 <= i < |deletes| ==> a[deletes[i].path] != b[creates[0].path]
    ensures OneLeft(deletes, creates, r, a, b)
  {
    assert forall j :: 0 < j < |creates| ==> creates[j] == creates[1..][j - 1];
  }

  lemma {:induction false} DropBoth(deletes: seq<FileDelta>, creates: seq<FileDelta>, r: seq<FileDelta>, a: Files,
        b: Files)
    requires (forall d :: d in deletes ==> d.path in a) && forall d :: d in creates ==> d.path in b
    requires deletes != [] && creates != [] && OneLeft(deletes[1..], creates[1..], r, a, b)
    requires deletes[0] !in r && creates[0] !in r
    ensures OneLeft(deletes, creates, r, a, b)
  {
    assert forall i :: 0 < i < |deletes| ==> deletes[i] == deletes[1..][i - 1];
    assert forall j :: 0 < j < |creates| ==> creates[j] == creates[1..][j - 1];
  }

  /** A paired deletion and creation are gone. */
  lemma {:induction false} NotLeft(deletes: seq<FileDelta>, creates: seq<FileDelta>, ds: seq<FileDelta>, del: FileDelta,
        cre: FileDelta, ren: FileDelta, a: Files, b: Files)
    requires (forall d :: d in deletes ==> d.path in a) && forall d :: d in creates ==> d.path in b
    requires del.kind == Deleted && cre.kind == Created && ren.kind.Renamed?
    ensures var left := Retain(Retain(ds, del.path, Deleted), cre.path, Created) + [ren];
      del !in Paired(deletes, creates, left, a, b) && cre !in Paired(deletes, creates, left, a, b)
  {
    hide Paired, Retain;
    var once := Retain(ds, del.path, Deleted);
    var left := Retain(once, cre.path, Created) + [ren];
    RetainIn(ds, del.path, Deleted, del);
    RetainIn(once, cre.path, Created, del);
    RetainIn(once, cre.path, Created, cre);
    if del in Paired(deletes, creates, left, a, b) { PairedFrom(deletes, creates, left, a, b, del); }
    if cre in Paired(deletes, creates, left, a, b) { PairedFrom(deletes, creates, left, a, b, cre); }
  }

  // ---- The order of the lists ----

  ghost predicate Rises(ds: seq<FileDelta>) { forall i, j :: 0 <= i < j < |ds| ==> Below(ds[i].path, ds[j].path) }

  lemma {:induction false} PlainRises(paths: seq<Path>, a: Files, b: Files)
    requires Ascending(paths)
    ensures Rises(PlainOf(paths, a, b)) && forall d :: d in PlainOf(paths, a, b) ==> d.path in paths
  {
    hide Below, DeltaAt, Rises;
    if paths == [] {
      NoneRise();
    } else {
      PlainRises(paths[1..], a, b);
      var d := DeltaAt(a, b, paths[0]);
      if d.Some? {
        assert d.value.path == paths[0] by { DeltaPath(a, b, paths[0]); }
        assert forall p :: p in paths[1..] ==> Below(paths[0], p);
        RisesAfter(d.value, PlainOf(paths[1..], a, b));
      } else {
        assert PlainOf(paths, a, b) == PlainOf(paths[1..], a, b);
      }
    }
  }

  lemma {:induction false} DeltaPath(a: Files, b: Files, p: Path)
    ensures DeltaAt(a, b, p).Some? ==> DeltaAt(a, b, p).value.path == p
  {
  }

  lemma {:induction false} NoneRise()
    ensures Rises([])
  {
  }

  lemma {:induction false} RisesAfter(d: FileDelta, ds: seq<FileDelta>)
    requires Rises(ds) && forall e :: e in ds ==> Below(d.path, e.path)
    ensures Rises([d] + ds)
  {
    hide Below;
  }

  lemma {:induction false} RisesOn(ds: seq<FileDelta>)
    requires ds != [] && Rises(ds)
    ensures Rises(ds[1..]) && forall e :: e in ds[1..] ==> Below(ds[0].path, e.path)
  {
    hide Below;
    forall e | e in ds[1..] ensures Below(ds[0].path, e.path) {
      var k :| 0 <= k < |ds| - 1 && ds[1..][k] == e;
      assert ds[k + 1] == e;
    }
  }

  lemma {:induction false} OfKindRises(ds: seq<FileDelta>, kind: DeltaKind)
    requires Rises(ds)
    ensures Rises(OfKind(ds, kind)) && forall d :: d in OfKind(ds, kind) ==> d in ds
  {
    hide Below, Rises;
    if ds == [] {
      NoneRise();
    } else {
      RisesOn(ds);
      OfKindRises(ds[1..], kind);
      if ds[0].kind == kind {
        RisesAfter(ds[0], OfKind(ds[1..], kind));
      } else {
        assert OfKind(ds, kind) == OfKind(ds[1..], kind);
      }
    }
  }

  /** The lists the pairing runs over: the gone paths and the new ones, each in path order. */
  lemma {:induction false} Lists(a: Files, b: Files, plain: seq<FileDelta>)
    requires plain == PlainOf(Sorted(a.Keys + b.Keys), a, b)
    ensures Describes(plain, a, b) && Rises(OfKind(plain, Deleted)) && Rises(OfKind(plain, Created))
    ensures forall d :: d in OfKind(plain, Deleted) ==> d in plain && d.kind == Deleted && Gone(a, b, d.path)
    ensures forall d :: d in OfKind(plain, Created) ==> d in plain && d.kind == Created && Gone(b, a, d.path)
  {
    hide Sorted, Below, DeltaAt, PlainOf, OfKind, Describes, Rises;
    PlainDescribes(a, b);
    PlainSound(Sorted(a.Keys + b.Keys), a, b);
    OfKindKeyed(plain, a, b);
    PlainRises(Sorted(a.Keys + b.Keys), a, b);
    OfKindRises(plain, Deleted);
    OfKindRises(plain, Created);
  }

  lemma {:induction false} FollowsInOrder(ds: seq<FileDelta>, a: Files, b: Files)
    requires Rises(ds) && ContentsFollowPaths(a, b) && forall d :: d in ds ==> Gone(a, b, d.path)
    ensures InKeyOrder(ds, a)
  {
    hide Below, KeyBelow;
  }

  ghost function Deletion(a: Files, p: Path): FileDelta
    requires p in a
  {
    FileDelta(p, Deleted, Some(a[p].blob), None)
  }

  ghost function Creation(b: Files, q: Path): FileDelta
    requires q in b
  {
    FileDelta(q, Created, None, Some(b[q].blob))
  }

  /** When contents come in the order of paths on both sides, every move is found: no path stays deleted while
      another stays created with the same content. */
  lemma {:induction false} MovesFound(a: Files, b: Files, p: Path, q: Path)
    requires ContentsFollowPaths(a, b) && ContentsFollowPaths(b, a)
    requires Gone(a, b, p) && Gone(b, a, q) && a[p] == b[q]
    ensures Deletion(a, p) !in DeltasOf(a, b) || Creation(b, q) !in DeltasOf(a, b)
  {
    hide Sorted, Below, KeyBelow, PlainOf, OfKind, Paired, SortByPath, Describes, ContentsFollowPaths, Rises;
    var paths := Sorted(a.Keys + b.Keys);
    var plain := PlainOf(paths, a, b);
    Lists(a, b, plain);
    var deletes, creates := OfKind(plain, Deleted), OfKind(plain, Created);
    FollowsInOrder(deletes, a, b);
    FollowsInOrder(creates, b, a);
    PairedAll(deletes, creates, plain, a, b);
    Listed(a, b, p, q, plain);
    var i :| 0 <= i < |deletes| && deletes[i] == Deletion(a, p);
    var j :| 0 <= j < |creates| && creates[j] == Creation(b, q);
    SortKeeps(Paired(deletes, creates, plain, a, b), p);
  }

  lemma {:induction false} Listed(a: Files, b: Files, p: Path, q: Path, plain: seq<FileDelta>)
    requires plain == PlainOf(Sorted(a.Keys + b.Keys), a, b) && Gone(a, b, p) && Gone(b, a, q)
    ensures Deletion(a, p) in OfKind(plain, Deleted) && Creation(b, q) in OfKind(plain, Created)
  {
    hide Sorted, PlainOf, OfKind;
    var paths := Sorted(a.Keys + b.Keys);
    PlainHas(paths, a, b, p);
    PlainHas(paths, a, b, q);
    OfKindHas(plain, Deleted, Deletion(a, p));
    OfKindHas(plain, Created, Creation(b, q));
  }

  /** A move can be passed by. Two paths are gone, the later one reappears elsewhere with its content, and the
      earlier one had a content of a larger mode: the pairing drops the new path before it reaches the move, and
      reports a deletion and a creation. */
  lemma {:induction false} MoveMissed(p: Path, p': Path, q: Path, k: Entry, l: Entry)
    requires Below(p, p') && q != p && q != p' && l.mode < k.mode
    ensures var a: Files, b: Files := map[p := k, p' := l], map[q := l];
      && p != p' && Gone(a, b, p') && Gone(b, a, q) && a[p'] == b[q]
      && Deletion(a, p') in DeltasOf(a, b) && Creation(b, q) in DeltasOf(a, b)
  {
    hide Sorted, Below, PlainOf, OfKind, SortByPath, Describes, DeltaAt;
    BelowTotal(p, p');
    var a: Files, b: Files := map[p := k, p' := l], map[q := l];
    var plain := PlainOf(Sorted(a.Keys + b.Keys), a, b);
    assert p != p' && a[p] == k && a[p'] == l && Gone(a, b, p) && Gone(a, b, p') && Gone(b, a, q);
    Lists(a, b, plain);
    Listed(a, b, p, q, plain);
    Listed(a, b, p', q, plain);
    var deletes, creates := OfKind(plain, Deleted), OfKind(plain, Created);
    FirstOf(deletes, p, p');
    OnlyCreation(a, b, q, plain);
    assert a[deletes[0].path] == k && creates == [Creation(b, q)];
    assert creates[1..] == [];
    assert Paired(deletes, [], plain, a, b) == plain;
    assert Paired(deletes, creates, plain, a, b) == plain;
    SortKeeps(plain, p);
  }

  lemma {:induction false} FirstOf(ds: seq<FileDelta>, p: Path, p': Path)
    requires Rises(ds) && Below(p, p') && (forall d :: d in ds ==> d.path == p || d.path == p')
    requires exists d :: d in ds && d.path == p
    ensures ds != [] && ds[0].path == p
  {
    hide Below;
    BelowTotal(p, p');
    var d :| d in ds && d.path == p;
    var i :| 0 <= i < |ds| && ds[i] == d;
    if i > 0 { assert Below(ds[0].path, ds[i].path); }
  }

  lemma {:induction false} OnlyCreation(a: Files, b: Files, q: Path, plain: seq<FileDelta>)
    requires plain == PlainOf(Sorted(a.Keys + b.Keys), a, b) && b.Keys == {q} && q !in a
    ensures OfKind(plain, Created) == [Creation(b, q)]
  {
    hide Sorted, Below, PlainOf, OfKind, DeltaAt, Describes;
    Lists(a, b, plain);
    OnlyListed(a, b, q, plain);
    forall e | e in plain && e.kind == Created ensures e.path == q {
      OfKindHas(plain, Created, e);
      assert Gone(b, a, e.path);
    }
    OnlyOne(plain, Created, Creation(b, q), a, b);
  }

  lemma {:induction false} OnlyListed(a: Files, b: Files, q: Path, plain: seq<FileDelta>)
    requires plain == PlainOf(Sorted(a.Keys + b.Keys), a, b) && Gone(b, a, q)
    ensures Creation(b, q) in plain
  {
    hide Sorted, PlainOf;
    PlainHas(Sorted(a.Keys + b.Keys), a, b, q);
  }

  // ---- Renames never cross ----

  ghost predicate SourceIn(deletes: seq<FileDelta>, r: FileDelta)
  {
    r.kind.Renamed? && exists d :: d in deletes && d.path == r.kind.from
  }

  ghost predicate TargetIn(creates: seq<FileDelta>, r: FileDelta) { exists c :: c in creates && c.path == r.path }

  /** Two renames go the same way in path order. */
  ghost predicate SameWay(r: FileDelta, s: FileDelta)
  {
    r.kind.Renamed? && s.kind.Renamed? ==> (Below(r.kind.from, s.kind.from) <==> Below(r.path, s.path))
  }

  ghost predicate Uncrossed(r: seq<FileDelta>, ds: seq<FileDelta>)
  {
    forall x, y :: x in r && y in r && x !in ds && y !in ds ==> SameWay(x, y)
  }

  ghost predicate Between(r: seq<FileDelta>, ds: seq<FileDelta>, deletes: seq<FileDelta>, creates: seq<FileDelta>)
  {
    forall x :: x in r && x !in ds ==> SourceIn(deletes, x) && TargetIn(creates, x)
  }

  /** The renames that pairing adds are between the two lists, and no two cross. */
  lemma {:induction false} PairedUncrossed(deletes: seq<FileDelta>, creates: seq<FileDelta>, ds: seq<FileDelta>,
        a: Files, b: Files)
    requires (forall d :: d in deletes ==> d.path in a) && forall c :: c in creates ==> c.path in b
    requires Rises(deletes) && Rises(creates)
    ensures Between(Paired(deletes, creates, ds, a, b), ds, deletes, creates)
    ensures Uncrossed(Paired(deletes, creates, ds, a, b), ds)
    decreases |deletes| + |creates|
  {
    hide KeyBelow, Retain, Rises, Below, SourceIn, TargetIn, SameWay, Between, Uncrossed;
    if deletes == [] || creates == [] {
      NothingAdded(ds, deletes, creates);
    } else {
      var del, cre := deletes[0], creates[0];
      var dkey, ckey := a[del.path], b[cre.path];
      var r := Paired(deletes, creates, ds, a, b);
      RisesOn(deletes);
      RisesOn(creates);
      if KeyBelow(dkey, ckey) {
        PairedUncrossed(deletes[1..], creates, ds, a, b);
        BetweenMore(r, ds, deletes[1..], creates, deletes, creates);
      } else if KeyBelow(ckey, dkey) {
        PairedUncrossed(deletes, creates[1..], ds, a, b);
        BetweenMore(r, ds, deletes, creates[1..], deletes, creates);
      } else if del.path == cre.path {
        PairedUncrossed(deletes[1..], creates[1..], ds, a, b);
        BetweenMore(r, ds, deletes[1..], creates[1..], deletes, creates);
      } else {
        var ren := FileDelta(cre.path, Renamed(del.path), Some(dkey.blob), Some(ckey.blob));
        var left := Retain(Retain(ds, del.path, Deleted), cre.path, Created) + [ren];
        PairedUncrossed(deletes[1..], creates[1..], left, a, b);
        RenameUncrossed(deletes, creates, ds, left, ren, r);
      }
    }
  }

  lemma {:induction false} NothingAdded(ds: seq<FileDelta>, deletes: seq<FileDelta>, creates: seq<FileDelta>)
    ensures Between(ds, ds, deletes, creates) && Uncrossed(ds, ds)
  {
  }

  lemma {:induction false} BetweenMore(r: seq<FileDelta>, ds: seq<FileDelta>, deletes: seq<FileDelta>,
        creates: seq<FileDelta>, deletes': seq<FileDelta>, creates': seq<FileDelta>)
    requires Between(r, ds, deletes, creates)
    requires (forall d :: d in deletes ==> d in deletes') && forall c :: c in creates ==> c in creates'
    ensures Between(r, ds, deletes', creates')
  {
  }

  lemma {:induction false} RenameUncrossed(deletes: seq<FileDelta>, creates: seq<FileDelta>, ds: seq<FileDelta>,
        left: seq<FileDelta>, ren: FileDelta, r: seq<FileDelta>)
    requires deletes != [] && creates != []
    requires forall d :: d in deletes[1..] ==> Below(deletes[0].path, d.path)
    requires forall c :: c in creates[1..] ==> Below(creates[0].path, c.path)
    requires ren.path == creates[0].path && ren.kind == Renamed(deletes[0].path)
    requires left == Retain(Retain(ds, deletes[0].path, Deleted), creates[0].path, Created) + [ren]
    requires Between(r, left, deletes[1..], creates[1..]) && Uncrossed(r, left)
    ensures Between(r, ds, deletes, creates) && Uncrossed(r, ds)
  {
    hide Below, Retain, SameWay;
    forall x | x in r && x !in ds ensures x == ren || x !in left {
      LeftFrom(ds, deletes[0].path, creates[0].path, ren, x);
    }
    assert SourceIn(deletes, ren) && TargetIn(creates, ren) by {
      assert deletes[0] in deletes && creates[0] in creates;
    }
    forall x, y | x in r && y in r && x !in ds && y !in ds ensures SameWay(x, y) {
      if x == ren && y == ren {
        SameWayItself(x);
      } else if x == ren {
        FirstSameWay(deletes, creates, ren, y);
      } else if y == ren {
        FirstSameWay(deletes, creates, ren, x);
      }
    }
  }

  lemma {:induction false} LeftFrom(ds: seq<FileDelta>, p: Path, q: Path, ren: FileDelta, x: FileDelta)
    ensures x in Retain(Retain(ds, p, Deleted), q, Created) + [ren] ==> x == ren || x in ds
  {
    hide Retain;
    RetainIn(Retain(ds, p, Deleted), q, Created, x);
    RetainIn(ds, p, Deleted, x);
  }

  lemma {:induction false} SameWayItself(x: FileDelta)
    ensures SameWay(x, x)
  {
    if x.kind.Renamed? {
      BelowTotal(x.kind.from, x.kind.from);
      BelowTotal(x.path, x.path);
    }
  }

  /** The rename of the first of both lists comes before every later one on both sides. */
  lemma {:induction false} FirstSameWay(deletes: seq<FileDelta>, creates: seq<FileDelta>, ren: FileDelta, x: FileDelta)
    requires deletes != [] && creates != [] && ren.path == creates[0].path && ren.kind == Renamed(deletes[0].path)
    requires forall d :: d in deletes[1..] ==> Below(deletes[0].path, d.path)
    requires forall c :: c in creates[1..] ==> Below(creates[0].path, c.path)
    requires SourceIn(deletes[1..], x) && TargetIn(creates[1..], x)
    ensures SameWay(ren, x) && SameWay(x, ren)
  {
    hide Below;
    BelowTotal(ren.kind.from, x.kind.from);
    BelowTotal(ren.path, x.path);
  }

  /** Renames never cross: of two, the one whose source comes first in path order has the target that does. */
  lemma {:induction false} NeverCross(a: Files, b: Files, r: FileDelta, s: FileDelta)
    requires r in DeltasOf(a, b) && s in DeltasOf(a, b) && r.kind.Renamed? && s.kind.Renamed?
    ensures Below(r.kind.from, s.kind.from) <==> Below(r.path, s.path)
  {
    hide Sorted, Below, KeyBelow, PlainOf, OfKind, Paired, SortByPath, Describes, Rises;
    var plain := PlainOf(Sorted(a.Keys + b.Keys), a, b);
    Lists(a, b, plain);
    PlainKinds(Sorted(a.Keys + b.Keys), a, b);
    var deletes, creates := OfKind(plain, Deleted), OfKind(plain, Created);
    PairedUncrossed(deletes, creates, plain, a, b);
    SortKeeps(Paired(deletes, creates, plain, a, b), r.path);
    assert SameWay(r, s);
  }

  lemma {:induction false} PlainKinds(paths: seq<Path>, a: Files, b: Files)
    ensures forall d :: d in PlainOf(paths, a, b) ==> !d.kind.Renamed?
  {
    if paths != [] { PlainKinds(paths[1..], a, b); }
  }
}
