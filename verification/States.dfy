/** File-level deltas (src/content.rs). */
module States {
  import opened Varint
  import opened Paths
  import opened Wrappers
  import opened Objects

  // `diff_states`, and what applying its deltas yields.

  type Path = seq<byte>

  datatype Entry = Entry(mode: u64, blob: Gid)

  /** A flattened state. */
  type Files = map<Path, Entry>

  datatype DeltaKind = Created | Deleted | Modified | Renamed(from: Path)

  datatype FileDelta = FileDelta(path: Path, kind: DeltaKind, oldBlob: Option<Gid>, newBlob: Option<Gid>)

  function Get(m: Files, p: Path): Option<Entry>
  {
    if p in m then Some(m[p]) else None
  }

  /** The paths on which two states disagree. */
  function Differing(a: Files, b: Files): set<Path>
  {
    set p | p in a.Keys + b.Keys && Get(a, p) != Get(b, p)
  }

  // ---- What a list of deltas says ----

  /** How often a delta names a path: as its own, or as the source of a rename. */
  ghost function NamesOf(d: FileDelta, p: Path): nat
  {
    (if d.path == p then 1 else 0) + (if d.kind.Renamed? && d.kind.from == p then 1 else 0)
  }

  ghost function Names(ds: seq<FileDelta>, p: Path): nat
  {
    if ds == [] then 0 else NamesOf(ds[0], p) + Names(ds[1..], p)
  }

  /** A delta tells the truth about two states; a rename keeps mode and blob. */
  ghost predicate Sound(d: FileDelta, a: Files, b: Files)
  {
    match d.kind
    case Created => d.path !in a && d.path in b && d.oldBlob == None && d.newBlob == Some(b[d.path].blob)
    case Deleted => d.path in a && d.path !in b && d.oldBlob == Some(a[d.path].blob) && d.newBlob == None
    case Modified => d.path in a && d.path in b && a[d.path] != b[d.path]
                     && d.oldBlob == Some(a[d.path].blob) && d.newBlob == Some(b[d.path].blob)
    case Renamed(from) => d.path !in a && d.path in b && from in a && from !in b && a[from] == b[d.path]
                          && d.oldBlob == Some(a[from].blob) && d.newBlob == Some(b[d.path].blob)
  }

  ghost predicate AllSound(ds: seq<FileDelta>, a: Files, b: Files)
  {
    forall d :: d in ds ==> Sound(d, a, b)
  }

  /** Every path of a set is named exactly once, and no other path is. */
  ghost predicate NamedOnce(ds: seq<FileDelta>, paths: set<Path>)
  {
    forall p :: Names(ds, p) == if p in paths then 1 else 0
  }

  /** Every delta is sound and exactly the differing paths are named, once each. */
  ghost predicate Describes(ds: seq<FileDelta>, a: Files, b: Files)
  {
    AllSound(ds, a, b) && NamedOnce(ds, Differing(a, b))
  }

  lemma {:induction false} NamesPush(ds: seq<FileDelta>, d: FileDelta, p: Path)
    ensures Names(ds + [d], p) == Names(ds, p) + NamesOf(d, p)
  {
    if ds == [] {
      assert ds + [d] == [d] && [d][1..] == [];
    } else {
      NamesPush(ds[1..], d, p);
      assert (ds + [d])[1..] == ds[1..] + [d] && (ds + [d])[0] == ds[0];
    }
  }

  lemma {:induction false} NamesAt(ds: seq<FileDelta>, d: FileDelta, p: Path)
    requires d in ds
    ensures Names(ds, p) >= NamesOf(d, p)
  {
    if ds[0] != d { NamesAt(ds[1..], d, p); }
  }

  // ---- Applying deltas ----

  const DEFAULT_MODE: u64 := 33188  // 0o100644

  /** One delta folded into a file map, with modes taken from the output state (src/reconcile.rs). */
  function ApplyDelta(m: Files, d: FileDelta, out: Files): Files
  {
    var mode := if d.path in out then out[d.path].mode else DEFAULT_MODE;
    match d.kind
    case Created => if d.newBlob.Some? then m[d.path := Entry(mode, d.newBlob.value)] else m
    case Modified => if d.newBlob.Some? then m[d.path := Entry(mode, d.newBlob.value)] else m
    case Deleted => m - {d.path}
    case Renamed(from) =>
      if d.oldBlob.Some? && d.newBlob.Some? then (m - {from})[d.path := Entry(mode, d.newBlob.value)] else m
  }

  function ApplyAll(m: Files, ds: seq<FileDelta>, out: Files): Files
    decreases |ds|
  {
    if ds == [] then m else ApplyAll(ApplyDelta(m, ds[0], out), ds[1..], out)
  }

  /** Applying sound deltas sets every named path to what the output state has and leaves the rest alone. */
  lemma {:induction false} Applied(m: Files, ds: seq<FileDelta>, a: Files, b: Files, p: Path)
    requires AllSound(ds, a, b)
    ensures Get(ApplyAll(m, ds, b), p) == if Names(ds, p) > 0 then Get(b, p) else Get(m, p)
    decreases |ds|
  {
    if ds != [] {
      assert Sound(ds[0], a, b);
      assert forall d :: d in ds[1..] ==> d in ds;
      Applied(ApplyDelta(m, ds[0], b), ds[1..], a, b, p);
    }
  }

  /** A file map with the differences between two states laid over it. */
  function Overlay(m: Files, a: Files, b: Files): Files
  {
    map p | p in m.Keys + b.Keys && (if p in Differing(a, b) then p in b else p in m)
      :: if p in Differing(a, b) then b[p] else m[p]
  }

  lemma {:induction false} SameFiles(m: Files, m': Files)
    requires forall p :: Get(m, p) == Get(m', p)
    ensures m == m'
  {
    forall p ensures p in m <==> p in m' { assert Get(m, p) == Get(m', p); }
    forall p | p in m ensures m[p] == m'[p] { assert Get(m, p) == Get(m', p); }
  }

  /** Deltas that describe the way from `a` to `b` overlay that way on any file map; in particular
      they take `a` itself to `b`. */
  lemma {:induction false} DescribedOverlay(m: Files, ds: seq<FileDelta>, a: Files, b: Files)
    requires Describes(ds, a, b)
    ensures ApplyAll(m, ds, b) == Overlay(m, a, b)
    ensures ApplyAll(a, ds, b) == b
  {
    forall p ensures Get(ApplyAll(m, ds, b), p) == Get(Overlay(m, a, b), p) {
      Applied(m, ds, a, b, p);
    }
    SameFiles(ApplyAll(m, ds, b), Overlay(m, a, b));
    forall p ensures Get(ApplyAll(a, ds, b), p) == Get(b, p) {
      Applied(a, ds, a, b, p);
    }
    SameFiles(ApplyAll(a, ds, b), b);
  }

  // ---- Computing the deltas ----

  /** The elements of a set of paths in byte order. */
  method SortedPaths(paths: set<Path>) returns (sorted: seq<Path>)
    ensures sorted == Sorted(paths)
  {
    sorted := [];
    hide Below, Sorted, IsLeast;
    var rest := paths;
    assert Sorted({}) == [] by { SortedNone(); }
    while rest != {}
      invariant sorted + Sorted(rest) == Sorted(paths)
      decreases rest
    {
      var p := Least(rest);
      SortedFrom(rest, p);
      assert sorted + [p] + Sorted(rest - {p}) == sorted + ([p] + Sorted(rest - {p}));
      assert p in rest;
      sorted := sorted + [p];
      rest := rest - {p};
    }
  }

  lemma {:induction false} SortedNone()
    ensures Sorted({}) == []
  {
  }

  method Least(paths: set<Path>) returns (least: Path)
    requires paths != {}
    ensures IsLeast(paths, least)
  {
    least :| least in paths;
    var rest := paths - {least};
    while rest != {}
      invariant least in paths && least !in rest && rest <= paths
      invariant IsLeast(paths - rest, least)
      decreases rest
    {
      var p :| p in rest;
      BelowTotal(p, least);
      if Below(p, least) {
        forall q | q in paths - rest && q != least ensures Below(p, q) { BelowTransitive(p, least, q); }
        least := p;
      }
      rest := rest - {p};
    }
  }

  function DeltaAt(a: Files, b: Files, p: Path): Option<FileDelta>
  {
    match (Get(a, p), Get(b, p))
    case (Some(ta), Some(tb)) => if ta != tb then Some(FileDelta(p, Modified, Some(ta.blob), Some(tb.blob))) else None
    case (Some(ta), None) => Some(FileDelta(p, Deleted, Some(ta.blob), None))
    case (None, Some(tb)) => Some(FileDelta(p, Created, None, Some(tb.blob)))
    case (None, None) => None
  }

  lemma {:induction false} DeltaSound(a: Files, b: Files, p: Path)
    ensures DeltaAt(a, b, p).Some? <==> p in Differing(a, b)
    ensures DeltaAt(a, b, p).Some? ==>
        var d := DeltaAt(a, b, p).value; Sound(d, a, b) && d.path == p && !d.kind.Renamed?
  {
  }

  function PlainOf(paths: seq<Path>, a: Files, b: Files): seq<FileDelta>
  {
    if paths == [] then []
    else (if DeltaAt(a, b, paths[0]).Some? then [DeltaAt(a, b, paths[0]).value] else []) + PlainOf(paths[1..], a, b)
  }

  lemma {:induction false} PlainSound(paths: seq<Path>, a: Files, b: Files)
    ensures AllSound(PlainOf(paths, a, b), a, b)
  {
    hide Sound, DeltaAt;
    if paths != [] {
      DeltaSound(a, b, paths[0]);
      PlainSound(paths[1..], a, b);
    }
  }

  lemma {:induction false} PlainNext(paths: seq<Path>, i: nat, deltas: seq<FileDelta>, a: Files, b: Files)
    requires i < |paths|
    ensures var d := DeltaAt(a, b, paths[i]);
      deltas + PlainOf(paths[i..], a, b)
          == (if d.Some? then deltas + [d.value] else deltas) + PlainOf(paths[i + 1..], a, b)
  {
    hide DeltaAt;
    assert paths[i..][0] == paths[i] && paths[i..][1..] == paths[i + 1..];
  }

  lemma {:induction false} PlainEnds(paths: seq<Path>, deltas: seq<FileDelta>, a: Files, b: Files)
    ensures [] + PlainOf(paths[0..], a, b) == PlainOf(paths, a, b) && deltas + PlainOf(paths[|paths|..], a, b) == deltas
  {
    assert paths[0..] == paths;
  }

  lemma {:induction false} PlainDescribes(a: Files, b: Files)
    ensures Describes(PlainOf(Sorted(a.Keys + b.Keys), a, b), a, b)
  {
    hide Sorted, PlainOf;
    var paths := Sorted(a.Keys + b.Keys);
    PlainSound(paths, a, b);
    forall p ensures Names(PlainOf(paths, a, b), p) == if p in Differing(a, b) then 1 else 0 {
      PlainNames(paths, a, b, p);
    }
  }

  lemma {:induction false} PlainNames(paths: seq<Path>, a: Files, b: Files, p: Path)
    requires Ascending(paths)
    ensures Names(PlainOf(paths, a, b), p) == if p in paths && p in Differing(a, b) then 1 else 0
  {
    hide Below, DeltaAt, Differing;
    if paths != [] {
      var rest := PlainOf(paths[1..], a, b);
      DeltaSound(a, b, paths[0]);
      PlainNames(paths[1..], a, b, p);
      assert paths[0] !in paths[1..] by { FirstOnce(paths); }
      var d := DeltaAt(a, b, paths[0]);
      assert d.Some? ==> PlainOf(paths, a, b)[1..] == rest;
      assert d.None? ==> PlainOf(paths, a, b) == rest;
    }
  }

  lemma {:induction false} FirstOnce(paths: seq<Path>)
    requires Ascending(paths) && paths != []
    ensures paths[0] !in paths[1..]
  {
    BelowTotal(paths[0], paths[0]);
    forall j | 0 <= j < |paths| - 1 ensures paths[1..][j] != paths[0] { assert Below(paths[0], paths[j + 1]); }
  }

  /** One created, deleted or modified delta per differing path, in path order. */
  method PlainDeltas(a: Files, b: Files) returns (deltas: seq<FileDelta>)
    ensures deltas == PlainOf(Sorted(a.Keys + b.Keys), a, b) && Describes(deltas, a, b)
  {
    hide Sorted, Below, DeltaAt, PlainOf, Describes;
    var paths := SortedPaths(a.Keys + b.Keys);
    deltas := [];
    PlainEnds(paths, [], a, b);
    for i := 0 to |paths|
      invariant deltas + PlainOf(paths[i..], a, b) == PlainOf(paths, a, b)
    {
      PlainNext(paths, i, deltas, a, b);
      var d := DeltaAt(a, b, paths[i]);
      if d.Some? {
        deltas := deltas + [d.value];
      }
    }
    PlainEnds(paths, deltas, a, b);
    PlainDescribes(a, b);
  }

  /** The order of (mode, blob) keys. */
  predicate KeyBelow(k: Entry, l: Entry)
  {
    k.mode < l.mode || (k.mode == l.mode && (k.blob.family < l.blob.family
      || (k.blob.family == l.blob.family && Below(k.blob.digest, l.blob.digest))))
  }

  /** The deltas other than those of this kind at this path. */
  function Retain(ds: seq<FileDelta>, p: Path, kind: DeltaKind): seq<FileDelta>
  {
    if ds == [] then []
    else (if ds[0].path == p && ds[0].kind == kind then [] else [ds[0]]) + Retain(ds[1..], p, kind)
  }

  lemma {:induction false} RetainIn(ds: seq<FileDelta>, p: Path, kind: DeltaKind, d: FileDelta)
    ensures d in Retain(ds, p, kind) <==> d in ds && !(d.path == p && d.kind == kind)
  {
    if ds != [] { RetainIn(ds[1..], p, kind, d); }
  }

  lemma {:induction false} RetainAll(ds: seq<FileDelta>, p: Path, kind: DeltaKind)
    requires forall d :: d in ds ==> !(d.path == p && d.kind == kind)
    ensures Retain(ds, p, kind) == ds
  {
    if ds != [] { RetainAll(ds[1..], p, kind); }
  }

  /** Dropping the one delta of a kind at a path drops exactly its name. */
  lemma {:induction false} RetainNames(ds: seq<FileDelta>, d: FileDelta, p: Path)
    requires d in ds && !d.kind.Renamed? && Names(ds, d.path) == 1
    ensures Names(Retain(ds, d.path, d.kind), p) == Names(ds, p) - if p == d.path then 1 else 0
  {
    var first, rest := ds[0], ds[1..];
    if first.path == d.path && first.kind == d.kind {
      forall e | e in rest ensures !(e.path == d.path && e.kind == d.kind) {
        if e.path == d.path { NamesAt(rest, e, d.path); }
      }
      RetainAll(rest, d.path, d.kind);
      assert Retain(ds, d.path, d.kind) == [] + rest == rest;
    } else {
      NamesAt(rest, d, d.path);
      RetainNames(rest, d, p);
      assert Retain(ds, d.path, d.kind)[1..] == Retain(rest, d.path, d.kind);
    }
  }

  /** Replacing a deleted and a created delta of one content by a rename keeps the description. */
  lemma {:induction false} PairKeeps(ds: seq<FileDelta>, del: FileDelta, cre: FileDelta, a: Files, b: Files)
    requires Describes(ds, a, b) && del in ds && cre in ds
    requires del.kind == Deleted && cre.kind == Created && del.path != cre.path && a[del.path] == b[cre.path]
    ensures var ren := FileDelta(cre.path, Renamed(del.path), del.oldBlob, cre.newBlob);
      Describes(Retain(Retain(ds, del.path, Deleted), cre.path, Created) + [ren], a, b)
  {
    var ren := FileDelta(cre.path, Renamed(del.path), del.oldBlob, cre.newBlob);
    var once := Retain(ds, del.path, Deleted);
    var twice := Retain(once, cre.path, Created);
    assert Sound(del, a, b) && Sound(cre, a, b);
    RetainIn(ds, del.path, Deleted, cre);
    forall p ensures Names(twice + [ren], p) == if p in Differing(a, b) then 1 else 0 {
      PairNames(ds, del, cre, ren, a, b, p);
    }
    forall d | d in twice + [ren] ensures Sound(d, a, b) {
      if d in twice {
        RetainIn(once, cre.path, Created, d);
        RetainIn(ds, del.path, Deleted, d);
      }
    }
  }

  lemma {:induction false} PairNames(ds: seq<FileDelta>, del: FileDelta, cre: FileDelta, ren: FileDelta, a: Files,
        b: Files, p: Path)
    requires NamedOnce(ds, Differing(a, b)) && del in ds && cre in Retain(ds, del.path, Deleted)
    requires del.kind == Deleted && cre.kind == Created && del.path != cre.path
    requires del.path in Differing(a, b) && cre.path in Differing(a, b)
    requires ren.path == cre.path && ren.kind == Renamed(del.path)
    ensures Names(Retain(Retain(ds, del.path, Deleted), cre.path, Created) + [ren], p) == if p in Differing(a, b) then 1
      else 0
  {
    var once := Retain(ds, del.path, Deleted);
    var twice := Retain(once, cre.path, Created);
    assert Names(ds, del.path) == 1 && Names(ds, cre.path) == 1;
    RetainNames(ds, del, p);
    RetainNames(ds, del, cre.path);
    RetainNames(once, cre, p);
    NamesPush(twice, ren, p);
  }

  function OfKind(ds: seq<FileDelta>, kind: DeltaKind): seq<FileDelta>
  {
    if ds == [] then [] else (if ds[0].kind == kind then [ds[0]] else []) + OfKind(ds[1..], kind)
  }

  lemma {:induction false} OfKindIn(ds: seq<FileDelta>, kind: DeltaKind, k: nat)
    requires k < |OfKind(ds, kind)|
    ensures OfKind(ds, kind)[k] in ds && OfKind(ds, kind)[k].kind == kind
  {
    if ds[0].kind == kind {
      if k > 0 { OfKindIn(ds[1..], kind, k - 1); }
    } else {
      OfKindIn(ds[1..], kind, k);
    }
  }

  /** Deltas that name no path twice have distinct paths. */
  lemma {:induction false} OfKindDistinct(ds: seq<FileDelta>, kind: DeltaKind, j: nat, k: nat)
    requires j < k < |OfKind(ds, kind)|
    ensures var p := OfKind(ds, kind)[j].path; p == OfKind(ds, kind)[k].path ==> Names(ds, p) >= 2
  {
    var rest := OfKind(ds[1..], kind);
    if ds[0].kind != kind {
      OfKindDistinct(ds[1..], kind, j, k);
    } else if j > 0 {
      OfKindDistinct(ds[1..], kind, j - 1, k - 1);
    } else {
      OfKindIn(ds[1..], kind, k - 1);
      NamesAt(ds[1..], rest[k - 1], rest[k - 1].path);
    }
  }

  /** Pairing from the front of both lists: by content key, and never a path with itself. */
  function Paired(deletes: seq<FileDelta>, creates: seq<FileDelta>, ds: seq<FileDelta>, a: Files,
        b: Files): seq<FileDelta>
    requires (forall d :: d in deletes ==> d.path in a) && forall d :: d in creates ==> d.path in b
    decreases |deletes| + |creates|
  {
    if deletes == [] || creates == [] then ds
    else
      var del, cre := deletes[0], creates[0];
      var dkey, ckey := a[del.path], b[cre.path];
      if KeyBelow(dkey, ckey) then Paired(deletes[1..], creates, ds, a, b)
      else if KeyBelow(ckey, dkey) then Paired(deletes, creates[1..], ds, a, b)
      else if del.path == cre.path then Paired(deletes[1..], creates[1..], ds, a, b)
      else
        var ren := FileDelta(cre.path, Renamed(del.path), Some(dkey.blob), Some(ckey.blob));
        Paired(deletes[1..], creates[1..], Retain(Retain(ds, del.path, Deleted), cre.path, Created) + [ren], a, b)
  }

  lemma {:induction false} OfKindKeyed(ds: seq<FileDelta>, a: Files, b: Files)
    requires AllSound(ds, a, b)
    ensures forall d :: d in OfKind(ds, Deleted) ==> d in ds && d.path in a && d.path !in b && d.kind == Deleted
    ensures forall d :: d in OfKind(ds, Created) ==> d in ds && d.path in b && d.path !in a && d.kind == Created
  {
    if ds != [] {
      assert Sound(ds[0], a, b);
      OfKindKeyed(ds[1..], a, b);
    }
  }

  /** The deltas in full: plain ones, paired into renames, by path. */
  ghost function DeltasOf(a: Files, b: Files): seq<FileDelta>
  {
    var plain := PlainOf(Sorted(a.Keys + b.Keys), a, b);
    PlainSound(Sorted(a.Keys + b.Keys), a, b);
    OfKindKeyed(plain, a, b);
    SortByPath(Paired(OfKind(plain, Deleted), OfKind(plain, Created), plain, a, b))
  }

  /** The deltas still waiting to be paired are present, of their kind, and have distinct paths. */
  ghost predicate Waiting(todo: seq<FileDelta>, from: nat, kind: DeltaKind, ds: seq<FileDelta>)
  {
    && (forall k :: from <= k < |todo| ==> todo[k] in ds && todo[k].kind == kind)
    && (forall j, k :: from <= j < k < |todo| ==> todo[j].path != todo[k].path)
  }

  lemma {:induction false} StillWaiting(todo: seq<FileDelta>, from: nat, kind: DeltaKind, ds: seq<FileDelta>,
                                        p: Path, k': DeltaKind)
    requires Waiting(todo, from, kind, ds)
        && (kind != k' || (from > 0 && from <= |todo| && todo[from - 1].path == p && Waiting(todo, from - 1, kind, ds)))
    ensures Waiting(todo, from, kind, Retain(ds, p, k'))
  {
    forall k | from <= k < |todo| ensures todo[k] in Retain(ds, p, k') {
      RetainIn(ds, p, k', todo[k]);
    }
  }

  /** The next pairing step, at positions in the two lists. */
  lemma {:induction false} PairedNext(deletes: seq<FileDelta>, creates: seq<FileDelta>, di: nat, ci: nat,
        ds: seq<FileDelta>, a: Files, b: Files)
    requires (forall d :: d in deletes ==> d.path in a) && forall d :: d in creates ==> d.path in b
    requires di < |deletes| && ci < |creates|
    ensures deletes[di].path in a && creates[ci].path in b
    ensures var del, cre := deletes[di], creates[ci];
      var dkey, ckey := a[del.path], b[cre.path];
      Paired(deletes[di..], creates[ci..], ds, a, b) ==
        if KeyBelow(dkey, ckey) then Paired(deletes[di + 1..], creates[ci..], ds, a, b)
        else if KeyBelow(ckey, dkey) then Paired(deletes[di..], creates[ci + 1..], ds, a, b)
        else if del.path == cre.path then Paired(deletes[di + 1..], creates[ci + 1..], ds, a, b)
        else Paired(deletes[di + 1..], creates[ci + 1..], Retain(Retain(ds, del.path, Deleted), cre.path, Created)
                    + [FileDelta(cre.path, Renamed(del.path), Some(dkey.blob), Some(ckey.blob))], a, b)
  {
    hide KeyBelow, Retain;
    assert deletes[di] in deletes && creates[ci] in creates;
    assert deletes[di..][0] == deletes[di] && deletes[di..][1..] == deletes[di + 1..];
    assert creates[ci..][0] == creates[ci] && creates[ci..][1..] == creates[ci + 1..];
  }

  lemma {:induction false} PairedEnds(deletes: seq<FileDelta>, creates: seq<FileDelta>, di: nat, ci: nat,
        ds: seq<FileDelta>, a: Files, b: Files)
    requires (forall d :: d in deletes ==> d.path in a) && forall d :: d in creates ==> d.path in b
    requires di <= |deletes| && ci <= |creates|
    ensures di == |deletes| || ci == |creates| ==> Paired(deletes[di..], creates[ci..], ds, a, b) == ds
    ensures deletes[0..] == deletes && creates[0..] == creates
  {
  }

  lemma {:induction false} WaitingAt(todo: seq<FileDelta>, from: nat, kind: DeltaKind, ds: seq<FileDelta>)
    requires Waiting(todo, from, kind, ds) && from < |todo|
    ensures todo[from] in ds && todo[from].kind == kind && Waiting(todo, from + 1, kind, ds)
  {
  }

  /** One rename keeps the description and takes nothing from what is still to be paired. */
  lemma {:induction false} RenameKeeps(deletes: seq<FileDelta>, creates: seq<FileDelta>, di: nat, ci: nat,
        ds: seq<FileDelta>, a: Files, b: Files)
    requires di < |deletes| && ci < |creates| && Describes(ds, a, b)
    requires Waiting(deletes, di, Deleted, ds) && Waiting(creates, ci, Created, ds)
    requires deletes[di].path in a && creates[ci].path in b && deletes[di].path != creates[ci].path
    requires a[deletes[di].path] == b[creates[ci].path]
    ensures var del, cre := deletes[di], creates[ci];
      var ds' := Retain(Retain(ds, del.path, Deleted), cre.path, Created)
                 + [FileDelta(cre.path, Renamed(del.path), Some(a[del.path].blob), Some(b[cre.path].blob))];
      Describes(ds', a, b) && Waiting(deletes, di + 1, Deleted, ds') && Waiting(creates, ci + 1, Created, ds')
  {
    hide Describes;
    var del, cre := deletes[di], creates[ci];
    assert Sound(del, a, b) && Sound(cre, a, b) by { DescribedSound(ds, a, b); }
    PairKeeps(ds, del, cre, a, b);
    StillWaiting(deletes, di + 1, Deleted, ds, del.path, Deleted);
    StillWaiting(creates, ci, Created, ds, del.path, Deleted);
    var less := Retain(ds, del.path, Deleted);
    StillWaiting(deletes, di + 1, Deleted, less, cre.path, Created);
    StillWaiting(creates, ci + 1, Created, less, cre.path, Created);
  }

  lemma {:induction false} DescribedSound(ds: seq<FileDelta>, a: Files, b: Files)
    requires Describes(ds, a, b)
    ensures forall d :: d in ds ==> Sound(d, a, b)
  {
  }

  /** Merges the deleted and created lists by content key and turns equal keys into renames. */
  method PairRenames(plain: seq<FileDelta>, a: Files, b: Files) returns (deltas: seq<FileDelta>)
    requires Describes(plain, a, b)
    ensures Describes(deltas, a, b)
    ensures (OfKindKeyed(plain, a, b); deltas == Paired(OfKind(plain, Deleted), OfKind(plain, Created), plain, a, b))
  {
    hide Paired, KeyBelow, Describes, Waiting, OfKind, Retain, Sound;
    deltas := plain;
    var deletes, creates := OfKind(plain, Deleted), OfKind(plain, Created);
    DescribedSound(plain, a, b);
    OfKindKeyed(plain, a, b);
    PairedEnds(deletes, creates, 0, 0, plain, a, b);
    assert Waiting(deletes, 0, Deleted, deltas) && Waiting(creates, 0, Created, deltas) by {
      OfKindWaits(plain, Deleted, a, b);
      OfKindWaits(plain, Created, a, b);
    }
    var di, ci := 0, 0;
    while di < |deletes| && ci < |creates|
      invariant 0 <= di <= |deletes| && 0 <= ci <= |creates| && Describes(deltas, a, b)
      invariant Paired(deletes[di..], creates[ci..], deltas, a, b) == Paired(deletes, creates, plain, a, b)
      invariant Waiting(deletes, di, Deleted, deltas) && Waiting(creates, ci, Created, deltas)
      decreases |deletes| - di + |creates| - ci
    {
      var del, cre := deletes[di], creates[ci];
      assert del in deletes && cre in creates;
      var dkey, ckey := a[del.path], b[cre.path];
      PairedNext(deletes, creates, di, ci, deltas, a, b);
      WaitingAt(deletes, di, Deleted, deltas);
      WaitingAt(creates, ci, Created, deltas);
      if KeyBelow(dkey, ckey) {
        di := di + 1;
      } else if KeyBelow(ckey, dkey) {
        ci := ci + 1;
      } else {
        if del.path != cre.path {
          SameKey(dkey, ckey);
          RenameKeeps(deletes, creates, di, ci, deltas, a, b);
          deltas := Retain(deltas, del.path, Deleted);
          deltas := Retain(deltas, cre.path, Created);
          deltas := deltas + [FileDelta(cre.path, Renamed(del.path), Some(dkey.blob), Some(ckey.blob))];
        }
        di, ci := di + 1, ci + 1;
      }
    }
    PairedEnds(deletes, creates, di, ci, deltas, a, b);
  }

  lemma {:induction false} OfKindWaits(ds: seq<FileDelta>, kind: DeltaKind, a: Files, b: Files)
    requires Describes(ds, a, b)
    ensures Waiting(OfKind(ds, kind), 0, kind, ds)
  {
    var todo := OfKind(ds, kind);
    forall k | 0 <= k < |todo| ensures todo[k] in ds && todo[k].kind == kind { OfKindIn(ds, kind, k); }
    forall j, k | 0 <= j < k < |todo| ensures todo[j].path != todo[k].path {
      OfKindDistinct(ds, kind, j, k);
      assert Names(ds, todo[j].path) <= 1;
    }
  }

  lemma {:induction false} SameKey(k: Entry, l: Entry)
    requires !KeyBelow(k, l) && !KeyBelow(l, k)
    ensures k == l
  {
    BelowTotal(k.blob.digest, l.blob.digest);
  }

  /** Insertion by path. */
  function InsertByPath(d: FileDelta, ds: seq<FileDelta>): seq<FileDelta>
  {
    if ds == [] || Below(d.path, ds[0].path) then [d] + ds else [ds[0]] + InsertByPath(d, ds[1..])
  }

  function SortByPath(ds: seq<FileDelta>): seq<FileDelta>
  {
    if ds == [] then [] else InsertByPath(ds[0], SortByPath(ds[1..]))
  }

  lemma {:induction false} InsertKeeps(d: FileDelta, ds: seq<FileDelta>, p: Path)
    ensures Names(InsertByPath(d, ds), p) == NamesOf(d, p) + Names(ds, p)
    ensures forall e :: e in InsertByPath(d, ds) <==> e == d || e in ds
  {
    var r := InsertByPath(d, ds);
    if ds == [] || Below(d.path, ds[0].path) {
      assert r[1..] == ds;
    } else {
      InsertKeeps(d, ds[1..], p);
      assert r[1..] == InsertByPath(d, ds[1..]);
    }
  }

  lemma {:induction false} SortKeeps(ds: seq<FileDelta>, p: Path)
    ensures Names(SortByPath(ds), p) == Names(ds, p)
    ensures forall e :: e in SortByPath(ds) <==> e in ds
  {
    if ds != [] {
      SortKeeps(ds[1..], p);
      InsertKeeps(ds[0], SortByPath(ds[1..]), p);
    }
  }

  ghost predicate InPathOrder(ds: seq<FileDelta>)
  {
    forall i, j :: 0 <= i < j < |ds| ==> !Below(ds[j].path, ds[i].path)
  }

  lemma {:induction false} InsertOrders(d: FileDelta, ds: seq<FileDelta>)
    requires InPathOrder(ds)
    ensures InPathOrder(InsertByPath(d, ds))
  {
    hide Below;
    if ds == [] {
    } else if Below(d.path, ds[0].path) {
      forall j | 0 <= j < |ds| ensures !Below(ds[j].path, d.path) {
        if Below(ds[j].path, d.path) {
          BelowTransitive(ds[j].path, d.path, ds[0].path);
          BelowTotal(ds[j].path, ds[0].path);
        }
      }
    } else {
      InsertOrders(d, ds[1..]);
      InsertKeeps(d, ds[1..], []);
      var rest := InsertByPath(d, ds[1..]);
      forall j | 0 <= j < |rest| ensures !Below(rest[j].path, ds[0].path) {
        if rest[j] != d {
          assert rest[j] in rest && rest[j] in ds[1..];
          var k :| 0 <= k < |ds[1..]| && ds[1..][k] == rest[j];
          assert ds[k + 1] == rest[j];
        }
      }
    }
  }

  lemma {:induction false} SortOrders(ds: seq<FileDelta>)
    ensures InPathOrder(SortByPath(ds))
  {
    if ds != [] {
      SortOrders(ds[1..]);
      InsertOrders(ds[0], SortByPath(ds[1..]));
    }
  }

  /** The deterministic file-level delta between two states. */
  method DiffStates(a: Files, b: Files) returns (deltas: seq<FileDelta>)
    ensures deltas == DeltasOf(a, b)
    ensures Describes(deltas, a, b) && InPathOrder(deltas)
  {
    hide Paired, OfKind, PlainOf, Sorted;
    deltas := PlainDeltas(a, b);
    deltas := PairRenames(deltas, a, b);
    forall p ensures Names(SortByPath(deltas), p) == Names(deltas, p) { SortKeeps(deltas, p); }
    SortKeeps(deltas, []);
    SortOrders(deltas);
    deltas := SortByPath(deltas);
  }

  lemma {:induction false} PlainHas(paths: seq<Path>, a: Files, b: Files, p: Path)
    requires p in paths && DeltaAt(a, b, p).Some?
    ensures DeltaAt(a, b, p).value in PlainOf(paths, a, b)
  {
    hide DeltaAt;
    if paths[0] != p { PlainHas(paths[1..], a, b, p); }
  }

  lemma {:induction false} OfKindHas(ds: seq<FileDelta>, kind: DeltaKind, d: FileDelta)
    requires d in ds && d.kind == kind
    ensures d in OfKind(ds, kind)
  {
    if ds[0] != d { OfKindHas(ds[1..], kind, d); }
  }

  /** A path that names no other: the only delta of its kind. */
  lemma {:induction false} OnlyOne(ds: seq<FileDelta>, kind: DeltaKind, d: FileDelta, a: Files, b: Files)
    requires Describes(ds, a, b) && d in ds && d.kind == kind && forall e :: e in ds && e.kind == kind ==>
        e.path == d.path
    ensures OfKind(ds, kind) == [d]
  {
    OfKindHas(ds, kind, d);
    OfKindWaits(ds, kind, a, b);
    var todo := OfKind(ds, kind);
    assert |todo| > 1 ==> todo[0].path == todo[1].path;
  }

  /** A lone move is found: when exactly one path is gone and exactly one is new, and they hold the
      same mode and blob, the deltas report the rename. */
  lemma {:induction false} MoveFound(a: Files, b: Files, p: Path, q: Path)
    requires a.Keys - b.Keys == {p} && b.Keys - a.Keys == {q} && a[p] == b[q]
    ensures FileDelta(q, Renamed(p), Some(a[p].blob), Some(b[q].blob)) in DeltasOf(a, b)
  {
    hide Sorted, Below, KeyBelow, PlainOf, OfKind, SortByPath, Describes;
    var paths := Sorted(a.Keys + b.Keys);
    var plain := PlainOf(paths, a, b);
    assert p in a.Keys - b.Keys && q in b.Keys - a.Keys;
    PlainHas(paths, a, b, p);
    PlainHas(paths, a, b, q);
    assert Describes(plain, a, b) by { PlainDescribes(a, b); }
    PlainSound(paths, a, b);
    OfKindKeyed(plain, a, b);
    var del, cre := DeltaAt(a, b, p).value, DeltaAt(a, b, q).value;
    forall e | e in plain && e.kind == Deleted ensures e.path == p {
      assert Sound(e, a, b);
      assert e.path in a.Keys - b.Keys;
    }
    forall e | e in plain && e.kind == Created ensures e.path == q {
      assert Sound(e, a, b);
      assert e.path in b.Keys - a.Keys;
    }
    OnlyOne(plain, Deleted, del, a, b);
    OnlyOne(plain, Created, cre, a, b);
    assert !KeyBelow(a[p], b[q]) && !KeyBelow(b[q], a[p]) by { NotBelowItself(a[p]); }
    var ren := FileDelta(q, Renamed(p), Some(a[p].blob), Some(b[q].blob));
    var left := Retain(Retain(plain, p, Deleted), q, Created) + [ren];
    assert [del][1..] == [] && [cre][1..] == [];
    assert Paired([], [], left, a, b) == left;
    assert Paired([del], [cre], plain, a, b) == left;
    SortKeeps(left, p);
  }

  lemma {:induction false} NotBelowItself(k: Entry)
    ensures !KeyBelow(k, k)
  {
    BelowTotal(k.blob.digest, k.blob.digest);
  }
}
