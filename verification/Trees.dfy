/** Nested trees for a flat file map and back (src/content.rs): what the builders and the flattener compute. */
module Trees {
  import opened Varint
  import opened Paths
  import opened Wrappers
  import opened Objects
  import opened Validate
  import opened States
  import opened Store

  datatype BuildError = BothFileAndDirectory(path: Path) | MissingFile(path: Path) | OutOfOrder | Failed(e: StoreError)

  datatype TreeEntry = TreeEntry(name: Utf8, mode: u64, target: Gid)

  /** Keys are strings, and no key starts with a separator unless the empty string is a key: on other
      maps the recursion does not end (`NeverEnds`). */
  ghost predicate Buildable(files: Files)
  {
    StringKeys(files) && ([] in files || forall p :: p in files ==> p[0] != SLASH)
  }

  ghost predicate StringKeys(files: Files) { forall p :: p in files ==> ValidUtf8(p) }

  /** What every path inside a directory starts with. */
  function Under(prefix: Path): Path { if prefix == [] then [] else prefix + [SLASH] }

  function FirstSegment(p: Path): Path { p[..SegmentEnd(p)] }

  /** The names directly under a prefix. */
  function NamesUnder(files: Files, prefix: Path): set<Path>
  {
    set p | p in files && Under(prefix) <= p :: FirstSegment(p[|Under(prefix)|..])
  }

  predicate IsDir(files: Files, child: Path) { exists p :: p in files && child + [SLASH] <= p }

  ghost function Longest(files: Files): (n: nat)
    ensures forall p :: p in files ==> |p| <= n
  {
    if files == map[] then 0
    else
      var p :| p in files;
      var n := Longest(files - {p});
      assert forall q :: q in files && q != p ==> q in files - {p};
      if |p| > n then |p| else n
  }

  /** How much longer than a prefix a key can be: the recursion of the builders goes down with it. */
  ghost function Room(files: Files, prefix: Path): nat
  {
    if Longest(files) < |prefix| then 0 else Longest(files) - |prefix|
  }

  lemma {:induction false} SegmentFits(p: Path, n: Path)
    ensures FirstSegment(p) == n <==> SLASH !in n && (p == n || n + [SLASH] <= p)
  {
    var k := SegmentEnd(p);
    forall i | 0 <= i < k ensures p[i] != SLASH { assert p[..k][i] in p[..k]; }
    if SLASH !in n && n <= p {
      forall i | 0 <= i < |n| ensures p[i] != SLASH { assert p[i] == n[i] && n[i] in n; }
      if n + [SLASH] <= p { assert p[|n|] == (n + [SLASH])[|n|] == SLASH; }
    }
    if FirstSegment(p) == n && k < |p| { assert n + [SLASH] == p[..k + 1]; }
  }

  /** A key lies under a prefix with this first name exactly when it is the child or inside it. */
  lemma {:induction false} ChildOrInside(p: Path, u: Path, n: Path)
    requires u <= p
    ensures FirstSegment(p[|u|..]) == n <==> SLASH !in n && (p == u + n || u + n + [SLASH] <= p)
  {
    var rest := p[|u|..];
    SegmentFits(rest, n);
    assert p == u + rest;
    assert u + n + [SLASH] == u + (n + [SLASH]);
    if n + [SLASH] <= rest {
      assert p[..|u| + |n| + 1] == u + rest[..|n| + 1];
    }
    if u + n + [SLASH] <= p {
      assert rest[..|n| + 1] == (u + (n + [SLASH]))[|u|..];
    }
    if p == u + n { assert rest == n; }
  }

  lemma {:induction false} RoomShrinks(files: Files, prefix: Path, name: Path)
    requires Buildable(files) && IsDir(files, Under(prefix) + name) && Under(prefix) + name !in files
    ensures Room(files, Under(prefix) + name) < Room(files, prefix)
  {
    var child := Under(prefix) + name;
    var p :| p in files && child + [SLASH] <= p;
    assert |p| <= Longest(files);
    assert p[|child|] == SLASH;
  }

  /** Building the tree of one prefix builds that of another. */
  ghost predicate BuildsBelow(files: Files, prefix: Path, name: Path)
  {
    name in NamesUnder(files, prefix) && IsDir(files, Under(prefix) + name) && Under(prefix) + name !in files
  }

  /** The builders call themselves on their own arguments, and before anything else, exactly on the maps
      that are not buildable; on all others each call is on a longer prefix (`RoomShrinks`). */
  lemma {:induction false} NeverEnds(files: Files)
    requires StringKeys(files)
    ensures !Buildable(files) <==> exists name :: BuildsBelow(files, [], name) && Under([]) + name == []
    ensures !Buildable(files) ==> var names := Sorted(NamesUnder(files, [])); names != [] && names[0] == []
  {
    hide Sorted;
    if !Buildable(files) {
      var p :| p in files && p[0] == SLASH;
      assert p[..0] == [] && p[|Under([])|..] == p;
      assert FirstSegment(p) == [];
      assert [] + [SLASH] <= p;
      assert BuildsBelow(files, [], []);
      var names := Sorted(NamesUnder(files, []));
      assert [] in names;
      assert !Below(names[0], []);
    }
  }

  /** A separator is no part of a longer character, so a string may be cut there. */
  lemma {:induction false} WidthCut(s: seq<byte>, k: nat)
    requires 0 < k < |s| && s[k] == SLASH && Utf8Width(s) > 0
    ensures Utf8Width(s) <= k && Utf8Width(s[..k]) == Utf8Width(s)
  {
  }

  lemma {:induction false} Slices(s: seq<byte>, n: nat, k: nat)
    requires n <= k < |s|
    ensures s[..k][n..] == s[n..][..k - n] && s[n..][k - n + 1..] == s[k + 1..]
  {
  }

  lemma {:induction false} Utf8Cut(s: seq<byte>, k: nat)
    requires ValidUtf8(s) && k < |s| && s[k] == SLASH
    ensures ValidUtf8(s[..k]) && ValidUtf8(s[k + 1..])
  {
    var n := Utf8Width(s);
    if k == 0 {
      assert n == 1;
      assert s[..0] == [];
    } else {
      hide Utf8Width;
      WidthCut(s, k);
      Utf8Cut(s[n..], k - n);
      Slices(s, n, k);
    }
  }

  lemma {:induction false} NameValid(files: Files, prefix: Path, name: Path)
    requires Buildable(files) && name in NamesUnder(files, prefix)
    ensures ValidUtf8(name)
  {
    hide ValidUtf8;
    var u := Under(prefix);
    var p :| p in files && u <= p && FirstSegment(p[|u|..]) == name;
    if prefix != [] {
      assert p[|prefix|] == u[|prefix|] == SLASH;
      Utf8Cut(p, |prefix|);
    }
    var rest := p[|u|..];
    assert ValidUtf8(rest);
    if SegmentEnd(rest) < |rest| { Utf8Cut(rest, SegmentEnd(rest)); } else { assert name == rest; }
  }

  // ---- The tree a builder makes ----

  function Item(e: TreeEntry): Value
  {
    Record([Field(0x01, Str(e.name)), Field(0x02, U(e.mode)), Field(0x03, Ref(e.target))])
  }

  function Items(entries: seq<TreeEntry>): (items: seq<Value>)
    ensures |items| == |entries|
  {
    if entries == [] then [] else [Item(entries[0])] + Items(entries[1..])
  }

  predicate InOrder(entries: seq<TreeEntry>)
  {
    forall i :: 0 < i < |entries| ==> Below(entries[i - 1].name, entries[i].name)
  }

  function TreeObject(entries: seq<TreeEntry>): Result<Object, BuildError>
  {
    if InOrder(entries) then Ok(Object(TREE, 1, Fields([Field(0x01, Array(Items(entries)))]))) else Err(OutOfOrder)
  }

  /** The tree for the keys under a prefix, its subtrees replaced by their identities. */
  ghost function PlanTree(files: Files, prefix: Path, w: World): Result<Object, BuildError>
    requires Buildable(files)
    decreases Room(files, prefix), 2, 0
  {
    match PlanEntries(files, prefix, Sorted(NamesUnder(files, prefix)), w)
    case Err(e) => Err(e)
    case Ok(entries) => TreeObject(entries)
  }

  ghost function PlanEntries(files: Files, prefix: Path, names: seq<Path>, w: World): Result<seq<TreeEntry>, BuildError>
    requires Buildable(files) && forall n :: n in names ==> n in NamesUnder(files, prefix)
    decreases Room(files, prefix), 1, |names|
  {
    if names == [] then Ok([])
    else match PlanEntry(files, prefix, names[0], w)
      case Err(e) => Err(e)
      case Ok(first) =>
        match PlanEntries(files, prefix, names[1..], w)
        case Err(e) => Err(e)
        case Ok(rest) => Ok([first] + rest)
  }

  ghost function PlanEntry(files: Files, prefix: Path, name: Path, w: World): Result<TreeEntry, BuildError>
    requires Buildable(files) && name in NamesUnder(files, prefix)
    decreases Room(files, prefix), 0, 0
  {
    NameValid(files, prefix, name);
    var child := Under(prefix) + name;
    if IsDir(files, child) then
      if child in files then Err(BothFileAndDirectory(child))
      else
        RoomShrinks(files, prefix, name);
        match Identified(PlanTree(files, child, w), w)
        case Err(e) => Err(e)
        case Ok(g) => Ok(TreeEntry(name, MODE_DIR, g))
    else if child in files then Ok(TreeEntry(name, files[child].mode, files[child].blob))
    else Err(MissingFile(child))
  }

  function Identified(tree: Result<Object, BuildError>, w: World): Result<Gid, BuildError>
  {
    match tree
    case Err(e) => Err(e)
    case Ok(obj) => match Identify(obj, w)
      case Err(e) => Err(Failed(e))
      case Ok(g) => Ok(g)
  }

  // ---- What flattening computes ----

  datatype FlattenError = Unreadable(e: StoreError) | NoEntries | BadEntry | StackExhausted

  function ReadEntry(item: Value): Result<TreeEntry, FlattenError>
  {
    if !item.Record? then Err(BadEntry)
    else match (FindValue(item.fields, 0x01), FindValue(item.fields, 0x02), FindValue(item.fields, 0x03))
      case (Some(Str(name)), Some(U(mode)), Some(Ref(target))) => Ok(TreeEntry(name, mode, target))
      case _ => Err(BadEntry)
  }

  /** The files of a tree added to a map; `depth` is the recursion the stack allows. */
  function Flatten(objects: ObjectMap, tree: Gid, prefix: Path, out: Files, depth: nat,
        w: World): Result<Files, FlattenError>
    decreases depth, 1, 0
  {
    if depth == 0 then Err(StackExhausted)
    else match Load(objects, tree, w)
      case Err(e) => Err(Unreadable(e))
      case Ok(obj) =>
        match FindValue(if obj.body.Fields? then obj.body.fields else [], 0x01)
        case Some(Array(items)) => FlattenItems(objects, items, prefix, out, depth, w)
        case _ => Err(NoEntries)
  }

  function FlattenItems(objects: ObjectMap, items: seq<Value>, prefix: Path, out: Files, depth: nat,
        w: World): Result<Files, FlattenError>
    requires depth > 0
    decreases depth, 0, |items|
  {
    if items == [] then Ok(out)
    else match FlattenItem(objects, items[0], prefix, out, depth, w)
      case Err(e) => Err(e)
      case Ok(out') => FlattenItems(objects, items[1..], prefix, out', depth, w)
  }

  function FlattenItem(objects: ObjectMap, item: Value, prefix: Path, out: Files, depth: nat, w: World): Result<Files,
        FlattenError>
    requires depth > 0
    decreases depth, 0, 0
  {
    match ReadEntry(item)
    case Err(e) => Err(e)
    case Ok(entry) =>
      var path := Under(prefix) + entry.name;
      if entry.mode == MODE_DIR then Flatten(objects, entry.target, path, out, depth - 1, w)
      else Ok(out[path := Entry(entry.mode, entry.target)])
  }
}
