/** The tree builders and the flattener as src/content.rs runs them, over a store updated in place. Both
    builders give one identity, and reading a published state gives back the files it was built from. */
module TreePrograms {
  import opened Varint
  import opened Paths
  import opened Wrappers
  import opened Objects
  import opened Validate
  import opened Codec
  import opened States
  import opened Store
  import opened Trees
  import opened TreeLaws

  lemma {:induction false} ItemsPush(entries: seq<TreeEntry>, e: TreeEntry)
    ensures Items(entries + [e]) == Items(entries) + [Item(e)]
  {
    if entries == [] {
      assert [] + [e] == [e] && [e][1..] == [];
    } else {
      ItemsPush(entries[1..], e);
      assert (entries + [e])[1..] == entries[1..] + [e] && (entries + [e])[0] == entries[0];
    }
  }

  method BuildTreeObject(entries: seq<TreeEntry>) returns (r: Result<Object, BuildError>)
    ensures r == TreeObject(entries)
  {
    hide Below;
    var items: seq<Value> := [];
    var prev: Option<Utf8> := None;
    for i := 0 to |entries|
      invariant items == Items(entries[..i]) && InOrder(entries[..i])
      invariant if i == 0 then prev == None else prev == Some(entries[i - 1].name)
    {
      var name := entries[i].name;
      if prev.Some? && !Below(prev.value, name) {
        assert Below(entries[i - 1].name, entries[i].name) == false;
        return Err(OutOfOrder);
      }
      prev := Some(name);
      ItemsPush(entries[..i], entries[i]);
      assert entries[..i + 1] == entries[..i] + [entries[i]];
      items := items + [Item(entries[i])];
    }
    assert entries[..|entries|] == entries;
    return Ok(Object(TREE, 1, Fields([Field(0x01, Array(items))])));
  }

  /** Entries already pushed before those still to be planned. */
  ghost function Pushed(entries: seq<TreeEntry>,
        rest: Result<seq<TreeEntry>, BuildError>): Result<seq<TreeEntry>, BuildError>
  {
    match rest
    case Err(e) => Err(e)
    case Ok(more) => Ok(entries + more)
  }

  lemma {:induction false} PushNext(files: Files, prefix: Path, names: seq<Path>, i: nat, entries: seq<TreeEntry>,
        w: World)
    requires Buildable(files) && (forall n :: n in names ==> n in NamesUnder(files, prefix)) && i < |names|
    ensures var all := Pushed(entries, PlanEntries(files, prefix, names[i..], w));
      match PlanEntry(files, prefix, names[i], w)
      case Err(e) => all == Err(e)
      case Ok(entry) => all == Pushed(entries + [entry], PlanEntries(files, prefix, names[i + 1..], w))
  {
    hide PlanEntry, NamesUnder;
    assert names[i..][0] == names[i] && names[i..][1..] == names[i + 1..];
    var first, rest := PlanEntry(files, prefix, names[i], w), PlanEntries(files, prefix, names[i + 1..], w);
    if first.Ok? && rest.Ok? {
      assert entries + ([first.value] + rest.value) == entries + [first.value] + rest.value;
    }
  }

  lemma {:induction false} PushLast(entries: seq<TreeEntry>, files: Files, prefix: Path, names: seq<Path>, w: World)
    requires Buildable(files) && (forall n :: n in names ==> n in NamesUnder(files, prefix))
    ensures Pushed(entries, PlanEntries(files, prefix, names[|names|..], w)) == Ok(entries)
    ensures Pushed([], PlanEntries(files, prefix, names[0..], w)) == PlanEntries(files, prefix, names, w)
  {
    hide NamesUnder, PlanEntry;
    assert names[0..] == names && names[|names|..] == [];
    assert entries + [] == entries;
    var plan := PlanEntries(files, prefix, names, w);
    assert plan.Ok? ==> [] + plan.value == plan.value;
  }

  /** The in-memory builder. */
  method BuildTreeFromFilesLimits(files: Files, prefix: Path, w: World) returns (r: Result<Object, BuildError>)
    requires Buildable(files)
    ensures r == PlanTree(files, prefix, w)
    decreases Room(files, prefix)
  {
    hide NamesUnder, Sorted, Ascending, Below, Identify, SegmentEnd;
    var names := SortedPaths(NamesUnder(files, prefix));
    var entries: seq<TreeEntry> := [];
    PushLast([], files, prefix, names, w);
    for i := 0 to |names|
      invariant PlanEntries(files, prefix, names, w) == Pushed(entries, PlanEntries(files, prefix, names[i..], w))
    {
      var name := names[i];
      NameValid(files, prefix, name);
      PushNext(files, prefix, names, i, entries, w);
      var child := Under(prefix) + name;
      if IsDir(files, child) {
        if child in files { return Err(BothFileAndDirectory(child)); }
        RoomShrinks(files, prefix, name);
        var subtree := BuildTreeFromFilesLimits(files, child, w);
        var id := Identified(subtree, w);
        if id.Err? { return Err(id.error); }
        entries := entries + [TreeEntry(name, MODE_DIR, id.value)];
      } else {
        if child !in files { return Err(MissingFile(child)); }
        entries := entries + [TreeEntry(name, files[child].mode, files[child].blob)];
      }
    }
    PushLast(entries, files, prefix, names, w);
    r := BuildTreeObject(entries);
  }

  ghost predicate SubtreesPublished(objects: ObjectMap, files: Files, prefix: Path, names: seq<Path>, w: World)
    requires Buildable(files)
  {
    forall name :: name in names && BuildsBelow(files, prefix, name) ==>
        Published(objects, files, Under(prefix) + name, w)
  }

  /** One more name done: what was published stays so as objects are added. */
  lemma {:induction false} NextPublished(objects: ObjectMap, objects': ObjectMap, files: Files, prefix: Path,
        names: seq<Path>, i: nat, w: World)
    requires Buildable(files) && i < |names| && SubtreesPublished(objects, files, prefix, names[..i], w)
    requires Grows(objects, objects')
    requires BuildsBelow(files, prefix, names[i]) ==> Published(objects', files, Under(prefix) + names[i], w)
    ensures SubtreesPublished(objects', files, prefix, names[..i + 1], w)
  {
    hide Published, Grows, BuildsBelow;
    forall name | name in names[..i + 1] && BuildsBelow(files, prefix, name)
      ensures Published(objects', files, Under(prefix) + name, w)
    {
      if name != names[i] {
        assert name in names[..i];
        PublishedGrows(objects, objects', files, Under(prefix) + name, w);
      }
    }
  }

  /** The publishing builder: an identity it yields is the one the in-memory builder computes, and the tree
      is stored with all its subtrees. Where encodings can be read back, it fails only as the in-memory
      builder does or on other bytes under one of the digests. */
  method BuildTreeFromFilesInsert(repo: Repo, files: Files, prefix: Path) returns (r: Result<Gid, BuildError>)
    requires Buildable(files)
    modifies repo
    ensures Grows(old(repo.objects), repo.objects)
    ensures r.Ok? ==>
        r == Identified(PlanTree(files, prefix, repo.w), repo.w) && Published(repo.objects, files, prefix, repo.w)
    ensures Supported(repo.w) ==>
        r == Err(Failed(HashCollision)) || r == Identified(PlanTree(files, prefix, repo.w), repo.w)
    decreases Room(files, prefix)
  {
    hide NamesUnder, Sorted, Ascending, Below, Identify, SegmentEnd, Grows, Published, SubtreesPublished, EncodeObject,
        Insert;
    var names := SortedPaths(NamesUnder(files, prefix));
    var entries: seq<TreeEntry> := [];
    PushLast([], files, prefix, names, repo.w);
    StartPublished(repo.objects, files, prefix, names, repo.w);
    for i := 0 to |names|
      invariant PlanEntries(files, prefix, names, repo.w)
          == Pushed(entries, PlanEntries(files, prefix, names[i..], repo.w))
      invariant Grows(old(repo.objects), repo.objects)
      invariant SubtreesPublished(repo.objects, files, prefix, names[..i], repo.w)
    {
      var name := names[i];
      NameValid(files, prefix, name);
      PushNext(files, prefix, names, i, entries, repo.w);
      var child := Under(prefix) + name;
      ghost var before := repo.objects;
      if IsDir(files, child) {
        if child in files { return Err(BothFileAndDirectory(child)); }
        RoomShrinks(files, prefix, name);
        var subtree := BuildTreeFromFilesInsert(repo, files, child);
        GrowsOn(old(repo.objects), before, repo.objects);
        if subtree.Err? { return Err(subtree.error); }
        entries := entries + [TreeEntry(name, MODE_DIR, subtree.value)];
      } else {
        if child !in files { return Err(MissingFile(child)); }
        GrowsSame(repo.objects);
        entries := entries + [TreeEntry(name, files[child].mode, files[child].blob)];
      }
      NextPublished(before, repo.objects, files, prefix, names, i, repo.w);
    }
    PushLast(entries, files, prefix, names, repo.w);
    var tree := BuildTreeObject(entries);
    if tree.Err? { return Err(tree.error); }
    ghost var before := repo.objects;
    InsertIdentified(before, tree.value, repo.w);
    var id := repo.InsertObject(tree.value);
    GrowsOn(old(repo.objects), before, repo.objects);
    if id.Err? { return Err(Failed(id.error)); }
    TreePublished(before, repo.objects, files, prefix, repo.w);
    return Ok(id.value);
  }

  lemma {:induction false} StartPublished(objects: ObjectMap, files: Files, prefix: Path, names: seq<Path>, w: World)
    requires Buildable(files)
    ensures SubtreesPublished(objects, files, prefix, names[..0], w) && Grows(objects, objects)
  {
  }

  lemma {:induction false} TreePublished(objects: ObjectMap, objects': ObjectMap, files: Files, prefix: Path, w: World)
    requires Buildable(files) && Grows(objects, objects')
    requires var names := Sorted(NamesUnder(files, prefix));
        SubtreesPublished(objects, files, prefix, names[..|names|], w)
    requires PlanTree(files, prefix, w).Ok? && Identify(PlanTree(files, prefix, w).value, w).Ok?
    requires StoredAs(objects', PlanTree(files, prefix, w).value, w)
    ensures Published(objects', files, prefix, w)
  {
    hide NamesUnder, PlanTree, Identify, EncodeObject, StoredAs, IsDir, Grows;
    var names := Sorted(NamesUnder(files, prefix));
    assert names[..|names|] == names;
    forall name | BuildsBelow(files, prefix, name)
      ensures Room(files, Under(prefix) + name) < Room(files, prefix)
          && Published(objects', files, Under(prefix) + name, w)
    {
      RoomShrinks(files, prefix, name);
      assert Published(objects, files, Under(prefix) + name, w);
      PublishedGrows(objects, objects', files, Under(prefix) + name, w);
    }
  }

  // ---- States ----

  function StateObject(tree: Gid): Object
  {
    Object(STATE, 1, Fields([Field(0x01, Ref(tree))]))
  }

  /** The identities of the root tree and the state of a file map. */
  ghost function PlanState(files: Files, w: World): Result<(Gid, Gid), BuildError>
    requires Buildable(files)
  {
    match Identified(PlanTree(files, [], w), w)
    case Err(e) => Err(e)
    case Ok(tree) => match Identify(StateObject(tree), w)
      case Err(e) => Err(Failed(e))
      case Ok(state) => Ok((tree, state))
  }

  function PlannedId(plan: Result<(Gid, Gid), BuildError>): Result<Gid, BuildError>
  {
    match plan
    case Err(e) => Err(e)
    case Ok((_, state)) => Ok(state)
  }

  /** The identities without storing anything. */
  method StateIdentityFromFiles(files: Files, w: World) returns (r: Result<(Gid, Gid), BuildError>)
    requires Buildable(files)
    ensures r == PlanState(files, w)
  {
    hide Identify, PlanTree;
    var tree := BuildTreeFromFilesLimits(files, [], w);
    var treeId := Identified(tree, w);
    if treeId.Err? { return Err(treeId.error); }
    var stateId := Identify(StateObject(treeId.value), w);
    if stateId.Err? { return Err(Failed(stateId.error)); }
    return Ok((treeId.value, stateId.value));
  }

  /** A state is stored when its object is, and with it every tree of its files. */
  ghost predicate StateStored(objects: ObjectMap, files: Files, state: Gid, w: World)
    requires Buildable(files)
  {
    && PlanState(files, w).Ok? && PlanState(files, w).value.1 == state
    && StoredAs(objects, StateObject(PlanState(files, w).value.0), w)
    && Published(objects, files, [], w)
  }

  /** The state object is within the limits. */
  predicate StateFits(limits: Limits)
  {
    limits.maxRefsPerObject >= 1 && limits.maxRecordDepth >= 1
        && 17 + FieldLength(SizedLength(33)) <= limits.maxObjectBytes
  }

  lemma {:induction false} StateEncodes(tree: Gid, w: World)
    requires tree.family == TREE && w.table(STATE) == STATE_SCHEMA
    ensures EncodeObject(StateObject(tree), w.table, w.limits).Ok? <==> StateFits(w.limits)
  {
    hide EncodeU64, EncodeFields, EncodeValue, FieldLength;
    var f := Field(0x01, Ref(tree));
    assert [f][0].tag == 1 && [f][1..] == [];
    assert CountRefsFields([f]) == 1;
    assert SpecIndex(STATE_SCHEMA.specs, 1) == Some(0);
    assert Yields(EncodeValue(TGid(TREE), f.value, 2, STATE_SCHEMA, w.limits), true, SizedLength(33)) by {
      RefEncodes(tree, w.limits);
    }
    ContentEncodes(STATE_SCHEMA, f, 0, 1, w.limits, true, SizedLength(33));
    assert HasTag([f], 1);
    OneField(STATE_SCHEMA, f, w.limits, true, SizedLength(33));
  }

  lemma {:induction false} RefEncodes(tree: Gid, limits: Limits)
    requires tree.family == TREE
    ensures Yields(EncodeValue(TGid(TREE), Ref(tree), 2, STATE_SCHEMA, limits), true, SizedLength(33))
  {
  }

  /** A state of canonical paths to regular files has an identity exactly when no path is a directory
      prefix of another and every tree and the state itself are within the limits. */
  lemma {:induction false} StateBuildsExactly(files: Files, w: World)
    requires CanonicalPaths(files) && RegularFiles(files) && w.table(TREE) == TREE_SCHEMA
        && w.table(STATE) == STATE_SCHEMA
    ensures Buildable(files)
    ensures PlanState(files, w).Ok? <==> NoFileInsideFile(files) && AllFit(files, [], w.limits) && StateFits(w.limits)
  {
    hide PlanTree, AllFit, EncodeObject, StateFits;
    BuildsExactly(files, w);
    var tree := Identified(PlanTree(files, [], w), w);
    if tree.Ok? {
      TreeFamily(files, [], w);
      StateEncodes(tree.value, w);
    }
  }

  lemma {:induction false} TreeFamily(files: Files, prefix: Path, w: World)
    requires Buildable(files)
    ensures var tree := Identified(PlanTree(files, prefix, w), w); tree.Ok? ==> tree.value.family == TREE
  {
    hide NamesUnder, Sorted, PlanEntries, EncodeObject;
  }

  /** Publishing a state: the identity is the planned one, and everything below it is stored. */
  method BuildStateFromFiles(repo: Repo, files: Files) returns (r: Result<Gid, BuildError>)
    requires Buildable(files)
    modifies repo
    ensures Grows(old(repo.objects), repo.objects)
    ensures Supported(repo.w) ==> r == Err(Failed(HashCollision)) || r == PlannedId(PlanState(files, repo.w))
    ensures r.Ok? ==> StateStored(repo.objects, files, r.value, repo.w)
  {
    hide Identify, PlanTree, Insert, EncodeObject, Published, Grows;
    var tree := BuildTreeFromFilesInsert(repo, files, []);
    if tree.Err? { return Err(tree.error); }
    ghost var before := repo.objects;
    InsertIdentified(before, StateObject(tree.value), repo.w);
    var id := repo.InsertObject(StateObject(tree.value));
    GrowsOn(old(repo.objects), before, repo.objects);
    if id.Err? { return Err(Failed(id.error)); }
    PublishedGrows(before, repo.objects, files, [], repo.w);
    return Ok(id.value);
  }

  // ---- Flattening ----

  method FlattenTreeRec(repo: Repo, tree: Gid, prefix: Path, out: Files, depth: nat)
    returns (r: Result<Files, FlattenError>)
    ensures r == Flatten(repo.objects, tree, prefix, out, depth, repo.w)
    decreases depth
  {
    hide Load, ReadEntry;
    if depth == 0 { return Err(StackExhausted); }
    var t := Load(repo.objects, tree, repo.w);
    if t.Err? { return Err(Unreadable(t.error)); }
    var found := FindValue(if t.value.body.Fields? then t.value.body.fields else [], 0x01);
    if found.None? || !found.value.Array? { return Err(NoEntries); }
    var entries := found.value.items;
    var files := out;
    assert entries[0..] == entries;
    for i := 0 to |entries|
      invariant FlattenItems(repo.objects, entries, prefix, out, depth, repo.w)
             == FlattenItems(repo.objects, entries[i..], prefix, files, depth, repo.w)
    {
      assert entries[i..][0] == entries[i] && entries[i..][1..] == entries[i + 1..];
      var entry := ReadEntry(entries[i]);
      if entry.Err? { return Err(entry.error); }
      var path := Under(prefix) + entry.value.name;
      if entry.value.mode == MODE_DIR {
        var sub := FlattenTreeRec(repo, entry.value.target, path, files, depth - 1);
        if sub.Err? { return Err(sub.error); }
        files := sub.value;
      } else {
        files := files[path := Entry(entry.value.mode, entry.value.target)];
      }
    }
    return Ok(files);
  }

  /** The file map of a state. */
  function StateFiles(objects: ObjectMap, state: Gid, depth: nat, w: World): Result<Files, FlattenError>
  {
    match Load(objects, state, w)
    case Err(e) => Err(Unreadable(e))
    case Ok(st) =>
      if st.family != STATE then Err(BadEntry)
      else match FindValue(if st.body.Fields? then st.body.fields else [], 0x01)
        case Some(Ref(tree)) => Flatten(objects, tree, [], map[], depth, w)
        case _ => Err(NoEntries)
  }

  /** Reading a published state gives back the file map it was built from, also after more objects are stored. */
  lemma {:induction false} StateRoundTrip(objects: ObjectMap, files: Files, state: Gid, later: ObjectMap, depth: nat,
        w: World)
    requires Supported(w) && Buildable(files) && RegularFiles(files) && StateStored(objects, files, state, w)
    requires Grows(objects, later) && depth > Longest(files)
    ensures StateFiles(later, state, depth, w) == Ok(files)
  {
    hide Identify, PlanTree, EncodeObject, Load, Published, Flatten;
    var tree := PlanState(files, w).value.0;
    LoadsBack(later, StateObject(tree), state, w);
    PublishedGrows(objects, later, files, [], w);
    FlattenPublished(later, files, [], map[], depth, w);
    assert FindValue(StateObject(tree).body.fields, 0x01) == Some(Ref(tree));
    assert map[] + Subtree(files, []) == files;
  }
}
