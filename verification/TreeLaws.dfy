/** Laws of nested trees (src/content.rs). */
module TreeLaws {
  import opened Varint
  import opened Paths
  import opened Wrappers
  import opened Objects
  import opened Validate
  import opened Codec
  import opened States
  import opened Store
  import opened Trees

  // Exactly which flat maps have a tree, and that flattening undoes building.

  // ---- When building succeeds ----

  ghost predicate CanonicalPaths(files: Files)
  {
    forall p :: p in files ==> ValidUtf8(p) && IsCanonicalPath(p)
  }

  predicate IsFileEntry(e: Entry)
  {
    e.mode in {MODE_FILE, MODE_EXEC, MODE_SYMLINK} && e.blob.family == BLOB
  }

  ghost predicate RegularFiles(files: Files)
  {
    forall p :: p in files ==> IsFileEntry(files[p])
  }

  /** No path is a directory prefix of another. */
  ghost predicate NoFileInsideFile(files: Files)
  {
    forall p, q :: p in files && q in files ==> !(p + [SLASH] <= q)
  }

  lemma {:induction false} EntryFails(files: Files, prefix: Path, names: seq<Path>, name: Path, w: World)
    requires Buildable(files) && (forall n :: n in names ==> n in NamesUnder(files, prefix)) && name in names
    requires PlanEntry(files, prefix, name, w).Err?
    ensures PlanEntries(files, prefix, names, w).Err?
  {
    hide PlanEntry;
    if names[0] != name { EntryFails(files, prefix, names[1..], name, w); }
  }

  /** A file that is also a directory defeats every tree above it. */
  lemma {:induction false} ConflictFails(files: Files, prefix: Path, p: Path, q: Path, w: World)
    requires Buildable(files) && p in files && q in files && p + [SLASH] <= q && Under(prefix) <= p
    ensures PlanTree(files, prefix, w).Err?
    decreases Room(files, prefix)
  {
    hide NamesUnder, SegmentEnd, Below, Identify;
    var u := Under(prefix);
    var name := FirstSegment(p[|u|..]);
    assert name in NamesUnder(files, prefix) by { InNames(files, prefix, p); }
    ChildOrInside(p, u, name);
    var child := u + name;
    if p != child && child !in files {
      assert IsDir(files, child);
      RoomShrinks(files, prefix, name);
      assert Under(child) <= p;
      ConflictFails(files, child, p, q, w);
    }
    assert PlanEntry(files, prefix, name, w).Err?;
    EntryFails(files, prefix, Sorted(NamesUnder(files, prefix)), name, w);
  }

  lemma {:induction false} InNames(files: Files, prefix: Path, p: Path)
    requires p in files && Under(prefix) <= p
    ensures FirstSegment(p[|Under(prefix)|..]) in NamesUnder(files, prefix)
  {
  }

  /** The order a sorted set of names gives its entries. */
  lemma {:induction false} EntriesNamed(files: Files, prefix: Path, names: seq<Path>, w: World)
    requires Buildable(files) && (forall n :: n in names ==> n in NamesUnder(files, prefix))
    requires PlanEntries(files, prefix, names, w).Ok?
    ensures var entries := PlanEntries(files, prefix, names, w).value;
      |entries| == |names| && forall i :: 0 <= i < |names| ==> PlanEntry(files, prefix, names[i], w) == Ok(entries[i])
  {
    hide PlanEntry;
    if names != [] {
      EntriesNamed(files, prefix, names[1..], w);
      var entries := PlanEntries(files, prefix, names, w).value;
      assert forall i :: 0 < i < |names| ==> names[i] == names[1..][i - 1] && entries[i] == entries[1..][i - 1];
    }
  }

  lemma {:induction false} EntryNamed(files: Files, prefix: Path, name: Path, w: World)
    requires Buildable(files) && name in NamesUnder(files, prefix)
    ensures var r := PlanEntry(files, prefix, name, w); r.Ok? ==> r.value.name == name
  {
    hide NamesUnder, PlanTree, IsDir, Identify;
  }

  lemma {:induction false} PlanInOrder(files: Files, prefix: Path, w: World)
    requires Buildable(files)
    ensures var names := Sorted(NamesUnder(files, prefix));
      PlanEntries(files, prefix, names, w).Ok? ==> InOrder(PlanEntries(files, prefix, names, w).value)
  {
    hide PlanEntries, PlanEntry, NamesUnder, Sorted, Below;
    var names := Sorted(NamesUnder(files, prefix));
    if PlanEntries(files, prefix, names, w).Ok? {
      EntriesNamed(files, prefix, names, w);
      var entries := PlanEntries(files, prefix, names, w).value;
      forall i | 0 <= i < |names| ensures entries[i].name == names[i] {
        EntryNamed(files, prefix, names[i], w);
        assert PlanEntry(files, prefix, names[i], w) == Ok(entries[i]);
      }
    }
  }

  // Which trees the encoder accepts.

  const ENTRY_SPECS := [FieldSpec(0x01, TStr, true), FieldSpec(0x02, TU64, true), FieldSpec(0x03, TGidAny, true)]
  const TREE_SCHEMA := Schema(true, [FieldSpec(0x01, TArray(TRecord(ENTRY_SPECS)), true)])
  const STATE: Family := 0x03
  const STATE_SCHEMA := Schema(true, [FieldSpec(0x01, TGid(TREE), true)])

  predicate GoodEntry(e: TreeEntry)
  {
    && IsTreeName(e.name)
    && e.mode in {MODE_FILE, MODE_EXEC, MODE_SYMLINK, MODE_DIR}
    && e.target.family == if e.mode == MODE_DIR then TREE else BLOB
  }

  lemma {:induction false} ItemFields(e: TreeEntry)
    ensures var fs := Item(e).fields;
      FindValue(fs, 0x01) == Some(Str(e.name)) && FindValue(fs, 0x02) == Some(U(e.mode))
          && FindValue(fs, 0x03) == Some(Ref(e.target))
  {
    var fs := Item(e).fields;
    assert fs[1..][1..] == fs[2..];
    assert FindValue(fs[2..], 0x03) == Some(fs[2].value);
    assert FindValue(fs[1..], 0x02) == Some(fs[1].value) && FindValue(fs[1..], 0x03) == Some(fs[2].value);
  }

  lemma {:induction false} EntriesAccepted(entries: seq<TreeEntry>, prev: Option<seq<byte>>)
    requires forall i :: 0 <= i < |entries| ==> GoodEntry(entries[i])
    requires InOrder(entries) && (prev.Some? && entries != [] ==> Below(prev.value, entries[0].name))
    ensures EntriesError(Items(entries), prev) == None
  {
    hide IsTreeName, Below, FindValue;
    if entries != [] {
      var e := entries[0];
      ItemFields(e);
      assert EntryError(Item(e)) == None && EntryName(Item(e)) == e.name;
      assert forall i :: 0 <= i < |entries| - 1 ==> entries[1..][i] == entries[i + 1];
      EntriesAccepted(entries[1..], Some(e.name));
      assert Items(entries)[1..] == Items(entries[1..]);
    }
  }

  predicate LimitReached(e: ObjectError) { e == LimitExceeded || e == RefCountExceeded }

  /** An encoding that goes through exactly when `ok`, has this length, and else meets a limit. */
  ghost predicate Yields(r: Result<seq<byte>, ObjectError>, ok: bool, length: nat)
  {
    if r.Ok? then ok && |r.value| == length else !ok && LimitReached(r.error)
  }

  function SizedLength(n: nat): nat { |EncodeU64(n)| + n }

  /** The length of a field with a one-byte tag. */
  function FieldLength(n: nat): nat { 1 + SizedLength(n) }

  /** The name and mode of an entry. Its size depends on nothing else, since identities have one width. */
  datatype Shape = Shape(name: Path, mode: u64)

  function ShapeSize(s: Shape): nat
  {
    SizedLength(FieldLength(SizedLength(|s.name|)) + FieldLength(|EncodeU64(s.mode)|) + FieldLength(SizedLength(33)))
  }

  function ShapesSize(shapes: seq<Shape>): nat
  {
    if shapes == [] then 0 else ShapeSize(shapes[0]) + ShapesSize(shapes[1..])
  }

  predicate NamesFit(shapes: seq<Shape>, limits: Limits)
  {
    forall i :: 0 <= i < |shapes| ==> |shapes[i].name| <= limits.maxStringBytes
  }

  /** A tree with entries of these shapes is within the limits. */
  predicate ShapesFit(shapes: seq<Shape>, limits: Limits)
  {
    && |shapes| <= limits.maxArrayElements && |shapes| <= limits.maxRefsPerObject && NamesFit(shapes, limits)
    && limits.maxRecordDepth >= (if shapes == [] then 1 else 4)
    && 17 + FieldLength(|EncodeU64(|shapes|)| + ShapesSize(shapes)) <= limits.maxObjectBytes
  }

  function Shapes(entries: seq<TreeEntry>): (r: seq<Shape>)
    ensures |r| == |entries|
  {
    if entries == [] then [] else [Shape(entries[0].name, entries[0].mode)] + Shapes(entries[1..])
  }

  lemma {:induction false} FieldEncodes(schema: Schema, f: Field, prev: nat, depth: nat, limits: Limits, ok: bool,
        n: nat)
    requires prev < f.tag < 0x80 && Yields(EncodeContent(schema, f, depth, limits), ok, n)
    ensures Yields(EncodeField(schema, f, prev, depth, limits), ok, FieldLength(n))
  {
    hide EncodeContent;
  }

  lemma {:induction false} ThreeFields(schema: Schema, fs: seq<Field>, depth: nat, limits: Limits, ok: bool,
        n: seq<nat>)
    requires |fs| == |n| == 3 && fs[0].tag == 1 && fs[1].tag == 2 && fs[2].tag == 3
    requires Yields(EncodeContent(schema, fs[0], depth, limits), ok, n[0])
    requires forall i :: 1 <= i < 3 ==> Yields(EncodeContent(schema, fs[i], depth, limits), true, n[i])
    ensures Yields(EncodeSeq(schema, fs, 0, depth, limits), ok,
        FieldLength(n[0]) + FieldLength(n[1]) + FieldLength(n[2]))
  {
    hide EncodeContent, EncodeField, EncodeU64, FieldLength;
    FieldEncodes(schema, fs[0], 0, depth, limits, ok, n[0]);
    FieldEncodes(schema, fs[1], 1, depth, limits, true, n[1]);
    FieldEncodes(schema, fs[2], 2, depth, limits, true, n[2]);
    assert fs[1..][0] == fs[1] && fs[1..][1..] == fs[2..] && fs[2..][0] == fs[2] && fs[2..][1..] == [];
    assert EncodeSeq(schema, [], 3, depth, limits) == Ok([]);
    assert Yields(EncodeSeq(schema, fs[2..], 2, depth, limits), true, FieldLength(n[2]));
    assert Yields(EncodeSeq(schema, fs[1..], 1, depth, limits), true, FieldLength(n[1]) + FieldLength(n[2]));
  }

  lemma {:induction false} EntrySpecs()
    ensures SpecIndex(ENTRY_SPECS, 1) == Some(0) && SpecIndex(ENTRY_SPECS, 2) == Some(1)
        && SpecIndex(ENTRY_SPECS, 3) == Some(2)
  {
  }

  lemma {:induction false} ContentEncodes(schema: Schema, f: Field, k: nat, depth: nat, limits: Limits, ok: bool,
        n: nat)
    requires SpecIndex(schema.specs, f.tag) == Some(k) && !f.value.Raw? && f.tag < 0x80
    requires Yields(EncodeValue(schema.specs[k].ty, f.value, depth + 1, schema, limits), ok, n)
    ensures Yields(EncodeContent(schema, f, depth, limits), ok, n)
  {
    hide EncodeValue, SpecIndex;
  }

  lemma {:induction false} EntryComplete(e: TreeEntry)
    ensures Complete(ENTRY_SPECS, Item(e).fields)
  {
    var fs := Item(e).fields;
    assert fs[0].tag == 1 && fs[1].tag == 2 && fs[2].tag == 3;
    assert HasTag(fs, 1) && HasTag(fs, 2) && HasTag(fs, 3);
  }

  lemma {:induction false} ScalarsEncode(e: TreeEntry, depth: nat, schema: Schema, limits: Limits)
    ensures Yields(EncodeValue(TStr, Str(e.name), depth, schema, limits), |e.name| <= limits.maxStringBytes,
        SizedLength(|e.name|))
    ensures Yields(EncodeValue(TU64, U(e.mode), depth, schema, limits), true, |EncodeU64(e.mode)|)
    ensures Yields(EncodeValue(TGidAny, Ref(e.target), depth, schema, limits), true, SizedLength(33))
  {
    hide EncodeU64;
  }

  lemma {:induction false} EntryContents(e: TreeEntry, depth: nat, limits: Limits)
    ensures var schema, fs := TREE_SCHEMA.(specs := ENTRY_SPECS), Item(e).fields;
      && Yields(EncodeContent(schema, fs[0], depth, limits), |e.name| <= limits.maxStringBytes, SizedLength(|e.name|))
      && Yields(EncodeContent(schema, fs[1], depth, limits), true, |EncodeU64(e.mode)|)
      && Yields(EncodeContent(schema, fs[2], depth, limits), true, SizedLength(33))
  {
    hide EncodeU64, EncodeContent, EncodeValue, SpecIndex, SizedLength;
    var schema, fs := TREE_SCHEMA.(specs := ENTRY_SPECS), Item(e).fields;
    EntrySpecs();
    ScalarsEncode(e, depth + 1, schema, limits);
    ContentEncodes(schema, fs[0], 0, depth, limits, |e.name| <= limits.maxStringBytes, SizedLength(|e.name|));
    ContentEncodes(schema, fs[1], 1, depth, limits, true, |EncodeU64(e.mode)|);
    ContentEncodes(schema, fs[2], 2, depth, limits, true, SizedLength(33));
  }

  lemma {:induction false} EntryEncodes(e: TreeEntry, depth: nat, limits: Limits)
    ensures Yields(EncodeValue(TRecord(ENTRY_SPECS), Item(e), depth, TREE_SCHEMA, limits),
                   |e.name| <= limits.maxStringBytes
                       && depth + 1 <= limits.maxRecordDepth, ShapeSize(Shape(e.name, e.mode)))
  {
    hide EncodeU64, EncodeSeq, EncodeContent, EncodeValue, SpecIndex, HasTag, FieldLength, SizedLength;
    var schema := TREE_SCHEMA.(specs := ENTRY_SPECS);
    var fs := Item(e).fields;
    var ok, n: seq<nat> :=
        |e.name| <= limits.maxStringBytes, [SizedLength(|e.name|), |EncodeU64(e.mode)|, SizedLength(33)];
    EntryComplete(e);
    EntryContents(e, depth + 1, limits);
    ThreeFields(schema, fs, depth + 1, limits, ok, n);
    RecordEncodes(schema, fs, depth, limits, ok, FieldLength(n[0]) + FieldLength(n[1]) + FieldLength(n[2]));
  }

  lemma {:induction false} RecordEncodes(schema: Schema, fs: seq<Field>, depth: nat, limits: Limits, ok: bool, n: nat)
    requires Yields(EncodeSeq(schema, fs, 0, depth + 1, limits), ok, n) && Complete(schema.specs, fs)
    ensures Yields(EncodeValue(TRecord(schema.specs), Record(fs), depth,
        schema.(specs := [FieldSpec(0x01, TArray(TRecord(schema.specs)), true)]), limits),
                   ok && depth + 1 <= limits.maxRecordDepth, SizedLength(n))
  {
    hide EncodeSeq, EncodeU64, HasTag;
  }

  lemma {:induction false} ItemsEncode(entries: seq<TreeEntry>, depth: nat, limits: Limits)
    ensures Yields(EncodeItems(TRecord(ENTRY_SPECS), Items(entries), depth, TREE_SCHEMA, limits),
                   NamesFit(Shapes(entries), limits)
                       && (entries == [] || depth + 1 <= limits.maxRecordDepth), ShapesSize(Shapes(entries)))
  {
    hide EncodeValue, ShapeSize;
    if entries != [] {
      EntryEncodes(entries[0], depth, limits);
      ItemsEncode(entries[1..], depth, limits);
      assert Items(entries)[1..] == Items(entries[1..]);
      var shapes := Shapes(entries);
      assert shapes[1..] == Shapes(entries[1..]);
      FirstFits(shapes, limits);
    }
  }

  lemma {:induction false} FirstFits(shapes: seq<Shape>, limits: Limits)
    requires shapes != []
    ensures NamesFit(shapes, limits) <==> |shapes[0].name| <= limits.maxStringBytes && NamesFit(shapes[1..], limits)
  {
    if NamesFit(shapes[1..], limits) {
      assert forall i :: 0 < i < |shapes| ==> shapes[i] == shapes[1..][i - 1];
    }
    if NamesFit(shapes, limits) {
      forall i | 0 <= i < |shapes| - 1 ensures |shapes[1..][i].name| <= limits.maxStringBytes {
        assert shapes[1..][i] == shapes[i + 1];
      }
    }
  }

  lemma {:induction false} OneField(schema: Schema, f: Field, limits: Limits, ok: bool, n: nat)
    requires f.tag == 1 && Yields(EncodeContent(schema, f, 1, limits), ok, n)
    requires Complete(schema.specs, [f])
    ensures Yields(EncodeFields(schema, [f], 1, limits), ok && 1 <= limits.maxRecordDepth, FieldLength(n))
  {
    hide EncodeContent, EncodeField, EncodeU64, FieldLength;
    FieldEncodes(schema, f, 0, 1, limits, ok, n);
    assert [f][1..] == [];
    assert EncodeSeq(schema, [], 1, 1, limits) == Ok([]);
    assert [f][0] == f;
    assert Yields(EncodeSeq(schema, [f], 0, 1, limits), ok, FieldLength(n));
  }

  lemma {:induction false} RefsCounted(entries: seq<TreeEntry>)
    ensures CountRefsItems(Items(entries)) == |entries|
  {
    if entries != [] {
      RefsCounted(entries[1..]);
      assert Items(entries)[1..] == Items(entries[1..]);
      var fs := Item(entries[0]).fields;
      assert fs[1..][1..] == fs[2..] && fs[2..][1..] == [];
      assert CountRefsFields(fs[2..]) == 1;
      assert CountRefsFields(fs[1..]) == 1;
      assert CountRefsFields(fs) == 1;
      assert CountRefs(Items(entries)[0]) == 1;
    }
  }

  lemma {:induction false} ArrayEncodes(entries: seq<TreeEntry>, limits: Limits)
    ensures Yields(EncodeValue(TArray(TRecord(ENTRY_SPECS)), Array(Items(entries)), 2, TREE_SCHEMA, limits),
                   |entries| <= limits.maxArrayElements && NamesFit(Shapes(entries), limits)
                       && (entries == [] || 4 <= limits.maxRecordDepth),
                   |EncodeU64(|entries|)| + ShapesSize(Shapes(entries)))
  {
    hide EncodeU64, EncodeItems, EncodeValue, NamesFit, ShapesSize, Items;
    ItemsEncode(entries, 3, limits);
    ArrayYields(TRecord(ENTRY_SPECS), Items(entries), 2, TREE_SCHEMA, limits,
                NamesFit(Shapes(entries), limits)
                    && (entries == [] || 4 <= limits.maxRecordDepth), ShapesSize(Shapes(entries)));
  }

  lemma {:induction false} ArrayYields(elem: Type, items: seq<Value>, depth: nat, schema: Schema, limits: Limits,
        ok: bool, n: nat)
    requires Yields(EncodeItems(elem, items, depth + 1, schema, limits), ok, n)
    ensures Yields(EncodeValue(TArray(elem), Array(items), depth, schema, limits),
                   |items| <= limits.maxArrayElements && ok, |EncodeU64(|items|)| + n)
  {
    hide EncodeU64, EncodeItems;
  }

  /** The encoder takes a tree of good entries in order exactly when their shapes are within the limits. */
  lemma {:induction false} TreeEncodes(entries: seq<TreeEntry>, w: World)
    requires forall i :: 0 <= i < |entries| ==> GoodEntry(entries[i])
    requires InOrder(entries) && w.table(TREE) == TREE_SCHEMA
    ensures var r := EncodeObject(TreeObject(entries).value, w.table, w.limits);
      if r.Ok? then ShapesFit(Shapes(entries), w.limits)
        else !ShapesFit(Shapes(entries), w.limits) && LimitReached(r.error)
  {
    hide EncodeU64, EncodeFields, EntriesError, FieldLength, NamesFit, ShapesSize, Items;
    var f := Field(0x01, Array(Items(entries)));
    EntriesAccepted(entries, None);
    RefsCounted(entries);
    assert [f][0].tag == 1 && [f][1..] == [];
    assert CountRefsFields([f]) == |entries|;
    TreeBodyEncodes(entries, w.limits);
    assert FindValue([f], 0x01) == Some(f.value);
  }

  lemma {:induction false} TreeBodyEncodes(entries: seq<TreeEntry>, limits: Limits)
    ensures Yields(EncodeFields(TREE_SCHEMA, [Field(0x01, Array(Items(entries)))], 1, limits),
                   |entries| <= limits.maxArrayElements && NamesFit(Shapes(entries), limits)
                       && limits.maxRecordDepth >= (if entries == [] then 1 else 4),
                   FieldLength(|EncodeU64(|entries|)| + ShapesSize(Shapes(entries))))
  {
    hide EncodeU64, EncodeFields, EncodeValue, FieldLength, NamesFit, ShapesSize, Items, Shapes;
    var f := Field(0x01, Array(Items(entries)));
    var ok := |entries| <= limits.maxArrayElements && NamesFit(Shapes(entries), limits)
        && (entries == [] || 4 <= limits.maxRecordDepth);
    var n := |EncodeU64(|entries|)| + ShapesSize(Shapes(entries));
    ArrayEncodes(entries, limits);
    assert SpecIndex(TREE_SCHEMA.specs, 1) == Some(0);
    ContentEncodes(TREE_SCHEMA, f, 0, 1, limits, ok, n);
    assert [f][0].tag == 1;
    assert HasTag([f], 1);
    OneField(TREE_SCHEMA, f, limits, ok, n);
  }

  ghost predicate ByLimit(e: BuildError) { e.Failed? && e.e.Refused? && LimitReached(e.e.e) }

  // The names of canonical paths.

  lemma {:induction false} SegmentEndsBy(p: Path, i: nat)
    requires i < |p| && p[i] == SLASH
    ensures SegmentEnd(p) <= i
  {
    var first := p[..SegmentEnd(p)];
    assert i < |first| ==> first[i] in first;
  }

  /** The segments after the first separator are segments of the path. */
  lemma {:induction false} SplitRest(p: Path, segment: Path)
    requires SegmentEnd(p) < |p| && segment in Split(p[SegmentEnd(p) + 1..])
    ensures segment in Split(p)
  {
    hide SegmentEnd;
    var rest := Split(p[SegmentEnd(p) + 1..]);
    assert Split(p) == [p[..SegmentEnd(p)]] + rest;
  }

  /** So are those after any separator. */
  lemma {:induction false} SplitSuffix(p: Path, k: nat, segment: Path)
    requires 0 < k <= |p| && p[k - 1] == SLASH && segment in Split(p[k..])
    ensures segment in Split(p)
  {
    hide SegmentEnd, Split;
    var e := SegmentEnd(p);
    SegmentEndsBy(p, k - 1);
    var rest := p[e + 1..];
    if e < k - 1 {
      assert rest[k - e - 2] == p[k - 1];
      assert rest[k - e - 1..] == p[k..];
      SplitSuffix(rest, k - e - 1, segment);
    } else {
      assert rest == p[k..];
    }
    SplitRest(p, segment);
  }

  lemma {:induction false} NameIsTreeName(files: Files, prefix: Path, name: Path)
    requires CanonicalPaths(files) && name in NamesUnder(files, prefix)
    ensures IsTreeName(name)
  {
    hide ValidUtf8, SegmentEnd, Split;
    var u := Under(prefix);
    var p :| p in files && u <= p && FirstSegment(p[|u|..]) == name;
    var rest := p[|u|..];
    assert Split(rest)[0] == name;
    if prefix != [] {
      assert p[|u| - 1] == u[|u| - 1] == SLASH;
      SplitSuffix(p, |u|, name);
    } else {
      assert rest == p;
    }
    assert name in Split(p);
    assert forall c :: c in name ==> c in rest && c in p;
  }

  lemma {:induction false} EntryGood(files: Files, prefix: Path, name: Path, w: World)
    requires CanonicalPaths(files) && RegularFiles(files) && Buildable(files) && name in NamesUnder(files, prefix)
    ensures var r := PlanEntry(files, prefix, name, w); r.Ok? ==> GoodEntry(r.value)
  {
    hide IsTreeName, NamesUnder, EncodeObject, PlanEntries, IsDir;
    NameIsTreeName(files, prefix, name);
  }

  /** Under a name there is a file or a directory, and both only where a file is inside a file. */
  lemma {:induction false} NameLeads(files: Files, prefix: Path, name: Path)
    requires name in NamesUnder(files, prefix)
    ensures var child := Under(prefix) + name; child in files || IsDir(files, child)
    ensures var child := Under(prefix) + name; NoFileInsideFile(files) ==> !(child in files && IsDir(files, child))
  {
    hide SegmentEnd;
    var u := Under(prefix);
    var p :| p in files && u <= p && FirstSegment(p[|u|..]) == name;
    ChildOrInside(p, u, name);
  }

  /** The mode the builder gives a child. */
  function ChildMode(files: Files, child: Path): u64
  {
    if !IsDir(files, child) && child in files then files[child].mode else MODE_DIR
  }

  function ChildShapes(files: Files, prefix: Path, names: seq<Path>): (r: seq<Shape>)
    ensures |r| == |names|
  {
    if names == [] then []
    else [Shape(names[0], ChildMode(files, Under(prefix) + names[0]))] + ChildShapes(files, prefix, names[1..])
  }

  /** The tree of a prefix and all trees below it are within the limits. */
  ghost predicate AllFit(files: Files, prefix: Path, limits: Limits)
    requires Buildable(files)
    decreases Room(files, prefix)
  {
    && ShapesFit(ChildShapes(files, prefix, Sorted(NamesUnder(files, prefix))), limits)
    && forall name :: BuildsBelow(files, prefix, name) ==>
         (RoomShrinks(files, prefix, name); AllFit(files, Under(prefix) + name, limits))
  }

  /** Entries have the shapes that names and modes give them. */
  lemma {:induction false} EntriesShaped(files: Files, prefix: Path, names: seq<Path>, w: World)
    requires Buildable(files) && (forall n :: n in names ==> n in NamesUnder(files, prefix))
    requires PlanEntries(files, prefix, names, w).Ok?
    ensures Shapes(PlanEntries(files, prefix, names, w).value) == ChildShapes(files, prefix, names)
  {
    hide NamesUnder, PlanTree, IsDir, Identify;
    if names != [] {
      EntriesShaped(files, prefix, names[1..], w);
      var entries := PlanEntries(files, prefix, names, w).value;
      assert entries[1..] == PlanEntries(files, prefix, names[1..], w).value;
    }
  }

  /** A tree goes through exactly when its own entries do and it is within the limits itself. */
  lemma {:induction false} TreeBuilds(files: Files, prefix: Path, w: World)
    requires CanonicalPaths(files) && RegularFiles(files) && Buildable(files) && w.table(TREE) == TREE_SCHEMA
    ensures var names := Sorted(NamesUnder(files, prefix));
      var entries, r := PlanEntries(files, prefix, names, w), Identified(PlanTree(files, prefix, w), w);
      && (r.Ok? <==> entries.Ok? && ShapesFit(ChildShapes(files, prefix, names), w.limits))
      && (entries.Err? ==> r == Err(entries.error)) && (entries.Ok? && r.Err? ==> ByLimit(r.error))
  {
    hide NamesUnder, Sorted, EncodeObject, PlanEntry, PlanEntries, ShapesFit, CanonicalPaths, RegularFiles, GoodEntry,
        InOrder, LimitReached;
    var names := Sorted(NamesUnder(files, prefix));
    var r := PlanEntries(files, prefix, names, w);
    if r.Ok? {
      PlanInOrder(files, prefix, w);
      EntriesNamed(files, prefix, names, w);
      EntriesShaped(files, prefix, names, w);
      forall i | 0 <= i < |names| ensures GoodEntry(r.value[i]) { EntryGood(files, prefix, names[i], w); }
      TreeEncodes(r.value, w);
    }
  }

  /** Without a file inside a file, a tree is built exactly when it and all trees below it are within
      the limits, and is refused by a limit otherwise. */
  lemma {:induction false} BuildsWhenFits(files: Files, prefix: Path, w: World)
    requires CanonicalPaths(files) && RegularFiles(files) && Buildable(files) && NoFileInsideFile(files)
    requires w.table(TREE) == TREE_SCHEMA
    ensures var r := Identified(PlanTree(files, prefix, w), w);
      if r.Ok? then AllFit(files, prefix, w.limits) else !AllFit(files, prefix, w.limits) && ByLimit(r.error)
    decreases Room(files, prefix), 2
  {
    hide NamesUnder, Sorted, PlanTree, PlanEntries, Identified, ByLimit, ShapesFit, BuildsBelow;
    TreeBuilds(files, prefix, w);
    var names := Sorted(NamesUnder(files, prefix));
    EntriesWhenFit(files, prefix, names, w);
    forall name | BuildsBelow(files, prefix, name) ensures name in names { BuildsListed(files, prefix, name); }
  }

  lemma {:induction false} BuildsListed(files: Files, prefix: Path, name: Path)
    requires BuildsBelow(files, prefix, name)
    ensures name in Sorted(NamesUnder(files, prefix))
  {
  }

  /** The subtrees of these names are within the limits. */
  ghost predicate BelowFit(files: Files, prefix: Path, names: seq<Path>, limits: Limits)
    requires Buildable(files)
  {
    forall name :: name in names && BuildsBelow(files, prefix, name) ==> AllFit(files, Under(prefix) + name, limits)
  }

  lemma {:induction false} EntriesWhenFit(files: Files, prefix: Path, names: seq<Path>, w: World)
    requires CanonicalPaths(files) && RegularFiles(files) && Buildable(files) && NoFileInsideFile(files)
    requires w.table(TREE) == TREE_SCHEMA && forall n :: n in names ==> n in NamesUnder(files, prefix)
    ensures var r := PlanEntries(files, prefix, names, w);
      if r.Ok? then BelowFit(files, prefix, names, w.limits)
        else !BelowFit(files, prefix, names, w.limits) && ByLimit(r.error)
    decreases Room(files, prefix), 1, |names|
  {
    hide NamesUnder, PlanTree, IsDir, Identify, AllFit, ByLimit;
    if names != [] {
      var name := names[0];
      NameLeads(files, prefix, name);
      if BuildsBelow(files, prefix, name) {
        RoomShrinks(files, prefix, name);
        BuildsWhenFits(files, Under(prefix) + name, w);
      }
      EntriesWhenFit(files, prefix, names[1..], w);
      var first := BuildsBelow(files, prefix, name) ==> AllFit(files, Under(prefix) + name, w.limits);
      assert BelowFit(files, prefix, names, w.limits) <==> first && BelowFit(files, prefix, names[1..], w.limits);
    }
  }

  /** Canonical paths to regular files: building succeeds exactly when no path is a directory prefix of
      another and every tree is within the limits; without such a prefix only a limit refuses. */
  lemma {:induction false} BuildsExactly(files: Files, w: World)
    requires CanonicalPaths(files) && RegularFiles(files) && w.table(TREE) == TREE_SCHEMA
    ensures Buildable(files)
    ensures var r := Identified(PlanTree(files, [], w), w);
      && (r.Ok? <==> NoFileInsideFile(files) && AllFit(files, [], w.limits))
      && (NoFileInsideFile(files) && r.Err? ==> ByLimit(r.error))
  {
    hide PlanTree, AllFit, ByLimit;
    if NoFileInsideFile(files) {
      BuildsWhenFits(files, [], w);
    } else {
      var p, q :| p in files && q in files && p + [SLASH] <= q;
      ConflictFails(files, [], p, q, w);
    }
  }

  // ---- Flattening undoes building ----

  /** The tree for a prefix and every tree below it are stored. */
  ghost predicate Published(objects: ObjectMap, files: Files, prefix: Path, w: World)
    requires Buildable(files)
    decreases Room(files, prefix)
  {
    var tree := PlanTree(files, prefix, w);
    && tree.Ok? && Identify(tree.value, w).Ok?
    && StoredAs(objects, tree.value, w)
    && forall name :: BuildsBelow(files, prefix, name) ==>
         (RoomShrinks(files, prefix, name); Published(objects, files, Under(prefix) + name, w))
  }

  ghost predicate StoredAs(objects: ObjectMap, obj: Object, w: World)
    requires Identify(obj, w).Ok?
  {
    var d := Identify(obj, w).value.digest;
    d in objects && objects[d] == EncodeObject(obj, w.table, w.limits).value
  }

  lemma {:induction false} PublishedGrows(objects: ObjectMap, objects': ObjectMap, files: Files, prefix: Path, w: World)
    requires Buildable(files) && Published(objects, files, prefix, w) && Grows(objects, objects')
    ensures Published(objects', files, prefix, w)
    decreases Room(files, prefix)
  {
    hide NamesUnder, PlanTree, Identify, EncodeObject;
    forall name | BuildsBelow(files, prefix, name)
      ensures Room(files, Under(prefix) + name) < Room(files, prefix)
          && Published(objects', files, Under(prefix) + name, w)
    {
      RoomShrinks(files, prefix, name);
      PublishedGrows(objects, objects', files, Under(prefix) + name, w);
    }
  }

  /** The files under a prefix whose first name is one of these. */
  ghost function Beneath(files: Files, prefix: Path, names: set<Path>): Files
  {
    map p | p in files && Under(prefix) <= p && FirstSegment(p[|Under(prefix)|..]) in names :: files[p]
  }

  /** The files under a prefix. */
  ghost function Subtree(files: Files, prefix: Path): Files
  {
    map p | p in files && Under(prefix) <= p :: files[p]
  }

  /** What one name contributes: the files of its directory, or its own file. */
  lemma {:induction false} OneName(files: Files, prefix: Path, name: Path)
    requires name in NamesUnder(files, prefix)
    ensures var child := Under(prefix) + name;
      && (IsDir(files, child) && child !in files && child != [] ==>
          Beneath(files, prefix, {name}) == Subtree(files, child))
      && (!IsDir(files, child) ==> child in files && Beneath(files, prefix, {name}) == map[child := files[child]])
  {
    hide SegmentEnd;
    var u := Under(prefix);
    var child := u + name;
    var q :| q in files && u <= q && FirstSegment(q[|u|..]) == name;
    ChildOrInside(q, u, name);
    forall p | p in files
      ensures u <= p && FirstSegment(p[|u|..]) == name <==> p == child || child + [SLASH] <= p
    {
      if u <= p { ChildOrInside(p, u, name); }
      if child + [SLASH] <= p { assert p[..|u|] == u; }
    }
  }

  lemma {:induction false} ReadsItem(e: TreeEntry)
    ensures ReadEntry(Item(e)) == Ok(e)
  {
    ItemFields(e);
  }

  /** Laying one name's files over a map, then those of the others, lays them all. */
  lemma {:induction false} BeneathJoins(files: Files, prefix: Path, name: Path, others: set<Path>, out: Files)
    ensures out + Beneath(files, prefix, {name}) + Beneath(files, prefix, others)
        == out + Beneath(files, prefix, {name} + others)
  {
    hide SegmentEnd, Under;
  }

  lemma {:induction false} AllNames(files: Files, prefix: Path, names: seq<Path>)
    requires forall n :: n in NamesUnder(files, prefix) ==> n in names
    ensures Beneath(files, prefix, set n | n in names) == Subtree(files, prefix)
  {
    hide SegmentEnd, NamesUnder;
    forall p | p in files && Under(prefix) <= p ensures FirstSegment(p[|Under(prefix)|..]) in names {
      InNames(files, prefix, p);
    }
  }

  /** Flattening the published tree of a prefix adds exactly the files under it. */
  lemma {:induction false} FlattenPublished(objects: ObjectMap, files: Files, prefix: Path, out: Files, depth: nat,
        w: World)
    requires Supported(w) && Buildable(files) && RegularFiles(files)
    requires Published(objects, files, prefix, w) && depth > Room(files, prefix)
    ensures Flatten(objects, Identify(PlanTree(files, prefix, w).value, w).value, prefix, out, depth, w)
        == Ok(out + Subtree(files, prefix))
    decreases Room(files, prefix), 1, 0
  {
    hide NamesUnder, EncodeObject, Load, Identify, FlattenItems, PlanEntries, SegmentEnd;
    var names := Sorted(NamesUnder(files, prefix));
    var tree := PlanTree(files, prefix, w).value;
    var entries := PlanEntries(files, prefix, names, w).value;
    LoadsBack(objects, tree, Identify(tree, w).value, w);
    FlattenNames(objects, files, prefix, names, out, depth, w);
    assert FindValue(tree.body.fields, 0x01) == Some(Array(Items(entries)));
    AllNames(files, prefix, names);
  }

  lemma {:induction false} FlattenNames(objects: ObjectMap, files: Files, prefix: Path, names: seq<Path>, out: Files,
        depth: nat, w: World)
    requires Supported(w) && Buildable(files) && RegularFiles(files)
    requires Published(objects, files, prefix, w) && depth > Room(files, prefix)
    requires (forall n :: n in names ==> n in NamesUnder(files, prefix)) && PlanEntries(files, prefix, names, w).Ok?
    ensures FlattenItems(objects, Items(PlanEntries(files, prefix, names, w).value), prefix, out, depth, w)
         == Ok(out + Beneath(files, prefix, set n | n in names))
    decreases Room(files, prefix), 0, |names|
  {
    hide NamesUnder, EncodeObject, Load, Identify, PlanEntry, FlattenItem, SegmentEnd, Published, Beneath;
    if names == [] {
      assert Beneath(files, prefix, {}) == map[] by { NothingBeneath(files, prefix); }
      assert (set n | n in names) == {};
      assert out + map[] == out;
    } else {
      var entry := PlanEntry(files, prefix, names[0], w).value;
      var others := set n | n in names[1..];
      FlattenName(objects, files, prefix, names[0], out, depth, w);
      var out' := out + Beneath(files, prefix, {names[0]});
      FlattenNames(objects, files, prefix, names[1..], out', depth, w);
      var items := Items(PlanEntries(files, prefix, names, w).value);
      assert items[0] == Item(entry) && items[1..] == Items(PlanEntries(files, prefix, names[1..], w).value);
      BeneathJoins(files, prefix, names[0], others, out);
      assert (set n | n in names) == {names[0]} + others;
    }
  }

  lemma {:induction false} NothingBeneath(files: Files, prefix: Path)
    ensures Beneath(files, prefix, {}) == map[]
  {
  }

  lemma {:induction false} FlattenName(objects: ObjectMap, files: Files, prefix: Path, name: Path, out: Files,
        depth: nat, w: World)
    requires Supported(w) && Buildable(files) && RegularFiles(files)
    requires Published(objects, files, prefix, w) && depth > Room(files, prefix)
    requires name in NamesUnder(files, prefix) && PlanEntry(files, prefix, name, w).Ok?
    ensures FlattenItem(objects, Item(PlanEntry(files, prefix, name, w).value), prefix, out, depth, w)
         == Ok(out + Beneath(files, prefix, {name}))
    decreases Room(files, prefix), 0, 0
  {
    hide NamesUnder, EncodeObject, Load, Identify, ReadEntry, Flatten, SegmentEnd, Beneath, PlanTree, Subtree;
    var child := Under(prefix) + name;
    var entry := PlanEntry(files, prefix, name, w).value;
    ReadsItem(entry);
    OneName(files, prefix, name);
    if IsDir(files, child) {
      RoomShrinks(files, prefix, name);
      FlattenPublished(objects, files, child, out, depth - 1, w);
    } else {
      assert out + map[child := files[child]] == out[child := files[child]];
    }
  }

}
