/** What every state that can be read is like (src/content.rs). */
module StateLaws {
  import opened Varint
  import opened Paths
  import opened Wrappers
  import opened Objects
  import opened Validate
  import opened Codec
  import opened CodecLaws
  import Conformance
  import opened States
  import opened Store
  import opened Trees
  import opened TreeLaws
  import opened TreePrograms

  // The decoder's rules for trees make the files of a state canonical paths to regular files, and no file
  // lies inside another.

  ghost predicate WellFormed(files: Files)
  {
    CanonicalPaths(files) && RegularFiles(files) && NoFileInsideFile(files)
  }

  // ---- Joining names to paths ----

  lemma {:induction false} Utf8Concat(s: seq<byte>, t: seq<byte>)
    requires ValidUtf8(s) && ValidUtf8(t)
    ensures ValidUtf8(s + t)
  {
    if s == [] {
      assert s + t == t;
    } else {
      var n := Utf8Width(s);
      SameWidth(s, t);
      Utf8Concat(s[n..], t);
      assert (s + t)[n..] == s[n..] + t;
    }
  }

  lemma {:induction false} SameWidth(s: seq<byte>, t: seq<byte>)
    requires s != [] && Utf8Width(s) > 0
    ensures Utf8Width(s + t) == Utf8Width(s)
  {
  }

  lemma {:induction false} NoSlash(n: Path)
    requires SLASH !in n
    ensures SegmentEnd(n) == |n| && Split(n) == [n]
  {
    if n != [] { NoSlash(n[1..]); }
  }

  lemma {:induction false} SegmentOf(p: Path, n: Path)
    ensures SegmentEnd(p + [SLASH] + n) == SegmentEnd(p)
  {
    var q := p + [SLASH] + n;
    if p == [] {
      assert q[0] == SLASH;
    } else {
      assert q[0] == p[0] && q[1..] == p[1..] + [SLASH] + n;
      SegmentOf(p[1..], n);
    }
  }

  lemma {:induction false} SplitJoin(p: Path, n: Path)
    requires SLASH !in n
    ensures Split(p + [SLASH] + n) == Split(p) + [n]
    decreases |p|
  {
    var q, k := p + [SLASH] + n, SegmentEnd(p);
    SegmentOf(p, n);
    assert q[..k] == p[..k];
    if k == |p| {
      assert q[k + 1..] == n && p[..k] == p;
      NoSlash(n);
    } else {
      assert q[k + 1..] == p[k + 1..] + [SLASH] + n;
      SplitJoin(p[k + 1..], n);
    }
  }

  /** A name joined to a directory makes a canonical path. */
  lemma {:induction false} JoinCanonical(prefix: Path, n: Utf8)
    requires (prefix == [] || IsCanonicalPath(prefix)) && ValidUtf8(prefix) && IsTreeName(n)
    ensures IsCanonicalPath(Under(prefix) + n) && ValidUtf8(Under(prefix) + n)
  {
    hide ValidUtf8, Split, SegmentEnd;
    var p := Under(prefix) + n;
    assert n[0] in n && n[|n| - 1] in n;
    if prefix == [] {
      assert p == n;
      NoSlash(n);
    } else {
      SplitJoin(prefix, n);
      assert p[0] == prefix[0] && p[|p| - 1] == n[|n| - 1];
      assert forall c :: c in p ==> c in prefix || c == SLASH || c in n;
      assert ValidUtf8([SLASH]) by { SlashValid(); }
      Utf8Concat(prefix, [SLASH]);
      Utf8Concat(prefix + [SLASH], n);
    }
  }

  lemma {:induction false} SlashValid()
    ensures ValidUtf8([SLASH])
  {
    assert [SLASH][1..] == [];
  }

  // ---- Files under one name ----

  /** A file and what lies inside it have the same first name. */
  lemma {:induction false} SameFirst(p: Path, q: Path, u: Path)
    requires u <= p && p + [SLASH] <= q
    ensures u <= q && FirstSegment(q[|u|..]) == FirstSegment(p[|u|..])
  {
    hide SegmentEnd;
    var n := FirstSegment(p[|u|..]);
    assert q[..|p|] == p && q[..|u|] == p[..|u|];
    ChildOrInside(p, u, n);
    if p != u + n { assert q[..|u + n + [SLASH]|] == p[..|u + n + [SLASH]|]; }
    ChildOrInside(q, u, n);
  }

  /** Files whose paths lie under a prefix, with first names above `prev`. */
  ghost predicate FirstsAbove(files: Files, prefix: Path, prev: Option<seq<byte>>)
  {
    forall p :: p in files ==>
        Under(prefix) <= p && (prev.Some? ==> Below(prev.value, FirstSegment(p[|Under(prefix)|..])))
  }

  /** Files whose paths lie under a prefix and start with this name. */
  ghost predicate FirstIs(files: Files, prefix: Path, name: Path)
  {
    forall p :: p in files ==> Under(prefix) <= p && FirstSegment(p[|Under(prefix)|..]) == name
  }

  /** Files of one name and files of later names make well-formed files together. */
  lemma {:induction false} JoinNames(files: Files, more: Files, prefix: Path, name: Path, prev: Option<seq<byte>>)
    requires WellFormed(files) && WellFormed(more) && FirstIs(files, prefix, name)
        && FirstsAbove(more, prefix, Some(name))
    requires prev.Some? ==> Below(prev.value, name)
    ensures WellFormed(files + more) && FirstsAbove(files + more, prefix, prev)
  {
    hide IsCanonicalPath, ValidUtf8, FirstSegment, Below, IsFileEntry;
    var all := files + more;
    forall p, q | p in all && q in all ensures !(p + [SLASH] <= q) {
      if p + [SLASH] <= q {
        SameFirst(p, q, Under(prefix));
        BelowTotal(name, name);
      }
    }
    forall p | p in all ensures Under(prefix) <= p
        && (prev.Some? ==> Below(prev.value, FirstSegment(p[|Under(prefix)|..]))) {
      if prev.Some? && p in more { BelowTransitive(prev.value, name, FirstSegment(p[|Under(prefix)|..])); }
    }
  }

  // ---- Flattening ----

  lemma {:induction false} LoadedValid(objects: ObjectMap, g: Gid, w: World)
    requires Load(objects, g, w).Ok?
    ensures var obj := Load(objects, g, w).value; obj.family == g.family && ValidationError(obj, w.limits) == None
  {
    hide DecodeBody, ValidationError, ReadVarint;
  }

  ghost predicate Directory(prefix: Path) { ValidUtf8(prefix) && (prefix == [] || IsCanonicalPath(prefix)) }

  /** Flattening a tree adds well-formed files under its prefix. */
  lemma {:induction false} FlattenAdds(objects: ObjectMap, tree: Gid, prefix: Path, out: Files, depth: nat, w: World)
    returns (added: Files)
    requires tree.family == TREE && Directory(prefix) && Flatten(objects, tree, prefix, out, depth, w).Ok?
    ensures Flatten(objects, tree, prefix, out, depth, w) == Ok(out + added)
    ensures WellFormed(added) && FirstsAbove(added, prefix, None)
    decreases depth, 1, 0
  {
    hide Load, EntriesError, CountRefsFields, FindValue, FlattenItems, WellFormed, FirstsAbove, Directory;
    LoadedValid(objects, tree, w);
    var fields := Load(objects, tree, w).value.body.fields;
    added := ItemsAdd(objects, FindValue(fields, 0x01).value.items, None, prefix, out, depth, w);
  }

  lemma {:induction false} NothingAdded(prefix: Path, prev: Option<seq<byte>>, out: Files)
    ensures WellFormed(map[]) && FirstsAbove(map[], prefix, prev) && out + map[] == out
  {
  }

  lemma {:induction false} ItemsAdd(objects: ObjectMap, items: seq<Value>, prev: Option<seq<byte>>, prefix: Path,
        out: Files, depth: nat, w: World) returns (added: Files)
    requires depth > 0 && Directory(prefix) && EntriesError(items, prev) == None
    requires FlattenItems(objects, items, prefix, out, depth, w).Ok?
    ensures FlattenItems(objects, items, prefix, out, depth, w) == Ok(out + added)
    ensures WellFormed(added) && FirstsAbove(added, prefix, prev)
    decreases depth, 0, |items|
  {
    hide EntryError, EntryName, FlattenItem, WellFormed, FirstsAbove, FirstIs, Below, Directory;
    if items == [] {
      added := map[];
      NothingAdded(prefix, prev, out);
    } else {
      var first := ItemAdds(objects, items[0], prefix, out, depth, w);
      var rest := ItemsAdd(objects, items[1..], Some(EntryName(items[0])), prefix, out + first, depth, w);
      added := first + rest;
      assert out + first + rest == out + added;
      JoinNames(first, rest, prefix, EntryName(items[0]), prev);
    }
  }

  lemma {:induction false} ItemAdds(objects: ObjectMap, item: Value, prefix: Path, out: Files, depth: nat, w: World)
    returns (added: Files)
    requires depth > 0 && Directory(prefix) && EntryError(item) == None
        && FlattenItem(objects, item, prefix, out, depth, w).Ok?
    ensures FlattenItem(objects, item, prefix, out, depth, w) == Ok(out + added)
    ensures WellFormed(added) && FirstIs(added, prefix, EntryName(item))
    decreases depth, 0, 0
  {
    hide Flatten, IsTreeName, IsCanonicalPath, ValidUtf8, FindValue, WellFormed, FirstIs, FirstsAbove;
    var e := ReadEntry(item).value;
    var path := Under(prefix) + e.name;
    JoinCanonical(prefix, e.name);
    if e.mode == MODE_DIR {
      added := FlattenAdds(objects, e.target, path, out, depth - 1, w);
      assert FirstIs(added, prefix, e.name) by { InsideName(added, prefix, e.name); }
    } else {
      added := map[path := Entry(e.mode, e.target)];
      assert out + added == out[path := Entry(e.mode, e.target)];
      OneFile(prefix, e.name, Entry(e.mode, e.target));
    }
  }

  lemma {:induction false} InsideName(files: Files, prefix: Path, name: Path)
    requires IsTreeName(name) && FirstsAbove(files, Under(prefix) + name, None)
    ensures FirstIs(files, prefix, name)
  {
    hide FirstSegment;
    var u := Under(prefix);
    forall p | p in files ensures u <= p && FirstSegment(p[|u|..]) == name {
      assert u + name + [SLASH] <= p;
      assert p[..|u|] == u;
      ChildOrInside(p, u, name);
    }
  }

  lemma {:induction false} OneFile(prefix: Path, name: Path, e: Entry)
    requires IsTreeName(name) && ValidUtf8(Under(prefix) + name) && IsCanonicalPath(Under(prefix) + name)
        && IsFileEntry(e)
    ensures WellFormed(map[Under(prefix) + name := e]) && FirstIs(map[Under(prefix) + name := e], prefix, name)
  {
    hide FirstSegment, ValidUtf8, IsCanonicalPath;
    ChildOrInside(Under(prefix) + name, Under(prefix), name);
  }

  // ---- States ----

  /** The tree of an encodable state is a tree. */
  lemma {:induction false} TreeOfState(fields: seq<Field>, prev: nat, limits: Limits)
    requires EncodeSeq(STATE_SCHEMA, fields, prev, 1, limits).Ok?
    ensures match FindValue(fields, 0x01)
      case Some(Ref(g)) => g.family == TREE
      case _ => true
  {
    hide EncodeU64;
    if fields != [] {
      var f := fields[0];
      assert EncodeContent(STATE_SCHEMA, f, 1, limits).Ok?;
      if f.tag == 0x01 {
        assert SpecIndex(STATE_SCHEMA.specs, 1) == Some(0);
      } else {
        TreeOfState(fields[1..], f.tag, limits);
      }
    }
  }

  lemma {:induction false} StateTree(objects: ObjectMap, state: Gid, w: World)
    requires w.table(STATE) == STATE_SCHEMA && state.family == STATE && Load(objects, state, w).Ok?
    ensures Load(objects, state, w).value.body.Fields?
    ensures match FindValue(Load(objects, state, w).value.body.fields, 0x01)
      case Some(Ref(g)) => g.family == TREE
      case _ => true
  {
    hide DecodeObject, EncodeSeq, FindValue;
    var obj := Load(objects, state, w).value;
    var body := AcceptedBytes(objects[state.digest], w.table, w.limits, obj);
    TreeOfState(obj.body.fields, 0, w.limits);
  }

  /** The files of every state that can be read are canonical paths to regular files, none inside another. */
  lemma {:induction false} StateWellFormed(objects: ObjectMap, state: Gid, depth: nat, w: World)
    requires w.table(STATE) == STATE_SCHEMA && StateFiles(objects, state, depth, w).Ok?
    ensures WellFormed(StateFiles(objects, state, depth, w).value)
  {
    hide Load, Flatten, FindValue, WellFormed, FirstsAbove;
    LoadedValid(objects, state, w);
    StateTree(objects, state, w);
    var tree := FindValue(Load(objects, state, w).value.body.fields, 0x01).value.gid;
    var added := FlattenAdds(objects, tree, [], map[], depth, w);
    assert map[] + added == added;
  }

  // ---- The bytes of trees and states ----

  /** The 45 bytes of a state: the envelope of family 3 around one field, the identity of its root tree. */
  lemma {:induction false} StateBytes(tree: Gid, table: Table, limits: Limits)
    requires EncodeObject(StateObject(tree), table, limits).Ok?
    ensures EncodeObject(StateObject(tree), table, limits).value
      == [0x47, 0x45, 0x4D, 0x4C, 0x01, 0x03, 0x01, 0x00, 0x24, 0x01, 0x22, 0x21, tree.family as byte] + tree.digest
  {
    hide EncodeU64, EncodeFields, ValidationError, EncodeObject, Conformance.ObjectConforms;
    var body := Conformance.ObjectEncodes(StateObject(tree), table, limits);
    var fields := [Field(0x01, Ref(tree))];
    assert fields[1..] == [];
    Conformance.SmallNumber(1);
    Conformance.SmallNumber(34);
    Conformance.SmallNumber(36);
    assert body == Conformance.WrittenFields(fields) == [0x01, 0x22, 0x21, tree.family as byte] + tree.digest;
  }

  /** The bytes of a tree entry: its name, its mode and its target in fields 1, 2 and 3, after their length. */
  lemma {:induction false} EntryBytes(e: TreeEntry)
    ensures var named := EncodeU64(|e.name|) + e.name;
      var first, second :=
          [0x01] + (EncodeU64(|named|) + named), [0x02] + (EncodeU64(|EncodeU64(e.mode)|) + EncodeU64(e.mode));
      var third := [0x03, 0x22, 0x21, e.target.family as byte] + e.target.digest;
      Conformance.Written(Item(e)) == EncodeU64(|first + second + third|) + (first + second + third)
  {
    var named := EncodeU64(|e.name|) + e.name;
    var first, second :=
        [0x01] + (EncodeU64(|named|) + named), [0x02] + (EncodeU64(|EncodeU64(e.mode)|) + EncodeU64(e.mode));
    var third := [0x03, 0x22, 0x21, e.target.family as byte] + e.target.digest;
    var name, mode, target := Field(0x01, Str(e.name)), Field(0x02, U(e.mode)), Field(0x03, Ref(e.target));
    Conformance.SmallNumber(1);
    Conformance.SmallNumber(2);
    Conformance.SmallNumber(3);
    Conformance.SmallNumber(34);
    WrittenOn(target, []);
    assert Conformance.WrittenFields([target] + []) == third by { hide EncodeU64; }
    hide EncodeU64, Conformance.WrittenFields;
    WrittenOn(mode, [target] + []);
    WrittenOn(name, [mode] + ([target] + []));
    assert [name] + ([mode] + ([target] + [])) == [name, mode, target];
    assert Conformance.WrittenFields([name, mode, target]) == first + (second + third) == first + second + third;
  }

  lemma {:induction false} WrittenOn(f: Field, rest: seq<Field>)
    ensures Conformance.WrittenFields([f] + rest)
      == EncodeU64(f.tag) + (EncodeU64(|Conformance.Written(f.value)|) + Conformance.Written(f.value))
         + Conformance.WrittenFields(rest)
  {
    hide EncodeU64, Conformance.Written;
    assert ([f] + rest)[1..] == rest;
  }
}
