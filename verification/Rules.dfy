/** What validation accepts (src/validate.rs). */
module Rules {
  import opened Varint
  import opened Paths
  import opened Wrappers
  import opened Objects
  import opened Validate

  // The rules for paths and for the four families that have rules, without the pass that checks them: validation
  // accepts exactly the objects that keep the rules and hold no more references than the limit.

  // ---- Paths ----

  /** A part of a path from the start or a separator to the next separator or the end. */
  ghost predicate PartAt(p: seq<byte>, i: int, j: int)
  {
    0 <= i <= j <= |p| && (i == 0 || p[i - 1] == 0x2F) && (j == |p| || p[j] == 0x2F) && 0x2F !in p[i..j]
  }

  /** No backslash and no zero byte, and no part is empty, "." or "..". */
  ghost predicate GoodPath(p: seq<byte>)
  {
    && 0x5C !in p && 0x00 !in p
    && forall i, j :: PartAt(p, i, j) ==> p[i..j] != [] && p[i..j] != [0x2E] && p[i..j] != [0x2E, 0x2E]
  }

  ghost predicate PartOf(p: seq<byte>, part: seq<byte>) { exists i, j :: PartAt(p, i, j) && p[i..j] == part }

  lemma {:induction false} SplitParts(p: seq<byte>, part: seq<byte>)
    ensures part in Split(p) <==> PartOf(p, part)
    decreases |p|
  {
    var k := SegmentEnd(p);
    assert PartAt(p, 0, k) && p[0..k] == p[..k];
    if k == |p| {
      WholePart(p, part);
    } else {
      SplitParts(p[k + 1..], part);
      LaterParts(p, k, part);
    }
  }

  lemma {:induction false} WholePart(p: seq<byte>, part: seq<byte>)
    requires SegmentEnd(p) == |p|
    ensures PartOf(p, part) <==> part == p
  {
    hide SegmentEnd;
    assert p[..|p|] == p;
    forall m | 0 <= m < |p| ensures p[m] != SLASH { assert p[m] in p; }
    assert PartAt(p, 0, |p|) && p[0..|p|] == p;
  }

  lemma {:induction false} LaterParts(p: seq<byte>, k: nat, part: seq<byte>)
    requires k < |p| && p[k] == SLASH && SLASH !in p[..k]
    ensures PartOf(p, part) <==> part == p[..k] || PartOf(p[k + 1..], part)
  {
    var rest := p[k + 1..];
    forall m | 0 <= m < k ensures p[m] != SLASH { assert p[..k][m] == p[m]; }
    forall i, j | 0 <= i <= k < j <= |p| ensures SLASH in p[i..j] { assert p[i..j][k - i] == SLASH; }
    forall i, j | PartAt(p, i, j) ensures (i == 0 && j == k) || (i > k && PartAt(rest, i - k - 1, j - k - 1)
        && rest[i - k - 1..j - k - 1] == p[i..j]) {
      if i > k { assert rest[i - k - 1..j - k - 1] == p[i..j]; }
    }
    forall i, j | PartAt(rest, i, j) ensures PartAt(p, i + k + 1, j + k + 1) && p[i + k + 1..j + k + 1] == rest[i..j] {
      assert p[i + k + 1..j + k + 1] == rest[i..j];
    }
    assert PartAt(p, 0, k) && p[0..k] == p[..k];
  }

  /** The canonical paths are exactly the good ones. */
  lemma {:induction false} CanonicalPath(p: seq<byte>)
    ensures IsCanonicalPath(p) <==> GoodPath(p)
  {
    hide Split, PartOf;
    forall part ensures part in Split(p) <==> PartOf(p, part) { SplitParts(p, part); }
    PartsGood(p);
    if p == [] || p[0] == SLASH {
      EmptyPart(p, 0);
    } else if p[|p| - 1] == SLASH {
      EmptyPart(p, |p|);
    }
  }

  lemma {:induction false} PartsGood(p: seq<byte>)
    ensures (forall i, j :: PartAt(p, i, j) ==> p[i..j] != [] && p[i..j] != [0x2E] && p[i..j] != [0x2E, 0x2E])
      <==> forall part :: PartOf(p, part) ==> IsSegment(part)
  {
    hide PartAt;
    forall i, j | PartAt(p, i, j) ensures 0 <= i <= j <= |p| && PartOf(p, p[i..j]) { PartWithin(p, i, j); }
  }

  lemma {:induction false} PartWithin(p: seq<byte>, i: int, j: int)
    requires PartAt(p, i, j)
    ensures 0 <= i <= j <= |p|
  {
  }

  lemma {:induction false} EmptyPart(p: seq<byte>, i: nat)
    requires i <= |p| && (i == 0 || p[i - 1] == SLASH) && (i == |p| || p[i] == SLASH)
    ensures PartAt(p, i, i) && p[i..i] == []
  {
  }

  // ---- Trees ----

  /** No separator, no zero byte, and neither "." nor "..". */
  ghost predicate GoodName(n: seq<byte>)
  {
    n != [] && 0x2F !in n && 0x5C !in n && 0x00 !in n && n != [0x2E] && n != [0x2E, 0x2E]
  }

  /** A directory points to a tree, a file (plain, executable or a symbolic link) to a blob. */
  ghost predicate GoodTarget(mode: u64, target: Gid)
  {
    (mode in {0x81A4, 0x81ED, 0xA000} && target.family == 0x01) || (mode == 0x4000 && target.family == 0x02)
  }

  ghost predicate Entry(e: Value, name: Utf8, mode: u64, target: Gid)
  {
    e.Record? && FirstIs(e.fields, 1, Str(name)) && FirstIs(e.fields, 2, U(mode)) && FirstIs(e.fields, 3, Ref(target))
  }

  ghost predicate GoodEntry(e: Value)
  {
    exists name: Utf8, mode: u64, target :: Entry(e, name, mode, target) && GoodName(name) && GoodTarget(mode, target)
  }

  lemma {:induction false} EntryChecked(e: Value)
    ensures EntryError(e).None? <==> GoodEntry(e)
    ensures EntryError(e).None? ==> FirstIs(e.fields, 1, Str(EntryName(e)))
  {
    hide FindValue, FirstIs, IsTreeName, GoodName;
    if EntryError(e).None? {
      var name, mode := FindValue(e.fields, 1).value.s, FindValue(e.fields, 2).value.u;
      var target := FindValue(e.fields, 3).value.gid;
      Finds(e.fields, 1, Str(name));
      Finds(e.fields, 2, U(mode));
      Finds(e.fields, 3, Ref(target));
      NameGood(name);
      assert Entry(e, name, mode, target);
    }
    if GoodEntry(e) {
      var name: Utf8, mode: u64, target :| Entry(e, name, mode, target) && GoodName(name) && GoodTarget(mode, target);
      Finds(e.fields, 1, Str(name));
      Finds(e.fields, 2, U(mode));
      Finds(e.fields, 3, Ref(target));
      NameGood(name);
    }
  }

  lemma {:induction false} NameGood(n: seq<byte>)
    ensures IsTreeName(n) <==> GoodName(n)
  {
  }

  ghost predicate NameBelow(d: Value, e: Value)
  {
    forall n: Utf8, m: Utf8 ::
        d.Record? && e.Record? && FirstIs(d.fields, 1, Str(n)) && FirstIs(e.fields, 1, Str(m)) ==>
      exists k :: SmallerAt(n, m, k)
  }

  /** Every entry is good, and their names strictly rise. */
  ghost predicate GoodEntries(entries: seq<Value>)
  {
    && (forall k :: 0 <= k < |entries| ==> GoodEntry(entries[k]))
    && forall k :: 0 < k < |entries| ==> NameBelow(entries[k - 1], entries[k])
  }

  lemma {:induction false} NameBelowExactly(d: Value, e: Value)
    requires EntryError(d).None? && EntryError(e).None?
    ensures NameBelow(d, e) <==> Below(EntryName(d), EntryName(e))
  {
    hide EntryError, EntryName, FirstIs, SmallerAt, Below;
    EntryChecked(d);
    EntryChecked(e);
    BelowExactly(EntryName(d), EntryName(e));
    OneName(d);
    OneName(e);
  }

  lemma {:induction false} OneName(e: Value)
    requires EntryError(e).None?
    ensures e.Record? && FirstIs(e.fields, 1, Str(EntryName(e)))
    ensures forall n: Utf8 :: FirstIs(e.fields, 1, Str(n)) ==> n == EntryName(e)
  {
    hide FirstIs, GoodEntry;
    EntryChecked(e);
    FindsFirst(e.fields, 1);
  }

  lemma {:induction false} EntriesFrom(entries: seq<Value>, prev: Value)
    requires EntryError(prev).None?
    ensures EntriesError(entries, Some(EntryName(prev))).None? <==> GoodEntries([prev] + entries)
  {
    hide EntryError, EntryName, GoodEntry, NameBelow, Below;
    EntryChecked(prev);
    if entries != [] {
      EntryChecked(entries[0]);
      assert [entries[0]] + entries[1..] == entries;
      if EntryError(entries[0]).None? {
        EntriesFrom(entries[1..], entries[0]);
        NameBelowExactly(prev, entries[0]);
      }
      GoodFrom(entries, prev);
    }
  }

  lemma {:induction false} GoodFrom(entries: seq<Value>, prev: Value)
    requires entries != []
    ensures GoodEntries([prev] + entries)
      <==> GoodEntry(prev) && NameBelow(prev, entries[0]) && GoodEntries(entries)
  {
    hide GoodEntry, NameBelow;
    var all := [prev] + entries;
    assert forall k :: 0 < k < |all| ==> all[k] == entries[k - 1];
    if GoodEntries(all) {
      assert all[1] == entries[0] && all[1 - 1] == prev;
      forall k | 0 <= k < |entries| ensures GoodEntry(entries[k]) { assert all[k + 1] == entries[k]; }
      forall k | 0 < k < |entries| ensures NameBelow(entries[k - 1], entries[k]) {
        assert all[k + 1] == entries[k] && all[k + 1 - 1] == entries[k - 1];
      }
    }
    if GoodEntry(prev) && NameBelow(prev, entries[0]) && GoodEntries(entries) {
      forall k | 0 < k < |all| ensures NameBelow(all[k - 1], all[k]) {
        if k > 1 { assert all[k] == entries[k - 1] && all[k - 1] == entries[k - 1 - 1]; }
      }
    }
  }

  ghost predicate StopsAt(entries: seq<Value>, k: nat, e: ObjectError)
    requires k < |entries|
  {
    && GoodEntries(entries[..k]) && !GoodEntries(entries[..k + 1])
    && Some(e) == if GoodEntry(entries[k]) then Some(InvalidTreeOrder) else EntryError(entries[k])
  }

  /** Tree entries pass exactly when each is good and their names strictly rise. The error is that of the first
      entry with which they stop passing: the entry's own, or the order's when the entry is good. */
  lemma {:induction false} EntriesChecked(entries: seq<Value>)
    ensures EntriesError(entries, None).None? <==> GoodEntries(entries)
    ensures EntriesError(entries, None).Some? ==>
      exists k: nat :: k < |entries| && StopsAt(entries, k, EntriesError(entries, None).value)
  {
    hide EntryError, EntryName, GoodEntry, GoodEntries, NameBelow, Below;
    AllChecked(entries);
    if EntriesError(entries, None).Some? {
      var k := FirstBad(entries, 0, None);
      AllChecked(entries[..k]);
      AllChecked(entries[..k + 1]);
      assert entries[0..] == entries;
      assert entries[..k + 1][..k] == entries[..k];
      EntryChecked(entries[k]);
      assert StopsAt(entries, k, EntriesError(entries, None).value);
    }
  }

  lemma {:induction false} AllChecked(entries: seq<Value>)
    ensures EntriesError(entries, None).None? <==> GoodEntries(entries)
  {
    hide EntryError, EntryName, NameBelow, Below;
    if entries != [] {
      EntryChecked(entries[0]);
      assert [entries[0]] + entries[1..] == entries;
      if EntryError(entries[0]).None? { EntriesFrom(entries[1..], entries[0]); }
    }
  }

  /** Where the entries from `i` on, after a name, stop passing. */
  lemma {:induction false} FirstBad(entries: seq<Value>, i: nat, prev: Option<seq<byte>>) returns (k: nat)
    requires i <= |entries| && EntriesError(entries[i..], prev).Some?
    ensures i <= k < |entries|
    ensures EntriesError(entries[i..k], prev).None? && EntriesError(entries[i..k + 1], prev).Some?
    ensures EntriesError(entries[i..], prev)
      == if EntryError(entries[k]).None? then Some(InvalidTreeOrder) else EntryError(entries[k])
    decreases |entries| - i
  {
    hide EntryError, EntryName, Below;
    var name := EntryName(entries[i]);
    assert entries[i..][0] == entries[i] && entries[i..][1..] == entries[i + 1..];
    if EntryError(entries[i]).Some? || (prev.Some? && !Below(prev.value, name)) {
      k := i;
      assert entries[i..i + 1] == [entries[i]] && entries[i..i] == [];
    } else {
      k := FirstBad(entries, i + 1, Some(name));
      assert entries[i..k][1..] == entries[i + 1..k] && entries[i..k + 1][1..] == entries[i + 1..k + 1];
    }
  }

  // ---- Operations ----

  const KINDS: seq<string> := ["create_file", "write_file", "write_range", "delete_file", "rename_path", "apply_patch",
    "exec_command", "run_test", "invoke_oracle", "inspect_artifact", "ast_transform"]

  /** The kinds of operation that have this parameter. */
  ghost function KindsWith(tag: byte): set<string>
  {
    if tag == 0x11 then {"create_file", "write_file"}
    else if 0x12 <= tag <= 0x15 then {"write_range"}
    else if 0x16 <= tag <= 0x17 then {"rename_path"}
    else if 0x18 <= tag <= 0x19 then {"apply_patch"}
    else if 0x1A <= tag <= 0x1E then {"exec_command"}
    else if 0x1F <= tag <= 0x21 then {"run_test"}
    else if 0x22 <= tag <= 0x25 then {"invoke_oracle"}
    else if tag == 0x26 then {"inspect_artifact"}
    else if 0x27 <= tag <= 0x29 then {"ast_transform"}
    else {}
  }

  ghost predicate Spells(op: seq<byte>, kind: string)
  {
    |op| == |kind| && forall i :: 0 <= i < |op| ==> op[i] == kind[i] as int
  }

  lemma {:induction false} SpellsAscii(op: seq<byte>, kind: string)
    requires forall i :: 0 <= i < |kind| ==> kind[i] as int < 128
    ensures op == Ascii(kind) <==> Spells(op, kind)
  {
  }

  /** An operation has the parameters of its kind and no others; one of an unknown kind may have any. */
  ghost predicate GoodOperation(fields: seq<Field>)
  {
    exists op: Utf8 :: FirstIs(fields, 1, Str(op)) && GoodParameters(fields, op)
  }

  ghost predicate GoodParameters(fields: seq<Field>, op: seq<byte>)
  {
    forall i, kind :: 0 <= i < |fields| && fields[i].tag >= 0x11 && kind in KINDS && Spells(op, kind) ==>
      kind in KindsWith(fields[i].tag)
  }

  ghost predicate SevenBit(kind: string) { forall i :: 0 <= i < |kind| ==> kind[i] as int < 128 }

  lemma {:induction false} KindsApart(op: seq<byte>)
    ensures forall i, j :: 0 <= i < j < |KINDS| ==> !(Spells(op, KINDS[i]) && Spells(op, KINDS[j]))
  {
    forall i, j | 0 <= i < j < |KINDS| && Spells(op, KINDS[i]) && Spells(op, KINDS[j]) ensures false {
      assert KINDS[i] == KINDS[j];
      KindsDiffer(i, j);
    }
  }

  lemma {:induction false} KindsDiffer(i: nat, j: nat)
    requires i < j < |KINDS|
    ensures KINDS[i] != KINDS[j]
  {
    assert KINDS[0][0] == 'c' && KINDS[1][6] == 'f' && KINDS[2][6] == 'r' && KINDS[3][0] == 'd' && KINDS[4][0] == 'r'
      && KINDS[5][0] == 'a' && KINDS[5][1] == 'p' && KINDS[6][0] == 'e' && KINDS[7][1] == 'u' && KINDS[8][2] == 'v'
      && KINDS[9][2] == 's' && KINDS[10][1] == 's';
  }

  /** The spelling picks the branch. */
  lemma {:induction false} Branches(op: seq<byte>)
    ensures forall i :: 0 <= i < |KINDS| ==> (op == Ascii(KINDS[i]) <==> Spells(op, KINDS[i]))
    ensures KINDS[0] == "create_file" && KINDS[1] == "write_file" && KINDS[2] == "write_range"
        && KINDS[3] == "delete_file"
      && KINDS[4] == "rename_path" && KINDS[5] == "apply_patch" && KINDS[6] == "exec_command" && KINDS[7] == "run_test"
      && KINDS[8] == "invoke_oracle" && KINDS[9] == "inspect_artifact" && KINDS[10] == "ast_transform"
  {
    hide Ascii, Spells;
    forall i | 0 <= i < |KINDS| ensures SevenBit(KINDS[i]) && (op == Ascii(KINDS[i]) <==> Spells(op, KINDS[i])) {
      KindAscii(i);
      SpellsAscii(op, KINDS[i]);
    }
  }

  lemma {:induction false} TagsOfKind(op: seq<byte>, i: nat, tag: byte)
    requires i < |KINDS| && Spells(op, KINDS[i]) && tag >= 0x11
    ensures OpKindTags(op).Some? && (tag in OpKindTags(op).value <==> KINDS[i] in KindsWith(tag))
  {
    hide Ascii, Spells;
    Branches(op);
    KindsApart(op);
  }

  lemma {:induction false} UnknownKind(op: seq<byte>)
    requires forall i :: 0 <= i < |KINDS| ==> !Spells(op, KINDS[i])
    ensures OpKindTags(op) == None
  {
    hide Ascii, Spells;
    Branches(op);
  }

  ghost predicate KnownKind(op: seq<byte>) { exists kind :: kind in KINDS && Spells(op, kind) }

  /** The parameters an operation kind declares are those the table gives it, and no other kind is known. */
  lemma {:induction false} KindTags(op: seq<byte>)
    ensures OpKindTags(op).Some? <==> KnownKind(op)
    ensures forall kind, tag: byte :: kind in KINDS && Spells(op, kind) && tag >= 0x11 ==>
      OpKindTags(op).Some? && (tag in OpKindTags(op).value <==> kind in KindsWith(tag))
  {
    hide OpKindTags, Spells, KindsWith;
    forall kind, tag: byte | kind in KINDS && Spells(op, kind) && tag >= 0x11
      ensures OpKindTags(op).Some? && (tag in OpKindTags(op).value <==> kind in KindsWith(tag)) {
      var i :| 0 <= i < |KINDS| && KINDS[i] == kind;
      TagsOfKind(op, i, tag);
    }
    if KnownKind(op) {
      var kind :| kind in KINDS && Spells(op, kind);
      var i :| 0 <= i < |KINDS| && KINDS[i] == kind;
      TagsOfKind(op, i, 0x11);
    } else {
      forall i | 0 <= i < |KINDS| ensures !Spells(op, KINDS[i]) { assert KINDS[i] in KINDS; }
      UnknownKind(op);
    }
  }

  lemma {:induction false} KindAscii(i: nat)
    requires i < |KINDS|
    ensures SevenBit(KINDS[i])
  {
  }

  /** An operation passes exactly when it has a kind and no parameter that its kind does not have. */
  lemma {:induction false} OperationChecked(fields: seq<Field>)
    ensures OperationError(fields).None? <==> GoodOperation(fields)
    ensures OperationError(fields) == Some(MissingRequiredField) <==> forall op: Utf8 :: !FirstIs(fields, 1, Str(op))
    ensures OperationError(fields).Some? ==>
        OperationError(fields).value in {MissingRequiredField, UndeclaredOperationTag}
  {
    hide OpKindTags, FindValue, FirstIs, Spells, KindsWith;
    var v := FindValue(fields, 1);
    if v.Some? && v.value.Str? {
      var op := v.value.s;
      Finds(fields, 1, v.value);
      forall other: Utf8 | FirstIs(fields, 1, Str(other)) ensures other == op { Finds(fields, 1, Str(other)); }
      KindTags(op);
      if GoodOperation(fields) { assert GoodParameters(fields, op); }
      if GoodParameters(fields, op) { assert GoodOperation(fields); }
      ParametersChecked(fields, op);
    } else {
      forall op: Utf8 ensures !FirstIs(fields, 1, Str(op)) { Finds(fields, 1, Str(op)); }
    }
  }

  lemma {:induction false} ParametersChecked(fields: seq<Field>, op: seq<byte>)
    ensures GoodParameters(fields, op)
      <==> OpKindTags(op).None? || forall i :: 0 <= i < |fields| && fields[i].tag >= 0x11 ==>
        fields[i].tag in OpKindTags(op).value
  {
    hide OpKindTags, Spells, KindsWith;
    KindTags(op);
  }

  // ---- Claims and mappings ----

  /** A claim's predicate is not empty. */
  ghost predicate GoodClaim(fields: seq<Field>) { !FirstIs(fields, 3, Str([])) }

  /** A mapping's record of losses does not list anything as fabricated. */
  ghost predicate GoodMapping(fields: seq<Field>)
  {
    forall loss, fabricated :: FirstIs(fields, 4, Record(loss)) && FirstIs(loss, 3, Array(fabricated)) ==>
        fabricated == []
  }

  lemma {:induction false} MappingChecked(fields: seq<Field>)
    ensures MappingError(fields) == if GoodMapping(fields) then None else Some(MappingFabricatedNonEmpty)
  {
    hide FindValue, FirstIs;
    forall loss ensures FindValue(fields, 4) == Some(Record(loss)) <==> FirstIs(fields, 4, Record(loss)) {
      Finds(fields, 4, Record(loss));
    }
    forall loss, fabricated
      ensures FindValue(loss, 3) == Some(Array(fabricated)) <==> FirstIs(loss, 3, Array(fabricated)) {
      Finds(loss, 3, Array(fabricated));
    }
  }

  // ---- Objects ----

  ghost predicate GoodTree(fields: seq<Field>)
  {
    exists entries :: FirstIs(fields, 1, Array(entries)) && GoodEntries(entries)
  }

  lemma {:induction false} TreeChecked(fields: seq<Field>)
    ensures TreeError(fields).None? <==> GoodTree(fields)
  {
    hide FindValue, FirstIs, EntriesError, GoodEntries;
    forall entries ensures FindValue(fields, 1) == Some(Array(entries)) <==> FirstIs(fields, 1, Array(entries)) {
      Finds(fields, 1, Array(entries));
    }
    forall entries ensures EntriesError(entries, None).None? <==> GoodEntries(entries) { EntriesChecked(entries); }
  }

  /** The rules of an object's family. */
  ghost predicate KeepsRules(obj: Object)
  {
    && (obj.family in {0x02, 0x04, 0x0A, 0x16} ==> obj.body.Fields?)
    && (obj.family == 0x02 ==> GoodTree(obj.body.fields))
    && (obj.family == 0x04 ==> GoodOperation(obj.body.fields))
    && (obj.family == 0x0A ==> GoodClaim(obj.body.fields))
    && (obj.family == 0x16 ==> GoodMapping(obj.body.fields))
  }

  /** The identities a value refers to, in order. */
  ghost function References(v: Value): seq<Gid>
    decreases v, 0
  {
    match v
    case Ref(g) => [g]
    case Record(fields) => FieldReferences(fields)
    case Array(items) => ItemReferences(items)
    case _ => []
  }

  ghost function FieldReferences(fields: seq<Field>): seq<Gid>
    decreases fields, 1
  {
    if fields == [] then []
    else
      var f := fields[0];
      assert f.value < f;
      References(f.value) + FieldReferences(fields[1..])
  }

  ghost function ItemReferences(items: seq<Value>): seq<Gid>
    decreases items, 1
  {
    if items == [] then [] else References(items[0]) + ItemReferences(items[1..])
  }

  lemma {:induction false} Counted(v: Value)
    ensures CountRefs(v) == |References(v)|
    decreases v, 0
  {
    match v
    case Record(fields) => FieldsCounted(fields);
    case Array(items) => ItemsCounted(items);
    case _ =>
  }

  lemma {:induction false} FieldsCounted(fields: seq<Field>)
    ensures CountRefsFields(fields) == |FieldReferences(fields)|
    decreases fields, 1
  {
    hide CountRefs, References;
    if fields != [] {
      var f := fields[0];
      assert f.value < f;
      Counted(f.value);
      FieldsCounted(fields[1..]);
    }
  }

  lemma {:induction false} ItemsCounted(items: seq<Value>)
    ensures CountRefsItems(items) == |ItemReferences(items)|
    decreases items, 1
  {
    hide CountRefs, References;
    if items != [] {
      Counted(items[0]);
      ItemsCounted(items[1..]);
    }
  }

  /** An object passes validation exactly when it keeps the rules of its family and refers to no more identities
      than the limit; too many are reported only of an object that keeps the rules. */
  lemma {:induction false} Validates(obj: Object, limits: Limits)
    ensures var refs := if obj.body.Fields? then |FieldReferences(obj.body.fields)| else 0;
      && (ValidationError(obj, limits).None? <==> KeepsRules(obj) && refs <= limits.maxRefsPerObject)
      && (ValidationError(obj, limits) == Some(RefCountExceeded)
          <==> KeepsRules(obj) && refs > limits.maxRefsPerObject)
  {
    hide TreeError, OperationError, MappingError, GoodTree, GoodOperation, GoodMapping, FirstIs, FindValue,
        CountRefsFields,
      FieldReferences, OpKindTags;
    if obj.body.Fields? {
      var fields := obj.body.fields;
      FieldsCounted(fields);
      TreeChecked(fields);
      TreeNeverCounts(fields);
      OperationChecked(fields);
      MappingChecked(fields);
      Finds(fields, 3, Str([]));
    }
  }

  lemma {:induction false} TreeNeverCounts(fields: seq<Field>)
    ensures TreeError(fields) != Some(RefCountExceeded)
  {
    hide EntryError, EntryName, FindValue;
    var v := FindValue(fields, 1);
    if v.Some? && v.value.Array? { EntriesNeverCount(v.value.items, None); }
  }

  lemma {:induction false} EntriesNeverCount(entries: seq<Value>, prev: Option<seq<byte>>)
    ensures EntriesError(entries, prev) != Some(RefCountExceeded)
    decreases |entries|
  {
    hide EntryName, FindValue, Below, IsTreeName;
    if entries != [] { EntriesNeverCount(entries[1..], Some(EntryName(entries[0]))); }
  }
}
