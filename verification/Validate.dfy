/** The family-specific validation pass shared by the encoder and the decoder (src/validate.rs). */
module Validate {
  import opened Varint
  import opened Paths
  import opened Wrappers
  import opened Objects

  const MODE_FILE: u64 := 33188     // 0o100644
  const MODE_EXEC: u64 := 33261     // 0o100755
  const MODE_SYMLINK: u64 := 40960  // 0o120000
  const MODE_DIR: u64 := 16384      // 0o040000

  function FindValue(fields: seq<Field>, tag: byte): Option<Value>
  {
    if fields == [] then None
    else if fields[0].tag == tag then Some(fields[0].value)
    else FindValue(fields[1..], tag)
  }

  /** The first field with this tag has this value. */
  ghost predicate FirstIs(fields: seq<Field>, tag: byte, v: Value) { exists k :: FirstAt(fields, tag, k, v) }

  ghost predicate FirstAt(fields: seq<Field>, tag: byte, k: int, v: Value)
  {
    0 <= k < |fields| && fields[k] == Field(tag, v) && forall j :: 0 <= j < k ==> fields[j].tag != tag
  }

  lemma {:induction false} FindsFirst(fields: seq<Field>, tag: byte)
    ensures match FindValue(fields, tag)
      case Some(v) => FirstIs(fields, tag, v) && forall u :: FirstIs(fields, tag, u) ==> u == v
      case None => forall k :: 0 <= k < |fields| ==> fields[k].tag != tag
  {
    if fields != [] {
      var rest := fields[1..];
      FindsFirst(rest, tag);
      assert forall j :: 0 < j < |fields| ==> fields[j] == rest[j - 1];
      if fields[0].tag == tag {
        assert FirstAt(fields, tag, 0, fields[0].value);
      } else {
        forall v ensures FirstIs(fields, tag, v) <==> FirstIs(rest, tag, v) { FirstLater(fields, tag, v); }
      }
    }
  }

  lemma {:induction false} Finds(fields: seq<Field>, tag: byte, v: Value)
    ensures FindValue(fields, tag) == Some(v) <==> FirstIs(fields, tag, v)
  {
    hide FindValue;
    FindsFirst(fields, tag);
  }

  lemma {:induction false} FirstLater(fields: seq<Field>, tag: byte, v: Value)
    requires fields != [] && fields[0].tag != tag
    ensures FirstIs(fields, tag, v) <==> FirstIs(fields[1..], tag, v)
  {
    var rest := fields[1..];
    assert forall j :: 0 < j < |fields| ==> fields[j] == rest[j - 1];
    if k :| FirstAt(fields, tag, k, v) {
      assert forall j :: 0 <= j < k - 1 ==> rest[j] == fields[j + 1];
      assert FirstAt(rest, tag, k - 1, v);
    }
    if k :| FirstAt(rest, tag, k, v) { assert FirstAt(fields, tag, k + 1, v); }
  }

  /** The number of identity references inside a value. */
  function CountRefs(v: Value): nat
    decreases v, 0
  {
    match v
    case Ref(_) => 1
    case Record(fields) => CountRefsFields(fields)
    case Array(items) => CountRefsItems(items)
    case _ => 0
  }

  function CountRefsFields(fields: seq<Field>): nat
    decreases fields, 1
  {
    if fields == [] then 0
    else
      var f := fields[0];
      assert f.value < f;
      CountRefs(f.value) + CountRefsFields(fields[1..])
  }

  function CountRefsItems(items: seq<Value>): nat
    decreases items, 1
  {
    if items == [] then 0 else CountRefs(items[0]) + CountRefsItems(items[1..])
  }

  /** One tree entry: a valid name, a known mode, and a target of the family the mode calls for. */
  function EntryError(entry: Value): Option<ObjectError>
  {
    if !entry.Record? then Some(TypeMismatch)
    else match FindValue(entry.fields, 0x01)
      case Some(Str(name)) =>
        if !IsTreeName(name) then Some(InvalidTreeName)
        else (match FindValue(entry.fields, 0x02)
          case Some(U(mode)) =>
            if mode != MODE_FILE && mode != MODE_EXEC && mode != MODE_SYMLINK && mode != MODE_DIR then
                Some(InvalidTreeMode)
            else (match FindValue(entry.fields, 0x03)
              case Some(Ref(target)) =>
                if target.family != (if mode == MODE_DIR then TREE else BLOB) then Some(InvalidTreeTargetFamily)
                  else None
              case _ => Some(MissingRequiredField))
          case _ => Some(MissingRequiredField))
      case _ => Some(MissingRequiredField)
  }

  function EntryName(entry: Value): seq<byte>
  {
    if entry.Record? then
      match FindValue(entry.fields, 0x01)
      case Some(Str(name)) => name
      case _ => []
    else []
  }

  /** The first error among the entries, given the name of the one before. */
  function EntriesError(entries: seq<Value>, prev: Option<seq<byte>>): Option<ObjectError>
  {
    if entries == [] then None
    else match EntryError(entries[0])
      case Some(e) => Some(e)
      case None =>
        var name := EntryName(entries[0]);
        if prev.Some? && !Below(prev.value, name) then Some(InvalidTreeOrder)
        else EntriesError(entries[1..], Some(name))
  }

  method ValidateTree(entries: seq<Value>) returns (r: Option<ObjectError>)
    ensures r == EntriesError(entries, None)
  {
    var prev: Option<seq<byte>> := None;
    assert entries[0..] == entries;
    for i := 0 to |entries|
      invariant EntriesError(entries, None) == EntriesError(entries[i..], prev)
    {
      assert entries[i..][0] == entries[i] && entries[i..][1..] == entries[i + 1..];
      r := EntryError(entries[i]);
      if r.Some? { return; }
      var name := EntryName(entries[i]);
      if prev.Some? && !Below(prev.value, name) { return Some(InvalidTreeOrder); }
      prev := Some(name);
    }
    return None;
  }

  /** The parameter tags an operation kind declares; `None` permits any. */
  function OpKindTags(op: seq<byte>): Option<set<byte>>
  {
    if op == Ascii("create_file") || op == Ascii("write_file") then Some({0x11})
    else if op == Ascii("write_range") then Some({0x12, 0x13, 0x14, 0x15})
    else if op == Ascii("delete_file") then Some({})
    else if op == Ascii("rename_path") then Some({0x16, 0x17})
    else if op == Ascii("apply_patch") then Some({0x18, 0x19})
    else if op == Ascii("exec_command") then Some({0x1A, 0x1B, 0x1C, 0x1D, 0x1E})
    else if op == Ascii("run_test") then Some({0x1F, 0x20, 0x21})
    else if op == Ascii("invoke_oracle") then Some({0x22, 0x23, 0x24, 0x25})
    else if op == Ascii("inspect_artifact") then Some({0x26})
    else if op == Ascii("ast_transform") then Some({0x27, 0x28, 0x29})
    else None
  }

  function Ascii(s: string): seq<byte>
    requires forall i :: 0 <= i < |s| ==> s[i] as int < 128
  {
    seq(|s|, i requires 0 <= i < |s| => s[i] as int)
  }

  function OperationError(fields: seq<Field>): Option<ObjectError>
  {
    match FindValue(fields, 0x01)
    case Some(Str(op)) =>
      var allowed := OpKindTags(op);
      if allowed.Some? && exists i :: 0 <= i < |fields| && fields[i].tag >= 0x11 && fields[i].tag !in allowed.value
      then Some(UndeclaredOperationTag) else None
    case _ => Some(MissingRequiredField)
  }

  function ClaimError(fields: seq<Field>): Option<ObjectError>
  {
    if FindValue(fields, 0x03) == Some(Str([])) then Some(EmptyPredicate) else None
  }

  function MappingError(fields: seq<Field>): Option<ObjectError>
  {
    match FindValue(fields, 0x04)
    case Some(Record(loss)) =>
      (match FindValue(loss, 0x03)
       case Some(Array(fabricated)) => if fabricated == [] then None else Some(MappingFabricatedNonEmpty)
       case _ => None)
    case _ => None
  }

  function TreeError(fields: seq<Field>): Option<ObjectError>
  {
    match FindValue(fields, 0x01)
    case Some(Array(entries)) => EntriesError(entries, None)
    case _ => Some(MissingRequiredField)
  }

  function FamilyError(obj: Object): Option<ObjectError>
  {
    if obj.family !in {TREE, OPERATION, CLAIM, MAPPING} then None
    else if obj.body.Blob? then Some(BodyKindMismatch)
    else if obj.family == TREE then TreeError(obj.body.fields)
    else if obj.family == OPERATION then OperationError(obj.body.fields)
    else if obj.family == CLAIM then ClaimError(obj.body.fields)
    else MappingError(obj.body.fields)
  }

  function ValidationError(obj: Object, limits: Limits): Option<ObjectError>
  {
    match FamilyError(obj)
    case Some(e) => Some(e)
    case None =>
      var refs := if obj.body.Fields? then CountRefsFields(obj.body.fields) else 0;
      if refs > limits.maxRefsPerObject then Some(RefCountExceeded) else None
  }

  method ValidateOperation(fields: seq<Field>) returns (r: Option<ObjectError>)
    ensures r == OperationError(fields)
  {
    hide OpKindTags, FindValue;
    var op := FindValue(fields, 0x01);
    if op.None? || !op.value.Str? { return Some(MissingRequiredField); }
    var allowed := OpKindTags(op.value.s);
    if allowed.Some? {
      for i := 0 to |fields|
        invariant forall j :: 0 <= j < i ==> fields[j].tag < 0x11 || fields[j].tag in allowed.value
      {
        if fields[i].tag >= 0x11 && fields[i].tag !in allowed.value { return Some(UndeclaredOperationTag); }
      }
    }
    return None;
  }

  /** The pass both the encoder and the decoder run: the rules of the family, then the number of references. */
  method ValidateFamily(obj: Object, limits: Limits) returns (r: Option<ObjectError>)
    ensures r == ValidationError(obj, limits)
  {
    hide EntriesError, OperationError, ClaimError, MappingError, CountRefsFields, FindValue;
    r := None;
    if obj.family in {TREE, OPERATION, CLAIM, MAPPING} {
      if obj.body.Blob? { return Some(BodyKindMismatch); }
      var fields := obj.body.fields;
      if obj.family == TREE {
        var entries := FindValue(fields, 0x01);
        if entries.None? || !entries.value.Array? { return Some(MissingRequiredField); }
        r := ValidateTree(entries.value.items);
      } else if obj.family == OPERATION {
        r := ValidateOperation(fields);
      } else if obj.family == CLAIM {
        r := ClaimError(fields);
      } else {
        r := MappingError(fields);
      }
    }
    if r.Some? { return; }
    var refs := if obj.body.Fields? then CountRefsFields(obj.body.fields) else 0;
    if refs > limits.maxRefsPerObject { return Some(RefCountExceeded); }
  }
}
