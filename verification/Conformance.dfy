/** What can be encoded (src/encode.rs). */
module Conformance {
  import opened Varint
  import opened Paths
  import opened Wrappers
  import opened Objects
  import opened Validate
  import opened Codec
  import opened CodecLaws

  // A schema's rules for values and fields, without reference to bytes. The encoder takes exactly what
  // conforms to them, and the decoder accepts nothing else.

  // ---- The rules ----

  /** A value is of a type, and everything in it is within the limits. */
  ghost predicate Conforms(ty: Type, v: Value, depth: nat, schema: Schema, limits: Limits)
    decreases v, 0
  {
    match ty
    case TU64 => v.U?
    case TI64 => v.I?
    case TBool => v.B?
    case TBytes => v.Bytes? && |v.bytes| <= limits.maxStringBytes
    case TStr => v.Str? && |v.s| <= limits.maxStringBytes
    case TPath => v.Str? && |v.s| <= limits.maxStringBytes && IsCanonicalPath(v.s)
    case TEnum(names) => v.Str? && |v.s| <= limits.maxStringBytes && v.s in names
    case TGid(family) => v.Ref? && v.gid.family == family
    case TGidAny => v.Ref?
    case TRecord(specs) => v.Record? && FieldsConform(schema.(specs := specs), v.fields, depth + 1, limits)
    case TArray(elem) =>
      v.Array? && |v.items| <= limits.maxArrayElements
      && forall i :: 0 <= i < |v.items| ==> Conforms(elem, v.items[i], depth + 1, schema, limits)
  }

  /** The first declaration of a tag. */
  ghost predicate Declares(specs: seq<FieldSpec>, tag: byte, k: nat)
  {
    k < |specs| && specs[k].tag == tag && forall j :: 0 <= j < k ==> specs[j].tag != tag
  }

  /** Below 0x80 a field is declared and has its declared type; from 0x80 on it is a raw extension, where the
      schema allows extensions. */
  ghost predicate FieldConforms(schema: Schema, f: Field, depth: nat, limits: Limits)
    decreases f, 1
  {
    if f.tag < 0x80 then
      exists k: nat ::
          Declares(schema.specs, f.tag, k) && Conforms(schema.specs[k].ty, f.value, depth + 1, schema, limits)
    else f.value.Raw? && schema.extensionsAllowed
  }

  /** Tags are neither 0 nor reserved, and strictly rise. */
  ghost predicate TagsRise(fields: seq<Field>)
  {
    && (forall i :: 0 <= i < |fields| ==> 0 < fields[i].tag < 0xF0)
    && forall i :: 0 < i < |fields| ==> fields[i - 1].tag < fields[i].tag
  }

  ghost predicate HasField(fields: seq<Field>, tag: byte) { exists i :: 0 <= i < |fields| && fields[i].tag == tag }

  /** Some declaration with the required flag has no field. */
  ghost predicate LacksRequired(specs: seq<FieldSpec>, fields: seq<Field>)
  {
    exists k :: 0 <= k < |specs| && specs[k].required && !HasField(fields, specs[k].tag)
  }

  ghost predicate FieldsConform(schema: Schema, fields: seq<Field>, depth: nat, limits: Limits)
    decreases fields, 2
  {
    && depth <= limits.maxRecordDepth && TagsRise(fields)
    && (forall i :: 0 <= i < |fields| ==> FieldConforms(schema, fields[i], depth, limits))
    && !LacksRequired(schema.specs, fields)
  }

  // ---- The encoder takes exactly what conforms ----

  lemma {:induction false} DeclaresIndex(specs: seq<FieldSpec>, tag: byte)
    ensures match SpecIndex(specs, tag)
      case Some(k) => Declares(specs, tag, k) && forall j: nat :: Declares(specs, tag, j) ==> j == k
      case None => forall k: nat :: !Declares(specs, tag, k)
  {
    if specs != [] && specs[0].tag != tag {
      DeclaresIndex(specs[1..], tag);
      forall k: nat | k < |specs| ensures Declares(specs, tag, k) <==> k > 0 && Declares(specs[1..], tag, k - 1) {
        assert forall j :: 0 < j < |specs| ==> specs[j] == specs[1..][j - 1];
        if k > 0 && Declares(specs[1..], tag, k - 1) {
          forall j | 0 <= j < k ensures specs[j].tag != tag { if j > 0 { assert specs[j] == specs[1..][j - 1]; } }
        }
        if Declares(specs, tag, k) {
          forall j | 0 <= j < k - 1 ensures specs[1..][j].tag != tag { assert specs[1..][j] == specs[j + 1]; }
        }
      }
    }
  }

  lemma {:induction false} ValueEncodes(ty: Type, v: Value, depth: nat, schema: Schema, limits: Limits)
    ensures EncodeValue(ty, v, depth, schema, limits).Ok? <==> Conforms(ty, v, depth, schema, limits)
    decreases v, 0
  {
    hide EncodeU64, EncodeItems, EncodeFields, FieldsConform;
    match ty
    case TRecord(specs) =>
      if v.Record? { FieldsEncode(schema.(specs := specs), v.fields, depth + 1, limits); }
    case TArray(elem) =>
      if v.Array? { ItemsEncode(elem, v.items, depth + 1, schema, limits); }
    case _ =>
  }

  lemma {:induction false} ItemsEncode(elem: Type, items: seq<Value>, depth: nat, schema: Schema, limits: Limits)
    ensures EncodeItems(elem, items, depth, schema, limits).Ok?
      <==> forall i :: 0 <= i < |items| ==> Conforms(elem, items[i], depth, schema, limits)
    decreases items, 1
  {
    hide EncodeValue, Conforms;
    if items != [] {
      ValueEncodes(elem, items[0], depth, schema, limits);
      ItemsEncode(elem, items[1..], depth, schema, limits);
      assert forall i :: 0 < i < |items| ==> items[i] == items[1..][i - 1];
      assert forall i :: 0 <= i < |items| - 1 ==> items[1..][i] == items[i + 1];
    }
  }

  lemma {:induction false} ContentEncodes(schema: Schema, f: Field, depth: nat, limits: Limits)
    ensures EncodeContent(schema, f, depth, limits).Ok? <==> FieldConforms(schema, f, depth, limits)
    decreases f, 1
  {
    hide EncodeValue, Conforms;
    DeclaresIndex(schema.specs, f.tag);
    if f.tag < 0x80 && SpecIndex(schema.specs, f.tag).Some? {
      var k := SpecIndex(schema.specs, f.tag).value;
      ValueEncodes(schema.specs[k].ty, f.value, depth + 1, schema, limits);
      if f.value.Raw? { RawNever(schema.specs[k].ty, f.value, depth + 1, schema, limits); }
    }
  }

  lemma {:induction false} RawNever(ty: Type, v: Value, depth: nat, schema: Schema, limits: Limits)
    requires v.Raw?
    ensures !Conforms(ty, v, depth, schema, limits)
  {
  }

  /** Tags are in order after `prev`. */
  ghost predicate TagsAfter(fields: seq<Field>, prev: nat)
  {
    TagsRise(fields) && (fields != [] ==> prev < fields[0].tag)
  }

  lemma {:induction false} SeqEncodes(schema: Schema, fields: seq<Field>, prev: nat, depth: nat, limits: Limits)
    ensures EncodeSeq(schema, fields, prev, depth, limits).Ok?
      <==> TagsAfter(fields, prev) && forall i :: 0 <= i < |fields| ==> FieldConforms(schema, fields[i], depth, limits)
    decreases fields, 2
  {
    hide EncodeContent, FieldConforms, TagsAfter;
    if fields == [] {
      NoTags(prev);
    } else {
      ContentEncodes(schema, fields[0], depth, limits);
      SeqEncodes(schema, fields[1..], fields[0].tag, depth, limits);
      FirstTag(fields, prev);
      assert EncodeField(schema, fields[0], prev, depth, limits).Ok?
        <==> TagError(fields[0].tag, prev).None? && FieldConforms(schema, fields[0], depth, limits);
      assert forall i :: 0 < i < |fields| ==> fields[i] == fields[1..][i - 1];
      assert forall i :: 0 <= i < |fields| - 1 ==> fields[1..][i] == fields[i + 1];
    }
  }

  lemma {:induction false} NoTags(prev: nat)
    ensures TagsAfter([], prev)
  {
  }

  lemma {:induction false} FirstTag(fields: seq<Field>, prev: nat)
    requires fields != []
    ensures TagsAfter(fields, prev) <==> TagError(fields[0].tag, prev).None? && TagsAfter(fields[1..], fields[0].tag)
  {
    var rest := fields[1..];
    assert forall i :: 0 < i < |fields| ==> fields[i] == rest[i - 1];
    if TagsAfter(fields, prev) {
      forall i | 0 <= i < |rest| ensures 0 < rest[i].tag < 0xF0 { assert rest[i] == fields[i + 1]; }
      forall i | 0 < i < |rest| ensures rest[i - 1].tag < rest[i].tag {
        assert rest[i] == fields[i + 1] && rest[i - 1] == fields[i + 1 - 1];
      }
    }
    if TagError(fields[0].tag, prev).None? && TagsAfter(rest, fields[0].tag) {
      forall i | 0 < i < |fields| ensures fields[i - 1].tag < fields[i].tag {
        if i > 1 { assert fields[i] == rest[i - 1] && fields[i - 1] == rest[i - 1 - 1]; }
      }
    }
  }

  lemma {:induction false} CompleteExactly(specs: seq<FieldSpec>, fields: seq<Field>)
    ensures Complete(specs, fields) <==> !LacksRequired(specs, fields)
  {
    if !LacksRequired(specs, fields) {
      forall k | 0 <= k < |specs| && specs[k].required ensures HasTag(fields, specs[k].tag) {
        assert HasField(fields, specs[k].tag);
      }
    }
    if Complete(specs, fields) {
      forall k | 0 <= k < |specs| && specs[k].required ensures HasField(fields, specs[k].tag) {
        assert HasTag(fields, specs[k].tag);
      }
    }
  }

  /** A field sequence is encoded exactly when it conforms. If nothing else is wrong with it, it is refused as
      missing a required field exactly when some required declaration has no field. */
  lemma {:induction false} FieldsEncode(schema: Schema, fields: seq<Field>, depth: nat, limits: Limits)
    ensures EncodeFields(schema, fields, depth, limits).Ok? <==> FieldsConform(schema, fields, depth, limits)
    ensures depth <= limits.maxRecordDepth && EncodeSeq(schema, fields, 0, depth, limits).Ok? ==>
      (EncodeFields(schema, fields, depth, limits) == Err(MissingRequiredField)
       <==> LacksRequired(schema.specs, fields))
    decreases fields, 3
  {
    hide EncodeSeq, FieldConforms, Complete, LacksRequired;
    SeqEncodes(schema, fields, 0, depth, limits);
    CompleteExactly(schema.specs, fields);
  }

  /** What is decoded conforms, and a field sequence that is read is refused as missing a required field exactly
      when some required declaration has no field. */
  lemma {:induction false} FieldsDecode(schema: Schema, buf: seq<byte>, pos: nat, end: nat, depth: nat, limits: Limits)
    requires pos <= end <= |buf|
    ensures DecodeFields(schema, buf, pos, end, depth, limits).Ok? ==>
      FieldsConform(schema, DecodeFields(schema, buf, pos, end, depth, limits).value.0, depth, limits)
    ensures depth <= limits.maxRecordDepth && DecodeSeq(schema, buf, pos, end, 0, depth, limits).Ok? ==>
      (DecodeFields(schema, buf, pos, end, depth, limits) == Err(MissingRequiredField)
       <==> LacksRequired(schema.specs, DecodeSeq(schema, buf, pos, end, 0, depth, limits).value.0))
  {
    hide DecodeSeq, EncodeFields, Complete, LacksRequired, FieldsConform;
    var seen := DecodeSeq(schema, buf, pos, end, 0, depth, limits);
    if seen.Ok? { CompleteExactly(schema.specs, seen.value.0); }
    var r := DecodeFields(schema, buf, pos, end, depth, limits);
    if r.Ok? {
      CanonicalFields(schema, buf, pos, end, depth, limits);
      FieldsEncode(schema, r.value.0, depth, limits);
    }
  }

  // ---- What is written ----

  // The bytes of a value, without schema and limits: an integer in groups of seven bits, a boolean as one byte,
  // strings, identities and records after their length, an array after the number of its items, and a field as
  // its tag and its content after its length.

  ghost function Written(v: Value): seq<byte>
    decreases v, 0
  {
    match v
    case U(u) => EncodeU64(u)
    case I(i) => if i < 0 then EncodeU64(-2 * i - 1) else EncodeU64(2 * i)
    case B(b) => if b then [0x01] else [0x00]
    case Bytes(b) => EncodeU64(|b|) + b
    case Str(s) => EncodeU64(|s|) + s
    case Ref(g) => [0x21, g.family as byte] + g.digest
    case Record(fields) => EncodeU64(|WrittenFields(fields)|) + WrittenFields(fields)
    case Array(items) => EncodeU64(|items|) + WrittenItems(items)
    case Raw(raw) => raw
  }

  ghost function WrittenItems(items: seq<Value>): seq<byte>
    decreases items, 1
  {
    if items == [] then [] else Written(items[0]) + WrittenItems(items[1..])
  }

  ghost function WrittenFields(fields: seq<Field>): seq<byte>
    decreases fields, 1
  {
    if fields == [] then []
    else
      var f := fields[0];
      assert f.value < f;
      EncodeU64(f.tag) + (EncodeU64(|Written(f.value)|) + Written(f.value)) + WrittenFields(fields[1..])
  }

  /** What a schema and limits allow to be encoded is written in this way, whatever they are. */
  lemma {:induction false} ValueWritten(ty: Type, v: Value, depth: nat, schema: Schema, limits: Limits)
    ensures EncodeValue(ty, v, depth, schema, limits).Ok? ==>
        EncodeValue(ty, v, depth, schema, limits).value == Written(v)
    decreases v, 0
  {
    hide EncodeU64, EncodeItems, EncodeFields, WrittenFields, WrittenItems, IsCanonicalPath, ZigZag;
    match v
    case I(i) => SignedCode(i);
    case Ref(g) => SmallNumber(33);
    case Record(fields) =>
      if ty.TRecord? { FieldsWritten(schema.(specs := ty.specs), fields, depth + 1, limits); }
    case Array(items) =>
      if ty.TArray? { ItemsWritten(ty.elem, items, depth + 1, schema, limits); }
    case _ =>
  }

  lemma {:induction false} SignedCode(i: i64)
    ensures ZigZag(i) == if i < 0 then -2 * i - 1 else 2 * i
  {
    ZigZagCodes(i);
  }

  lemma {:induction false} SmallNumber(n: nat)
    requires n < 128
    ensures EncodeU64(n) == [n]
  {
  }

  lemma {:induction false} ItemsWritten(elem: Type, items: seq<Value>, depth: nat, schema: Schema, limits: Limits)
    ensures EncodeItems(elem, items, depth, schema, limits).Ok? ==>
      EncodeItems(elem, items, depth, schema, limits).value == WrittenItems(items)
    decreases items, 1
  {
    hide EncodeValue, Written;
    if items != [] {
      ValueWritten(elem, items[0], depth, schema, limits);
      ItemsWritten(elem, items[1..], depth, schema, limits);
    }
  }

  lemma {:induction false} ContentWritten(schema: Schema, f: Field, depth: nat, limits: Limits)
    ensures EncodeContent(schema, f, depth, limits).Ok? ==>
      EncodeContent(schema, f, depth, limits).value == Written(f.value)
    decreases f, 1
  {
    hide EncodeValue;
    if !f.value.Raw? && SpecIndex(schema.specs, f.tag).Some? {
      var k := SpecIndex(schema.specs, f.tag).value;
      ValueWritten(schema.specs[k].ty, f.value, depth + 1, schema, limits);
    }
  }

  lemma {:induction false} SeqWritten(schema: Schema, fields: seq<Field>, prev: nat, depth: nat, limits: Limits)
    ensures EncodeSeq(schema, fields, prev, depth, limits).Ok? ==>
      EncodeSeq(schema, fields, prev, depth, limits).value == WrittenFields(fields)
    decreases fields, 2
  {
    hide EncodeContent, EncodeU64, Written;
    if fields != [] {
      ContentWritten(schema, fields[0], depth, limits);
      SeqWritten(schema, fields[1..], fields[0].tag, depth, limits);
    }
  }

  lemma {:induction false} FieldsWritten(schema: Schema, fields: seq<Field>, depth: nat, limits: Limits)
    ensures EncodeFields(schema, fields, depth, limits).Ok? ==>
      EncodeFields(schema, fields, depth, limits).value == WrittenFields(fields)
    decreases fields, 3
  {
    hide EncodeSeq, Complete;
    SeqWritten(schema, fields, 0, depth, limits);
  }

  // ---- Errors of tags and envelopes ----

  /** Tag 0 and tags from 0xF0 are reserved; a repeated tag is a duplicate and a smaller one out of order. */
  lemma {:induction false} TagErrors(tag: nat, prev: nat)
    ensures TagError(tag, prev) == Some(ReservedTag) <==> tag == 0 || tag >= 0xF0
    ensures TagError(tag, prev) == Some(DuplicateField) <==> 0 < tag < 0xF0 && tag == prev
    ensures TagError(tag, prev) == Some(UnsortedFields) <==> 0 < tag < 0xF0 && tag < prev
    ensures TagError(tag, prev) == None <==> 0 < tag < 0xF0 && tag > prev
  {
  }

  /** The first thing wrong with an envelope, in this order: its length, magic, encoding version, family, schema
      version and flags, and how many bytes follow the length of the body. */
  lemma {:induction false} EnvelopeErrors(bytes: seq<byte>, table: Table, limits: Limits)
    ensures var r := DecodeObject(bytes, table, limits);
      if |bytes| < 9 then r == Err(LengthMismatch)
      else if bytes[..4] != [0x47, 0x45, 0x4D, 0x4C] then r == Err(BadMagic)
      else if bytes[4] != 0x01 then r == Err(UnknownEncodingVersion)
      else if !(1 <= bytes[5] <= 24) then r == Err(ObjectError.UnknownFamily)
      else if bytes[6] != 0x01 then r == Err(UnknownSchemaVersion)
      else if bytes[7] != 0x00 then r == Err(ReservedFlags)
      else match DecodeU64(bytes, 8)
        case Err(e) => r == Err(VarintFailed(e))
        case Ok((len, start)) =>
          && (len > limits.maxObjectBytes ==> r == Err(LimitExceeded))
          && (len <= limits.maxObjectBytes && start + len > |bytes| ==> r == Err(LengthMismatch))
          && (len <= limits.maxObjectBytes && start + len < |bytes| ==> r == Err(TrailingBytes))
  {
    hide DecodeU64, DecodeFields, ValidationError;
  }

  // ---- Objects ----

  /** An object of schema version 1 that passes validation and whose body is of its family's kind and conforms. */
  ghost predicate ObjectConforms(obj: Object, table: Table, limits: Limits)
  {
    && obj.schemever == 1 && ValidationError(obj, limits).None? && (obj.body.Blob? <==> obj.family == BLOB)
    && (obj.body.Fields? ==> FieldsConform(table(obj.family), obj.body.fields, 1, limits))
  }

  /** The envelope of an encoded object: four bytes of magic, version, family, schema version and flags, and
      then the body after its length. */
  ghost predicate Envelope(bytes: seq<byte>, family: Family, body: seq<byte>)
  {
    bytes == [0x47, 0x45, 0x4D, 0x4C, 0x01, family as byte, 0x01, 0x00] + EncodeU64(|body|) + body
  }

  /** An object is encoded exactly when it conforms and its body leaves room for 17 bytes of envelope. */
  lemma {:induction false} ObjectEncodes(obj: Object, table: Table, limits: Limits) returns (body: seq<byte>)
    ensures EncodeObject(obj, table, limits).Ok?
        <==> ObjectConforms(obj, table, limits) && 17 + |body| <= limits.maxObjectBytes
    ensures EncodeObject(obj, table, limits).Ok? ==> Envelope(EncodeObject(obj, table, limits).value, obj.family, body)
    ensures ObjectConforms(obj, table, limits) ==>
      if obj.body.Blob? then body == obj.body.content else body == WrittenFields(obj.body.fields)
  {
    hide EncodeU64, EncodeFields, ValidationError, FieldsConform;
    if obj.body.Blob? {
      body := obj.body.content;
    } else {
      FieldsEncode(table(obj.family), obj.body.fields, 1, limits);
      FieldsWritten(table(obj.family), obj.body.fields, 1, limits);
      var r := EncodeFields(table(obj.family), obj.body.fields, 1, limits);
      body := if r.Ok? then r.value else [];
    }
  }

  /** An object that is decoded conforms, from a body within the limit in the envelope of its family. */
  lemma {:induction false} ObjectDecodes(bytes: seq<byte>, table: Table, limits: Limits, obj: Object)
    returns (body: seq<byte>)
    requires DecodeObject(bytes, table, limits) == Ok(obj)
    ensures ObjectConforms(obj, table, limits) && Envelope(bytes, obj.family, body) && |body| <= limits.maxObjectBytes
    ensures body == if obj.body.Blob? then obj.body.content else WrittenFields(obj.body.fields)
  {
    hide DecodeU64, EncodeU64, DecodeFields, EncodeFields, ValidationError, FieldsConform;
    body := AcceptedBytes(bytes, table, limits, obj);
    if obj.body.Fields? {
      FieldsEncode(table(obj.family), obj.body.fields, 1, limits);
      FieldsWritten(table(obj.family), obj.body.fields, 1, limits);
    }
  }
}
