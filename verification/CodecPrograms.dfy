/** The encoder that appends to a byte vector and the decoder that advances a cursor
    (src/encode.rs, src/decode.rs), proved to compute what `Codec` specifies. */
module CodecPrograms {
  import opened Varint
  import opened Paths
  import opened Wrappers
  import opened Objects
  import opened Validate
  import opened Codec

  // ---- Encoder ----

  /** Bytes appended to `out`. */
  function Appended(out: seq<byte>, r: Result<seq<byte>, ObjectError>): Result<seq<byte>, ObjectError>
  {
    match r
    case Ok(b) => Ok(out + b)
    case Err(e) => Err(e)
  }

  method WriteSized(content: seq<byte>, out: seq<byte>) returns (out': seq<byte>)
    ensures out' == out + Sized(content)
  {
    out' := WriteU64(|content|, out);
    out' := out' + content;
  }

  method WriteValue(ty: Type, v: Value, out: seq<byte>, depth: nat, schema: Schema, limits: Limits)
    returns (r: Result<seq<byte>, ObjectError>)
    ensures r == Appended(out, EncodeValue(ty, v, depth, schema, limits))
    decreases v, 0
  {
    var out' := out;
    match (ty, v) {
      case (TU64, U(u)) =>
        out' := WriteU64(u, out);
      case (TI64, I(i)) =>
        out' := WriteU64(ZigZag(i), out);
      case (TBool, B(b)) =>
        out' := out + [if b then 0x01 else 0x00];
      case (TBytes, Bytes(b)) =>
        if |b| > limits.maxStringBytes { return Err(LimitExceeded); }
        out' := WriteSized(b, out);
      case (TStr, Str(s)) =>
        if |s| > limits.maxStringBytes { return Err(LimitExceeded); }
        out' := WriteSized(s, out);
      case (TPath, Str(s)) =>
        if !IsCanonicalPath(s) { return Err(InvalidPath); }
        if |s| > limits.maxStringBytes { return Err(LimitExceeded); }
        out' := WriteSized(s, out);
      case (TEnum(vals), Str(s)) =>
        if s !in vals { return Err(InvalidEnumValue); }
        if |s| > limits.maxStringBytes { return Err(LimitExceeded); }
        out' := WriteSized(s, out);
      case (TGid(expected), Ref(g)) =>
        if g.family != expected { return Err(FamilyMismatch); }
        out' := WriteSized(g.ToBytes(), out);
      case (TGidAny, Ref(g)) =>
        out' := WriteSized(g.ToBytes(), out);
      case (TRecord(inner), Record(fields)) =>
        var body := WriteFields(schema.(specs := inner), fields, depth + 1, limits);
        if body.Err? { return body; }
        out' := WriteSized(body.value, out);
      case (TArray(elem), Array(items)) =>
        if |items| > limits.maxArrayElements { return Err(LimitExceeded); }
        out' := WriteU64(|items|, out);
        r := WriteItems(elem, items, out', depth + 1, schema, limits);
        AppendTwice(out, EncodeU64(|items|), EncodeItems(elem, items, depth + 1, schema, limits));
        return;
      case _ =>
        return Err(TypeMismatch);
    }
    return Ok(out');
  }

  method WriteItems(elem: Type, items: seq<Value>, out: seq<byte>, depth: nat, schema: Schema, limits: Limits)
    returns (r: Result<seq<byte>, ObjectError>)
    ensures r == Appended(out, EncodeItems(elem, items, depth, schema, limits))
    decreases items, 1
  {
    hide EncodeValue;
    var out' := out;
    assert items[0..] == items;
    for i := 0 to |items|
      invariant Appended(out, EncodeItems(elem, items, depth, schema, limits))
             == Appended(out', EncodeItems(elem, items[i..], depth, schema, limits))
    {
      assert items[i..][0] == items[i] && items[i..][1..] == items[i + 1..];
      ghost var before := out';
      r := WriteValue(elem, items[i], out', depth, schema, limits);
      if r.Err? { return; }
      out' := r.value;
      AppendTwice(before, EncodeValue(elem, items[i], depth, schema, limits).value,
                  EncodeItems(elem, items[i + 1..], depth, schema, limits));
    }
    assert items[|items|..] == [] && out' + [] == out';
    return Ok(out');
  }

  lemma {:induction false} AppendTwice(out: seq<byte>, first: seq<byte>, rest: Result<seq<byte>, ObjectError>)
    ensures Appended(out, Appended(first, rest)) == Appended(out + first, rest)
  {
    if rest.Ok? { assert out + (first + rest.value) == out + first + rest.value; }
  }

  method WriteContent(schema: Schema, f: Field, depth: nat, limits: Limits) returns (r: Result<seq<byte>, ObjectError>)
    ensures r == EncodeContent(schema, f, depth, limits)
    decreases f, 0
  {
    hide EncodeValue;
    if f.value.Raw? {
      if f.tag <= TAG_MAX_SCHEMA { return Err(UnexpectedRawValue); }
      if !schema.extensionsAllowed { return Err(ExtensionNotPermitted); }
      return Ok(f.value.raw);
    }
    if f.tag >= 0x80 { return Err(ExtensionMustBeRaw); }
    var k := SpecIndex(schema.specs, f.tag);
    if k.None? { return Err(UnknownMandatoryField); }
    r := WriteValue(schema.specs[k.value].ty, f.value, [], depth + 1, schema, limits);
    assert r.Ok? ==> [] + r.value == r.value;
    var e := EncodeValue(schema.specs[k.value].ty, f.value, depth + 1, schema, limits);
    assert e.Ok? ==> [] + e.value == e.value;
  }

  /** The required-field check at the end of a record. */
  method CheckRequired(specs: seq<FieldSpec>, fields: seq<Field>) returns (complete: bool)
    ensures complete == Complete(specs, fields)
  {
    for k := 0 to |specs|
      invariant forall j :: 0 <= j < k && specs[j].required ==> HasTag(fields, specs[j].tag)
    {
      if specs[k].required && !HasTag(fields, specs[k].tag) { return false; }
    }
    return true;
  }

  method WriteFields(schema: Schema, fields: seq<Field>, depth: nat, limits: Limits)
    returns (r: Result<seq<byte>, ObjectError>)
    ensures r == EncodeFields(schema, fields, depth, limits)
    decreases fields, 1
  {
    hide EncodeContent;
    if depth > limits.maxRecordDepth { return Err(LimitExceeded); }
    var out: seq<byte> := [];
    var prev: nat := 0;
    assert fields[0..] == fields;
    FromEmpty(EncodeSeq(schema, fields, 0, depth, limits));
    for i := 0 to |fields|
      invariant EncodeSeq(schema, fields, 0, depth, limits)
             == Appended(out, EncodeSeq(schema, fields[i..], prev, depth, limits))
    {
      var field := fields[i];
      assert fields[i..][0] == field && fields[i..][1..] == fields[i + 1..];
      var tag: nat := field.tag;
      if tag == 0 || tag >= 0xF0 { return Err(ReservedTag); }
      if tag == prev { return Err(DuplicateField); }
      if tag < prev { return Err(UnsortedFields); }
      var content := WriteContent(schema, field, depth, limits);
      if content.Err? { return content; }
      ghost var before := out;
      out := WriteU64(tag, out);
      out := WriteSized(content.value, out);
      AppendTwice(before, EncodeU64(tag) + Sized(content.value),
          EncodeSeq(schema, fields[i + 1..], tag, depth, limits));
      assert out == before + (EncodeU64(tag) + Sized(content.value));
      prev := tag;
    }
    assert fields[|fields|..] == [] && out + [] == out;
    var complete := CheckRequired(schema.specs, fields);
    if !complete { return Err(MissingRequiredField); }
    return Ok(out);
  }

  lemma {:induction false} FromEmpty(r: Result<seq<byte>, ObjectError>)
    ensures Appended([], r) == r
  {
    if r.Ok? { assert [] + r.value == r.value; }
  }

  method WriteObject(obj: Object, table: Table, limits: Limits) returns (r: Result<seq<byte>, ObjectError>)
    ensures r == EncodeObject(obj, table, limits)
  {
    hide EncodeFields, ValidationError;
    if obj.schemever != 1 { return Err(UnknownSchemaVersion); }
    var invalid := ValidateFamily(obj, limits);
    if invalid.Some? { return Err(invalid.value); }
    var out := MAGIC;
    out := out + [ENC_VERSION];
    out := out + [obj.family as byte];
    out := out + [obj.schemever];
    out := out + [FLAGS_ZERO];
    var body;
    match obj.body {
      case Blob(content) =>
        if obj.family != BLOB { return Err(BodyKindMismatch); }
        body := content;
      case Fields(fields) =>
        if obj.family == BLOB { return Err(BodyKindMismatch); }
        var encoded := WriteFields(table(obj.family), fields, 1, limits);
        if encoded.Err? { return encoded; }
        body := encoded.value;
    }
    if 8 + 1 + 8 + |body| > limits.maxObjectBytes { return Err(LimitExceeded); }
    assert out == Header(obj.family, obj.schemever);
    out := WriteSized(body, out);
    return Ok(out);
  }

  // ---- Decoder ----

  method TakeVarint(buf: seq<byte>, pos: nat) returns (r: Decoded<nat>)
    ensures r == ReadVarint(buf, pos)
  {
    var v := ReadU64(buf, pos);
    match v {
      case Err(e) => return Err(VarintFailed(e));
      case Ok((n, p)) => return Ok((n, p));
    }
  }

  method TakeSized(buf: seq<byte>, pos: nat, end: nat, max: nat) returns (r: Decoded<seq<byte>>)
    requires end <= |buf|
    ensures r == ReadSized(buf, pos, end, max)
  {
    hide DecodeU64;
    var len := TakeVarint(buf, pos);
    if len.Err? { return Err(len.error); }
    var (n, p) := len.value;
    if n > max { return Err(LimitExceeded); }
    if p + n > end { return Err(LengthMismatch); }
    return Ok((buf[p..p + n], p + n));
  }

  method TakeGid(buf: seq<byte>, pos: nat, end: nat, limits: Limits) returns (r: Decoded<Gid>)
    requires end <= |buf|
    ensures r == ReadGid(buf, pos, end, limits)
  {
    hide DecodeU64;
    var len := TakeVarint(buf, pos);
    if len.Err? { return Err(len.error); }
    var (n, p) := len.value;
    if n > limits.maxStringBytes { return Err(LimitExceeded); }
    if n != 33 { return Err(InvalidGid); }
    if p + 33 > end { return Err(LengthMismatch); }
    var family := FamilyFromCode(buf[p]);
    if family.None? { return Err(ObjectError.UnknownFamily); }
    return Ok((Gid(family.value, buf[p + 1..p + 33]), p + 33));
  }

  method TakeValue(ty: Type, buf: seq<byte>, start: nat, end: nat, depth: nat, schema: Schema, limits: Limits)
    returns (r: Decoded<Value>)
    requires end <= |buf|
    ensures r == DecodeValue(ty, buf, start, end, depth, schema, limits)
    decreases ty, 0, 0
  {
    hide DecodeU64, DecodeFields, DecodeItems;
    match ty {
      case TU64 =>
        var v := TakeVarint(buf, start);
        if v.Err? { return Err(v.error); }
        DecodedFits(buf, start, v.value.0, v.value.1);
        return Ok((U(v.value.0), v.value.1));
      case TI64 =>
        var z := TakeVarint(buf, start);
        if z.Err? { return Err(z.error); }
        DecodedFits(buf, start, z.value.0, z.value.1);
        return Ok((I(UnZigZag(z.value.0)), z.value.1));
      case TBool =>
        if end - start != 1 { return Err(ValueLengthMismatch); }
        if buf[start] == 0x00 { return Ok((B(false), start + 1)); }
        if buf[start] == 0x01 { return Ok((B(true), start + 1)); }
        return Err(InvalidBoolean);
      case TBytes =>
        var b := TakeSized(buf, start, end, limits.maxStringBytes);
        if b.Err? { return Err(b.error); }
        return Ok((Bytes(b.value.0), b.value.1));
      case TGid(expected) =>
        var g := TakeGid(buf, start, end, limits);
        if g.Err? { return Err(g.error); }
        if g.value.0.family != expected { return Err(FamilyMismatch); }
        return Ok((Ref(g.value.0), g.value.1));
      case TGidAny =>
        var g := TakeGid(buf, start, end, limits);
        if g.Err? { return Err(g.error); }
        return Ok((Ref(g.value.0), g.value.1));
      case TRecord(inner) =>
        var len := TakeVarint(buf, start);
        if len.Err? { return Err(len.error); }
        var (n, p) := len.value;
        if n > limits.maxObjectBytes { return Err(LimitExceeded); }
        if p + n > end { return Err(LengthMismatch); }
        var fields := TakeFields(schema.(specs := inner), buf, p, p + n, depth + 1, limits);
        if fields.Err? { return Err(fields.error); }
        if fields.value.1 != p + n { return Err(ValueLengthMismatch); }
        return Ok((Record(fields.value.0), fields.value.1));
      case TArray(elem) =>
        var count := TakeVarint(buf, start);
        if count.Err? { return Err(count.error); }
        var (n, p) := count.value;
        if n > limits.maxArrayElements { return Err(LimitExceeded); }
        var items := TakeItems(elem, n, buf, p, end, depth + 1, schema, limits);
        if items.Err? { return Err(items.error); }
        return Ok((Array(items.value.0), items.value.1));
      case _ =>
        var s := TakeSized(buf, start, end, limits.maxStringBytes);
        if s.Err? { return Err(s.error); }
        var (text, p) := s.value;
        var v := StringValue(ty, text);
        if v.Err? { return Err(v.error); }
        return Ok((v.value, p));
    }
  }

  /** What has been read so far, followed by the outcome of the rest. */
  ghost function Following<T>(got: seq<T>, r: Decoded<seq<T>>): Decoded<seq<T>>
  {
    match r
    case Err(e) => Err(e)
    case Ok((rest, q)) => Ok((got + rest, q))
  }

  lemma {:induction false} FollowTwice<T>(got: seq<T>, x: T, r: Decoded<seq<T>>)
    ensures Following(got, Following([x], r)) == Following(got + [x], r)
  {
    if r.Ok? { assert got + ([x] + r.value.0) == got + [x] + r.value.0; }
  }

  lemma {:induction false} FollowNothing<T>(r: Decoded<seq<T>>)
    ensures Following([], r) == r
  {
    if r.Ok? { assert [] + r.value.0 == r.value.0; }
  }

  method TakeItems(elem: Type, count: nat, buf: seq<byte>, start: nat, end: nat, depth: nat, schema: Schema,
        limits: Limits)
    returns (r: Decoded<seq<Value>>)
    requires end <= |buf|
    ensures r == DecodeItems(elem, count, buf, start, end, depth, schema, limits)
    decreases elem, 1, 0
  {
    hide DecodeValue;
    var items: seq<Value> := [];
    var pos := start;
    FollowNothing(DecodeItems(elem, count, buf, start, end, depth, schema, limits));
    for i := 0 to count
      invariant DecodeItems(elem, count, buf, start, end, depth, schema, limits)
             == Following(items, DecodeItems(elem, count - i, buf, pos, end, depth, schema, limits))
    {
      var item := TakeValue(elem, buf, pos, end, depth, schema, limits);
      if item.Err? { return Err(item.error); }
      FollowTwice(items, item.value.0, DecodeItems(elem, count - i - 1, buf, item.value.1, end, depth, schema, limits));
      items := items + [item.value.0];
      pos := item.value.1;
    }
    assert items + [] == items;
    return Ok((items, pos));
  }

  method TakeContent(schema: Schema, tag: nat, buf: seq<byte>, start: nat, stop: nat, depth: nat, limits: Limits)
    returns (r: Result<Value, ObjectError>)
    requires start <= stop <= |buf|
    ensures r == DecodeContent(schema, tag, buf, start, stop, depth, limits)
    decreases schema.specs, 0, 0
  {
    hide DecodeValue;
    if tag > TAG_MAX_SCHEMA {
      if !schema.extensionsAllowed { return Err(ExtensionNotPermitted); }
      return Ok(Raw(buf[start..stop]));
    }
    var k := SpecIndex(schema.specs, tag);
    if k.None? { return Err(UnknownMandatoryField); }
    var spec := schema.specs[k.value];
    assert spec.ty < spec;
    var v := TakeValue(spec.ty, buf, start, stop, depth + 1, schema, limits);
    if v.Err? { return Err(v.error); }
    if v.value.1 != stop { return Err(ValueLengthMismatch); }
    return Ok(v.value.0);
  }

  method TakeFields(schema: Schema, buf: seq<byte>, start: nat, end: nat, depth: nat, limits: Limits)
    returns (r: Decoded<seq<Field>>)
    requires end <= |buf|
    ensures r == DecodeFields(schema, buf, start, end, depth, limits)
    decreases schema.specs, 1, 0
  {
    hide DecodeContent, DecodeU64;
    if depth > limits.maxRecordDepth { return Err(LimitExceeded); }
    var fields: seq<Field> := [];
    var prev: nat := 0;
    var pos := start;
    FollowNothing(DecodeSeq(schema, buf, start, end, 0, depth, limits));
    while pos < end
      invariant start <= pos
      invariant DecodeSeq(schema, buf, start, end, 0, depth, limits)
             == Following(fields, DecodeSeq(schema, buf, pos, end, prev, depth, limits))
      decreases end - pos
    {
      var t := TakeVarint(buf, pos);
      if t.Err? { return Err(t.error); }
      var (tag, p) := t.value;
      if tag == 0 || tag >= 0xF0 { return Err(ReservedTag); }
      if tag == prev { return Err(DuplicateField); }
      if tag < prev { return Err(UnsortedFields); }
      var len := TakeVarint(buf, p);
      if len.Err? { return Err(len.error); }
      var (n, valueStart) := len.value;
      if n > limits.maxObjectBytes { return Err(LimitExceeded); }
      if valueStart + n > end { return Err(LengthMismatch); }
      var value := TakeContent(schema, tag, buf, valueStart, valueStart + n, depth, limits);
      if value.Err? { return Err(value.error); }
      var field := Field(tag, value.value);
      FollowTwice(fields, field, DecodeSeq(schema, buf, valueStart + n, end, tag, depth, limits));
      prev := tag;
      pos := valueStart + n;
      fields := fields + [field];
    }
    assert fields + [] == fields;
    var complete := CheckRequired(schema.specs, fields);
    if !complete { return Err(MissingRequiredField); }
    return Ok((fields, pos));
  }

  method TakeObject(bytes: seq<byte>, table: Table, limits: Limits) returns (r: Result<Object, ObjectError>)
    ensures r == DecodeObject(bytes, table, limits)
  {
    hide DecodeU64, DecodeFields, ValidationError;
    if |bytes| < 9 { return Err(LengthMismatch); }
    if bytes[..4] != MAGIC { return Err(BadMagic); }
    if bytes[4] != ENC_VERSION { return Err(UnknownEncodingVersion); }
    var family := FamilyFromCode(bytes[5]);
    if family.None? { return Err(ObjectError.UnknownFamily); }
    if bytes[6] != 1 { return Err(UnknownSchemaVersion); }
    if bytes[7] != FLAGS_ZERO { return Err(ReservedFlags); }
    var len := TakeVarint(bytes, 8);
    if len.Err? { return Err(len.error); }
    var (n, start) := len.value;
    if n > limits.maxObjectBytes { return Err(LimitExceeded); }
    if start + n > |bytes| { return Err(LengthMismatch); }
    if start + n != |bytes| { return Err(TrailingBytes); }
    var content := bytes[start..];
    var body;
    if family.value == BLOB {
      body := Blob(content);
    } else {
      var fields := TakeFields(table(family.value), content, 0, |content|, 1, limits);
      if fields.Err? { return Err(fields.error); }
      if fields.value.1 != |content| { return Err(ValueLengthMismatch); }
      body := Fields(fields.value.0);
    }
    var obj := Object(family.value, bytes[6], body);
    var invalid := ValidateFamily(obj, limits);
    if invalid.Some? { return Err(invalid.value); }
    return Ok(obj);
  }
}
