/** The encoder and the decoder are inverse to each other. */
module CodecLaws {
  import opened Varint
  import opened Paths
  import opened Wrappers
  import opened Objects
  import opened Validate
  import opened Codec

  // ---- Canonicality: what is accepted re-encodes to the same bytes ----

  lemma {:induction false} VarintBytes(buf: seq<byte>, pos: nat)
    requires ReadVarint(buf, pos).Ok?
    ensures var (v, p) := ReadVarint(buf, pos).value; buf[pos..p] == EncodeU64(v)
  {
    var (v, p) := ReadVarint(buf, pos).value;
    DecodesExactly(buf, pos, v, p);
  }

  lemma {:induction false} SizedBytes(buf: seq<byte>, pos: nat, len: nat, p: nat)
    requires ReadVarint(buf, pos) == Ok((len, p)) && p + len <= |buf|
    ensures buf[pos..p + len] == Sized(buf[p..p + len])
  {
    VarintBytes(buf, pos);
    assert buf[pos..p + len] == buf[pos..p] + buf[p..p + len];
  }

  lemma {:induction false} GidBytes(buf: seq<byte>, pos: nat, end: nat, limits: Limits)
    requires end <= |buf| && ReadGid(buf, pos, end, limits).Ok?
    ensures var (g, q) := ReadGid(buf, pos, end, limits).value; buf[pos..q] == Sized(g.ToBytes())
  {
    var (len, p) := ReadVarint(buf, pos).value;
    var (g, q) := ReadGid(buf, pos, end, limits).value;
    SizedBytes(buf, pos, len, p);
    assert buf[p..p + 33] == [buf[p]] + buf[p + 1..p + 33];
  }

  predicate Scalar(ty: Type) { !ty.TRecord? && !ty.TArray? }

  lemma {:induction false} CanonicalScalar(ty: Type, buf: seq<byte>, pos: nat, end: nat, depth: nat, schema: Schema,
        limits: Limits)
    requires Scalar(ty) && end <= |buf| && DecodeValue(ty, buf, pos, end, depth, schema, limits).Ok?
    ensures var (v, q) := DecodeValue(ty, buf, pos, end, depth, schema, limits).value;
      EncodeValue(ty, v, depth, schema, limits) == Ok(buf[pos..q])
  {
    hide DecodeU64, EncodeU64, ZigZag, UnZigZag, IsCanonicalPath, ValidUtf8, DecodeItems, DecodeFields, EncodeItems,
        EncodeFields;
    if ty.TBool? {
      assert buf[pos..pos + 1] == [buf[pos]];
    } else if ty.TGid? || ty.TGidAny? {
      GidBytes(buf, pos, end, limits);
    } else if ty.TU64? {
      VarintBytes(buf, pos);
    } else if ty.TI64? {
      var (z, p) := ReadVarint(buf, pos).value;
      VarintBytes(buf, pos);
      DecodedFits(buf, pos, z, p);
      ZigZagBijection(0, z);
    } else {
      var (len, p) := ReadVarint(buf, pos).value;
      SizedBytes(buf, pos, len, p);
    }
  }

  lemma {:induction false} CanonicalValue(ty: Type, buf: seq<byte>, pos: nat, end: nat, depth: nat, schema: Schema,
        limits: Limits)
    requires end <= |buf| && DecodeValue(ty, buf, pos, end, depth, schema, limits).Ok?
    ensures var (v, q) := DecodeValue(ty, buf, pos, end, depth, schema, limits).value;
      EncodeValue(ty, v, depth, schema, limits) == Ok(buf[pos..q])
    decreases ty, 0, 0
  {
    hide DecodeU64, EncodeU64, DecodeFields, EncodeFields, DecodeItems, EncodeItems;
    match ty
    case TRecord(specs) =>
      var (len, p) := ReadVarint(buf, pos).value;
      CanonicalFields(schema.(specs := specs), buf, p, p + len, depth + 1, limits);
      SizedBytes(buf, pos, len, p);
    case TArray(elem) =>
      var (count, p) := ReadVarint(buf, pos).value;
      var (_, q) := DecodeValue(ty, buf, pos, end, depth, schema, limits).value;
      VarintBytes(buf, pos);
      CanonicalItems(elem, count, buf, p, end, depth + 1, schema, limits);
      assert buf[pos..q] == buf[pos..p] + buf[p..q];
    case _ =>
      CanonicalScalar(ty, buf, pos, end, depth, schema, limits);
  }

  lemma {:induction false} CanonicalItems(elem: Type, count: nat, buf: seq<byte>, pos: nat, end: nat, depth: nat,
        schema: Schema, limits: Limits)
    requires pos <= |buf| && end <= |buf| && DecodeItems(elem, count, buf, pos, end, depth, schema, limits).Ok?
    ensures var (vs, q) := DecodeItems(elem, count, buf, pos, end, depth, schema, limits).value;
      |vs| == count && EncodeItems(elem, vs, depth, schema, limits) == Ok(buf[pos..q])
    decreases elem, 1, count
  {
    hide DecodeU64, EncodeU64, DecodeValue, EncodeValue;
    if count == 0 {
      assert buf[pos..pos] == [];
    } else {
      var (v, p) := DecodeValue(elem, buf, pos, end, depth, schema, limits).value;
      var (vs, q) := DecodeItems(elem, count - 1, buf, p, end, depth, schema, limits).value;
      CanonicalValue(elem, buf, pos, end, depth, schema, limits);
      CanonicalItems(elem, count - 1, buf, p, end, depth, schema, limits);
      assert ([v] + vs)[1..] == vs;
      assert buf[pos..q] == buf[pos..p] + buf[p..q];
    }
  }

  lemma {:induction false} CanonicalContent(schema: Schema, tag: byte, buf: seq<byte>, start: nat, stop: nat,
        depth: nat, limits: Limits)
    requires start <= stop <= |buf| && DecodeContent(schema, tag, buf, start, stop, depth, limits).Ok?
    ensures var v := DecodeContent(schema, tag, buf, start, stop, depth, limits).value;
      EncodeContent(schema, Field(tag, v), depth, limits) == Ok(buf[start..stop])
    decreases schema.specs, 0, 0
  {
    hide DecodeU64, EncodeU64, DecodeValue;
    if tag <= TAG_MAX_SCHEMA {
      var spec := schema.specs[SpecIndex(schema.specs, tag).value];
      assert spec.ty < spec;
      CanonicalValue(spec.ty, buf, start, stop, depth + 1, schema, limits);
    }
  }

  lemma {:induction false} CanonicalSeq(schema: Schema, buf: seq<byte>, pos: nat, end: nat, prev: nat, depth: nat,
        limits: Limits)
    requires pos <= end <= |buf| && DecodeSeq(schema, buf, pos, end, prev, depth, limits).Ok?
    ensures var (fs, q) := DecodeSeq(schema, buf, pos, end, prev, depth, limits).value;
      EncodeSeq(schema, fs, prev, depth, limits) == Ok(buf[pos..end])
    decreases schema.specs, 2, end - pos
  {
    hide DecodeU64, EncodeU64, DecodeField, EncodeField;
    if pos == end {
      assert buf[pos..end] == [];
    } else {
      var (f, p) := DecodeField(schema, buf, pos, end, prev, depth, limits).value;
      var (fs, q) := DecodeSeq(schema, buf, p, end, f.tag, depth, limits).value;
      CanonicalField(schema, buf, pos, end, prev, depth, limits);
      CanonicalSeq(schema, buf, p, end, f.tag, depth, limits);
      assert ([f] + fs)[1..] == fs;
      assert buf[pos..end] == buf[pos..p] + buf[p..end];
    }
  }

  lemma {:induction false} CanonicalField(schema: Schema, buf: seq<byte>, pos: nat, end: nat, prev: nat, depth: nat,
        limits: Limits)
    requires end <= |buf| && DecodeField(schema, buf, pos, end, prev, depth, limits).Ok?
    ensures var (f, p) := DecodeField(schema, buf, pos, end, prev, depth, limits).value;
      EncodeField(schema, f, prev, depth, limits) == Ok(buf[pos..p])
    decreases schema.specs, 1, 0
  {
    hide DecodeU64, EncodeU64, DecodeContent, EncodeContent;
    var (tag, p) := ReadVarint(buf, pos).value;
    var (len, start) := ReadVarint(buf, p).value;
    CanonicalContent(schema, tag, buf, start, start + len, depth, limits);
    VarintBytes(buf, pos);
    SizedBytes(buf, p, len, start);
    assert buf[pos..start + len] == buf[pos..p] + buf[p..start + len];
  }

  lemma {:induction false} CanonicalFields(schema: Schema, buf: seq<byte>, pos: nat, end: nat, depth: nat,
        limits: Limits)
    requires pos <= end <= |buf| && DecodeFields(schema, buf, pos, end, depth, limits).Ok?
    ensures var (fs, q) := DecodeFields(schema, buf, pos, end, depth, limits).value;
      EncodeFields(schema, fs, depth, limits) == Ok(buf[pos..end])
    decreases schema.specs, 3, 0
  {
    hide DecodeU64, EncodeU64, DecodeSeq, EncodeSeq;
    CanonicalSeq(schema, buf, pos, end, 0, depth, limits);
  }

  /** Accepted bytes are a header and the sized encoding of the body they decode to. */
  lemma {:induction false} AcceptedBytes(bytes: seq<byte>, table: Table, limits: Limits, obj: Object)
    returns (body: seq<byte>)
    requires DecodeObject(bytes, table, limits) == Ok(obj)
    ensures bytes == Header(obj.family, obj.schemever) + Sized(body)
    ensures ReadVarint(bytes, 8).value.0 == |body|
    ensures obj.body.Blob? == (obj.family == BLOB)
    ensures if obj.body.Blob? then body == obj.body.content
            else EncodeFields(table(obj.family), obj.body.fields, 1, limits) == Ok(body)
  {
    hide DecodeU64, EncodeU64, DecodeFields, EncodeFields, ValidationError;
    var (len, start) := ReadVarint(bytes, 8).value;
    body := bytes[start..];
    if obj.family != BLOB {
      CanonicalFields(table(obj.family), body, 0, |body|, 1, limits);
      assert body[0..|body|] == body;
    }
    SizedBytes(bytes, 8, len, start);
    assert bytes[start..start + len] == body;
    assert bytes == bytes[..4] + [bytes[4], bytes[5], bytes[6], bytes[7]] + bytes[8..start + len];
  }

  /** Accepted bytes are exactly the encoding of the object they decode to.  The encoder counts 17
      header bytes against the size limit where the decoder counts only the body, so the two agree
      exactly on bodies that leave that room. */
  lemma {:induction false} Canonicality(bytes: seq<byte>, table: Table, limits: Limits, obj: Object)
    requires DecodeObject(bytes, table, limits) == Ok(obj)
    ensures ReadVarint(bytes, 8).Ok?
    ensures EncodeObject(obj, table, limits)
         == if ReadVarint(bytes, 8).value.0 + 17 <= limits.maxObjectBytes then Ok(bytes) else Err(LimitExceeded)
  {
    hide DecodeU64, EncodeU64, DecodeFields, EncodeFields, ValidationError;
    var body := AcceptedBytes(bytes, table, limits, obj);
  }

  /** No two byte strings decode to one object. */
  lemma {:induction false} DecodeInjective(bytes: seq<byte>, bytes': seq<byte>, table: Table, limits: Limits)
    requires DecodeObject(bytes, table, limits).Ok?
    requires DecodeObject(bytes, table, limits) == DecodeObject(bytes', table, limits)
    ensures bytes == bytes'
  {
    var obj := DecodeObject(bytes, table, limits).value;
    var body := AcceptedBytes(bytes, table, limits, obj);
    var body' := AcceptedBytes(bytes', table, limits, obj);
  }

  // ---- Round trip: what is encoded decodes to the same object ----

  /** No array of booleans anywhere in a type: a boolean is read only where exactly one byte is left. */
  ghost predicate NoBoolArray(ty: Type)
    decreases ty, 0
  {
    match ty
    case TArray(elem) => !elem.TBool? && NoBoolArray(elem)
    case TRecord(specs) => NoBoolArrays(specs)
    case _ => true
  }

  ghost predicate NoBoolArrays(specs: seq<FieldSpec>)
    decreases specs, 1
  {
    forall i :: 0 <= i < |specs| ==> NoBoolArraySpec(specs[i])
  }

  ghost predicate NoBoolArraySpec(spec: FieldSpec)
    decreases spec, 0
  {
    NoBoolArray(spec.ty)
  }

  /** Every boolean ends the field it is in, since the decoder reads one only where a single byte is left.
      `last` says whether the value itself ends its field. */
  predicate BoolsEnd(v: Value, last: bool)
    decreases v, 0
  {
    match v
    case B(_) => last
    case Record(fields) => FieldBoolsEnd(fields)
    case Array(items) => ItemBoolsEnd(items, last)
    case _ => true
  }

  predicate ItemBoolsEnd(items: seq<Value>, last: bool)
    decreases items, 1
  {
    items == [] || (BoolsEnd(items[0], last && |items| == 1) && ItemBoolsEnd(items[1..], last))
  }

  predicate FieldBoolsEnd(fields: seq<Field>)
    decreases fields, 1
  {
    if fields == [] then true
    else
      var f := fields[0];
      assert f.value < f;
      BoolsEnd(f.value, true) && FieldBoolsEnd(fields[1..])
  }

  lemma {:induction false} EncodedNotEmpty(ty: Type, v: Value, depth: nat, schema: Schema, limits: Limits)
    ensures var r := EncodeValue(ty, v, depth, schema, limits); r.Ok? ==> r.value != []
  {
    hide EncodeItems, EncodeFields, EncodeU64;
  }

  /** `bytes` stands in `buf` at `pos`. */
  ghost predicate StandsAt(bytes: seq<byte>, buf: seq<byte>, pos: nat)
  {
    pos + |bytes| <= |buf| && buf[pos..pos + |bytes|] == bytes
  }

  lemma {:induction false} StandsSplit(x: seq<byte>, y: seq<byte>, buf: seq<byte>, pos: nat)
    requires StandsAt(x + y, buf, pos)
    ensures StandsAt(x, buf, pos) && StandsAt(y, buf, pos + |x|)
  {
    assert buf[pos..pos + |x|] == buf[pos..pos + |x + y|][..|x|];
    assert buf[pos + |x|..pos + |x| + |y|] == buf[pos..pos + |x + y|][|x|..];
  }

  lemma {:induction false} ReadsVarint(v: nat, buf: seq<byte>, pos: nat)
    requires StandsAt(EncodeU64(v), buf, pos) && v < 0x1_0000_0000_0000_0000
    ensures ReadVarint(buf, pos) == Ok((v, pos + |EncodeU64(v)|))
  {
    DecodesExactly(buf, pos, v, pos + |EncodeU64(v)|);
  }

  lemma {:induction false} ReadsSized(s: seq<byte>, buf: seq<byte>, pos: nat, end: nat, max: u64)
    requires StandsAt(Sized(s), buf, pos) && pos + |Sized(s)| <= end <= |buf| && |s| <= max
    ensures ReadSized(buf, pos, end, max) == Ok((s, pos + |Sized(s)|))
    ensures ReadVarint(buf, pos) == Ok((|s|, pos + |EncodeU64(|s|)|)) && StandsAt(s, buf, pos + |EncodeU64(|s|)|)
  {
    hide EncodeU64, DecodeU64;
    StandsSplit(EncodeU64(|s|), s, buf, pos);
    ReadsVarint(|s|, buf, pos);
  }

  lemma {:induction false} ReadsGid(g: Gid, buf: seq<byte>, pos: nat, end: nat, limits: Limits)
    requires StandsAt(Sized(g.ToBytes()), buf, pos) && pos + |Sized(g.ToBytes())| <= end <= |buf|
    requires limits.maxStringBytes >= 33
    ensures ReadGid(buf, pos, end, limits) == Ok((g, pos + |Sized(g.ToBytes())|))
  {
    ReadsSized(g.ToBytes(), buf, pos, end, 33);
    var p := pos + |EncodeU64(33)|;
    assert buf[p] == buf[p..p + 33][0] == g.family;
    assert buf[p + 1..p + 33] == buf[p..p + 33][1..] == g.digest;
  }

  /** Identities can be read back: they fit the string limit, or there are none. */
  ghost predicate RefsReadable(refs: nat, limits: Limits) { limits.maxStringBytes >= 33 || refs == 0 }

  /** Encoded bytes found in the buffer, within the bound and the size limit. */
  ghost predicate Readable(bytes: seq<byte>, buf: seq<byte>, pos: nat, end: nat, limits: Limits)
  {
    StandsAt(bytes, buf, pos) && pos + |bytes| <= end <= |buf| && |bytes| <= limits.maxObjectBytes
  }

  lemma {:induction false} ReadableSplit(x: seq<byte>, y: seq<byte>, buf: seq<byte>, pos: nat, end: nat, limits: Limits)
    requires Readable(x + y, buf, pos, end, limits)
    ensures Readable(x, buf, pos, end, limits) && Readable(y, buf, pos + |x|, end, limits)
  {
    StandsSplit(x, y, buf, pos);
  }

  lemma {:induction false} BoolStands(bytes: seq<byte>, buf: seq<byte>, pos: nat)
    requires StandsAt(bytes, buf, pos) && |bytes| == 1
    ensures pos < |buf| && buf[pos] == bytes[0]
  {
    assert buf[pos] == buf[pos..pos + 1][0];
  }

  lemma {:induction false} ReadsScalar(ty: Type, v: Value, bytes: seq<byte>, buf: seq<byte>, pos: nat, end: nat,
        depth: nat, schema: Schema, limits: Limits)
    requires Scalar(ty) && EncodeValue(ty, v, depth, schema, limits) == Ok(bytes) && RefsReadable(CountRefs(v), limits)
    requires Readable(bytes, buf, pos, end, limits) && (ty.TBool? ==> end == pos + |bytes|)
    ensures DecodeValue(ty, buf, pos, end, depth, schema, limits) == Ok((v, pos + |bytes|))
  {
    hide DecodeU64, EncodeU64, ZigZag, UnZigZag, IsCanonicalPath, ValidUtf8, DecodeItems, DecodeFields, EncodeItems,
      EncodeFields, StandsAt;
    if ty.TBool? {
      BoolStands(bytes, buf, pos);
    } else if ty.TU64? {
      ReadsVarint(v.u, buf, pos);
    } else if ty.TI64? {
      ReadsVarint(ZigZag(v.i), buf, pos);
      ZigZagBijection(v.i, 0);
    } else if ty.TGid? || ty.TGidAny? {
      ReadsGid(v.gid, buf, pos, end, limits);
    } else {
      ReadsSized(if ty.TBytes? then v.bytes else v.s, buf, pos, end, limits.maxStringBytes);
    }
  }

  // How the decoder puts its parts together, one lemma per shape.

  lemma {:induction false} RecordDecodes(specs: seq<FieldSpec>, buf: seq<byte>, pos: nat, end: nat, depth: nat,
        schema: Schema, limits: Limits, len: nat, p: nat, fields: seq<Field>)
    requires ReadVarint(buf, pos) == Ok((len, p)) && len <= limits.maxObjectBytes && p + len <= end <= |buf|
    requires DecodeFields(schema.(specs := specs), buf, p, p + len, depth + 1, limits) == Ok((fields, p + len))
    ensures DecodeValue(TRecord(specs), buf, pos, end, depth, schema, limits) == Ok((Record(fields), p + len))
  {
    hide DecodeU64, EncodeU64, DecodeFields;
  }

  lemma {:induction false} ArrayDecodes(elem: Type, buf: seq<byte>, pos: nat, end: nat, depth: nat, schema: Schema,
        limits: Limits, p: nat, items: seq<Value>, q: nat)
    requires ReadVarint(buf, pos) == Ok((|items|, p)) && |items| <= limits.maxArrayElements && end <= |buf|
    requires DecodeItems(elem, |items|, buf, p, end, depth + 1, schema, limits) == Ok((items, q))
    ensures DecodeValue(TArray(elem), buf, pos, end, depth, schema, limits) == Ok((Array(items), q))
  {
    hide DecodeU64, EncodeU64, DecodeItems;
  }

  lemma {:induction false} FieldDecodes(schema: Schema, buf: seq<byte>, pos: nat, end: nat, prev: nat, depth: nat,
        limits: Limits, tag: byte, p: nat, len: nat, start: nat, v: Value)
    requires ReadVarint(buf, pos) == Ok((tag, p)) && TagError(tag, prev).None? && ReadVarint(buf, p) == Ok((len, start))
    requires len <= limits.maxObjectBytes && start + len <= end <= |buf|
    requires DecodeContent(schema, tag, buf, start, start + len, depth, limits) == Ok(v)
    ensures DecodeField(schema, buf, pos, end, prev, depth, limits) == Ok((Field(tag, v), start + len))
  {
    hide DecodeU64, EncodeU64, DecodeContent;
  }

  lemma {:induction false} ReadsValue(ty: Type, v: Value, bytes: seq<byte>, buf: seq<byte>, pos: nat, end: nat,
        depth: nat, schema: Schema, limits: Limits)
    requires EncodeValue(ty, v, depth, schema, limits) == Ok(bytes)
    requires BoolsEnd(v, end == pos + |bytes|) && RefsReadable(CountRefs(v), limits)
    requires Readable(bytes, buf, pos, end, limits)
    ensures DecodeValue(ty, buf, pos, end, depth, schema, limits) == Ok((v, pos + |bytes|))
    decreases v, 0
  {
    hide DecodeU64, EncodeU64, DecodeFields, EncodeFields, DecodeItems, EncodeItems, DecodeValue;
    match ty
    case TRecord(specs) =>
      var schema' := schema.(specs := specs);
      var body := EncodeFields(schema', v.fields, depth + 1, limits).value;
      var p := pos + |EncodeU64(|body|)|;
      SizedStands(body, buf, pos, end, limits);
      ReadsFields(schema', v.fields, body, buf, p, depth + 1, limits);
      RecordDecodes(specs, buf, pos, end, depth, schema, limits, |body|, p, v.fields);
    case TArray(elem) =>
      var out := EncodeItems(elem, v.items, depth + 1, schema, limits).value;
      var p := pos + |EncodeU64(|v.items|)|;
      VarintStands(|v.items|, out, buf, pos, end, limits);
      ReadsItems(elem, v.items, out, buf, p, end, depth + 1, schema, limits);
      ArrayDecodes(elem, buf, pos, end, depth, schema, limits, p, v.items, p + |out|);
    case _ =>
      ReadsScalar(ty, v, bytes, buf, pos, end, depth, schema, limits);
  }

  lemma {:induction false} VarintStands(n: nat, rest: seq<byte>, buf: seq<byte>, pos: nat, end: nat, limits: Limits)
    requires Readable(EncodeU64(n) + rest, buf, pos, end, limits) && n < 0x1_0000_0000_0000_0000
    ensures ReadVarint(buf, pos) == Ok((n, pos + |EncodeU64(n)|))
    ensures Readable(rest, buf, pos + |EncodeU64(n)|, end, limits)
    ensures |EncodeU64(n) + rest| == |EncodeU64(n)| + |rest|
  {
    hide DecodeU64, EncodeU64;
    ReadableSplit(EncodeU64(n), rest, buf, pos, end, limits);
    ReadsVarint(n, buf, pos);
  }

  lemma {:induction false} SizedStands(content: seq<byte>, buf: seq<byte>, pos: nat, end: nat, limits: Limits)
    requires Readable(Sized(content), buf, pos, end, limits)
    ensures var p := pos + |EncodeU64(|content|)|;
      && ReadVarint(buf, pos) == Ok((|content|, p)) && |content| <= limits.maxObjectBytes
      && Readable(content, buf, p, p + |content|, limits) && p + |content| == pos + |Sized(content)| <= end
  {
    hide DecodeU64, EncodeU64;
    VarintStands(|content|, content, buf, pos, end, limits);
  }

  lemma {:induction false} ReadsItems(elem: Type, items: seq<Value>, bytes: seq<byte>, buf: seq<byte>, pos: nat,
        end: nat, depth: nat, schema: Schema, limits: Limits)
    requires EncodeItems(elem, items, depth, schema, limits) == Ok(bytes) && Readable(bytes, buf, pos, end, limits)
    requires ItemBoolsEnd(items, end == pos + |bytes|) && RefsReadable(CountRefsItems(items), limits)
    ensures DecodeItems(elem, |items|, buf, pos, end, depth, schema, limits) == Ok((items, pos + |bytes|))
    decreases items, 1
  {
    hide DecodeU64, EncodeU64, DecodeValue, EncodeValue;
    if items != [] {
      var first := EncodeValue(elem, items[0], depth, schema, limits).value;
      var rest := EncodeItems(elem, items[1..], depth, schema, limits).value;
      var p := pos + |first|;
      assert bytes == first + rest;
      ReadableSplit(first, rest, buf, pos, end, limits);
      if |items| > 1 { EncodedNotEmpty(elem, items[1], depth, schema, limits); }
      ReadsValue(elem, items[0], first, buf, pos, end, depth, schema, limits);
      ReadsItems(elem, items[1..], rest, buf, p, end, depth, schema, limits);
      assert items == [items[0]] + items[1..];
    }
  }

  lemma {:induction false} ReadsContent(schema: Schema, f: Field, content: seq<byte>, buf: seq<byte>, start: nat,
        depth: nat, limits: Limits)
    requires EncodeContent(schema, f, depth, limits) == Ok(content)
    requires BoolsEnd(f.value, true) && RefsReadable(CountRefs(f.value), limits)
    requires Readable(content, buf, start, start + |content|, limits)
    ensures DecodeContent(schema, f.tag, buf, start, start + |content|, depth, limits) == Ok(f.value)
    decreases f, 0
  {
    hide DecodeU64, EncodeU64, DecodeValue, EncodeValue;
    if f.tag <= TAG_MAX_SCHEMA {
      var k := SpecIndex(schema.specs, f.tag).value;
      ReadsValue(schema.specs[k].ty, f.value, content, buf, start, start + |content|, depth + 1, schema, limits);
    }
  }

  /** Where the content of an encoded field stands. */
  ghost function ContentStart(tag: byte, content: seq<byte>, pos: nat): nat
  {
    pos + |EncodeU64(tag)| + |EncodeU64(|content|)|
  }

  lemma {:induction false} FieldStands(tag: byte, content: seq<byte>, buf: seq<byte>, pos: nat, end: nat,
        limits: Limits)
    requires Readable(EncodeU64(tag) + Sized(content), buf, pos, end, limits)
    ensures var start := ContentStart(tag, content, pos);
      && ReadVarint(buf, pos) == Ok((tag, pos + |EncodeU64(tag)|))
      && ReadVarint(buf, pos + |EncodeU64(tag)|) == Ok((|content|, start)) && |content| <= limits.maxObjectBytes
      && Readable(content, buf, start, start + |content|, limits)
      && start + |content| == pos + |EncodeU64(tag) + Sized(content)| <= end <= |buf|
  {
    hide DecodeU64, EncodeU64;
    VarintStands(tag, Sized(content), buf, pos, end, limits);
    SizedStands(content, buf, pos + |EncodeU64(tag)|, end, limits);
  }

  lemma {:induction false} ReadsField(schema: Schema, f: Field, bytes: seq<byte>, prev: nat, buf: seq<byte>, pos: nat,
        end: nat, depth: nat, limits: Limits)
    requires EncodeField(schema, f, prev, depth, limits) == Ok(bytes) && Readable(bytes, buf, pos, end, limits)
    requires BoolsEnd(f.value, true) && RefsReadable(CountRefs(f.value), limits)
    ensures DecodeField(schema, buf, pos, end, prev, depth, limits) == Ok((f, pos + |bytes|))
    decreases f, 1
  {
    hide DecodeU64, EncodeU64, DecodeContent, EncodeContent, DecodeField;
    var content := EncodeContent(schema, f, depth, limits).value;
    var start := ContentStart(f.tag, content, pos);
    FieldStands(f.tag, content, buf, pos, end, limits);
    assert DecodeContent(schema, f.tag, buf, start, start + |content|, depth, limits) == Ok(f.value) by {
      ReadsContent(schema, f, content, buf, start, depth, limits);
    }
    FieldDecodes(schema, buf, pos, end, prev, depth, limits, f.tag, pos + |EncodeU64(f.tag)|, |content|, start,
        f.value);
  }

  lemma {:induction false} ReadsSeq(schema: Schema, fields: seq<Field>, bytes: seq<byte>, prev: nat, buf: seq<byte>,
        pos: nat, end: nat, depth: nat, limits: Limits)
    requires EncodeSeq(schema, fields, prev, depth, limits) == Ok(bytes)
    requires Readable(bytes, buf, pos, end, limits) && end == pos + |bytes|
    requires FieldBoolsEnd(fields) && RefsReadable(CountRefsFields(fields), limits)
    ensures DecodeSeq(schema, buf, pos, end, prev, depth, limits) == Ok((fields, end))
    decreases fields, 2
  {
    hide DecodeU64, EncodeU64, DecodeField, EncodeField;
    if fields != [] {
      var f := fields[0];
      var first := EncodeField(schema, f, prev, depth, limits).value;
      var rest := EncodeSeq(schema, fields[1..], f.tag, depth, limits).value;
      ReadableSplit(first, rest, buf, pos, end, limits);
      ReadsField(schema, f, first, prev, buf, pos, end, depth, limits);
      ReadsSeq(schema, fields[1..], rest, f.tag, buf, pos + |first|, end, depth, limits);
      assert fields == [f] + fields[1..];
    }
  }

  lemma {:induction false} ReadsFields(schema: Schema, fields: seq<Field>, bytes: seq<byte>, buf: seq<byte>, pos: nat,
        depth: nat, limits: Limits)
    requires EncodeFields(schema, fields, depth, limits) == Ok(bytes)
        && Readable(bytes, buf, pos, pos + |bytes|, limits)
    requires FieldBoolsEnd(fields) && RefsReadable(CountRefsFields(fields), limits)
    ensures DecodeFields(schema, buf, pos, pos + |bytes|, depth, limits) == Ok((fields, pos + |bytes|))
    decreases fields, 3
  {
    hide DecodeU64, EncodeU64, DecodeSeq, EncodeSeq;
    ReadsSeq(schema, fields, bytes, 0, buf, pos, pos + |bytes|, depth, limits);
  }

  // ---- References under a small string limit ----

  /** When an identity does not fit the string limit, nothing that is accepted contains one. */
  lemma {:induction false} NoRefsRead(ty: Type, buf: seq<byte>, pos: nat, end: nat, depth: nat, schema: Schema,
        limits: Limits)
    requires limits.maxStringBytes < 33 && end <= |buf| && DecodeValue(ty, buf, pos, end, depth, schema, limits).Ok?
    ensures CountRefs(DecodeValue(ty, buf, pos, end, depth, schema, limits).value.0) == 0
    decreases ty, 0, 0
  {
    hide DecodeU64, UnZigZag, IsCanonicalPath, ValidUtf8, DecodeItems;
    match ty
    case TRecord(specs) =>
      var (len, p) := ReadVarint(buf, pos).value;
      NoRefsReadSeq(schema.(specs := specs), buf, p, p + len, 0, depth + 1, limits);
    case TArray(elem) =>
      var (count, p) := ReadVarint(buf, pos).value;
      NoRefsReadItems(elem, count, buf, p, end, depth + 1, schema, limits);
    case _ =>
  }

  lemma {:induction false} NoRefsReadItems(elem: Type, count: nat, buf: seq<byte>, pos: nat, end: nat, depth: nat,
        schema: Schema, limits: Limits)
    requires limits.maxStringBytes < 33 && end <= |buf|
        && DecodeItems(elem, count, buf, pos, end, depth, schema, limits).Ok?
    ensures CountRefsItems(DecodeItems(elem, count, buf, pos, end, depth, schema, limits).value.0) == 0
    decreases elem, 1, count
  {
    hide DecodeU64, EncodeU64, DecodeValue;
    if count > 0 {
      var (v, p) := DecodeValue(elem, buf, pos, end, depth, schema, limits).value;
      var (vs, q) := DecodeItems(elem, count - 1, buf, p, end, depth, schema, limits).value;
      NoRefsRead(elem, buf, pos, end, depth, schema, limits);
      NoRefsReadItems(elem, count - 1, buf, p, end, depth, schema, limits);
      assert ([v] + vs)[1..] == vs;
    }
  }

  lemma {:induction false} NoRefsReadSeq(schema: Schema, buf: seq<byte>, pos: nat, end: nat, prev: nat, depth: nat,
        limits: Limits)
    requires limits.maxStringBytes < 33 && end <= |buf| && DecodeSeq(schema, buf, pos, end, prev, depth, limits).Ok?
    ensures CountRefsFields(DecodeSeq(schema, buf, pos, end, prev, depth, limits).value.0) == 0
    decreases schema.specs, 2, end - pos
  {
    hide DecodeU64, EncodeU64, DecodeField;
    if pos < end {
      var (f, p) := DecodeField(schema, buf, pos, end, prev, depth, limits).value;
      var (fs, q) := DecodeSeq(schema, buf, p, end, f.tag, depth, limits).value;
      NoRefsReadField(schema, buf, pos, end, prev, depth, limits);
      NoRefsReadSeq(schema, buf, p, end, f.tag, depth, limits);
      assert ([f] + fs)[1..] == fs;
    }
  }

  lemma {:induction false} NoRefsReadField(schema: Schema, buf: seq<byte>, pos: nat, end: nat, prev: nat, depth: nat,
        limits: Limits)
    requires limits.maxStringBytes < 33 && end <= |buf| && DecodeField(schema, buf, pos, end, prev, depth, limits).Ok?
    ensures CountRefs(DecodeField(schema, buf, pos, end, prev, depth, limits).value.0.value) == 0
    decreases schema.specs, 1, 0
  {
    hide DecodeU64, EncodeU64, DecodeValue;
    var (tag, p) := ReadVarint(buf, pos).value;
    var (len, start) := ReadVarint(buf, p).value;
    if tag <= TAG_MAX_SCHEMA {
      var spec := schema.specs[SpecIndex(schema.specs, tag).value];
      assert spec.ty < spec;
      NoRefsRead(spec.ty, buf, start, start + len, depth + 1, schema, limits);
    }
  }

  // ---- Booleans ----

  /** Of what is accepted every boolean ends its field. */
  lemma {:induction false} BoolsEndRead(ty: Type, buf: seq<byte>, pos: nat, end: nat, depth: nat, schema: Schema,
        limits: Limits)
    requires end <= |buf| && DecodeValue(ty, buf, pos, end, depth, schema, limits).Ok?
    requires DecodeValue(ty, buf, pos, end, depth, schema, limits).value.1 <= end
    ensures var (v, q) := DecodeValue(ty, buf, pos, end, depth, schema, limits).value; BoolsEnd(v, q == end)
    decreases ty, 0, 0
  {
    hide DecodeU64, EncodeU64, DecodeFields, DecodeItems;
    match ty
    case TRecord(specs) =>
      var (len, p) := ReadVarint(buf, pos).value;
      BoolsEndReadFields(schema.(specs := specs), buf, p, p + len, depth + 1, limits);
    case TArray(elem) =>
      var (count, p) := ReadVarint(buf, pos).value;
      BoolsEndReadItems(elem, count, buf, p, end, depth + 1, schema, limits);
    case _ =>
  }

  lemma {:induction false} BoolsEndReadItems(elem: Type, count: nat, buf: seq<byte>, pos: nat, end: nat, depth: nat,
        schema: Schema, limits: Limits)
    requires end <= |buf| && DecodeItems(elem, count, buf, pos, end, depth, schema, limits).Ok?
    requires DecodeItems(elem, count, buf, pos, end, depth, schema, limits).value.1 <= end
    ensures var (vs, q) := DecodeItems(elem, count, buf, pos, end, depth, schema, limits).value;
      |vs| == count && ItemBoolsEnd(vs, q == end) && (count > 0 ==> pos < q)
    decreases elem, 1, count
  {
    hide DecodeU64, EncodeU64, DecodeValue, BoolsEnd;
    if count > 0 {
      var (v, p) := DecodeValue(elem, buf, pos, end, depth, schema, limits).value;
      var (vs, q) := DecodeItems(elem, count - 1, buf, p, end, depth, schema, limits).value;
      BoolsEndReadItems(elem, count - 1, buf, p, end, depth, schema, limits);
      BoolsEndRead(elem, buf, pos, end, depth, schema, limits);
      assert ([v] + vs)[1..] == vs;
    }
  }

  lemma {:induction false} BoolsEndReadFields(schema: Schema, buf: seq<byte>, pos: nat, end: nat, depth: nat,
        limits: Limits)
    requires end <= |buf| && DecodeFields(schema, buf, pos, end, depth, limits).Ok?
    ensures FieldBoolsEnd(DecodeFields(schema, buf, pos, end, depth, limits).value.0)
    decreases schema.specs, 3, 0
  {
    hide DecodeSeq;
    BoolsEndReadSeq(schema, buf, pos, end, 0, depth, limits);
  }

  lemma {:induction false} BoolsEndReadSeq(schema: Schema, buf: seq<byte>, pos: nat, end: nat, prev: nat, depth: nat,
        limits: Limits)
    requires end <= |buf| && DecodeSeq(schema, buf, pos, end, prev, depth, limits).Ok?
    ensures FieldBoolsEnd(DecodeSeq(schema, buf, pos, end, prev, depth, limits).value.0)
    decreases schema.specs, 2, end - pos
  {
    hide DecodeU64, EncodeU64, DecodeField, BoolsEnd;
    if pos < end {
      var (f, p) := DecodeField(schema, buf, pos, end, prev, depth, limits).value;
      var (fs, q) := DecodeSeq(schema, buf, p, end, f.tag, depth, limits).value;
      BoolsEndReadField(schema, buf, pos, end, prev, depth, limits);
      BoolsEndReadSeq(schema, buf, p, end, f.tag, depth, limits);
      assert ([f] + fs)[1..] == fs;
    }
  }

  lemma {:induction false} BoolsEndReadField(schema: Schema, buf: seq<byte>, pos: nat, end: nat, prev: nat, depth: nat,
        limits: Limits)
    requires end <= |buf| && DecodeField(schema, buf, pos, end, prev, depth, limits).Ok?
    ensures BoolsEnd(DecodeField(schema, buf, pos, end, prev, depth, limits).value.0.value, true)
    decreases schema.specs, 1, 0
  {
    hide DecodeU64, EncodeU64, DecodeValue;
    var (tag, p) := ReadVarint(buf, pos).value;
    var (len, start) := ReadVarint(buf, p).value;
    if tag <= TAG_MAX_SCHEMA {
      var spec := schema.specs[SpecIndex(schema.specs, tag).value];
      assert spec.ty < spec;
      BoolsEndRead(spec.ty, buf, start, start + len, depth + 1, schema, limits);
    }
  }

  /** Where no type is an array of booleans, every boolean that is encoded ends its field. */
  lemma {:induction false} PlainBoolsEnd(ty: Type, v: Value, depth: nat, schema: Schema, limits: Limits, last: bool)
    requires EncodeValue(ty, v, depth, schema, limits).Ok? && NoBoolArray(ty) && (ty.TBool? ==> last)
    ensures BoolsEnd(v, last)
    decreases v, 0
  {
    hide EncodeU64, EncodeFields, EncodeItems;
    match ty
    case TRecord(specs) => PlainFieldsEnd(schema.(specs := specs), v.fields, depth + 1, limits);
    case TArray(elem) => PlainItemsEnd(elem, v.items, depth + 1, schema, limits, last);
    case _ =>
  }

  lemma {:induction false} PlainItemsEnd(elem: Type, items: seq<Value>, depth: nat, schema: Schema, limits: Limits,
        last: bool)
    requires EncodeItems(elem, items, depth, schema, limits).Ok? && NoBoolArray(elem) && !elem.TBool?
    ensures ItemBoolsEnd(items, last)
    decreases items, 1
  {
    hide EncodeValue, BoolsEnd;
    if items != [] {
      PlainBoolsEnd(elem, items[0], depth, schema, limits, last && |items| == 1);
      PlainItemsEnd(elem, items[1..], depth, schema, limits, last);
    }
  }

  lemma {:induction false} PlainFieldsEnd(schema: Schema, fields: seq<Field>, depth: nat, limits: Limits)
    requires EncodeFields(schema, fields, depth, limits).Ok? && NoBoolArrays(schema.specs)
    ensures FieldBoolsEnd(fields)
    decreases fields, 3
  {
    hide EncodeSeq;
    PlainSeqEnd(schema, fields, 0, depth, limits);
  }

  lemma {:induction false} PlainSeqEnd(schema: Schema, fields: seq<Field>, prev: nat, depth: nat, limits: Limits)
    requires EncodeSeq(schema, fields, prev, depth, limits).Ok? && NoBoolArrays(schema.specs)
    ensures FieldBoolsEnd(fields)
    decreases fields, 2
  {
    hide EncodeField, BoolsEnd, NoBoolArrays;
    if fields != [] {
      PlainFieldEnd(schema, fields[0], prev, depth, limits);
      PlainSeqEnd(schema, fields[1..], fields[0].tag, depth, limits);
    }
  }

  lemma {:induction false} PlainFieldEnd(schema: Schema, f: Field, prev: nat, depth: nat, limits: Limits)
    requires EncodeField(schema, f, prev, depth, limits).Ok? && NoBoolArrays(schema.specs)
    ensures BoolsEnd(f.value, true)
    decreases f, 1
  {
    hide EncodeU64, EncodeValue;
    assert EncodeContent(schema, f, depth, limits).Ok?;
    if !f.value.Raw? {
      var spec := schema.specs[SpecIndex(schema.specs, f.tag).value];
      assert NoBoolArraySpec(spec);
      PlainBoolsEnd(spec.ty, f.value, depth + 1, schema, limits, true);
    }
  }

  // ---- Whole objects ----

  ghost function ObjectRefs(obj: Object): nat
  {
    if obj.body.Fields? then CountRefsFields(obj.body.fields) else 0
  }

  predicate ObjectBoolsEnd(obj: Object) { obj.body.Fields? ==> FieldBoolsEnd(obj.body.fields) }

  lemma {:induction false} BodyReads(obj: Object, body: seq<byte>, table: Table, limits: Limits)
    requires obj.body.Blob? == (obj.family == BLOB) && ObjectBoolsEnd(obj)
    requires if obj.body.Blob? then body == obj.body.content
             else EncodeFields(table(obj.family), obj.body.fields, 1, limits) == Ok(body)
    requires |body| <= limits.maxObjectBytes && RefsReadable(ObjectRefs(obj), limits)
    ensures DecodeBody(obj.family, body, table, limits) == Ok(obj.body)
  {
    hide DecodeU64, EncodeU64, DecodeFields, EncodeFields;
    if obj.body.Fields? {
      assert body[0..0 + |body|] == body;
      ReadsFields(table(obj.family), obj.body.fields, body, body, 0, 1, limits);
    }
  }

  /** What decoding makes of an encoded object, given what it makes of its body. */
  lemma {:induction false} EnvelopeReads(obj: Object, body: seq<byte>, table: Table, limits: Limits)
    requires obj.schemever == 1 && ValidationError(obj, limits).None? && |body| <= limits.maxObjectBytes
    ensures var bytes := Header(obj.family, obj.schemever) + Sized(body);
      DecodeObject(bytes, table, limits) == match DecodeBody(obj.family, body, table, limits)
        case Err(e) => Err(e)
        case Ok(b) => match ValidationError(Object(obj.family, 1, b), limits)
          case Some(e) => Err(e)
          case None => Ok(Object(obj.family, 1, b))
  {
    hide DecodeU64, EncodeU64, DecodeBody, ValidationError;
    var bytes := Header(obj.family, obj.schemever) + Sized(body);
    assert bytes[8..8 + |Sized(body)|] == Sized(body);
    ReadsSized(body, bytes, 8, |bytes|, limits.maxObjectBytes);
    var start := 8 + |EncodeU64(|body|)|;
    assert bytes[start..] == bytes[start..start + |body|];
    assert bytes[..4] == MAGIC;
  }

  /** The family of a decoded object is the one its header names, whatever the limits. */
  lemma {:induction false} DecodedFamily(bytes: seq<byte>, table: Table, limits: Limits)
    ensures DecodeObject(bytes, table, limits).Ok? ==>
      |bytes| > 5 && Some(DecodeObject(bytes, table, limits).value.family) == FamilyFromCode(bytes[5])
  {
    hide DecodeBody, ValidationError, ReadVarint;
  }

  lemma {:induction false} EncodedFamily(obj: Object, table: Table, limits: Limits)
    ensures EncodeObject(obj, table, limits).Ok? ==>
      |EncodeObject(obj, table, limits).value| > 5 && EncodeObject(obj, table, limits).value[5] == obj.family
  {
    hide EncodeFields, ValidationError, EncodeU64;
  }

  /** Whatever encodes decodes to the same object exactly when its identities can be read back and every
      boolean in it ends its field. An identity takes 33 bytes, which the decoder holds against the
      string limit while the encoder does not. */
  lemma {:induction false} RoundTrip(obj: Object, bytes: seq<byte>, table: Table, limits: Limits)
    requires EncodeObject(obj, table, limits) == Ok(bytes)
    ensures DecodeObject(bytes, table, limits) == Ok(obj)
      <==> (limits.maxStringBytes >= 33 || ObjectRefs(obj) == 0) && ObjectBoolsEnd(obj)
  {
    hide DecodeU64, EncodeU64, ValidationError, DecodeSeq, EncodeFields;
    var body := if obj.body.Blob? then obj.body.content
      else EncodeFields(table(obj.family), obj.body.fields, 1, limits).value;
    EnvelopeReads(obj, body, table, limits);
    if RefsReadable(ObjectRefs(obj), limits) && ObjectBoolsEnd(obj) {
      BodyReads(obj, body, table, limits);
    } else if DecodeObject(bytes, table, limits) == Ok(obj) {
      BoolsEndReadSeq(table(obj.family), body, 0, |body|, 0, 1, limits);
      if limits.maxStringBytes < 33 { NoRefsReadSeq(table(obj.family), body, 0, |body|, 0, 1, limits); }
      assert false;
    }
  }

  /** Where the schema has no array of booleans, only identities can be in the way. */
  lemma {:induction false} PlainRoundTrip(obj: Object, bytes: seq<byte>, table: Table, limits: Limits)
    requires EncodeObject(obj, table, limits) == Ok(bytes) && NoBoolArrays(table(obj.family).specs)
    ensures DecodeObject(bytes, table, limits) == Ok(obj) <==> limits.maxStringBytes >= 33 || ObjectRefs(obj) == 0
  {
    hide EncodeU64, EncodeFields, DecodeObject, ValidationError;
    RoundTrip(obj, bytes, table, limits);
    if obj.body.Fields? { PlainFieldsEnd(table(obj.family), obj.body.fields, 1, limits); }
  }

  // ---- Distinct objects have distinct encodings, whatever the schema and the limits ----

  lemma {:induction false} SameVarint(v: u64, w: u64, x: seq<byte>, y: seq<byte>)
    requires EncodeU64(v) + x == EncodeU64(w) + y
    ensures v == w && x == y
  {
    hide EncodeU64;
    var e, f := EncodeU64(v), EncodeU64(w);
    if |e| <= |f| {
      assert (f + y)[..|e|] == e && f[..|e|] == e && f == e + f[|e|..];
      PrefixFree(v, w, f[|e|..]);
    } else {
      assert (e + x)[..|f|] == f && e[..|f|] == f && e == f + e[|f|..];
      PrefixFree(w, v, e[|f|..]);
    }
    assert (e + x)[|e|..] == x && (e + y)[|e|..] == y;
  }

  lemma {:induction false} SameSized(b: seq<byte>, c: seq<byte>, x: seq<byte>, y: seq<byte>)
    requires Sized(b) + x == Sized(c) + y && |b| < 0x1_0000_0000_0000_0000 && |c| < 0x1_0000_0000_0000_0000
    ensures b == c && x == y
  {
    hide EncodeU64;
    assert Sized(b) + x == EncodeU64(|b|) + (b + x) && Sized(c) + y == EncodeU64(|c|) + (c + y);
    SameVarint(|b|, |c|, b + x, c + y);
    assert (b + x)[..|b|] == b && (c + y)[..|c|] == c && (b + x)[|b|..] == x && (c + y)[|c|..] == y;
  }

  /** Two values of one type whose encodings, each followed by more, agree. */
  ghost predicate Alike(ty: Type, v: Value, w: Value, x: seq<byte>, y: seq<byte>, depth: nat, schema: Schema,
        limits: Limits, max: u64)
  {
    var b, c := EncodeValue(ty, v, depth, schema, limits), EncodeValue(ty, w, depth, schema, limits);
    b.Ok? && c.Ok? && b.value + x == c.value + y && |b.value| <= max && |c.value| <= max
  }

  lemma {:induction false} SameScalar(ty: Type, v: Value, w: Value, x: seq<byte>, y: seq<byte>, depth: nat,
        schema: Schema, limits: Limits, max: u64)
    requires Scalar(ty) && Alike(ty, v, w, x, y, depth, schema, limits, max)
    ensures v == w && x == y
  {
    hide EncodeU64, ZigZag, UnZigZag, IsCanonicalPath, ValidUtf8, EncodeItems, EncodeFields, Sized;
    if ty.TBool? {
      var b, c: seq<byte> := [if v.b then 1 else 0], [if w.b then 1 else 0];
      assert (b + x)[0] == b[0] && (c + y)[0] == c[0];
      assert (b + x)[1..] == x && (c + y)[1..] == y;
    } else if ty.TU64? {
      SameVarint(v.u, w.u, x, y);
    } else if ty.TI64? {
      SameVarint(ZigZag(v.i), ZigZag(w.i), x, y);
      ZigZagBijection(v.i, 0);
      ZigZagBijection(w.i, 0);
    } else if ty.TGid? || ty.TGidAny? {
      SameSized(v.gid.ToBytes(), w.gid.ToBytes(), x, y);
      assert v.gid.ToBytes()[1..] == v.gid.digest && w.gid.ToBytes()[1..] == w.gid.digest;
      assert v.gid.ToBytes()[0] == v.gid.family && w.gid.ToBytes()[0] == w.gid.family;
    } else {
      SameSized(if ty.TBytes? then v.bytes else v.s, if ty.TBytes? then w.bytes else w.s, x, y);
    }
  }

  lemma {:induction false} SizedLonger(b: seq<byte>)
    ensures |Sized(b)| > |b|
  {
  }

  lemma {:induction false} SameValue(ty: Type, v: Value, w: Value, x: seq<byte>, y: seq<byte>, depth: nat,
        schema: Schema, limits: Limits, max: u64)
    requires Alike(ty, v, w, x, y, depth, schema, limits, max)
    ensures v == w && x == y
    decreases v, 0
  {
    hide EncodeU64, EncodeFields, EncodeItems, Sized;
    match ty
    case TRecord(specs) =>
      var schema' := schema.(specs := specs);
      var b := EncodeFields(schema', v.fields, depth + 1, limits).value;
      var c := EncodeFields(schema', w.fields, depth + 1, limits).value;
      SizedLonger(b);
      SizedLonger(c);
      SameSized(b, c, x, y);
      SameFields(schema', v.fields, w.fields, depth + 1, limits, max);
    case TArray(elem) =>
      var b := EncodeItems(elem, v.items, depth + 1, schema, limits).value;
      var c := EncodeItems(elem, w.items, depth + 1, schema, limits).value;
      var n, m := EncodeU64(|v.items|), EncodeU64(|w.items|);
      assert n + b + x == n + (b + x) && m + c + y == m + (c + y);
      SameVarint(|v.items|, |w.items|, b + x, c + y);
      SameItems(elem, v.items, w.items, x, y, depth + 1, schema, limits, max);
    case _ =>
      SameScalar(ty, v, w, x, y, depth, schema, limits, max);
  }

  lemma {:induction false} SameItems(elem: Type, vs: seq<Value>, ws: seq<Value>, x: seq<byte>, y: seq<byte>,
        depth: nat, schema: Schema, limits: Limits, max: u64)
    requires |vs| == |ws|
    requires var b, c := EncodeItems(elem, vs, depth, schema, limits), EncodeItems(elem, ws, depth, schema, limits);
      b.Ok? && c.Ok? && b.value + x == c.value + y && |b.value| <= max && |c.value| <= max
    ensures vs == ws && x == y
    decreases vs, 1
  {
    hide EncodeU64, EncodeValue;
    if vs == [] {
      assert [] + x == x && [] + y == y;
    } else {
      var b := EncodeValue(elem, vs[0], depth, schema, limits).value;
      var c := EncodeValue(elem, ws[0], depth, schema, limits).value;
      var bs := EncodeItems(elem, vs[1..], depth, schema, limits).value;
      var cs := EncodeItems(elem, ws[1..], depth, schema, limits).value;
      assert b + bs + x == b + (bs + x) && c + cs + y == c + (cs + y);
      SameValue(elem, vs[0], ws[0], bs + x, cs + y, depth, schema, limits, max);
      SameItems(elem, vs[1..], ws[1..], x, y, depth, schema, limits, max);
      assert vs == [vs[0]] + vs[1..] && ws == [ws[0]] + ws[1..];
    }
  }

  lemma {:induction false} SameContent(schema: Schema, f: Field, g: Field, content: seq<byte>, depth: nat,
        limits: Limits,
        max: u64)
    requires f.tag == g.tag && |content| <= max
    requires EncodeContent(schema, f, depth, limits) == Ok(content) == EncodeContent(schema, g, depth, limits)
    ensures f == g
    decreases f, 0
  {
    hide EncodeU64, EncodeValue;
    if !f.value.Raw? {
      var k := SpecIndex(schema.specs, f.tag).value;
      assert content + [] == content;
      SameValue(schema.specs[k].ty, f.value, g.value, [], [], depth + 1, schema, limits, max);
    }
  }

  lemma {:induction false} SameField(schema: Schema, f: Field, g: Field, prev: nat, x: seq<byte>, y: seq<byte>,
        depth: nat,
        limits: Limits, max: u64)
    requires var b, c := EncodeField(schema, f, prev, depth, limits), EncodeField(schema, g, prev, depth, limits);
      b.Ok? && c.Ok? && b.value + x == c.value + y && |b.value| <= max && |c.value| <= max
    ensures f == g && x == y
    decreases f, 1
  {
    hide EncodeU64, EncodeContent, Sized;
    var b := EncodeContent(schema, f, depth, limits).value;
    var c := EncodeContent(schema, g, depth, limits).value;
    SizedLonger(b);
    SizedLonger(c);
    var n, m := EncodeU64(f.tag), EncodeU64(g.tag);
    assert n + Sized(b) + x == n + (Sized(b) + x) && m + Sized(c) + y == m + (Sized(c) + y);
    SameVarint(f.tag, g.tag, Sized(b) + x, Sized(c) + y);
    SameSized(b, c, x, y);
    SameContent(schema, f, g, b, depth, limits, max);
  }

  lemma {:induction false} SameSeq(schema: Schema, fs: seq<Field>, gs: seq<Field>, prev: nat, depth: nat,
        limits: Limits,
        max: u64)
    requires var b := EncodeSeq(schema, fs, prev, depth, limits);
      b.Ok? && b == EncodeSeq(schema, gs, prev, depth, limits) && |b.value| <= max
    ensures fs == gs
    decreases fs, 2
  {
    hide EncodeU64, EncodeField;
    FieldNotEmpty(schema, if fs == [] then gs else fs, prev, depth, limits);
    FieldNotEmpty(schema, if gs == [] then fs else gs, prev, depth, limits);
    if fs != [] && gs != [] {
      var x := EncodeSeq(schema, fs[1..], fs[0].tag, depth, limits).value;
      var y := EncodeSeq(schema, gs[1..], gs[0].tag, depth, limits).value;
      SameField(schema, fs[0], gs[0], prev, x, y, depth, limits, max);
      SameSeq(schema, fs[1..], gs[1..], fs[0].tag, depth, limits, max);
      assert fs == [fs[0]] + fs[1..] && gs == [gs[0]] + gs[1..];
    }
  }

  lemma {:induction false} FieldNotEmpty(schema: Schema, fs: seq<Field>, prev: nat, depth: nat, limits: Limits)
    ensures var r := EncodeSeq(schema, fs, prev, depth, limits); r.Ok? && fs != [] ==> r.value != []
  {
    hide EncodeContent;
  }

  lemma {:induction false} SameFields(schema: Schema, fs: seq<Field>, gs: seq<Field>, depth: nat, limits: Limits,
        max: u64)
    requires var b := EncodeFields(schema, fs, depth, limits);
      b.Ok? && b == EncodeFields(schema, gs, depth, limits) && |b.value| <= max
    ensures fs == gs
    decreases fs, 3
  {
    hide EncodeSeq;
    SameSeq(schema, fs, gs, 0, depth, limits, max);
  }

  /** Distinct encodable objects have distinct encodings, for all schemas and limits. */
  lemma {:induction false} EncodeInjective(obj: Object, obj': Object, table: Table, limits: Limits)
    requires EncodeObject(obj, table, limits).Ok?
        && EncodeObject(obj, table, limits) == EncodeObject(obj', table, limits)
    ensures obj == obj'
  {
    hide EncodeU64, EncodeFields, ValidationError, Sized;
    EncodedFamily(obj, table, limits);
    EncodedFamily(obj', table, limits);
    var b := if obj.body.Blob? then obj.body.content
      else EncodeFields(table(obj.family), obj.body.fields, 1, limits).value;
    var c := if obj'.body.Blob? then obj'.body.content
      else EncodeFields(table(obj'.family), obj'.body.fields, 1, limits).value;
    var bytes, h := EncodeObject(obj, table, limits).value, Header(obj.family, 1);
    assert bytes[8..] == Sized(b) && bytes[8..] == Sized(c);
    assert Sized(b) + [] == Sized(b) && Sized(c) + [] == Sized(c);
    SameSized(b, c, [], []);
    if obj.body.Fields? {
      SameFields(table(obj.family), obj.body.fields, obj'.body.fields, 1, limits, limits.maxObjectBytes);
    }
  }

  lemma {:induction false} BoolItemsEncode(items: seq<Value>, bytes: seq<byte>, depth: nat, schema: Schema,
        limits: Limits)
    requires EncodeItems(TBool, items, depth, schema, limits) == Ok(bytes)
    ensures |bytes| == |items| && forall i :: 0 <= i < |items| ==>
        items[i].B? && bytes[i] == if items[i].b then 1 else 0
  {
    if items != [] {
      BoolItemsEncode(items[1..], EncodeItems(TBool, items[1..], depth, schema, limits).value, depth, schema, limits);
      assert items == [items[0]] + items[1..];
    }
  }

  /** An array of booleans that is a whole field is read back exactly when it holds at most one. */
  lemma {:induction false} BoolArrayReads(items: seq<Value>, bytes: seq<byte>, depth: nat, schema: Schema,
        limits: Limits)
    requires EncodeValue(TArray(TBool), Array(items), depth, schema, limits) == Ok(bytes)
    ensures DecodeValue(TArray(TBool), bytes, 0, |bytes|, depth, schema, limits) == Ok((Array(items), |bytes|))
        <==> |items| <= 1
  {
    hide EncodeU64, DecodeU64;
    var out := EncodeItems(TBool, items, depth + 1, schema, limits).value;
    BoolItemsEncode(items, out, depth + 1, schema, limits);
    StandsSplit(EncodeU64(|items|), out, bytes, 0);
    ReadsVarint(|items|, bytes, 0);
    var p := |EncodeU64(|items|)|;
    if |items| == 1 {
      assert bytes[p] == out[0];
      assert DecodeItems(TBool, 0, bytes, p + 1, |bytes|, depth + 1, schema, limits) == Ok(([], p + 1));
      assert items == [items[0]] + [];
    }
  }
}
