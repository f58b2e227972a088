/** What the canonical encoder and decoder compute (src/encode.rs, src/decode.rs).
    The programs themselves are in `CodecPrograms`; their laws are in `CodecLaws`. */
module Codec {
  import opened Varint
  import opened Paths
  import opened Wrappers
  import opened Objects
  import opened Validate

  /** The schema of every family. */
  type Table = Family -> Schema

  // ---- Encoding ----

  function Sized(content: seq<byte>): seq<byte> { EncodeU64(|content|) + content }

  function TagError(tag: nat, prev: nat): Option<ObjectError>
  {
    if tag == 0 || tag >= 0xF0 then Some(ReservedTag)
    else if tag == prev then Some(DuplicateField)
    else if tag < prev then Some(UnsortedFields)
    else None
  }

  function EncodeString(s: seq<byte>, limits: Limits): Result<seq<byte>, ObjectError>
  {
    if |s| > limits.maxStringBytes then Err(LimitExceeded) else Ok(Sized(s))
  }

  function EncodeValue(ty: Type, v: Value, depth: nat, schema: Schema, limits: Limits): Result<seq<byte>, ObjectError>
    decreases v, 0
  {
    match (ty, v)
    case (TU64, U(u)) => Ok(EncodeU64(u))
    case (TI64, I(i)) => Ok(EncodeU64(ZigZag(i)))
    case (TBool, B(b)) => Ok([if b then 0x01 else 0x00])
    case (TBytes, Bytes(b)) => EncodeString(b, limits)
    case (TStr, Str(s)) => EncodeString(s, limits)
    case (TPath, Str(s)) => if !IsCanonicalPath(s) then Err(InvalidPath) else EncodeString(s, limits)
    case (TEnum(vals), Str(s)) => if s !in vals then Err(InvalidEnumValue) else EncodeString(s, limits)
    case (TGid(f), Ref(g)) => if g.family != f then Err(FamilyMismatch) else Ok(Sized(g.ToBytes()))
    case (TGidAny, Ref(g)) => Ok(Sized(g.ToBytes()))
    case (TRecord(specs), Record(fields)) =>
      (match EncodeFields(schema.(specs := specs), fields, depth + 1, limits)
       case Err(e) => Err(e)
       case Ok(body) => Ok(Sized(body)))
    case (TArray(elem), Array(items)) =>
      if |items| > limits.maxArrayElements then Err(LimitExceeded)
      else (match EncodeItems(elem, items, depth + 1, schema, limits)
            case Err(e) => Err(e)
            case Ok(out) => Ok(EncodeU64(|items|) + out))
    case _ => Err(TypeMismatch)
  }

  function EncodeItems(elem: Type, items: seq<Value>, depth: nat, schema: Schema,
        limits: Limits): Result<seq<byte>, ObjectError>
    decreases items, 1
  {
    if items == [] then Ok([])
    else match EncodeValue(elem, items[0], depth, schema, limits)
      case Err(e) => Err(e)
      case Ok(first) =>
        match EncodeItems(elem, items[1..], depth, schema, limits)
        case Err(e) => Err(e)
        case Ok(rest) => Ok(first + rest)
  }

  /** The value bytes of one field, without tag and length. */
  function EncodeContent(schema: Schema, f: Field, depth: nat, limits: Limits): Result<seq<byte>, ObjectError>
    decreases f, 0
  {
    if f.value.Raw? then
      if f.tag <= TAG_MAX_SCHEMA then Err(UnexpectedRawValue)
      else if !schema.extensionsAllowed then Err(ExtensionNotPermitted)
      else Ok(f.value.raw)
    else if f.tag >= 0x80 then Err(ExtensionMustBeRaw)
    else match SpecIndex(schema.specs, f.tag)
      case None => Err(UnknownMandatoryField)
      case Some(k) => EncodeValue(schema.specs[k].ty, f.value, depth + 1, schema, limits)
  }

  function EncodeField(schema: Schema, f: Field, prev: nat, depth: nat, limits: Limits): Result<seq<byte>, ObjectError>
    decreases f, 1
  {
    match TagError(f.tag, prev)
    case Some(e) => Err(e)
    case None =>
      match EncodeContent(schema, f, depth, limits)
      case Err(e) => Err(e)
      case Ok(content) => Ok(EncodeU64(f.tag) + Sized(content))
  }

  function EncodeSeq(schema: Schema, fields: seq<Field>, prev: nat, depth: nat,
        limits: Limits): Result<seq<byte>, ObjectError>
    decreases fields, 2
  {
    if fields == [] then Ok([])
    else match EncodeField(schema, fields[0], prev, depth, limits)
      case Err(e) => Err(e)
      case Ok(first) =>
        match EncodeSeq(schema, fields[1..], fields[0].tag, depth, limits)
        case Err(e) => Err(e)
        case Ok(rest) => Ok(first + rest)
  }

  predicate HasTag(fields: seq<Field>, tag: byte) { exists i :: 0 <= i < |fields| && fields[i].tag == tag }

  /** Every required field is present. */
  predicate Complete(specs: seq<FieldSpec>, fields: seq<Field>)
  {
    forall k :: 0 <= k < |specs| && specs[k].required ==> HasTag(fields, specs[k].tag)
  }

  function EncodeFields(schema: Schema, fields: seq<Field>, depth: nat, limits: Limits): Result<seq<byte>, ObjectError>
    decreases fields, 3
  {
    if depth > limits.maxRecordDepth then Err(LimitExceeded)
    else match EncodeSeq(schema, fields, 0, depth, limits)
      case Err(e) => Err(e)
      case Ok(out) => if Complete(schema.specs, fields) then Ok(out) else Err(MissingRequiredField)
  }

  function Header(family: Family, schemever: byte): seq<byte>
  {
    MAGIC + [ENC_VERSION, family as byte, schemever, FLAGS_ZERO]
  }

  function EncodeObject(obj: Object, table: Table, limits: Limits): Result<seq<byte>, ObjectError>
  {
    if obj.schemever != 1 then Err(UnknownSchemaVersion)
    else match ValidationError(obj, limits)
      case Some(e) => Err(e)
      case None =>
        if obj.body.Blob? != (obj.family == BLOB) then Err(BodyKindMismatch)
        else
          var body := if obj.body.Blob? then Ok(obj.body.content)
                      else EncodeFields(table(obj.family), obj.body.fields, 1, limits);
          match body
          case Err(e) => Err(e)
          case Ok(b) => if 8 + 1 + 8 + |b| > limits.maxObjectBytes then Err(LimitExceeded)
                        else Ok(Header(obj.family, obj.schemever) + Sized(b))
  }

  // ---- Decoding ----

  /** A decoded value and the cursor after it. */
  type Decoded<T> = Result<(T, nat), ObjectError>

  /** The canonical-integer codes as the object layer reports them. */
  function ReadVarint(buf: seq<byte>, pos: nat): (r: Decoded<nat>)
    ensures r.Ok? ==> pos < r.value.1 <= |buf|
  {
    match DecodeU64(buf, pos)
    case Err(e) => Err(VarintFailed(e))
    case Ok((v, q)) => Ok((v, q))
  }

  /** A length-prefixed run of bytes that stays within `end`. */
  function ReadSized(buf: seq<byte>, pos: nat, end: nat, max: nat): (r: Decoded<seq<byte>>)
    requires end <= |buf|
    ensures r.Ok? ==> pos < r.value.1 <= |buf|
  {
    match ReadVarint(buf, pos)
    case Err(e) => Err(e)
    case Ok((len, p)) =>
      if len > max then Err(LimitExceeded)
      else if p + len > end then Err(LengthMismatch)
      else Ok((buf[p..p + len], p + len))
  }

  function ReadGid(buf: seq<byte>, pos: nat, end: nat, limits: Limits): (r: Decoded<Gid>)
    requires end <= |buf|
    ensures r.Ok? ==> pos < r.value.1 <= |buf|
  {
    match ReadVarint(buf, pos)
    case Err(e) => Err(e)
    case Ok((len, p)) =>
      if len > limits.maxStringBytes then Err(LimitExceeded)
      else if len != 33 then Err(InvalidGid)
      else if p + 33 > end then Err(LengthMismatch)
      else match FamilyFromCode(buf[p])
        case None => Err(ObjectError.UnknownFamily)
        case Some(f) => Ok((Gid(f, buf[p + 1..p + 33]), p + 33))
  }

  function StringValue(ty: Type, s: seq<byte>): Result<Value, ObjectError>
  {
    if !ValidUtf8(s) then Err(ObjectError.InvalidUtf8)
    else if ty.TEnum? && s !in ty.values then Err(InvalidEnumValue)
    else if ty.TPath? && !IsCanonicalPath(s) then Err(InvalidPath)
    else Ok(Str(s))
  }

  function DecodeValue(ty: Type, buf: seq<byte>, pos: nat, end: nat, depth: nat, schema: Schema,
        limits: Limits): (r: Decoded<Value>)
    requires end <= |buf|
    ensures r.Ok? ==> pos < r.value.1 <= |buf|
    decreases ty, 0, 0
  {
    match ty
    case TU64 => (match ReadVarint(buf, pos)
      case Err(e) => Err(e)
      case Ok((v, p)) => DecodedFits(buf, pos, v, p); Ok((U(v), p)))
    case TI64 => (match ReadVarint(buf, pos)
      case Err(e) => Err(e)
      case Ok((v, p)) => DecodedFits(buf, pos, v, p); Ok((I(UnZigZag(v)), p)))
    case TBool =>
      if end - pos != 1 then Err(ValueLengthMismatch)
      else if buf[pos] > 1 then Err(InvalidBoolean)
      else Ok((B(buf[pos] == 1), pos + 1))
    case TBytes => (match ReadSized(buf, pos, end, limits.maxStringBytes)
      case Err(e) => Err(e)
      case Ok((b, p)) => Ok((Bytes(b), p)))
    case TGid(expected) => (match ReadGid(buf, pos, end, limits)
      case Err(e) => Err(e)
      case Ok((g, p)) => if g.family != expected then Err(FamilyMismatch) else Ok((Ref(g), p)))
    case TGidAny => (match ReadGid(buf, pos, end, limits)
      case Err(e) => Err(e)
      case Ok((g, p)) => Ok((Ref(g), p)))
    case TRecord(specs) => (match ReadVarint(buf, pos)
      case Err(e) => Err(e)
      case Ok((len, p)) =>
        if len > limits.maxObjectBytes then Err(LimitExceeded)
        else if p + len > end then Err(LengthMismatch)
        else match DecodeFields(schema.(specs := specs), buf, p, p + len, depth + 1, limits)
          case Err(e) => Err(e)
          case Ok((fields, q)) => if q != p + len then Err(ValueLengthMismatch) else Ok((Record(fields), q)))
    case TArray(elem) => (match ReadVarint(buf, pos)
      case Err(e) => Err(e)
      case Ok((count, p)) =>
        if count > limits.maxArrayElements then Err(LimitExceeded)
        else match DecodeItems(elem, count, buf, p, end, depth + 1, schema, limits)
          case Err(e) => Err(e)
          case Ok((items, q)) => Ok((Array(items), q)))
    case _ => (match ReadSized(buf, pos, end, limits.maxStringBytes)
      case Err(e) => Err(e)
      case Ok((s, p)) => (match StringValue(ty, s)
        case Err(e) => Err(e)
        case Ok(v) => Ok((v, p))))
  }

  lemma {:induction false} DecodedFits(buf: seq<byte>, pos: nat, v: nat, p: nat)
    requires ReadVarint(buf, pos) == Ok((v, p))
    ensures v < 0x1_0000_0000_0000_0000
  {
    DecodesExactly(buf, pos, v, p);
  }

  function DecodeItems(elem: Type, count: nat, buf: seq<byte>, pos: nat, end: nat, depth: nat, schema: Schema,
        limits: Limits): (r: Decoded<seq<Value>>)
    requires end <= |buf|
    ensures r.Ok? ==> pos <= r.value.1 && (pos <= |buf| ==> r.value.1 <= |buf|)
    decreases elem, 1, count
  {
    if count == 0 then Ok(([], pos))
    else match DecodeValue(elem, buf, pos, end, depth, schema, limits)
      case Err(e) => Err(e)
      case Ok((v, p)) =>
        match DecodeItems(elem, count - 1, buf, p, end, depth, schema, limits)
        case Err(e) => Err(e)
        case Ok((vs, q)) => Ok(([v] + vs, q))
  }

  /** The content of one field between its length and `stop`. */
  function DecodeContent(schema: Schema, tag: nat, buf: seq<byte>, start: nat, stop: nat, depth: nat,
        limits: Limits): (r: Result<Value, ObjectError>)
    requires start <= stop <= |buf|
    decreases schema.specs, 0, 0
  {
    if tag > TAG_MAX_SCHEMA then
      if !schema.extensionsAllowed then Err(ExtensionNotPermitted) else Ok(Raw(buf[start..stop]))
    else match SpecIndex(schema.specs, tag)
      case None => Err(UnknownMandatoryField)
      case Some(k) =>
        var spec := schema.specs[k];
        assert spec.ty < spec;
        match DecodeValue(spec.ty, buf, start, stop, depth + 1, schema, limits)
        case Err(e) => Err(e)
        case Ok((v, p)) => if p != stop then Err(ValueLengthMismatch) else Ok(v)
  }

  function DecodeField(schema: Schema, buf: seq<byte>, pos: nat, end: nat, prev: nat, depth: nat,
        limits: Limits): (r: Decoded<Field>)
    requires end <= |buf|
    ensures r.Ok? ==> pos < r.value.1 <= end
    decreases schema.specs, 1, 0
  {
    match ReadVarint(buf, pos)
    case Err(e) => Err(e)
    case Ok((tag, p)) =>
      match TagError(tag, prev)
      case Some(e) => Err(e)
      case None =>
        match ReadVarint(buf, p)
        case Err(e) => Err(e)
        case Ok((len, start)) =>
          if len > limits.maxObjectBytes then Err(LimitExceeded)
          else if start + len > end then Err(LengthMismatch)
          else match DecodeContent(schema, tag, buf, start, start + len, depth, limits)
            case Err(e) => Err(e)
            case Ok(v) => Ok((Field(tag, v), start + len))
  }

  function DecodeSeq(schema: Schema, buf: seq<byte>, pos: nat, end: nat, prev: nat, depth: nat,
        limits: Limits): (r: Decoded<seq<Field>>)
    requires end <= |buf|
    ensures r.Ok? ==> pos <= r.value.1 && (pos <= end ==> r.value.1 == end)
    decreases schema.specs, 2, end - pos
  {
    if pos >= end then Ok(([], pos))
    else match DecodeField(schema, buf, pos, end, prev, depth, limits)
      case Err(e) => Err(e)
      case Ok((f, p)) =>
        match DecodeSeq(schema, buf, p, end, f.tag, depth, limits)
        case Err(e) => Err(e)
        case Ok((fs, q)) => Ok(([f] + fs, q))
  }

  function DecodeFields(schema: Schema, buf: seq<byte>, pos: nat, end: nat, depth: nat,
        limits: Limits): (r: Decoded<seq<Field>>)
    requires end <= |buf|
    ensures r.Ok? ==> pos <= r.value.1 && (pos <= end ==> r.value.1 == end)
    decreases schema.specs, 3, 0
  {
    if depth > limits.maxRecordDepth then Err(LimitExceeded)
    else match DecodeSeq(schema, buf, pos, end, 0, depth, limits)
      case Err(e) => Err(e)
      case Ok((fields, q)) => if Complete(schema.specs, fields) then Ok((fields, q)) else Err(MissingRequiredField)
  }

  function DecodeBody(family: Family, body: seq<byte>, table: Table, limits: Limits): Result<Body, ObjectError>
  {
    if family == BLOB then Ok(Blob(body))
    else match DecodeFields(table(family), body, 0, |body|, 1, limits)
      case Err(e) => Err(e)
      case Ok((fields, p)) => if p != |body| then Err(ValueLengthMismatch) else Ok(Fields(fields))
  }

  function DecodeObject(bytes: seq<byte>, table: Table, limits: Limits): Result<Object, ObjectError>
  {
    if |bytes| < 9 then Err(LengthMismatch)
    else if bytes[..4] != MAGIC then Err(BadMagic)
    else if bytes[4] != ENC_VERSION then Err(UnknownEncodingVersion)
    else match FamilyFromCode(bytes[5])
      case None => Err(ObjectError.UnknownFamily)
      case Some(family) =>
        if bytes[6] != 1 then Err(UnknownSchemaVersion)
        else if bytes[7] != FLAGS_ZERO then Err(ReservedFlags)
        else match ReadVarint(bytes, 8)
          case Err(e) => Err(e)
          case Ok((len, start)) =>
            if len > limits.maxObjectBytes then Err(LimitExceeded)
            else if start + len > |bytes| then Err(LengthMismatch)
            else if start + len != |bytes| then Err(TrailingBytes)
            else match DecodeBody(family, bytes[start..], table, limits)
              case Err(e) => Err(e)
              case Ok(body) =>
                var obj := Object(family, bytes[6], body);
                match ValidationError(obj, limits)
                case Some(e) => Err(e)
                case None => Ok(obj)
  }
}
