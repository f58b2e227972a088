/** Values, objects, schemas, limits and errors (src/value.rs, src/spec.rs, src/limits.rs, src/error.rs). */
module Objects {
  import opened Varint
  import opened Paths
  import opened Wrappers

  /** A family by its code byte; 24 families are defined (src/family.rs). */
  type Family = c: int | 1 <= c <= 24 witness 1

  const BLOB: Family := 0x01
  const TREE: Family := 0x02
  const OPERATION: Family := 0x04
  const CLAIM: Family := 0x0A
  const MAPPING: Family := 0x16

  function FamilyFromCode(code: byte): Option<Family>
  {
    if 1 <= code <= 24 then Some(code) else None
  }

  type Digest = d: seq<byte> | |d| == 32 witness seq(32, _ => 0)

  datatype Gid = Gid(family: Family, digest: Digest)
  {
    function ToBytes(): (r: seq<byte>)
      ensures |r| == 33
    {
      [family as byte] + digest
    }
  }

  datatype Value =
    | U(u: u64)
    | I(i: i64)
    | B(b: bool)
    | Bytes(bytes: seq<byte>)
    | Str(s: Utf8)
    | Ref(gid: Gid)
    | Record(fields: seq<Field>)
    | Array(items: seq<Value>)
    | Raw(raw: seq<byte>)

  datatype Field = Field(tag: byte, value: Value)

  datatype Body = Blob(content: seq<byte>) | Fields(fields: seq<Field>)

  datatype Object = Object(family: Family, schemever: byte, body: Body)

  datatype Type =
    | TU64 | TI64 | TBool | TBytes | TStr | TPath
    | TEnum(values: seq<Utf8>)
    | TGid(family: Family)
    | TGidAny
    | TRecord(specs: seq<FieldSpec>)
    | TArray(elem: Type)

  datatype FieldSpec = FieldSpec(tag: byte, ty: Type, required: bool)

  datatype Schema = Schema(extensionsAllowed: bool, specs: seq<FieldSpec>)

  /** The position of the first declaration with this tag. */
  function SpecIndex(specs: seq<FieldSpec>, tag: byte): (r: Option<nat>)
    ensures r.Some? ==> r.value < |specs| && specs[r.value].tag == tag
    ensures r.None? ==> forall i :: 0 <= i < |specs| ==> specs[i].tag != tag
  {
    if specs == [] then None
    else if specs[0].tag == tag then Some(0)
    else match SpecIndex(specs[1..], tag)
      case Some(k) => Some(k + 1)
      case None => None
  }

  datatype Limits = Limits(maxObjectBytes: u64, maxRecordDepth: nat, maxArrayElements: u64, maxStringBytes: u64,
                           maxRefsPerObject: nat)

  datatype ObjectError =
    | BadMagic | UnknownEncodingVersion | UnknownFamily | UnknownSchemaVersion | ReservedFlags
    | LengthMismatch | TrailingBytes | InvalidBoolean | InvalidUtf8 | InvalidGid
    | UnsortedFields | DuplicateField | ReservedTag | UnknownMandatoryField | ExtensionNotPermitted
    | ValueLengthMismatch | MissingRequiredField | LimitExceeded | InvalidPath | InvalidEnumValue
    | FamilyMismatch | TypeMismatch | BodyKindMismatch | UnexpectedRawValue | ExtensionMustBeRaw
    | InvalidTreeMode | InvalidTreeTargetFamily | InvalidTreeOrder | InvalidTreeName
    | UndeclaredOperationTag | EmptyPredicate | MappingFabricatedNonEmpty | RefCountExceeded
    | VarintFailed(e: VarintError)

  const MAGIC: seq<byte> := [0x47, 0x45, 0x4D, 0x4C]
  const ENC_VERSION: byte := 1
  const FLAGS_ZERO: byte := 0
  const TAG_MAX_SCHEMA: byte := 0x7F
}
