/**
 The mutually recursive messages ArrayValue, AnyValue, KeyValueList and KeyValue
 (pdata/internal/generated_proto_*.go): their encoding, its size, and decoding under the
 recursion limit, as functions on values and bytes.
 */
module Messages {
  import opened Common
  import opened Wire

  /** A pointer to a message, which may be nil. */
  datatype Pointer<+T> = Null | To(target: T)

  /** The oneof of AnyValue. Text is kept as bytes and a double as its 64 bits. */
  datatype AnyValue =
    | Unset
    | StringValue(text: seq<byte>)
    | BoolValue(flag: bool)
    | IntValue(number: int64)
    | DoubleValue(bits: uint64)
    | ArrayRef(arrayValue: Pointer<ArrayValue>)
    | KvlistRef(kvlistValue: Pointer<KeyValueList>)
    | BytesValue(bytes: seq<byte>)
    | StrindexValue(index: int32)

  datatype ArrayValue = ArrayValue(values: seq<AnyValue>)
  datatype KeyValueList = KeyValueList(values: seq<KeyValue>)
  datatype KeyValue = KeyValue(key: seq<byte>, value: AnyValue, keyStrindex: int32)

  const RECURSION_LIMIT := 100

  // ---------------------------------------------------------------- encoding

  function EncodeAny(v: AnyValue): seq<byte>
    decreases v
  {
    match v
    case Unset => []
    case StringValue(text) => Record(0x0a, text)
    case BoolValue(flag) => [0x10, if flag then 1 else 0]
    case IntValue(number) => [0x18] + Varint(U64(number))
    case DoubleValue(bits) => [0x21] + LittleEndianBytes(bits, 8)
    case ArrayRef(p) => if p.Null? then [] else Record(0x2a, EncodeArray(p.target.values))
    case KvlistRef(p) => if p.Null? then [] else Record(0x32, EncodeKvlist(p.target.values))
    case BytesValue(bytes) => Record(0x3a, bytes)
    case StrindexValue(index) => [0x40] + Varint(U64(index))
  }

  function EncodeArray(vs: seq<AnyValue>): seq<byte>
    decreases vs
  {
    if vs == [] then [] else Record(0x0a, EncodeAny(vs[0])) + EncodeArray(vs[1..])
  }

  function EncodeKvlist(es: seq<KeyValue>): seq<byte>
    decreases es
  {
    if es == [] then [] else Record(0x0a, EncodeKeyValue(es[0])) + EncodeKvlist(es[1..])
  }

  function EncodeKeyValue(e: KeyValue): seq<byte>
    decreases e
  {
    (if e.keyStrindex != 0 then [0x18] + Varint(U64(e.keyStrindex)) else [])
    + Record(0x12, EncodeAny(e.value))
    + (if e.key != [] then Record(0x0a, e.key) else [])
  }

  // -------------------------------------------------------------------- size

  function RecordSize(l: nat): nat {
    1 + Sov(l) + l
  }

  function SizeAny(v: AnyValue): nat
    decreases v
  {
    match v
    case Unset => 0
    case StringValue(text) => RecordSize(|text|)
    case BoolValue(_) => 2
    case IntValue(number) => 1 + Sov(U64(number))
    case DoubleValue(_) => 9
    case ArrayRef(p) => if p.Null? then 0 else RecordSize(SizeArray(p.target.values))
    case KvlistRef(p) => if p.Null? then 0 else RecordSize(SizeKvlist(p.target.values))
    case BytesValue(bytes) => RecordSize(|bytes|)
    case StrindexValue(index) => 1 + Sov(U64(index))
  }

  function SizeArray(vs: seq<AnyValue>): nat
    decreases vs
  {
    if vs == [] then 0 else RecordSize(SizeAny(vs[0])) + SizeArray(vs[1..])
  }

  function SizeKvlist(es: seq<KeyValue>): nat
    decreases es
  {
    if es == [] then 0 else RecordSize(SizeKeyValue(es[0])) + SizeKvlist(es[1..])
  }

  function SizeKeyValue(e: KeyValue): nat
    decreases e
  {
    (if e.key != [] then RecordSize(|e.key|) else 0)
    + RecordSize(SizeAny(e.value))
    + (if e.keyStrindex != 0 then 1 + Sov(U64(e.keyStrindex)) else 0)
  }

  // ---------------------------------------------------------------- decoding

  /** One field of an AnyValue message. A later field replaces an earlier one. */
  function AnyField(s: seq<byte>, d: nat, orig: AnyValue): (p: Parsed<AnyValue>)
    ensures p.Got? ==> |p.rest| < |s|
    decreases |s|, 0
  {
    match TakeTag(s)
    case Bad(e) => Bad(e)
    case Got(tag, rest) =>
      match tag.field
      case 1 =>
        if tag.wireType != WIRE_LEN then Bad(WrongWireType) else
        (match TakeLen(rest) case Bad(e) => Bad(e) case Got(text, r) => Got(StringValue(text), r))
      case 2 =>
        if tag.wireType != WIRE_VARINT then Bad(WrongWireType) else
        (match TakeVarint(rest) case Bad(e) => Bad(e) case Got(num, r) => Got(BoolValue(num != 0), r))
      case 3 =>
        if tag.wireType != WIRE_VARINT then Bad(WrongWireType) else
        (match TakeVarint(rest) case Bad(e) => Bad(e) case Got(num, r) => Got(IntValue(I64(num)), r))
      case 4 =>
        if tag.wireType != WIRE_I64 then Bad(WrongWireType) else
        (match TakeFixed(rest, 8) case Bad(e) => Bad(e) case Got(bytes, r) => Got(DoubleValue(Bits(bytes)), r))
      case 5 =>
        if tag.wireType != WIRE_LEN then Bad(WrongWireType) else
        (match TakeLen(rest)
         case Bad(e) => Bad(e)
         case Got(payload, r) =>
           match DecodeArray(payload, d, [])
           case Err(e) => Bad(e)
           case Ok(vs) => Got(ArrayRef(To(ArrayValue(vs))), r))
      case 6 =>
        if tag.wireType != WIRE_LEN then Bad(WrongWireType) else
        (match TakeLen(rest)
         case Bad(e) => Bad(e)
         case Got(payload, r) =>
           match DecodeKvlist(payload, d, [])
           case Err(e) => Bad(e)
           case Ok(es) => Got(KvlistRef(To(KeyValueList(es))), r))
      case 7 =>
        if tag.wireType != WIRE_LEN then Bad(WrongWireType) else
        (match TakeLen(rest) case Bad(e) => Bad(e) case Got(bytes, r) => Got(BytesValue(bytes), r))
      case 8 =>
        if tag.wireType != WIRE_VARINT then Bad(WrongWireType) else
        (match TakeVarint(rest) case Bad(e) => Bad(e) case Got(num, r) => Got(StrindexValue(I32(num)), r))
      case _ =>
        match SkipField(rest, tag.wireType, 0)
        case Bad(e) => Bad(e)
        case Got(_, r) => Got(orig, r)
  }

  function Bits(bytes: seq<byte>): uint64
    requires |bytes| == 8
  {
    LittleEndianBound(bytes);
    Pow256Eight();
    LittleEndian(bytes)
  }

  function AnyFields(s: seq<byte>, d: nat, orig: AnyValue): Result<AnyValue>
    decreases |s|, 1
  {
    if s == [] then Ok(orig) else
    match AnyField(s, d, orig)
    case Bad(e) => Err(e)
    case Got(v, rest) => AnyFields(rest, d, v)
  }

  function DecodeAny(s: seq<byte>, depth: nat, orig: AnyValue): Result<AnyValue>
    decreases |s|, 2
  {
    if depth >= RECURSION_LIMIT then Err(RecursionDepth) else AnyFields(s, depth + 1, orig)
  }

  /** One field of an ArrayValue message: a further element, or an unknown field. */
  function ArrayField(s: seq<byte>, d: nat, orig: seq<AnyValue>): (p: Parsed<seq<AnyValue>>)
    ensures p.Got? ==> |p.rest| < |s|
    decreases |s|, 0
  {
    match TakeTag(s)
    case Bad(e) => Bad(e)
    case Got(tag, rest) =>
      match tag.field
      case 1 =>
        if tag.wireType != WIRE_LEN then Bad(WrongWireType) else
        (match TakeLen(rest)
         case Bad(e) => Bad(e)
         case Got(payload, r) =>
           match DecodeAny(payload, d, Unset)
           case Err(e) => Bad(e)
           case Ok(v) => Got(orig + [v], r))
      case _ =>
        match SkipField(rest, tag.wireType, 0)
        case Bad(e) => Bad(e)
        case Got(_, r) => Got(orig, r)
  }

  function ArrayFields(s: seq<byte>, d: nat, orig: seq<AnyValue>): Result<seq<AnyValue>>
    decreases |s|, 1
  {
    if s == [] then Ok(orig) else
    match ArrayField(s, d, orig)
    case Bad(e) => Err(e)
    case Got(vs, rest) => ArrayFields(rest, d, vs)
  }

  function DecodeArray(s: seq<byte>, depth: nat, orig: seq<AnyValue>): Result<seq<AnyValue>>
    decreases |s|, 2
  {
    if depth >= RECURSION_LIMIT then Err(RecursionDepth) else ArrayFields(s, depth + 1, orig)
  }

  function KvlistField(s: seq<byte>, d: nat, orig: seq<KeyValue>): (p: Parsed<seq<KeyValue>>)
    ensures p.Got? ==> |p.rest| < |s|
    decreases |s|, 0
  {
    match TakeTag(s)
    case Bad(e) => Bad(e)
    case Got(tag, rest) =>
      match tag.field
      case 1 =>
        if tag.wireType != WIRE_LEN then Bad(WrongWireType) else
        (match TakeLen(rest)
         case Bad(e) => Bad(e)
         case Got(payload, r) =>
           match DecodeKeyValue(payload, d, KeyValue([], Unset, 0))
           case Err(e) => Bad(e)
           case Ok(kv) => Got(orig + [kv], r))
      case _ =>
        match SkipField(rest, tag.wireType, 0)
        case Bad(e) => Bad(e)
        case Got(_, r) => Got(orig, r)
  }

  function KvlistFields(s: seq<byte>, d: nat, orig: seq<KeyValue>): Result<seq<KeyValue>>
    decreases |s|, 1
  {
    if s == [] then Ok(orig) else
    match KvlistField(s, d, orig)
    case Bad(e) => Err(e)
    case Got(es, rest) => KvlistFields(rest, d, es)
  }

  function DecodeKvlist(s: seq<byte>, depth: nat, orig: seq<KeyValue>): Result<seq<KeyValue>>
    decreases |s|, 2
  {
    if depth >= RECURSION_LIMIT then Err(RecursionDepth) else KvlistFields(s, depth + 1, orig)
  }

  /** One field of a KeyValue message. The value is decoded onto what is there already. */
  function KeyValueField(s: seq<byte>, d: nat, orig: KeyValue): (p: Parsed<KeyValue>)
    ensures p.Got? ==> |p.rest| < |s|
    decreases |s|, 0
  {
    match TakeTag(s)
    case Bad(e) => Bad(e)
    case Got(tag, rest) =>
      match tag.field
      case 1 =>
        if tag.wireType != WIRE_LEN then Bad(WrongWireType) else
        (match TakeLen(rest) case Bad(e) => Bad(e) case Got(key, r) => Got(orig.(key := key), r))
      case 2 =>
        if tag.wireType != WIRE_LEN then Bad(WrongWireType) else
        (match TakeLen(rest)
         case Bad(e) => Bad(e)
         case Got(payload, r) =>
           match DecodeAny(payload, d, orig.value)
           case Err(e) => Bad(e)
           case Ok(v) => Got(orig.(value := v), r))
      case 3 =>
        if tag.wireType != WIRE_VARINT then Bad(WrongWireType) else
        (match TakeVarint(rest) case Bad(e) => Bad(e) case Got(num, r) => Got(orig.(keyStrindex := I32(num)), r))
      case _ =>
        match SkipField(rest, tag.wireType, 0)
        case Bad(e) => Bad(e)
        case Got(_, r) => Got(orig, r)
  }

  function KeyValueFields(s: seq<byte>, d: nat, orig: KeyValue): Result<KeyValue>
    decreases |s|, 1
  {
    if s == [] then Ok(orig) else
    match KeyValueField(s, d, orig)
    case Bad(e) => Err(e)
    case Got(kv, rest) => KeyValueFields(rest, d, kv)
  }

  function DecodeKeyValue(s: seq<byte>, depth: nat, orig: KeyValue): Result<KeyValue>
    decreases |s|, 2
  {
    if depth >= RECURSION_LIMIT then Err(RecursionDepth) else KeyValueFields(s, depth + 1, orig)
  }
}
