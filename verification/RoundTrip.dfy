/**
 Encoding and decoding are inverse: exact sizes, the round trip of every value within
 the recursion limit, and the failure of every value beyond it.
 */
module RoundTrip {
  import opened Common
  import opened Wire
  import opened Messages

  // ------------------------------------------------------------------- sizes

  lemma RecordLength(tag: byte, payload: seq<byte>)
    ensures |Record(tag, payload)| == RecordSize(|payload|)
  {
    SovIsLength(|payload|);
  }

  /** SizeProto is the exact length of the encoding. */
  lemma {:induction false} SizeAnyExact(v: AnyValue)
    ensures SizeAny(v) == |EncodeAny(v)|
    decreases v
  {
    hide Sov, Varint, Record;
    match v {
      case Unset =>
      case StringValue(text) => RecordLength(0x0a, text);
      case BoolValue(_) =>
      case IntValue(number) => SovIsLength(U64(number));
      case DoubleValue(_) =>
      case ArrayRef(p) =>
        if p.To? {
          SizeArrayExact(p.target.values);
          RecordLength(0x2a, EncodeArray(p.target.values));
        }
      case KvlistRef(p) =>
        if p.To? {
          SizeKvlistExact(p.target.values);
          RecordLength(0x32, EncodeKvlist(p.target.values));
        }
      case BytesValue(bytes) => RecordLength(0x3a, bytes);
      case StrindexValue(index) => SovIsLength(U64(index));
    }
  }

  lemma {:induction false} SizeArrayExact(vs: seq<AnyValue>)
    ensures SizeArray(vs) == |EncodeArray(vs)|
    decreases vs
  {
    hide Record, RecordSize;
    if vs != [] {
      SizeAnyExact(vs[0]);
      SizeArrayExact(vs[1..]);
      RecordLength(0x0a, EncodeAny(vs[0]));
    }
  }

  lemma {:induction false} SizeKvlistExact(es: seq<KeyValue>)
    ensures SizeKvlist(es) == |EncodeKvlist(es)|
    decreases es
  {
    hide Record, RecordSize;
    if es != [] {
      SizeKeyValueExact(es[0]);
      SizeKvlistExact(es[1..]);
      RecordLength(0x0a, EncodeKeyValue(es[0]));
    }
  }

  lemma {:induction false} SizeKeyValueExact(e: KeyValue)
    ensures SizeKeyValue(e) == |EncodeKeyValue(e)|
    decreases e
  {
    hide Record, RecordSize, Varint, Sov;
    SizeAnyExact(e.value);
    RecordLength(0x12, EncodeAny(e.value));
    RecordLength(0x0a, e.key);
    SovIsLength(U64(e.keyStrindex));
  }

  // ------------------------------------------------- levels and normal values

  /** How many message levels lie below a message with this content. */
  function LevelsAny(v: AnyValue): nat
    decreases v
  {
    match v
    case ArrayRef(p) => if p.Null? then 0 else 1 + LevelsArray(p.target.values)
    case KvlistRef(p) => if p.Null? then 0 else 1 + LevelsKvlist(p.target.values)
    case _ => 0
  }

  function LevelsArray(vs: seq<AnyValue>): nat
    decreases vs
  {
    if vs == [] then 0 else Max(1 + LevelsAny(vs[0]), LevelsArray(vs[1..]))
  }

  function LevelsKvlist(es: seq<KeyValue>): nat
    decreases es
  {
    if es == [] then 0 else Max(1 + LevelsKeyValue(es[0]), LevelsKvlist(es[1..]))
  }

  function LevelsKeyValue(e: KeyValue): nat
    decreases e
  {
    1 + LevelsAny(e.value)
  }

  /** The value with nil message pointers, which are not encoded, taken for unset. */
  function NormalAny(v: AnyValue): AnyValue
    decreases v
  {
    match v
    case ArrayRef(p) => if p.Null? then Unset else ArrayRef(To(ArrayValue(NormalArray(p.target.values))))
    case KvlistRef(p) => if p.Null? then Unset else KvlistRef(To(KeyValueList(NormalKvlist(p.target.values))))
    case _ => v
  }

  function NormalArray(vs: seq<AnyValue>): seq<AnyValue>
    decreases vs
  {
    if vs == [] then [] else [NormalAny(vs[0])] + NormalArray(vs[1..])
  }

  function NormalKvlist(es: seq<KeyValue>): seq<KeyValue>
    decreases es
  {
    if es == [] then [] else [NormalKeyValue(es[0])] + NormalKvlist(es[1..])
  }

  function NormalKeyValue(e: KeyValue): KeyValue
    decreases e
  {
    e.(value := NormalAny(e.value))
  }

  /** No nil message pointer anywhere in the value. */
  predicate NoNullAny(v: AnyValue)
    decreases v
  {
    match v
    case ArrayRef(p) => p.To? && NoNullArray(p.target.values)
    case KvlistRef(p) => p.To? && NoNullKvlist(p.target.values)
    case _ => true
  }

  predicate NoNullArray(vs: seq<AnyValue>)
    decreases vs
  {
    vs == [] || (NoNullAny(vs[0]) && NoNullArray(vs[1..]))
  }

  predicate NoNullKvlist(es: seq<KeyValue>)
    decreases es
  {
    es == [] || (NoNullAny(es[0].value) && NoNullKvlist(es[1..]))
  }

  lemma {:induction false} NormalIffNoNullAny(v: AnyValue)
    ensures NormalAny(v) == v <==> NoNullAny(v)
    decreases v
  {
    match v {
      case ArrayRef(p) => if p.To? { NormalIffNoNullArray(p.target.values); }
      case KvlistRef(p) => if p.To? { NormalIffNoNullKvlist(p.target.values); }
      case _ =>
    }
  }

  lemma {:induction false} NormalIffNoNullArray(vs: seq<AnyValue>)
    ensures |NormalArray(vs)| == |vs|
    ensures NormalArray(vs) == vs <==> NoNullArray(vs)
    decreases vs
  {
    if vs != [] {
      NormalIffNoNullAny(vs[0]);
      NormalIffNoNullArray(vs[1..]);
      assert vs == [vs[0]] + vs[1..];
      assert NormalArray(vs)[1..] == NormalArray(vs[1..]);
    }
  }

  lemma {:induction false} NormalIffNoNullKvlist(es: seq<KeyValue>)
    ensures |NormalKvlist(es)| == |es|
    ensures NormalKvlist(es) == es <==> NoNullKvlist(es)
    decreases es
  {
    if es != [] {
      NormalIffNoNullAny(es[0].value);
      NormalIffNoNullKvlist(es[1..]);
      assert es == [es[0]] + es[1..];
      assert NormalKvlist(es)[1..] == NormalKvlist(es[1..]);
      assert NormalKeyValue(es[0]) == es[0] <==> NormalAny(es[0].value) == es[0].value;
    }
  }

  // -------------------------------------------------------------- round trip

  /** A record at the front: its tag is read, and then its payload. */
  lemma RecordField(tag: byte, payload: seq<byte>, rest: seq<byte>)
    requires 8 <= tag < 0x80 && tag % 8 == WIRE_LEN && |payload| < TWO63
    ensures var p := TakeTag(Record(tag, payload) + rest);
            && p.Got? && p.value == Tag(tag / 8, WIRE_LEN)
            && TakeLen(p.rest) == Got(payload, rest)
  {
    hide TakeTag, TakeLen, Varint;
    var body := Varint(|payload|) + payload + rest;
    assert Record(tag, payload) + rest == [tag] + body;
    ShortTag(tag, body);
    RecordRoundTrip(payload, rest);
  }

  lemma VarintField(tag: byte, num: uint64, rest: seq<byte>)
    requires 8 <= tag < 0x80 && tag % 8 == WIRE_VARINT
    ensures var p := TakeTag([tag] + Varint(num) + rest);
            && p.Got? && p.value == Tag(tag / 8, WIRE_VARINT)
            && TakeVarint(p.rest) == Got(num, rest)
  {
    hide TakeTag, TakeVarint, Varint;
    assert [tag] + Varint(num) + rest == [tag] + (Varint(num) + rest);
    ShortTag(tag, Varint(num) + rest);
    VarintRoundTrip(num, rest);
  }

  lemma FixedField(bits: uint64, rest: seq<byte>)
    ensures var p := TakeTag([0x21] + LittleEndianBytes(bits, 8) + rest);
            && p.Got? && p.value == Tag(4, WIRE_I64)
            && TakeFixed(p.rest, 8) == Got(LittleEndianBytes(bits, 8), rest)
    ensures Bits(LittleEndianBytes(bits, 8)) == bits
  {
    hide TakeTag, LittleEndianBytes, Pow256, LittleEndian;
    var bytes := LittleEndianBytes(bits, 8);
    assert [0x21] + bytes + rest == [0x21] + (bytes + rest);
    ShortTag(0x21, bytes + rest);
    Pow256Eight();
    LittleEndianRoundTrip(bits, 8);
    assert (bytes + rest)[..8] == bytes && (bytes + rest)[8..] == rest;
  }

  lemma BoolField(flag: bool, rest: seq<byte>)
    ensures var b: byte := if flag then 1 else 0;
            var p := TakeTag([0x10, b] + rest);
            p.Got? && p.value == Tag(2, WIRE_VARINT) && TakeVarint(p.rest) == Got(b, rest)
  {
    var b: byte := if flag then 1 else 0;
    assert Varint(b) == [b];
    assert [0x10, b] + rest == [0x10] + Varint(b) + rest;
    VarintField(0x10, b, rest);
  }

  /** The decoder's step over one record that is an element of the list. */
  lemma ArrayElement(payload: seq<byte>, rest: seq<byte>, d: nat, orig: seq<AnyValue>)
    requires |payload| < TWO63
    ensures ArrayFields(Record(0x0a, payload) + rest, d, orig) ==
            var r := DecodeAny(payload, d, Unset);
            if r.Err? then Err(r.error) else ArrayFields(rest, d, orig + [r.value])
  {
    hide TakeTag, TakeLen, SkipField, Varint, DecodeAny;
    RecordField(0x0a, payload, rest);
    assert Record(0x0a, payload) + rest != [];
  }

  lemma KvlistElement(payload: seq<byte>, rest: seq<byte>, d: nat, orig: seq<KeyValue>)
    requires |payload| < TWO63
    ensures KvlistFields(Record(0x0a, payload) + rest, d, orig) ==
            var r := DecodeKeyValue(payload, d, KeyValue([], Unset, 0));
            if r.Err? then Err(r.error) else KvlistFields(rest, d, orig + [r.value])
  {
    hide TakeTag, TakeLen, SkipField, Varint, DecodeKeyValue;
    RecordField(0x0a, payload, rest);
    assert Record(0x0a, payload) + rest != [];
  }

  /** The decoder's step over a record of an AnyValue message that holds a message. */
  lemma NestedMessage(payload: seq<byte>, rest: seq<byte>, d: nat, orig: AnyValue)
    requires |payload| < TWO63
    ensures AnyFields(Record(0x2a, payload) + rest, d, orig) ==
            var r := DecodeArray(payload, d, []);
            if r.Err? then Err(r.error) else AnyFields(rest, d, ArrayRef(To(ArrayValue(r.value))))
    ensures AnyFields(Record(0x32, payload) + rest, d, orig) ==
            var r := DecodeKvlist(payload, d, []);
            if r.Err? then Err(r.error) else AnyFields(rest, d, KvlistRef(To(KeyValueList(r.value))))
  {
    hide TakeTag, TakeLen, SkipField, Varint, DecodeArray, DecodeKvlist;
    RecordField(0x2a, payload, rest);
    RecordField(0x32, payload, rest);
    assert Record(0x2a, payload) + rest != [];
    assert Record(0x32, payload) + rest != [];
  }

  lemma KeyValueRecords(payload: seq<byte>, rest: seq<byte>, d: nat, orig: KeyValue)
    requires |payload| < TWO63
    ensures KeyValueFields(Record(0x0a, payload) + rest, d, orig) == KeyValueFields(rest, d, orig.(key := payload))
    ensures KeyValueFields(Record(0x12, payload) + rest, d, orig) ==
            var r := DecodeAny(payload, d, orig.value);
            if r.Err? then Err(r.error) else KeyValueFields(rest, d, orig.(value := r.value))
  {
    hide TakeTag, TakeLen, SkipField, Varint, DecodeAny;
    RecordField(0x0a, payload, rest);
    RecordField(0x12, payload, rest);
    assert Record(0x0a, payload) + rest != [];
    assert Record(0x12, payload) + rest != [];
  }

  /** What an AnyValue message holds after the encoding of `v` was decoded onto `orig`. */
  function Overlay(orig: AnyValue, v: AnyValue): AnyValue {
    if NormalAny(v).Unset? then orig else NormalAny(v)
  }

  /**
   Decoding the encoding of any value, in front of any bytes, goes on with the value in
   place, unless the value has too many levels, when it fails with the depth error.
   */
  lemma {:induction false} AnyRoundTrip(v: AnyValue, rest: seq<byte>, d: nat, orig: AnyValue)
    requires |EncodeAny(v)| < TWO63 && d <= RECURSION_LIMIT
    ensures AnyFields(EncodeAny(v) + rest, d, orig) ==
            if d + LevelsAny(v) <= RECURSION_LIMIT then AnyFields(rest, d, Overlay(orig, v)) else Err(RecursionDepth)
    decreases v, 0
  {
    hide TakeTag, TakeVarint, TakeLen, TakeFixed, SkipField, Varint, LittleEndianBytes, Bits;
    match v {
      case Unset => assert [] + rest == rest;
      case StringValue(text) => RecordField(0x0a, text, rest);
      case BoolValue(flag) => BoolField(flag, rest);
      case IntValue(number) =>
        VarintField(0x18, U64(number), rest);
        ConversionsInvert(number, 0);
      case DoubleValue(bits) => FixedField(bits, rest);
      case ArrayRef(p) =>
        if p.Null? {
          assert [] + rest == rest;
        } else {
          NestedMessage(EncodeArray(p.target.values), rest, d, orig);
          NestedArray(p.target.values, d);
        }
      case KvlistRef(p) =>
        if p.Null? {
          assert [] + rest == rest;
        } else {
          NestedMessage(EncodeKvlist(p.target.values), rest, d, orig);
          NestedKvlist(p.target.values, d);
        }
      case BytesValue(bytes) => RecordField(0x3a, bytes, rest);
      case StrindexValue(index) =>
        VarintField(0x40, U64(index), rest);
        ConversionsInvert(0, index);
    }
  }

  lemma {:induction false} NestedArray(vs: seq<AnyValue>, d: nat)
    requires |EncodeArray(vs)| < TWO63
    ensures DecodeArray(EncodeArray(vs), d, []) ==
            if d + 1 + LevelsArray(vs) <= RECURSION_LIMIT then Ok(NormalArray(vs)) else Err(RecursionDepth)
    decreases vs, 1
  {
    hide ArrayField, EncodeArray, LevelsArray, NormalArray;
    if d < RECURSION_LIMIT {
      assert EncodeArray(vs) + [] == EncodeArray(vs);
      ArrayRoundTrip(vs, [], d + 1, []);
      assert [] + NormalArray(vs) == NormalArray(vs);
    }
  }

  lemma {:induction false} NestedKvlist(es: seq<KeyValue>, d: nat)
    requires |EncodeKvlist(es)| < TWO63
    ensures DecodeKvlist(EncodeKvlist(es), d, []) ==
            if d + 1 + LevelsKvlist(es) <= RECURSION_LIMIT then Ok(NormalKvlist(es)) else Err(RecursionDepth)
    decreases es, 1
  {
    hide KvlistField, EncodeKvlist, LevelsKvlist, NormalKvlist;
    if d < RECURSION_LIMIT {
      assert EncodeKvlist(es) + [] == EncodeKvlist(es);
      KvlistRoundTrip(es, [], d + 1, []);
      assert [] + NormalKvlist(es) == NormalKvlist(es);
    }
  }

  lemma {:induction false} NestedAny(v: AnyValue, d: nat)
    requires |EncodeAny(v)| < TWO63
    ensures DecodeAny(EncodeAny(v), d, Unset) ==
            if d + 1 + LevelsAny(v) <= RECURSION_LIMIT then Ok(NormalAny(v)) else Err(RecursionDepth)
    decreases v, 1
  {
    hide AnyField, EncodeAny, LevelsAny, NormalAny;
    if d < RECURSION_LIMIT {
      assert EncodeAny(v) + [] == EncodeAny(v);
      AnyRoundTrip(v, [], d + 1, Unset);
    }
  }

  lemma ArraySteps(vs: seq<AnyValue>)
    ensures vs == [] ==> EncodeArray(vs) == [] && LevelsArray(vs) == 0 && NormalArray(vs) == []
    ensures vs != [] ==> && EncodeArray(vs) == Record(0x0a, EncodeAny(vs[0])) + EncodeArray(vs[1..])
                         && LevelsArray(vs) == Max(1 + LevelsAny(vs[0]), LevelsArray(vs[1..]))
                         && NormalArray(vs) == [NormalAny(vs[0])] + NormalArray(vs[1..])
  {
  }

  lemma {:induction false} ArrayRoundTrip(vs: seq<AnyValue>, rest: seq<byte>, d: nat, orig: seq<AnyValue>)
    requires |EncodeArray(vs)| < TWO63 && d <= RECURSION_LIMIT
    ensures ArrayFields(EncodeArray(vs) + rest, d, orig) ==
            if d + LevelsArray(vs) <= RECURSION_LIMIT then ArrayFields(rest, d, orig + NormalArray(vs))
            else Err(RecursionDepth)
    decreases vs, 0
  {
    hide ArrayFields, DecodeAny, Record, EncodeAny, LevelsAny, NormalAny, EncodeArray, LevelsArray, NormalArray, Varint;
    ArraySteps(vs);
    if vs == [] {
      assert [] + rest == rest && orig + [] == orig;
    } else {
      var payload := EncodeAny(vs[0]);
      var tail := EncodeArray(vs[1..]);
      assert Record(0x0a, payload) + tail + rest == Record(0x0a, payload) + (tail + rest);
      RecordLonger(0x0a, payload);
      ArrayElement(payload, tail + rest, d, orig);
      NestedAny(vs[0], d);
      ArrayRoundTrip(vs[1..], rest, d, orig + [NormalAny(vs[0])]);
      assert orig + ([NormalAny(vs[0])] + NormalArray(vs[1..])) == orig + [NormalAny(vs[0])] + NormalArray(vs[1..]);
    }
  }

  lemma RecordLonger(tag: byte, payload: seq<byte>)
    ensures |Record(tag, payload)| > |payload|
  {
  }

  lemma KvlistSteps(es: seq<KeyValue>)
    ensures es == [] ==> EncodeKvlist(es) == [] && LevelsKvlist(es) == 0 && NormalKvlist(es) == []
    ensures es != [] ==> && EncodeKvlist(es) == Record(0x0a, EncodeKeyValue(es[0])) + EncodeKvlist(es[1..])
                         && LevelsKvlist(es) == Max(1 + LevelsKeyValue(es[0]), LevelsKvlist(es[1..]))
                         && NormalKvlist(es) == [NormalKeyValue(es[0])] + NormalKvlist(es[1..])
  {
  }

  lemma {:induction false} KvlistRoundTrip(es: seq<KeyValue>, rest: seq<byte>, d: nat, orig: seq<KeyValue>)
    requires |EncodeKvlist(es)| < TWO63 && d <= RECURSION_LIMIT
    ensures KvlistFields(EncodeKvlist(es) + rest, d, orig) ==
            if d + LevelsKvlist(es) <= RECURSION_LIMIT then KvlistFields(rest, d, orig + NormalKvlist(es))
            else Err(RecursionDepth)
    decreases es, 0
  {
    hide KvlistFields, DecodeKeyValue, Record, EncodeKeyValue, LevelsKeyValue,
         NormalKeyValue, EncodeKvlist, LevelsKvlist, NormalKvlist, Varint;
    KvlistSteps(es);
    if es == [] {
      assert [] + rest == rest && orig + [] == orig;
    } else {
      var payload := EncodeKeyValue(es[0]);
      var tail := EncodeKvlist(es[1..]);
      assert Record(0x0a, payload) + tail + rest == Record(0x0a, payload) + (tail + rest);
      RecordLonger(0x0a, payload);
      KvlistElement(payload, tail + rest, d, orig);
      KeyValueRoundTrip(es[0], d);
      KvlistRoundTrip(es[1..], rest, d, orig + [NormalKeyValue(es[0])]);
      assert orig + ([NormalKeyValue(es[0])] + NormalKvlist(es[1..]))
          == orig + [NormalKeyValue(es[0])] + NormalKvlist(es[1..]);
    }
  }

  lemma {:induction false} KeyValueRoundTrip(e: KeyValue, depth: nat)
    requires |EncodeKeyValue(e)| < TWO63
    ensures DecodeKeyValue(EncodeKeyValue(e), depth, KeyValue([], Unset, 0)) ==
            if depth + 1 + LevelsKeyValue(e) <= RECURSION_LIMIT then Ok(NormalKeyValue(e)) else Err(RecursionDepth)
    decreases e
  {
    hide KeyValueFields, Varint, EncodeAny, LevelsAny, NormalAny, Record;
    var d := depth + 1;
    var keyPart := if e.key != [] then Record(0x0a, e.key) else [];
    var valuePart := Record(0x12, EncodeAny(e.value)) + keyPart;
    var indexed := KeyValue([], Unset, e.keyStrindex);
    RecordLonger(0x12, EncodeAny(e.value));
    RecordLonger(0x0a, e.key);
    IndexField(e.keyStrindex, valuePart, d);
    assert EncodeKeyValue(e)
        == if e.keyStrindex != 0 then [0x18] + Varint(U64(e.keyStrindex)) + valuePart else valuePart;
    NestedAny(e.value, d);
    KeyValueRecords(EncodeAny(e.value), keyPart, d, indexed);
    var valued := indexed.(value := NormalAny(e.value));
    KeyValueRecords(e.key, [], d, valued);
    assert Record(0x0a, e.key) + [] == Record(0x0a, e.key);
    NoFields(d, valued);
    NoFields(d, valued.(key := e.key));
  }

  lemma NoFields(d: nat, orig: KeyValue)
    ensures KeyValueFields([], d, orig) == Ok(orig)
  {
  }

  lemma IndexField(index: int32, rest: seq<byte>, d: nat)
    ensures KeyValueFields([0x18] + Varint(U64(index)) + rest, d, KeyValue([], Unset, 0))
         == KeyValueFields(rest, d, KeyValue([], Unset, index))
  {
    hide TakeTag, TakeVarint, SkipField, Varint, TakeLen, DecodeAny;
    VarintField(0x18, U64(index), rest);
    ConversionsInvert(0, index);
  }

  /**
   For every list of values and every depth: decoding the encoding onto a list appends
   exactly the values, nil pointers taken for unset, when the levels fit under the
   recursion limit, and reports the depth error when they do not.
   */
  lemma ArrayValueRoundTrip(a: ArrayValue, orig: ArrayValue, depth: nat)
    requires SizeArray(a.values) < TWO63
    ensures DecodeArray(EncodeArray(a.values), depth, orig.values) ==
            if depth + 1 + LevelsArray(a.values) <= RECURSION_LIMIT then Ok(orig.values + NormalArray(a.values))
            else Err(RecursionDepth)
    ensures NormalArray(a.values) == a.values <==> NoNullArray(a.values)
  {
    hide ArrayField, EncodeArray, LevelsArray, NormalArray, NoNullArray, SizeArray;
    SizeArrayExact(a.values);
    assert EncodeArray(a.values) + [] == EncodeArray(a.values);
    if depth < RECURSION_LIMIT {
      ArrayRoundTrip(a.values, [], depth + 1, orig.values);
    }
    NormalIffNoNullArray(a.values);
  }

  /** Two encodings one after the other decode to the first list followed by the second. */
  lemma ConcatenationAppends(a: ArrayValue, b: ArrayValue, orig: ArrayValue, depth: nat)
    requires SizeArray(a.values) + SizeArray(b.values) < TWO63
    ensures DecodeArray(EncodeArray(a.values) + EncodeArray(b.values), depth, orig.values) ==
            if depth + 1 + Max(LevelsArray(a.values), LevelsArray(b.values)) <= RECURSION_LIMIT
            then Ok(orig.values + NormalArray(a.values) + NormalArray(b.values)) else Err(RecursionDepth)
    ensures NoNullArray(a.values) && NoNullArray(b.values) ==>
              NormalArray(a.values) + NormalArray(b.values) == a.values + b.values
  {
    hide ArrayField, EncodeArray, LevelsArray, NormalArray, NoNullArray, SizeArray;
    SizeArrayExact(a.values);
    SizeArrayExact(b.values);
    NormalIffNoNullArray(a.values);
    NormalIffNoNullArray(b.values);
    if depth < RECURSION_LIMIT {
      ArrayRoundTrip(a.values, EncodeArray(b.values), depth + 1, orig.values);
      assert EncodeArray(b.values) + [] == EncodeArray(b.values);
      ArrayRoundTrip(b.values, [], depth + 1, orig.values + NormalArray(a.values));
    }
  }

  lemma NilListFits()
    ensures NormalArray([ArrayRef(Null)]) == [Unset] && LevelsArray([ArrayRef(Null)]) == 1
    ensures SizeArray([ArrayRef(Null)]) == 2
  {
    ArraySteps([ArrayRef(Null)]);
    ArraySteps([]);
    assert Sov(0) == 1 && RecordSize(0) == 2;
  }

  /** A nil list in a list is encoded like an unset value, and comes back as one. */
  lemma NilListLost()
    ensures EncodeArray([ArrayRef(Null)]) == EncodeArray([Unset])
    ensures DecodeArray(EncodeArray([ArrayRef(Null)]), 0, []) == Ok([Unset])
  {
    var a := ArrayValue([ArrayRef(Null)]);
    assert EncodeAny(ArrayRef(Null)) == EncodeAny(Unset) == [];
    ArraySteps([ArrayRef(Null)]);
    ArraySteps([Unset]);
    ArraySteps([]);
    SizeArrayExact(a.values);
    NilListFits();
    hide DecodeArray, EncodeArray, NormalArray, LevelsArray;
    ArrayValueRoundTrip(a, ArrayValue([]), 0);
    assert [] + [Unset] == [Unset];
  }

  /** Messages nest to a depth of one hundred, and no further, whatever they hold. */
  lemma DepthLimit(s: seq<byte>, vs: seq<AnyValue>, v: AnyValue, es: seq<KeyValue>, e: KeyValue)
    ensures DecodeArray(s, 100, vs).Err? && DecodeArray([], 99, vs) == Ok(vs)
    ensures DecodeAny(s, 100, v).Err? && DecodeAny([], 99, v) == Ok(v)
    ensures DecodeKvlist(s, 100, es).Err? && DecodeKvlist([], 99, es) == Ok(es)
    ensures DecodeKeyValue(s, 100, e).Err? && DecodeKeyValue([], 99, e) == Ok(e)
  {
  }

  /** A pair, a list and a floating-point number, byte by byte. */
  lemma EncodedBytes()
    ensures EncodeKeyValue(KeyValue([0x6b], IntValue(1), 3)) == [0x18, 3, 0x12, 2, 0x18, 1, 0x0a, 1, 0x6b]
    ensures EncodeArray([BoolValue(true), StringValue([0x61])]) == [0x0a, 2, 0x10, 1, 0x0a, 3, 0x0a, 1, 0x61]
    ensures EncodeAny(DoubleValue(0x3ff0_0000_0000_0000)) == [0x21, 0, 0, 0, 0, 0, 0, 0xf0, 0x3f]
  {
    PairBytes();
    ListBytes();
    DoubleBytes();
    hide EncodeKeyValue, EncodeArray;
  }

  lemma PairBytes()
    ensures EncodeKeyValue(KeyValue([0x6b], IntValue(1), 3)) == [0x18, 3, 0x12, 2, 0x18, 1, 0x0a, 1, 0x6b]
  {
    OneByte(1);
    OneByte(2);
    OneByte(3);
    hide Varint;
    assert EncodeAny(IntValue(1)) == [0x18, 1];
  }

  lemma ListBytes()
    ensures EncodeArray([BoolValue(true), StringValue([0x61])]) == [0x0a, 2, 0x10, 1, 0x0a, 3, 0x0a, 1, 0x61]
  {
    OneByte(1);
    OneByte(2);
    OneByte(3);
    hide Varint;
    var text := [StringValue([0x61])];
    assert EncodeAny(BoolValue(true)) == [0x10, 1];
    assert EncodeAny(text[0]) == [0x0a, 1, 0x61];
    assert EncodeArray(text) == [0x0a, 3, 0x0a, 1, 0x61] + EncodeArray([]);
    assert ([BoolValue(true)] + text)[1..] == text;
    assert [BoolValue(true), StringValue([0x61])] == [BoolValue(true)] + text;
    hide EncodeAny;
  }

  lemma DoubleBytes()
    ensures LittleEndianBytes(0x3ff0_0000_0000_0000, 8) == [0, 0, 0, 0, 0, 0, 0xf0, 0x3f]
  {
    assert LittleEndianBytes(0x3ff0, 2) == [0xf0, 0x3f];
    assert LittleEndianBytes(0x3ff0_0000, 4) == [0, 0, 0xf0, 0x3f];
    assert LittleEndianBytes(0x3ff0_0000_0000, 6) == [0, 0, 0, 0, 0xf0, 0x3f];
  }

  lemma OneByte(v: nat)
    requires v < 0x80
    ensures Varint(v) == [v]
  {
  }
}
