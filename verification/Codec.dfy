/**
 The generated code of the messages over buffers: the back-to-front writer, the size
 loops and the decoding loops, each proved against the functions on values.
 */
module Codec {
  import opened Common
  import opened Wire
  import opened Messages
  import opened RoundTrip

  // -------------------------------------------------------------------- size

  method SizeProtoAny(v: AnyValue) returns (n: nat)
    ensures n == |EncodeAny(v)|
    decreases v
  {
    SizeAnyExact(v);
    n := 0;
    match v {
      case Unset =>
      case StringValue(text) => n := n + 1 + Sov(|text|) + |text|;
      case BoolValue(_) => n := n + 2;
      case IntValue(number) => n := n + 1 + Sov(U64(number));
      case DoubleValue(_) => n := n + 9;
      case ArrayRef(p) =>
        if p.To? {
          SizeArrayExact(p.target.values);
          var l := SizeProtoArray(p.target.values);
          n := n + 1 + Sov(l) + l;
        }
      case KvlistRef(p) =>
        if p.To? {
          SizeKvlistExact(p.target.values);
          var l := SizeProtoKvlist(p.target.values);
          n := n + 1 + Sov(l) + l;
        }
      case BytesValue(bytes) => n := n + 1 + Sov(|bytes|) + |bytes|;
      case StrindexValue(index) => n := n + 1 + Sov(U64(index));
    }
  }

  /** ArrayValue.SizeProto: the exact length of the encoding. */
  method SizeProtoArray(vs: seq<AnyValue>) returns (n: nat)
    ensures n == |EncodeArray(vs)|
    decreases vs
  {
    SizeArrayExact(vs);
    n := 0;
    for i := 0 to |vs|
      invariant n + SizeArray(vs[i..]) == SizeArray(vs)
    {
      SizeAnyExact(vs[i]);
      var l := SizeProtoAny(vs[i]);
      n := n + 1 + Sov(l) + l;
      assert vs[i..][1..] == vs[i + 1..];
    }
  }

  method SizeProtoKvlist(es: seq<KeyValue>) returns (n: nat)
    ensures n == |EncodeKvlist(es)|
    decreases es
  {
    SizeKvlistExact(es);
    n := 0;
    for i := 0 to |es|
      invariant n + SizeKvlist(es[i..]) == SizeKvlist(es)
    {
      SizeKeyValueExact(es[i]);
      var l := SizeProtoKeyValue(es[i]);
      n := n + 1 + Sov(l) + l;
      assert es[i..][1..] == es[i + 1..];
    }
  }

  method SizeProtoKeyValue(e: KeyValue) returns (n: nat)
    ensures n == |EncodeKeyValue(e)|
    decreases e
  {
    SizeKeyValueExact(e);
    SizeAnyExact(e.value);
    n := 0;
    if |e.key| > 0 {
      n := n + 1 + Sov(|e.key|) + |e.key|;
    }
    var l := SizeProtoAny(e.value);
    n := n + 1 + Sov(l) + l;
    if e.keyStrindex != 0 {
      n := n + 1 + Sov(U64(e.keyStrindex));
    }
  }

  // ----------------------------------------------------------------- marshal

  /** copy(buf[pos:], bytes). */
  method CopyBytes(buf: array<byte>, pos: nat, bytes: seq<byte>)
    requires pos + |bytes| <= buf.Length
    modifies buf
    ensures Wrote(old(buf[..]), buf[..], pos, pos + |bytes|, bytes)
  {
    hide Wrote;
    WroteNothing(buf[..], pos);
    for i := 0 to |bytes|
      invariant Wrote(old(buf[..]), buf[..], pos, pos + i, bytes[..i])
    {
      ghost var before := buf[..];
      Put(buf, pos + i, bytes[i]);
      WroteThenWrote(old(buf[..]), before, buf[..], pos, pos + i, pos + i + 1, bytes[..i], [bytes[i]]);
      assert bytes[..i + 1] == bytes[..i] + [bytes[i]];
    }
    assert bytes[..|bytes|] == bytes;
  }

  /** A varint field is put in front of `end`. */
  method PutVarint(buf: array<byte>, end: nat, v: uint64, tag: byte) returns (pos: nat)
    requires 1 + Sov(v) <= end <= buf.Length
    modifies buf
    ensures pos == end - 1 - Sov(v)
    ensures Wrote(old(buf[..]), buf[..], pos, end, [tag] + Varint(v))
  {
    hide Sov, Varint, Wrote;
    var mid := EncodeVarint(buf, end, v);
    ghost var before := buf[..];
    pos := mid - 1;
    Put(buf, pos, tag);
    WroteThenWrote(old(buf[..]), before, buf[..], pos, mid, end, [tag], Varint(v));
  }

  /** The length and the tag of a record are put in front of its payload. */
  method PutHeader(buf: array<byte>, mid: nat, end: nat, tag: byte, ghost start: seq<byte>, ghost payload: seq<byte>)
    returns (pos: nat)
    requires |payload| < TWO63 && RecordSize(|payload|) <= end <= buf.Length
    requires |start| == buf.Length && Wrote(start, buf[..], mid, end, payload)
    modifies buf
    ensures pos == end - RecordSize(|payload|)
    ensures Wrote(start, buf[..], pos, end, Record(tag, payload))
  {
    hide Sov, Varint;
    var l := end - mid;
    ghost var before := buf[..];
    pos := PutVarint(buf, mid, l, tag);
    WroteThenWrote(start, before, buf[..], pos, mid, end, [tag] + Varint(l), payload);
  }

  method PutBytes(buf: array<byte>, end: nat, bytes: seq<byte>, tag: byte) returns (pos: nat)
    requires |bytes| < TWO63 && RecordSize(|bytes|) <= end <= buf.Length
    modifies buf
    ensures pos == end - RecordSize(|bytes|)
    ensures Wrote(old(buf[..]), buf[..], pos, end, Record(tag, bytes))
  {
    hide Sov, Wrote, Record;
    CopyBytes(buf, end - |bytes|, bytes);
    pos := PutHeader(buf, end - |bytes|, end, tag, old(buf[..]), bytes);
  }

  /** A field of fixed size is put in front of `end`. */
  method PutFixed(buf: array<byte>, end: nat, bytes: seq<byte>, tag: byte) returns (pos: nat)
    requires 1 + |bytes| <= end <= buf.Length
    modifies buf
    ensures pos == end - 1 - |bytes|
    ensures Wrote(old(buf[..]), buf[..], pos, end, [tag] + bytes)
  {
    hide Wrote;
    var mid := end - |bytes|;
    CopyBytes(buf, mid, bytes);
    ghost var before := buf[..];
    pos := mid - 1;
    Put(buf, pos, tag);
    WroteThenWrote(old(buf[..]), before, buf[..], pos, mid, end, [tag], bytes);
  }

  /** AnyValue.MarshalProto on buf[:end]. */
  method MarshalAny(v: AnyValue, buf: array<byte>, end: nat) returns (n: nat)
    requires SizeAny(v) <= end <= buf.Length < TWO63
    modifies buf
    ensures n == SizeAny(v)
    ensures Wrote(old(buf[..]), buf[..], end - n, end, EncodeAny(v))
    decreases v
  {
    hide Sov, Varint, Wrote, Record, LittleEndianBytes;
    SizeAnyExact(v);
    var pos := end;
    match v {
      case Unset => WroteNothing(buf[..], end);
      case StringValue(text) => pos := PutBytes(buf, pos, text, 0x0a);
      case BoolValue(flag) => pos := PutFixed(buf, pos, [if flag then 1 else 0], 0x10);
      case IntValue(number) => pos := PutVarint(buf, pos, U64(number), 0x18);
      case DoubleValue(bits) => pos := PutFixed(buf, pos, LittleEndianBytes(bits, 8), 0x21);
      case ArrayRef(p) =>
        if p.To? {
          SizeArrayExact(p.target.values);
          var l := MarshalArray(p.target.values, buf, pos);
          pos := PutHeader(buf, pos - l, end, 0x2a, old(buf[..]), EncodeArray(p.target.values));
        } else {
          WroteNothing(buf[..], end);
        }
      case KvlistRef(p) =>
        if p.To? {
          SizeKvlistExact(p.target.values);
          var l := MarshalKvlist(p.target.values, buf, pos);
          pos := PutHeader(buf, pos - l, end, 0x32, old(buf[..]), EncodeKvlist(p.target.values));
        } else {
          WroteNothing(buf[..], end);
        }
      case BytesValue(bytes) => pos := PutBytes(buf, pos, bytes, 0x3a);
      case StrindexValue(index) => pos := PutVarint(buf, pos, U64(index), 0x40);
    }
    assert v.BoolValue? ==> EncodeAny(v) == [0x10] + [if v.flag then 1 else 0];
    return end - pos;
  }

  /** The elements from an index on take no more room than all of them. */
  lemma {:induction false} SizeArrayTail(vs: seq<AnyValue>, i: nat)
    requires i <= |vs|
    ensures SizeArray(vs[i..]) <= SizeArray(vs)
    decreases i
  {
    if i > 0 {
      SizeArrayTail(vs, i - 1);
      assert vs[i - 1..][1..] == vs[i..];
    }
  }

  lemma {:induction false} SizeKvlistTail(es: seq<KeyValue>, i: nat)
    requires i <= |es|
    ensures SizeKvlist(es[i..]) <= SizeKvlist(es)
    decreases i
  {
    if i > 0 {
      SizeKvlistTail(es, i - 1);
      assert es[i - 1..][1..] == es[i..];
    }
  }

  /**
   ArrayValue.MarshalProto on buf[:end]: the loop from the last element to the first
   fills exactly the last SizeProto bytes with the encoding and touches no other.
   */
  method MarshalArray(vs: seq<AnyValue>, buf: array<byte>, end: nat) returns (n: nat)
    requires SizeArray(vs) <= end <= buf.Length < TWO63
    modifies buf
    ensures n == SizeArray(vs)
    ensures Wrote(old(buf[..]), buf[..], end - n, end, EncodeArray(vs))
    decreases vs
  {
    hide Sov, Varint, Wrote, Record, EncodeAny, SizeAny;
    var pos := end;
    WroteNothing(buf[..], end);
    for i := |vs| downto 0
      invariant pos == end - SizeArray(vs[i..])
      invariant Wrote(old(buf[..]), buf[..], pos, end, EncodeArray(vs[i..]))
    {
      ghost var start := buf[..];
      ghost var top := pos;
      assert vs[i..][1..] == vs[i + 1..];
      SizeArrayTail(vs, i);
      SizeAnyExact(vs[i]);
      var l := MarshalAny(vs[i], buf, pos);
      pos := PutHeader(buf, pos - l, pos, 0x0a, start, EncodeAny(vs[i]));
      WroteThenWrote(old(buf[..]), start, buf[..], pos, top, end,
                     Record(0x0a, EncodeAny(vs[i])), EncodeArray(vs[i + 1..]));
    }
    return end - pos;
  }

  method MarshalKvlist(es: seq<KeyValue>, buf: array<byte>, end: nat) returns (n: nat)
    requires SizeKvlist(es) <= end <= buf.Length < TWO63
    modifies buf
    ensures n == SizeKvlist(es)
    ensures Wrote(old(buf[..]), buf[..], end - n, end, EncodeKvlist(es))
    decreases es
  {
    hide Sov, Varint, Wrote, Record, EncodeKeyValue, SizeKeyValue;
    var pos := end;
    WroteNothing(buf[..], end);
    for i := |es| downto 0
      invariant pos == end - SizeKvlist(es[i..])
      invariant Wrote(old(buf[..]), buf[..], pos, end, EncodeKvlist(es[i..]))
    {
      ghost var start := buf[..];
      ghost var top := pos;
      assert es[i..][1..] == es[i + 1..];
      SizeKvlistTail(es, i);
      SizeKeyValueExact(es[i]);
      var l := MarshalKeyValue(es[i], buf, pos);
      pos := PutHeader(buf, pos - l, pos, 0x0a, start, EncodeKeyValue(es[i]));
      WroteThenWrote(old(buf[..]), start, buf[..], pos, top, end,
                     Record(0x0a, EncodeKeyValue(es[i])), EncodeKvlist(es[i + 1..]));
    }
    return end - pos;
  }

  method MarshalKeyValue(e: KeyValue, buf: array<byte>, end: nat) returns (n: nat)
    requires SizeKeyValue(e) <= end <= buf.Length < TWO63
    modifies buf
    ensures n == SizeKeyValue(e)
    ensures Wrote(old(buf[..]), buf[..], end - n, end, EncodeKeyValue(e))
    decreases e
  {
    hide Sov, Varint, Wrote, Record, EncodeAny, SizeAny;
    var pos := end;
    ghost var keyPart := if e.key != [] then Record(0x0a, e.key) else [];
    WroteNothing(buf[..], end);
    if |e.key| > 0 {
      pos := PutBytes(buf, pos, e.key, 0x0a);
    }
    ghost var start, top := buf[..], pos;
    SizeAnyExact(e.value);
    var l := MarshalAny(e.value, buf, pos);
    pos := PutHeader(buf, pos - l, pos, 0x12, start, EncodeAny(e.value));
    ghost var valuePart := Record(0x12, EncodeAny(e.value));
    WroteThenWrote(old(buf[..]), start, buf[..], pos, top, end, valuePart, keyPart);
    if e.keyStrindex != 0 {
      start, top := buf[..], pos;
      ghost var index := [0x18] + Varint(U64(e.keyStrindex));
      pos := PutVarint(buf, pos, U64(e.keyStrindex), 0x18);
      WroteThenWrote(old(buf[..]), start, buf[..], pos, top, end, index, valuePart + keyPart);
      assert EncodeKeyValue(e) == index + (valuePart + keyPart);
    } else {
      assert EncodeKeyValue(e) == valuePart + keyPart;
    }
    return end - pos;
  }

  // --------------------------------------------------------------- unmarshal

  /** One round of the loop of AnyValue.unmarshalProto, from `start` on. */
  method UnmarshalAnyField(buf: seq<byte>, start: nat, d: nat, orig: AnyValue) returns (r: Result<(AnyValue, nat)>)
    requires start < |buf|
    ensures At(buf, r, AnyField(buf[start..], d, orig))
    decreases |buf|, 0
  {
    hide TakeTag, TakeVarint, TakeLen, TakeFixed, SkipField, DecodeArray, DecodeKvlist, Bits;
    var t := ConsumeTag(buf, start);
    if t.Err? {
      return Err(t.error);
    }
    var (tag, pos) := t.value;
    if tag.field == 1 || tag.field == 5 || tag.field == 6 || tag.field == 7 {
      if tag.wireType != WIRE_LEN {
        return Err(WrongWireType);
      }
      var len := ConsumeLen(buf, pos);
      if len.Err? {
        return Err(len.error);
      }
      var (length, after) := len.value;
      var payload := buf[after - length..after];
      if tag.field == 1 {
        return Ok((StringValue(payload), after));
      } else if tag.field == 5 {
        var a := UnmarshalArray(payload, d, []);
        return if a.Err? then Err(a.error) else Ok((ArrayRef(To(ArrayValue(a.value))), after));
      } else if tag.field == 6 {
        var l := UnmarshalKvlist(payload, d, []);
        return if l.Err? then Err(l.error) else Ok((KvlistRef(To(KeyValueList(l.value))), after));
      } else {
        return Ok((BytesValue(payload), after));
      }
    } else if tag.field == 2 || tag.field == 3 || tag.field == 8 {
      if tag.wireType != WIRE_VARINT {
        return Err(WrongWireType);
      }
      var num := ConsumeVarint(buf, pos);
      if num.Err? {
        return Err(num.error);
      }
      var (n, after) := num.value;
      return Ok((if tag.field == 2 then BoolValue(n != 0)
                 else if tag.field == 3 then IntValue(I64(n)) else StrindexValue(I32(n)), after));
    } else if tag.field == 4 {
      if tag.wireType != WIRE_I64 {
        return Err(WrongWireType);
      }
      var num := ConsumeFixed(buf, pos, 8);
      return if num.Err? then Err(num.error) else Ok((DoubleValue(Bits(num.value.0)), num.value.1));
    } else {
      var skip := ConsumeUnknown(buf, pos, tag.wireType);
      return if skip.Err? then Err(skip.error) else Ok((orig, skip.value.1));
    }
  }

  /** AnyValue.unmarshalProto. */
  method UnmarshalAny(buf: seq<byte>, depth: nat, orig0: AnyValue) returns (r: Result<AnyValue>)
    ensures r == DecodeAny(buf, depth, orig0)
    decreases |buf|, 1
  {
    hide AnyField;
    if depth >= RECURSION_LIMIT {
      return Err(RecursionDepth);
    }
    var orig, pos := orig0, 0;
    while pos < |buf|
      invariant 0 <= pos <= |buf|
      invariant AnyFields(buf, depth + 1, orig0) == AnyFields(buf[pos..], depth + 1, orig)
      decreases |buf| - pos
    {
      var f := UnmarshalAnyField(buf, pos, depth + 1, orig);
      if f.Err? {
        return Err(f.error);
      }
      orig, pos := f.value.0, f.value.1;
    }
    return Ok(orig);
  }

  /** ArrayValue.unmarshalProto appends one element per record to what is there. */
  method UnmarshalArray(buf: seq<byte>, depth: nat, orig0: seq<AnyValue>) returns (r: Result<seq<AnyValue>>)
    ensures r == DecodeArray(buf, depth, orig0)
    decreases |buf|, 2
  {
    hide TakeTag, TakeLen, SkipField, DecodeAny;
    if depth >= RECURSION_LIMIT {
      return Err(RecursionDepth);
    }
    var values, pos := orig0, 0;
    while pos < |buf|
      invariant 0 <= pos <= |buf|
      invariant ArrayFields(buf, depth + 1, orig0) == ArrayFields(buf[pos..], depth + 1, values)
      decreases |buf| - pos
    {
      var t := ConsumeTag(buf, pos);
      if t.Err? {
        return Err(t.error);
      }
      var tag := t.value.0;
      if tag.field == 1 {
        if tag.wireType != WIRE_LEN {
          return Err(WrongWireType);
        }
        var len := ConsumeLen(buf, t.value.1);
        if len.Err? {
          return Err(len.error);
        }
        var (length, after) := len.value;
        var v := UnmarshalAny(buf[after - length..after], depth + 1, Unset);
        if v.Err? {
          return Err(v.error);
        }
        values := values + [v.value];
        pos := after;
      } else {
        var skip := ConsumeUnknown(buf, t.value.1, tag.wireType);
        if skip.Err? {
          return Err(skip.error);
        }
        pos := skip.value.1;
      }
    }
    return Ok(values);
  }

  method UnmarshalKvlist(buf: seq<byte>, depth: nat, orig0: seq<KeyValue>) returns (r: Result<seq<KeyValue>>)
    ensures r == DecodeKvlist(buf, depth, orig0)
    decreases |buf|, 2
  {
    hide TakeTag, TakeLen, SkipField, DecodeKeyValue;
    if depth >= RECURSION_LIMIT {
      return Err(RecursionDepth);
    }
    var values, pos := orig0, 0;
    while pos < |buf|
      invariant 0 <= pos <= |buf|
      invariant KvlistFields(buf, depth + 1, orig0) == KvlistFields(buf[pos..], depth + 1, values)
      decreases |buf| - pos
    {
      var t := ConsumeTag(buf, pos);
      if t.Err? {
        return Err(t.error);
      }
      var tag := t.value.0;
      if tag.field == 1 {
        if tag.wireType != WIRE_LEN {
          return Err(WrongWireType);
        }
        var len := ConsumeLen(buf, t.value.1);
        if len.Err? {
          return Err(len.error);
        }
        var (length, after) := len.value;
        var e := UnmarshalKeyValue(buf[after - length..after], depth + 1, KeyValue([], Unset, 0));
        if e.Err? {
          return Err(e.error);
        }
        values := values + [e.value];
        pos := after;
      } else {
        var skip := ConsumeUnknown(buf, t.value.1, tag.wireType);
        if skip.Err? {
          return Err(skip.error);
        }
        pos := skip.value.1;
      }
    }
    return Ok(values);
  }

  method UnmarshalKeyValue(buf: seq<byte>, depth: nat, orig0: KeyValue) returns (r: Result<KeyValue>)
    ensures r == DecodeKeyValue(buf, depth, orig0)
    decreases |buf|, 2
  {
    hide TakeTag, TakeLen, TakeVarint, SkipField, DecodeAny;
    if depth >= RECURSION_LIMIT {
      return Err(RecursionDepth);
    }
    var orig, pos := orig0, 0;
    while pos < |buf|
      invariant 0 <= pos <= |buf|
      invariant KeyValueFields(buf, depth + 1, orig0) == KeyValueFields(buf[pos..], depth + 1, orig)
      decreases |buf| - pos
    {
      var t := ConsumeTag(buf, pos);
      if t.Err? {
        return Err(t.error);
      }
      var tag := t.value.0;
      if tag.field == 1 || tag.field == 2 {
        if tag.wireType != WIRE_LEN {
          return Err(WrongWireType);
        }
        var len := ConsumeLen(buf, t.value.1);
        if len.Err? {
          return Err(len.error);
        }
        var (length, after) := len.value;
        if tag.field == 1 {
          orig := orig.(key := buf[after - length..after]);
        } else {
          var v := UnmarshalAny(buf[after - length..after], depth + 1, orig.value);
          if v.Err? {
            return Err(v.error);
          }
          orig := orig.(value := v.value);
        }
        pos := after;
      } else if tag.field == 3 {
        if tag.wireType != WIRE_VARINT {
          return Err(WrongWireType);
        }
        var num := ConsumeVarint(buf, t.value.1);
        if num.Err? {
          return Err(num.error);
        }
        orig := orig.(keyStrindex := I32(num.value.0));
        pos := num.value.1;
      } else {
        var skip := ConsumeUnknown(buf, t.value.1, tag.wireType);
        if skip.Err? {
          return Err(skip.error);
        }
        pos := skip.value.1;
      }
    }
    return Ok(orig);
  }

  /**
   Marshal into the end of any buffer that is large enough and unmarshal what was
   written: the prefix is untouched and the values come back, appended to `orig` and with
   nil pointers as unset values; unless they are nested too deeply.
   */
  method MarshalThenUnmarshal(a: ArrayValue, orig: ArrayValue, buf: array<byte>) returns (r: Result<seq<AnyValue>>)
    requires SizeArray(a.values) <= buf.Length < TWO63
    modifies buf
    ensures var n := buf.Length - SizeArray(a.values); buf[..n] == old(buf[..n])
    ensures r == if 1 + LevelsArray(a.values) <= RECURSION_LIMIT then Ok(orig.values + NormalArray(a.values))
                 else Err(RecursionDepth)
    ensures NormalArray(a.values) == a.values <==> NoNullArray(a.values)
  {
    hide EncodeArray, DecodeArray, SizeArray, LevelsArray, NoNullArray, NormalArray;
    var n := MarshalArray(a.values, buf, buf.Length);
    assert buf[buf.Length - n..] == EncodeArray(a.values);
    r := UnmarshalArray(buf[buf.Length - n..], 0, orig.values);
    ArrayValueRoundTrip(a, orig, 0);
  }
}
