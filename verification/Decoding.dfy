/**
 Laws of the decoder on bytes that need not come from the encoder: decoding is
 incremental, and unknown fields are passed over, except that unknown groups are passed
 over only in one case.
 */
module Decoding {
  import opened Common
  import opened Wire
  import opened Messages

  // ------------------------------------------------- what is read does not depend on what follows

  lemma {:induction false} GroupsExtend(s: seq<byte>, t: seq<byte>, left: nat)
    requires TakeGroups(s, left).Got?
    ensures TakeGroups(s + t, left) == Got(TakeGroups(s, left).value, TakeGroups(s, left).rest + t)
    decreases left
  {
    assert (s + t)[0] == s[0] && (s + t)[1..] == s[1..] + t;
    if s[0] >= 0x80 {
      GroupsExtend(s[1..], t, left - 1);
    }
  }

  lemma VarintExtends(s: seq<byte>, t: seq<byte>)
    requires TakeVarint(s).Got?
    ensures TakeVarint(s + t) == Got(TakeVarint(s).value, TakeVarint(s).rest + t)
  {
    hide TakeGroups;
    GroupsExtend(s, t, 10);
  }

  lemma TagExtends(s: seq<byte>, t: seq<byte>)
    requires TakeTag(s).Got?
    ensures TakeTag(s + t) == Got(TakeTag(s).value, TakeTag(s).rest + t)
  {
    hide TakeVarint, I32;
    VarintExtends(s, t);
  }

  lemma LenExtends(s: seq<byte>, t: seq<byte>)
    requires TakeLen(s).Got?
    ensures TakeLen(s + t) == Got(TakeLen(s).value, TakeLen(s).rest + t)
  {
    hide TakeVarint, I64;
    VarintExtends(s, t);
    var rest, n := TakeVarint(s).rest, I64(TakeVarint(s).value);
    assert (rest + t)[..n] == rest[..n] && (rest + t)[n..] == rest[n..] + t;
  }

  lemma FixedExtends(s: seq<byte>, t: seq<byte>, n: nat)
    requires TakeFixed(s, n).Got?
    ensures TakeFixed(s + t, n) == Got(TakeFixed(s, n).value, TakeFixed(s, n).rest + t)
  {
    assert (s + t)[..n] == s[..n] && (s + t)[n..] == s[n..] + t;
  }

  lemma {:induction false} SkipExtends(s: seq<byte>, t: seq<byte>, wireType: nat, depth: nat)
    requires SkipField(s, wireType, depth).Got?
    ensures SkipField(s + t, wireType, depth) == Got((), SkipField(s, wireType, depth).rest + t)
    decreases |s|, 1
  {
    hide TakeVarint, TakeLen, TakeFixed, TakeTag;
    if wireType == WIRE_VARINT {
      VarintExtends(s, t);
    } else if wireType == WIRE_I64 {
      FixedExtends(s, t, 8);
    } else if wireType == WIRE_LEN {
      LenExtends(s, t);
    } else if wireType == WIRE_I32 {
      FixedExtends(s, t, 4);
    } else if wireType == WIRE_START_GROUP {
      GroupExtends(s, t, depth + 1);
    } else {
      GroupExtends(s, t, depth - 1);
    }
  }

  lemma {:induction false} GroupExtends(s: seq<byte>, t: seq<byte>, depth: nat)
    requires SkipInGroup(s, depth).Got?
    ensures SkipInGroup(s + t, depth) == Got((), SkipInGroup(s, depth).rest + t)
    decreases |s|, 0
  {
    hide TakeTag;
    if depth > 0 {
      TagExtends(s, t);
      SkipExtends(TakeTag(s).rest, t, TakeTag(s).value.wireType, depth);
    }
  }

  lemma ArrayFieldExtends(s: seq<byte>, t: seq<byte>, d: nat, orig: seq<AnyValue>)
    requires ArrayField(s, d, orig).Got?
    ensures ArrayField(s + t, d, orig) == Got(ArrayField(s, d, orig).value, ArrayField(s, d, orig).rest + t)
  {
    hide TakeTag, TakeLen, SkipField, DecodeAny;
    TagExtends(s, t);
    var tag, rest := TakeTag(s).value, TakeTag(s).rest;
    if tag.field == 1 {
      LenExtends(rest, t);
    } else {
      SkipExtends(rest, t, tag.wireType, 0);
    }
  }

  lemma {:induction false} ArrayFieldsIncremental(s: seq<byte>, t: seq<byte>, d: nat, orig: seq<AnyValue>)
    requires ArrayFields(s, d, orig).Ok?
    ensures ArrayFields(s + t, d, orig) == ArrayFields(t, d, ArrayFields(s, d, orig).value)
    decreases |s|
  {
    hide ArrayField;
    if s == [] {
      assert s + t == t;
    } else {
      ArrayFieldExtends(s, t, d, orig);
      var p := ArrayField(s, d, orig);
      ArrayFieldsIncremental(p.rest, t, d, p.value);
    }
  }

  /**
   Decoding is incremental on all bytes: if the first part decodes, decoding both parts
   is decoding the second one onto the result of the first.
   */
  lemma DecodingIsIncremental(s: seq<byte>, t: seq<byte>, depth: nat, orig: seq<AnyValue>)
    requires DecodeArray(s, depth, orig).Ok?
    ensures DecodeArray(s + t, depth, orig) == DecodeArray(t, depth, DecodeArray(s, depth, orig).value)
  {
    ArrayFieldsIncremental(s, t, depth + 1, orig);
  }

  // ------------------------------------------------------------ unknown fields

  /** A message as the wire format sees it: scalar fields and the two ends of groups. */
  datatype Token =
    | VarintField(num: nat, value: uint64)
    | FixedField(num: nat, wide: bool, bytes: seq<byte>)
    | LenField(num: nat, payload: seq<byte>)
    | StartGroup(num: nat)
    | EndGroup(num: nat)
  {
    predicate Valid() {
      && 1 <= num < 0x2000_0000
      && (FixedField? ==> |bytes| == if wide then 8 else 4)
      && (LenField? ==> |payload| < TWO63)
    }

    predicate Scalar() {
      VarintField? || FixedField? || LenField?
    }

    function WireType(): nat {
      match this
      case VarintField(_, _) => WIRE_VARINT
      case FixedField(_, wide, _) => if wide then WIRE_I64 else WIRE_I32
      case LenField(_, _) => WIRE_LEN
      case StartGroup(_) => WIRE_START_GROUP
      case EndGroup(_) => WIRE_END_GROUP
    }

    function Body(): seq<byte> {
      match this
      case VarintField(_, v) => Varint(v)
      case FixedField(_, _, bytes) => bytes
      case LenField(_, payload) => Varint(|payload|) + payload
      case _ => []
    }

    function Bytes(): seq<byte> {
      Varint(num * 8 + WireType()) + Body()
    }
  }

  function TokenBytes(ts: seq<Token>): seq<byte> {
    if ts == [] then [] else ts[0].Bytes() + TokenBytes(ts[1..])
  }

  predicate ValidTokens(ts: seq<Token>) {
    forall k :: 0 <= k < |ts| ==> ts[k].Valid()
  }

  lemma TokenTag(k: Token, rest: seq<byte>)
    requires k.Valid()
    ensures TakeTag(k.Bytes() + rest) == Got(Tag(k.num, k.WireType()), k.Body() + rest)
    ensures k.Bytes() + rest != []
  {
    hide Varint, TakeVarint;
    var tag := k.num * 8 + k.WireType();
    assert k.Bytes() + rest == Varint(tag) + (k.Body() + rest);
    VarintRoundTrip(tag, k.Body() + rest);
    assert tag / 8 == k.num && tag % 8 == k.WireType();
  }

  /** A scalar field is passed over whole, inside a group or outside. */
  lemma SkipScalar(k: Token, rest: seq<byte>, depth: nat)
    requires k.Valid() && k.Scalar()
    ensures SkipField(k.Body() + rest, k.WireType(), depth) == Got((), rest)
  {
    hide Varint, TakeVarint, TakeLen;
    match k {
      case VarintField(_, v) => VarintRoundTrip(v, rest);
      case FixedField(_, _, bytes) =>
        assert (bytes + rest)[|bytes|..] == rest;
      case LenField(_, payload) => RecordRoundTrip(payload, rest);
    }
  }

  /** Reading on from inside `open` groups, the tokens close all of them. */
  predicate Closes(ts: seq<Token>, open: nat)
    requires open > 0
  {
    if ts == [] then false
    else if ts[0].StartGroup? then Closes(ts[1..], open + 1)
    else if ts[0].EndGroup? then open == 1 || Closes(ts[1..], open - 1)
    else Closes(ts[1..], open)
  }

  lemma {:induction false} ClosesFewer(ts: seq<Token>, open: nat, fewer: nat)
    requires 0 < fewer <= open && Closes(ts, open)
    ensures Closes(ts, fewer)
  {
    if ts[0].StartGroup? {
      ClosesFewer(ts[1..], open + 1, fewer + 1);
    } else if ts[0].EndGroup? {
      if fewer > 1 {
        ClosesFewer(ts[1..], open - 1, fewer - 1);
      }
    } else {
      ClosesFewer(ts[1..], open, fewer);
    }
  }

  lemma FirstToken(ts: seq<Token>, rest: seq<byte>)
    requires ts != []
    ensures TokenBytes(ts) + rest == ts[0].Bytes() + (TokenBytes(ts[1..]) + rest)
  {
    hide Token.Bytes;
  }

  /** Inside a group a scalar ends the skipping, and the ends of groups move it in or out. */
  lemma SkipToken(k: Token, more: seq<byte>, depth: nat)
    requires k.Valid() && depth > 0
    ensures var p := SkipInGroup(k.Bytes() + more, depth);
            if k.Scalar() then p == Got((), more)
            else if more == [] then p.Bad?
            else p == SkipInGroup(more, if k.StartGroup? then depth + 1 else depth - 1)
    ensures SkipInGroup(more, 0) == Got((), more)
  {
    hide TakeTag, TakeVarint, TakeLen, TakeFixed, Varint, Token.Bytes;
    TokenTag(k, more);
    if k.Scalar() {
      SkipScalar(k, more, depth);
    } else {
      assert k.Body() + more == more;
    }
  }

  /** Inside groups that the tokens close, skipping fails or stops where one end too many follows. */
  lemma {:induction false} SkipStopsEarly(ts: seq<Token>, rest: seq<byte>, depth: nat) returns (n: nat)
    requires ValidTokens(ts) && depth > 0 && Closes(ts, depth + 1)
    ensures n <= |ts| && (SkipInGroup(TokenBytes(ts) + rest, depth).Got? ==>
              && n > 0 && Closes(ts[n..], 1)
              && SkipInGroup(TokenBytes(ts) + rest, depth) == Got((), TokenBytes(ts[n..]) + rest))
    decreases |ts|
  {
    hide SkipInGroup, TokenBytes, Token.Bytes;
    var k, more := ts[0], TokenBytes(ts[1..]) + rest;
    FirstToken(ts, rest);
    SkipToken(k, more, depth);
    if k.Scalar() {
      ClosesFewer(ts[1..], depth + 1, 1);
      n := 1;
    } else if k.EndGroup? && depth == 1 {
      n := 1;
    } else {
      var n' := SkipStopsEarly(ts[1..], rest, if k.StartGroup? then depth + 1 else depth - 1);
      assert ts[1..][n'..] == ts[n' + 1..];
      n := n' + 1;
    }
  }

  /** An element of the list is decoded, or the whole is an error. */
  lemma ElementToken(k: Token, more: seq<byte>, d: nat, orig: seq<AnyValue>)
    requires k.Valid() && k.num == 1
    ensures ArrayFields(k.Bytes() + more, d, orig)
         == if !k.LenField? then Err(WrongWireType) else
            var r := DecodeAny(k.payload, d, Unset);
            if r.Err? then Err(r.error) else ArrayFields(more, d, orig + [r.value])
  {
    hide TakeTag, TakeLen, Varint, DecodeAny, Token.Bytes;
    TokenTag(k, more);
    if k.LenField? {
      RecordRoundTrip(k.payload, more);
    }
  }

  /** A message with one end of a group too many is rejected. */
  lemma {:induction false} ExtraEndFails(ts: seq<Token>, rest: seq<byte>, d: nat, orig: seq<AnyValue>)
    requires ValidTokens(ts) && Closes(ts, 1)
    ensures ArrayFields(TokenBytes(ts) + rest, d, orig).Err?
    decreases |ts|
  {
    hide ArrayFields, DecodeAny, SkipInGroup, TokenBytes, Token.Bytes;
    var k, more := ts[0], TokenBytes(ts[1..]) + rest;
    FirstToken(ts, rest);
    if k.num == 1 {
      ElementToken(k, more, d, orig);
      if k.LenField? {
        var v := DecodeAny(k.payload, d, Unset);
        if v.Ok? {
          ExtraEndFails(ts[1..], rest, d, orig + [v.value]);
        }
      }
    } else if k.Scalar() {
      UnknownScalarPassedOver(k, more, d, orig);
      ExtraEndFails(ts[1..], rest, d, orig);
    } else if k.EndGroup? {
      ArrayToken(k, more, d, orig);
    } else {
      TokensNotEmpty(ts[1..], rest);
      UnknownStart(k.num, more, d, orig);
      var n := SkipStopsEarly(ts[1..], rest, 1);
      if SkipInGroup(more, 1).Got? {
        assert ts[1..][n..] == ts[n + 1..];
        ExtraEndFails(ts[n + 1..], rest, d, orig);
      }
    }
  }

  /** The tokens are groups within groups that close exactly at their end. */
  predicate Balanced(ts: seq<Token>, open: nat)
    requires open > 0
  {
    if ts == [] then false
    else if ts[0].StartGroup? then Balanced(ts[1..], open + 1)
    else if ts[0].EndGroup? then if open == 1 then |ts| == 1 else Balanced(ts[1..], open - 1)
    else Balanced(ts[1..], open)
  }

  predicate HasScalar(ts: seq<Token>) {
    exists k :: 0 <= k < |ts| && ts[k].Scalar()
  }

  /** What skipping makes of the rest of a group, from inside `depth` groups. */
  lemma {:induction false} SkipGroup(ts: seq<Token>, rest: seq<byte>, depth: nat) returns (n: nat)
    requires ValidTokens(ts) && depth > 0 && Balanced(ts, depth)
    ensures !HasScalar(ts) ==>
              SkipInGroup(TokenBytes(ts) + rest, depth) == if rest == [] then Bad(UnexpectedEOF) else Got((), rest)
    ensures HasScalar(ts) ==>
              && n <= |ts| && Closes(ts[n..], 1)
              && SkipInGroup(TokenBytes(ts) + rest, depth) == Got((), TokenBytes(ts[n..]) + rest)
    decreases |ts|
  {
    hide TakeTag, TakeVarint, TakeLen, TakeFixed, Varint;
    var k, more := ts[0], TokenBytes(ts[1..]) + rest;
    assert TokenBytes(ts) + rest == k.Bytes() + more;
    TokenTag(k, more);
    if k.Scalar() {
      SkipScalar(k, more, depth);
      BalancedCloses(ts[1..], depth);
      ClosesFewer(ts[1..], depth, 1);
      n := 1;
    } else {
      assert k.Body() + more == more;
      assert HasScalar(ts) <==> HasScalar(ts[1..]);
      if k.EndGroup? && depth == 1 {
        assert more == rest;
        n := 0;
      } else {
        assert ts[1].Bytes() + (TokenBytes(ts[2..]) + rest) == more by {
          assert ts[1..][1..] == ts[2..];
        }
        TokenTag(ts[1], TokenBytes(ts[2..]) + rest);
        var n' := SkipGroup(ts[1..], rest, if k.StartGroup? then depth + 1 else depth - 1);
        n := n' + 1;
        if HasScalar(ts) {
          assert ts[1..][n'..] == ts[n..];
        }
      }
    }
  }

  lemma {:induction false} BalancedCloses(ts: seq<Token>, open: nat)
    requires open > 0 && Balanced(ts, open)
    ensures Closes(ts, open)
  {
    if ts[0].StartGroup? {
      BalancedCloses(ts[1..], open + 1);
    } else if ts[0].EndGroup? {
      if open > 1 {
        BalancedCloses(ts[1..], open - 1);
      }
    } else {
      BalancedCloses(ts[1..], open);
    }
  }

  /** Unknown scalar fields may stand anywhere in a message. */
  lemma UnknownScalarPassedOver(k: Token, rest: seq<byte>, d: nat, orig: seq<AnyValue>)
    requires k.Valid() && k.Scalar() && k.num != 1
    ensures ArrayFields(k.Bytes() + rest, d, orig) == ArrayFields(rest, d, orig)
  {
    hide TakeTag, SkipField, TakeLen;
    TokenTag(k, rest);
    SkipScalar(k, rest, 0);
  }

  lemma UnknownStart(num: nat, more: seq<byte>, d: nat, orig: seq<AnyValue>)
    requires 1 < num < 0x2000_0000 && more != []
    ensures ArrayFields(StartGroup(num).Bytes() + more, d, orig) ==
            var p := SkipInGroup(more, 1); if p.Bad? then Err(p.error) else ArrayFields(p.rest, d, orig)
  {
    hide TakeTag, TakeLen, SkipInGroup, Varint, DecodeAny;
    TokenTag(StartGroup(num), more);
    assert StartGroup(num).Body() + more == more;
  }

  /**
   An unknown group, of content `ts` with its end, in front of bytes that decode: the
   decoder goes on behind the group exactly when the group holds nothing but groups and
   something follows it. In every other case it reports an error.
   */
  lemma UnknownGroupPassedOverIff(num: nat, ts: seq<Token>, rest: seq<byte>, d: nat, orig: seq<AnyValue>)
    requires 1 < num < 0x2000_0000 && ValidTokens(ts) && Balanced(ts, 1)
    requires ArrayFields(rest, d, orig).Ok?
    ensures var s := StartGroup(num).Bytes() + (TokenBytes(ts) + rest);
            var skipped := !HasScalar(ts) && rest != [];
            && (skipped ==> ArrayFields(s, d, orig) == ArrayFields(rest, d, orig))
            && (!skipped ==> ArrayFields(s, d, orig).Err?)
  {
    assert ts != [];
    hide ArrayFields, SkipInGroup, HasScalar, Closes, TokenBytes, Token.Bytes, Balanced, ValidTokens, Varint, TakeTag;
    TokensNotEmpty(ts, rest);
    UnknownStart(num, TokenBytes(ts) + rest, d, orig);
    var n := SkipGroup(ts, rest, 1);
    if HasScalar(ts) {
      ValidSuffix(ts, n);
      ExtraEndFails(ts[n..], rest, d, orig);
    }
  }

  lemma ValidSuffix(ts: seq<Token>, n: nat)
    requires ValidTokens(ts) && n <= |ts|
    ensures ValidTokens(ts[n..])
  {
  }

  lemma TokensNotEmpty(ts: seq<Token>, rest: seq<byte>)
    requires ValidTokens(ts) && ts != []
    ensures TokenBytes(ts) + rest != []
  {
    hide Varint, TakeTag;
    var more := TokenBytes(ts[1..]) + rest;
    TokenTag(ts[0], more);
    assert TokenBytes(ts) + rest == ts[0].Bytes() + more;
  }

  /** The smallest such message: an unknown group with one varint in it. */
  lemma UnknownGroupRejected()
    ensures DecodeArray([0x13, 0x08, 0x00, 0x14], 0, []).Err?
  {
    var ts := [VarintField(1, 0), EndGroup(2)];
    assert ts[1..] == [EndGroup(2)];
    assert ts[1..][1..] == [];
    assert TokenBytes([]) == [];
    assert TokenBytes(ts[1..]) == [0x14] + [] + [] by { assert Varint(20) == [20]; }
    assert TokenBytes(ts) == [0x08, 0x00, 0x14] by {
      assert Varint(8) == [8] && Varint(0) == [0];
    }
    assert StartGroup(2).Bytes() == [0x13] by { assert Varint(19) == [19]; }
    assert [0x13] + (TokenBytes(ts) + []) == [0x13, 0x08, 0x00, 0x14];
    assert ts[0].Scalar();
    assert Balanced(ts, 1);
    UnknownGroupPassedOverIff(2, ts, [], 1, []);
  }

  // ------------------------------------------- one field, in each of the four messages

  /** A field of a list: its elements must be messages, and other scalar fields are passed over. */
  lemma ArrayToken(k: Token, rest: seq<byte>, d: nat, orig: seq<AnyValue>)
    requires k.Valid()
    ensures k.num == 1 && !k.LenField? ==> ArrayFields(k.Bytes() + rest, d, orig) == Err(WrongWireType)
    ensures k.num != 1 && k.EndGroup? ==> ArrayFields(k.Bytes() + rest, d, orig).Err?
  {
    hide TakeTag, TakeLen, Varint, DecodeAny;
    TokenTag(k, rest);
  }

  lemma KvlistToken(k: Token, rest: seq<byte>, d: nat, orig: seq<KeyValue>)
    requires k.Valid()
    ensures k.num == 1 && !k.LenField? ==> KvlistFields(k.Bytes() + rest, d, orig) == Err(WrongWireType)
    ensures k.num != 1 && k.Scalar() ==> KvlistFields(k.Bytes() + rest, d, orig) == KvlistFields(rest, d, orig)
    ensures k.num != 1 && k.EndGroup? ==> KvlistFields(k.Bytes() + rest, d, orig).Err?
  {
    hide TakeTag, TakeLen, Varint, DecodeKeyValue;
    TokenTag(k, rest);
    if k.Scalar() {
      SkipScalar(k, rest, 0);
    }
  }

  /** A field of a pair sets the key, goes onto the value, or sets the index of the key. */
  lemma KeyValueToken(k: Token, rest: seq<byte>, d: nat, orig: KeyValue)
    requires k.Valid()
    ensures (k.num <= 2 && !k.LenField?) || (k.num == 3 && !k.VarintField?) ==>
              KeyValueFields(k.Bytes() + rest, d, orig) == Err(WrongWireType)
    ensures k.num == 1 && k.LenField? ==>
              KeyValueFields(k.Bytes() + rest, d, orig) == KeyValueFields(rest, d, orig.(key := k.payload))
    ensures k.num == 3 && k.VarintField? ==>
              KeyValueFields(k.Bytes() + rest, d, orig) == KeyValueFields(rest, d, orig.(keyStrindex := I32(k.value)))
    ensures k.num > 3 && k.Scalar() ==> KeyValueFields(k.Bytes() + rest, d, orig) == KeyValueFields(rest, d, orig)
    ensures k.num > 3 && k.EndGroup? ==> KeyValueFields(k.Bytes() + rest, d, orig).Err?
  {
    hide TakeTag, TakeLen, TakeVarint, Varint, DecodeAny;
    TokenTag(k, rest);
    TokenBody(k, rest);
    if k.Scalar() {
      SkipScalar(k, rest, 0);
    }
  }

  lemma TokenBody(k: Token, rest: seq<byte>)
    requires k.Valid()
    ensures k.VarintField? ==> TakeVarint(k.Body() + rest) == Got(k.value, rest)
    ensures k.LenField? ==> TakeLen(k.Body() + rest) == Got(k.payload, rest)
    ensures k.FixedField? ==> TakeFixed(k.Body() + rest, |k.bytes|) == Got(k.bytes, rest)
  {
    hide Varint, TakeVarint, TakeLen;
    match k {
      case VarintField(_, v) => VarintRoundTrip(v, rest);
      case FixedField(_, _, bytes) => assert (bytes + rest)[..|bytes|] == bytes && (bytes + rest)[|bytes|..] == rest;
      case LenField(_, payload) => RecordRoundTrip(payload, rest);
      case _ =>
    }
  }

  /** The wire type of each field of a value. */
  predicate AnyTyped(k: Token) {
    match k.num
    case 2 => k.VarintField?
    case 3 => k.VarintField?
    case 4 => k.FixedField? && k.wide
    case 8 => k.VarintField?
    case _ => k.LenField?
  }

  /** What a field of a value that is not a message says. */
  function AnyOf(k: Token): AnyValue
    requires k.Valid() && k.num in {1, 2, 3, 4, 7, 8} && AnyTyped(k)
  {
    match k.num
    case 1 => StringValue(k.payload)
    case 2 => BoolValue(k.value != 0)
    case 3 => IntValue(I64(k.value))
    case 4 => DoubleValue(Bits(k.bytes))
    case 7 => BytesValue(k.payload)
    case _ => StrindexValue(I32(k.value))
  }

  /** A known field of a value replaces whatever was there before; unknown ones are passed over. */
  lemma AnyToken(k: Token, rest: seq<byte>, d: nat, orig: AnyValue)
    requires k.Valid()
    ensures k.num <= 8 && !AnyTyped(k) ==> AnyFields(k.Bytes() + rest, d, orig) == Err(WrongWireType)
    ensures k.num in {1, 2, 3, 4, 7, 8} && AnyTyped(k) ==>
              AnyFields(k.Bytes() + rest, d, orig) == AnyFields(rest, d, AnyOf(k))
    ensures k.num > 8 && k.Scalar() ==> AnyFields(k.Bytes() + rest, d, orig) == AnyFields(rest, d, orig)
    ensures k.num > 8 && k.EndGroup? ==> AnyFields(k.Bytes() + rest, d, orig).Err?
  {
    hide TakeTag, TakeLen, TakeVarint, TakeFixed, Varint, DecodeArray, DecodeKvlist;
    TokenTag(k, rest);
    TokenBody(k, rest);
    if k.Scalar() {
      SkipScalar(k, rest, 0);
    }
  }
}
