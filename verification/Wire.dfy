/**
 The Protocol Buffers wire format (pdata/internal/proto): base 128 varints, tags,
 length-delimited records and the skipping of unknown fields. The functions read from
 the front of a byte sequence; the methods are the loops over a buffer and a position.
 */
module Wire {
  import opened Common

  type byte = x: int | 0 <= x < 0x100
  type int64 = x: int | -TWO63 <= x < TWO63
  type int32 = x: int | -0x8000_0000 <= x < 0x8000_0000

  function U64(i: int64): uint64 {
    if i < 0 then i + TWO64 else i
  }

  function I64(u: uint64): int64 {
    if u >= TWO63 then u - TWO64 else u
  }

  /** Conversion to int32 keeps the low 32 bits. */
  function I32(u: uint64): int32 {
    var low := u % 0x1_0000_0000;
    if low >= 0x8000_0000 then low - 0x1_0000_0000 else low
  }

  lemma ConversionsInvert(i: int64, j: int32)
    ensures I64(U64(i)) == i
    ensures I32(U64(j)) == j
  {
  }

  datatype Error =
    | UnexpectedEOF | IntOverflow | InvalidLength | RecursionDepth
    | UnexpectedEndOfGroup | IllegalWireType | IllegalField | WrongWireType

  datatype Result<+T> = Err(error: Error) | Ok(value: T)

  /** A value read from the front of a sequence, with what follows it. */
  datatype Parsed<+T> = Bad(error: Error) | Got(value: T, rest: seq<byte>)

  // ---------------------------------------------------------------- varints

  /** The base 128 encoding, least significant group first. */
  function Varint(v: nat): (r: seq<byte>)
    ensures r != []
  {
    if v < 0x80 then [v] else [v % 0x80 + 0x80] + Varint(v / 0x80)
  }

  lemma VarintSteps(v: nat)
    ensures v < 0x80 ==> Varint(v) == [v]
    ensures v >= 0x80 ==> Varint(v) == [v % 0x80 + 0x80] + Varint(v / 0x80)
  {
  }

  /** bits.Len64. */
  function BitLen(x: nat): nat {
    if x == 0 then 0 else 1 + BitLen(x / 2)
  }

  /** Sov: the size of a varint from the number of bits of x|1. */
  function Sov(x: nat): nat {
    (BitLen(if x % 2 == 0 then x + 1 else x) + 6) / 7
  }

  lemma BitLen128(x: nat)
    requires x >= 0x80
    ensures BitLen(x) == 7 + BitLen(x / 0x80)
  {
    hide BitLen;
    BitLenHalf(x);
    BitLenHalf(x / 2);
    BitLenHalf(x / 4);
    BitLenHalf(x / 8);
    BitLenHalf(x / 16);
    BitLenHalf(x / 32);
    BitLenHalf(x / 64);
  }

  lemma BitLenHalf(x: nat)
    requires x > 0
    ensures BitLen(x) == 1 + BitLen(x / 2)
  {
  }

  lemma {:induction false} BitLenBound(x: nat, n: nat)
    requires x < Pow2(n)
    ensures BitLen(x) <= n
    decreases n
  {
    if x > 0 {
      BitLenBound(x / 2, n - 1);
    }
  }

  /** Setting the lowest bit of a positive number does not make it longer. */
  lemma BitLenOdd(x: nat)
    requires x > 0
    ensures BitLen(if x % 2 == 0 then x + 1 else x) == BitLen(x)
  {
    assert (x + 1) / 2 == x / 2 || x % 2 == 1;
  }

  lemma BitLenPositive(x: nat)
    requires x > 0
    ensures BitLen(x) > 0
  {
  }

  /** The size computed from the bit length is the length of the encoding. */
  lemma {:induction false} SovIsLength(v: nat)
    ensures |Varint(v)| == Sov(v)
  {
    hide BitLen;
    var w := if v % 2 == 0 then v + 1 else v;
    if v < 0x80 {
      assert Pow2(7) == 0x80;
      BitLenBound(w, 7);
      BitLenPositive(w);
    } else {
      SovIsLength(v / 0x80);
      BitLen128(w);
      assert w / 0x80 == v / 0x80;
      BitLenOdd(v / 0x80);
    }
  }

  /** At most `left` groups; the value is not yet cut to 64 bits. */
  function TakeGroups(s: seq<byte>, left: nat): (p: Parsed<nat>)
    ensures p.Got? ==> |p.rest| < |s|
    decreases left
  {
    if left == 0 then Bad(IntOverflow)
    else if s == [] then Bad(UnexpectedEOF)
    else if s[0] < 0x80 then Got(s[0], s[1..])
    else
      match TakeGroups(s[1..], left - 1)
      case Bad(e) => Bad(e)
      case Got(v, rest) => Got(s[0] - 0x80 + 0x80 * v, rest)
  }

  function TakeVarint(s: seq<byte>): (p: Parsed<uint64>)
    ensures p.Got? ==> |p.rest| < |s|
  {
    match TakeGroups(s, 10)
    case Bad(e) => Bad(e)
    case Got(v, rest) => Got(v % TWO64, rest)
  }

  lemma {:induction false} VarintGroups(v: nat, rest: seq<byte>, left: nat)
    requires |Varint(v)| <= left
    ensures TakeGroups(Varint(v) + rest, left) == Got(v, rest)
    decreases v
  {
    var s := Varint(v) + rest;
    if v < 0x80 {
      assert s[1..] == rest;
    } else {
      assert s[1..] == Varint(v / 0x80) + rest;
      VarintGroups(v / 0x80, rest, left - 1);
    }
  }

  function Pow128(n: nat): nat {
    if n == 0 then 1 else 0x80 * Pow128(n - 1)
  }

  lemma {:induction false} VarintBound(v: nat, n: nat)
    requires v < Pow128(n) && n > 0
    ensures |Varint(v)| <= n
    decreases n
  {
    if v >= 0x80 {
      if n > 1 {
        VarintBound(v / 0x80, n - 1);
      }
    }
  }

  lemma VarintAtMostTen(v: uint64)
    ensures |Varint(v)| <= 10
  {
    assert Pow128(10) == 0x80 * 0x80 * 0x80 * 0x80 * 0x80 * Pow128(5);
    assert Pow128(5) == 0x80 * 0x80 * 0x80 * 0x80 * 0x80;
    VarintBound(v, 10);
  }

  /** Every uint64 is read back from its encoding, whatever follows. */
  lemma VarintRoundTrip(v: uint64, rest: seq<byte>)
    ensures TakeVarint(Varint(v) + rest) == Got(v, rest)
  {
    hide Varint, TakeGroups;
    VarintAtMostTen(v);
    VarintGroups(v, rest, 10);
  }

  // ------------------------------------------------- tags, records, fixed widths

  datatype Tag = Tag(field: int, wireType: nat)

  function TakeTag(s: seq<byte>): (p: Parsed<Tag>)
    ensures p.Got? ==> |p.rest| < |s| && 0 <= p.value.wireType < 8
  {
    match TakeVarint(s)
    case Bad(e) => Bad(e)
    case Got(tag, rest) =>
      var field := I32(tag / 8);
      if field <= 0 then Bad(IllegalField) else Got(Tag(field, tag % 8), rest)
  }

  /** The number that groups of seven bits stand for, the least significant one first. */
  function Weighted(gs: seq<byte>): nat {
    if gs == [] then 0 else Weighted(gs[..|gs| - 1]) + gs[|gs| - 1] % 0x80 * Pow128(|gs| - 1)
  }

  lemma {:induction false} WeightedFirst(g: byte, gs: seq<byte>)
    ensures Weighted([g] + gs) == g % 0x80 + 0x80 * Weighted(gs)
  {
    var all := [g] + gs;
    if gs == [] {
      assert all[..0] == [] && Pow128(0) == 1;
    } else {
      var last := |gs| - 1;
      WeightedFirst(g, gs[..last]);
      assert all[..|all| - 1] == [g] + gs[..last] && all[|all| - 1] == gs[last];
      assert Pow128(last + 1) == 0x80 * Pow128(last);
      Times(gs[last] % 0x80, Pow128(last));
    }
  }

  lemma Times(x: nat, p: nat)
    ensures x * (0x80 * p) == 0x80 * (x * p)
  {
  }

  lemma {:induction false} GroupsWeighted(more: seq<byte>, last: byte, rest: seq<byte>, left: nat)
    requires |more| < left && last < 0x80 && forall i :: 0 <= i < |more| ==> more[i] >= 0x80
    ensures TakeGroups(more + [last] + rest, left) == Got(Weighted(more + [last]), rest)
    decreases |more|
  {
    var s := more + [last] + rest;
    if more == [] {
      assert s[0] == last && s[1..] == rest && more + [last] == [last] + [];
      WeightedFirst(last, []);
    } else {
      assert s[0] == more[0] && s[1..] == more[1..] + [last] + rest;
      GroupsWeighted(more[1..], last, rest, left - 1);
      assert more + [last] == [more[0]] + (more[1..] + [last]);
      WeightedFirst(more[0], more[1..] + [last]);
    }
  }

  /** Any number of up to ten groups is read, also one that the encoder does not write, and is cut to 64 bits. */
  lemma VarintOfGroups(more: seq<byte>, last: byte, rest: seq<byte>)
    requires |more| <= 9 && last < 0x80 && forall i :: 0 <= i < |more| ==> more[i] >= 0x80
    ensures TakeVarint(more + [last] + rest) == Got(Weighted(more + [last]) % 0x1_0000_0000_0000_0000, rest)
  {
    GroupsWeighted(more, last, rest, 10);
  }

  /** A number that does not end is an error: of its length from ten groups on, and of the input before. */
  lemma UnendingVarint(s: seq<byte>)
    ensures |s| >= 10 && (forall i :: 0 <= i < 10 ==> s[i] >= 0x80) ==> TakeVarint(s) == Bad(IntOverflow)
    ensures |s| < 10 && (forall i :: 0 <= i < |s| ==> s[i] >= 0x80) ==> TakeVarint(s) == Bad(UnexpectedEOF)
  {
    if |s| >= 10 && forall i :: 0 <= i < 10 ==> s[i] >= 0x80 {
      UnendingGroups(s, 10);
    }
    if |s| < 10 && forall i :: 0 <= i < |s| ==> s[i] >= 0x80 {
      UnendingGroups(s, 10);
    }
  }

  lemma {:induction false} UnendingGroups(s: seq<byte>, left: nat)
    requires forall i :: 0 <= i < |s| && i < left ==> s[i] >= 0x80
    ensures TakeGroups(s, left) == Bad(if |s| >= left then IntOverflow else UnexpectedEOF)
    decreases left
  {
    if left > 0 && s != [] {
      assert forall i :: 0 <= i < |s| - 1 && i < left - 1 ==> s[1..][i] == s[i + 1];
      UnendingGroups(s[1..], left - 1);
    }
  }

  /** A tag is a positive field number of 31 bits, and a wire type in the lowest three bits. */
  lemma TagRead(field: nat, wireType: nat, rest: seq<byte>)
    requires field < 0x1_0000_0000 && wireType < 8
    ensures TakeTag(Varint(field * 8 + wireType) + rest)
         == if 1 <= field < 0x8000_0000 then Got(Tag(field, wireType), rest) else Bad(IllegalField)
  {
    hide Varint, TakeVarint, I32;
    var tag := field * 8 + wireType;
    VarintRoundTrip(tag, rest);
    assert tag / 8 == field && tag % 8 == wireType;
    SmallI32(field);
  }

  lemma SmallI32(u: uint64)
    requires u < 0x1_0000_0000
    ensures I32(u) == if u < 0x8000_0000 then u else u - 0x1_0000_0000
  {
  }

  /** A payload must fit in what follows, and its length in a signed number. */
  lemma LengthErrors(length: uint64, rest: seq<byte>)
    ensures length >= 0x8000_0000_0000_0000 ==> TakeLen(Varint(length) + rest) == Bad(InvalidLength)
    ensures |rest| < length < 0x8000_0000_0000_0000 ==> TakeLen(Varint(length) + rest) == Bad(UnexpectedEOF)
  {
    hide Varint, TakeVarint;
    VarintRoundTrip(length, rest);
  }

  /** A length-delimited record: the payload and what follows it. */
  function TakeLen(s: seq<byte>): (p: Parsed<seq<byte>>)
    ensures p.Got? ==> |p.value| + |p.rest| < |s|
  {
    match TakeVarint(s)
    case Bad(e) => Bad(e)
    case Got(num, rest) =>
      var length := I64(num);
      if length < 0 then Bad(InvalidLength)
      else if length > |rest| then Bad(UnexpectedEOF)
      else Got(rest[..length], rest[length..])
  }

  function LittleEndian(s: seq<byte>): nat {
    if s == [] then 0 else s[0] + 0x100 * LittleEndian(s[1..])
  }

  /** The low `n` bytes of a number, least significant first. */
  function LittleEndianBytes(v: nat, n: nat): (r: seq<byte>)
    ensures |r| == n
  {
    if n == 0 then [] else [v % 0x100] + LittleEndianBytes(v / 0x100, n - 1)
  }

  function Pow256(n: nat): nat {
    if n == 0 then 1 else 0x100 * Pow256(n - 1)
  }

  lemma {:induction false} LittleEndianRoundTrip(v: nat, n: nat)
    requires v < Pow256(n)
    ensures LittleEndian(LittleEndianBytes(v, n)) == v
    decreases n
  {
    if n > 0 {
      LittleEndianRoundTrip(v / 0x100, n - 1);
    }
  }

  lemma {:induction false} LittleEndianBound(s: seq<byte>)
    ensures LittleEndian(s) < Pow256(|s|)
  {
    if s != [] {
      LittleEndianBound(s[1..]);
    }
  }

  lemma Pow256Eight()
    ensures Pow256(8) == TWO64
  {
    assert Pow256(8) == 0x100 * 0x100 * 0x100 * 0x100 * Pow256(4);
    assert Pow256(4) == 0x100 * 0x100 * 0x100 * 0x100;
  }

  function TakeFixed(s: seq<byte>, n: nat): Parsed<seq<byte>> {
    if |s| < n then Bad(UnexpectedEOF) else Got(s[..n], s[n..])
  }

  /** A length-delimited field as it stands in a message. */
  function Record(tag: byte, payload: seq<byte>): seq<byte> {
    [tag] + Varint(|payload|) + payload
  }

  lemma TakeLenOf(s: seq<byte>, length: nat, rest: seq<byte>)
    requires TakeVarint(s) == Got(length, rest) && length < TWO63 && length <= |rest|
    ensures TakeLen(s) == Got(rest[..length], rest[length..])
  {
    hide TakeVarint;
  }

  lemma Reassociated(a: seq<byte>, b: seq<byte>, c: seq<byte>)
    ensures a + b + c == a + (b + c)
  {
  }

  lemma RecordRoundTrip(payload: seq<byte>, rest: seq<byte>)
    requires |payload| < TWO63
    ensures TakeLen(Varint(|payload|) + payload + rest) == Got(payload, rest)
  {
    hide Varint, TakeVarint, TakeLen;
    var n := |payload|;
    var length, all := Varint(n), payload + rest;
    assert all[..n] == payload && all[n..] == rest;
    VarintRoundTrip(n, all);
    TakeLenOf(length + all, n, all);
    Reassociated(length, payload, rest);
  }

  /** A one-byte tag with a field number. */
  lemma ShortTag(tag: byte, rest: seq<byte>)
    requires 8 <= tag < 0x80
    ensures TakeTag([tag] + rest) == Got(Tag(tag / 8, tag % 8), rest)
  {
    hide TakeVarint;
    assert Varint(tag) == [tag];
    VarintRoundTrip(tag, rest);
  }

  // ---------------------------------------------------------- unknown fields

  const WIRE_VARINT := 0
  const WIRE_I64 := 1
  const WIRE_LEN := 2
  const WIRE_START_GROUP := 3
  const WIRE_END_GROUP := 4
  const WIRE_I32 := 5

  /** ConsumeUnknown, with `depth` open groups: what follows the field. */
  function SkipField(s: seq<byte>, wireType: nat, depth: nat): (p: Parsed<()>)
    ensures p.Got? ==> |p.rest| <= |s|
    decreases |s|
  {
    if s == [] then Bad(UnexpectedEOF)
    else if wireType == WIRE_VARINT then Dropped(TakeVarint(s))
    else if wireType == WIRE_I64 then Dropped(TakeFixed(s, 8))
    else if wireType == WIRE_LEN then Dropped(TakeLen(s))
    else if wireType == WIRE_I32 then Dropped(TakeFixed(s, 4))
    else if wireType == WIRE_START_GROUP then SkipInGroup(s, depth + 1)
    else if wireType == WIRE_END_GROUP then
      if depth == 0 then Bad(UnexpectedEndOfGroup) else SkipInGroup(s, depth - 1)
    else Bad(IllegalWireType)
  }

  function SkipInGroup(s: seq<byte>, depth: nat): (p: Parsed<()>)
    ensures p.Got? ==> |p.rest| <= |s|
    decreases |s|, 0
  {
    if depth == 0 then Got((), s)
    else
      match TakeTag(s)
      case Bad(e) => Bad(e)
      case Got(tag, rest) => SkipField(rest, tag.wireType, depth)
  }

  function Dropped<T>(p: Parsed<T>): Parsed<()> {
    match p
    case Bad(e) => Bad(e)
    case Got(_, rest) => Got((), rest)
  }

  // ------------------------------------------------------ loops over a buffer

  /** A result of the position-based code is the one read from the front of what is left. */
  predicate At<T(==)>(buf: seq<byte>, r: Result<(T, nat)>, p: Parsed<T>) {
    match p
    case Bad(e) => r == Err(e)
    case Got(v, rest) => r.Ok? && r.value.0 == v && r.value.1 <= |buf| && buf[r.value.1..] == rest
  }

  /** The bytes of a buffer from `pos` to `end` were replaced, and no others. */
  ghost predicate Wrote(before: seq<byte>, after: seq<byte>, pos: nat, end: nat, bytes: seq<byte>) {
    && pos + |bytes| == end <= |before|
    && after == before[..pos] + bytes + before[end..]
  }

  lemma WroteThenWrote(a: seq<byte>, b: seq<byte>, c: seq<byte>, lo: nat, mid: nat, hi: nat, x: seq<byte>, y: seq<byte>)
    requires (Wrote(a, b, mid, hi, y) && Wrote(b, c, lo, mid, x))
             || (Wrote(a, b, lo, mid, x) && Wrote(b, c, mid, hi, y))
    ensures Wrote(a, c, lo, hi, x + y)
  {
  }

  lemma WroteNothing(a: seq<byte>, pos: nat)
    requires pos <= |a|
    ensures Wrote(a, a, pos, pos, [])
  {
  }

  /** One byte of a buffer is set. */
  method Put(buf: array<byte>, pos: nat, b: byte)
    requires pos < buf.Length
    modifies buf
    ensures Wrote(old(buf[..]), buf[..], pos, pos + 1, [b])
  {
    buf[pos] := b;
  }

  /** EncodeVarint writes the encoding so that it ends at `offset`, and nothing else. */
  method EncodeVarint(buf: array<byte>, offset: nat, v: uint64) returns (base: nat)
    requires Sov(v) <= offset <= buf.Length
    modifies buf
    ensures base == offset - Sov(v)
    ensures Wrote(old(buf[..]), buf[..], base, offset, Varint(v))
  {
    hide Sov, Varint, Wrote;
    SovIsLength(v);
    base := offset - Sov(v);
    var at, rest := base, v;
    ghost var done: seq<byte> := [];
    WroteNothing(buf[..], base);
    assert done + Varint(v) == Varint(v);
    while rest >= 0x80
      invariant base <= at < offset && offset - at == |Varint(rest)|
      invariant done + Varint(rest) == Varint(v)
      invariant Wrote(old(buf[..]), buf[..], base, at, done)
    {
      VarintSteps(rest);
      ghost var before := buf[..];
      ghost var group: seq<byte> := [rest % 0x80 + 0x80];
      Put(buf, at, rest % 0x80 + 0x80);
      WroteThenWrote(old(buf[..]), before, buf[..], base, at, at + 1, done, group);
      assert done + Varint(rest) == (done + group) + Varint(rest / 0x80);
      done := done + group;
      rest := rest / 0x80;
      at := at + 1;
    }
    VarintSteps(rest);
    ghost var before := buf[..];
    Put(buf, at, rest);
    WroteThenWrote(old(buf[..]), before, buf[..], base, at, offset, done, [rest]);
  }

  /** The weight of the group of `b` at place `i`. */
  function Weight(b: byte, i: nat): nat {
    (b % 0x80) * Pow128(i)
  }

  /** uint64(b&0x7F) << shift. */
  function Shifted(b: byte, shift: nat): uint64 {
    (b % 0x80) * Pow2(shift) % TWO64
  }

  /** Bitwise or of natural numbers. */
  function Or(a: nat, b: nat): nat
    decreases a + b
  {
    if a == 0 && b == 0 then 0
    else (if a % 2 == 1 || b % 2 == 1 then 1 else 0) + 2 * Or(a / 2, b / 2)
  }

  /** A number below 2^k and a multiple of 2^k have no bit in common. */
  lemma {:induction false} OrOfDisjoint(a: nat, c: nat, k: nat)
    requires a < Pow2(k)
    ensures Or(a, c * Pow2(k)) == a + c * Pow2(k)
    decreases k, c
  {
    hide Or, Pow2;
    DoubledPower(c, k);
    if k > 0 {
      var b, half := c * Pow2(k), c * Pow2(k - 1);
      OrOfDisjoint(a / 2, c, k - 1);
      OrStep(a, b);
      assert b == 2 * half;
    } else {
      OrWithZero(c);
    }
  }

  lemma OrStep(a: nat, b: nat)
    ensures Or(a, b) == (if a % 2 == 1 || b % 2 == 1 then 1 else 0) + 2 * Or(a / 2, b / 2)
  {
  }

  lemma {:induction false} OrWithZero(c: nat)
    ensures Or(0, c) == c
  {
    if c > 0 {
      OrWithZero(c / 2);
    }
  }

  lemma DoubledPower(c: nat, k: nat)
    ensures k == 0 ==> Pow2(k) == 1 && c * Pow2(k) == c
    ensures k > 0 ==> Pow2(k) == 2 * Pow2(k - 1) && c * Pow2(k) == 2 * (c * Pow2(k - 1))
  {
    if k > 0 {
      var p := Pow2(k - 1);
      assert c * (2 * p) == 2 * (c * p);
    }
  }

  lemma Scaled(a: nat, b: nat, p: nat)
    requires a <= b
    ensures a * p <= b * p
  {
  }

  /** What is left of a group when it is cut to 64 bits: of the tenth only the lowest bit. */
  function Fitting(b: byte, i: nat): nat {
    if i < 9 then b % 0x80 else b % 2
  }

  lemma GroupBelow(acc: nat, b: byte, i: nat)
    requires acc < Pow128(i)
    ensures acc + Weight(b, i) < Pow128(i + 1)
  {
    var p := Pow128(i);
    hide Pow128;
    Pow128Step(i);
    Scaled(b % 0x80, 0x7f, p);
  }

  lemma ShiftedWeight(b: byte, i: nat)
    ensures Shifted(b, 7 * i) == Weight(b, i) % TWO64
  {
    Pow2Pow128(i);
    hide Pow128, Pow2;
  }

  lemma ShiftedIsMultiple(b: byte, i: nat)
    requires i < 10
    ensures Shifted(b, 7 * i) == Fitting(b, i) * Pow128(i)
  {
    ShiftedWeight(b, i);
    hide Pow128, Pow2, Shifted, Weight, Fitting;
    Pow128Nine();
    if i < 9 {
      Pow128Monotone(0, i);
      GroupBelow(0, b, i);
      Pow128Monotone(i + 1, 9);
      Remainder(Weight(b, i), 0);
      LowGroup(b, i);
    } else {
      TopGroup(0, b % 0x80);
      HighGroup(b);
    }
  }

  /**
   One more group: cut to 64 bits it is a multiple of the next power, above all the bits
   collected so far, so that the bitwise or of the two is their sum.
   */
  lemma OrIsSum(acc: nat, b: byte, i: nat)
    requires acc < Pow128(i) && i < 10
    ensures acc + Weight(b, i) < Pow128(i + 1)
    ensures Or(acc % TWO64, Shifted(b, 7 * i)) == (acc + Weight(b, i)) % TWO64
  {
    hide Pow128, Pow2, Shifted, Or, Weight, Fitting;
    GroupBelow(acc, b, i);
    ShiftedIsMultiple(b, i);
    Pow2Pow128(i);
    OrOfDisjoint(acc, Fitting(b, i), 7 * i);
    CutSum(acc, b, i);
  }

  lemma CutSum(acc: nat, b: byte, i: nat)
    requires acc < Pow128(i) && i < 10
    ensures acc % TWO64 == acc && (acc + Weight(b, i)) % TWO64 == acc + Fitting(b, i) * Pow128(i)
  {
    hide Pow128, Weight, Fitting;
    GroupBelow(acc, b, i);
    Pow128Monotone(i, 9);
    Pow128Nine();
    Remainder(acc, 0);
    if i < 9 {
      Pow128Monotone(i + 1, 9);
      Remainder(acc + Weight(b, i), 0);
      LowGroup(b, i);
    } else {
      TopGroup(acc, b % 0x80);
      HighGroup(b);
    }
  }

  lemma LowGroup(b: byte, i: nat)
    requires i < 9
    ensures Weight(b, i) == Fitting(b, i) * Pow128(i)
  {
    hide Pow128;
  }

  lemma HighGroup(b: byte)
    ensures Weight(b, 9) == (b % 0x80) * TWO63 && Fitting(b, 9) * Pow128(9) == (b % 0x80 % 2) * TWO63
  {
    Pow128Nine();
    hide Pow128;
  }

  lemma Pow128Nine()
    ensures Pow128(9) == TWO63
  {
    assert Pow128(9) == 0x80 * 0x80 * 0x80 * 0x80 * 0x80 * Pow128(4);
    assert Pow128(4) == 0x80 * 0x80 * 0x80 * 0x80;
  }

  lemma TopGroup(acc: nat, g: nat)
    requires acc < TWO63
    ensures (acc + g * TWO63) % TWO64 == acc + (g % 2) * TWO63
  {
    var q, c := g / 2, g % 2;
    assert g * TWO63 == q * TWO64 + c * TWO63;
    Remainder(acc + c * TWO63, q);
  }

  lemma Remainder(r: nat, q: nat)
    requires r < TWO64
    ensures (r + q * TWO64) % TWO64 == r
  {
  }

  lemma Pow128Step(i: nat)
    ensures Pow128(i + 1) == 0x80 * Pow128(i)
  {
  }

  lemma {:induction false} Pow128Monotone(i: nat, j: nat)
    requires i <= j
    ensures 0 < Pow128(i) <= Pow128(j)
    decreases j
  {
    if i < j {
      Pow128Monotone(i, j - 1);
    } else if i > 0 {
      Pow128Monotone(i - 1, j - 1);
    }
  }

  lemma {:induction false} Pow2Pow128(i: nat)
    ensures Pow2(7 * i) == Pow128(i)
  {
    if i > 0 {
      Pow2Pow128(i - 1);
      var k := 7 * (i - 1);
      assert Pow2(k + 4) == 2 * Pow2(k + 3) == 4 * Pow2(k + 2) == 8 * Pow2(k + 1) == 16 * Pow2(k);
      assert Pow2(k + 7) == 2 * Pow2(k + 6) == 4 * Pow2(k + 5) == 8 * Pow2(k + 4);
    }
  }

  /** The groups from a position on, after `acc` was collected from `i` groups. */
  predicate GroupsFrom(whole: Parsed<nat>, tail: Parsed<nat>, acc: nat, i: nat) {
    match tail
    case Bad(e) => whole == Bad(e)
    case Got(v, rest) => whole == Got(acc + v * Pow128(i), rest)
  }

  lemma Distribute(g: nat, v: nat, p: nat)
    ensures (g + 0x80 * v) * p == g * p + v * (0x80 * p)
  {
  }

  lemma NextGroup(whole: Parsed<nat>, s: seq<byte>, left: nat, acc: nat, i: nat)
    requires left > 0 && s != []
    requires GroupsFrom(whole, TakeGroups(s, left), acc, i)
    ensures s[0] < 0x80 ==> whole == Got(acc + Weight(s[0], i), s[1..])
    ensures s[0] >= 0x80 ==> GroupsFrom(whole, TakeGroups(s[1..], left - 1), acc + Weight(s[0], i), i + 1)
  {
    hide Pow128;
    var tail := TakeGroups(s[1..], left - 1);
    Pow128Step(i);
    if s[0] >= 0x80 && tail.Got? {
      var g, p := s[0] % 0x80, Pow128(i);
      assert TakeGroups(s, left).value == g + 0x80 * tail.value;
      Distribute(g, tail.value, p);
    }
  }

  /** ConsumeVarint: the shifting loop reads the value of the simple definition, modulo 2^64. */
  method ConsumeVarint(buf: seq<byte>, start: nat) returns (r: Result<(uint64, nat)>)
    requires start <= |buf|
    ensures At(buf, r, TakeVarint(buf[start..]))
  {
    hide TakeGroups, GroupsFrom, Weight, Shifted, Pow128, Or;
    var num: uint64, pos, shift := 0, start, 0;
    ghost var acc: nat, i: nat := 0, 0;
    StartGroups(buf[start..]);
    while true
      invariant start <= pos <= |buf| && shift == 7 * i && i <= 10
      invariant acc < Pow128(i) && num == acc % TWO64
      invariant GroupsFrom(TakeGroups(buf[start..], 10), TakeGroups(buf[pos..], 10 - i), acc, i)
      decreases |buf| - pos
    {
      if shift >= 64 {
        NoGroup(TakeGroups(buf[start..], 10), buf[pos..], 0, acc, i);
        return Err(IntOverflow);
      }
      if pos >= |buf| {
        NoGroup(TakeGroups(buf[start..], 10), buf[pos..], 10 - i, acc, i);
        return Err(UnexpectedEOF);
      }
      var b := buf[pos];
      NextGroup(TakeGroups(buf[start..], 10), buf[pos..], 10 - i, acc, i);
      assert buf[pos..][1..] == buf[pos + 1..];
      OrIsSum(acc, b, i);
      acc := acc + Weight(b, i);
      num := Or(num, Shifted(b, shift));
      pos := pos + 1;
      i := i + 1;
      if b < 0x80 {
        break;
      }
      shift := shift + 7;
    }
    return Ok((num, pos));
  }

  lemma NoGroup(whole: Parsed<nat>, s: seq<byte>, left: nat, acc: nat, i: nat)
    requires left == 0 || s == []
    requires GroupsFrom(whole, TakeGroups(s, left), acc, i)
    ensures whole == Bad(if left == 0 then IntOverflow else UnexpectedEOF)
  {
  }

  lemma StartGroups(s: seq<byte>)
    ensures Pow128(0) == 1 && GroupsFrom(TakeGroups(s, 10), TakeGroups(s, 10), 0, 0)
  {
  }

  method ConsumeTag(buf: seq<byte>, start: nat) returns (r: Result<(Tag, nat)>)
    requires start <= |buf|
    ensures At(buf, r, TakeTag(buf[start..]))
    ensures r.Ok? ==> start < r.value.1
  {
    hide TakeVarint, I32;
    var v := ConsumeVarint(buf, start);
    if v.Err? {
      return Err(v.error);
    }
    var (tag, pos) := v.value;
    var field := I32(tag / 8);
    if field <= 0 {
      return Err(IllegalField);
    }
    return Ok((Tag(field, tag % 8), pos));
  }

  /** ConsumeLen returns the length and the position behind the payload. */
  method ConsumeLen(buf: seq<byte>, start: nat) returns (r: Result<(nat, nat)>)
    requires start <= |buf|
    ensures r.Err? ==> TakeLen(buf[start..]) == Bad(r.error)
    ensures r.Ok? ==> var (length, pos) := r.value;
                      && start + length < pos <= |buf|
                      && TakeLen(buf[start..]) == Got(buf[pos - length..pos], buf[pos..])
  {
    hide TakeVarint, I64;
    var v := ConsumeVarint(buf, start);
    if v.Err? {
      return Err(v.error);
    }
    var (num, pos) := v.value;
    var length := I64(num);
    if length < 0 {
      return Err(InvalidLength);
    }
    if pos + length > |buf| {
      return Err(UnexpectedEOF);
    }
    assert buf[pos..][..length] == buf[pos..pos + length];
    assert buf[pos..][length..] == buf[pos + length..];
    return Ok((length, pos + length));
  }

  method ConsumeFixed(buf: seq<byte>, start: nat, n: nat) returns (r: Result<(seq<byte>, nat)>)
    requires start <= |buf|
    ensures At(buf, r, TakeFixed(buf[start..], n))
    ensures r.Ok? ==> |r.value.0| == n
  {
    var pos := start + n;
    if pos > |buf| {
      return Err(UnexpectedEOF);
    }
    assert buf[start..][n..] == buf[pos..] && buf[start..][..n] == buf[pos - n..pos];
    return Ok((buf[pos - n..pos], pos));
  }

  /** ConsumeUnknown. */
  method ConsumeUnknown(buf: seq<byte>, start: nat, wireType0: nat) returns (r: Result<((), nat)>)
    requires start <= |buf|
    ensures At(buf, r, SkipField(buf[start..], wireType0, 0))
  {
    hide TakeVarint, TakeTag, TakeLen, TakeFixed;
    var pos, depth, wireType := start, 0, wireType0;
    while pos < |buf|
      invariant start <= pos <= |buf|
      invariant SkipField(buf[start..], wireType0, 0) == SkipField(buf[pos..], wireType, depth)
      decreases |buf| - pos
    {
      if wireType == WIRE_VARINT {
        var v := ConsumeVarint(buf, pos);
        return if v.Err? then Err(v.error) else Ok(((), v.value.1));
      } else if wireType == WIRE_I64 {
        var v := ConsumeFixed(buf, pos, 8);
        return if v.Err? then Err(v.error) else Ok(((), v.value.1));
      } else if wireType == WIRE_LEN {
        var v := ConsumeLen(buf, pos);
        return if v.Err? then Err(v.error) else Ok(((), v.value.1));
      } else if wireType == WIRE_START_GROUP {
        depth := depth + 1;
      } else if wireType == WIRE_END_GROUP {
        if depth == 0 {
          return Err(UnexpectedEndOfGroup);
        }
        depth := depth - 1;
      } else if wireType == WIRE_I32 {
        var v := ConsumeFixed(buf, pos, 4);
        return if v.Err? then Err(v.error) else Ok(((), v.value.1));
      } else {
        return Err(IllegalWireType);
      }
      if depth == 0 {
        return Ok(((), pos));
      }
      var t := ConsumeTag(buf, pos);
      if t.Err? {
        return Err(t.error);
      }
      wireType, pos := t.value.0.wireType, t.value.1;
    }
    return Err(UnexpectedEOF);
  }
}
