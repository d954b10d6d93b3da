/**
 Deep copies into existing values (pdata/internal/generated_proto_arrayvalue.go and
 generated_proto_anyvalue.go): backing arrays and objects of the destination are used
 again, and what is not needed any more goes to the pools.
 */
module Copying {
  import opened Common

  type byte = x: int | 0 <= x < 0x100

  /** The deep content of an AnyValue: unset, a scalar, bytes, or a list behind a pointer that may be nil. */
  datatype Val = Unset | Scalar(x: int) | Bytes(content: seq<byte>) | NilArray | Arr(vals: seq<Val>)

  datatype Kind = ScalarKind | BytesKind | ArrayKind

  /** What a copy holds: a nil list becomes an empty one. */
  function Copied(v: Val): Val
    decreases v
  {
    match v
    case NilArray => Arr([])
    case Arr(vals) => Arr(CopiedAll(vals))
    case _ => v
  }

  function CopiedAll(vals: seq<Val>): (r: seq<Val>)
    ensures |r| == |vals| && forall i :: 0 <= i < |vals| ==> r[i] == Copied(vals[i])
    decreases vals
  {
    if vals == [] then [] else [Copied(vals[0])] + CopiedAll(vals[1..])
  }

  predicate NoNil(v: Val)
    decreases v
  {
    match v
    case NilArray => false
    case Arr(vals) => forall i :: 0 <= i < |vals| ==> NoNil(vals[i])
    case _ => true
  }

  /** A copy is deep-equal to its source exactly when the source has no nil list. */
  lemma {:induction false} CopiedIffNoNil(v: Val)
    ensures Copied(v) == v <==> NoNil(v)
    decreases v
  {
    if v.Arr? {
      forall i | 0 <= i < |v.vals| ensures Copied(v.vals[i]) == v.vals[i] <==> NoNil(v.vals[i]) {
        CopiedIffNoNil(v.vals[i]);
      }
      if NoNil(v) {
        assert CopiedAll(v.vals) == v.vals;
      } else {
        var i :| 0 <= i < |v.vals| && !NoNil(v.vals[i]);
        assert CopiedAll(v.vals)[i] != v.vals[i];
      }
    }
  }

  lemma NilListCopiedEmpty()
    ensures Copied(NilArray) == Arr([]) && Copied(Arr([NilArray])) == Arr([Arr([])])
  {
    assert CopiedAll([NilArray]) == [Copied(NilArray)];
  }

  /** The object behind AnyValue.Value: a scalar, a slice of bytes, or the pointer to a list. */
  class Wrapper {
    var kind: Kind
    var scalar: int
    var bytes: array?<byte>
    var arrayValue: ArrayValue?

    constructor ()
      ensures kind == ScalarKind && scalar == 0 && bytes == null && arrayValue == null
    {
      kind, scalar, bytes, arrayValue := ScalarKind, 0, null, null;
    }
  }

  /** An ArrayValue: the slice of its values, as a backing array and a length. A nil slice has no array. */
  class ArrayValue {
    var data: array?<Wrapper?>
    var len: nat

    constructor ()
      ensures data == null && len == 0
    {
      data, len := null, 0;
    }
  }

  function Cap(data: array?<Wrapper?>): nat {
    if data == null then 0 else data.Length
  }

  /** The value behind `w` is `v`, and all objects it is made of are in `r`. */
  ghost predicate Holds(w: Wrapper?, v: Val, r: set<object>)
    reads r
    decreases v
  {
    match v
    case Unset => w == null
    case Scalar(x) => w != null && w in r && w.kind == ScalarKind && w.scalar == x
    case Bytes(content) => w != null && w in r && w.kind == BytesKind && HoldsBytes(w.bytes, content, r)
    case NilArray => w != null && w in r && w.kind == ArrayKind && w.arrayValue == null
    case Arr(vals) => w != null && w in r && w.kind == ArrayKind && w.arrayValue != null
                      && HoldsAll(w.arrayValue, vals, r)
  }

  /** A slice of bytes in memory of its own; nil holds none. */
  ghost predicate HoldsBytes(b: array?<byte>, content: seq<byte>, r: set<object>)
    reads r
  {
    if b == null then content == [] else b in r && b[..] == content
  }

  ghost predicate HoldsAll(a: ArrayValue, vals: seq<Val>, r: set<object>)
    reads r
    decreases vals
  {
    && a in r && a.len == |vals| <= Cap(a.data)
    && (a.data != null ==> a.data in r)
    && forall i :: 0 <= i < |vals| ==> Holds(a.data[i], vals[i], r)
  }

  /** The pools. When they are disabled nothing goes in and new objects come out. */
  class Pools {
    const enabled: bool
    var wrappers: set<Wrapper>
    var arrays: set<ArrayValue>

    constructor (enabled: bool)
      ensures Valid() && this.enabled == enabled && wrappers == {} && arrays == {}
    {
      this.enabled, wrappers, arrays := enabled, {}, {};
    }

    ghost function All(): set<object>
      reads this
    {
      wrappers + arrays
    }

    /** What waits in the pools is empty: no list has an array, and no object has bytes to append to. */
    ghost predicate Valid()
      reads this, arrays, wrappers
    {
      && (forall a :: a in arrays ==> a.data == null && a.len == 0)
      && (forall w :: w in wrappers ==> w.bytes == null)
    }

    method GetWrapper(kind: Kind, scalar: int, arrayValue: ArrayValue?) returns (w: Wrapper)
      requires Valid()
      modifies this`wrappers, wrappers
      ensures Valid() && w !in wrappers && wrappers <= old(wrappers) && arrays == old(arrays)
      ensures fresh(w) || w in old(wrappers)
      ensures w.kind == kind && w.scalar == scalar && w.arrayValue == arrayValue && w.bytes == null
      ensures forall o :: o in old(wrappers) && o != w ==> unchanged(o)
    {
      var take: bool := *;
      if enabled && wrappers != {} && take {
        w :| w in wrappers;
        wrappers := wrappers - {w};
      } else {
        w := new Wrapper();
      }
      w.kind, w.scalar, w.arrayValue := kind, scalar, arrayValue;
    }

    /** NewArrayValue. */
    method GetArray() returns (a: ArrayValue)
      requires Valid()
      modifies this`arrays
      ensures Valid() && a !in arrays && arrays <= old(arrays) && wrappers == old(wrappers)
      ensures fresh(a) || a in old(arrays)
      ensures a.data == null && a.len == 0
    {
      var take: bool := *;
      if enabled && arrays != {} && take {
        a :| a in arrays;
        arrays := arrays - {a};
      } else {
        a := new ArrayValue();
      }
    }
  }

  lemma {:induction false} HoldsMore(w: Wrapper?, v: Val, r: set<object>, more: set<object>)
    requires Holds(w, v, r) && r <= more
    ensures Holds(w, v, more)
    decreases v
  {
    if v.Arr? {
      forall i | 0 <= i < |v.vals| ensures Holds(w.arrayValue.data[i], v.vals[i], more) {
        HoldsMore(w.arrayValue.data[i], v.vals[i], r, more);
      }
    }
  }

  /** The objects behind the values of a list. */
  ghost function Slots(a: ArrayValue): set<Wrapper>
    reads a, a.data
  {
    if a.data == null then {} else set i | 0 <= i < a.len && i < a.data.Length && a.data[i] != null :: a.data[i]
  }

  /** All that belongs to a list: the object, its array and the objects behind its values. */
  ghost function Foot(a: ArrayValue): set<object>
    reads a, a.data
  {
    {a} + (if a.data == null then {} else {a.data}) + Slots(a)
  }

  /** What a list holds, down to the fields of the objects behind its values. */
  type Snapshot = (array?<Wrapper?>, nat, seq<Wrapper?>, map<Wrapper, (Kind, int, array?<byte>, ArrayValue?)>)

  ghost function Snap(a: ArrayValue): Snapshot
    reads a, a.data, Slots(a)
  {
    (a.data, a.len, if a.data == null then [] else a.data[..],
     map w | w in Slots(a) :: (w.kind, w.scalar, w.bytes, w.arrayValue))
  }

  /** The list owns its array and the objects behind its values: none is shared, read from, or pooled. */
  ghost predicate Owned(a: ArrayValue, p: Pools, r: set<object>)
    reads a, a.data, p
  {
    && a.len <= Cap(a.data)
    && Foot(a) !! r && Foot(a) !! p.All()
    && forall i, j :: 0 <= i < j < a.len && a.data[i] != null ==> a.data[i] != a.data[j]
  }

  /** CopyAnyValue: a new object with the same content, from the pools or fresh. */
  method CopyAny(w: Wrapper?, p: Pools, ghost v: Val, ghost r: set<object>) returns (n: Wrapper?, ghost f: set<object>)
    requires p.Valid() && Holds(w, v, r) && r !! p.All() && p !in r
    modifies p, p.wrappers, p.arrays
    ensures p.Valid() && p.wrappers <= old(p.wrappers) && p.arrays <= old(p.arrays)
    ensures Holds(n, Copied(v), f) && f !! p.All() && (n != null ==> n in f) && p !in f
    ensures forall o :: o in f ==> fresh(o) || o in old(p.All())
    decreases v, 1
  {
    if w == null {
      return null, {};
    }
    if w.kind == ScalarKind {
      n := p.GetWrapper(ScalarKind, w.scalar, null);
      return n, {n};
    }
    if w.kind == BytesKind {
      n, f := CopyBytes(w.bytes, p, v.content, r);
      return;
    }
    n, f := CopyList(w.arrayValue, p, v, r);
  }

  /**
   The case of bytes, which are appended to what the new object has. That is nothing, for
   pooled objects too, so that they go into memory of their own.
   */
  method CopyBytes(src: array?<byte>, p: Pools, ghost content: seq<byte>, ghost r: set<object>)
    returns (n: Wrapper, ghost f: set<object>)
    requires p.Valid() && HoldsBytes(src, content, r) && r !! p.All() && p !in r
    modifies p, p.wrappers, p.arrays
    ensures p.Valid() && p.wrappers <= old(p.wrappers) && p.arrays <= old(p.arrays)
    ensures Holds(n, Bytes(content), f) && f !! p.All() && n in f && p !in f
    ensures forall o :: o in f ==> fresh(o) || o in old(p.All())
    ensures n.bytes != null ==> n.bytes != src && fresh(n.bytes)
  {
    n := p.GetWrapper(BytesKind, 0, null);
    f := {n};
    if src != null && src.Length > 0 {
      var b := new byte[src.Length](i requires 0 <= i < src.Length reads src => src[i]);
      n.bytes := b;
      f := {n, b};
    }
  }

  /** The case of a list: a new wrapper around a new list, filled if there is something to copy. */
  method CopyList(src: ArrayValue?, p: Pools, ghost v: Val, ghost r: set<object>)
    returns (n: Wrapper, ghost f: set<object>)
    requires p.Valid() && r !! p.All() && p !in r
             && if src == null then v.NilArray? else v.Arr? && HoldsAll(src, v.vals, r)
    modifies p, p.wrappers, p.arrays
    ensures p.Valid() && p.wrappers <= old(p.wrappers) && p.arrays <= old(p.arrays)
    ensures Holds(n, Copied(v), f) && f !! p.All() && n in f && p !in f
    ensures forall o :: o in f ==> fresh(o) || o in old(p.All())
    decreases v, 0
  {
    hide CopiedAll, Owned, Slots, Foot, Holds, HoldsAll;
    var a := p.GetArray();
    n := p.GetWrapper(ArrayKind, 0, a);
    NewOwned(a, p, r);
    if src == null {
      f := {n, a};
      WrapsNothing(n, a);
    } else {
      ghost var g := CopySlice(a, src, p, v.vals, r);
      f := g + {n};
      CopiedMore(a, v.vals, g, f);
      WrapsList(n, a, v.vals, f);
    }
  }

  lemma NewOwned(a: ArrayValue, p: Pools, r: set<object>)
    requires a.data == null && a.len == 0 && a !in r && a !in p.All()
    ensures Owned(a, p, r) && Slots(a) == {} && Foot(a) == {a}
  {
  }

  lemma WrapsNothing(n: Wrapper, a: ArrayValue)
    requires n.kind == ArrayKind && n.arrayValue == a && a.data == null && a.len == 0
    ensures Holds(n, Arr([]), {n, a})
  {
  }

  lemma WrapsList(n: Wrapper, a: ArrayValue, vals: seq<Val>, f: set<object>)
    requires n in f && n.kind == ArrayKind && n.arrayValue == a && HoldsAll(a, CopiedAll(vals), f)
    ensures Holds(n, Arr(CopiedAll(vals)), f)
  {
    hide CopiedAll, HoldsAll;
  }

  lemma CopiedMore(a: ArrayValue, vals: seq<Val>, r: set<object>, more: set<object>)
    requires HoldsAll(a, CopiedAll(vals), r) && r <= more
    ensures HoldsAll(a, CopiedAll(vals), more)
  {
    forall i | 0 <= i < |vals| ensures Holds(a.data[i], CopiedAll(vals)[i], more) {
      HoldsMore(a.data[i], CopiedAll(vals)[i], r, more);
    }
  }

  /** DeleteAnyValue for the values from `n` on: the objects behind them go to the pool. */
  method DeleteTail(a: ArrayValue, n: nat, p: Pools, ghost r: set<object>)
    requires p.Valid() && Owned(a, p, r) && r !! p.All()
    modifies a.data, Slots(a), p`wrappers
    ensures p.Valid() && p.arrays == old(p.arrays) && a.data == old(a.data) && a.len == old(a.len)
    ensures old(p.wrappers) <= p.wrappers <= old(p.wrappers) + old(Slots(a))
    ensures forall i :: 0 <= i < n && i < a.len ==>
              a.data[i] == old(a.data[i]) && (a.data[i] != null ==> a.data[i] !in p.wrappers)
    ensures forall i :: n <= i < a.len ==>
              a.data[i] == null && (p.enabled && old(a.data[i]) != null ==> old(a.data[i]) in p.wrappers)
    ensures !p.enabled ==> p.wrappers == old(p.wrappers)
  {
    var i := n;
    while i < a.len
      invariant n <= i && (i <= a.len || i == n)
      invariant p.Valid() && p.arrays == old(p.arrays) && a.data == old(a.data) && a.len == old(a.len)
      invariant old(p.wrappers) <= p.wrappers <= old(p.wrappers) + old(Slots(a))
      invariant forall k :: 0 <= k < a.len && !(n <= k < i) ==>
                  a.data[k] == old(a.data[k]) && (a.data[k] != null ==> a.data[k] !in p.wrappers)
      invariant forall k :: n <= k < i && k < a.len ==>
                  a.data[k] == null && (p.enabled && old(a.data[k]) != null ==> old(a.data[k]) in p.wrappers)
      invariant !p.enabled ==> p.wrappers == old(p.wrappers)
    {
      var w := a.data[i];
      if w != null && p.enabled {
        w.scalar, w.bytes, w.arrayValue := 0, null, null;
        p.wrappers := p.wrappers + {w};
      }
      a.data[i] := null;
      i := i + 1;
    }
  }

  /** CopyAnyValueSlice on the values of a list: the array is used again if it is large enough. */
  method CopySlice(a: ArrayValue, src: ArrayValue, p: Pools, ghost vals: seq<Val>, ghost r: set<object>)
    returns (ghost f: set<object>)
    requires p.Valid() && HoldsAll(src, vals, r) && r !! p.All() && p !in r
    requires Owned(a, p, r)
    modifies a, a.data, Slots(a), p, p.wrappers, p.arrays
    ensures p.Valid() && HoldsAll(a, CopiedAll(vals), f)
    ensures f !! p.All() && f !! r
    ensures forall o :: o in p.All() ==> o in old(p.All()) || o in old(Slots(a))
    ensures forall o :: o in f ==> fresh(o) || o in old(Foot(a)) || o in old(p.All())
    ensures Owned(a, p, r) && HoldsAll(src, vals, r)
    decreases vals, 2
  {
    OwnedFoot(a, p, r);
    hide HoldsAll, CopiedAll, Owned, Foot, Slots, Apart, Filled;
    assert src.len == |vals| by {
      HoldsLength(src, vals, r);
    }
    Resize(a, src.len, p, r);
    f := FillSlots(a, src, p, vals, r);
    CopiedAllMore(a, vals, f);
    FilledOwned(a, vals, p, r, f);
    f := f + {a} + if a.data == null then {} else {a.data};
  }

  lemma OwnedFoot(a: ArrayValue, p: Pools, r: set<object>)
    requires Owned(a, p, r)
    ensures a !in r && a !in p.All() && Slots(a) !! r && (a.data != null ==> a.data !in r)
    ensures a in Foot(a) && (a.data != null ==> a.data in Foot(a))
  {
  }

  lemma HoldsLength(a: ArrayValue, vals: seq<Val>, r: set<object>)
    requires HoldsAll(a, vals, r)
    ensures a.len == |vals|
  {
  }

  lemma FilledOwned(a: ArrayValue, vals: seq<Val>, p: Pools, r: set<object>, f: set<object>)
    requires Apart(a, p, r, f) && a.len == |vals| && Filled(a, |vals|, vals, f)
    ensures Owned(a, p, r)
    ensures var more := f + {a} + (if a.data == null then {} else {a.data}); more !! p.All() && more !! r
  {
    hide Holds, Copied;
  }

  /** The array for `n` values: the old one if it is large enough, freed of what is too much. */
  method Resize(a: ArrayValue, n: nat, p: Pools, ghost r: set<object>)
    requires p.Valid() && Owned(a, p, r) && r !! p.All() && p !in r
    modifies a, a.data, Slots(a), p`wrappers
    ensures p.Valid() && p.arrays == old(p.arrays) && old(p.wrappers) <= p.wrappers <= old(p.wrappers) + old(Slots(a))
    ensures a.len == n <= Cap(a.data)
    ensures a.data == old(a.data) || (a.data != null && fresh(a.data))
    ensures Apart(a, p, r, {})
  {
    if Cap(a.data) < n {
      a.data := new Wrapper?[n](_ => null);
    } else {
      DeleteTail(a, n, p, r);
    }
    a.len := n;
  }

  /** The first `n` values are copies made of objects in `f`, each behind an object of its own. */
  ghost predicate Filled(a: ArrayValue, n: nat, vals: seq<Val>, f: set<object>)
    reads a, a.data, f
  {
    && n <= a.len <= Cap(a.data) && n <= |vals|
    && (forall k :: 0 <= k < n ==> Holds(a.data[k], Copied(vals[k]), f) && (a.data[k] != null ==> a.data[k] in f))
    && (forall j, k :: 0 <= j < k < n && a.data[j] != null ==> a.data[j] != a.data[k])
  }

  lemma FilledMore(a: ArrayValue, n: nat, vals: seq<Val>, f: set<object>, more: set<object>)
    requires Filled(a, n, vals, f) && f <= more
    ensures Filled(a, n, vals, more)
  {
    forall k | 0 <= k < n ensures Holds(a.data[k], Copied(vals[k]), more) {
      HoldsMore(a.data[k], Copied(vals[k]), f, more);
    }
  }

  /** The objects read and those written to are apart from the pools and from each other. */
  ghost predicate Apart(a: ArrayValue, p: Pools, r: set<object>, f: set<object>)
    reads a, p
  {
    && r !! p.All() && p !in r && a !in r && a !in p.arrays
    && f !! p.All() && f !! r && a !in f && p !in f
    && (a.data != null ==> a.data !in r && a.data !in f)
  }

  /** One value of the source is copied into its slot. */
  method FillSlot(a: ArrayValue, i: nat, src: ArrayValue, p: Pools,
                  ghost vals: seq<Val>, ghost r: set<object>, ghost f: set<object>)
    returns (ghost f': set<object>)
    requires p.Valid() && HoldsAll(src, vals, r) && Apart(a, p, r, f)
    requires i < a.len == |vals| && Filled(a, i, vals, f)
    modifies a.data, p, p.wrappers, p.arrays
    ensures p.Valid() && p.wrappers <= old(p.wrappers) && p.arrays <= old(p.arrays)
    ensures a.data == old(a.data) && a.len == old(a.len)
    ensures HoldsAll(src, vals, r) && Apart(a, p, r, f') && Filled(a, i + 1, vals, f')
    ensures forall o :: o in f' ==> o in f || fresh(o) || o in old(p.All())
    decreases vals, 0
  {
    assert Holds(src.data[i], vals[i], r);
    hide Holds, Copied, HoldsAll;
    var w, g := CopyAny(src.data[i], p, vals[i], r);
    f' := f + g;
    hide Filled;
    assert Filled(a, i, vals, f);
    FilledMore(a, i, vals, f, f');
    HoldsMore(w, Copied(vals[i]), g, f');
    PutSlot(a, i, w, vals, f');
  }

  method PutSlot(a: ArrayValue, i: nat, w: Wrapper?, ghost vals: seq<Val>, ghost f: set<object>)
    requires i < a.len && i < |vals| && Filled(a, i, vals, f) && Holds(w, Copied(vals[i]), f)
    requires w != null ==> w in f && forall k :: 0 <= k < i ==> a.data[k] != w
    requires a !in f && a.data != null && a.data !in f
    modifies a.data
    ensures Filled(a, i + 1, vals, f)
  {
    hide Holds, Copied;
    a.data[i] := w;
  }

  /** The loop over the values of the source. */
  method FillSlots(a: ArrayValue, src: ArrayValue, p: Pools, ghost vals: seq<Val>, ghost r: set<object>)
    returns (ghost f: set<object>)
    requires p.Valid() && HoldsAll(src, vals, r) && Apart(a, p, r, {})
    requires a.len == src.len <= Cap(a.data)
    modifies a.data, p, p.wrappers, p.arrays
    ensures p.Valid() && p.wrappers <= old(p.wrappers) && p.arrays <= old(p.arrays)
    ensures a.data == old(a.data) && a.len == old(a.len)
    ensures Apart(a, p, r, f) && Filled(a, |vals|, vals, f)
    ensures forall o :: o in f ==> fresh(o) || o in old(p.All())
    decreases vals, 1
  {
    hide Holds, Copied;
    f := {};
    for i := 0 to a.len
      invariant p.Valid() && p.wrappers <= old(p.wrappers) && p.arrays <= old(p.arrays)
      invariant a.data == old(a.data) && a.len == old(a.len) == |vals|
      invariant HoldsAll(src, vals, r) && Apart(a, p, r, f) && Filled(a, i, vals, f)
      invariant forall o :: o in f ==> fresh(o) || o in old(p.All())
    {
      hide HoldsAll, Apart, Filled;
      f := FillSlot(a, i, src, p, vals, r, f);
    }
  }

  lemma CopiedAllMore(a: ArrayValue, vals: seq<Val>, f: set<object>)
    requires a.len == |vals| && Filled(a, |vals|, vals, f)
    ensures var more := f + {a} + (if a.data == null then {} else {a.data}); HoldsAll(a, CopiedAll(vals), more)
  {
    var more := f + {a} + if a.data == null then {} else {a.data};
    forall i | 0 <= i < |vals| ensures Holds(a.data[i], CopiedAll(vals)[i], more) {
      HoldsMore(a.data[i], Copied(vals[i]), f, more);
    }
  }

  /**
   CopyArrayValue: nothing to do for the same object, nil for nil, which leaves the
   destination alone, and otherwise a deep copy in the destination or, if there is none,
   in a new object.
   */
  method CopyArrayValue(dest: ArrayValue?, src: ArrayValue?, p: Pools, ghost vals: seq<Val>, ghost r: set<object>)
    returns (res: ArrayValue?, ghost f: set<object>)
    requires p.Valid() && r !! p.All() && p !in r && (src != null ==> HoldsAll(src, vals, r))
    requires dest != null && dest != src ==> Owned(dest, p, r)
    modifies if dest == null || src == null || src == dest then {} else Foot(dest), p, p.wrappers, p.arrays
    ensures p.Valid() && (src != null ==> HoldsAll(src, vals, r))
    ensures res == if src == dest || (src != null && dest != null) then dest else if src == null then null else res
    ensures src != null && src != dest ==> res != null && HoldsAll(res, CopiedAll(vals), f) && Owned(res, p, r)
    ensures f !! p.All() && f !! r && p !in f
    ensures forall o :: o in f ==> fresh(o) || (dest != null && o in old(Foot(dest))) || o in old(p.All())
    ensures forall o :: o in p.All() ==> o in old(p.All()) || (dest != null && o in old(Slots(dest)))
    ensures src == null || src == dest ==> f == {} && p.wrappers == old(p.wrappers) && p.arrays == old(p.arrays)
  {
    f := {};
    if src == dest {
      return dest, f;
    }
    if src == null {
      return null, f;
    }
    res := dest;
    if res == null {
      res := p.GetArray();
    }
    hide HoldsAll, CopiedAll;
    f := CopySlice(res, src, p, vals, r);
  }

  /** DeleteArrayValue: the values go to the pool, the list is emptied and, if it may, pooled itself. */
  method DeleteArrayValue(a: ArrayValue?, nullable: bool, p: Pools, ghost r: set<object>)
    requires p.Valid() && r !! p.All() && (a != null ==> Owned(a, p, r))
    modifies if a == null then {} else Foot(a), p
    ensures p.Valid() && r !! p.All()
    ensures a != null ==> a.data == null && a.len == 0
    ensures forall o :: o in p.All() ==> o in old(p.All()) || (a != null && o in old(Foot(a)))
    ensures !nullable && a != null ==> a !in p.All()
  {
    if a == null {
      return;
    }
    if p.enabled {
      DeleteTail(a, 0, p, r);
    }
    a.data, a.len := null, 0;
    if p.enabled && nullable {
      p.arrays := p.arrays + {a};
    }
  }

  // ------------------------------------------------------------------ lists side by side

  /** What is behind a pointer: nil, a list with these values, or a list with these fields. */
  datatype Pointee = Nil | List(vals: seq<Val>) | Shape(snap: Snapshot)

  /** All that belongs to the list is in `q`, and each value is behind an object of its own. */
  ghost predicate Alone(o: ArrayValue?, q: set<object>)
    reads q
  {
    o == null ||
    (&& o in q && (o.data != null ==> o.data in q)
     && o.len <= Cap(o.data) && Slots(o) <= q
     && forall i, j :: 0 <= i < j < o.len && o.data[i] != null ==> o.data[i] != o.data[j])
  }

  ghost predicate PointsTo(o: ArrayValue?, c: Pointee, q: set<object>)
    reads q
  {
    match c
    case Nil => o == null
    case List(vals) => o != null && HoldsAll(o, vals, q)
    case Shape(snap) => o != null && Alone(o, q) && Snap(o) == snap
  }

  ghost predicate Behind(o: ArrayValue?, c: Pointee, q: set<object>)
    reads q
  {
    Alone(o, q) && PointsTo(o, c, q)
  }

  /** The pointer has this behind it, in a region apart from what is read and from the pools. */
  ghost predicate Placed(o: ArrayValue?, c: Pointee, q: set<object>, p: Pools, r: set<object>)
    reads q, p
  {
    q !! r && q !! p.All() && p !in q && Behind(o, c, q)
  }

  ghost function Area(q: seq<set<object>>): set<object> {
    set k, o | 0 <= k < |q| && o in q[k] :: o
  }

  /** Each pointer has this behind it, in a region of its own. */
  ghost predicate Laid(objs: seq<ArrayValue?>, cs: seq<Pointee>, q: seq<set<object>>, p: Pools, r: set<object>)
    reads Area(q), p
  {
    && |objs| == |cs| == |q|
    && (forall k :: 0 <= k < |q| ==> q[k] <= Area(q) && Placed(objs[k], cs[k], q[k], p, r))
    && (forall j, k :: 0 <= j < k < |q| ==> q[j] !! q[k])
  }

  lemma PlacedOwned(o: ArrayValue, c: Pointee, q: set<object>, p: Pools, r: set<object>)
    requires Placed(o, c, q, p, r)
    ensures Owned(o, p, r) && Foot(o) <= q && Slots(o) <= q
  {
  }

  lemma CopyAlone(o: ArrayValue, vals: seq<Val>, p: Pools, r: set<object>, f: set<object>)
    requires HoldsAll(o, CopiedAll(vals), f) && Owned(o, p, r)
    ensures Alone(o, f)
  {
    hide CopiedAll;
  }

  lemma EmptyPlaced(a: ArrayValue, p: Pools, r: set<object>)
    requires a.data == null && a.len == 0 && a !in r && a !in p.All()
    ensures Placed(a, List([]), {a}, p, r)
  {
  }

  /** Among pointers that are placed, one is moved or changed. */
  lemma LaidAt(objs: seq<ArrayValue?>, cs: seq<Pointee>, q: seq<set<object>>, p: Pools, r: set<object>, i: nat)
    requires i < |objs| == |cs| == |q|
    requires forall k :: 0 <= k < |q| ==> Placed(objs[k], cs[k], q[k], p, r)
    requires forall j, k :: 0 <= j < k < |q| && j != i && k != i ==> q[j] !! q[k]
    requires forall k :: 0 <= k < |q| && k != i ==> q[k] !! q[i]
    ensures Laid(objs, cs, q, p, r)
  {
    hide Placed;
  }

  lemma LaidPart(objs: seq<ArrayValue?>, cs: seq<Pointee>, q: seq<set<object>>, p: Pools, r: set<object>, n: nat)
    requires Laid(objs, cs, q, p, r) && n <= |objs|
    ensures Laid(objs[..n], cs[..n], q[..n], p, r) && Area(q[..n]) <= Area(q)
  {
    hide Placed;
    assert forall k :: 0 <= k < n ==> q[..n][k] == q[k];
  }

  /** A new list is laid beside the others. */
  lemma LaidMore(objs: seq<ArrayValue?>, cs: seq<Pointee>, q: seq<set<object>>, p: Pools, r: set<object>, a: ArrayValue)
    requires Laid(objs, cs, q, p, r) && a.data == null && a.len == 0 && a !in r && a !in p.All() && a !in Area(q)
    ensures Laid(objs + [a], cs + [List([])], q + [{a}], p, r) && Area(q + [{a}]) == Area(q) + {a}
  {
    EmptyPlaced(a, p, r);
    hide Placed;
    var more := q + [{a}];
    forall o ensures o in Area(more) <==> o in Area(q) || o == a {
      if o in Area(q) {
        var k :| 0 <= k < |q| && o in q[k];
        assert more[k] == q[k];
      }
      assert more[|q|] == {a};
    }
  }

  lemma LaidDistinct(objs: seq<ArrayValue?>, cs: seq<Pointee>, q: seq<set<object>>, p: Pools, r: set<object>)
    requires Laid(objs, cs, q, p, r)
    ensures forall i, j :: 0 <= i < j < |objs| && objs[i] != null ==> objs[i] != objs[j]
  {
    hide PointsTo;
    forall i, j | 0 <= i < j < |objs| && objs[i] != null ensures objs[i] != objs[j] {
      assert Placed(objs[i], cs[i], q[i], p, r) && Placed(objs[j], cs[j], q[j], p, r);
    }
  }

  /** A source pointer and its content, which is none for nil. */
  ghost predicate Reads(src: ArrayValue?, v: Option<seq<Val>>, r: set<object>)
    reads r
  {
    if src == null then v.None? else v.Some? && HoldsAll(src, v.value, r)
  }

  ghost predicate AllRead(src: seq<ArrayValue?>, vals: seq<Option<seq<Val>>>, r: set<object>)
    reads r
  {
    |src| == |vals| && forall i :: 0 <= i < |src| ==> Reads(src[i], vals[i], r)
  }

  // -------------------------------------------------------------------- slices of lists

  /**
   What a pointer of the result points to, given the content of the source and what was
   there: a nil pointer stays nil, whatever the source is, and a nil source changes nothing.
   */
  function CopiedPointer(v: Option<seq<Val>>, before: Pointee): Pointee {
    if before.Nil? || v.None? then before else List(CopiedAll(v.value))
  }

  function CopiedPointers(vals: seq<Option<seq<Val>>>, before: seq<Pointee>): (r: seq<Pointee>)
    ensures |r| == |before|
    ensures forall i :: 0 <= i < |before| ==>
              r[i] == if i < |vals| then CopiedPointer(vals[i], before[i]) else before[i]
  {
    seq(|before|, i requires 0 <= i < |before| => if i < |vals| then CopiedPointer(vals[i], before[i]) else before[i])
  }

  function AsPointee(v: Option<seq<Val>>): Pointee {
    if v.None? then Nil else List(v.value)
  }

  /**
   A copied pointer is deep-equal to its source exactly when both pointers are nil, or
   neither is and the source has no nil list.
   */
  lemma CopiedPointerIff(v: Option<seq<Val>>, before: Pointee)
    ensures CopiedPointer(v, before) == AsPointee(v)
       <==> (v.None? <==> before.Nil?) && (v.Some? ==> forall i :: 0 <= i < |v.value| ==> NoNil(v.value[i]))
  {
    if v.Some? {
      CopiedIffNoNil(Arr(v.value));
    }
  }

  /** One round of the copy loop. What the call returns is not looked at. */
  method CopyStep(objs: seq<ArrayValue?>, i: nat, src: ArrayValue?, p: Pools, ghost v: Option<seq<Val>>,
                  ghost cs: seq<Pointee>, ghost q: seq<set<object>>, ghost r: set<object>)
    returns (ghost s: set<object>)
    requires i < |objs| && p.Valid() && r !! p.All() && p !in r
    requires Laid(objs, cs, q, p, r) && Reads(src, v, r)
    modifies q[i], p, p.wrappers, p.arrays
    ensures p.Valid() && r !! p.All()
    ensures Laid(objs, cs[i := CopiedPointer(v, cs[i])], q[i := s], p, r)
    ensures forall o :: o in p.All() ==> o in old(p.All()) || o in q[i]
  {
    var o := objs[i];
    SourceApart(o, src, v, cs[i], q[i], p, r);
    if o != null {
      PlacedOwned(o, cs[i], q[i], p, r);
    }
    LaidSizes(objs, cs, q, p, r);
    assert forall k :: 0 <= k < |q| && k != i ==> q[k] !! q[i];
    hide HoldsAll, CopiedAll, Alone, Owned, Behind, Foot, Slots, Area, Reads, CopiedPointer;
    var dropped;
    ghost var f;
    dropped, f := CopyArrayValue(o, src, p, if v.Some? then v.value else [], r);
    s := if o == null || src == null then q[i] else f;
    forall k | 0 <= k < |q| && k != i ensures Placed(objs[k], cs[k], q[k], p, r) && q[k] !! s {
      assert old(Placed(objs[k], cs[k], q[k], p, r));
    }
    if o != null && src != null {
      CopyAlone(o, v.value, p, r, f);
    }
    PlacedAfter(o, v, cs[i], s, p, r);
    LaidAt(objs, cs[i := CopiedPointer(v, cs[i])], q[i := s], p, r, i);
  }

  lemma SourceApart(o: ArrayValue?, src: ArrayValue?, v: Option<seq<Val>>,
                    c: Pointee, q: set<object>, p: Pools, r: set<object>)
    requires Placed(o, c, q, p, r) && Reads(src, v, r)
    ensures (src != null ==> HoldsAll(src, v.value, r)) && (src == null <==> v.None?)
            && (o == null <==> c.Nil?) && (o != null ==> o != src)
  {
  }

  lemma PlacedAfter(o: ArrayValue?, v: Option<seq<Val>>, c: Pointee, s: set<object>, p: Pools, r: set<object>)
    requires s !! r && s !! p.All() && p !in s && (o == null <==> c.Nil?)
    requires if o == null || v.None? then Behind(o, c, s) else Alone(o, s) && HoldsAll(o, CopiedAll(v.value), s)
    ensures Placed(o, CopiedPointer(v, c), s, p, r)
  {
    hide HoldsAll, CopiedAll, Alone;
  }

  /** The loop of CopyArrayValue calls over pointers that are in place. */
  method CopyEach(objs: seq<ArrayValue?>, src: seq<ArrayValue?>, p: Pools, ghost vals: seq<Option<seq<Val>>>,
                  ghost cs: seq<Pointee>, ghost q: seq<set<object>>, ghost r: set<object>)
    returns (ghost q': seq<set<object>>)
    requires |src| <= |objs| && p.Valid() && r !! p.All() && p !in r
    requires AllRead(src, vals, r) && Laid(objs, cs, q, p, r)
    modifies p, p.wrappers, p.arrays, Area(q)
    ensures p.Valid() && r !! p.All() && AllRead(src, vals, r)
    ensures Laid(objs, CopiedPointers(vals, cs), q', p, r)
  {
    hide Reads, Laid, Area, CopiedPointer;
    NothingCopied(vals, cs);
    LaidSizes(objs, cs, q, p, r);
    q' := q;
    for i := 0 to |src|
      invariant p.Valid() && r !! p.All() && AllRead(src, vals, r)
      invariant |q'| == |q| && forall k :: i <= k < |q| ==> q'[k] == q[k]
      invariant Laid(objs, CopiedPointers(vals[..i], cs), q', p, r)
      invariant forall o :: o in p.All() ==> o in old(p.All()) || o in Area(q)
    {
      OneMoreCopied(vals, cs, i);
      ghost var s := CopyStep(objs, i, src[i], p, vals[i], CopiedPointers(vals[..i], cs), q', r);
      q' := q'[i := s];
    }
    assert vals[..|src|] == vals;
  }

  lemma NothingCopied(vals: seq<Option<seq<Val>>>, cs: seq<Pointee>)
    ensures vals[..0] == [] && CopiedPointers([], cs) == cs
  {
  }

  lemma OneMoreCopied(vals: seq<Option<seq<Val>>>, cs: seq<Pointee>, i: nat)
    requires i < |vals| && i < |cs|
    ensures var done := CopiedPointers(vals[..i], cs);
            done[i] == cs[i] && CopiedPointers(vals[..i + 1], cs) == done[i := CopiedPointer(vals[i], done[i])]
  {
    hide CopiedPointer;
  }

  lemma LaidSizes(objs: seq<ArrayValue?>, cs: seq<Pointee>, q: seq<set<object>>, p: Pools, r: set<object>)
    requires Laid(objs, cs, q, p, r)
    ensures |objs| == |cs| == |q| && Area(q) !! r && Area(q) !! p.All() && p !in Area(q)
    ensures forall k :: 0 <= k < |q| ==> q[k] <= Area(q)
  {
  }

  ghost function Itself(o: ArrayValue?): set<object> {
    if o == null then {} else {o}
  }

  /** One list is deleted. If pointers may be nil the list can be pooled and its pointer becomes nil. */
  method DeleteAt(objs: seq<ArrayValue?>, i: nat, nullable: bool, p: Pools,
                  ghost cs: seq<Pointee>, ghost q: seq<set<object>>, ghost r: set<object>)
    requires i < |objs| && p.Valid() && r !! p.All() && (!nullable ==> objs[i] != null)
    requires Laid(objs, cs, q, p, r)
    modifies q[i], p
    ensures p.Valid() && r !! p.All()
    ensures if nullable then Laid(objs[i := null], cs[i := Nil], q[i := {}], p, r)
            else Laid(objs, cs[i := List([])], q[i := Itself(objs[i])], p, r)
    ensures forall o :: o in p.All() ==> o in old(p.All()) || o in q[i]
  {
    var o := objs[i];
    if o != null {
      PlacedOwned(o, cs[i], q[i], p, r);
    }
    hide HoldsAll, Alone, Owned, PointsTo, Behind;
    DeleteArrayValue(o, nullable, p, r);
    ghost var s := if nullable then {} else Itself(o);
    forall k | 0 <= k < |q| && k != i ensures Placed(objs[k], cs[k], q[k], p, r) && q[k] !! s {
      assert old(Placed(objs[k], cs[k], q[k], p, r)) && q[k] !! q[i];
    }
    if nullable {
      NilPlaced(p, r);
      LaidAt(objs[i := null], cs[i := Nil], q[i := {}], p, r, i);
    } else {
      EmptyPlaced(o, p, r);
      LaidAt(objs, cs[i := List([])], q[i := Itself(o)], p, r, i);
    }
  }

  lemma NilPlaced(p: Pools, r: set<object>)
    ensures Placed(null, Nil, {}, p, r)
  {
  }

  lemma AreaAt(q: seq<set<object>>, i: nat, s: set<object>)
    requires i < |q|
    ensures forall o :: o in Area(q[i := s]) ==> o in Area(q) || o in s
  {
  }

  /** A new list is put beside the others, from the pool or fresh. */
  method AddOne(objs: seq<ArrayValue?>, p: Pools,
                ghost cs: seq<Pointee>, ghost q: seq<set<object>>, ghost r: set<object>)
    returns (a: ArrayValue)
    requires p.Valid() && r !! p.All() && Laid(objs, cs, q, p, r)
    modifies p`arrays
    ensures p.Valid() && p.arrays <= old(p.arrays) && (fresh(a) || a in old(p.arrays))
    ensures Laid(objs + [a], cs + [List([])], q + [{a}], p, r) && Area(q + [{a}]) == Area(q) + {a}
  {
    hide Behind;
    a := p.GetArray();
    forall k | 0 <= k < |q| ensures Placed(objs[k], cs[k], q[k], p, r) && a !in q[k] {
      assert old(Placed(objs[k], cs[k], q[k], p, r));
    }
    LaidMore(objs, cs, q, p, r, a);
  }

  // -------------------------------------------------------------------- slices by value

  /** A source without nil. */
  ghost function Somes(vals: seq<seq<Val>>): (r: seq<Option<seq<Val>>>)
    ensures |r| == |vals| && forall i :: 0 <= i < |vals| ==> r[i] == Some(vals[i])
  {
    seq(|vals|, i requires 0 <= i < |vals| => Some(vals[i]))
  }

  /** Empty lists in place of those from `lo` to `hi`. */
  ghost function Emptied(was: seq<Pointee>, lo: nat, hi: nat): (r: seq<Pointee>)
    ensures |r| == |was| && forall i :: 0 <= i < |was| ==> r[i] == if lo <= i < hi then List([]) else was[i]
  {
    seq(|was|, i requires 0 <= i < |was| => if lo <= i < hi then List([]) else was[i])
  }

  /** What the slots hold: the copies, then empty lists up to the old length, then what was there. */
  ghost function SliceCopies(vals: seq<seq<Val>>, was: seq<Pointee>, len: nat): (r: seq<Pointee>)
    ensures |r| == if |was| < |vals| then |vals| else |was|
    ensures forall i :: 0 <= i < |r| ==>
              r[i] == if i < |vals| then List(CopiedAll(vals[i])) else if i < len then List([]) else was[i]
  {
    seq(if |was| < |vals| then |vals| else |was|,
        i requires 0 <= i && (i < |vals| || i < |was|) =>
          if i < |vals| then List(CopiedAll(vals[i])) else if i < len then List([]) else was[i])
  }

  lemma CopiesAre(vals: seq<seq<Val>>, was: seq<Pointee>, len: nat)
    requires |vals| <= |was| && forall i :: 0 <= i < |vals| ==> !was[i].Nil?
    ensures CopiedPointers(Somes(vals), Emptied(was, |vals|, len)) == SliceCopies(vals, was, len)
  {
    hide CopiedAll;
  }

  lemma FreshCopiesAre(vals: seq<seq<Val>>, none: seq<Pointee>, was: seq<Pointee>, len: nat)
    requires |was| < |vals| == |none| && forall i :: 0 <= i < |none| ==> none[i] == List([])
    ensures CopiedPointers(Somes(vals), none) == SliceCopies(vals, was, len)
  {
    hide CopiedAll;
  }

  lemma NoneNil(objs: seq<ArrayValue>, cs: seq<Pointee>, q: seq<set<object>>, p: Pools, r: set<object>)
    requires Laid(objs, cs, q, p, r)
    ensures forall i :: 0 <= i < |objs| ==> !cs[i].Nil? && objs[i] in q[i]
  {
    hide HoldsAll;
    assert forall i :: 0 <= i < |objs| ==> Placed(objs[i], cs[i], q[i], p, r);
  }

  /** make([]ArrayValue, n). */
  method FreshLists(n: nat, p: Pools, ghost r: set<object>)
    returns (all: seq<ArrayValue>, ghost cs: seq<Pointee>, ghost q: seq<set<object>>)
    requires p.Valid()
    ensures |all| == |cs| == n && Laid(all, cs, q, p, r) && (forall o :: o in Area(q) ==> fresh(o))
    ensures forall i :: 0 <= i < n ==> cs[i] == List([])
  {
    all, cs, q := [], [], [];
    while |all| < n
      invariant |all| == |cs| <= n && Laid(all, cs, q, p, r) && (forall o :: o in Area(q) ==> fresh(o))
      invariant forall i :: 0 <= i < |all| ==> cs[i] == List([])
      decreases n - |all|
    {
      hide Placed;
      var a := new ArrayValue();
      LaidMore(all, cs, q, p, r, a);
      all, cs, q := all + [a], cs + [List([])], q + [{a}];
    }
  }

  /** The slots from `lo` to `hi` are deleted. */
  method DeleteSlots(objs: seq<ArrayValue>, lo: nat, hi: nat, p: Pools,
                     ghost cs: seq<Pointee>, ghost q: seq<set<object>>, ghost r: set<object>)
    returns (ghost q': seq<set<object>>)
    requires hi <= |objs| && p.Valid() && r !! p.All() && Laid(objs, cs, q, p, r)
    modifies p, Area(q)
    ensures p.Valid() && r !! p.All() && Laid(objs, Emptied(cs, lo, hi), q', p, r) && Area(q') <= Area(q)
    ensures forall o :: o in p.All() ==> o in old(p.All()) || o in Area(q)
  {
    hide Laid, Area;
    LaidSizes(objs, cs, q, p, r);
    NoneNil(objs, cs, q, p, r);
    q' := q;
    assert Emptied(cs, lo, lo) == cs;
    var i := lo;
    while i < hi
      invariant lo <= i && (i <= hi || i == lo) && p.Valid() && r !! p.All()
      invariant |q'| == |q| && Area(q') <= Area(q) && forall k :: i <= k < |q| ==> q'[k] == q[k]
      invariant Laid(objs, Emptied(cs, lo, i), q', p, r)
      invariant forall o :: o in p.All() ==> o in old(p.All()) || o in Area(q)
    {
      DeleteAt(objs, i, false, p, Emptied(cs, lo, i), q', r);
      AreaAt(q', i, Itself(objs[i]));
      q' := q'[i := Itself(objs[i])];
      assert Emptied(cs, lo, i + 1) == Emptied(cs, lo, i)[i := List([])];
      i := i + 1;
    }
    assert Emptied(cs, lo, i) == Emptied(cs, lo, hi);
  }

  /**
   CopyArrayValueSlice. The slots of the destination are the lists `dest`, of which the
   first `destLen` are in use. The result has the content of the source, each list in a
   region apart from the others, from the source and from the pools. Slots in excess are
   emptied, and the source is as it was.
   */
  method CopyArrayValueSlice(dest: seq<ArrayValue>, destLen: nat, src: seq<ArrayValue>, p: Pools,
                             ghost was: seq<Pointee>, ghost q: seq<set<object>>,
                             ghost vals: seq<seq<Val>>, ghost r: set<object>)
    returns (res: seq<ArrayValue>, ghost q': seq<set<object>>)
    requires destLen <= |dest| && p.Valid() && r !! p.All() && p !in r
    requires AllRead(src, Somes(vals), r) && Laid(dest, was, q, p, r)
    modifies p, p.wrappers, p.arrays, Area(q)
    ensures p.Valid() && r !! p.All() && AllRead(src, Somes(vals), r)
    ensures |res| == |src| && (|src| <= |dest| ==> res == dest[..|src|])
    ensures Laid(if |dest| < |src| then res else dest, SliceCopies(vals, was, destLen), q', p, r)
  {
    hide Laid, Area, Reads;
    LaidSizes(dest, was, q, p, r);
    if |dest| < |src| {
      ghost var none, made;
      res, none, made := FreshLists(|src|, p, r);
      q' := CopyEach(res, src, p, Somes(vals), none, made, r);
      FreshCopiesAre(vals, none, was, destLen);
    } else {
      res := dest[..|src|];
      NoneNil(dest, was, q, p, r);
      q' := DeleteSlots(dest, |src|, destLen, p, was, q, r);
      q' := CopyEach(dest, src, p, Somes(vals), Emptied(was, |src|, destLen), q', r);
      CopiesAre(vals, was, destLen);
    }
  }

  // ------------------------------------------------------------------ slices of pointers

  /** What `n` pointers have behind them once new ones point to empty lists. */
  ghost function Extended(was: seq<Pointee>, n: nat): (r: seq<Pointee>)
    ensures |r| == n && forall i :: 0 <= i < n ==> r[i] == if i < |was| then was[i] else List([])
  {
    seq(n, i requires 0 <= i < n => if i < |was| then was[i] else List([]))
  }

  /** The pointers in excess are deleted and cleared. */
  method DeleteExcess(dest: array<ArrayValue?>, n: nat, len: nat, p: Pools,
                      ghost was: seq<Pointee>, ghost q: seq<set<object>>, ghost r: set<object>)
    requires n <= len <= dest.Length && p.Valid() && r !! p.All()
    requires Laid(dest[..len], was, q, p, r) && dest !in Area(q)
    modifies dest, p, Area(q)
    ensures p.Valid() && r !! p.All()
    ensures |was| == |q| == len && Laid(dest[..n], was[..n], q[..n], p, r) && Area(q[..n]) <= Area(q)
    ensures forall i :: 0 <= i < dest.Length ==> dest[i] == if n <= i < len then null else old(dest[i])
    ensures forall o :: o in p.All() ==> o in old(p.All()) || o in Area(q)
  {
    hide Laid, Area;
    LaidSizes(dest[..len], was, q, p, r);
    ghost var cs, q' := was, q;
    for i := n to len
      invariant p.Valid() && r !! p.All() && Laid(dest[..len], cs, q', p, r)
      invariant |cs| == |q'| == len && cs[..n] == was[..n] && q'[..n] == q[..n]
      invariant Area(q') <= Area(q) && forall k :: i <= k < len ==> q'[k] == q[k]
      invariant forall k :: 0 <= k < dest.Length ==> dest[k] == if n <= k < i then null else old(dest[k])
      invariant forall o :: o in p.All() ==> o in old(p.All()) || o in Area(q)
    {
      ghost var objs := dest[..len];
      DeleteAt(dest[..len], i, true, p, cs, q', r);
      AreaAt(q', i, {});
      cs, q' := cs[i := Nil], q'[i := {}];
      dest[i] := null;
      assert dest[..len] == objs[i := null];
    }
    LaidPart(dest[..len], cs, q', p, r, n);
    assert dest[..len][..n] == dest[..n];
  }

  /** New pointers are added from position `len` on. */
  method AddMissing(res: array<ArrayValue?>, len: nat, n: nat, p: Pools,
                    ghost was: seq<Pointee>, ghost q: seq<set<object>>, ghost r: set<object>)
    returns (ghost q': seq<set<object>>)
    requires len <= n <= res.Length && p.Valid() && r !! p.All()
    requires Laid(res[..len], was, q, p, r) && res !in Area(q)
    modifies res, p`arrays
    ensures p.Valid() && p.arrays <= old(p.arrays)
    ensures Laid(res[..n], Extended(was, n), q', p, r) && res !in Area(q')
    ensures forall i :: 0 <= i < res.Length && !(len <= i < n) ==> res[i] == old(res[i])
    ensures forall o :: o in Area(q') ==> o in Area(q) || o in old(p.arrays) || fresh(o)
  {
    hide Laid, Area;
    LaidSizes(res[..len], was, q, p, r);
    q' := q;
    assert Extended(was, len) == was;
    for i := len to n
      invariant p.Valid() && p.arrays <= old(p.arrays) && p.wrappers == old(p.wrappers)
      invariant Laid(res[..i], Extended(was, i), q', p, r) && res !in Area(q')
      invariant forall k :: 0 <= k < res.Length && !(len <= k < i) ==> res[k] == old(res[k])
      invariant forall o :: o in Area(q') ==> o in Area(q) || o in old(p.arrays) || fresh(o)
    {
      var a := AddOne(res[..i], p, Extended(was, i), q', r);
      assert Extended(was, i + 1) == Extended(was, i) + [List([])];
      q' := q' + [{a}];
      ghost var objs := res[..i];
      res[i] := a;
      assert res[..i + 1] == objs + [a];
    }
  }

  /** A larger array with the old pointers in it. */
  method Grow(dest: array<ArrayValue?>, len: nat, n: nat, p: Pools,
              ghost was: seq<Pointee>, ghost q: seq<set<object>>, ghost r: set<object>)
    returns (res: array<ArrayValue?>)
    requires len <= dest.Length < n && p.Valid() && Laid(dest[..len], was, q, p, r)
    ensures fresh(res) && res.Length == n && res !in Area(q)
    ensures p.Valid() && Laid(res[..len], was, q, p, r) && res[..len] == dest[..len]
  {
    hide Placed;
    res := new ArrayValue?[n](_ => null);
    forall i | 0 <= i < len {
      res[i] := dest[i];
    }
    assert res[..len] == dest[..len];
  }

  /**
   CopyArrayValuePtrSlice. Each pointer of the result points to what CopiedPointer says,
   by the content of the source and what the destination had there, a new pointer having
   had an empty list. What it points to is in a region apart from the others, from the
   source and from the pools. Pointers that were there are used again, what the
   destination had in excess is no longer pointed to, and the source is as it was.
   */
  method CopyArrayValuePtrSlice(dest: array<ArrayValue?>, destLen: nat, src: seq<ArrayValue?>, p: Pools,
                                ghost was: seq<Pointee>, ghost q: seq<set<object>>,
                                ghost vals: seq<Option<seq<Val>>>, ghost r: set<object>)
    returns (res: array<ArrayValue?>, ghost q': seq<set<object>>)
    requires destLen <= dest.Length && p.Valid() && r !! p.All() && p !in r
    requires AllRead(src, vals, r)
    requires Laid(dest[..destLen], was, q, p, r) && dest !in r && dest !in Area(q)
    modifies dest, p, p.wrappers, p.arrays, Area(q)
    ensures p.Valid() && r !! p.All() && AllRead(src, vals, r)
    ensures |src| <= res.Length && Laid(res[..|src|], CopiedPointers(vals, Extended(was, |src|)), q', p, r)
    ensures forall i :: 0 <= i < destLen && i < |src| ==> res[i] == old(dest[i])
    ensures forall i, j :: 0 <= i < j < |src| && res[i] != null ==> res[i] != res[j]
    ensures if dest.Length < |src| then fresh(res) else res == dest
    ensures forall i :: |src| <= i < destLen ==> dest[i] == null
  {
    hide Laid, Area, Reads;
    LaidSizes(dest[..destLen], was, q, p, r);
    if dest.Length < |src| {
      res := Grow(dest, destLen, |src|, p, was, q, r);
      q' := AddMissing(res, destLen, |src|, p, was, q, r);
    } else {
      res := dest;
      var n := if |src| < destLen then |src| else destLen;
      DeleteExcess(dest, n, destLen, p, was, q, r);
      q' := AddMissing(dest, n, |src|, p, was[..n], q[..n], r);
      assert Extended(was[..n], |src|) == Extended(was, |src|);
    }
    ghost var before := res[..];
    q' := CopyEach(res[..|src|], src, p, vals, Extended(was, |src|), q', r);
    assert res[..] == before;
    LaidDistinct(res[..|src|], CopiedPointers(vals, Extended(was, |src|)), q', p, r);
  }

  /** A new list of one scalar. */
  method OneScalar(x: int) returns (a: ArrayValue, ghost q: set<object>)
    ensures HoldsAll(a, [Scalar(x)], q) && Alone(a, q) && fresh(q)
  {
    var w := new Wrapper();
    w.scalar := x;
    a := new ArrayValue();
    a.data, a.len := new Wrapper?[1](_ => w), 1;
    q := {a, a.data, w};
  }

  lemma OneLaid(o: ArrayValue?, c: Pointee, q: set<object>, p: Pools, r: set<object>)
    requires Placed(o, c, q, p, r)
    ensures Laid([o], [c], [q], p, r) && Area([q]) == q
  {
    hide Placed;
    assert [q][0] == q;
  }

  /** A nil source over a list with one value: the result still points to that list and its value. */
  method NilSourceKeepsOld(x: int) returns (res: array<ArrayValue?>)
    ensures res.Length == 1 && res[0] != null && res[0].len == 1 && res[0].data != null && res[0].data.Length >= 1
    ensures res[0].data[0] != null && res[0].data[0].kind == ScalarKind && res[0].data[0].scalar == x
  {
    hide Laid, Area, AllRead, HoldsAll, Alone;
    var a, q := OneScalar(x);
    var p := new Pools(true);
    var dest := new ArrayValue?[1](_ => a);
    OneLaid(a, List([Scalar(x)]), q, p, {});
    NilRead();
    assert dest[..1] == [a];
    ghost var q';
    res, q' := CopyArrayValuePtrSlice(dest, 1, [null], p, [List([Scalar(x)])], [q], [None], {});
    FirstLaid(res[..1], CopiedPointers([None], Extended([List([Scalar(x)])], 1)), q', p, {});
    ScalarBehind(res[0], x, q'[0]);
  }

  /** A list over a nil pointer: the result is nil, and the copy is lost. */
  method NilDestinationStaysNil(x: int) returns (res: array<ArrayValue?>)
    ensures res.Length == 1 && res[0] == null
  {
    hide Laid, Area, AllRead, HoldsAll;
    var a, r := OneScalar(x);
    var p := new Pools(true);
    var dest := new ArrayValue?[1](_ => null);
    OneLaid(null, Nil, {}, p, r);
    OneRead(a, [Scalar(x)], r);
    assert dest[..1] == [null];
    ghost var q';
    res, q' := CopyArrayValuePtrSlice(dest, 1, [a], p, [Nil], [{}], [Some([Scalar(x)])], r);
  }

  lemma ScalarBehind(a: ArrayValue, x: int, q: set<object>)
    requires HoldsAll(a, [Scalar(x)], q)
    ensures a.len == 1 && a.data != null && a.data.Length >= 1
    ensures a.data[0] != null && a.data[0].kind == ScalarKind && a.data[0].scalar == x
  {
    assert Holds(a.data[0], [Scalar(x)][0], q);
  }

  lemma NilRead()
    ensures AllRead([null], [None], {})
  {
  }

  lemma OneRead(a: ArrayValue, vals: seq<Val>, r: set<object>)
    requires HoldsAll(a, vals, r)
    ensures AllRead([a], [Some(vals)], r)
  {
    hide HoldsAll;
  }

  lemma FirstLaid(objs: seq<ArrayValue?>, cs: seq<Pointee>, q: seq<set<object>>, p: Pools, r: set<object>)
    requires Laid(objs, cs, q, p, r) && objs != []
    ensures q != [] && PointsTo(objs[0], cs[0], q[0])
  {
    hide HoldsAll, PointsTo;
    assert Placed(objs[0], cs[0], q[0], p, r);
  }
}
