/**
 The append-merge of component lists (confmap/internal/merge.go): the lists of several
 configurations are joined without repeating an entry.
 */
module Merge {

  /** `src` merged behind `acc`: what is present already is left out. */
  function Merged<T(==)>(acc: seq<T>, src: seq<T>): seq<T>
    decreases src
  {
    if src == [] then acc
    else if src[0] in acc then Merged(acc, src[1..])
    else Merged(acc + [src[0]], src[1..])
  }

  method IsPresent<T(==)>(slice: seq<T>, val: T) returns (r: bool)
    ensures r <==> val in slice
  {
    for i := 0 to |slice|
      invariant val !in slice[..i]
    {
      if val == slice[i] {
        return true;
      }
    }
    return false;
  }

  /** mergeSlice: the elements of `dest`, and then those of `src` that are not there yet. */
  method MergeSlice<T(==)>(src: seq<T>, dest: seq<T>) returns (slice: seq<T>)
    ensures slice == Merged(dest, src)
  {
    slice := [];
    for i := 0 to |dest|
      invariant slice == dest[..i]
    {
      slice := slice + [dest[i]];
    }
    assert dest[..|dest|] == dest;
    for i := 0 to |src|
      invariant Merged(dest, src) == Merged(slice, src[i..])
    {
      assert src[i..][1..] == src[i + 1..];
      var present := IsPresent(slice, src[i]);
      if present {
        continue;
      }
      slice := slice + [src[i]];
    }
  }

  /** The positions of `src` whose element is neither in `have` nor earlier in `src`. */
  function FirstOccurrences<T(==)>(have: seq<T>, src: seq<T>): seq<T> {
    if src == [] then [] else
    var last := |src| - 1;
    FirstOccurrences(have, src[..last])
    + if src[last] in have || src[last] in src[..last] then [] else [src[last]]
  }

  lemma {:induction false} MergedSnoc<T>(a: seq<T>, b: seq<T>, x: T)
    ensures Merged(a, b + [x]) == var m := Merged(a, b); if x in m then m else m + [x]
    decreases b
  {
    if b == [] {
      assert b + [x] == [x] && [x][1..] == [];
    } else {
      assert (b + [x])[1..] == b[1..] + [x];
      MergedSnoc(if b[0] in a then a else a + [b[0]], b[1..], x);
    }
  }

  /** The merge holds exactly the elements of the two lists. */
  lemma {:induction false} MergedMembers<T>(a: seq<T>, b: seq<T>, x: T)
    ensures x in Merged(a, b) <==> x in a || x in b
    decreases b
  {
    if b != [] {
      MergedMembers(if b[0] in a then a else a + [b[0]], b[1..], x);
      assert x in b <==> x == b[0] || x in b[1..];
    }
  }

  /** The merge is the first list followed by each later element at its first occurrence. */
  lemma {:induction false} MergedIsFirstOccurrences<T>(a: seq<T>, b: seq<T>)
    ensures Merged(a, b) == a + FirstOccurrences(a, b)
    decreases b
  {
    if b == [] {
      assert a + [] == a;
    } else {
      var init, x := b[..|b| - 1], b[|b| - 1];
      assert b == init + [x];
      MergedSnoc(a, init, x);
      MergedMembers(a, init, x);
      MergedIsFirstOccurrences(a, init);
      assert a + FirstOccurrences(a, b) == (a + FirstOccurrences(a, init)) + if x in a || x in init then [] else [x];
    }
  }

  /** Merging in a list that is present already changes nothing. */
  lemma {:induction false} MergedAbsorbs<T>(a: seq<T>, b: seq<T>)
    requires forall x :: x in b ==> x in a
    ensures Merged(a, b) == a
    decreases b
  {
    if b != [] {
      assert b[0] in b;
      MergedAbsorbs(a, b[1..]);
    }
  }

  /** Merging is idempotent. */
  lemma MergeIdempotent<T>(a: seq<T>, b: seq<T>)
    ensures Merged(a, a) == a
    ensures Merged(Merged(a, b), b) == Merged(a, b)
  {
    MergedAbsorbs(a, a);
    forall x | x in b ensures x in Merged(a, b) {
      MergedMembers(a, b, x);
    }
    MergedAbsorbs(Merged(a, b), b);
  }

  lemma {:induction false} MergedConcat<T>(a: seq<T>, b: seq<T>, c: seq<T>)
    ensures Merged(a, b + c) == Merged(Merged(a, b), c)
    decreases b
  {
    if b == [] {
      assert b + c == c;
    } else {
      assert (b + c)[1..] == b[1..] + c;
      MergedConcat(if b[0] in a then a else a + [b[0]], b[1..], c);
    }
  }

  /** Behind a list that holds `b`, only the first occurrences beyond `b` matter. */
  lemma {:induction false} MergedFirstOccurrences<T>(a: seq<T>, b: seq<T>, c: seq<T>)
    requires forall x :: x in b ==> x in a
    ensures Merged(a, FirstOccurrences(b, c)) == Merged(a, c)
    decreases c
  {
    if c != [] {
      var init, x := c[..|c| - 1], c[|c| - 1];
      assert c == init + [x];
      MergedFirstOccurrences(a, b, init);
      MergedSnoc(a, init, x);
      MergedMembers(a, init, x);
      if x in b || x in init {
        assert FirstOccurrences(b, c) == FirstOccurrences(b, init);
      } else {
        MergedSnoc(a, FirstOccurrences(b, init), x);
      }
    }
  }

  /** Merging is associative. */
  lemma MergeAssociative<T>(a: seq<T>, b: seq<T>, c: seq<T>)
    ensures Merged(Merged(a, b), c) == Merged(a, Merged(b, c))
  {
    MergedIsFirstOccurrences(b, c);
    MergedConcat(a, b, FirstOccurrences(b, c));
    forall x | x in b ensures x in Merged(a, b) {
      MergedMembers(a, b, x);
    }
    MergedFirstOccurrences(Merged(a, b), b, c);
  }

  function Flatten<T>(lists: seq<seq<T>>): seq<T> {
    if lists == [] then [] else lists[0] + Flatten(lists[1..])
  }

  /** The lists of several configurations merged one after the other, as Resolve merges them. */
  method MergeAll<T(==)>(first: seq<T>, lists: seq<seq<T>>) returns (merged: seq<T>)
    ensures merged == first + FirstOccurrences(first, Flatten(lists))
  {
    merged := first;
    MergedIsFirstOccurrences(first, Flatten(lists));
    for i := 0 to |lists|
      invariant Merged(first, Flatten(lists)) == Merged(merged, Flatten(lists[i..]))
    {
      assert lists[i..][1..] == lists[i + 1..];
      MergedConcat(merged, lists[i], Flatten(lists[i + 1..]));
      merged := MergeSlice(lists[i], merged);
    }
  }
}
