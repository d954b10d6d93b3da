/**
 String operations of the Go standard library that the collector's text formats
 rest on: Contains, Index, LastIndex, ReplaceAll, Split and Join, with the facts
 about them that the formats need.
 */
module Text {

  /** strings.Index for a single character that is known to occur. */
  function IndexOf(s: string, c: char): (i: nat)
    requires c in s
    ensures i < |s| && s[i] == c && c !in s[..i]
  {
    if s[0] == c then 0 else
      var i := 1 + IndexOf(s[1..], c);
      assert s[..i] == [s[0]] + s[1..][..i - 1];
      i
  }

  /** Whether the two characters at `i` open a reference. */
  predicate OpensAt(s: string, i: int) {
    0 <= i && i + 1 < |s| && s[i] == '$' && s[i + 1] == '{'
  }

  /** strings.LastIndex(s, "${"): the last opening, or -1. */
  function LastOpen(s: string): (i: int)
    ensures -1 <= i < |s|
    ensures i >= 0 ==> OpensAt(s, i)
    ensures forall j :: i < j ==> !OpensAt(s, j)
    decreases |s|
  {
    if |s| < 2 then -1
    else if s[|s| - 2] == '$' && s[|s| - 1] == '{' then |s| - 2
    else
      var p := s[..|s| - 1];
      assert forall j :: j + 1 < |p| ==> (OpensAt(p, j) <==> OpensAt(s, j));
      LastOpen(p)
  }

  /** strings.Contains(s, "${"). */
  predicate ContainsOpen(s: string) {
    LastOpen(s) >= 0
  }

  /** How many '$' stand immediately before position `i`. */
  function DollarsBefore(s: string, i: nat): (n: nat)
    requires i <= |s|
    ensures n <= i
    ensures forall j :: i - n <= j < i ==> s[j] == '$'
    ensures n < i ==> s[i - n - 1] != '$'
  {
    if i == 0 || s[i - 1] != '$' then 0 else 1 + DollarsBefore(s, i - 1)
  }

  /** strings.ReplaceAll for a non-empty pattern: leftmost, non-overlapping. */
  function ReplaceAll(s: string, pat: string, sub: string): (r: string)
    requires pat != ""
  {
    if |s| < |pat| then s
    else if s[..|pat|] == pat then sub + ReplaceAll(s[|pat|..], pat, sub)
    else [s[0]] + ReplaceAll(s[1..], pat, sub)
  }

  /** Where the pattern does not start, the first character stays. */
  lemma ReplaceAllMiss(s: string, pat: string, sub: string)
    requires pat != "" && s != "" && !(pat <= s)
    ensures ReplaceAll(s, pat, sub) == [s[0]] + ReplaceAll(s[1..], pat, sub)
  {
    assert pat <= s <==> |pat| <= |s| && s[..|pat|] == pat;
    assert s == [s[0]] + s[1..];
  }

  lemma ReplaceAllStep(s: string, pat: string, sub: string)
    requires pat != "" && s != "" && s[0] != pat[0]
    ensures ReplaceAll(s, pat, sub) == [s[0]] + ReplaceAll(s[1..], pat, sub)
  {
    if |s| >= |pat| {
      assert s[..|pat|][0] == s[0];
    }
  }

  /** Text that holds no first character of the pattern is passed over. */
  lemma {:induction false} ReplaceAllSkips(a: string, b: string, pat: string, sub: string)
    requires pat != "" && pat[0] !in a
    ensures ReplaceAll(a + b, pat, sub) == a + ReplaceAll(b, pat, sub)
  {
    hide ReplaceAll;
    if a == "" {
      assert a + b == b;
    } else {
      assert (a + b)[0] == a[0] && (a + b)[1..] == a[1..] + b;
      ReplaceAllStep(a + b, pat, sub);
      ReplaceAllSkips(a[1..], b, pat, sub);
    }
  }

  /** The counting loop of findURI: the '$' run immediately before `open`. */
  method CountDollars(s: string, open: nat) returns (count: nat)
    requires open < |s|
    ensures count == DollarsBefore(s, open)
  {
    var index := open - 1;
    var current := '$';
    count := 0;
    while index >= 0 && current == '$'
      invariant -1 <= index < open
      invariant current == '$' ==> DollarsBefore(s, open) == count + DollarsBefore(s, index + 1)
      invariant current != '$' ==> DollarsBefore(s, open) == count
      decreases index + 1
    {
      current := s[index];
      if current == '$' {
        count := count + 1;
      }
      index := index - 1;
    }
  }

  // ------------------------------------------------------------ splitting and joining

  /** strings.Split at a single character. */
  function Split(s: string, c: char): (r: seq<string>)
    ensures |r| >= 1
    ensures forall p :: p in r ==> c !in p
  {
    if c !in s then [s] else
    var i := IndexOf(s, c);
    [s[..i]] + Split(s[i + 1..], c)
  }

  /** strings.Join with a single character. */
  function Join(parts: seq<string>, c: char): string {
    if parts == [] then "" else if |parts| == 1 then parts[0] else parts[0] + [c] + Join(parts[1..], c)
  }

  /** A delimiter behind each part. */
  function Terminated(parts: seq<string>, c: char): string {
    if parts == [] then "" else parts[0] + [c] + Terminated(parts[1..], c)
  }

  lemma {:induction false} JoinTerminated(parts: seq<string>, c: char)
    requires parts != []
    ensures Join(parts, c) + [c] == Terminated(parts, c)
  {
    if |parts| > 1 {
      JoinTerminated(parts[1..], c);
    }
  }

  lemma {:induction false} IndexOfFirst(a: string, c: char, b: string)
    requires c !in a
    ensures c in a + [c] + b && IndexOf(a + [c] + b, c) == |a|
  {
    var s := a + [c] + b;
    assert s[|a|] == c;
    if a != "" {
      assert s[0] == a[0] && s[1..] == a[1..] + [c] + b;
      IndexOfFirst(a[1..], c, b);
    }
  }

  lemma SplitFirst(a: string, c: char, b: string)
    requires c !in a
    ensures Split(a + [c] + b, c) == [a] + Split(b, c)
  {
    hide IndexOf;
    IndexOfFirst(a, c, b);
    var s := a + [c] + b;
    assert s[..|a|] == a && s[|a| + 1..] == b;
  }

  /** Splitting undoes joining parts that do not hold the delimiter. */
  lemma {:induction false} SplitJoin(parts: seq<string>, c: char)
    requires parts != [] && forall p :: p in parts ==> c !in p
    ensures Split(Join(parts, c), c) == parts
  {
    hide Split;
    if |parts| == 1 {
      SplitOne(parts[0], c);
    } else {
      SplitJoin(parts[1..], c);
      SplitFirst(parts[0], c, Join(parts[1..], c));
    }
  }

  lemma SplitOne(s: string, c: char)
    requires c !in s
    ensures Split(s, c) == [s]
  {
  }

  lemma {:induction false} SplitTerminated(parts: seq<string>, c: char)
    requires forall p :: p in parts ==> c !in p
    ensures Split(Terminated(parts, c), c) == parts + [""]
  {
    hide Split;
    if parts == [] {
      SplitOne("", c);
    } else {
      SplitTerminated(parts[1..], c);
      SplitFirst(parts[0], c, Terminated(parts[1..], c));
    }
  }

  // ------------------------------------------------------------------------- sorting

  /** The order of strings by their characters. */
  predicate Leq(a: string, b: string) {
    a == "" || (b != "" && (a[0] < b[0] || (a[0] == b[0] && Leq(a[1..], b[1..]))))
  }

  predicate Less(a: string, b: string) {
    Leq(a, b) && a != b
  }

  lemma {:induction false} LeqTotal(a: string, b: string)
    ensures Leq(a, b) || Leq(b, a)
    ensures Leq(a, b) && Leq(b, a) ==> a == b
  {
    if a != "" && b != "" {
      LeqTotal(a[1..], b[1..]);
    }
  }

  lemma {:induction false} LeqTransitive(a: string, b: string, c: string)
    requires Leq(a, b) && Leq(b, c)
    ensures Leq(a, c)
  {
    if a != "" && b != "" && c != "" && a[0] == b[0] == c[0] {
      LeqTransitive(a[1..], b[1..], c[1..]);
    }
  }

  predicate Sorted(s: seq<string>) {
    forall i, j :: 0 <= i < j < |s| ==> Leq(s[i], s[j])
  }

  /** Sorted without repetition. */
  predicate Ascending(s: seq<string>) {
    forall i, j :: 0 <= i < j < |s| ==> Less(s[i], s[j])
  }

  function Insert(x: string, s: seq<string>): (r: seq<string>)
    ensures multiset(r) == multiset(s) + multiset{x}
    ensures forall y :: y in r <==> y == x || y in s
  {
    if s == [] then [x]
    else if Leq(x, s[0]) then [x] + s
    else
      var r := [s[0]] + Insert(x, s[1..]);
      assert s == [s[0]] + s[1..];
      assert forall y :: y in r <==> y == s[0] || y in Insert(x, s[1..]);
      r
  }

  /** sort.Strings: an ascending rearrangement. */
  function Sort(s: seq<string>): (r: seq<string>)
    ensures multiset(r) == multiset(s)
    ensures forall y :: y in r <==> y in s
  {
    if s == [] then [] else
      assert s == [s[0]] + s[1..];
      Insert(s[0], Sort(s[1..]))
  }

  lemma SortedCons(x: string, s: seq<string>)
    requires Sorted(s) && (forall y :: y in s ==> Leq(x, y))
    ensures Sorted([x] + s)
  {
    var r := [x] + s;
    forall i, j | 0 <= i < j < |r| ensures Leq(r[i], r[j]) {
      assert r[j] == s[j - 1] && s[j - 1] in s;
    }
  }

  lemma {:induction false} InsertSorted(x: string, s: seq<string>)
    requires Sorted(s)
    ensures Sorted(Insert(x, s))
  {
    if s != [] {
      LeqTotal(x, s[0]);
      var tail := s[1..];
      assert Sorted(tail);
      if Leq(x, s[0]) {
        forall y | y in s ensures Leq(x, y) {
          if y != s[0] {
            assert Leq(s[0], y);
            LeqTransitive(x, s[0], y);
          }
        }
        SortedCons(x, s);
      } else {
        InsertSorted(x, tail);
        assert forall y :: y in tail ==> Leq(s[0], y);
        SortedCons(s[0], Insert(x, tail));
      }
    }
  }

  lemma {:induction false} SortSorts(s: seq<string>)
    ensures Sorted(Sort(s))
  {
    if s != [] {
      SortSorts(s[1..]);
      InsertSorted(s[0], Sort(s[1..]));
    }
  }

  /** slices.Compact: of equal neighbours only the first stays. */
  function Compact(s: seq<string>): (r: seq<string>)
    ensures forall y :: y in r <==> y in s
    ensures s != [] ==> r != [] && r[0] == s[0]
  {
    if |s| < 2 then s
    else if s[0] == s[1] then
      assert s == [s[0]] + s[1..];
      Compact(s[1..])
    else
      var r := [s[0]] + Compact(s[1..]);
      assert s == [s[0]] + s[1..];
      assert forall y :: y in r <==> y == s[0] || y in Compact(s[1..]);
      r
  }

  lemma {:induction false} CompactAscends(s: seq<string>)
    requires Sorted(s)
    ensures Ascending(Compact(s))
  {
    if |s| >= 2 {
      var tail := s[1..];
      assert Sorted(tail);
      CompactAscends(tail);
      if s[0] != s[1] {
        var c := Compact(tail);
        forall j | 0 <= j < |c| ensures Less(s[0], c[j]) {
          assert c[j] in tail;
          var i :| 0 <= i < |tail| && tail[i] == c[j];
          assert Leq(s[0], s[i + 1]);
          if c[j] == s[0] {
            assert Leq(s[0], s[1]) && Leq(s[1], s[i + 1]) by {
              LeqTotal(s[1], s[1]);
            }
            LeqTotal(s[0], s[1]);
          }
        }
      }
    }
  }

  lemma FirstIn(s: seq<string>)
    requires s != []
    ensures s[0] in s
  {
  }

  /** Ascending sequences of the same strings are equal. */
  lemma {:induction false} AscendingUnique(a: seq<string>, b: seq<string>)
    requires Ascending(a) && Ascending(b)
    requires forall x :: x in a <==> x in b
    ensures a == b
    decreases |a|
  {
    if a == [] {
      if b != [] {
        FirstIn(b);
      }
    } else {
      FirstIn(a);
      assert a[0] in b && a[0] in a;
      assert b[0] in a && b[0] in b;
      LeqTotal(a[0], b[0]);
      SmallestFirst(a, b[0]);
      SmallestFirst(b, a[0]);
      assert a[0] == b[0];
      forall x ensures x in a[1..] <==> x in b[1..] {
        TailMembers(a, x);
        TailMembers(b, x);
      }
      AscendingUnique(a[1..], b[1..]);
      assert a == [a[0]] + a[1..] && b == [b[0]] + b[1..];
    }
  }

  lemma SmallestFirst(a: seq<string>, x: string)
    requires Ascending(a) && x in a
    ensures Leq(a[0], x)
  {
    var i :| 0 <= i < |a| && a[i] == x;
    LeqTotal(x, x);
    if i > 0 {
      assert Less(a[0], a[i]);
    }
  }

  lemma TailMembers(a: seq<string>, x: string)
    requires Ascending(a) && a != []
    ensures x in a[1..] <==> x in a && x != a[0]
  {
    if x in a[1..] {
      var i :| 0 <= i < |a| - 1 && a[1..][i] == x;
      assert Less(a[0], a[i + 1]);
    }
  }
}
