/**
 What an expandable reference is, said without the search of findURI, and what it
 means for a value to be fully expanded.
 */
module References {
  import opened Text
  import opened Expand

  predicate Occurs(c: char, s: string, lo: nat, hi: nat)
    requires hi <= |s|
  {
    exists j :: lo <= j < hi && s[j] == c
  }

  /** `s[open..close + 1]` is a reference: innermost, not escaped, and with a scheme. */
  predicate IsReference(env: Env, s: string, open: int, close: int) {
    && OpensAt(s, open)
    && open + 2 <= close < |s| && s[close] == '}'
    && !Occurs('}', s, open, close)
    && !OpensBetween(s, open, close)
    && DollarsBefore(s, open) % 2 == 0
    && (env.defaultScheme == "" ==> Occurs(':', s, open, close))
  }

  predicate OpensBetween(s: string, open: int, close: int) {
    exists j :: open < j < close && OpensAt(s, j)
  }

  ghost predicate NoReference(env: Env, s: string) {
    forall open, close :: !IsReference(env, s, open, close)
  }

  lemma OccursIffIn(c: char, s: string, lo: nat, hi: nat)
    requires lo <= hi <= |s|
    ensures Occurs(c, s, lo, hi) <==> c in s[lo..hi]
  {
    if c in s[lo..hi] {
      var i :| 0 <= i < hi - lo && s[lo..hi][i] == c;
      assert s[lo + i] == c;
    }
    if Occurs(c, s, lo, hi) {
      var j :| lo <= j < hi && s[j] == c;
      assert s[lo..hi][j - lo] == c;
    }
  }

  /** Dropping text up to and including a '}' keeps the '$' runs of what follows. */
  lemma {:induction false} DollarsBeforeSuffix(s: string, k: nat, i: nat)
    requires k <= i <= |s|
    requires k == 0 || s[k - 1] != '$'
    ensures DollarsBefore(s[k..], i - k) == DollarsBefore(s, i)
  {
    if i > k && s[i - 1] == '$' {
      DollarsBeforeSuffix(s, k, i - 1);
    }
  }

  lemma OccursInSuffix(c: char, s: string, k: nat, lo: nat, hi: nat)
    requires k <= lo <= hi <= |s|
    ensures Occurs(c, s[k..], lo - k, hi - k) <==> Occurs(c, s, lo, hi)
  {
    OccursIffIn(c, s, lo, hi);
    OccursIffIn(c, s[k..], lo - k, hi - k);
    assert s[k..][lo - k..hi - k] == s[lo..hi];
  }

  lemma OpensInSuffix(s: string, k: nat, open: nat, close: nat)
    requires k <= open && k <= |s|
    ensures OpensAt(s[k..], open - k) <==> OpensAt(s, open)
    ensures OpensBetween(s[k..], open - k, close - k) <==> OpensBetween(s, open, close)
  {
    if OpensBetween(s, open, close) {
      var j :| open < j < close && OpensAt(s, j);
      assert OpensAt(s[k..], j - k);
    }
    if OpensBetween(s[k..], open - k, close - k) {
      var j :| open - k < j < close - k && OpensAt(s[k..], j);
      assert OpensAt(s, j + k);
    }
  }

  lemma ReferenceInSuffix(env: Env, s: string, k: nat, open: nat, close: nat)
    requires 0 < k <= open <= close < |s|
    requires s[k - 1] == '}'
    ensures IsReference(env, s[k..], open - k, close - k) <==> IsReference(env, s, open, close)
  {
    DollarsBeforeSuffix(s, k, open);
    OccursInSuffix('}', s, k, open, close);
    OccursInSuffix(':', s, k, open, close);
    OpensInSuffix(s, k, open, close);
  }

  /** A reference whose '}' is the first one starts at the last opening before it. */
  lemma FirstCandidate(env: Env, s: string, open: int, close: int)
    requires '}' in s
    requires IsReference(env, s, open, close)
    ensures close >= IndexOf(s, '}')
    ensures close == IndexOf(s, '}') ==> open == LastOpen(s[..close + 1])
    ensures close > IndexOf(s, '}') ==> open > IndexOf(s, '}')
  {
    var c := IndexOf(s, '}');
    assert forall i :: 0 <= i < c ==> s[i] == s[..c][i];
    var p := s[..close + 1];
    assert OpensAt(p, open);
    assert OpensAt(s, LastOpen(p));
  }

  /** The reference at `open` closes before every other one. */
  ghost predicate ClosesFirst(env: Env, s: string, open: int, close: int) {
    && 0 <= open < close < |s| && IsReference(env, s, open, close)
    && forall o, c :: IsReference(env, s, o, c) ==> close <= c
  }

  /** `r` is the reference of `s` that closes first, or "" when there is none. */
  ghost predicate IsFirstReference(env: Env, s: string, r: string) {
    if r == "" then NoReference(env, s)
    else exists open, close :: ClosesFirst(env, s, open, close) && r == s[open..close + 1]
  }

  /** The references of `s` all lie behind the '}' at `k - 1`. */
  ghost predicate AllBehind(env: Env, s: string, k: nat) {
    0 < k <= |s| && s[k - 1] == '}' && forall o, c :: IsReference(env, s, o, c) ==> k <= o
  }

  lemma NoReferenceInSuffix(env: Env, s: string, k: nat)
    requires AllBehind(env, s, k)
    requires NoReference(env, s[k..])
    ensures NoReference(env, s)
  {
    forall o, c ensures !IsReference(env, s, o, c) {
      if k <= o <= c < |s| {
        ReferenceInSuffix(env, s, k, o, c);
      }
    }
  }

  lemma ClosesFirstInSuffix(env: Env, s: string, k: nat, open: nat, close: nat)
    requires AllBehind(env, s, k)
    requires ClosesFirst(env, s[k..], open, close)
    ensures ClosesFirst(env, s, open + k, close + k)
  {
    ReferenceInSuffix(env, s, k, open + k, close + k);
    forall o, c | IsReference(env, s, o, c) ensures close + k <= c {
      ReferenceInSuffix(env, s, k, o, c);
    }
  }

  /** Text whose references all lie behind a '}' has the first reference of what follows. */
  lemma FirstReferenceInSuffix(env: Env, s: string, k: nat, r: string)
    requires AllBehind(env, s, k)
    requires IsFirstReference(env, s[k..], r)
    ensures IsFirstReference(env, s, r)
  {
    hide IsReference;
    if r == "" {
      NoReferenceInSuffix(env, s, k);
    } else {
      var open, close :| ClosesFirst(env, s[k..], open, close) && r == s[k..][open..close + 1];
      ClosesFirstInSuffix(env, s, k, open, close);
      assert s[k..][open..close + 1] == s[open + k..close + k + 1];
    }
  }

  /** The first candidate of findURI, when the search stops at it, is a reference. */
  lemma CandidateIsReference(env: Env, s: string, open: nat, close: nat)
    requires '}' in s && close == IndexOf(s, '}') && open == LastOpen(s[..close + 1])
    requires env.defaultScheme == "" ==> ':' in s[open..close + 1]
    requires DollarsBefore(s, open) % 2 == 0
    ensures IsReference(env, s, open, close)
  {
    hide LastOpen, IndexOf, DollarsBefore;
    var p := s[..close + 1];
    assert OpensAt(p, open);
    assert !Occurs('}', s, open, close) by {
      assert forall i :: 0 <= i < close ==> s[i] == s[..close][i];
    }
    assert !OpensBetween(s, open, close) by {
      assert forall j :: open < j < close ==> (OpensAt(s, j) <==> OpensAt(p, j));
    }
    if env.defaultScheme == "" {
      OccursIffIn(':', s, open, close + 1);
    }
  }

  /**
   findURI finds exactly the reference that closes first, and finds none only when
   there is none.
   */
  lemma {:induction false} FindURIFindsFirst(env: Env, s: string)
    requires '}' in s
    ensures IsFirstReference(env, s, FindURI(env, s))
    decreases |s|
  {
    hide IsReference, DollarsBefore, AllBehind, ClosesFirst, NoReference, FindURI, LastOpen, IndexOf, OpensAt;
    FindURIStep(env, s);
    var close := IndexOf(s, '}');
    var k := close + 1;
    var open := LastOpen(s[..k]);
    if open < 0 || (env.defaultScheme == "" && ':' !in s[open..k]) || DollarsBefore(s, open) % 2 == 1 {
      CandidateFails(env, s);
      if '}' !in s[k..] {
        NothingBehind(env, s, k);
      } else {
        FindURIFindsFirst(env, s[k..]);
        FirstReferenceInSuffix(env, s, k, FindURI(env, s[k..]));
      }
    } else {
      CandidateIsReference(env, s, open, close);
      CandidateClosesFirst(env, s);
    }
  }

  lemma FindURIStep(env: Env, s: string)
    requires '}' in s
    ensures var close := IndexOf(s, '}');
            var k := close + 1;
            var open := LastOpen(s[..k]);
            FindURI(env, s) == if open < 0 || (env.defaultScheme == "" && ':' !in s[open..k])
                                  || DollarsBefore(s, open) % 2 == 1
                               then if '}' in s[k..] then FindURI(env, s[k..]) else ""
                               else s[open..k]
  {
    hide LastOpen, IndexOf, DollarsBefore;
  }

  /** When the search passes over the first candidate, every reference lies behind it. */
  lemma CandidateFails(env: Env, s: string)
    requires '}' in s
    requires var k := IndexOf(s, '}') + 1;
             var open := LastOpen(s[..k]);
             open < 0 || (env.defaultScheme == "" && ':' !in s[open..k]) || DollarsBefore(s, open) % 2 == 1
    ensures AllBehind(env, s, IndexOf(s, '}') + 1)
  {
    hide LastOpen, IndexOf, DollarsBefore, Occurs, OpensBetween;
    var close := IndexOf(s, '}');
    var open := LastOpen(s[..close + 1]);
    PassedOver(env, s, open, close);
    forall o, c | IsReference(env, s, o, c) ensures close + 1 <= o {
      FirstCandidate(env, s, o, c);
    }
  }

  lemma PassedOver(env: Env, s: string, open: int, close: nat)
    requires close < |s| && open <= close && s[close] == '}'
    requires open < 0 || (env.defaultScheme == "" && ':' !in s[open..close + 1]) || DollarsBefore(s, open) % 2 == 1
    ensures !IsReference(env, s, open, close)
  {
    hide DollarsBefore;
    if open >= 0 {
      OccursIffIn(':', s, open, close + 1);
    }
  }

  lemma CandidateClosesFirst(env: Env, s: string)
    requires '}' in s
    requires var close := IndexOf(s, '}'); var open := LastOpen(s[..close + 1]);
             open >= 0 && IsReference(env, s, open, close)
    ensures var close := IndexOf(s, '}'); ClosesFirst(env, s, LastOpen(s[..close + 1]), close)
  {
    hide LastOpen, IndexOf, DollarsBefore;
    var close := IndexOf(s, '}');
    var open := LastOpen(s[..close + 1]);
    assert open < close;
    hide IsReference;
    forall o, c | IsReference(env, s, o, c) ensures close <= c {
      FirstCandidate(env, s, o, c);
    }
  }

  lemma NothingBehind(env: Env, s: string, k: nat)
    requires AllBehind(env, s, k) && '}' !in s[k..]
    ensures NoReference(env, s)
  {
    hide DollarsBefore, Occurs, OpensBetween;
    assert forall i :: k <= i < |s| ==> s[i] == s[k..][i - k];
  }

  lemma NothingToExpand(env: Env, s: string)
    requires !ContainsOpen(s) || '}' !in s
    ensures NoReference(env, s)
  {
    forall o, c ensures !IsReference(env, s, o, c) {
      if ContainsOpen(s) && 0 <= c < |s| {
        assert s[c] in s;
      }
    }
  }

  lemma FirstIffAny(env: Env, s: string, r: string)
    requires IsFirstReference(env, s, r)
    ensures r == "" <==> NoReference(env, s)
  {
    if r != "" {
      var open, close :| ClosesFirst(env, s, open, close) && r == s[open..close + 1];
    }
  }

  /** A pass reports no change to a string exactly when the string holds no reference. */
  lemma StringUnchangedIffNoReference(env: Env, s: string)
    ensures ExpandString(env, s).Done? && !ExpandString(env, s).changed <==> NoReference(env, s)
    ensures NoReference(env, s) ==> ExpandString(env, s) == Done(Str(s), false)
  {
    hide IsFirstReference, NoReference, ContainsOpen, FindURI, ReplaceAll, Fetch;
    if !ContainsOpen(s) || '}' !in s {
      NothingToExpand(env, s);
    } else {
      FindURIFindsFirst(env, s);
      FirstIffAny(env, s, FindURI(env, s));
    }
  }

  /** No reference is left in any string of the value, originals included. */
  ghost predicate FullyExpanded(env: Env, v: Value)
    decreases v
  {
    match v
    case Str(s) => NoReference(env, s)
    case Expanded(value, original) => FullyExpanded(env, value) && NoReference(env, original)
    case List(items) => forall i :: 0 <= i < |items| ==> FullyExpanded(env, items[i])
    case Map(m) => forall k :: k in m ==> FullyExpanded(env, m[k])
    case _ => true
  }

  /** An unchanged pass returns a value that holds no reference and that a further pass keeps. */
  lemma {:induction false} UnchangedPassIsFinal(env: Env, v: Value)
    requires ExpandValue(env, v).Done? && !ExpandValue(env, v).changed
    ensures FullyExpanded(env, ExpandValue(env, v).val)
    ensures ExpandValue(env, ExpandValue(env, v).val) == ExpandValue(env, v)
    decreases v
  {
    var w := ExpandValue(env, v).val;
    match v {
      case Str(s) =>
        StringUnchangedIffNoReference(env, s);
      case Expanded(value, original) =>
        UnchangedPassIsFinal(env, value);
        StringUnchangedIffNoReference(env, original);
      case List(items) =>
        forall i | 0 <= i < |items|
          ensures FullyExpanded(env, w.items[i]) && ExpandValue(env, w.items[i]) == Done(w.items[i], false)
        {
          UnchangedPassIsFinal(env, items[i]);
        }
        assert ExpandValue(env, w).val.items == w.items;
      case Map(m) =>
        forall k | k in m
          ensures FullyExpanded(env, w.entries[k]) && ExpandValue(env, w.entries[k]) == Done(w.entries[k], false)
        {
          UnchangedPassIsFinal(env, m[k]);
        }
        assert ExpandValue(env, w).val.entries == w.entries;
      case _ =>
    }
  }

  lemma {:induction false} PassesEndFinal(env: Env, v: Value, passes: nat)
    requires ExpandPasses(env, v, passes).Resolved?
    ensures FullyExpanded(env, ExpandPasses(env, v, passes).val)
    ensures ExpandValue(env, ExpandPasses(env, v, passes).val) == Done(ExpandPasses(env, v, passes).val, false)
    decreases passes
  {
    hide ExpandValue, FullyExpanded;
    var o := ExpandValue(env, v);
    if o.changed {
      PassesEndFinal(env, o.val, passes - 1);
    } else {
      UnchangedPassIsFinal(env, v);
    }
  }

  /**
   Every value that expandValueRecursively returns holds no expandable reference, in
   any string leaf or retained original, and expanding it again returns it as it is.
   */
  lemma ExpansionIsFinal(env: Env, v: Value)
    requires ExpandRecursively(env, v).Resolved?
    ensures FullyExpanded(env, ExpandRecursively(env, v).val)
    ensures ExpandRecursively(env, ExpandRecursively(env, v).val) == ExpandRecursively(env, v)
  {
    PassesEndFinal(env, v, MAX_PASSES);
  }
}
