/**
 Escaping: doubling every '$' of a configuration protects it from expansion, and the
 resolver's final un-escaping gives the configuration back.
 */
module Escaping {
  import opened Text
  import opened Expand
  import opened References

  /** Every '$' of the text doubled. */
  function Doubled(s: string): (r: string)
    ensures '$' !in s ==> r == s
  {
    if s == "" then "" else (if s[0] == '$' then "$$" else [s[0]]) + Doubled(s[1..])
  }

  function DoubledValue(v: Value): Value
    decreases v
  {
    match v
    case Str(s) => Str(Doubled(s))
    case Expanded(value, original) => Expanded(DoubledValue(value), Doubled(original))
    case List(items) => List(seq(|items|, i requires 0 <= i < |items| => DoubledValue(items[i])))
    case Map(m) => Map(map k | k in m :: DoubledValue(m[k]))
    case _ => v
  }

  /** No ExpandedValue wraps a string or another ExpandedValue. */
  predicate Direct(v: Value)
    decreases v
  {
    match v
    case Expanded(value, _) => !value.Str? && !value.Expanded? && Direct(value)
    case List(items) => forall i :: 0 <= i < |items| ==> Direct(items[i])
    case Map(m) => forall k :: k in m ==> Direct(m[k])
    case _ => true
  }

  /** The value with every such wrapper taken off. */
  function Unwrapped(v: Value): (r: Value)
    decreases v
  {
    match v
    case Expanded(value, original) =>
      var u := Unwrapped(value);
      if u.Str? || u.Expanded? then u else Expanded(u, original)
    case List(items) => List(seq(|items|, i requires 0 <= i < |items| => Unwrapped(items[i])))
    case Map(m) => Map(map k | k in m :: Unwrapped(m[k]))
    case _ => v
  }

  lemma {:induction false} DollarsBeforePrefix(s: string, t: string, i: nat)
    requires i <= |s|
    ensures DollarsBefore(s + t, i) == DollarsBefore(s, i)
  {
    if i > 0 && s[i - 1] == '$' {
      DollarsBeforePrefix(s, t, i - 1);
    }
  }

  lemma DollarsBeforeStep(s: string, i: nat)
    requires i < |s|
    ensures DollarsBefore(s, i + 1) == if s[i] == '$' then 1 + DollarsBefore(s, i) else 0
  {
  }

  /** Appending a doubled character keeps the run of '$' at the end even. */
  lemma EvenRunKept(p: string, c: char)
    requires DollarsBefore(p, |p|) % 2 == 0
    ensures var q := p + Doubled([c]); DollarsBefore(q, |q|) % 2 == 0
  {
    hide Doubled, DollarsBefore;
    DoubledSteps([c]);
    var q := p + Doubled([c]);
    if c == '$' {
      DollarsBeforePrefix(p, Doubled([c]), |p|);
      DollarsBeforeStep(q, |p|);
      DollarsBeforeStep(q, |p| + 1);
    } else {
      DollarsBeforeStep(q, |p|);
    }
  }

  lemma DoubledSteps(s: string)
    ensures s == "" ==> Doubled(s) == ""
    ensures s != "" ==> && Doubled([s[0]]) == (if s[0] == '$' then "$$" else [s[0]])
                        && Doubled(s) == Doubled([s[0]]) + Doubled(s[1..])
  {
  }

  /** Behind a prefix that ends in an even run, every opening of doubled text is escaped. */
  lemma {:induction false} OpeningsEscaped(p: string, s: string, open: nat)
    requires DollarsBefore(p, |p|) % 2 == 0
    requires |p| <= open + 1 && OpensAt(p + Doubled(s), open)
    ensures DollarsBefore(p + Doubled(s), open) % 2 == 1
    decreases s
  {
    hide Doubled, DollarsBefore;
    DoubledSteps(s);
    DoubledSteps([s[0]]);
    var first := Doubled([s[0]]);
    var d := p + Doubled(s);
    assert d == (p + first) + Doubled(s[1..]);
    if open + 1 >= |p + first| {
      EvenRunKept(p, s[0]);
      OpeningsEscaped(p + first, s[1..], open);
    } else {
      assert open + 1 == |p|;
      DollarsBeforePrefix(p, Doubled(s), |p|);
      DollarsBeforeStep(d, open);
    }
  }

  lemma DoubledHasNoReference(env: Env, s: string)
    ensures NoReference(env, Doubled(s))
  {
    hide IsReference, DollarsBefore, Doubled;
    assert "" + Doubled(s) == Doubled(s);
    forall o, c ensures !IsReference(env, Doubled(s), o, c) {
      if OpensAt(Doubled(s), o) {
        NoDollars();
        OpeningsEscaped("", s, o);
      }
      EscapedIsNoReference(env, Doubled(s), o, c);
    }
  }

  lemma NoDollars()
    ensures DollarsBefore("", 0) == 0
  {
  }

  lemma EscapedIsNoReference(env: Env, s: string, open: int, close: int)
    requires OpensAt(s, open) ==> DollarsBefore(s, open) % 2 == 1
    ensures !IsReference(env, s, open, close)
  {
  }

  lemma {:induction false} DoubledIsFullyExpanded(env: Env, v: Value)
    ensures FullyExpanded(env, DoubledValue(v))
    decreases v
  {
    match v {
      case Str(s) => DoubledHasNoReference(env, s);
      case Expanded(value, original) =>
        DoubledIsFullyExpanded(env, value);
        DoubledHasNoReference(env, original);
      case List(items) =>
        forall i | 0 <= i < |items| ensures FullyExpanded(env, DoubledValue(items[i])) {
          DoubledIsFullyExpanded(env, items[i]);
        }
      case Map(m) =>
        forall k | k in m ensures FullyExpanded(env, DoubledValue(m[k])) {
          DoubledIsFullyExpanded(env, m[k]);
        }
      case _ =>
    }
  }

  /** A pass over a value without references only takes off superfluous wrappers. */
  lemma {:induction false} PassOnFullyExpanded(env: Env, v: Value)
    requires FullyExpanded(env, v)
    ensures ExpandValue(env, v) == Done(Unwrapped(v), false)
    decreases v
  {
    match v {
      case Str(s) => StringUnchangedIffNoReference(env, s);
      case Expanded(value, original) =>
        PassOnFullyExpanded(env, value);
        StringUnchangedIffNoReference(env, original);
      case List(items) =>
        forall i | 0 <= i < |items| ensures ExpandValue(env, items[i]) == Done(Unwrapped(items[i]), false) {
          PassOnFullyExpanded(env, items[i]);
        }
        assert ExpandValue(env, v).val.items == Unwrapped(v).items;
      case Map(m) =>
        forall k | k in m ensures ExpandValue(env, m[k]) == Done(Unwrapped(m[k]), false) {
          PassOnFullyExpanded(env, m[k]);
        }
        assert ExpandValue(env, v).val.entries == Unwrapped(v).entries;
      case _ =>
    }
  }

  lemma {:induction false} UnwrappedIffDirect(v: Value)
    ensures Unwrapped(v) == v <==> Direct(v)
    decreases v
  {
    match v {
      case Str(_) =>
      case Expanded(value, original) =>
        UnwrappedIffDirect(value);
        UnwrappedSize(value);
      case List(items) =>
        forall i | 0 <= i < |items| ensures Unwrapped(items[i]) == items[i] <==> Direct(items[i]) {
          UnwrappedIffDirect(items[i]);
        }
        if Direct(v) {
          assert Unwrapped(v).items == items;
        } else {
          var i :| 0 <= i < |items| && !Direct(items[i]);
          assert Unwrapped(v).items[i] != items[i];
        }
      case Map(m) =>
        forall k | k in m ensures Unwrapped(m[k]) == m[k] <==> Direct(m[k]) {
          UnwrappedIffDirect(m[k]);
        }
        if Direct(v) {
          assert Unwrapped(v).entries == m;
        } else {
          var k :| k in m && !Direct(m[k]);
          assert Unwrapped(v).entries[k] != m[k];
        }
      case _ =>
    }
  }

  /** How many ExpandedValue wrappers stand around the outside of a value. */
  function Wrappers(v: Value): nat {
    if v.Expanded? then 1 + Wrappers(v.value) else 0
  }

  /** Unwrapping leaves at most one outer wrapper, and none that was not there. */
  lemma {:induction false} UnwrappedSize(v: Value)
    ensures Wrappers(Unwrapped(v)) <= Wrappers(v)
    ensures Unwrapped(v).Str? ==> v.Str? || v.Expanded?
    ensures v.Str? ==> Unwrapped(v).Str?
    decreases v
  {
    if v.Expanded? {
      UnwrappedSize(v.value);
    }
  }

  lemma {:induction false} ReplaceUndoesDoubled(s: string)
    ensures ReplaceAll(Doubled(s), "$$", "$") == s
  {
    if s != "" {
      ReplaceUndoesDoubled(s[1..]);
      if s[0] == '$' {
        assert Doubled(s)[..2] == "$$" && Doubled(s)[2..] == Doubled(s[1..]);
      } else {
        assert Doubled(s)[0] == s[0] && Doubled(s)[1..] == Doubled(s[1..]);
        ReplaceAllSkips([s[0]], Doubled(s[1..]), "$$", "$");
      }
    }
  }

  /** Un-escaping gives back every value whose '$' were doubled. */
  lemma {:induction false} EscapeUndoesDoubled(v: Value)
    ensures EscapeDollarSigns(DoubledValue(v)) == v
    decreases v
  {
    match v {
      case Str(s) => ReplaceUndoesDoubled(s);
      case Expanded(value, original) =>
        EscapeUndoesDoubled(value);
        ReplaceUndoesDoubled(original);
      case List(items) =>
        forall i | 0 <= i < |items| ensures EscapeDollarSigns(DoubledValue(items[i])) == items[i] {
          EscapeUndoesDoubled(items[i]);
        }
        assert EscapeDollarSigns(DoubledValue(v)).items == items;
      case Map(m) =>
        forall k | k in m ensures EscapeDollarSigns(DoubledValue(m[k])) == m[k] {
          EscapeUndoesDoubled(m[k]);
        }
        assert EscapeDollarSigns(DoubledValue(v)).entries == m;
      case _ =>
    }
  }

  lemma {:induction false} DoubledUnwrapped(v: Value)
    ensures Unwrapped(DoubledValue(v)) == DoubledValue(Unwrapped(v))
    decreases v
  {
    match v {
      case Str(_) =>
      case Expanded(value, original) => DoubledUnwrapped(value);
      case List(items) =>
        forall i | 0 <= i < |items| ensures Unwrapped(DoubledValue(items[i])) == DoubledValue(Unwrapped(items[i])) {
          DoubledUnwrapped(items[i]);
        }
        assert Unwrapped(DoubledValue(v)).items == DoubledValue(Unwrapped(v)).items;
      case Map(m) =>
        forall k | k in m ensures Unwrapped(DoubledValue(m[k])) == DoubledValue(Unwrapped(m[k])) {
          DoubledUnwrapped(m[k]);
        }
        assert Unwrapped(DoubledValue(v)).entries == DoubledValue(Unwrapped(v)).entries;
      case _ =>
    }
  }

  /**
   For every configuration, whatever the default scheme and the providers: expansion
   never changes the doubled configuration beyond taking off superfluous wrappers, it
   returns it untouched exactly when there are none, and exactly then un-escaping the
   result gives back the configuration.
   */
  lemma DoublingProtects(env: Env, v: Value)
    ensures ExpandRecursively(env, DoubledValue(v)) == Resolved(DoubledValue(Unwrapped(v)))
    ensures ExpandRecursively(env, DoubledValue(v)) == Resolved(DoubledValue(v)) <==> Direct(v)
    ensures EscapeDollarSigns(ExpandRecursively(env, DoubledValue(v)).val) == v <==> Direct(v)
  {
    DoubledIsFullyExpanded(env, v);
    PassOnFullyExpanded(env, DoubledValue(v));
    DoubledUnwrapped(v);
    UnwrappedIffDirect(v);
    EscapeUndoesDoubled(v);
    EscapeUndoesDoubled(Unwrapped(v));
  }

  /** A string that keeps its original loses it, so that it does not come back. */
  lemma DoublingCanFail(env: Env)
    ensures var v := Expanded(Str("a"), "a");
            && ExpandRecursively(env, DoubledValue(v)) == Resolved(Str("a"))
            && Str("a") != DoubledValue(v) && EscapeDollarSigns(Str("a")) != v
  {
    var v := Expanded(Str("a"), "a");
    assert Doubled("a") == "a";
    hide ExpandRecursively, Doubled;
    DoublingProtects(env, v);
  }
}
