/**
 Text made of literals and references: the pass-by-pass rewriting of
 expandValueRecursively computes simultaneous substitution, and does so exactly when
 the distinct references fit under the pass limit.
 */
module Templates {
  import opened Common
  import opened Text
  import opened Expand
  import opened References

  datatype Segment = Lit(text: string) | Ref(uri: string)

  function RefText(uri: string): string {
    "${" + uri + "}"
  }

  function SegmentText(g: Segment): string {
    match g
    case Lit(text) => text
    case Ref(uri) => RefText(uri)
  }

  /** The text of a template as it stands in the configuration. */
  function Render(t: seq<Segment>): string {
    if t == [] then "" else SegmentText(t[0]) + Render(t[1..])
  }

  /** What a provider is asked for. */
  function FullUri(env: Env, uri: string): string {
    if ':' in uri then uri else env.defaultScheme + ":" + uri
  }

  /** The reference is well formed, and there is a provider for it. */
  ghost predicate WellFormed(env: Env, uri: string) {
    && '$' !in uri && '}' !in uri
    && exists scheme, rest :: Askable(env, scheme, rest) && FullUri(env, uri) == scheme + ":" + rest
  }

  lemma FetchFull(env: Env, uri: string)
    requires WellFormed(env, uri)
    ensures Fetch(env, RefText(uri)) == env.retrieve(FullUri(env, uri))
    ensures env.defaultScheme != "" || ':' in uri
  {
    var scheme, rest :| Askable(env, scheme, rest) && FullUri(env, uri) == scheme + ":" + rest;
    if ':' in uri {
      assert RefText(uri) == "${" + scheme + ":" + rest + "}";
    }
    FetchNamed(env, RefText(uri), scheme, rest);
  }

  /** Moreover its provider answers with a string without '$'. */
  ghost predicate Resolvable(env: Env, uri: string) {
    && WellFormed(env, uri)
    && var ret := env.retrieve(FullUri(env, uri));
       && ret.Some? && ret.value.raw.Str?
       && (ret.value.repr == None || ret.value.repr == Some(ret.value.raw.s))
       && '$' !in ret.value.raw.s
  }

  function ValueOf(env: Env, uri: string): (v: string)
    requires Resolvable(env, uri)
    ensures '$' !in v
  {
    env.retrieve(FullUri(env, uri)).value.raw.s
  }

  /** Literals hold no '$' and every reference is resolvable. */
  ghost predicate Proper(env: Env, t: seq<Segment>) {
    forall g :: g in t ==> if g.Lit? then '$' !in g.text else Resolvable(env, g.uri)
  }

  /** All references replaced at once. */
  function Substituted(env: Env, t: seq<Segment>): string
    requires Proper(env, t)
  {
    if t == [] then ""
    else (if t[0].Lit? then t[0].text else ValueOf(env, t[0].uri)) + Substituted(env, t[1..])
  }

  /** The distinct references of a template. */
  function Refs(t: seq<Segment>): set<string> {
    set g | g in t && g.Ref? :: g.uri
  }

  /** Every occurrence of one reference replaced by its value. */
  function SubstituteOne(t: seq<Segment>, uri: string, v: string): (r: seq<Segment>)
    ensures |r| == |t|
    ensures forall i :: 0 <= i < |t| ==> r[i] == if t[i] == Ref(uri) then Lit(v) else t[i]
  {
    seq(|t|, i requires 0 <= i < |t| => if t[i] == Ref(uri) then Lit(v) else t[i])
  }

  lemma {:induction false} RenderConcat(a: seq<Segment>, b: seq<Segment>)
    ensures Render(a + b) == Render(a) + Render(b)
  {
    if a == [] {
      assert a + b == b;
    } else {
      assert (a + b)[1..] == a[1..] + b;
      RenderConcat(a[1..], b);
    }
  }

  lemma {:induction false} LiteralsOnly(env: Env, t: seq<Segment>)
    requires Proper(env, t) && forall g :: g in t ==> g.Lit?
    ensures '$' !in Render(t) && Render(t) == Substituted(env, t)
  {
    if t != [] {
      LiteralsOnly(env, t[1..]);
    }
  }

  /** Text with one reference behind `$`-free text: that reference closes first. */
  lemma FindsLeading(env: Env, a: string, uri: string, b: string)
    requires '$' !in a && '$' !in uri && '}' !in uri
    requires env.defaultScheme != "" || ':' in uri
    ensures '}' in a + RefText(uri) + b && ContainsOpen(a + RefText(uri) + b)
    ensures FindURI(env, a + RefText(uri) + b) == RefText(uri)
  {
    var s := a + RefText(uri) + b;
    var o, c := |a|, |a| + 2 + |uri|;
    assert s[o] == '$' && s[o + 1] == '{' && s[c] == '}';
    assert s[o + 2..c] == uri && s[o..c + 1] == RefText(uri);
    assert OpensAt(s, o);
    assert forall j :: 0 <= j < o ==> s[j] == a[j];
    assert forall j :: o + 2 <= j < c ==> s[j] == uri[j - o - 2];
    LeadingIsReference(env, s, o, c);
    hide FindURI, DollarsBefore, LastOpen, IndexOf, RefText;
    FindURIFindsFirst(env, s);
    assert FindURI(env, s) != "";
    var open, close :| ClosesFirst(env, s, open, close) && FindURI(env, s) == s[open..close + 1];
    assert close <= c;
    assert open == o;
    assert close == c;
  }

  lemma LeadingIsReference(env: Env, s: string, o: nat, c: nat)
    requires o + 2 <= c < |s| && OpensAt(s, o) && s[c] == '}'
    requires forall j :: 0 <= j < o ==> s[j] != '$'
    requires forall j :: o + 2 <= j < c ==> s[j] != '$' && s[j] != '}'
    requires env.defaultScheme != "" || ':' in s[o + 2..c]
    ensures IsReference(env, s, o, c)
  {
    if env.defaultScheme == "" {
      OccursIffIn(':', s, o + 2, c);
    }
  }

  /** ReplaceAll on rendered text replaces exactly the occurrences of that reference. */
  lemma {:induction false} ReplaceInRender(t: seq<Segment>, uri: string, v: string)
    requires '}' !in uri
    requires forall g :: g in t ==> '$' !in (if g.Lit? then g.text else g.uri)
    requires forall g :: g in t && g.Ref? ==> '}' !in g.uri
    ensures ReplaceAll(Render(t), RefText(uri), v) == Render(SubstituteOne(t, uri, v))
  {
    if t != [] {
      var rest := Render(t[1..]);
      var s := Render(t);
      var pat := RefText(uri);
      ReplaceInRender(t[1..], uri, v);
      assert SubstituteOne(t, uri, v)[1..] == SubstituteOne(t[1..], uri, v);
      if t[0].Lit? {
        ReplaceAllSkips(t[0].text, rest, pat, v);
      } else if t[0].uri == uri {
        assert s == pat + rest;
        assert s[..|pat|] == pat && s[|pat|..] == rest;
      } else {
        ReplacePassesOver(t[0].uri, rest, uri, v);
      }
    }
  }

  /** Another reference does not match the pattern, and holds no further '$'. */
  lemma ReplacePassesOver(other: string, rest: string, uri: string, v: string)
    requires other != uri && '$' !in other && '}' !in other && '}' !in uri
    ensures ReplaceAll(RefText(other) + rest, RefText(uri), v)
         == RefText(other) + ReplaceAll(rest, RefText(uri), v)
  {
    hide ReplaceAll;
    var pat, ref := RefText(uri), RefText(other);
    var tail := "{" + other + "}";
    assert ref == "$" + tail && pat != "" && pat[0] == '$';
    assert '$' !in tail;
    if pat <= ref + rest {
      ReferencePrefix(other, rest, uri);
      assert false;
    }
    hide RefText;
    ReplaceAllSkips(tail, rest, pat, v);
    ReplaceAllMiss(ref + rest, pat, v);
    assert (ref + rest)[1..] == tail + rest;
    Reassociated("$", tail, ReplaceAll(rest, pat, v));
  }

  lemma {:induction false} FirstBrace(a: string, b: string)
    requires '}' !in a
    ensures '}' in a + "}" + b && IndexOf(a + "}" + b, '}') == |a|
  {
    var s := a + "}" + b;
    assert s[|a|] == '}';
    if a != "" {
      assert s[0] == a[0] && s[1..] == a[1..] + "}" + b;
      FirstBrace(a[1..], b);
    }
  }

  /** Rendered references are prefix-free: one starts text that starts with another only if equal. */
  lemma ReferencePrefix(other: string, rest: string, uri: string)
    requires '}' !in other && '}' !in uri
    requires RefText(uri) <= RefText(other) + rest
    ensures other == uri
  {
    var s := RefText(other) + rest;
    var more := s[|uri| + 3..];
    assert s == RefText(uri) + more;
    assert s[2..] == other + "}" + rest;
    assert s[2..] == uri + "}" + more;
    FirstBrace(other, rest);
    FirstBrace(uri, more);
    assert other == s[2..][..|other|] && uri == s[2..][..|uri|];
  }

  lemma SubstituteOneProper(env: Env, t: seq<Segment>, uri: string)
    requires Proper(env, t) && uri in Refs(t)
    ensures Resolvable(env, uri)
    ensures var t' := SubstituteOne(t, uri, ValueOf(env, uri));
            Proper(env, t') && Refs(t') == Refs(t) - {uri}
  {
    assert Ref(uri) in t;
    var v := ValueOf(env, uri);
    var t' := SubstituteOne(t, uri, v);
    forall g | g in t' ensures if g.Lit? then '$' !in g.text else Resolvable(env, g.uri) && g.uri in Refs(t) - {uri} {
      var i :| 0 <= i < |t'| && t'[i] == g;
      assert t[i] in t;
    }
    forall u | u in Refs(t) - {uri} ensures u in Refs(t') {
      var i :| 0 <= i < |t| && t[i] == Ref(u);
      assert t'[i] == Ref(u);
    }
  }

  lemma {:induction false} SubstituteOneKeepsResult(env: Env, t: seq<Segment>, uri: string)
    requires Proper(env, t) && Resolvable(env, uri)
    requires Proper(env, SubstituteOne(t, uri, ValueOf(env, uri)))
    ensures Substituted(env, SubstituteOne(t, uri, ValueOf(env, uri))) == Substituted(env, t)
  {
    if t != [] {
      var t' := SubstituteOne(t, uri, ValueOf(env, uri));
      assert t'[1..] == SubstituteOne(t[1..], uri, ValueOf(env, uri));
      assert forall g :: g in t'[1..] ==> g in t';
      SubstituteOneKeepsResult(env, t[1..], uri);
    }
  }

  /** The position of the leftmost reference. */
  function FirstRef(t: seq<Segment>): (i: nat)
    requires Refs(t) != {}
    ensures i < |t| && t[i].Ref? && forall j :: 0 <= j < i ==> t[j].Lit?
  {
    if t[0].Ref? then 0 else
      var u :| u in Refs(t);
      assert Ref(u) in t && Ref(u) in t[1..];
      assert u in Refs(t[1..]);
      1 + FirstRef(t[1..])
  }

  lemma SplitRender(t: seq<Segment>, i: nat)
    requires i < |t|
    ensures Render(t) == Render(t[..i]) + SegmentText(t[i]) + Render(t[i + 1..])
  {
    hide Render, SegmentText;
    Sliced(t, i);
    RenderAround(t[..i], t[i], t[i + 1..]);
  }

  lemma Sliced<T>(t: seq<T>, i: nat)
    requires i < |t|
    ensures t == t[..i] + ([t[i]] + t[i + 1..])
  {
  }

  lemma RenderAround(head: seq<Segment>, g: Segment, tail: seq<Segment>)
    ensures Render(head + ([g] + tail)) == Render(head) + SegmentText(g) + Render(tail)
  {
    hide Render, SegmentText;
    RenderConcat(head, [g] + tail);
    RenderStep([g] + tail);
    assert ([g] + tail)[1..] == tail;
    Reassociated(Render(head), SegmentText(g), Render(tail));
  }

  lemma RenderStep(t: seq<Segment>)
    requires t != []
    ensures Render(t) == SegmentText(t[0]) + Render(t[1..])
  {
    hide SegmentText;
  }

  lemma Reassociated(a: string, b: string, c: string)
    ensures a + b + c == a + (b + c)
  {
  }

  /** What findAndExpandURI makes of a text in which it finds a resolvable reference. */
  lemma ExpandFound(env: Env, s: string, u: string)
    requires ContainsOpen(s) && '}' in s && FindURI(env, s) == RefText(u)
    requires Resolvable(env, u)
    ensures var v := ValueOf(env, u);
            ExpandString(env, s) == Done(if s == RefText(u) then Expanded(Str(v), v)
                                         else Str(ReplaceAll(s, RefText(u), v)), true)
  {
    FetchFull(env, u);
    hide FindURI, ReplaceAll;
  }

  /**
   A text that is one reference becomes what the provider answers, of whatever type, with
   its string representation as the original if it has one.
   */
  lemma WholeReference(env: Env, uri: string)
    requires WellFormed(env, uri)
    ensures var ret, o := env.retrieve(FullUri(env, uri)), ExpandString(env, RefText(uri));
            && (ret.None? ==> o == Fail)
            && (ret.Some? && ret.value.repr.Some? ==> o == Done(Expanded(ret.value.raw, ret.value.repr.value), true))
            && (ret.Some? && ret.value.repr.None? && ret.value.raw.Str? ==>
                  o == Done(Expanded(ret.value.raw, ret.value.raw.s), true))
            && (ret.Some? && ret.value.repr.None? && !ret.value.raw.Str? ==> o == Done(ret.value.raw, true))
  {
    FetchFull(env, uri);
    FindsLeading(env, "", uri, "");
    assert "" + RefText(uri) + "" == RefText(uri);
    hide FindURI, ReplaceAll;
  }

  /** In a longer text the reference must have a string representation, and is replaced by it. */
  lemma EmbeddedReference(env: Env, a: string, uri: string, b: string)
    requires WellFormed(env, uri) && '$' !in a && (a != "" || b != "")
    ensures var ret, s := env.retrieve(FullUri(env, uri)), a + RefText(uri) + b;
            && (ret.Some? && ret.value.repr.Some? ==>
                  ExpandString(env, s) == Done(Str(ReplaceAll(s, RefText(uri), ret.value.repr.value)), true))
            && (ret.Some? && ret.value.repr.None? && ret.value.raw.Str? ==>
                  ExpandString(env, s) == Done(Str(ReplaceAll(s, RefText(uri), ret.value.raw.s)), true))
            && (ret.None? || (ret.value.repr.None? && !ret.value.raw.Str?) ==> ExpandString(env, s) == Fail)
  {
    FetchFull(env, uri);
    FindsLeading(env, a, uri, b);
    hide FindURI, ReplaceAll;
  }

  lemma FindsFirstRef(env: Env, t: seq<Segment>)
    requires Proper(env, t) && Refs(t) != {}
    ensures var u := t[FirstRef(t)].uri;
            && Resolvable(env, u) && ContainsOpen(Render(t)) && '}' in Render(t)
            && FindURI(env, Render(t)) == RefText(u)
  {
    var i := FirstRef(t);
    assert t[i] in t;
    FetchFull(env, t[i].uri);
    SplitRender(t, i);
    LiteralsOnly(env, t[..i]);
    FindsLeading(env, Render(t[..i]), t[i].uri, Render(t[i + 1..]));
  }

  /** A string that came in through a whole reference goes on like any other string. */
  lemma WrapperComesOff(env: Env, v: string, passes: nat)
    requires '$' !in v
    ensures ExpandPasses(env, Expanded(Str(v), v), passes) == ExpandPasses(env, Str(v), passes)
  {
    assert !ContainsOpen(v);
    assert ExpandValue(env, Expanded(Str(v), v)) == ExpandValue(env, Str(v));
  }

  lemma ReplaceWhole(s: string, v: string)
    requires s != ""
    ensures ReplaceAll(s, s, v) == v
  {
    assert s[..|s|] == s && s[|s|..] == "";
  }

  /** One pass rewrites the leftmost reference wherever it occurs. */
  lemma OnePass(env: Env, t: seq<Segment>, u: string, passes: nat)
    requires Proper(env, t) && Refs(t) != {} && u == t[FirstRef(t)].uri
    requires Resolvable(env, u) && passes > 0
    ensures ExpandPasses(env, Str(Render(t)), passes)
         == ExpandPasses(env, Str(Render(SubstituteOne(t, u, ValueOf(env, u)))), passes - 1)
  {
    hide ExpandPasses, Render, ReplaceAll, FindURI;
    var s, v := Render(t), ValueOf(env, u);
    FindsFirstRef(env, t);
    ReplaceInRender(t, u, v);
    OneRewrite(env, s, u, passes);
  }

  lemma OneRewrite(env: Env, s: string, u: string, passes: nat)
    requires ContainsOpen(s) && '}' in s && FindURI(env, s) == RefText(u)
    requires Resolvable(env, u) && passes > 0
    ensures ExpandPasses(env, Str(s), passes)
         == ExpandPasses(env, Str(ReplaceAll(s, RefText(u), ValueOf(env, u))), passes - 1)
  {
    hide ExpandString, ReplaceAll, FindURI, LastOpen, IndexOf;
    var v := ValueOf(env, u);
    ExpandFound(env, s, u);
    if s == RefText(u) {
      ReplaceWhole(s, v);
      WrapperComesOff(env, v, passes - 1);
    }
  }

  lemma NoRefsIsLiteral(env: Env, t: seq<Segment>)
    requires Proper(env, t) && forall g :: g in t ==> g.Lit?
    ensures ExpandString(env, Render(t)) == Done(Str(Substituted(env, t)), false)
  {
    LiteralsOnly(env, t);
  }

  /** With `passes` left, the rewriting ends exactly when fewer references are left. */
  lemma {:induction false} PassesSubstitute(env: Env, t: seq<Segment>, passes: nat)
    requires Proper(env, t)
    ensures ExpandPasses(env, Str(Render(t)), passes) ==
            if |Refs(t)| < passes then Resolved(Str(Substituted(env, t))) else TooManyExpansions
    decreases passes
  {
    hide ExpandPasses, ExpandString, Render, Substituted, Resolvable, FirstRef, SubstituteOne;
    if passes == 0 {
      NoPasses(env, t);
    } else if forall g :: g in t ==> g.Lit? {
      assert Refs(t) == {};
      LiteralPass(env, t, passes);
    } else {
      var g :| g in t && g.Ref?;
      assert g.uri in Refs(t);
      var u := t[FirstRef(t)].uri;
      assert t[FirstRef(t)] in t;
      SubstituteOneProper(env, t, u);
      OnePass(env, t, u, passes);
      SubstituteOneKeepsResult(env, t, u);
      PassesSubstitute(env, SubstituteOne(t, u, ValueOf(env, u)), passes - 1);
    }
  }

  lemma NoPasses(env: Env, t: seq<Segment>)
    ensures ExpandPasses(env, Str(Render(t)), 0) == TooManyExpansions
  {
  }

  lemma LiteralPass(env: Env, t: seq<Segment>, passes: nat)
    requires Proper(env, t) && passes > 0 && forall g :: g in t ==> g.Lit?
    ensures ExpandPasses(env, Str(Render(t)), passes) == Resolved(Str(Substituted(env, t)))
  {
    hide ExpandString, Render, Substituted;
    NoRefsIsLiteral(env, t);
  }

  /**
   For every template of `$`-free literals and resolvable references to `$`-free
   strings, expansion yields simultaneous substitution if there are at most 999 distinct
   references, and otherwise reports too many expansions.
   */
  lemma ExpansionIsSubstitution(env: Env, t: seq<Segment>)
    requires Proper(env, t)
    ensures |Refs(t)| <= 999 ==> ExpandRecursively(env, Str(Render(t))) == Resolved(Str(Substituted(env, t)))
    ensures |Refs(t)| > 999 ==> ExpandRecursively(env, Str(Render(t))) == TooManyExpansions
  {
    PassesSubstitute(env, t, MAX_PASSES);
  }
}
