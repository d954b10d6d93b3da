/**
 Expansion of `${...}` references in configuration values (confmap/expand.go) and the
 un-escaping of `$$` (confmap/resolver.go), as functions on values.
 */
module Expand {
  import opened Common
  import opened Text

  /** A configuration value. `Other` stands for every scalar that is not a string. */
  datatype Value =
    | Nil
    | Str(s: string)
    | Expanded(value: Value, original: string)
    | List(items: seq<Value>)
    | Map(entries: map<string, Value>)
    | Other(n: int)

  /** What a provider returns for a URI; `repr` is the string representation, when set. */
  datatype Retrieved = Retrieved(raw: Value, repr: Option<string>) {
    function AsString(): Option<string> {
      if repr.Some? then repr
      else if raw.Str? then Some(raw.s)
      else None
    }
  }

  /** The resolver's settings, with the providers as a partial function of the URI. */
  datatype Env = Env(defaultScheme: string, schemes: set<string>, retrieve: string -> Option<Retrieved>)

  datatype Location = Location(scheme: string, opaqueValue: string) {
    function AsString(): string {
      scheme + ":" + opaqueValue
    }
  }

  predicate Letter(c: char) {
    'A' <= c <= 'Z' || 'a' <= c <= 'z'
  }

  predicate SchemeChar(c: char) {
    Letter(c) || '0' <= c <= '9' || c == '+' || c == '.' || c == '-'
  }

  /** schemePattern: a letter and then at least one more scheme character. */
  predicate ValidScheme(s: string) {
    |s| >= 2 && Letter(s[0]) && forall i :: 1 <= i < |s| ==> SchemeChar(s[i])
  }

  /** No scheme character is ':', so the pattern can only split at the first one. */
  function NewLocation(uri: string): Option<Location> {
    if ':' !in uri then None else
    var i := IndexOf(uri, ':');
    if ValidScheme(uri[..i]) then Some(Location(uri[..i], uri[i + 1..])) else None
  }

  /** A scheme as section 3.1 of RFC 3986 has it: a letter and any number of scheme characters. */
  predicate StandardScheme(s: string) {
    s != "" && Letter(s[0]) && forall i :: 1 <= i < |s| ==> SchemeChar(s[i])
  }

  /** Of the schemes of the standard exactly those of at least two characters are accepted, and kept as they are. */
  lemma StandardSchemeAcceptedIff(s: string, rest: string)
    requires StandardScheme(s)
    ensures NewLocation(s + ":" + rest) == if |s| >= 2 then Some(Location(s, rest)) else None
  {
    SplitsAtScheme(s, rest);
  }

  /** The ones that are refused are the schemes of one letter. */
  lemma OneLetterScheme(c: char, rest: string)
    requires Letter(c)
    ensures StandardScheme([c]) && NewLocation([c] + ":" + rest) == None
  {
    StandardSchemeAcceptedIff([c], rest);
  }

  lemma SplitsAtScheme(s: string, rest: string)
    requires ':' !in s
    ensures var uri := s + ":" + rest;
            ':' in uri && IndexOf(uri, ':') == |s| && uri[..|s|] == s && uri[|s| + 1..] == rest
  {
    IndexOfFirst(s, ':', rest);
    assert [':'] == ":";
  }

  /** A scheme is that of some URI exactly when it matches the whole pattern. */
  lemma NameableIff(s: string)
    ensures (exists uri :: NewLocation(uri).Some? && NewLocation(uri).value.scheme == s) <==> ValidScheme(s)
  {
    if ValidScheme(s) {
      SplitsAtScheme(s, "");
      assert NewLocation(s + ":" + "") == Some(Location(s, ""));
    }
  }

  /** The URI named by a reference, with the default scheme put in front when it has none. */
  function UriOf(env: Env, ref: string): string
    requires |ref| >= 3
  {
    var uri := ref[2..|ref| - 1];
    if ':' in uri then uri else env.defaultScheme + ":" + uri
  }

  /** expandURI without its bookkeeping: what the reference resolves to, if anything. */
  function Fetch(env: Env, ref: string): Option<Retrieved>
    requires |ref| >= 3
  {
    match NewLocation(UriOf(env, ref))
    case None => None
    case Some(l) =>
      if '$' in l.opaqueValue || l.scheme !in env.schemes then None
      else env.retrieve(l.AsString())
  }

  /**
   The reference names this scheme and this rest: it has them written out, or it has no
   scheme and they are the default scheme and what the reference has.
   */
  ghost predicate Names(env: Env, ref: string, scheme: string, rest: string) {
    && ':' !in scheme
    && (|| ref == "${" + scheme + ":" + rest + "}"
        || exists name :: ':' !in name && ref == "${" + name + "}"
                          && env.defaultScheme + ":" + name == scheme + ":" + rest)
  }

  /** The provider of the scheme may be asked for the rest. */
  predicate Askable(env: Env, scheme: string, rest: string) {
    ValidScheme(scheme) && '$' !in rest && scheme in env.schemes
  }

  /** A reference with a scheme asks for exactly the text between its braces. */
  lemma ReferenceAsks(env: Env, scheme: string, rest: string)
    requires ':' !in scheme
    ensures Fetch(env, "${" + scheme + ":" + rest + "}")
         == if Askable(env, scheme, rest) then env.retrieve(scheme + ":" + rest) else None
  {
    FetchNamed(env, "${" + scheme + ":" + rest + "}", scheme, rest);
  }

  /** A reference without a scheme asks the provider of the default scheme for the text between its braces. */
  lemma BareReferenceAsks(env: Env, name: string)
    requires ':' !in name && ':' !in env.defaultScheme
    ensures Fetch(env, "${" + name + "}")
         == if Askable(env, env.defaultScheme, name) then env.retrieve(env.defaultScheme + ":" + name) else None
  {
    FetchNamed(env, "${" + name + "}", env.defaultScheme, name);
  }

  /** Every reference names one scheme and rest. */
  lemma ReferenceNames(env: Env, body: string) returns (scheme: string, rest: string)
    ensures Names(env, "${" + body + "}", scheme, rest)
  {
    if ':' in body {
      scheme, rest := AtColon(body);
      assert "${" + body + "}" == "${" + scheme + ":" + rest + "}";
    } else {
      assert (env.defaultScheme + ":" + body)[|env.defaultScheme|] == ':';
      scheme, rest := AtColon(env.defaultScheme + ":" + body);
    }
  }

  lemma AtColon(uri: string) returns (scheme: string, rest: string)
    requires ':' in uri
    ensures ':' !in scheme && uri == scheme + ":" + rest
  {
    var i := IndexOf(uri, ':');
    scheme, rest := uri[..i], uri[i + 1..];
  }

  lemma FetchNamed(env: Env, ref: string, scheme: string, rest: string)
    requires Names(env, ref, scheme, rest)
    ensures |ref| >= 3 && UriOf(env, ref) == scheme + ":" + rest
    ensures NewLocation(scheme + ":" + rest) == if ValidScheme(scheme) then Some(Location(scheme, rest)) else None
    ensures Fetch(env, ref) == if Askable(env, scheme, rest) then env.retrieve(scheme + ":" + rest) else None
  {
    SplitsAtScheme(scheme, rest);
    var uri := scheme + ":" + rest;
    if ref == "${" + scheme + ":" + rest + "}" {
      assert ref[2..|ref| - 1] == uri;
    } else {
      var name :| ':' !in name && ref == "${" + name + "}" && env.defaultScheme + ":" + name == uri;
      assert ref[2..|ref| - 1] == name;
    }
  }

  /** findURI: the first candidate that is not escaped and has a scheme, or "". */
  function FindURI(env: Env, input: string): (r: string)
    requires '}' in input
    ensures r == "" || |r| >= 3
    decreases |input|
  {
    var close := IndexOf(input, '}');
    var remaining := input[close + 1..];
    var open := LastOpen(input[..close + 1]);
    if open < 0
       || (env.defaultScheme == "" && ':' !in input[open..close + 1])
       || DollarsBefore(input, open) % 2 == 1
    then
      if '}' !in remaining then "" else FindURI(env, remaining)
    else
      assert OpensAt(input[..close + 1], open);
      input[open..close + 1]
  }

  datatype Outcome = Fail | Done(val: Value, changed: bool)

  /** findAndExpandURI: one reference is expanded, everywhere it occurs in the input. */
  function FindAndExpand(env: Env, input: string): Outcome
    requires '}' in input
  {
    var uri := FindURI(env, input);
    if uri == "" then Done(Str(input), false)
    else
      match Fetch(env, uri)
      case None => Fail
      case Some(ret) =>
        if uri == input then
          match ret.AsString()
          case Some(str) => Done(Expanded(ret.raw, str), true)
          case None => Done(ret.raw, true)
        else
          match ret.AsString()
          case Some(repl) => Done(Str(ReplaceAll(input, uri, repl)), true)
          case None => Fail
  }

  function ExpandString(env: Env, s: string): Outcome {
    if !ContainsOpen(s) || '}' !in s then Done(Str(s), false) else FindAndExpand(env, s)
  }

  /** The two representations of an ExpandedValue put together again. */
  function Recombine(expanded: Value, changed: bool, original: Outcome): Outcome {
    if expanded.Str? || expanded.Expanded? then Done(expanded, changed)
    else if original.Done? && original.val.Str? then
      Done(Expanded(expanded, original.val.s), changed || original.changed)
    else Done(expanded, changed)
  }

  /** expandValue: one pass over a value. */
  function ExpandValue(env: Env, v: Value): Outcome
    decreases v
  {
    match v
    case Expanded(value, original) =>
      (match ExpandValue(env, value)
       case Fail => Fail
       case Done(e, changed) => Recombine(e, changed, ExpandString(env, original)))
    case Str(s) => ExpandString(env, s)
    case List(items) =>
      if exists i :: 0 <= i < |items| && ExpandValue(env, items[i]).Fail? then Fail
      else
        Done(List(seq(|items|, i requires 0 <= i < |items| && ExpandValue(env, items[i]).Done? =>
                    ExpandValue(env, items[i]).val)),
             exists i :: 0 <= i < |items| && ExpandValue(env, items[i]).changed)
    case Map(m) =>
      if exists k :: k in m && ExpandValue(env, m[k]).Fail? then Fail
      else
        Done(Map(map k | k in m :: ExpandValue(env, m[k]).val),
             exists k :: k in m && ExpandValue(env, m[k]).changed)
    case _ => Done(v, false)
  }

  /**
   A value that keeps its original text, once it is neither a string nor such a value: the
   text is expanded too and kept while it stays a string, and dropped without an error
   otherwise.
   */
  lemma OriginalKeptIff(env: Env, value: Value, original: string)
    requires ExpandValue(env, value).Done?
             && !ExpandValue(env, value).val.Str? && !ExpandValue(env, value).val.Expanded?
    ensures var v, o := ExpandValue(env, value).val, ExpandString(env, original);
            var e := ExpandValue(env, Expanded(value, original));
            && e.Done?
            && if o.Done? && o.val.Str?
               then e.val == Expanded(v, o.val.s) && (e.changed <==> ExpandValue(env, value).changed || o.changed)
               else e.val == v && (e.changed <==> ExpandValue(env, value).changed)
  {
  }

  datatype Resolution = Failed | TooManyExpansions | Resolved(val: Value)

  /** The pass limit of expandValueRecursively. */
  const MAX_PASSES: nat := 1000

  function ExpandPasses(env: Env, v: Value, passes: nat): Resolution
    decreases passes
  {
    if passes == 0 then TooManyExpansions else
    match ExpandValue(env, v)
    case Fail => Failed
    case Done(w, changed) => if changed then ExpandPasses(env, w, passes - 1) else Resolved(w)
  }

  /** expandValueRecursively. */
  function ExpandRecursively(env: Env, v: Value): Resolution {
    ExpandPasses(env, v, MAX_PASSES)
  }

  /** escapeDollarSigns. */
  function EscapeDollarSigns(v: Value): Value
    decreases v
  {
    match v
    case Str(s) => Str(ReplaceAll(s, "$$", "$"))
    case Expanded(value, original) => Expanded(EscapeDollarSigns(value), ReplaceAll(original, "$$", "$"))
    case List(items) => List(seq(|items|, i requires 0 <= i < |items| => EscapeDollarSigns(items[i])))
    case Map(m) => Map(map k | k in m :: EscapeDollarSigns(m[k]))
    case _ => v
  }
}
