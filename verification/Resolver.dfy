/**
 The configuration resolver (confmap/resolver.go): retrieval, expansion and un-escaping,
 with the close functions of everything that was retrieved.
 */
module Resolver {
  import opened Common
  import opened Text
  import opened Expand
  import opened References
  import opened Escaping

  type Conf = map<string, Value>

  /** Merging, flattening and converting of configuration maps, which are library code. */
  datatype Library = Library(merge: (Conf, Conf) -> Option<Conf>, flatten: Conf -> Conf, convert: Conf -> Option<Conf>)

  datatype ResolveResult = CloseError | RetrieveError | ExpandError | ConvertError | Success(conf: Conf)

  /** What retrieveValue returns: the scheme must be known and the provider must answer. */
  function Retrieve(env: Env, l: Location): Option<Retrieved> {
    if l.scheme !in env.schemes then None else env.retrieve(l.AsString())
  }

  /** AsConf: only a map, or nothing at all, can be a configuration. */
  function AsConf(r: Retrieved): Option<Conf> {
    if r.raw.Nil? then Some(map[]) else if r.raw.Map? then Some(r.raw.entries) else None
  }

  /** One location merged onto `acc`. */
  function MergedOne(env: Env, lib: Library, l: Location, acc: Conf): Option<Conf> {
    match Retrieve(env, l)
    case None => None
    case Some(r) =>
      match AsConf(r)
      case None => None
      case Some(c) => lib.merge(acc, c)
  }

  /** The configurations of all locations merged in order onto `acc`. */
  function Merged(env: Env, lib: Library, uris: seq<Location>, acc: Conf): Option<Conf> {
    if uris == [] then Some(acc) else
    match MergedOne(env, lib, uris[0], acc)
    case None => None
    case Some(m) => Merged(env, lib, uris[1..], m)
  }

  /** The provider calls of this, up to the first failure. */
  function Asks(env: Env, lib: Library, uris: seq<Location>, acc: Conf): seq<string> {
    if uris == [] || uris[0].scheme !in env.schemes then [] else
    [uris[0].AsString()] +
    match MergedOne(env, lib, uris[0], acc)
    case None => []
    case Some(m) => Asks(env, lib, uris[1..], m)
  }

  lemma MergedNext(env: Env, lib: Library, uris: seq<Location>, i: nat, acc: Conf)
    requires i < |uris|
    ensures uris[0..] == uris
    ensures var m := MergedOne(env, lib, uris[i], acc);
            && Merged(env, lib, uris[i..], acc) == (if m.None? then None else Merged(env, lib, uris[i + 1..], m.value))
            && Asks(env, lib, uris[i..], acc) == (if uris[i].scheme in env.schemes then [uris[i].AsString()] else [])
                                                + if m.None? then [] else Asks(env, lib, uris[i + 1..], m.value)
  {
    hide AsConf;
    assert uris[i..][0] == uris[i] && uris[i..][1..] == uris[i + 1..];
  }

  lemma MergedLast(env: Env, lib: Library, uris: seq<Location>, acc: Conf)
    ensures uris[0..] == uris && uris[|uris|..] == []
    ensures Merged(env, lib, [], acc) == Some(acc) && Asks(env, lib, [], acc) == []
  {
  }

  // ------------------------------------------------------- what the providers answered

  /** The provider of the location answered with this configuration, or with nothing at all for an empty one. */
  predicate Answered(env: Env, l: Location, m: Conf) {
    && l.scheme in env.schemes
    && var r := env.retrieve(l.scheme + ":" + l.opaqueValue);
       r.Some? && (r.value.raw == Map(m) || (r.value.raw == Nil && m == map[]))
  }

  ghost predicate AllAnswered(env: Env, uris: seq<Location>, ms: seq<Conf>) {
    |uris| == |ms| && forall i :: 0 <= i < |uris| ==> Answered(env, uris[i], ms[i])
  }

  /** The left fold of merging over configurations. */
  function Folded(merge: (Conf, Conf) -> Option<Conf>, acc: Conf, ms: seq<Conf>): Option<Conf>
    decreases |ms|
  {
    if ms == [] then Some(acc) else
    match merge(acc, ms[0])
    case None => None
    case Some(m) => Folded(merge, m, ms[1..])
  }

  lemma OneAnswer(env: Env, lib: Library, l: Location, acc: Conf)
    ensures forall m :: Answered(env, l, m) ==> MergedOne(env, lib, l, acc) == lib.merge(acc, m)
    ensures (forall m :: !Answered(env, l, m)) ==> MergedOne(env, lib, l, acc).None?
  {
    var r := env.retrieve(l.scheme + ":" + l.opaqueValue);
    if l.scheme in env.schemes && r.Some? && r.value.raw.Map? {
      assert Answered(env, l, r.value.raw.entries);
    }
    if l.scheme in env.schemes && r.Some? && r.value.raw.Nil? {
      assert Answered(env, l, map[]);
    }
  }

  /** When all locations are answered, the answers are merged in order, each onto what the earlier ones gave. */
  lemma {:induction false} MergedIsFold(env: Env, lib: Library, uris: seq<Location>, ms: seq<Conf>, acc: Conf)
    requires AllAnswered(env, uris, ms)
    ensures Merged(env, lib, uris, acc) == Folded(lib.merge, acc, ms)
  {
    if uris != [] {
      OneAnswer(env, lib, uris[0], acc);
      assert Answered(env, uris[0], ms[0]);
      hide MergedOne, Answered;
      match lib.merge(acc, ms[0])
      case None =>
      case Some(m) => MergedIsFold(env, lib, uris[1..], ms[1..], m);
    }
  }

  /** Retrieval gives a configuration exactly if all locations are answered and the answers fold to it. */
  lemma {:induction false} MergedIff(env: Env, lib: Library, uris: seq<Location>, acc: Conf, c: Conf)
    ensures Merged(env, lib, uris, acc) == Some(c)
       <==> exists ms :: AllAnswered(env, uris, ms) && Folded(lib.merge, acc, ms) == Some(c)
  {
    if ms :| AllAnswered(env, uris, ms) && Folded(lib.merge, acc, ms) == Some(c) {
      MergedIsFold(env, lib, uris, ms, acc);
    }
    if Merged(env, lib, uris, acc) == Some(c) {
      var ms := AnswersOf(env, lib, uris, acc);
      MergedIsFold(env, lib, uris, ms, acc);
    }
  }

  lemma {:induction false} AnswersOf(env: Env, lib: Library, uris: seq<Location>, acc: Conf) returns (ms: seq<Conf>)
    requires Merged(env, lib, uris, acc).Some?
    ensures AllAnswered(env, uris, ms)
  {
    ms := [];
    if uris != [] {
      OneAnswer(env, lib, uris[0], acc);
      hide MergedOne, Answered;
      var m :| Answered(env, uris[0], m);
      var rest := AnswersOf(env, lib, uris[1..], lib.merge(acc, m).value);
      ms := [m] + rest;
      assert forall i :: 1 <= i < |uris| ==> uris[i] == uris[1..][i - 1] && ms[i] == rest[i - 1];
    }
  }

  function UriTexts(uris: seq<Location>): (r: seq<string>)
    ensures |r| == |uris| && forall i :: 0 <= i < |uris| ==> r[i] == uris[i].scheme + ":" + uris[i].opaqueValue
  {
    seq(|uris|, i requires 0 <= i < |uris| => uris[i].scheme + ":" + uris[i].opaqueValue)
  }

  /** The location is not answered, or its answer cannot be merged. */
  ghost predicate Unmergeable(env: Env, lib: Library, l: Location, acc: Conf) {
    forall m :: Answered(env, l, m) ==> lib.merge(acc, m).None?
  }

  /** Locations that are answered and merged are asked for in order, before all others. */
  lemma {:induction false} AsksFirst(env: Env, lib: Library, first: seq<Location>, rest: seq<Location>,
                                     ms: seq<Conf>, acc: Conf)
    requires AllAnswered(env, first, ms) && Folded(lib.merge, acc, ms).Some?
    ensures var m := Folded(lib.merge, acc, ms).value;
            && Asks(env, lib, first + rest, acc) == UriTexts(first) + Asks(env, lib, rest, m)
            && Merged(env, lib, first + rest, acc) == Merged(env, lib, rest, m)
    decreases |first|
  {
    if first == [] {
      assert first + rest == rest;
    } else {
      assert Answered(env, first[0], ms[0]);
      OneAnswer(env, lib, first[0], acc);
      SchemeKnown(env, first[0], ms[0]);
      hide MergedOne, Answered, Merged, Asks, Folded, UriTexts;
      MergedNext(env, lib, first + rest, 0, acc);
      FoldedStep(lib.merge, acc, ms);
      UriTextsStep(first, rest);
      AsksFirst(env, lib, first[1..], rest, ms[1..], lib.merge(acc, ms[0]).value);
      Prepended(first[0].AsString(), UriTexts(first[1..]), Asks(env, lib, rest, Folded(lib.merge, acc, ms).value));
    }
  }

  lemma Prepended<T>(a: T, b: seq<T>, c: seq<T>)
    ensures [a] + (b + c) == [a] + b + c
  {
  }

  lemma FoldedStep(merge: (Conf, Conf) -> Option<Conf>, acc: Conf, ms: seq<Conf>)
    requires ms != []
    ensures Folded(merge, acc, ms)
         == var m := merge(acc, ms[0]); if m.None? then None else Folded(merge, m.value, ms[1..])
  {
  }

  lemma UriTextsStep(first: seq<Location>, rest: seq<Location>)
    requires first != []
    ensures (first + rest)[1..] == first[1..] + rest && (first + rest)[0] == first[0]
    ensures UriTexts(first) == [first[0].AsString()] + UriTexts(first[1..])
  {
  }

  lemma SchemeKnown(env: Env, l: Location, m: Conf)
    requires Answered(env, l, m)
    ensures l.scheme in env.schemes
  {
  }

  /**
   The first locations are answered and merged. If there are no more, the providers are
   asked for exactly these, in order. If the next one is not answered, or its answer cannot
   be merged, retrieval fails, and the providers are asked for these and that one, or not
   even that one when its scheme is unknown.
   */
  lemma AsksInOrder(env: Env, lib: Library, first: seq<Location>, rest: seq<Location>, ms: seq<Conf>)
    requires AllAnswered(env, first, ms) && Folded(lib.merge, map[], ms).Some?
    ensures rest == [] ==> Asks(env, lib, first + rest, map[]) == UriTexts(first)
    ensures rest != [] && Unmergeable(env, lib, rest[0], Folded(lib.merge, map[], ms).value) ==>
              && Merged(env, lib, first + rest, map[]).None?
              && Asks(env, lib, first + rest, map[])
              == UriTexts(first)
               + if rest[0].scheme in env.schemes then [rest[0].scheme + ":" + rest[0].opaqueValue] else []
  {
    var m := Folded(lib.merge, map[], ms).value;
    AsksFirst(env, lib, first, rest, ms, map[]);
    if rest != [] {
      OneAnswer(env, lib, rest[0], m);
    }
  }

  /** With plain merging of maps, every key has its value from the last answer that has the key. */
  lemma LastAnswerWins(env: Env, lib: Library, uris: seq<Location>, ms: seq<Conf>, i: nat, k: string)
    requires AllAnswered(env, uris, ms) && lib.merge == ((a, b) => Some(a + b))
    requires i < |ms| && k in ms[i] && forall j :: i < j < |ms| ==> k !in ms[j]
    ensures var r := Merged(env, lib, uris, map[]); r.Some? && k in r.value && r.value[k] == ms[i][k]
  {
    MergedIsFold(env, lib, uris, ms, map[]);
    UnionOf(lib.merge, map[], ms, i, k);
  }

  lemma {:induction false} UnionOf(merge: (Conf, Conf) -> Option<Conf>, acc: Conf, ms: seq<Conf>, i: int, k: string)
    requires merge == ((a, b) => Some(a + b))
    requires -1 <= i < |ms| && k in (if i < 0 then acc else ms[i]) && forall j :: i < j < |ms| ==> k !in ms[j]
    ensures var r := Folded(merge, acc, ms); r.Some? && k in r.value && r.value[k] == (if i < 0 then acc else ms[i])[k]
    decreases |ms|
  {
    if ms != [] {
      assert merge(acc, ms[0]) == Some(acc + ms[0]);
      UnionOf(merge, acc + ms[0], ms[1..], if i < 0 then -1 else i - 1, k);
    }
  }

  /** Every leaf expanded and un-escaped, when all of them expand. */
  function ExpandedConf(env: Env, leaves: Conf): Option<Conf> {
    if exists k :: k in leaves && !ExpandRecursively(env, leaves[k]).Resolved? then None
    else Some(map k | k in leaves :: EscapeDollarSigns(ExpandRecursively(env, leaves[k]).val))
  }

  /** What Resolve returns once the previous handles are closed. */
  function ResolvedConf(env: Env, lib: Library, uris: seq<Location>): ResolveResult {
    match Merged(env, lib, uris, map[])
    case None => RetrieveError
    case Some(m) =>
      match ExpandedConf(env, lib.flatten(m))
      case None => ExpandError
      case Some(c) =>
        match lib.convert(c)
        case None => ConvertError
        case Some(r) => Success(r)
  }

  /** These answers lead to this configuration: merged, all leaves expanded and un-escaped, and converted. */
  ghost predicate LeadsTo(env: Env, lib: Library, ms: seq<Conf>, c: Conf) {
    var m := Folded(lib.merge, map[], ms);
    && m.Some?
    && var leaves := lib.flatten(m.value);
       && (forall k :: k in leaves ==> ExpandRecursively(env, leaves[k]).Resolved?)
       && lib.convert(map k | k in leaves :: EscapeDollarSigns(ExpandRecursively(env, leaves[k]).val)) == Some(c)
  }

  /** Resolving succeeds with a configuration exactly if the providers' answers lead to it. */
  lemma SuccessIff(env: Env, lib: Library, uris: seq<Location>, c: Conf)
    ensures ResolvedConf(env, lib, uris) == Success(c)
       <==> exists ms :: AllAnswered(env, uris, ms) && LeadsTo(env, lib, ms, c)
  {
    hide ExpandRecursively, EscapeDollarSigns, Answered, Merged, Folded;
    if ms :| AllAnswered(env, uris, ms) && LeadsTo(env, lib, ms, c) {
      MergedIsFold(env, lib, uris, ms, map[]);
    }
    if ResolvedConf(env, lib, uris) == Success(c) {
      var ms := AnswersOf(env, lib, uris, map[]);
      MergedIsFold(env, lib, uris, ms, map[]);
      assert LeadsTo(env, lib, ms, c);
    }
  }

  /** Which error it is when resolving fails: by the answers, by the references in them, or by the converters. */
  lemma ErrorsIff(env: Env, lib: Library, uris: seq<Location>)
    ensures ResolvedConf(env, lib, uris) == RetrieveError
       <==> forall ms :: AllAnswered(env, uris, ms) ==> Folded(lib.merge, map[], ms).None?
    ensures ResolvedConf(env, lib, uris) == ExpandError
       <==> exists ms :: AllAnswered(env, uris, ms) && Folded(lib.merge, map[], ms).Some? && Stuck(env, lib, ms)
    ensures ResolvedConf(env, lib, uris) != CloseError
  {
    hide ExpandRecursively, EscapeDollarSigns, Answered, Merged, Folded;
    forall ms | AllAnswered(env, uris, ms) ensures Merged(env, lib, uris, map[]) == Folded(lib.merge, map[], ms) {
      MergedIsFold(env, lib, uris, ms, map[]);
    }
    if Merged(env, lib, uris, map[]).Some? {
      var ms := AnswersOf(env, lib, uris, map[]);
      assert AllAnswered(env, uris, ms);
    }
  }

  /** Some leaf of the merged answers cannot be expanded. */
  ghost predicate Stuck(env: Env, lib: Library, ms: seq<Conf>)
    requires Folded(lib.merge, map[], ms).Some?
  {
    var leaves := lib.flatten(Folded(lib.merge, map[], ms).value);
    exists k :: k in leaves && !ExpandRecursively(env, leaves[k]).Resolved?
  }

  /** A retrieved value that is still to be closed. Each retrieval makes a new one. */
  type Handle = nat

  // --------------------------------------------------------------------------- events

  /**
   What a resolver does to the world: a Resolve begins, a provider is asked and answers
   with a handle or fails, a close function is called, a provider is shut down.
   */
  datatype Event =
    | Begun
    | Asked(uri: string, got: Option<Handle>)
    | Closed(handle: Handle)
    | ProviderDown(scheme: string)

  /** The handles that were retrieved, and those that were closed, in order. */
  function Handles(log: seq<Event>): seq<Handle> {
    if log == [] then [] else
    var e := log[|log| - 1];
    Handles(log[..|log| - 1]) + if e.Asked? && e.got.Some? then [e.got.value] else []
  }

  function ClosedIn(log: seq<Event>): seq<Handle> {
    if log == [] then [] else
    var e := log[|log| - 1];
    ClosedIn(log[..|log| - 1]) + if e.Closed? then [e.handle] else []
  }

  /** Every handle that was retrieved before some Resolve began is closed. */
  ghost predicate Settled(log: seq<Event>) {
    forall i, j :: 0 <= i < j < |log| && log[i].Asked? && log[i].got.Some? && log[j] == Begun ==>
      Closed(log[i].got.value) in log
  }

  /** A provider is only asked when all handles from before the Resolve that asks are closed. */
  ghost predicate Prompt(log: seq<Event>) {
    forall k :: 0 <= k < |log| && log[k].Asked? ==> Settled(log[..k])
  }

  /** Nothing was done but to ask providers. */
  predicate Asking(before: seq<Event>, after: seq<Event>) {
    before <= after && forall i :: |before| <= i < |after| ==> after[i].Asked?
  }

  lemma AskingNothing(log: seq<Event>)
    ensures Asking(log, log)
  {
  }

  lemma AskingThen(a: seq<Event>, b: seq<Event>, c: seq<Event>)
    requires Asking(a, b) && Asking(b, c)
    ensures Asking(a, c)
  {
  }

  lemma {:induction false} InHandles(log: seq<Event>, i: nat)
    requires i < |log| && log[i].Asked? && log[i].got.Some?
    ensures log[i].got.value in Handles(log)
  {
    var last := |log| - 1;
    if i < last {
      InHandles(log[..last], i);
    }
  }

  lemma {:induction false} ClosedInLog(log: seq<Event>, h: Handle)
    ensures h in ClosedIn(log) <==> Closed(h) in log
  {
    if log != [] {
      var last := |log| - 1;
      ClosedInLog(log[..last], h);
      assert log == log[..last] + [log[last]];
    }
  }

  lemma AllClosedSettles(log: seq<Event>)
    requires Handles(log) == ClosedIn(log)
    ensures Settled(log)
  {
    hide Handles, ClosedIn;
    forall i, j | 0 <= i < j < |log| && log[i].Asked? && log[i].got.Some? && log[j] == Begun
      ensures Closed(log[i].got.value) in log
    {
      InHandles(log, i);
      ClosedInLog(log, log[i].got.value);
    }
  }

  lemma LogNext(log: seq<Event>, e: Event)
    ensures Handles(log + [e]) == Handles(log) + if e.Asked? && e.got.Some? then [e.got.value] else []
    ensures ClosedIn(log + [e]) == ClosedIn(log) + if e.Closed? then [e.handle] else []
    ensures e != Begun && Settled(log) ==> Settled(log + [e])
    ensures Prompt(log) && (e.Asked? ==> Settled(log)) ==> Prompt(log + [e])
  {
    var more := log + [e];
    assert more[..|log|] == log;
    if e != Begun && Settled(log) {
      forall i, j | 0 <= i < j < |more| && more[i].Asked? && more[i].got.Some? && more[j] == Begun
        ensures Closed(more[i].got.value) in more
      {
        assert log[i] == more[i] && log[j] == more[j];
      }
    }
    if Prompt(log) && (e.Asked? ==> Settled(log)) {
      forall k | 0 <= k < |more| && more[k].Asked? ensures Settled(more[..k]) {
        if k < |log| {
          assert more[..k] == log[..k];
        }
      }
    }
  }

  // ------------------------------------------------------------------------- resolver

  /** schemePattern as NewResolver uses it, which is not anchored: some part must match. */
  predicate ProviderScheme(s: string) {
    exists i :: 0 <= i < |s| - 1 && Letter(s[i]) && SchemeChar(s[i + 1])
  }

  /** A drive letter, for which the pattern has a range that holds a few more characters. */
  predicate DriveLetter(uri: string) {
    |uri| >= 2 && 'A' <= uri[0] <= 'z' && uri[1] == ':'
  }

  /** Where a URI of the settings points; a path without scheme is a file. */
  function UriLocation(uri: string, schemes: set<string>): Option<Location> {
    if DriveLetter(uri) || ':' !in uri then Some(Location("file", uri))
    else
      var l := NewLocation(uri);
      if l.Some? && l.value.scheme in schemes then l else None
  }

  /** A path without a colon, and one behind a drive letter, is a file, whatever the providers are. */
  lemma PathIsFile(path: string, schemes: set<string>)
    requires ':' !in path || exists c, rest :: Letter(c) && path == [c] + ":" + rest
    ensures UriLocation(path, schemes) == Some(Location("file", path))
  {
  }

  /** A URI with a scheme of at least two characters is located exactly if there is a provider for it. */
  lemma UriLocated(scheme: string, rest: string, schemes: set<string>)
    requires ':' !in scheme && |scheme| >= 2
    ensures UriLocation(scheme + ":" + rest, schemes)
         == if ValidScheme(scheme) && scheme in schemes then Some(Location(scheme, rest)) else None
  {
    SplitsAtScheme(scheme, rest);
    assert (scheme + ":" + rest)[1] == scheme[1];
  }

  ghost predicate Distinct(s: seq<string>) {
    forall i, j :: 0 <= i < j < |s| ==> s[i] != s[j]
  }

  /** The settings that NewResolver accepts. */
  ghost predicate Acceptable(uris: seq<string>, schemes: seq<string>, defaultScheme: string) {
    && uris != [] && schemes != []
    && (forall i :: 0 <= i < |schemes| ==> ProviderScheme(schemes[i])) && Distinct(schemes)
    && (defaultScheme == "" || defaultScheme in schemes)
    && forall i :: 0 <= i < |uris| ==> UriLocation(uris[i], set s | s in schemes).Some?
  }

  /** The providers by their schemes, if those are well-formed and different. */
  method CollectProviders(schemes: seq<string>) returns (r: Option<set<string>>)
    ensures r.Some? <==> (forall i :: 0 <= i < |schemes| ==> ProviderScheme(schemes[i])) && Distinct(schemes)
    ensures r.Some? ==> r.value == set s | s in schemes
  {
    hide ProviderScheme;
    var providers: set<string> := {};
    for i := 0 to |schemes|
      invariant providers == set s | s in schemes[..i]
      invariant forall j :: 0 <= j < i ==> ProviderScheme(schemes[j])
      invariant forall j, k :: 0 <= j < k < i ==> schemes[j] != schemes[k]
    {
      assert schemes[..i + 1] == schemes[..i] + [schemes[i]];
      if !ProviderScheme(schemes[i]) {
        return None;
      }
      if schemes[i] in providers {
        var j :| 0 <= j < i && schemes[..i][j] == schemes[i];
        assert schemes[j] == schemes[i];
        return None;
      }
      providers := providers + {schemes[i]};
    }
    assert schemes[..|schemes|] == schemes;
    return Some(providers);
  }

  method LocateUris(uris: seq<string>, providers: set<string>) returns (r: Option<seq<Location>>)
    ensures r.Some? <==> forall i :: 0 <= i < |uris| ==> UriLocation(uris[i], providers).Some?
    ensures r.Some? ==>
              |r.value| == |uris| && forall i :: 0 <= i < |uris| ==> UriLocation(uris[i], providers) == Some(r.value[i])
  {
    hide DriveLetter, NewLocation;
    var locations: seq<Location> := [];
    for i := 0 to |uris|
      invariant |locations| == i && forall j :: 0 <= j < i ==> UriLocation(uris[j], providers) == Some(locations[j])
    {
      if DriveLetter(uris[i]) || ':' !in uris[i] {
        locations := locations + [Location("file", uris[i])];
        continue;
      }
      var l := NewLocation(uris[i]);
      if l.None? || l.value.scheme !in providers {
        return None;
      }
      locations := locations + [l.value];
    }
    return Some(locations);
  }

  /** NewResolver. */
  method NewResolver(uris: seq<string>, schemes: seq<string>, defaultScheme: string) returns (r: Option<Resolver>)
    ensures r.Some? <==> Acceptable(uris, schemes, defaultScheme)
    ensures r.Some? ==> fresh(r.value) && r.value.Valid()
                        && r.value.log == [] && r.value.closers == [] && !r.value.watcherClosed
    ensures r.Some? ==> r.value.providers == (set s | s in schemes) && r.value.defaultScheme == defaultScheme
    ensures r.Some? ==> && |r.value.uris| == |uris|
                        && forall i :: 0 <= i < |uris| ==>
                             UriLocation(uris[i], set s | s in schemes) == Some(r.value.uris[i])
  {
    hide ProviderScheme, Distinct, UriLocation, Resolver.Valid;
    if uris == [] || schemes == [] {
      return None;
    }
    var providers := CollectProviders(schemes);
    if providers.None? || (defaultScheme != "" && defaultScheme !in providers.value) {
      return None;
    }
    var locations := LocateUris(uris, providers.value);
    if locations.None? {
      return None;
    }
    var res := new Resolver(locations.value, providers.value, defaultScheme);
    return Some(res);
  }

  /**
   NewResolver accepts every scheme that some URI can have. A scheme it accepts is one
   that some URI can have exactly when the pattern matches all of it.
   */
  lemma ProviderReachableIff(s: string)
    ensures var nameable := exists uri :: NewLocation(uri).Some? && NewLocation(uri).value.scheme == s;
            && (nameable ==> ProviderScheme(s))
            && (nameable <==> ValidScheme(s))
  {
    NameableIff(s);
    if ValidScheme(s) {
      assert Letter(s[0]) && SchemeChar(s[1]);
    }
  }

  /** A scheme that NewResolver accepts although no URI can name it. */
  lemma UnnameableScheme()
    ensures ProviderScheme("!ab") && forall uri :: NewLocation(uri).Some? ==> NewLocation(uri).value.scheme != "!ab"
  {
    assert Letter("!ab"[1]) && SchemeChar("!ab"[2]);
    ProviderReachableIff("!ab");
  }

  /** The URIs of a sequence of events that are provider calls. */
  function Uris(log: seq<Event>): (r: seq<string>)
    requires forall i :: 0 <= i < |log| ==> log[i].Asked?
    ensures |r| == |log|
  {
    seq(|log|, i requires 0 <= i < |log| => log[i].uri)
  }

  /** The URIs asked for between two points of a log. */
  function AskedSince(before: seq<Event>, after: seq<Event>): (r: seq<string>)
    requires Asking(before, after)
  {
    Uris(after[|before|..])
  }

  lemma AskedNothing(log: seq<Event>)
    ensures Asking(log, log) && AskedSince(log, log) == []
  {
  }

  lemma AskedSinceNext(a: seq<Event>, b: seq<Event>, c: seq<Event>)
    requires Asking(a, b) && Asking(b, c)
    ensures Asking(a, c) && AskedSince(a, c) == AskedSince(a, b) + AskedSince(b, c)
  {
    assert c[|a|..] == b[|a|..] + c[|b|..];
  }

  function Closes(hs: seq<Handle>): (r: seq<Event>)
    ensures |r| == |hs|
  {
    seq(|hs|, i requires 0 <= i < |hs| => Closed(hs[i]))
  }

  lemma ItemPass(env: Env, items: seq<Value>, i: nat)
    requires i < |items|
    ensures ExpandValue(env, items[i]).Fail? ==> ExpandValue(env, List(items)) == Fail
    ensures FullyExpanded(env, List(items)) ==> FullyExpanded(env, items[i])
  {
    hide NoReference, ExpandString;
  }

  lemma ItemsPass(env: Env, items: seq<Value>, done: seq<Value>, changed: bool)
    requires |done| == |items|
    requires forall j :: 0 <= j < |items| ==>
               ExpandValue(env, items[j]).Done? && done[j] == ExpandValue(env, items[j]).val
    requires changed <==> exists j :: 0 <= j < |items| && ExpandValue(env, items[j]).changed
    ensures ExpandValue(env, List(items)) == Done(List(done), changed)
  {
    hide ExpandString;
    assert ExpandValue(env, List(items)).val.items == done;
  }

  lemma EntryPass(env: Env, m: map<string, Value>, k: string)
    requires k in m
    ensures ExpandValue(env, m[k]).Fail? ==> ExpandValue(env, Map(m)) == Fail
    ensures FullyExpanded(env, Map(m)) ==> FullyExpanded(env, m[k])
  {
    hide NoReference, ExpandString;
  }

  lemma EntriesPass(env: Env, m: map<string, Value>, done: map<string, Value>, changed: bool)
    requires done.Keys == m.Keys
    requires forall k :: k in m ==> ExpandValue(env, m[k]).Done? && done[k] == ExpandValue(env, m[k]).val
    requires changed <==> exists k :: k in m && ExpandValue(env, m[k]).changed
    ensures ExpandValue(env, Map(m)) == Done(Map(done), changed)
  {
    hide ExpandString;
    assert ExpandValue(env, Map(m)).val.entries == done;
  }

  /** The provider of the scheme was asked for exactly this URI, if it may be, and nothing else was done. */
  ghost predicate AskedFor(env: Env, scheme: string, rest: string, before: seq<Event>,
                           handle: Handle, after: seq<Event>,
                           r: Option<Retrieved>)
  {
    if Askable(env, scheme, rest) then
      && r == env.retrieve(scheme + ":" + rest)
      && after == before + [Asked(scheme + ":" + rest, if r.Some? then Some(handle) else None)]
    else r == None && after == before
  }

  class Resolver {
    const uris: seq<Location>
    /** The schemes of the providers. */
    const providers: set<string>
    const defaultScheme: string
    var closers: seq<Handle>
    var unexpandedConf: Option<Conf>
    var watcherClosed: bool

    /** Everything that was done, and the handles retrieved and closed by it. */
    ghost var log: seq<Event>
    ghost var retrieved: seq<Handle>
    ghost var closed: seq<Handle>
    /** The next handle a provider gives out. */
    var next: Handle

    /** Each handle is retrieved once, and is either closed once or waits in `closers`. */
    ghost predicate Tied()
      reads this`log, this`retrieved, this`closed, this`closers, this`next
    {
      && retrieved == Handles(log) && closed == ClosedIn(log) && Prompt(log)
      && retrieved == closed + closers
      && |retrieved| == next
      && forall i :: 0 <= i < |retrieved| ==> retrieved[i] == i
    }

    /** Moreover providers may be asked. */
    ghost predicate Valid()
      reads this`log, this`retrieved, this`closed, this`closers, this`next
    {
      Tied() && Settled(log)
    }

    /** Nothing happened since but provider calls, whose handles were added to those held. */
    ghost predicate Grown(before: seq<Event>, held: seq<Handle>)
      reads this`log, this`retrieved, this`closed, this`closers, this`next
    {
      Valid() && held <= closers && Asking(before, log)
    }

    /** What expansion works with, given what the providers answer. */
    function Answering(retrieve: string -> Option<Retrieved>): Env {
      Env(defaultScheme, providers, retrieve)
    }

    constructor (uris: seq<Location>, providers: set<string>, defaultScheme: string)
      ensures Valid() && this.uris == uris && this.providers == providers && this.defaultScheme == defaultScheme
      ensures closers == [] && log == [] && retrieved == [] && closed == [] && unexpandedConf == None && !watcherClosed
    {
      this.uris, this.providers, this.defaultScheme := uris, providers, defaultScheme;
      closers, unexpandedConf, watcherClosed := [], None, false;
      log, retrieved, closed, next := [], [], [], 0;
    }

    /** closeIfNeeded: every close function is called in order, whatever the others return. */
    method CloseIfNeeded(closeFails: Handle -> bool) returns (failed: bool)
      requires Tied()
      modifies this
      ensures Valid() && closers == []
      ensures log == old(log) + Closes(old(closers))
      ensures retrieved == old(retrieved) && closed == retrieved
      ensures failed <==> exists h :: h in old(closers) && closeFails(h)
      ensures unexpandedConf == old(unexpandedConf) && watcherClosed == old(watcherClosed)
    {
      hide Handles, ClosedIn, Prompt, Settled;
      failed := false;
      var i := 0;
      while i < |closers|
        invariant 0 <= i <= |closers| && closers == old(closers)
        invariant log == old(log) + Closes(closers[..i])
        invariant closed == old(closed) + closers[..i]
        invariant retrieved == Handles(log) && closed == ClosedIn(log) && Prompt(log)
        invariant failed <==> exists h :: h in closers[..i] && closeFails(h)
        invariant retrieved == old(retrieved) && next == old(next)
        invariant unexpandedConf == old(unexpandedConf) && watcherClosed == old(watcherClosed)
      {
        LogNext(log, Closed(closers[i]));
        assert Closes(closers[..i + 1]) == Closes(closers[..i]) + [Closed(closers[i])];
        log := log + [Closed(closers[i])];
        closed := closed + [closers[i]];
        failed := failed || closeFails(closers[i]);
        assert closers[..i + 1] == closers[..i] + [closers[i]];
        i := i + 1;
      }
      assert closers[..i] == closers;
      closers := [];
      assert closed + [] == closed;
      AllClosedSettles(log);
    }

    /**
     retrieveValue, whose two callers keep the handle of what they get: if the scheme is
     known its provider is asked, and an answer adds one handle.
     */
    method RetrieveValue(env: Env, l: Location) returns (r: Option<Retrieved>)
      requires Valid()
      modifies this`log, this`closers, this`retrieved, this`next
      ensures Grown(old(log), old(closers))
      ensures r == Retrieve(env, l)
      ensures log == old(log) + if l.scheme !in env.schemes then []
                                else [Asked(l.AsString(), if r.Some? then Some(old(next)) else None)]
      ensures closers == old(closers) + if r.Some? then [old(next)] else []
    {
      hide Handles, ClosedIn, Prompt, Settled;
      if l.scheme !in env.schemes {
        assert log + [] == log && closers + [] == closers;
        return None;
      }
      r := env.retrieve(l.AsString());
      LogNext(log, Asked(l.AsString(), if r.Some? then Some(next) else None));
      if r.Some? {
        log := log + [Asked(l.AsString(), Some(next))];
        closers := closers + [next];
        retrieved := retrieved + [next];
        next := next + 1;
      } else {
        log := log + [Asked(l.AsString(), None)];
        assert closers + [] == closers && retrieved + [] == retrieved;
      }
      assert closed + [] == closed;
    }

    method FindUri(env: Env, input: string) returns (r: string)
      requires '}' in input
      ensures r == FindURI(env, input)
      decreases |input|
    {
      hide IndexOf, LastOpen, DollarsBefore, OpensAt;
      var close := IndexOf(input, '}');
      var remaining := input[close + 1..];
      var open := LastOpen(input[..close + 1]);
      if open < 0 || (env.defaultScheme == "" && ':' !in input[open..close + 1]) {
        if '}' !in remaining {
          return "";
        }
        r := FindUri(env, remaining);
        return;
      }
      var count := CountDollars(input, open);
      if count % 2 == 1 {
        if '}' !in remaining {
          return "";
        }
        r := FindUri(env, remaining);
        return;
      }
      r := input[open..close + 1];
    }

    /** expandURI. */
    method ExpandUri(env: Env, ref: string) returns (r: Option<Retrieved>)
      requires Valid() && |ref| >= 3
      modifies this`log, this`closers, this`retrieved, this`next
      ensures Grown(old(log), old(closers))
      ensures r == Fetch(env, ref)
      ensures |closers| == |old(closers)| + if r.Some? then 1 else 0
      ensures forall scheme, rest :: Names(env, ref, scheme, rest) ==>
                AskedFor(env, scheme, rest, old(log), old(next), log, r)
    {
      hide Resolver.Valid, Asking, Names;
      AskingNothing(log);
      forall scheme, rest | Names(env, ref, scheme, rest)
        ensures UriOf(env, ref) == scheme + ":" + rest
        ensures NewLocation(scheme + ":" + rest) == if ValidScheme(scheme) then Some(Location(scheme, rest)) else None
      {
        FetchNamed(env, ref, scheme, rest);
      }
      var l := NewLocation(UriOf(env, ref));
      if l.None? || '$' in l.value.opaqueValue {
        return None;
      }
      r := RetrieveValue(env, l.value);
    }

    method FindAndExpandUri(env: Env, input: string) returns (o: Outcome)
      requires Valid() && '}' in input
      modifies this`log, this`closers, this`retrieved, this`next
      ensures Grown(old(log), old(closers))
      ensures o == FindAndExpand(env, input)
      ensures FindURI(env, input) == "" ==> log == old(log)
      ensures forall scheme, rest :: FindURI(env, input) != "" && Names(env, FindURI(env, input), scheme, rest) ==>
                exists r :: AskedFor(env, scheme, rest, old(log), old(next), log, r)
    {
      hide Resolver.Valid, Asking, Names, AskedFor;
      AskingNothing(log);
      var uri := FindUri(env, input);
      if uri == "" {
        return Done(Str(input), false);
      }
      var ret := ExpandUri(env, uri);
      if ret.None? {
        return Fail;
      }
      var str := ret.value.AsString();
      if uri == input {
        return Done(if str.Some? then Expanded(ret.value.raw, str.value) else ret.value.raw, true);
      }
      if str.None? {
        return Fail;
      }
      return Done(Str(ReplaceAll(input, uri, str.value)), true);
    }

    method ExpandText(env: Env, s: string) returns (o: Outcome)
      requires Valid()
      modifies this`log, this`closers, this`retrieved, this`next
      ensures Grown(old(log), old(closers))
      ensures o == ExpandString(env, s)
      ensures NoReference(env, s) ==> log == old(log)
    {
      hide Resolver.Valid, Asking;
      AskingNothing(log);
      if !ContainsOpen(s) || '}' !in s {
        return Done(Str(s), false);
      }
      StringUnchangedIffNoReference(env, s);
      o := FindAndExpandUri(env, s);
    }

    /**
     expandValue computes the pass of the model, keeps every handle it retrieves, and
     asks no provider when the value holds no reference.
     */
    method ExpandPass(env: Env, v: Value) returns (o: Outcome)
      requires Valid()
      modifies this`log, this`closers, this`retrieved, this`next
      ensures Grown(old(log), old(closers))
      ensures o == ExpandValue(env, v)
      ensures FullyExpanded(env, v) ==> log == old(log)
      decreases v
    {
      hide Resolver.Valid, Asking;
      AskingNothing(log);
      match v {
        case Expanded(value, original) =>
          var e := ExpandPass(env, value);
          if e.Fail? || e.val.Str? || e.val.Expanded? {
            return e;
          }
          ghost var mid := log;
          var orig := ExpandText(env, original);
          AskingThen(old(log), mid, log);
          return Recombine(e.val, e.changed, orig);
        case Str(s) =>
          o := ExpandText(env, s);
        case List(items) =>
          o := ExpandItems(env, v);
        case Map(m) =>
          o := ExpandEntries(env, v);
        case _ =>
          return Done(v, false);
      }
    }

    method ExpandItems(env: Env, v: Value) returns (o: Outcome)
      requires Valid() && v.List?
      modifies this`log, this`closers, this`retrieved, this`next
      ensures Grown(old(log), old(closers))
      ensures o == ExpandValue(env, v)
      ensures FullyExpanded(env, v) ==> log == old(log)
      decreases v, 0
    {
      hide ExpandValue, FullyExpanded, Resolver.Valid, Asking;
      AskingNothing(log);
      var items := v.items;
      var nslice, nchanged := [], false;
      for i := 0 to |items|
        invariant Grown(old(log), old(closers))
        invariant FullyExpanded(env, v) ==> log == old(log)
        invariant |nslice| == i
        invariant forall j :: 0 <= j < i ==>
                    ExpandValue(env, items[j]).Done? && nslice[j] == ExpandValue(env, items[j]).val
        invariant nchanged <==> exists j :: 0 <= j < i && ExpandValue(env, items[j]).changed
      {
        ghost var mid := log;
        ItemPass(env, items, i);
        var e := ExpandPass(env, items[i]);
        AskingThen(old(log), mid, log);
        if e.Fail? {
          return Fail;
        }
        nslice := nslice + [e.val];
        nchanged := nchanged || e.changed;
      }
      ItemsPass(env, items, nslice, nchanged);
      return Done(List(nslice), nchanged);
    }

    /** The entries of a map are visited in any order. */
    method ExpandEntries(env: Env, v: Value) returns (o: Outcome)
      requires Valid() && v.Map?
      modifies this`log, this`closers, this`retrieved, this`next
      ensures Grown(old(log), old(closers))
      ensures o == ExpandValue(env, v)
      ensures FullyExpanded(env, v) ==> log == old(log)
      decreases v, 0
    {
      hide ExpandValue, FullyExpanded, Resolver.Valid, Asking;
      AskingNothing(log);
      var m := v.entries;
      var nmap: map<string, Value>, nchanged := map[], false;
      var left := m.Keys;
      while left != {}
        invariant Grown(old(log), old(closers))
        invariant FullyExpanded(env, v) ==> log == old(log)
        invariant left <= m.Keys && nmap.Keys == m.Keys - left
        invariant forall k :: k in nmap ==> ExpandValue(env, m[k]).Done? && nmap[k] == ExpandValue(env, m[k]).val
        invariant nchanged <==> exists k :: k in nmap && ExpandValue(env, m[k]).changed
        decreases |left|
      {
        var mk :| mk in left;
        ghost var mid := log;
        EntryPass(env, m, mk);
        var e := ExpandPass(env, m[mk]);
        AskingThen(old(log), mid, log);
        if e.Fail? {
          return Fail;
        }
        nmap := nmap[mk := e.val];
        nchanged := nchanged || e.changed;
        left := left - {mk};
      }
      EntriesPass(env, m, nmap, nchanged);
      return Done(Map(nmap), nchanged);
    }

    /** expandValueRecursively: the loop of at most 1000 passes. */
    method ExpandValueRecursively(env: Env, v: Value) returns (r: Resolution)
      requires Valid()
      modifies this`log, this`closers, this`retrieved, this`next
      ensures Grown(old(log), old(closers))
      ensures r == ExpandRecursively(env, v)
      ensures FullyExpanded(env, v) ==> log == old(log)
    {
      hide ExpandValue, FullyExpanded, Resolver.Valid, Asking;
      AskingNothing(log);
      var value := v;
      var i := 0;
      while i < 1000
        invariant 0 <= i <= 1000
        invariant Grown(old(log), old(closers))
        invariant ExpandPasses(env, v, 1000) == ExpandPasses(env, value, 1000 - i)
        invariant FullyExpanded(env, v) ==> log == old(log) && value == v
      {
        ghost var mid := log;
        var o := ExpandPass(env, value);
        AskingThen(old(log), mid, log);
        if FullyExpanded(env, value) {
          PassOnFullyExpanded(env, value);
        }
        if o.Fail? {
          return Failed;
        }
        if !o.changed {
          return Resolved(o.val);
        }
        value := o.val;
        i := i + 1;
      }
      return TooManyExpansions;
    }

    /**
     The retrieval loop of Resolve: the providers are asked in order up to the first
     failure, and every answer is kept, even when its value is of no use.
     */
    method RetrieveAll(env: Env, lib: Library) returns (r: Option<Conf>)
      requires Valid()
      modifies this`log, this`closers, this`retrieved, this`next
      ensures Grown(old(log), old(closers))
      ensures r == Merged(env, lib, uris, map[])
      ensures AskedSince(old(log), log) == Asks(env, lib, uris, map[])
      ensures r.Some? ==> |closers| == |old(closers)| + |uris|
    {
      hide Resolver.Valid, MergedOne, Merged, Asks, Asking, AskedSince;
      AskingNothing(log);
      AskedNothing(log);
      MergedLast(env, lib, uris, map[]);
      var retMap: Conf := map[];
      for i := 0 to |uris|
        invariant Grown(old(log), old(closers))
        invariant Merged(env, lib, uris, map[]) == Merged(env, lib, uris[i..], retMap)
        invariant Asks(env, lib, uris, map[]) == AskedSince(old(log), log) + Asks(env, lib, uris[i..], retMap)
        invariant |closers| == |old(closers)| + i
      {
        MergedNext(env, lib, uris, i, retMap);
        ghost var mid := log;
        var m := RetrieveOne(env, lib, uris[i], retMap);
        AskingThen(old(log), mid, log);
        AskedSinceNext(old(log), mid, log);
        if m.None? {
          return None;
        }
        retMap := m.value;
      }
      MergedLast(env, lib, uris, retMap);
      return Some(retMap);
    }

    /** One round of it. */
    method RetrieveOne(env: Env, lib: Library, l: Location, acc: Conf) returns (r: Option<Conf>)
      requires Valid()
      modifies this`log, this`closers, this`retrieved, this`next
      ensures Grown(old(log), old(closers))
      ensures r == MergedOne(env, lib, l, acc)
      ensures AskedSince(old(log), log) == if l.scheme in env.schemes then [l.AsString()] else []
      ensures r.Some? ==> l.scheme in env.schemes && |closers| == |old(closers)| + 1
    {
      hide Resolver.Valid;
      var ret := RetrieveValue(env, l);
      if ret.None? {
        return None;
      }
      var c := AsConf(ret.value);
      return if c.None? then None else lib.merge(acc, c.value);
    }

    /** The expansion loop of Resolve, over the keys in any order. */
    method ExpandLeaves(env: Env, leaves: Conf) returns (r: Option<Conf>)
      requires Valid()
      modifies this`log, this`closers, this`retrieved, this`next
      ensures Grown(old(log), old(closers))
      ensures r == ExpandedConf(env, leaves)
      ensures (forall k :: k in leaves ==> FullyExpanded(env, leaves[k])) ==> log == old(log)
    {
      hide ExpandRecursively, EscapeDollarSigns, FullyExpanded, Resolver.Valid, Asking;
      AskingNothing(log);
      var cfgMap: Conf := map[];
      var left := leaves.Keys;
      while left != {}
        invariant Grown(old(log), old(closers))
        invariant left <= leaves.Keys && cfgMap.Keys == leaves.Keys - left
        invariant forall k :: k in cfgMap ==>
                    && ExpandRecursively(env, leaves[k]).Resolved?
                    && cfgMap[k] == EscapeDollarSigns(ExpandRecursively(env, leaves[k]).val)
        invariant (forall k :: k in leaves ==> FullyExpanded(env, leaves[k])) ==> log == old(log)
        decreases |left|
      {
        var k :| k in left;
        ghost var mid := log;
        var e := ExpandValueRecursively(env, leaves[k]);
        AskingThen(old(log), mid, log);
        if !e.Resolved? {
          return None;
        }
        cfgMap := cfgMap[k := EscapeDollarSigns(e.val)];
        left := left - {k};
      }
      assert cfgMap == ExpandedConf(env, leaves).value;
      return Some(cfgMap);
    }

    /**
     Resolve first closes every handle that was retrieved before it, and only then asks
     providers; it closes none that it retrieves itself, whether it succeeds or fails at
     any point. When the merged configuration holds no reference, no provider is asked
     but for the URIs of the resolver.
     */
    method Resolve(w: World) returns (r: ResolveResult)
      requires Valid()
      modifies this
      ensures Valid() && closed == old(retrieved) && watcherClosed == old(watcherClosed)
      ensures r == ResultOf(Answering(w.retrieve), w.lib, uris, exists h :: h in old(closers) && w.closeFails(h))
      ensures Asking(Restarted(old(log), old(closers)), log)
      ensures AskedInOrder(Answering(w.retrieve), w.lib, uris, r, AskedSince(Restarted(old(log), old(closers)), log))
      ensures unexpandedConf == if r.CloseError? || r.RetrieveError? then old(unexpandedConf)
                                else Merged(Answering(w.retrieve), w.lib, uris, map[])
    {
      var env, lib := Answering(w.retrieve), w.lib;
      hide Resolver.Tied, Resolver.Valid, Settled, FullyExpanded, ExpandedConf,
           Asking, Merged, Asks, AskedSince, Closes;
      Begin();
      var failed := CloseIfNeeded(w.closeFails);
      ghost var start := log;
      AskedNothing(start);
      if failed {
        return CloseError;
      }
      var m := RetrieveAll(env, lib);
      if m.None? {
        return RetrieveError;
      }
      unexpandedConf := m;
      assert Valid() && closed == old(retrieved);
      ghost var mid := log;
      AskedNothing(mid);
      var c := ExpandLeaves(env, lib.flatten(m.value));
      AskedSinceNext(start, mid, log);
      if c.None? {
        return ExpandError;
      }
      var conv := lib.convert(c.value);
      return if conv.Some? then Success(conv.value) else ConvertError;
    }

    /** The event by which a Resolve begins. */
    ghost method Begin()
      requires Valid()
      modifies this`log
      ensures Tied() && log == old(log) + [Begun]
    {
      hide Handles, ClosedIn, Prompt, Settled;
      LogNext(log, Begun);
      log := log + [Begun];
      assert closed + [] == closed && retrieved + [] == retrieved;
    }

    /** Shutdown: all that is held is closed, and every provider is shut down, in any order. */
    method Shutdown(closeFails: Handle -> bool, providerFails: string -> bool)
      returns (failed: bool, ghost order: seq<string>)
      requires Valid() && !watcherClosed
      modifies this
      ensures Valid() && closers == [] && retrieved == old(retrieved) && closed == retrieved && watcherClosed
      ensures log == old(log) + Closes(old(closers)) + Downs(order) && multiset(order) == multiset(providers)
      ensures failed <==> (exists h :: h in old(closers) && closeFails(h))
                          || (exists p :: p in providers && providerFails(p))
    {
      hide Resolver.Tied, Settled, Closes, Downs;
      failed := CloseIfNeeded(closeFails);
      var down;
      down, order := ShutdownProviders(providerFails);
      failed := failed || down;
      watcherClosed := true;
    }

    method ShutdownProviders(providerFails: string -> bool) returns (failed: bool, ghost order: seq<string>)
      requires Valid()
      modifies this`log
      ensures Valid() && log == old(log) + Downs(order) && multiset(order) == multiset(providers)
      ensures failed <==> exists p :: p in providers && providerFails(p)
    {
      hide Resolver.Valid;
      failed, order := false, [];
      var left := providers;
      while left != {}
        invariant left <= providers && Valid()
        invariant log == old(log) + Downs(order) && multiset(order) == multiset(providers - left)
        invariant failed <==> exists p :: p in providers - left && providerFails(p)
        decreases |left|
      {
        var p :| p in left;
        NoteDown(p);
        assert Downs(order + [p]) == Downs(order) + [ProviderDown(p)];
        failed := failed || providerFails(p);
        assert providers - (left - {p}) == (providers - left) + {p};
        order := order + [p];
        left := left - {p};
      }
      assert providers - {} == providers;
    }

    ghost method NoteDown(p: string)
      requires Valid()
      modifies this`log
      ensures Valid() && log == old(log) + [ProviderDown(p)]
    {
      hide Handles, ClosedIn, Prompt, Settled;
      LogNext(log, ProviderDown(p));
      log := log + [ProviderDown(p)];
      assert closed + [] == closed && retrieved + [] == retrieved;
    }
  }

  /** The log once a Resolve has begun and closed what was held. */
  function Restarted(log: seq<Event>, held: seq<Handle>): seq<Event> {
    log + [Begun] + Closes(held)
  }

  /** The result of a Resolve, given whether a close function fails. */
  function ResultOf(env: Env, lib: Library, uris: seq<Location>, closeFailed: bool): ResolveResult {
    if closeFailed then CloseError else ResolvedConf(env, lib, uris)
  }

  /**
   The provider calls of a Resolve: first those for its own URIs, in order and up to the
   first failure, then those for references, and no calls at all after a failed close.
   */
  ghost predicate AskedInOrder(env: Env, lib: Library, uris: seq<Location>, r: ResolveResult, asked: seq<string>) {
    && (r.CloseError? ==> asked == [])
    && (!r.CloseError? ==> Asks(env, lib, uris, map[]) <= asked)
    && (r.RetrieveError? || (!r.CloseError? && NothingToAsk(env, lib, uris)) ==> asked == Asks(env, lib, uris, map[]))
  }

  /** The merged configuration holds no reference. */
  ghost predicate NothingToAsk(env: Env, lib: Library, uris: seq<Location>) {
    var m := Merged(env, lib, uris, map[]);
    m.Some? && forall k :: k in lib.flatten(m.value) ==> FullyExpanded(env, lib.flatten(m.value)[k])
  }

  function Downs(schemes: seq<string>): (r: seq<Event>)
    ensures |r| == |schemes|
  {
    seq(|schemes|, i requires 0 <= i < |schemes| => ProviderDown(schemes[i]))
  }

  /** The world during one Resolve: what providers answer and which close functions fail. */
  datatype World = World(retrieve: string -> Option<Retrieved>, lib: Library, closeFails: Handle -> bool)

  /** In a sequence that counts up from 0 each number stands exactly once. */
  lemma {:induction false} CountsOnce(s: seq<Handle>, h: Handle)
    requires forall i :: 0 <= i < |s| ==> s[i] == i
    ensures multiset(s)[h] == if h < |s| then 1 else 0
  {
    if s != [] {
      var last := |s| - 1;
      assert s == s[..last] + [s[last]];
      CountsOnce(s[..last], h);
    }
  }

  function Unclosed(hs: seq<Handle>, closed: seq<Handle>): seq<Handle> {
    if hs == [] then [] else
    var h := hs[|hs| - 1];
    Unclosed(hs[..|hs| - 1], closed) + if h in closed then [] else [h]
  }

  /** The handles that are retrieved and not yet closed, oldest first. */
  ghost function Open(log: seq<Event>): seq<Handle> {
    Unclosed(Handles(log), ClosedIn(log))
  }

  lemma {:induction false} UnclosedRest(hs: seq<Handle>, n: nat, closed: seq<Handle>)
    requires n <= |hs| && forall i :: 0 <= i < |hs| ==> (hs[i] in closed <==> i < n)
    ensures Unclosed(hs, closed) == hs[n..]
  {
    if hs != [] {
      var last := |hs| - 1;
      UnclosedRest(hs[..last], if n <= last then n else last, closed);
      if n <= last {
        assert hs[n..] == hs[..last][n..] + [hs[last]];
      }
    }
  }

  lemma ClosersOpen(r: Resolver)
    requires r.Tied()
    ensures Open(r.log) == r.closers
  {
    hide Handles, ClosedIn, Prompt;
    var n := |r.closed|;
    assert forall i :: 0 <= i < n ==> r.closed[i] == r.retrieved[i] == i;
    UnclosedRest(r.retrieved, n, r.closed);
    assert r.retrieved[n..] == r.closers;
  }

  /**
   Between two points of the log there is one whole Resolve in this world, with this
   result: it begins, closes all that is open, oldest first, and then asks providers.
   */
  ghost predicate Called(r: Resolver, before: seq<Event>, after: seq<Event>, w: World, result: ResolveResult) {
    var env, start := r.Answering(w.retrieve), Restarted(before, Open(before));
    && result == ResultOf(env, w.lib, r.uris, exists h :: h in Open(before) && w.closeFails(h))
    && Asking(start, after)
    && AskedInOrder(env, w.lib, r.uris, result, AskedSince(start, after))
  }

  /** The log falls at these points into the calls with these results, in the first of the worlds. */
  ghost predicate Chained(r: Resolver, log: seq<Event>, marks: seq<nat>, worlds: seq<World>,
                          results: seq<ResolveResult>) {
    && |marks| == |results| + 1 && |results| <= |worlds|
    && marks[0] == 0 && marks[|results|] <= |log|
    && forall k :: 0 <= k < |results| ==> CalledFrom(r, log, marks[k], marks[k + 1], worlds[k], results[k])
  }

  ghost predicate CalledFrom(r: Resolver, log: seq<Event>, lo: nat, hi: nat, w: World, result: ResolveResult) {
    lo < hi <= |log| && Called(r, log[..lo], log[..hi], w, result)
  }

  lemma ChainedMore(r: Resolver, log: seq<Event>, marks: seq<nat>, worlds: seq<World>, results: seq<ResolveResult>,
                    more: seq<Event>)
    requires Chained(r, log, marks, worlds, results) && log <= more
    ensures Chained(r, more, marks, worlds, results)
  {
    hide Called;
    forall k | 0 <= k < |results| ensures CalledFrom(r, more, marks[k], marks[k + 1], worlds[k], results[k]) {
      assert CalledFrom(r, log, marks[k], marks[k + 1], worlds[k], results[k]);
      assert more[..marks[k]] == log[..marks[k]] && more[..marks[k + 1]] == log[..marks[k + 1]];
    }
  }

  lemma ChainedNext(r: Resolver, log: seq<Event>, marks: seq<nat>, worlds: seq<World>, results: seq<ResolveResult>,
                    more: seq<Event>, result: ResolveResult)
    requires Chained(r, log, marks, worlds, results) && log < more && marks[|results|] == |log|
    requires |results| < |worlds| && Called(r, log, more, worlds[|results|], result)
    ensures Chained(r, more, marks + [|more|], worlds, results + [result])
  {
    hide Called;
    ChainedMore(r, log, marks, worlds, results, more);
    assert more[..|log|] == log && more[..|more|] == more;
  }

  /** One more Resolve, as the run below records it. */
  method ResolveNext(r: Resolver, w: World) returns (result: ResolveResult)
    requires r.Valid()
    modifies r
    ensures r.Valid() && r.watcherClosed == old(r.watcherClosed) && old(r.log) < r.log
    ensures Called(r, old(r.log), r.log, w, result)
  {
    hide Handles, ClosedIn, Prompt, Settled, ResultOf, AskedInOrder, AskedSince, Open;
    ClosersOpen(r);
    result := r.Resolve(w);
    assert old(r.log) < r.log;
  }

  /**
   Any number of Resolve calls, each in a world of its own and failing where that world
   makes it fail, and then Shutdown. Event by event, the log is that of the calls, with
   the results of the model in their worlds, and of closing what is then open and every
   provider. Every handle ever retrieved is closed exactly once, and no provider is asked
   in a Resolve before all handles of earlier ones are closed.
   */
  method ResolveManyAndShutdown(r: Resolver, worlds: seq<World>,
                                closeFails: Handle -> bool, providerFails: string -> bool)
    returns (results: seq<ResolveResult>, failed: bool, ghost marks: seq<nat>, ghost order: seq<string>)
    requires r.Valid() && !r.watcherClosed && r.log == []
    modifies r
    ensures |results| == |worlds| && Chained(r, r.log, marks, worlds, results)
    ensures var last := r.log[..marks[|worlds|]];
            && r.log == last + Closes(Open(last)) + Downs(order) && multiset(order) == multiset(r.providers)
            && (failed <==> (exists h :: h in Open(last) && closeFails(h))
                            || (exists p :: p in r.providers && providerFails(p)))
    ensures Prompt(r.log)
    ensures forall h :: multiset(ClosedIn(r.log))[h] == if h in Handles(r.log) then 1 else 0
  {
    hide Handles, ClosedIn, Prompt, Settled, Open, Called;
    results, marks := [], [0];
    for i := 0 to |worlds|
      invariant r.Valid() && !r.watcherClosed && |results| == i
      invariant Chained(r, r.log, marks, worlds, results) && marks[i] == |r.log|
    {
      ghost var before := r.log;
      var result := ResolveNext(r, worlds[i]);
      ChainedNext(r, before, marks, worlds, results, r.log, result);
      results, marks := results + [result], marks + [|r.log|];
    }
    ghost var last := r.log;
    ClosersOpen(r);
    failed, order := r.Shutdown(closeFails, providerFails);
    assert r.log[..|last|] == last;
    ChainedMore(r, last, marks, worlds, results, r.log);
    forall h ensures multiset(r.closed)[h] == if h in r.retrieved then 1 else 0 {
      CountsOnce(r.closed, h);
    }
  }

  // --------------------------------------------------------------- doubled dollar signs

  function DoubledConf(c: Conf): Conf {
    map k | k in c :: DoubledValue(c[k])
  }

  /** The configuration with superfluous wrappers taken off. */
  function PlainConf(c: Conf): Conf {
    map k | k in c :: Unwrapped(c[k])
  }

  /**
   For every value, whatever the default scheme and the providers: expanding it with each
   dollar sign doubled asks no provider, and gives back the doubled value exactly when it
   is direct; exactly then un-escaping gives the value itself.
   */
  method ExpandDoubled(r: Resolver, retrieve: string -> Option<Retrieved>, v: Value) returns (res: Resolution)
    requires r.Valid()
    modifies r
    ensures r.Valid() && r.log == old(r.log) && r.closers == old(r.closers)
    ensures res == Resolved(DoubledValue(Unwrapped(v)))
    ensures res.val == DoubledValue(v) <==> Direct(v)
    ensures EscapeDollarSigns(res.val) == v <==> Direct(v)
  {
    hide Handles, ClosedIn, Prompt, Settled, ExpandRecursively, FullyExpanded, Asking;
    var env := r.Answering(retrieve);
    DoubledIsFullyExpanded(env, v);
    DoublingProtects(env, v);
    res := r.ExpandValueRecursively(env, DoubledValue(v));
    assert r.closers == r.retrieved[|r.closed|..];
  }

  lemma DoubledLeaves(env: Env, leaves: Conf)
    ensures forall k :: k in DoubledConf(leaves) ==> FullyExpanded(env, DoubledConf(leaves)[k])
    ensures ExpandedConf(env, DoubledConf(leaves)) == Some(PlainConf(leaves))
    ensures PlainConf(leaves) == leaves <==> forall k :: k in leaves ==> Direct(leaves[k])
  {
    hide ExpandRecursively, FullyExpanded, EscapeDollarSigns, Unwrapped, Direct;
    forall k | k in leaves
      ensures FullyExpanded(env, DoubledValue(leaves[k]))
      ensures ExpandRecursively(env, DoubledValue(leaves[k])) == Resolved(DoubledValue(Unwrapped(leaves[k])))
      ensures EscapeDollarSigns(DoubledValue(Unwrapped(leaves[k]))) == Unwrapped(leaves[k])
      ensures Unwrapped(leaves[k]) == leaves[k] <==> Direct(leaves[k])
    {
      DoubledIsFullyExpanded(env, leaves[k]);
      DoublingProtects(env, leaves[k]);
      EscapeUndoesDoubled(Unwrapped(leaves[k]));
      UnwrappedIffDirect(leaves[k]);
    }
    var plain := PlainConf(leaves);
    assert ExpandedConf(env, DoubledConf(leaves)).value == plain;
    if plain == leaves {
      forall k | k in leaves ensures Direct(leaves[k]) {
        assert plain[k] == leaves[k];
      }
    }
  }

  /**
   Resolve, end to end: when the leaves of the merged configuration are those of `leaves`
   with each dollar sign doubled, no provider is asked but for the URIs of the resolver,
   and the converters get `leaves` itself exactly when all of them are direct.
   */
  method ResolveDoubled(r: Resolver, w: World, leaves: Conf) returns (res: ResolveResult)
    requires r.Valid()
    requires var m := Merged(r.Answering(w.retrieve), w.lib, r.uris, map[]);
             m.Some? && w.lib.flatten(m.value) == DoubledConf(leaves)
    modifies r
    ensures r.Valid()
    ensures PlainConf(leaves) == leaves <==> forall k :: k in leaves ==> Direct(leaves[k])
    ensures res == if exists h :: h in old(r.closers) && w.closeFails(h) then CloseError
                   else if w.lib.convert(PlainConf(leaves)).Some? then Success(w.lib.convert(PlainConf(leaves)).value)
                   else ConvertError
    ensures Asking(Restarted(old(r.log), old(r.closers)), r.log)
    ensures AskedSince(Restarted(old(r.log), old(r.closers)), r.log)
         == if res.CloseError? then [] else Asks(r.Answering(w.retrieve), w.lib, r.uris, map[])
  {
    hide Resolver.Valid, Direct, ExpandedConf, FullyExpanded, DoubledConf, PlainConf,
         Asks, Merged, Asking, AskedSince, Closes;
    DoubledLeaves(r.Answering(w.retrieve), leaves);
    res := r.Resolve(w);
  }
}
