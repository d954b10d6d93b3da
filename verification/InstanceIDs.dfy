/**
 Pipeline IDs and their text form (pipeline/pipeline.go), and the instance ID that keeps
 a set of them as one string so that it can be compared (component/componentstatus/instance.go).
 */
module InstanceIDs {
  import opened Common
  import opened Text

  datatype Signal = Traces | Metrics | Logs | Profiles

  datatype ID = ID(signal: Signal, name: string)

  /** Unicode's spaces, and the characters that the pattern for names admits. */
  datatype Alphabet = Alphabet(isSpace: char -> bool, inName: char -> bool)

  const PIPELINE_DELIM := ' '
  const SEPARATOR := '/'

  /** The delimiter is a space, no name character is one, and neither are the separator and lower-case letters. */
  ghost predicate Proper(u: Alphabet) {
    && u.isSpace(PIPELINE_DELIM)
    && !u.isSpace(SEPARATOR)
    && (forall c :: u.inName(c) ==> !u.isSpace(c))
    && (forall c :: 'a' <= c <= 'z' ==> !u.isSpace(c))
  }

  function SignalString(s: Signal): string {
    match s
    case Traces => "traces"
    case Metrics => "metrics"
    case Logs => "logs"
    case Profiles => "profiles"
  }

  function ParseSignal(s: string): Option<Signal> {
    if s == "profiles" then Some(Profiles)
    else if s == "traces" then Some(Traces)
    else if s == "metrics" then Some(Metrics)
    else if s == "logs" then Some(Logs)
    else None
  }

  /** ID.String. */
  function String(id: ID): string {
    if id.name == "" then SignalString(id.signal) else SignalString(id.signal) + [SEPARATOR] + id.name
  }

  /** validateName. */
  predicate ValidateName(u: Alphabet, name: string) {
    name != "" && |name| <= 1024 && forall c :: c in name ==> u.inName(c)
  }

  predicate ValidID(u: Alphabet, id: ID) {
    id.name == "" || ValidateName(u, id.name)
  }

  function TrimLeft(u: Alphabet, s: string): string {
    if s != "" && u.isSpace(s[0]) then TrimLeft(u, s[1..]) else s
  }

  function TrimRight(u: Alphabet, s: string): string {
    if s != "" && u.isSpace(s[|s| - 1]) then TrimRight(u, s[..|s| - 1]) else s
  }

  function TrimSpace(u: Alphabet, s: string): string {
    TrimRight(u, TrimLeft(u, s))
  }

  /** ID.UnmarshalText. */
  function UnmarshalText(u: Alphabet, text: string): Option<ID> {
    var hasName := SEPARATOR in text;
    var cut := if hasName then IndexOf(text, SEPARATOR) else |text|;
    var signalStr := TrimSpace(u, text[..cut]);
    var nameStr := if hasName then TrimSpace(u, text[cut + 1..]) else "";
    if signalStr == "" || (hasName && (nameStr == "" || !ValidateName(u, nameStr))) then None
    else
      match ParseSignal(signalStr)
      case None => None
      case Some(signal) => Some(ID(signal, nameStr))
  }

  lemma TrimNothing(u: Alphabet, s: string)
    requires forall c :: c in s ==> !u.isSpace(c)
    ensures TrimSpace(u, s) == s
  {
  }

  /** The names of signals are short words of lower-case letters. */
  lemma SignalWords(u: Alphabet, s: Signal)
    requires Proper(u)
    ensures SignalString(s) != "" && SEPARATOR !in SignalString(s) && PIPELINE_DELIM !in SignalString(s)
    ensures TrimSpace(u, SignalString(s)) == SignalString(s)
    ensures ParseSignal(SignalString(s)) == Some(s)
  {
    var w := SignalString(s);
    assert forall c :: c in w ==> 'a' <= c <= 'z';
    TrimNothing(u, w);
  }

  /** Every valid ID is read back from its text. */
  lemma IDRoundTrip(u: Alphabet, id: ID)
    requires Proper(u) && ValidID(u, id)
    ensures UnmarshalText(u, String(id)) == Some(id)
    ensures String(id) != "" && PIPELINE_DELIM !in String(id)
  {
    hide TrimSpace, SignalString, ParseSignal, IndexOf;
    SignalWords(u, id.signal);
    var w := SignalString(id.signal);
    if id.name == "" {
      assert w[..|w|] == w;
    } else {
      var text := String(id);
      IndexOfFirst(w, SEPARATOR, id.name);
      assert text[..|w|] == w && text[|w| + 1..] == id.name;
      TrimNothing(u, id.name);
    }
  }

  lemma StringInjective(u: Alphabet, a: ID, b: ID)
    requires Proper(u) && ValidID(u, a) && ValidID(u, b) && String(a) == String(b)
    ensures a == b
  {
    hide UnmarshalText, String;
    IDRoundTrip(u, a);
    IDRoundTrip(u, b);
  }

  /** Only valid IDs come out of text. */
  lemma UnmarshalValid(u: Alphabet, text: string)
    ensures UnmarshalText(u, text).Some? ==> ValidID(u, UnmarshalText(u, text).value)
  {
    hide TrimSpace, ParseSignal, IndexOf;
  }

  ghost predicate AllSpace(u: Alphabet, s: string) {
    forall i :: 0 <= i < |s| ==> u.isSpace(s[i])
  }

  /** The text is this word with spaces around it. */
  ghost predicate Padded(u: Alphabet, s: string, word: string) {
    exists l, r :: s == l + word + r && AllSpace(u, l) && AllSpace(u, r)
  }

  lemma {:induction false} TrimPadded(u: Alphabet, l: string, word: string, r: string)
    requires AllSpace(u, l) && AllSpace(u, r)
    requires word != "" && !u.isSpace(word[0]) && !u.isSpace(word[|word| - 1])
    ensures TrimSpace(u, l + word + r) == word
  {
    TrimLeftPadded(u, l, word + r);
    assert l + word + r == l + (word + r);
    TrimRightPadded(u, word, r);
  }

  lemma {:induction false} TrimLeftPadded(u: Alphabet, l: string, rest: string)
    requires AllSpace(u, l) && rest != "" && !u.isSpace(rest[0])
    ensures TrimLeft(u, l + rest) == rest
  {
    if l == "" {
      assert l + rest == rest;
    } else {
      assert (l + rest)[0] == l[0] && (l + rest)[1..] == l[1..] + rest;
      TrimLeftPadded(u, l[1..], rest);
    }
  }

  lemma {:induction false} TrimRightPadded(u: Alphabet, word: string, r: string)
    requires AllSpace(u, r) && word != "" && !u.isSpace(word[|word| - 1])
    ensures TrimRight(u, word + r) == word
  {
    if r == "" {
      assert word + r == word;
    } else {
      var s, last := word + r, |r| - 1;
      assert s[|s| - 1] == r[last] && s[..|s| - 1] == word + r[..last];
      TrimRightPadded(u, word, r[..last]);
    }
  }

  lemma {:induction false} TrimLeftIs(u: Alphabet, s: string) returns (l: string)
    ensures s == l + TrimLeft(u, s) && AllSpace(u, l)
  {
    l := "";
    if s != "" && u.isSpace(s[0]) {
      var l' := TrimLeftIs(u, s[1..]);
      l := [s[0]] + l';
    }
  }

  lemma {:induction false} TrimRightIs(u: Alphabet, s: string) returns (r: string)
    ensures s == TrimRight(u, s) + r && AllSpace(u, r)
  {
    r := "";
    if s != "" && u.isSpace(s[|s| - 1]) {
      var r' := TrimRightIs(u, s[..|s| - 1]);
      r := r' + [s[|s| - 1]];
    }
  }

  lemma TrimIsPadded(u: Alphabet, s: string)
    ensures Padded(u, s, TrimSpace(u, s))
  {
    var l := TrimLeftIs(u, s);
    var r := TrimRightIs(u, TrimLeft(u, s));
    hide TrimLeft, TrimRight;
    assert s == l + TrimSpace(u, s) + r;
  }

  /** Texts of an ID: the signal, and behind a slash the name if there is one, each with spaces around it. */
  ghost predicate TextOf(u: Alphabet, text: string, id: ID) {
    if id.name == "" then '/' !in text && Padded(u, text, SignalString(id.signal))
    else
      && ValidateName(u, id.name)
      && exists a, b :: text == a + "/" + b && '/' !in a
                        && Padded(u, a, SignalString(id.signal)) && Padded(u, b, id.name)
  }

  /** An ID is read from exactly its texts. */
  lemma UnmarshalIff(u: Alphabet, text: string, id: ID)
    requires Proper(u)
    ensures UnmarshalText(u, text) == Some(id) <==> TextOf(u, text, id)
  {
    hide UnmarshalText, TextOf;
    if UnmarshalText(u, text) == Some(id) {
      Unmarshalled(u, text);
    }
    if TextOf(u, text, id) {
      Reads(u, text, id);
    }
  }

  lemma Reads(u: Alphabet, text: string, id: ID)
    requires Proper(u) && TextOf(u, text, id)
    ensures UnmarshalText(u, text) == Some(id)
  {
    SignalWords(u, id.signal);
    var word := SignalString(id.signal);
    hide TrimSpace, IndexOf, SignalString, ParseSignal;
    if id.name == "" {
      TrimmedTo(u, text, id.signal);
      hide Padded;
      assert text[..|text|] == text;
    } else {
      var a, b :| text == a + "/" + b && '/' !in a && Padded(u, a, word) && Padded(u, b, id.name);
      TrimmedTo(u, a, id.signal);
      TrimmedName(u, b, id.name);
      hide Padded;
      IndexOfFirst(a, '/', b);
      assert text == a + ['/'] + b;
      assert text[..|a|] == a && text[|a| + 1..] == b;
    }
  }

  lemma WordEnds(u: Alphabet, s: Signal)
    requires Proper(u)
    ensures var w := SignalString(s); w != "" && !u.isSpace(w[0]) && !u.isSpace(w[|w| - 1])
  {
  }

  lemma TrimmedTo(u: Alphabet, a: string, s: Signal)
    requires Proper(u) && Padded(u, a, SignalString(s))
    ensures TrimSpace(u, a) == SignalString(s)
  {
    hide TrimSpace, SignalString;
    var l, r :| a == l + SignalString(s) + r && AllSpace(u, l) && AllSpace(u, r);
    WordEnds(u, s);
    TrimPadded(u, l, SignalString(s), r);
  }

  lemma TrimmedName(u: Alphabet, b: string, name: string)
    requires Proper(u) && ValidateName(u, name) && Padded(u, b, name)
    ensures TrimSpace(u, b) == name
  {
    hide TrimSpace;
    var l, r :| b == l + name + r && AllSpace(u, l) && AllSpace(u, r);
    assert name[0] in name && name[|name| - 1] in name;
    TrimPadded(u, l, name, r);
  }

  lemma Unmarshalled(u: Alphabet, text: string)
    requires Proper(u) && UnmarshalText(u, text).Some?
    ensures TextOf(u, text, UnmarshalText(u, text).value)
  {
    hide TrimSpace, IndexOf;
    if '/' in text {
      var cut := IndexOf(text, '/');
      var a, b := text[..cut], text[cut + 1..];
      assert text == a + "/" + b;
      TrimIsPadded(u, a);
      TrimIsPadded(u, b);
    } else {
      assert text[..|text|] == text;
      TrimIsPadded(u, text);
    }
  }

  // --------------------------------------------------------------- sets as one string

  function Strings(ids: seq<ID>): (r: seq<string>)
    ensures |r| == |ids| && forall i :: 0 <= i < |ids| ==> r[i] == String(ids[i])
  {
    seq(|ids|, i requires 0 <= i < |ids| => String(ids[i]))
  }

  /** The pipelines of the set in the order of their text, each once. */
  ghost predicate Lists(u: Alphabet, ids: seq<ID>, s: set<ID>) {
    && (forall id :: id in ids <==> id in s)
    && (forall id :: id in ids ==> ValidID(u, id))
    && Ascending(Strings(ids))
  }

  /** The text of an instance ID: an empty first entry, and a delimiter behind every entry. */
  function Encoding(ids: seq<ID>): string {
    Terminated([""] + Strings(ids), PIPELINE_DELIM)
  }

  lemma NoDelimiters(u: Alphabet, ids: seq<ID>)
    requires Proper(u) && forall id :: id in ids ==> ValidID(u, id)
    ensures forall p :: p in Strings(ids) ==> PIPELINE_DELIM !in p && p != ""
  {
    hide String;
    forall p | p in Strings(ids) ensures PIPELINE_DELIM !in p && p != "" {
      var i :| 0 <= i < |ids| && Strings(ids)[i] == p;
      IDRoundTrip(u, ids[i]);
    }
  }

  lemma SplitEncoding(u: Alphabet, ids: seq<ID>)
    requires Proper(u) && forall id :: id in ids ==> ValidID(u, id)
    ensures Split(Encoding(ids), PIPELINE_DELIM) == [""] + Strings(ids) + [""]
  {
    hide Split, Terminated, Strings;
    NoDelimiters(u, ids);
    SplitTerminated([""] + Strings(ids), PIPELINE_DELIM);
  }

  /** The same text stands for the same set, and the same set has the same text. */
  lemma EncodingIsCanonical(u: Alphabet, a: seq<ID>, sa: set<ID>, b: seq<ID>, sb: set<ID>)
    requires Proper(u) && Lists(u, a, sa) && Lists(u, b, sb)
    ensures Encoding(a) == Encoding(b) <==> sa == sb
  {
    hide Encoding, String;
    if Encoding(a) == Encoding(b) {
      SplitEncoding(u, a);
      SplitEncoding(u, b);
      var x, y := [""] + Strings(a) + [""], [""] + Strings(b) + [""];
      assert |a| == |b|;
      forall i | 0 <= i < |a| ensures a[i] == b[i] {
        assert x[i + 1] == String(a[i]) && y[i + 1] == String(b[i]);
        StringInjective(u, a[i], b[i]);
      }
      assert a == b;
      assert forall id :: id in sa <==> id in sb;
    }
    if sa == sb {
      ListsUnique(u, a, b, sa);
    }
  }

  lemma StringsMembers(ids: seq<ID>, x: string)
    ensures x in Strings(ids) <==> exists id :: id in ids && String(id) == x
  {
    hide String;
    if x in Strings(ids) {
      var i :| 0 <= i < |ids| && Strings(ids)[i] == x;
      assert ids[i] in ids;
    }
    if exists id :: id in ids && String(id) == x {
      var id :| id in ids && String(id) == x;
      var i :| 0 <= i < |ids| && ids[i] == id;
      assert Strings(ids)[i] == x;
    }
  }

  lemma ListsUnique(u: Alphabet, a: seq<ID>, b: seq<ID>, s: set<ID>)
    requires Proper(u) && Lists(u, a, s) && Lists(u, b, s)
    ensures a == b
  {
    hide String, Ascending;
    forall x ensures x in Strings(a) <==> x in Strings(b) {
      StringsMembers(a, x);
      StringsMembers(b, x);
    }
    AscendingUnique(Strings(a), Strings(b));
    forall i | 0 <= i < |a| ensures a[i] == b[i] {
      assert Strings(a)[i] == Strings(b)[i];
      assert a[i] in a && b[i] in b;
      StringInjective(u, a[i], b[i]);
    }
  }

  /** Sorting and compacting the old entries and the new ones lists the union. */
  lemma UnionListed(u: Alphabet, a: seq<ID>, s: set<ID>, add: seq<ID>, parts: seq<string>) returns (ids: seq<ID>)
    requires Proper(u) && Lists(u, a, s) && (forall id :: id in add ==> ValidID(u, id))
    requires forall x :: x in parts <==> x == "" || x in Strings(a) || x in Strings(add)
    ensures Lists(u, ids, s + set id | id in add)
    ensures Compact(Sort(parts)) == [""] + Strings(ids)
  {
    hide String, Leq, Sort, Compact, UnmarshalText, ValidID;
    var strs := Compact(Sort(parts));
    SortSorts(parts);
    CompactAscends(Sort(parts));
    assert "" in strs;
    SmallestFirst(strs, "");
    EmptyIsLeast(strs[0]);
    var rest := strs[1..];
    assert strs == [""] + rest;
    forall x ensures x in rest <==> x != "" && x in parts {
      TailMembers(strs, x);
    }
    NoDelimiters(u, a);
    NoDelimiters(u, add);
    forall i | 0 <= i < |rest|
      ensures exists id :: (id in a || id in add) && String(id) == rest[i] && UnmarshalText(u, rest[i]) == Some(id)
    {
      assert rest[i] in rest;
      var id := Origin(a, add, rest[i]);
      IDRoundTrip(u, id);
    }
    ids := seq(|rest|, i requires 0 <= i < |rest| => UnmarshalText(u, rest[i]).value);
    assert Strings(ids) == rest;
    AscendingTail(strs);
    forall id ensures id in ids <==> id in a || id in add {
      if id in a || id in add {
        StringsMembers(a, String(id));
        StringsMembers(add, String(id));
        var i :| 0 <= i < |rest| && rest[i] == String(id);
        IDRoundTrip(u, id);
        assert ids[i] == id;
      }
    }
  }

  lemma Origin(a: seq<ID>, add: seq<ID>, x: string) returns (id: ID)
    requires x in Strings(a) || x in Strings(add)
    ensures (id in a || id in add) && String(id) == x
  {
    StringsMembers(a, x);
    StringsMembers(add, x);
    id :| (id in a || id in add) && String(id) == x;
  }

  lemma EmptyIsLeast(x: string)
    requires Leq(x, "")
    ensures x == ""
  {
  }

  lemma AscendingTail(s: seq<string>)
    requires Ascending(s) && s != []
    ensures Ascending(s[1..])
  {
  }

  // ------------------------------------------------------------------------- scanning

  /** The entries of a text, each ended by a delimiter, with `bs` already read. */
  function Scan(text: string, bs: string): seq<string> {
    if text == "" then []
    else if text[0] == PIPELINE_DELIM then [bs] + Scan(text[1..], "")
    else Scan(text[1..], bs + [text[0]])
  }

  lemma {:induction false} ScanEntry(entry: string, rest: string, bs: string)
    requires PIPELINE_DELIM !in entry
    ensures Scan(entry + [PIPELINE_DELIM] + rest, bs) == [bs + entry] + Scan(rest, "")
    decreases |entry|
  {
    var text := entry + [PIPELINE_DELIM] + rest;
    if entry == "" {
      assert text[1..] == rest && bs + entry == bs;
    } else {
      assert text[1..] == entry[1..] + [PIPELINE_DELIM] + rest;
      ScanEntry(entry[1..], rest, bs + [entry[0]]);
      assert bs + [entry[0]] + entry[1..] == bs + entry;
    }
  }

  lemma {:induction false} ScanTerminated(parts: seq<string>)
    requires forall p :: p in parts ==> PIPELINE_DELIM !in p
    ensures Scan(Terminated(parts, PIPELINE_DELIM), "") == parts
  {
    if parts != [] {
      ScanEntry(parts[0], Terminated(parts[1..], PIPELINE_DELIM), "");
      ScanTerminated(parts[1..]);
      assert "" + parts[0] == parts[0];
    }
  }

  /** The IDs that a visitor is shown: it stops the visit by returning false. */
  function UpTo(ids: seq<ID>, f: ID -> bool): seq<ID> {
    if ids == [] then [] else if f(ids[0]) then [ids[0]] + UpTo(ids[1..], f) else [ids[0]]
  }

  /** The visit covers the IDs from the first on, and ends at the first refusal or at the end. */
  lemma {:induction false} UpToIsPrefix(ids: seq<ID>, f: ID -> bool)
    ensures var n := |UpTo(ids, f)|;
            && n <= |ids| && UpTo(ids, f) == ids[..n]
            && (forall i :: 0 <= i < n - 1 ==> f(ids[i]))
            && (n < |ids| ==> n > 0 && !f(ids[n - 1]))
  {
    if ids != [] && f(ids[0]) {
      UpToIsPrefix(ids[1..], f);
    }
  }

  /** The same on entries, of which those that are no IDs are passed over. */
  function VisitEntries(u: Alphabet, entries: seq<string>, f: ID -> bool): seq<ID> {
    if entries == [] then [] else
    match UnmarshalText(u, entries[0])
    case None => VisitEntries(u, entries[1..], f)
    case Some(id) => if f(id) then [id] + VisitEntries(u, entries[1..], f) else [id]
  }

  lemma {:induction false} VisitStrings(u: Alphabet, ids: seq<ID>, f: ID -> bool)
    requires Proper(u) && forall id :: id in ids ==> ValidID(u, id)
    ensures VisitEntries(u, Strings(ids), f) == UpTo(ids, f)
  {
    hide UnmarshalText, String;
    if ids != [] {
      IDRoundTrip(u, ids[0]);
      assert Strings(ids)[1..] == Strings(ids[1..]);
      VisitStrings(u, ids[1..], f);
    }
  }

  lemma VisitEncoding(u: Alphabet, ids: seq<ID>, f: ID -> bool)
    requires Proper(u) && forall id :: id in ids ==> ValidID(u, id)
    ensures VisitEntries(u, Scan(Encoding(ids), ""), f) == UpTo(ids, f)
  {
    hide Terminated, Scan, String;
    NoDelimiters(u, ids);
    ScanTerminated([""] + Strings(ids));
    VisitStrings(u, ids, f);
    assert ([""] + Strings(ids))[1..] == Strings(ids);
    EmptyIsNoID(u);
  }

  lemma EmptyIsNoID(u: Alphabet)
    ensures UnmarshalText(u, "") == None
  {
  }

  // ---------------------------------------------------------------------- instance IDs

  class InstanceID {
    const u: Alphabet
    const componentID: string
    const kind: string
    var pipelineIDs: string

    /** The pipelines, as a set and in the order of their text. */
    ghost var pipelines: set<ID>
    ghost var ids: seq<ID>

    ghost predicate Valid()
      reads this
    {
      Proper(u) && Lists(u, ids, pipelines) && pipelineIDs == Encoding(ids)
    }

    /** NewInstanceID. */
    constructor (u: Alphabet, componentID: string, kind: string, add: seq<ID>)
      requires Proper(u) && forall id :: id in add ==> ValidID(u, id)
      ensures Valid() && this.u == u && this.componentID == componentID && this.kind == kind
      ensures pipelines == set id | id in add
    {
      this.u, this.componentID, this.kind, pipelineIDs := u, componentID, kind, "";
      pipelines, ids := {}, [];
      new;
      assert Split("", PIPELINE_DELIM) == [""];
      AddPipelines(add);
    }

    /** addPipelines: from an empty text, or the text of a set, to the text of the union. */
    method AddPipelines(add: seq<ID>)
      requires Proper(u) && Lists(u, ids, pipelines) && (forall id :: id in add ==> ValidID(u, id))
      requires pipelineIDs == Encoding(ids) || (pipelineIDs == "" && ids == [])
      modifies this`pipelineIDs, this`pipelines, this`ids
      ensures Valid() && pipelines == old(pipelines) + set id | id in add
    {
      hide Lists, Encoding, String, Sort, Compact, Join, Split;
      var strIDs := Split(pipelineIDs, PIPELINE_DELIM);
      SplitParts(u, ids, pipelines, pipelineIDs);
      for i := 0 to |add|
        invariant forall x :: x in strIDs <==> x == "" || x in Strings(ids) || x in Strings(add[..i])
        invariant ids == old(ids) && pipelines == old(pipelines)
      {
        strIDs := strIDs + [String(add[i])];
        assert Strings(add[..i + 1]) == Strings(add[..i]) + [String(add[i])];
      }
      assert add[..|add|] == add;
      ids := UnionListed(u, ids, pipelines, add, strIDs);
      pipelines := pipelines + set id | id in add;
      strIDs := Compact(Sort(strIDs));
      JoinEncoding(ids);
      pipelineIDs := Join(strIDs, PIPELINE_DELIM) + [PIPELINE_DELIM];
    }

    /** WithPipelines: a new instance ID for more pipelines; the old one stays. */
    method WithPipelines(add: seq<ID>) returns (r: InstanceID)
      requires Valid() && forall id :: id in add ==> ValidID(u, id)
      ensures fresh(r) && r.Valid() && r.u == u && r.componentID == componentID && r.kind == kind
      ensures r.pipelines == pipelines + set id | id in add
    {
      r := new InstanceID.Copy(this);
      r.AddPipelines(add);
    }

    constructor Copy(from: InstanceID)
      requires from.Valid()
      ensures Valid() && u == from.u && componentID == from.componentID && kind == from.kind
      ensures pipelines == from.pipelines && ids == from.ids
    {
      u, componentID, kind, pipelineIDs := from.u, from.componentID, from.kind, from.pipelineIDs;
      pipelines, ids := from.pipelines, from.ids;
    }

    /**
     AllPipelineIDs shows the visitor every pipeline of the set once, in ascending order
     of their text, until the visitor returns false.
     */
    method AllPipelineIDs(f: ID -> bool) returns (visited: seq<ID>)
      requires Valid()
      ensures visited == UpTo(ids, f) && Lists(u, ids, pipelines)
    {
      hide UnmarshalText, Encoding, String;
      VisitEncoding(u, ids, f);
      visited := [];
      var bs := "";
      for i := 0 to |pipelineIDs|
        invariant UpTo(ids, f) == visited + VisitEntries(u, Scan(pipelineIDs[i..], bs), f)
      {
        assert pipelineIDs[i..][1..] == pipelineIDs[i + 1..];
        var b := pipelineIDs[i];
        if b != PIPELINE_DELIM {
          bs := bs + [b];
        } else {
          ghost var entries := Scan(pipelineIDs[i..], bs);
          assert entries[1..] == Scan(pipelineIDs[i + 1..], "");
          var id := UnmarshalText(u, bs);
          bs := "";
          if id.Some? {
            visited := visited + [id.value];
            if !f(id.value) {
              return;
            }
          }
        }
      }
    }
  }

  /** Splitting the text of a set, or the empty text, gives the entries and empty ones. */
  lemma SplitParts(u: Alphabet, ids: seq<ID>, s: set<ID>, text: string)
    requires Proper(u) && Lists(u, ids, s)
    requires text == Encoding(ids) || (text == "" && ids == [])
    ensures forall x :: x in Split(text, PIPELINE_DELIM) <==> x == "" || x in Strings(ids)
  {
    hide Encoding, String, Split;
    if text == Encoding(ids) {
      SplitEncoding(u, ids);
    } else {
      SplitOne("", PIPELINE_DELIM);
    }
  }

  lemma JoinEncoding(ids: seq<ID>)
    ensures Join([""] + Strings(ids), PIPELINE_DELIM) + [PIPELINE_DELIM] == Encoding(ids)
  {
    JoinTerminated([""] + Strings(ids), PIPELINE_DELIM);
  }

  /**
   Two instance IDs, however they came to their pipelines, compare equal exactly when
   component, kind and set of pipelines are equal.
   */
  method Compare(a: InstanceID, b: InstanceID) returns (equal: bool)
    requires a.Valid() && b.Valid() && a.u == b.u
    ensures equal <==> a.componentID == b.componentID && a.kind == b.kind && a.pipelines == b.pipelines
  {
    EncodingIsCanonical(a.u, a.ids, a.pipelines, b.ids, b.pipelines);
    equal := a.componentID == b.componentID && a.kind == b.kind && a.pipelineIDs == b.pipelineIDs;
  }
}
