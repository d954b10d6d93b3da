/**
 Feature gates (featuregate): the registry, and the flag whose printed value can be
 given back to it.
 */
module FeatureGates {
  import opened Common
  import opened Text

  datatype Stage = Alpha | Beta | Stable | Deprecated | Unknown

  datatype Gate = Gate(stage: Stage, enabled: bool)

  type Gates = map<string, Gate>

  predicate WordChar(c: char) {
    '0' <= c <= '9' || 'a' <= c <= 'z' || 'A' <= c <= 'Z' || c == '_'
  }

  /** idRegexp: non-empty words separated by single dots. */
  predicate ValidateID(id: string) {
    forall p :: p in Split(id, '.') ==> p != "" && forall c :: c in p ==> WordChar(c)
  }

  /** What Register and Set keep: stable gates are on, deprecated ones off, and IDs valid. */
  predicate Consistent(gates: Gates) {
    forall id :: id in gates ==>
      && ValidateID(id) && !gates[id].stage.Unknown?
      && (gates[id].stage.Stable? ==> gates[id].enabled)
      && (gates[id].stage.Deprecated? ==> !gates[id].enabled)
  }

  /** The registry has the gates it had before, in the same stages, and perhaps more. */
  predicate Extends(before: Gates, after: Gates) {
    forall id :: id in before ==> id in after && after[id].stage == before[id].stage
  }

  /** A registration option; versions are given by their rank, or not at all when they are malformed. */
  datatype RegisterOption =
    | WithDescription
    | WithReferenceURL(valid: bool)
    | WithFromVersion(version: Option<int>)
    | WithToVersion(version: Option<int>)
  {
    predicate Applies() {
      match this
      case WithDescription => true
      case WithReferenceURL(valid) => valid
      case WithFromVersion(v) => v.Some?
      case WithToVersion(v) => v.Some?
    }
  }

  /** The version that the last such option sets. */
  function FromVersion(opts: seq<RegisterOption>): Option<int> {
    if opts == [] then None
    else if opts[|opts| - 1].WithFromVersion? then opts[|opts| - 1].version
    else FromVersion(opts[..|opts| - 1])
  }

  function ToVersion(opts: seq<RegisterOption>): Option<int> {
    if opts == [] then None
    else if opts[|opts| - 1].WithToVersion? then opts[|opts| - 1].version
    else ToVersion(opts[..|opts| - 1])
  }

  /** Whether Registry.Register accepts the gate. */
  predicate RegisterAllowed(gates: Gates, id: string, stage: Stage, opts: seq<RegisterOption>) {
    && ValidateID(id) && (forall i :: 0 <= i < |opts| ==> opts[i].Applies()) && !stage.Unknown?
    && (stage.Stable? || stage.Deprecated? ==> ToVersion(opts).Some?)
    && (FromVersion(opts).Some? && ToVersion(opts).Some? ==> FromVersion(opts).value <= ToVersion(opts).value)
    && id !in gates
  }

  /** The gates after Registry.Register: a new gate is on exactly in the stages beta and stable. */
  function AfterRegister(gates: Gates, id: string, stage: Stage, opts: seq<RegisterOption>): Gates {
    if RegisterAllowed(gates, id, stage, opts) then gates[id := Gate(stage, stage.Beta? || stage.Stable?)] else gates
  }

  /** Whether Registry.Set accepts the value for the gate. */
  predicate SetAllowed(gates: Gates, id: string, enabled: bool) {
    id in gates && (gates[id].stage.Stable? ==> enabled) && (gates[id].stage.Deprecated? ==> !enabled)
  }

  /** The gates after Registry.Set: only alpha and beta gates are changed. */
  function AfterSet(gates: Gates, id: string, enabled: bool): Gates {
    if SetAllowed(gates, id, enabled) && !gates[id].stage.Stable? && !gates[id].stage.Deprecated?
    then gates[id := gates[id].(enabled := enabled)] else gates
  }

  lemma SetKeepsConsistent(gates: Gates, id: string, enabled: bool)
    requires Consistent(gates)
    ensures Consistent(AfterSet(gates, id, enabled)) && Extends(gates, AfterSet(gates, id, enabled))
    ensures AfterSet(gates, id, enabled).Keys == gates.Keys
    ensures SetAllowed(gates, id, enabled) ==> AfterSet(gates, id, enabled)[id].enabled == enabled
    ensures forall other :: other in gates && other != id ==> AfterSet(gates, id, enabled)[other] == gates[other]
  {
    hide ValidateID;
  }

  /** In plain words: word characters and dots, with no dot at an end or behind another. */
  predicate Dotted(id: string) {
    && id != "" && (forall i :: 0 <= i < |id| ==> WordChar(id[i]) || id[i] == '.')
    && forall i :: 0 <= i < |id| && id[i] == '.' ==> 0 < i < |id| - 1 && id[i + 1] != '.'
  }

  lemma {:induction false} ValidIDIff(id: string)
    ensures ValidateID(id) <==> Dotted(id)
    decreases |id|
  {
    if '.' !in id {
      SplitOne(id, '.');
      assert id in [id];
      assert forall i :: 0 <= i < |id| ==> id[i] in id;
    } else {
      var i := IndexOf(id, '.');
      var a, b := id[..i], id[i + 1..];
      assert id == a + ['.'] + b;
      SplitFirst(a, '.', b);
      ValidIDIff(b);
      assert ValidateID(id) <==> Word(a) && ValidateID(b) by {
        HeadAndTail(a, Split(b, '.'));
      }
      hide ValidateID;
      DottedIff(a, b);
    }
  }

  predicate Word(p: string) {
    p != "" && forall c :: c in p ==> WordChar(c)
  }

  lemma HeadAndTail(a: string, ps: seq<string>)
    ensures (forall p :: p in [a] + ps ==> Word(p)) <==> Word(a) && forall p :: p in ps ==> Word(p)
  {
    assert a in [a] + ps;
    assert forall p :: p in ps ==> p in [a] + ps;
  }

  lemma DottedIff(a: string, b: string)
    requires '.' !in a
    ensures Dotted(a + ['.'] + b) <==> Word(a) && Dotted(b)
  {
    var id := a + ['.'] + b;
    assert id[|a|] == '.';
    assert forall i :: 0 <= i < |a| ==> id[i] == a[i] && a[i] in a;
    assert forall i :: 0 <= i < |b| ==> id[|a| + 1 + i] == b[i];
    if Dotted(id) {
      assert 0 < |a| && b != "" && b[0] != '.';
      forall i | 0 <= i < |b| && b[i] == '.' ensures 0 < i < |b| - 1 && b[i + 1] != '.' {
        assert id[|a| + 1 + i] == '.';
      }
      forall c | c in a ensures WordChar(c) {
        var i :| 0 <= i < |a| && a[i] == c;
        assert id[i] == c;
      }
    }
    if Word(a) && Dotted(b) {
      forall i | 0 <= i < |id|
        ensures (WordChar(id[i]) || id[i] == '.') && (id[i] == '.' ==> 0 < i < |id| - 1 && id[i + 1] != '.') {
        if i > |a| {
          assert id[i] == b[i - |a| - 1];
          if id[i] == '.' {
            assert id[i + 1] == b[i - |a|];
          }
        } else if i == |a| {
          assert id[i + 1] == b[0];
        }
      }
    }
  }

  /**
   What registering does, stage by stage: a new gate is off if it is alpha or deprecated,
   and on if it is beta or stable. A stable or deprecated gate needs a version to end in.
   */
  lemma RegisterMeans(gates: Gates, id: string, stage: Stage, opts: seq<RegisterOption>)
    requires Dotted(id) && id !in gates && forall i :: 0 <= i < |opts| ==> opts[i].Applies()
    requires forall i, j :: 0 <= i < |opts| && 0 <= j < |opts| && opts[i].WithFromVersion? && opts[j].WithToVersion? ==>
               !Reversed(opts[i].version, opts[j].version)
    ensures stage == Alpha ==> AfterRegister(gates, id, stage, opts) == gates[id := Gate(Alpha, false)]
    ensures stage == Beta ==> AfterRegister(gates, id, stage, opts) == gates[id := Gate(Beta, true)]
    ensures stage in {Stable, Deprecated} ==>
              AfterRegister(gates, id, stage, opts)
              == if exists i :: 0 <= i < |opts| && opts[i].WithToVersion?
                 then gates[id := Gate(stage, stage == Stable)] else gates
    ensures stage == Unknown ==> AfterRegister(gates, id, stage, opts) == gates
  {
    hide ValidateID, Dotted;
    ValidIDIff(id);
    Versions(opts);
  }

  /** Both versions are given, and the first is after the second. */
  predicate Reversed(from: Option<int>, to_: Option<int>) {
    from.Some? && to_.Some? && from.value > to_.value
  }

  /** A malformed or known ID and a malformed option are refused, and so are versions in reverse, the last of each. */
  lemma RegisterRefuses(gates: Gates, id: string, stage: Stage, opts: seq<RegisterOption>, i: nat, j: nat)
    requires || !Dotted(id) || id in gates
             || (i < |opts| && !opts[i].Applies())
             || (&& i < |opts| && opts[i].WithFromVersion? && (forall k :: i < k < |opts| ==> !opts[k].WithFromVersion?)
                 && j < |opts| && opts[j].WithToVersion? && (forall k :: j < k < |opts| ==> !opts[k].WithToVersion?)
                 && Reversed(opts[i].version, opts[j].version))
    ensures !RegisterAllowed(gates, id, stage, opts) && AfterRegister(gates, id, stage, opts) == gates
  {
    hide ValidateID, Dotted;
    ValidIDIff(id);
    LastVersions(opts, i, j);
  }

  /** The version that counts is that of the last such option. */
  lemma {:induction false} LastVersions(opts: seq<RegisterOption>, i: nat, j: nat)
    ensures i < |opts| && opts[i].WithFromVersion? && (forall k :: i < k < |opts| ==> !opts[k].WithFromVersion?) ==>
              FromVersion(opts) == opts[i].version
    ensures j < |opts| && opts[j].WithToVersion? && (forall k :: j < k < |opts| ==> !opts[k].WithToVersion?) ==>
              ToVersion(opts) == opts[j].version
  {
    if opts != [] {
      var last := |opts| - 1;
      var init := opts[..last];
      assert forall k :: 0 <= k < last ==> init[k] == opts[k];
      LastVersions(init, i, j);
    }
  }

  lemma {:induction false} Versions(opts: seq<RegisterOption>)
    requires forall i :: 0 <= i < |opts| ==> opts[i].Applies()
    ensures ToVersion(opts).Some? ==>
              exists i :: 0 <= i < |opts| && opts[i].WithToVersion? && ToVersion(opts) == opts[i].version
    ensures FromVersion(opts).Some? ==>
              exists i :: 0 <= i < |opts| && opts[i].WithFromVersion? && FromVersion(opts) == opts[i].version
    ensures (exists i :: 0 <= i < |opts| && opts[i].WithToVersion?) ==> ToVersion(opts).Some?
  {
    if opts != [] {
      var last := |opts| - 1;
      var init := opts[..last];
      assert forall k :: 0 <= k < last ==> init[k] == opts[k];
      Versions(init);
    }
  }

  /** One entry of the flag: '-' turns a gate off, '+' or nothing turns it on. */
  function EntryID(entry: string): string {
    if entry != "" && (entry[0] == '-' || entry[0] == '+') then entry[1..] else entry
  }

  predicate EntryValue(entry: string) {
    entry == "" || entry[0] != '-'
  }

  predicate EntryAllowed(gates: Gates, entry: string) {
    entry != "" && SetAllowed(gates, EntryID(entry), EntryValue(entry))
  }

  function AfterEntry(gates: Gates, entry: string): Gates {
    if entry == "" then gates else AfterSet(gates, EntryID(entry), EntryValue(entry))
  }

  /** The gates after all entries; a refused entry does not stop the later ones. */
  function AfterEntries(gates: Gates, entries: seq<string>): Gates {
    if entries == [] then gates else AfterEntries(AfterEntry(gates, entries[0]), entries[1..])
  }

  /** How many entries are refused. */
  function Refused(gates: Gates, entries: seq<string>): nat {
    if entries == [] then 0
    else (if EntryAllowed(gates, entries[0]) then 0 else 1) + Refused(AfterEntry(gates, entries[0]), entries[1..])
  }

  /** How String prints a gate. */
  function Entry(gates: Gates, id: string): string
    requires id in gates
  {
    if gates[id].enabled then id else "-" + id
  }

  function Entries(gates: Gates, ids: seq<string>): (r: seq<string>)
    requires forall id :: id in ids ==> id in gates
    ensures |r| == |ids| && forall i :: 0 <= i < |ids| ==> r[i] == Entry(gates, ids[i])
  {
    seq(|ids|, i requires 0 <= i < |ids| && ids[i] in gates => Entry(gates, ids[i]))
  }

  /** The printed value of the flag, given the visiting order. */
  function Printed(gates: Gates, ids: seq<string>): string
    requires forall id :: id in ids ==> id in gates
  {
    Join(Entries(gates, ids), ',')
  }

  class Registry {
    var gates: Gates

    constructor ()
      ensures gates == map[] && Consistent(gates)
    {
      gates := map[];
    }

    /** Register. */
    method Register(id: string, stage: Stage, opts: seq<RegisterOption>) returns (ok: bool)
      requires Consistent(gates)
      modifies this
      ensures Consistent(gates) && Extends(old(gates), gates)
      ensures ok <==> RegisterAllowed(old(gates), id, stage, opts)
      ensures gates == AfterRegister(old(gates), id, stage, opts)
    {
      hide ValidateID;
      if !ValidateID(id) {
        return false;
      }
      var from: Option<int>, to_: Option<int> := None, None;
      for i := 0 to |opts|
        invariant from == FromVersion(opts[..i]) && to_ == ToVersion(opts[..i])
        invariant forall j :: 0 <= j < i ==> opts[j].Applies()
      {
        if !opts[i].Applies() {
          return false;
        }
        assert opts[..i + 1][..i] == opts[..i];
        match opts[i] {
          case WithFromVersion(v) => from := v;
          case WithToVersion(v) => to_ := v;
          case _ =>
        }
      }
      assert opts[..|opts|] == opts;
      var enabled;
      match stage {
        case Alpha => enabled := false;
        case Deprecated => enabled := false;
        case Beta => enabled := true;
        case Stable => enabled := true;
        case Unknown => return false;
      }
      if (stage.Stable? || stage.Deprecated?) && to_.None? {
        return false;
      }
      if from.Some? && to_.Some? && to_.value < from.value {
        return false;
      }
      if id in gates {
        return false;
      }
      gates := gates[id := Gate(stage, enabled)];
      return true;
    }

    /** Set. */
    method Set(id: string, enabled: bool) returns (ok: bool)
      modifies this
      ensures gates == AfterSet(old(gates), id, enabled)
      ensures ok <==> SetAllowed(old(gates), id, enabled)
      ensures Consistent(old(gates)) ==> Consistent(gates) && Extends(old(gates), gates)
    {
      if Consistent(gates) {
        SetKeepsConsistent(gates, id, enabled);
      }
      hide Consistent;
      if id !in gates {
        return false;
      }
      match gates[id].stage {
        case Stable => return enabled;
        case Deprecated => return !enabled;
        case _ =>
          gates := gates[id := gates[id].(enabled := enabled)];
          return true;
      }
    }

    /** VisitAll: the gates are collected in any order and visited by ascending ID. */
    method VisitAll() returns (ids: seq<string>)
      ensures Ascending(ids) && forall id :: id in ids <==> id in gates
    {
      var collected: seq<string> := [];
      var left := gates.Keys;
      while left != {}
        invariant left <= gates.Keys
        invariant forall id :: id in collected <==> id in gates.Keys - left
        invariant forall i, j :: 0 <= i < j < |collected| ==> collected[i] != collected[j]
        decreases |left|
      {
        var id :| id in left;
        assert id !in collected && forall i :: 0 <= i < |collected| ==> collected[i] in collected;
        collected := collected + [id];
        left := left - {id};
      }
      ids := Sort(collected);
      SortSorts(collected);
      SortedDistinctAscends(collected);
    }

    /** flagValue.String. */
    method String() returns (s: string, ghost ids: seq<string>)
      ensures Ascending(ids) && (forall id :: id in ids <==> id in gates)
      ensures s == Printed(gates, ids)
    {
      var order := VisitAll();
      ids := order;
      var entries: seq<string> := [];
      for i := 0 to |order|
        invariant |entries| == i && forall j :: 0 <= j < i ==> entries[j] == Entry(gates, order[j])
      {
        var id := order[i];
        if !gates[id].enabled {
          id := "-" + id;
        }
        entries := entries + [id];
      }
      assert entries == Entries(gates, order);
      s := Join(entries, ',');
    }

    /** flagValue.Set: every entry is applied, and the refused ones are counted. */
    method SetFlag(s: string) returns (errs: nat)
      modifies this
      ensures gates == if s == "" then old(gates) else AfterEntries(old(gates), Split(s, ','))
      ensures errs == if s == "" then 0 else Refused(old(gates), Split(s, ','))
    {
      if s == "" {
        return 0;
      }
      errs := 0;
      var ids := Split(s, ',');
      for i := 0 to |ids|
        invariant AfterEntries(old(gates), ids) == AfterEntries(gates, ids[i..])
        invariant Refused(old(gates), ids) == errs + Refused(gates, ids[i..])
      {
        assert ids[i..][1..] == ids[i + 1..];
        var id := ids[i];
        if id == "" {
          errs := errs + 1;
          continue;
        }
        var val := true;
        if id[0] == '-' {
          id := id[1..];
          val := false;
        } else if id[0] == '+' {
          id := id[1..];
        }
        var ok := Set(id, val);
        if !ok {
          errs := errs + 1;
        }
      }
    }
  }

  /** Sorting distinct strings leaves no equal neighbours. */
  lemma SortedDistinctAscends(s: seq<string>)
    requires forall i, j :: 0 <= i < j < |s| ==> s[i] != s[j]
    ensures Ascending(Sort(s))
  {
    var r := Sort(s);
    SortSorts(s);
    forall i, j | 0 <= i < j < |r| ensures Less(r[i], r[j]) {
      if r[i] == r[j] {
        CountTwice(r, i, j);
        DistinctCount(s, r[i]);
      }
    }
  }

  lemma CountTwice(s: seq<string>, i: nat, j: nat)
    requires i < j < |s| && s[i] == s[j]
    ensures multiset(s)[s[i]] >= 2
  {
    assert s == s[..j] + ([s[j]] + s[j + 1..]);
    assert s[..j][i] == s[i];
    assert s[i] in multiset(s[..j]);
  }

  lemma {:induction false} DistinctCount(s: seq<string>, x: string)
    requires forall i, j :: 0 <= i < j < |s| ==> s[i] != s[j]
    ensures multiset(s)[x] <= 1
  {
    if s != [] {
      var init := s[..|s| - 1];
      assert s == init + [s[|s| - 1]];
      DistinctCount(init, x);
    }
  }

  /** The three ways to write an entry. */
  lemma EntryForms(gates: Gates, id: string)
    requires Dotted(id)
    ensures AfterEntry(gates, id) == AfterEntry(gates, "+" + id) == AfterSet(gates, id, true)
    ensures AfterEntry(gates, "-" + id) == AfterSet(gates, id, false)
  {
    assert ("+" + id)[1..] == id && ("-" + id)[1..] == id;
    assert id[0] != '.';
  }

  /** Entries change no stage, so that each is refused or not by the registry as it was. */
  lemma {:induction false} EntriesKeepStages(gates: Gates, entries: seq<string>)
    requires Consistent(gates)
    ensures AfterEntries(gates, entries).Keys == gates.Keys && Extends(gates, AfterEntries(gates, entries))
    ensures Refused(gates, entries) == Unacceptable(gates, entries)
    decreases |entries|
  {
    if entries == [] {
    } else {
      var e, next := entries[0], AfterEntry(gates, entries[0]);
      SetKeepsConsistent(gates, EntryID(e), EntryValue(e));
      EntriesKeepStages(next, entries[1..]);
      hide Consistent, AfterSet;
      SameStages(gates, next, entries[1..]);
    }
  }

  /** How many entries are empty, name no gate, or turn a stable gate off or a deprecated one on. */
  function Unacceptable(gates: Gates, entries: seq<string>): nat {
    if entries == [] then 0 else
    var e, more := entries[0], Unacceptable(gates, entries[1..]);
    if e == "" || EntryID(e) !in gates then more + 1 else
    var stage := gates[EntryID(e)].stage;
    if (stage.Stable? && e[0] == '-') || (stage.Deprecated? && e[0] != '-') then more + 1 else more
  }

  lemma {:induction false} SameStages(gates: Gates, next: Gates, entries: seq<string>)
    requires gates.Keys == next.Keys && Extends(gates, next)
    ensures Unacceptable(gates, entries) == Unacceptable(next, entries)
    decreases |entries|
  {
    if entries != [] {
      SameStages(gates, next, entries[1..]);
      assert EntryID(entries[0]) in gates <==> EntryID(entries[0]) in gates.Keys;
      assert EntryID(entries[0]) in next <==> EntryID(entries[0]) in next.Keys;
    }
  }

  /** Of the entries for a gate that may be set, the last one decides. */
  lemma {:induction false} LastEntryDecides(gates: Gates, entries: seq<string>, id: string, k: nat)
    requires Consistent(gates) && id in gates && gates[id].stage in {Alpha, Beta} && Dotted(id)
    requires k < |entries| && entries[k] in {id, "+" + id, "-" + id}
    requires forall j :: k < j < |entries| ==> entries[j] !in {id, "+" + id, "-" + id}
    ensures id in AfterEntries(gates, entries) && AfterEntries(gates, entries)[id].enabled == (entries[k] != "-" + id)
    decreases |entries|
  {
    var e, next := entries[0], AfterEntry(gates, entries[0]);
    SetKeepsConsistent(gates, EntryID(e), EntryValue(e));
    if k > 0 {
      LastEntryDecides(next, entries[1..], id, k - 1);
    } else {
      EntryForms(gates, id);
      Untouched(next, entries[1..], id);
    }
  }

  lemma {:induction false} Untouched(gates: Gates, entries: seq<string>, id: string)
    requires Consistent(gates) && id in gates
    requires forall j :: 0 <= j < |entries| ==> entries[j] !in {id, "+" + id, "-" + id}
    ensures id in AfterEntries(gates, entries) && AfterEntries(gates, entries)[id] == gates[id]
    decreases |entries|
  {
    if entries != [] {
      var e := entries[0];
      SetKeepsConsistent(gates, EntryID(e), EntryValue(e));
      assert e != "" && (e[0] == '-' || e[0] == '+') ==> e == [e[0]] + e[1..];
      Untouched(AfterEntry(gates, e), entries[1..], id);
    }
  }

  // ------------------------------------------------------------------- giving it back

  lemma {:induction false} SplitPreserves(id: string, c: char, x: char)
    requires c in id && c != x
    ensures exists p :: p in Split(id, x) && c in p
    decreases |id|
  {
    if x in id {
      var i := IndexOf(id, x);
      if c in id[..i] {
        assert id[..i] in Split(id, x);
      } else {
        assert id == id[..i] + [x] + id[i + 1..];
        assert c in id[i + 1..];
        SplitPreserves(id[i + 1..], c, x);
        var p :| p in Split(id[i + 1..], x) && c in p;
        assert p in Split(id, x);
      }
    } else {
      assert id in Split(id, x);
    }
  }

  /** The characters of a valid ID are word characters and dots. */
  lemma IDChars(id: string)
    requires ValidateID(id)
    ensures id != "" && forall c :: c in id ==> WordChar(c) || c == '.'
  {
    forall c | c in id ensures WordChar(c) || c == '.' {
      if c != '.' {
        SplitPreserves(id, c, '.');
      }
    }
    SplitOne("", '.');
    assert "" in Split("", '.');
  }

  /** What String prints for a gate, the flag reads back as that gate and that value. */
  lemma EntryReadBack(gates: Gates, id: string)
    requires Consistent(gates) && id in gates
    ensures var e := Entry(gates, id);
            e != "" && ',' !in e && EntryID(e) == id && EntryValue(e) == gates[id].enabled
  {
    hide ValidateID;
    IDChars(id);
    assert id[0] in id;
  }

  /** The printed gates applied to a later registry: none is refused, and all are restored. */
  lemma {:induction false} EntriesRestore(before: Gates, now: Gates, ids: seq<string>)
    requires Consistent(before) && Consistent(now) && Extends(before, now)
    requires forall id :: id in ids ==> id in before
    ensures var after := AfterEntries(now, Entries(before, ids));
            && Refused(now, Entries(before, ids)) == 0
            && after.Keys == now.Keys
            && (forall id :: id in ids ==> after[id].enabled == before[id].enabled)
            && (forall id :: id in now && id !in ids ==> after[id] == now[id])
    decreases ids
  {
    hide ValidateID, Entry, SetAllowed, AfterSet;
    if ids != [] {
      var id := ids[0];
      assert id in ids;
      EntryReadBack(before, id);
      assert Entries(before, ids)[1..] == Entries(before, ids[1..]);
      Acceptable(before, now, id);
      SetKeepsConsistent(now, id, before[id].enabled);
      var next := AfterSet(now, id, before[id].enabled);
      assert Extends(before, next);
      EntriesRestore(before, next, ids[1..]);
    }
  }

  lemma Acceptable(before: Gates, now: Gates, id: string)
    requires Consistent(before) && Consistent(now) && Extends(before, now) && id in before
    ensures SetAllowed(now, id, before[id].enabled)
  {
    hide ValidateID;
  }

  /**
   The printed flag of any reachable registry, set on the registry at any later time:
   no error, every gate it names has its value back, and no other gate is touched.
   */
  lemma PrintedRestores(before: Gates, now: Gates, ids: seq<string>)
    requires Consistent(before) && Consistent(now) && Extends(before, now)
    requires forall id :: id in ids <==> id in before
    ensures var s := Printed(before, ids);
            var after := if s == "" then now else AfterEntries(now, Split(s, ','));
            && (s == "" || Refused(now, Split(s, ',')) == 0)
            && after.Keys == now.Keys
            && (forall id :: id in before ==> after[id].enabled == before[id].enabled)
            && (forall id :: id in now && id !in before ==> after[id] == now[id])
  {
    hide ValidateID, Split, Entry, AfterEntries, Refused;
    if ids != [] {
      var entries := Entries(before, ids);
      forall p | p in entries ensures ',' !in p && p != "" {
        var i :| 0 <= i < |entries| && entries[i] == p;
        assert ids[i] in ids;
        EntryReadBack(before, ids[i]);
      }
      SplitJoin(entries, ',');
      assert entries[0] in entries;
      JoinNotEmpty(entries, ',');
      EntriesRestore(before, now, ids);
    }
  }

  lemma JoinNotEmpty(parts: seq<string>, c: char)
    requires parts != [] && parts[0] != ""
    ensures Join(parts, c) != ""
  {
  }

  /** Something that happens to a registry between printing and giving back. */
  datatype Operation = RegisterGate(id: string, stage: Stage, opts: seq<RegisterOption>)
    | SetGate(id: string, enabled: bool)

  function AfterOperations(gates: Gates, ops: seq<Operation>): Gates {
    if ops == [] then gates else
    var before := AfterOperations(gates, ops[..|ops| - 1]);
    match ops[|ops| - 1]
    case RegisterGate(id, stage, opts) => AfterRegister(before, id, stage, opts)
    case SetGate(id, enabled) => AfterSet(before, id, enabled)
  }

  /**
   Print, let anything happen, and set what was printed: no error is reported, all gates
   of then are as they were, and those registered since are as they were left.
   */
  method PrintThenSet(r: Registry, ops: seq<Operation>) returns (errs: nat)
    requires Consistent(r.gates)
    modifies r
    ensures errs == 0
    ensures var now := AfterOperations(old(r.gates), ops);
            && r.gates.Keys == now.Keys && old(r.gates).Keys <= now.Keys
            && (forall id :: id in old(r.gates) ==> r.gates[id].enabled == old(r.gates)[id].enabled)
            && (forall id :: id in now && id !in old(r.gates) ==> r.gates[id] == now[id])
  {
    hide Consistent, Printed, Split, AfterEntries, Refused, AfterRegister, AfterSet;
    ghost var before := r.gates;
    var s, ids := r.String();
    for i := 0 to |ops|
      invariant Consistent(r.gates) && Extends(before, r.gates)
      invariant r.gates == AfterOperations(before, ops[..i])
    {
      assert ops[..i + 1][..i] == ops[..i];
      match ops[i] {
        case RegisterGate(id, stage, opts) => var _ := r.Register(id, stage, opts);
        case SetGate(id, enabled) => var _ := r.Set(id, enabled);
      }
    }
    assert ops[..|ops|] == ops;
    PrintedRestores(before, r.gates, ids);
    errs := r.SetFlag(s);
  }
}
