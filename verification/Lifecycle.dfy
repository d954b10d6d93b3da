/**
 The order of lifecycle events that the collector must keep (otelcol/collector.go and
 service/service.go): an automaton over the events of a run, and what acceptance by it
 means in terms of the events alone.
 */
module Lifecycle {
  import opened Common

  datatype State = StateStarting | StateRunning | StateClosing | StateClosed

  datatype Provider = Logger | MeterProvider | TracerProvider

  type ServiceID = nat

  datatype Event =
    | SetState(state: State)
    | ProviderCreated(svc: ServiceID, provider: Provider)
    | ProviderStopped(svc: ServiceID, provider: Provider)
    | ServiceCreated(svc: ServiceID)
    | ServiceStarted(svc: ServiceID)
    | ServiceStartFailed(svc: ServiceID)
    | ServiceUpdated(svc: ServiceID, changed: set<string>)
    | ServiceStopped(svc: ServiceID)
    | ConfigResolved
    | ConfigProviderDown

  type Held = (ServiceID, Provider)

  /** The providers of a service in the order of their creation. */
  function Providers(svc: ServiceID): seq<Held> {
    [(svc, Logger), (svc, MeterProvider), (svc, TracerProvider)]
  }

  /**
   What the automaton remembers: the services and providers there ever were, the one
   service that is alive and whether it was started, the state of the collector, whether
   the config provider is shut down, and the running providers, oldest first.
   */
  datatype Ledger = Ledger(ever: set<ServiceID>, born: set<Held>, alive: Option<ServiceID>, started: bool,
                           state: State, down: bool, stack: seq<Held>)

  const INITIAL := Ledger({}, {}, None, false, StateStarting, false, [])

  function Next(l: Ledger, e: Event): Option<Ledger> {
    match e
    case SetState(s) =>
      if s == StateRunning ==> l.alive.Some? && l.started then Some(l.(state := s)) else None
    case ProviderCreated(svc, p) =>
      if (svc, p) !in l.born then Some(l.(born := l.born + {(svc, p)}, stack := l.stack + [(svc, p)])) else None
    case ProviderStopped(svc, p) =>
      if l.stack != [] && l.stack[|l.stack| - 1] == (svc, p) then Some(l.(stack := l.stack[..|l.stack| - 1])) else None
    case ServiceCreated(svc) =>
      if l.alive.None? && svc !in l.ever && l.stack == Providers(svc)
      then Some(l.(ever := l.ever + {svc}, alive := Some(svc), started := false)) else None
    case ServiceStarted(svc) =>
      if l.alive == Some(svc) && !l.started then Some(l.(started := true)) else None
    case ServiceStartFailed(svc) =>
      if l.alive == Some(svc) && !l.started then Some(l) else None
    case ServiceUpdated(svc, _) =>
      if l.alive == Some(svc) && l.started && l.state == StateRunning then Some(l) else None
    case ServiceStopped(svc) =>
      if l.alive == Some(svc) && l.state != StateRunning && l.stack == Providers(svc)
      then Some(l.(alive := None, started := false)) else None
    case ConfigResolved =>
      if !l.down then Some(l) else None
    case ConfigProviderDown =>
      if !l.down then Some(l.(down := true)) else None
  }

  /** The ledger after a run, when every event was allowed. */
  function After(es: seq<Event>): Option<Ledger> {
    if es == [] then Some(INITIAL) else
    match After(es[..|es| - 1])
    case None => None
    case Some(l) => Next(l, es[|es| - 1])
  }

  lemma AfterNext(es: seq<Event>, e: Event)
    requires After(es).Some?
    ensures After(es + [e]) == Next(After(es).value, e)
  {
    assert (es + [e])[..|es|] == es;
  }

  lemma {:induction false} AfterPrefix(es: seq<Event>, n: nat)
    requires After(es).Some? && n <= |es|
    ensures After(es[..n]).Some?
    decreases |es| - n
  {
    if n < |es| {
      AfterPrefix(es, n + 1);
      assert es[..n + 1][..n] == es[..n];
    } else {
      assert es[..n] == es;
    }
  }

  lemma AfterStep(es: seq<Event>, n: nat)
    requires After(es).Some? && n < |es|
    ensures After(es[..n]).Some? && After(es[..n + 1]) == Next(After(es[..n]).value, es[n]) && After(es[..n + 1]).Some?
  {
    AfterPrefix(es, n);
    AfterPrefix(es, n + 1);
    assert es[..n + 1][..n] == es[..n];
  }

  function Count(es: seq<Event>, e: Event): nat {
    if es == [] then 0 else Count(es[..|es| - 1], e) + if es[|es| - 1] == e then 1 else 0
  }

  lemma CountNext(es: seq<Event>, e: Event)
    requires es != []
    ensures Count(es, e) == Count(es[..|es| - 1], e) + if es[|es| - 1] == e then 1 else 0
  {
  }

  /** Created and not yet stopped, by the events alone. */
  predicate AliveIn(es: seq<Event>, svc: ServiceID) {
    Count(es, ServiceCreated(svc)) > Count(es, ServiceStopped(svc))
  }

  /** A service is created at most once and stopped at most once, and is alive in between. */
  lemma {:induction false} ServiceCounts(es: seq<Event>, svc: ServiceID)
    requires After(es).Some?
    ensures Count(es, ServiceCreated(svc)) == if svc in After(es).value.ever then 1 else 0
    ensures Count(es, ServiceCreated(svc))
         == Count(es, ServiceStopped(svc)) + if After(es).value.alive == Some(svc) then 1 else 0
    ensures After(es).value.alive == Some(svc) ==> svc in After(es).value.ever
  {
    if es != [] {
      ServiceCounts(es[..|es| - 1], svc);
    }
  }

  /** At every moment of an accepted run at most one service is alive. */
  lemma AtMostOneAlive(es: seq<Event>, n: nat, a: ServiceID, b: ServiceID)
    requires After(es).Some? && n <= |es|
    requires AliveIn(es[..n], a) && AliveIn(es[..n], b)
    ensures a == b
  {
    AfterPrefix(es, n);
    ServiceCounts(es[..n], a);
    ServiceCounts(es[..n], b);
  }

  function StateAfter(es: seq<Event>): State {
    if es == [] then StateStarting
    else if es[|es| - 1].SetState? then es[|es| - 1].state
    else StateAfter(es[..|es| - 1])
  }

  lemma {:induction false} StateCounts(es: seq<Event>)
    requires After(es).Some?
    ensures var l := After(es).value;
            && l.state == StateAfter(es)
            && (l.state == StateRunning ==> l.alive.Some? && l.started)
            && (l.alive.Some? && l.started ==> Count(es, ServiceStarted(l.alive.value)) > 0)
  {
    if es != [] {
      var before := es[..|es| - 1];
      StateCounts(before);
      var l := After(before).value;
      if l.alive.Some? {
        CountNext(es, ServiceStarted(l.alive.value));
      }
      if es[|es| - 1].ServiceStarted? {
        CountNext(es, es[|es| - 1]);
      }
      hide Count;
    }
  }

  /** At every moment the collector says it is running, a started service is alive. */
  lemma RunningMeansStarted(es: seq<Event>, n: nat) returns (svc: ServiceID)
    requires After(es).Some? && n <= |es| && StateAfter(es[..n]) == StateRunning
    ensures AliveIn(es[..n], svc) && Count(es[..n], ServiceStarted(svc)) > 0
  {
    AfterPrefix(es, n);
    StateCounts(es[..n]);
    svc := After(es[..n]).value.alive.value;
    ServiceCounts(es[..n], svc);
  }

  /** The config provider goes down at most once, and nothing is resolved after that. */
  lemma {:induction false} ConfigProviderOnce(es: seq<Event>)
    requires After(es).Some?
    ensures Count(es, ConfigProviderDown) == if After(es).value.down then 1 else 0
    ensures forall i, j :: 0 <= i < j < |es| && es[i] == ConfigProviderDown ==> es[j] != ConfigResolved
    ensures (exists i :: 0 <= i < |es| && es[i] == ConfigProviderDown) ==> After(es).value.down
  {
    if es != [] {
      ConfigProviderOnce(es[..|es| - 1]);
      assert forall i :: 0 <= i < |es| - 1 ==> es[..|es| - 1][i] == es[i];
    }
  }

  // -------------------------------------------------------------- telemetry providers

  ghost predicate Distinct(s: seq<Held>) {
    forall i, j :: 0 <= i < j < |s| ==> s[i] != s[j]
  }

  /** A provider is created at most once; it was stopped as often, unless it still runs. */
  lemma {:induction false} ProviderCounts(es: seq<Event>, h: Held)
    requires After(es).Some?
    ensures var l := After(es).value;
            && Distinct(l.stack)
            && (h in l.stack ==> h in l.born)
            && Count(es, ProviderCreated(h.0, h.1)) == (if h in l.born then 1 else 0)
            && Count(es, ProviderCreated(h.0, h.1))
            == Count(es, ProviderStopped(h.0, h.1)) + if h in l.stack then 1 else 0
  {
    if es != [] {
      var before := es[..|es| - 1];
      ProviderCounts(before, h);
      var l, e := After(before).value, es[|es| - 1];
      if e.ProviderCreated? {
        ProviderCounts(before, (e.svc, e.provider));
      }
      if e.ProviderStopped? {
        var s := l.stack[..|l.stack| - 1];
        assert l.stack == s + [l.stack[|l.stack| - 1]];
      }
    }
  }

  /** Created and not yet stopped, by the events alone. */
  predicate RunningIn(es: seq<Event>, h: Held) {
    Count(es, ProviderCreated(h.0, h.1)) > Count(es, ProviderStopped(h.0, h.1))
  }

  /** A service is created, and stopped, while its own logger and providers run. */
  lemma ProvidersRun(es: seq<Event>, n: nat, p: Provider)
    requires After(es).Some? && n < |es| && (es[n].ServiceCreated? || es[n].ServiceStopped?)
    ensures RunningIn(es[..n], (es[n].svc, p))
  {
    hide Count, After, Distinct;
    AfterStep(es, n);
    ProviderCounts(es[..n], (es[n].svc, p));
    var k := match p case Logger => 0 case MeterProvider => 1 case TracerProvider => 2;
    assert Providers(es[n].svc)[k] == (es[n].svc, p);
  }

  ghost predicate StoppedIn(es: seq<Event>, lo: nat, hi: nat, h: Held) {
    exists m :: lo <= m < hi <= |es| && es[m] == ProviderStopped(h.0, h.1)
  }

  /** The running providers of an accepted run after its first `n` events. */
  ghost function Stack(es: seq<Event>, n: nat): seq<Held>
    requires After(es).Some? && n <= |es|
  {
    AfterPrefix(es, n);
    After(es[..n]).value.stack
  }

  /** An event pushes a provider, pops it, or leaves the running providers alone. */
  ghost predicate StackMove(before: seq<Held>, after: seq<Held>, e: Event) {
    match e
    case ProviderCreated(svc, p) => after == before + [(svc, p)]
    case ProviderStopped(svc, p) => before == after + [(svc, p)]
    case _ => after == before
  }

  lemma NextStack(l: Ledger, e: Event)
    requires Next(l, e).Some?
    ensures StackMove(l.stack, Next(l, e).value.stack, e)
  {
  }

  lemma StackStep(es: seq<Event>, n: nat)
    requires After(es).Some? && n < |es|
    ensures StackMove(Stack(es, n), Stack(es, n + 1), es[n])
  {
    hide After, Next, StackMove;
    AfterStep(es, n);
    NextStack(After(es[..n]).value, es[n]);
  }

  /** Until a provider is stopped, it and all older running providers stay where they are. */
  lemma {:induction false} StaysOrStopped(es: seq<Event>, lo: nat, hi: nat, q: nat)
    requires After(es).Some? && lo <= hi <= |es| && q < |Stack(es, lo)|
    ensures StoppedIn(es, lo, hi, Stack(es, lo)[q]) || Stack(es, lo)[..q + 1] <= Stack(es, hi)
    decreases hi
  {
    hide After, Stack;
    if lo < hi {
      StaysOrStopped(es, lo, hi - 1, q);
      StackStep(es, hi - 1);
      var h := Stack(es, lo)[q];
      if !StoppedIn(es, lo, hi - 1, h) {
        var s := Stack(es, hi - 1);
        assert s[q] == Stack(es, lo)[..q + 1][q] == h;
        if es[hi - 1] == ProviderStopped(h.0, h.1) {
          assert StoppedIn(es, lo, hi, h);
        } else if es[hi - 1].ProviderStopped? {
          assert q < |s| - 1;
        }
      }
    }
  }

  /** A provider is stopped at one moment only. */
  lemma OneStop(es: seq<Event>, m: nat, k: nat, h: Held)
    requires After(es).Some? && m <= k < |es|
    requires es[m] == ProviderStopped(h.0, h.1) && es[k] == ProviderStopped(h.0, h.1)
    ensures m == k
  {
    hide After, Count, Distinct;
    AfterPrefix(es, k + 1);
    ProviderCounts(es[..k + 1], h);
    if m < k {
      CountTwo(es[..k + 1], m, ProviderStopped(h.0, h.1));
    }
  }

  lemma StackDistinct(es: seq<Event>, n: nat, h: Held)
    requires After(es).Some? && n <= |es|
    ensures Distinct(Stack(es, n))
  {
    AfterPrefix(es, n);
    ProviderCounts(es[..n], h);
  }

  /**
   Providers are stopped in the reverse order of their creation: of two that run at the
   same time, the younger is stopped before the older.
   */
  lemma ReverseOrder(es: seq<Event>, i: nat, j: nat, k: nat, a: Held, b: Held)
    requires After(es).Some? && i < j < k < |es|
    requires es[i] == ProviderCreated(a.0, a.1) && es[j] == ProviderCreated(b.0, b.1)
             && es[k] == ProviderStopped(a.0, a.1)
    ensures StoppedIn(es, j + 1, k, b)
  {
    hide After, Stack, Distinct;
    StackStep(es, i);
    StackStep(es, j);
    StackStep(es, k);
    var q, r := |Stack(es, i)|, |Stack(es, j)|;
    StaysOrStopped(es, i + 1, j, q);
    if StoppedIn(es, i + 1, j, a) {
      var m :| i + 1 <= m < j && es[m] == ProviderStopped(a.0, a.1);
      OneStop(es, m, k, a);
    } else {
      StaysOrStopped(es, j + 1, k, r);
      if !StoppedIn(es, j + 1, k, b) {
        var t := Stack(es, k);
        assert Stack(es, i + 1)[..q + 1][q] == a;
        assert Stack(es, j + 1)[..r + 1][q] == a;
        assert t[q] == a && r < |t|;
        StackDistinct(es, k, a);
        DistinctTop(t, q);
      }
    }
  }

  lemma DistinctTop(t: seq<Held>, q: nat)
    requires Distinct(t) && q < |t| && t[q] == t[|t| - 1]
    ensures q == |t| - 1
  {
  }

  lemma {:induction false} CountTwo(es: seq<Event>, m: nat, e: Event)
    requires m < |es| - 1 && es[m] == e && es[|es| - 1] == e
    ensures Count(es, e) >= 2
  {
    CountOne(es[..|es| - 1], m, e);
  }

  lemma {:induction false} CountOne(es: seq<Event>, m: nat, e: Event)
    requires m < |es| && es[m] == e
    ensures Count(es, e) >= 1
  {
    if m < |es| - 1 {
      CountOne(es[..|es| - 1], m, e);
    }
  }

  /**
   A run that ends with no service alive and no provider running: every service ever
   created was stopped exactly once, and so was every provider.
   */
  lemma AllStoppedOnce(es: seq<Event>, svc: ServiceID, h: Held)
    requires After(es).Some? && After(es).value.alive.None? && After(es).value.stack == []
    ensures Count(es, ServiceStopped(svc)) == Count(es, ServiceCreated(svc)) <= 1
    ensures Count(es, ProviderStopped(h.0, h.1)) == Count(es, ProviderCreated(h.0, h.1)) <= 1
  {
    ServiceCounts(es, svc);
    ProviderCounts(es, h);
  }
}
