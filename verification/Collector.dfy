/**
 The collector's control loop with its services and their telemetry providers
 (otelcol/collector.go, service/service.go). What factories, providers, components and
 the operating system do is given from outside; everything the code does about it goes
 into a trace that must satisfy the lifecycle automaton.
 */
module Collector {
  import opened Common
  import opened Lifecycle
  import opened ConfigDiff

  /** The events so far; every event that is added must be allowed. */
  class Trace {
    var events: seq<Event>

    ghost predicate Valid()
      reads this
    {
      After(events).Some?
    }

    ghost function Ledger(): Ledger
      requires Valid()
      reads this
    {
      After(events).value
    }

    constructor ()
      ensures Valid() && Ledger() == INITIAL && events == []
    {
      events := [];
    }

    method Emit(e: Event)
      requires Valid() && Next(Ledger(), e).Some?
      modifies this
      ensures Valid() && Ledger() == Next(old(Ledger()), e).value
      ensures events == old(events) + [e]
    {
      AfterNext(events, e);
      events := events + [e];
    }
  }

  // ------------------------------------------------------------------------- service

  /** Where service.New stops; each step from the logger on is reached only if the earlier ones worked. */
  datatype NewOutcome =
    | NoTelemetryFactory | ResourceFails | LoggerFails | MeterProviderFails | TracerProviderFails
    | GraphFails | ExtensionsFails | ProcessMetricsFails | Built

  /** The providers that service.New gets to create. */
  function CreatedBy(svc: ServiceID, outcome: NewOutcome): set<Held> {
    match outcome
    case NoTelemetryFactory => {}
    case ResourceFails => {}
    case LoggerFails => {}
    case MeterProviderFails => {(svc, Logger)}
    case TracerProviderFails => {(svc, Logger), (svc, MeterProvider)}
    case _ => {(svc, Logger), (svc, MeterProvider), (svc, TracerProvider)}
  }

  /** The events of clean-ups that were deferred in this order. */
  function Withdrawals(svc: ServiceID, deferred: seq<Provider>): seq<Event> {
    if deferred == [] then []
    else [ProviderStopped(svc, deferred[|deferred| - 1])] + Withdrawals(svc, deferred[..|deferred| - 1])
  }

  /** The events of service.New. */
  function NewEvents(svc: ServiceID, outcome: NewOutcome): seq<Event> {
    match outcome
    case NoTelemetryFactory => []
    case ResourceFails => []
    case LoggerFails => []
    case MeterProviderFails => [ProviderCreated(svc, Logger), ProviderStopped(svc, Logger)]
    case TracerProviderFails =>
      [ProviderCreated(svc, Logger), ProviderCreated(svc, MeterProvider),
       ProviderStopped(svc, MeterProvider), ProviderStopped(svc, Logger)]
    case Built =>
      [ProviderCreated(svc, Logger), ProviderCreated(svc, MeterProvider), ProviderCreated(svc, TracerProvider),
       ServiceCreated(svc)]
    case _ =>
      [ProviderCreated(svc, Logger), ProviderCreated(svc, MeterProvider), ProviderCreated(svc, TracerProvider),
       ProviderStopped(svc, TracerProvider), ProviderStopped(svc, MeterProvider), ProviderStopped(svc, Logger)]
  }

  /** The events of Service.Shutdown. */
  function RetireEvents(svc: ServiceID): seq<Event> {
    [ServiceStopped(svc),
     ProviderStopped(svc, TracerProvider), ProviderStopped(svc, MeterProvider), ProviderStopped(svc, Logger)]
  }

  /** Nothing is alive and nothing runs, and the next service is a new one. */
  ghost predicate Idle(l: Ledger, svc: ServiceID) {
    && l.alive.None? && l.stack == []
    && (forall s :: s in l.ever ==> s < svc) && (forall h :: h in l.born ==> h.0 < svc)
  }

  /** `svc` is the one service alive, with its three providers running. */
  ghost predicate Alive(l: Ledger, svc: ServiceID) {
    && l.alive == Some(svc) && l.stack == Providers(svc)
    && (forall s :: s in l.ever ==> s <= svc) && (forall h :: h in l.born ==> h.0 <= svc)
  }

  /** The deferred clean-ups of service.New, run in reverse order after an error. */
  method Unwind(t: Trace, svc: ServiceID, deferred: seq<Provider>)
    requires t.Valid() && t.Ledger().stack == seq(|deferred|, i requires 0 <= i < |deferred| => (svc, deferred[i]))
    modifies t
    ensures t.Valid() && t.Ledger() == old(t.Ledger()).(stack := [])
    ensures t.events == old(t.events) + Withdrawals(svc, deferred)
  {
    hide After;
    assert deferred[..|deferred|] == deferred;
    for i := |deferred| downto 0
      invariant t.Valid() && t.Ledger() == old(t.Ledger()).(stack := old(t.Ledger()).stack[..i])
      invariant t.events + Withdrawals(svc, deferred[..i]) == old(t.events) + Withdrawals(svc, deferred)
    {
      assert deferred[..i + 1][..i] == deferred[..i];
      Reassociated(t.events, [ProviderStopped(svc, deferred[i])], Withdrawals(svc, deferred[..i]));
      t.Emit(ProviderStopped(svc, deferred[i]));
    }
  }

  method CreateProvider(t: Trace, svc: ServiceID, p: Provider)
    requires t.Valid() && (svc, p) !in t.Ledger().born
    modifies t
    ensures t.Valid()
    ensures t.Ledger() == old(t.Ledger()).(born := old(t.Ledger()).born + {(svc, p)},
                                           stack := old(t.Ledger()).stack + [(svc, p)])
    ensures t.events == old(t.events) + [ProviderCreated(svc, p)]
  {
    hide After;
    t.Emit(ProviderCreated(svc, p));
  }

  method RegisterService(t: Trace, svc: ServiceID)
    requires t.Valid() && t.Ledger().alive.None? && svc !in t.Ledger().ever && t.Ledger().stack == Providers(svc)
    modifies t
    ensures t.Valid()
    ensures t.Ledger() == old(t.Ledger()).(ever := old(t.Ledger()).ever + {svc}, alive := Some(svc), started := false)
    ensures t.events == old(t.events) + [ServiceCreated(svc)]
  {
    hide After;
    t.Emit(ServiceCreated(svc));
  }

  /**
   service.New: if it fails at any point, the providers it created are stopped again, in
   reverse order; otherwise they keep running with the service.
   */
  method NewService(t: Trace, svc: ServiceID, outcome: NewOutcome) returns (ok: bool)
    requires t.Valid() && Idle(t.Ledger(), svc)
    modifies t
    ensures t.Valid() && (ok <==> outcome.Built?)
    ensures ok ==> Alive(t.Ledger(), svc) && !t.Ledger().started
    ensures !ok ==> Idle(t.Ledger(), svc + 1)
    ensures t.Ledger().born == old(t.Ledger().born) + CreatedBy(svc, outcome)
    ensures t.events == old(t.events) + NewEvents(svc, outcome)
    ensures t.Ledger().state == old(t.Ledger().state) && t.Ledger().down == old(t.Ledger().down)
  {
    hide After, Next, Withdrawals, NewEvents, CreatedBy, Idle, Alive;
    ghost var l := t.Ledger();
    NewInSteps(t.events, svc, outcome);
    BornSets(l.born, svc, outcome);
    Unborn(l, svc);
    Created(l, svc, outcome);
    Registered(l, svc);
    var deferred: seq<Provider> := [];
    if outcome.NoTelemetryFactory? || outcome.ResourceFails? || outcome.LoggerFails? {
      return false;
    }
    CreateProvider(t, svc, Logger);
    deferred := deferred + [Logger];
    assert deferred == [Logger];
    if outcome.MeterProviderFails? {
      Unwind(t, svc, deferred);
      return false;
    }
    CreateProvider(t, svc, MeterProvider);
    deferred := deferred + [MeterProvider];
    assert deferred == [Logger, MeterProvider];
    if outcome.TracerProviderFails? {
      Unwind(t, svc, deferred);
      return false;
    }
    CreateProvider(t, svc, TracerProvider);
    deferred := deferred + [TracerProvider];
    assert deferred == [Logger, MeterProvider, TracerProvider];
    if outcome.GraphFails? || outcome.ExtensionsFails? || outcome.ProcessMetricsFails? {
      Unwind(t, svc, deferred);
      return false;
    }
    assert t.Ledger().stack == Providers(svc);
    RegisterService(t, svc);
    return true;
  }

  lemma BornSets(born: set<Held>, svc: ServiceID, o: NewOutcome)
    ensures var one := born + {(svc, Logger)};
            var two := one + {(svc, MeterProvider)};
            var three := two + {(svc, TracerProvider)};
            born + CreatedBy(svc, o) == (
              if o.NoTelemetryFactory? || o.ResourceFails? || o.LoggerFails? then born
              else if o.MeterProviderFails? then one
              else if o.TracerProviderFails? then two
              else three)
  {
  }

  lemma Unborn(l: Ledger, svc: ServiceID)
    requires Idle(l, svc)
    ensures l.alive.None? && l.stack == [] && svc !in l.ever && forall p :: (svc, p) !in l.born
  {
  }

  lemma Created(l: Ledger, svc: ServiceID, outcome: NewOutcome)
    requires Idle(l, svc)
    ensures Idle(l.(born := l.born + CreatedBy(svc, outcome)), svc + 1)
  {
  }

  lemma Registered(l: Ledger, svc: ServiceID)
    requires Idle(l, svc)
    ensures Alive(l.(ever := l.ever + {svc}, born := l.born + CreatedBy(svc, Built),
                     alive := Some(svc), started := false,
                     stack := Providers(svc)), svc)
  {
  }

  /** The events of service.New, step by step. */
  lemma NewInSteps(before: seq<Event>, svc: ServiceID, o: NewOutcome)
    ensures var one := before + [ProviderCreated(svc, Logger)];
            var two := one + [ProviderCreated(svc, MeterProvider)];
            var three := two + [ProviderCreated(svc, TracerProvider)];
            before + NewEvents(svc, o) == (
              if o.NoTelemetryFactory? || o.ResourceFails? || o.LoggerFails? then before
              else if o.MeterProviderFails? then one + Withdrawals(svc, [Logger])
              else if o.TracerProviderFails? then two + Withdrawals(svc, [Logger, MeterProvider])
              else if o.Built? then three + [ServiceCreated(svc)]
              else three + Withdrawals(svc, [Logger, MeterProvider, TracerProvider]))
  {
    AllWithdrawn(svc);
    hide Withdrawals;
  }

  lemma AllWithdrawn(svc: ServiceID)
    ensures Withdrawals(svc, [Logger]) == [ProviderStopped(svc, Logger)]
    ensures Withdrawals(svc, [Logger, MeterProvider])
         == [ProviderStopped(svc, MeterProvider), ProviderStopped(svc, Logger)]
    ensures Withdrawals(svc, [Logger, MeterProvider, TracerProvider])
         == [ProviderStopped(svc, TracerProvider), ProviderStopped(svc, MeterProvider), ProviderStopped(svc, Logger)]
  {
    assert [Logger, MeterProvider][..1] == [Logger];
    assert [Logger, MeterProvider, TracerProvider][..2] == [Logger, MeterProvider];
  }

  method StartService(t: Trace, svc: ServiceID, fails: bool) returns (ok: bool)
    requires t.Valid() && Alive(t.Ledger(), svc) && !t.Ledger().started
    modifies t
    ensures t.Valid() && ok == !fails
    ensures t.Ledger() == old(t.Ledger()).(started := ok)
    ensures t.events == old(t.events) + [if ok then ServiceStarted(svc) else ServiceStartFailed(svc)]
  {
    hide After;
    if fails {
      t.Emit(ServiceStartFailed(svc));
    } else {
      t.Emit(ServiceStarted(svc));
    }
    ok := !fails;
  }

  datatype ShutdownStep = NotifyNotReady | Pipelines | Extensions | StopTracer | StopMeter | StopLogger

  /** Service.Shutdown: errors are collected and every later step still happens. */
  method ShutdownService(t: Trace, svc: ServiceID, failing: set<ShutdownStep>) returns (failed: bool)
    requires t.Valid() && Alive(t.Ledger(), svc) && t.Ledger().state != StateRunning
    modifies t
    ensures t.Valid() && Idle(t.Ledger(), svc + 1) && t.events == old(t.events) + RetireEvents(svc)
    ensures t.Ledger().state == old(t.Ledger().state) && t.Ledger().down == old(t.Ledger().down)
    ensures failed <==> failing != {}
  {
    hide After;
    t.Emit(ServiceStopped(svc));
    failed := NotifyNotReady in failing;
    failed := failed || Pipelines in failing;
    failed := failed || Extensions in failing;
    t.Emit(ProviderStopped(svc, TracerProvider));
    failed := failed || StopTracer in failing;
    t.Emit(ProviderStopped(svc, MeterProvider));
    failed := failed || StopMeter in failing;
    t.Emit(ProviderStopped(svc, Logger));
    failed := failed || StopLogger in failing;
    if failing != {} {
      ghost var s :| s in failing;
      match s {
        case NotifyNotReady =>
        case Pipelines =>
        case Extensions =>
        case StopTracer =>
        case StopMeter =>
        case StopLogger =>
      }
    }
  }

  // ----------------------------------------------------------------------- collector

  /** What the world does to one setup: the configuration read, and which steps fail. */
  datatype Setup = Setup(factoriesFail: bool, config: Option<Config>, invalid: bool, fingerprintFails: bool,
                         marshalFails: bool, create: NewOutcome, startFails: bool, failing: set<ShutdownStep>)

  /** One reload: the partial attempt, the retiring of the old service, and the new setup. */
  datatype Reload = Reload(factoriesFail: bool, config: Option<Config>, invalid: bool, fingerprintFails: bool,
                           updateFails: bool, retireFailing: set<ShutdownStep>, setup: Setup)

  /** What the select of the control loop can receive. */
  datatype Input =
    | ConfigChanged(reload: Reload)
    | WatchFailed
    | AsyncError
    | Hangup(reload: Reload)
    | OtherSignal
    | ShutdownRequested
    | ContextDone

  datatype Exit = StillRunning | ShutDownBefore | SetupFailed | ReloadFailed | ShutDown

  function LaunchEvents(svc: ServiceID, o: Setup): seq<Event> {
    NewEvents(svc, o.create)
    + if !o.create.Built? then [] else if o.startFails then [ServiceStartFailed(svc)] + RetireEvents(svc)
      else [ServiceStarted(svc)]
  }

  /** The service of a setup: created and started, and shut down again if it does not start. */
  method LaunchService(t: Trace, svc: ServiceID, o: Setup) returns (created: bool, ok: bool)
    requires t.Valid() && Idle(t.Ledger(), svc) && t.Ledger().state != StateRunning
    modifies t
    ensures t.Valid() && (created <==> o.create.Built?) && (ok <==> created && !o.startFails)
    ensures ok ==> Alive(t.Ledger(), svc) && t.Ledger().started
    ensures !ok ==> Idle(t.Ledger(), svc + 1)
    ensures t.events == old(t.events) + LaunchEvents(svc, o)
    ensures t.Ledger().state == old(t.Ledger().state) && t.Ledger().down == old(t.Ledger().down)
  {
    hide After, Next;
    created := NewService(t, svc, o.create);
    if !created {
      return created, false;
    }
    ok := StartService(t, svc, o.startFails);
    if !ok {
      var _ := ShutdownService(t, svc, o.failing);
    }
  }

  predicate StopsBeforeLaunch(partialReload: bool, o: Setup) {
    o.config.None? || o.invalid || (partialReload && o.fingerprintFails) || o.marshalFails
  }

  /** The events of a setup, whose service has number `svc` if it comes to that. */
  function SetupEvents(partialReload: bool, svc: ServiceID, o: Setup): seq<Event> {
    [SetState(StateStarting)]
    + if o.factoriesFail then []
      else if StopsBeforeLaunch(partialReload, o) then [ConfigResolved]
      else [ConfigResolved] + LaunchEvents(svc, o)
           + if o.create.Built? && !o.startFails then [SetState(StateRunning)] else []
  }

  predicate SetupFails(partialReload: bool, o: Setup) {
    o.factoriesFail || StopsBeforeLaunch(partialReload, o) || !o.create.Built? || o.startFails
  }

  /** A partial reload is attempted only for a configuration equal to that of the last full start but for receivers. */
  predicate Attempted(base: Config, o: Reload) {
    !o.factoriesFail && o.config.Some? && !o.invalid && !o.fingerprintFails && Struck(o.config.value) == Struck(base)
  }

  /** The service that runs, the configuration of the last full start, and the one applied last. */
  datatype Current = Current(svc: ServiceID, base: Config, applied: Config)

  ghost function AttemptEvents(cur: Current, o: Reload): seq<Event> {
    if o.factoriesFail then []
    else if Attempted(cur.base, o) then [ConfigResolved, ServiceUpdated(cur.svc, Changed(cur.applied, o.config.value))]
    else [ConfigResolved]
  }

  predicate Partial(partialReload: bool, base: Config, o: Reload) {
    partialReload && Attempted(base, o) && !o.updateFails
  }

  /** The receivers that both configurations have with different settings. */
  ghost function Changed(a: Config, b: Config): set<ID> {
    set id | id in a.receivers && id in b.receivers && a.receivers[id] != b.receivers[id]
  }

  lemma ChangedIsDiffering(h: Hasher, a: Config, b: Config)
    requires CollisionFree(h)
    ensures DifferingIDs(FingerprintOf(h, a).receiverHashes, FingerprintOf(h, b).receiverHashes) == Changed(a, b)
  {
    hide CollisionFree, FingerprintOf;
    var before, after := FingerprintOf(h, a).receiverHashes, FingerprintOf(h, b).receiverHashes;
    forall id ensures id in DifferingIDs(before, after) <==> id in Changed(a, b) {
      ChangedReceiversExact(h, a, b, id);
    }
  }

  predicate ReloadFails(partialReload: bool, base: Config, o: Reload) {
    !Partial(partialReload, base, o) && (o.retireFailing != {} || SetupFails(partialReload, o.setup))
  }

  /** The events of a reload: the attempt, and unless that succeeds the end of the service and a new setup. */
  ghost function ReloadEvents(partialReload: bool, cur: Current, o: Reload): seq<Event> {
    (if partialReload then AttemptEvents(cur, o) else [])
    + if Partial(partialReload, cur.base, o) then []
      else [SetState(StateClosing)] + RetireEvents(cur.svc)
           + if o.retireFailing != {} then [] else SetupEvents(partialReload, cur.svc + 1, o.setup)
  }

  function CurrentAfter(partialReload: bool, cur: Current, o: Reload): Current
    requires !ReloadFails(partialReload, cur.base, o)
  {
    if Partial(partialReload, cur.base, o) then cur.(applied := o.config.value)
    else Current(cur.svc + 1, o.setup.config.value, o.setup.config.value)
  }

  /** How the control loop ends. */
  function LoopExit(partialReload: bool, cur: Current, inputs: seq<Input>): Exit
    decreases |inputs|
  {
    if inputs == [] then StillRunning
    else match inputs[0]
      case ConfigChanged(o) =>
        if ReloadFails(partialReload, cur.base, o) then ReloadFailed
        else LoopExit(partialReload, CurrentAfter(partialReload, cur, o), inputs[1..])
      case Hangup(o) =>
        if ReloadFails(partialReload, cur.base, o) then ReloadFailed
        else LoopExit(partialReload, CurrentAfter(partialReload, cur, o), inputs[1..])
      case _ => ShutDown
  }

  /** The events of the orderly end of a run. */
  function ShutdownEvents(svc: ServiceID): seq<Event> {
    [SetState(StateClosing), ConfigProviderDown] + RetireEvents(svc) + [SetState(StateClosed)]
  }

  ghost function LoopEvents(partialReload: bool, cur: Current, inputs: seq<Input>): seq<Event>
    decreases |inputs|
  {
    if inputs == [] then []
    else if !inputs[0].ConfigChanged? && !inputs[0].Hangup? then ShutdownEvents(cur.svc)
    else
      var o := inputs[0].reload;
      ReloadEvents(partialReload, cur, o)
      + if ReloadFails(partialReload, cur.base, o) then []
        else LoopEvents(partialReload, CurrentAfter(partialReload, cur, o), inputs[1..])
  }

  /** The events of a whole run, from its inputs alone. */
  ghost function RunEvents(partialReload: bool, svc: ServiceID, shutdownCalled: bool, setup: Setup, inputs: seq<Input>)
    : seq<Event>
  {
    if shutdownCalled then [SetState(StateClosed), ConfigProviderDown]
    else SetupEvents(partialReload, svc, setup)
         + if SetupFails(partialReload, setup) then [SetState(StateClosed)]
           else LoopEvents(partialReload, Fresh(svc, setup), inputs)
  }

  /** After a full start. */
  function Fresh(svc: ServiceID, setup: Setup): Current
    requires setup.config.Some?
  {
    Current(svc, setup.config.value, setup.config.value)
  }

  function RunExit(partialReload: bool, svc: ServiceID, shutdownCalled: bool, setup: Setup, inputs: seq<Input>): Exit {
    if shutdownCalled then ShutDownBefore
    else if SetupFails(partialReload, setup) then SetupFailed
    else LoopExit(partialReload, Fresh(svc, setup), inputs)
  }

  // ----------------------------------------------- what the events mean, step by step

  /** Nothing stops a setup before its service is created. */
  predicate Ready(partialReload: bool, o: Setup) {
    !o.factoriesFail && o.config.Some? && !o.invalid && !(partialReload && o.fingerprintFails) && !o.marshalFails
  }

  /** The events of a setup that works. */
  function Launched(svc: ServiceID): seq<Event> {
    [SetState(StateStarting), ConfigResolved,
     ProviderCreated(svc, Logger), ProviderCreated(svc, MeterProvider), ProviderCreated(svc, TracerProvider),
     ServiceCreated(svc), ServiceStarted(svc), SetState(StateRunning)]
  }

  /** A setup that fails before its service is created: no provider and no service comes to be. */
  ghost predicate NotLaunched(es: seq<Event>, o: Setup) {
    es == [SetState(StateStarting)] + if o.factoriesFail then [] else [ConfigResolved]
  }

  /** How many of the logger, the meter provider and the tracer provider a service gets. */
  function ReachedBy(outcome: NewOutcome): nat {
    if outcome in {NoTelemetryFactory, ResourceFails, LoggerFails} then 0
    else if outcome == MeterProviderFails then 1
    else if outcome == TracerProviderFails then 2
    else 3
  }

  function Creations(svc: ServiceID, ps: seq<Provider>): seq<Event> {
    seq(|ps|, i requires 0 <= i < |ps| => ProviderCreated(svc, ps[i]))
  }

  /** Stopped in the reverse order. */
  function Stops(svc: ServiceID, ps: seq<Provider>): seq<Event> {
    seq(|ps|, i requires 0 <= i < |ps| => ProviderStopped(svc, ps[|ps| - 1 - i]))
  }

  /**
   A setup whose service cannot be created or does not start: exactly the providers that
   were reached are created and stopped again, and so is the service if it came to that.
   */
  ghost predicate Abandoned(es: seq<Event>, svc: ServiceID, o: Setup) {
    var ps := [Logger, MeterProvider, TracerProvider][..ReachedBy(o.create)];
    es == [SetState(StateStarting), ConfigResolved] + Creations(svc, ps)
        + (if o.create.Built? then [ServiceCreated(svc), ServiceStartFailed(svc), ServiceStopped(svc)] else [])
        + Stops(svc, ps)
  }

  /** A partial reload is tried and works. */
  predicate Updates(partialReload: bool, cur: Current, o: Reload) {
    && partialReload && !o.factoriesFail && o.config.Some? && !o.invalid && !o.fingerprintFails
    && Struck(o.config.value) == Struck(cur.base) && !o.updateFails
  }

  /** A service told of the receivers that changed. */
  ghost function Told(cur: Current, cfg: Config): seq<Event> {
    [ConfigResolved, ServiceUpdated(cur.svc, set id | id in cur.applied.receivers && id in cfg.receivers
                                                      && cur.applied.receivers[id] != cfg.receivers[id])]
  }

  /** The end of a service, with its providers in the reverse order of their creation. */
  function Retired(svc: ServiceID): seq<Event> {
    [ServiceStopped(svc),
     ProviderStopped(svc, TracerProvider), ProviderStopped(svc, MeterProvider), ProviderStopped(svc, Logger)]
  }

  /** A service that is retired, after what an attempt at a partial reload left behind. */
  ghost function GivenUp(partialReload: bool, cur: Current, o: Reload): seq<Event> {
    (if !partialReload || o.factoriesFail then []
     else if o.config.Some? && Updates(partialReload, cur, o.(updateFails := false)) then Told(cur, o.config.value)
     else [ConfigResolved])
    + [SetState(StateClosing)] + Retired(cur.svc)
  }

  /** The events of the control loop from here on, and how it ends, input by input. */
  ghost predicate Follows(es: seq<Event>, partialReload: bool, cur: Current, inputs: seq<Input>, exit: Exit)
    decreases |inputs|
  {
    if inputs == [] then es == [] && exit == StillRunning
    else if !inputs[0].ConfigChanged? && !inputs[0].Hangup? then
      && exit == ShutDown
      && es == [SetState(StateClosing), ConfigProviderDown] + Retired(cur.svc) + [SetState(StateClosed)]
    else
      var o := inputs[0].reload;
      if Updates(partialReload, cur, o) then
        && |es| >= 2 && es[..2] == Told(cur, o.config.value)
        && Follows(es[2..], partialReload, cur.(applied := o.config.value), inputs[1..], exit)
      else
        && GivenUp(partialReload, cur, o) <= es
        && var rest := es[|GivenUp(partialReload, cur, o)|..];
           if o.retireFailing != {} then rest == [] && exit == ReloadFailed
           else if !Ready(partialReload, o.setup) then NotLaunched(rest, o.setup) && exit == ReloadFailed
           else if !o.setup.create.Built? || o.setup.startFails then
             Abandoned(rest, cur.svc + 1, o.setup) && exit == ReloadFailed
           else
             && |rest| >= 8 && rest[..8] == Launched(cur.svc + 1)
             && Follows(rest[8..], partialReload, Fresh(cur.svc + 1, o.setup), inputs[1..], exit)
  }

  /** The events of a run whose shutdown was not called before, and how it ends. */
  ghost predicate Accounted(es: seq<Event>, partialReload: bool, svc: ServiceID, setup: Setup,
                            inputs: seq<Input>, exit: Exit) {
    if !Ready(partialReload, setup) || !setup.create.Built? || setup.startFails then
      && exit == SetupFailed && es != [] && es[|es| - 1] == SetState(StateClosed)
      && var before := es[..|es| - 1];
         if Ready(partialReload, setup) then Abandoned(before, svc, setup) else NotLaunched(before, setup)
    else
      && |es| >= 8 && es[..8] == Launched(svc)
      && Follows(es[8..], partialReload, Fresh(svc, setup), inputs, exit)
  }

  lemma RunAccounted(partialReload: bool, svc: ServiceID, setup: Setup, inputs: seq<Input>)
    ensures Accounted(RunEvents(partialReload, svc, false, setup, inputs), partialReload, svc, setup, inputs,
                      RunExit(partialReload, svc, false, setup, inputs))
  {
    var es, first := RunEvents(partialReload, svc, false, setup, inputs), SetupEvents(partialReload, svc, setup);
    SetupMeans(partialReload, svc, setup);
    hide SetupEvents, Abandoned, LoopEvents, LoopExit, Follows;
    if SetupFails(partialReload, setup) {
      assert es[..|es| - 1] == first;
    } else {
      LoopFollows(partialReload, Fresh(svc, setup), inputs);
      assert es[..8] == first && es[8..] == LoopEvents(partialReload, Fresh(svc, setup), inputs);
    }
  }

  lemma NothingCreated(partialReload: bool, setup: Setup, inputs: seq<Input>)
    ensures !Ready(partialReload, setup) ==>
              && RunExit(partialReload, 0, false, setup, inputs) == SetupFailed
              && forall e :: e in RunEvents(partialReload, 0, false, setup, inputs) ==>
                   !e.ServiceCreated? && !e.ProviderCreated?
    ensures RunExit(partialReload, 0, true, setup, inputs) == ShutDownBefore
    ensures RunEvents(partialReload, 0, true, setup, inputs) == [SetState(StateClosed), ConfigProviderDown]
  {
    RunAccounted(partialReload, 0, setup, inputs);
    var es := RunEvents(partialReload, 0, false, setup, inputs);
    hide RunEvents, RunExit;
    if !Ready(partialReload, setup) {
      assert es == es[..|es| - 1] + [SetState(StateClosed)];
    }
  }

  lemma SetupMeans(partialReload: bool, svc: ServiceID, o: Setup)
    ensures SetupFails(partialReload, o) <==> !Ready(partialReload, o) || !o.create.Built? || o.startFails
    ensures var es := SetupEvents(partialReload, svc, o);
            if !Ready(partialReload, o) then NotLaunched(es, o)
            else if !o.create.Built? || o.startFails then Abandoned(es, svc, o)
            else es == Launched(svc)
  {
    if !Ready(partialReload, o) {
    } else if !o.create.Built? || o.startFails {
      LaunchAbandoned(svc, o);
      hide LaunchEvents, Abandoned;
      assert SetupEvents(partialReload, svc, o) == [SetState(StateStarting), ConfigResolved] + LaunchEvents(svc, o);
    } else {
      LaunchWorks(svc, o);
      hide LaunchEvents;
      assert SetupEvents(partialReload, svc, o)
          == [SetState(StateStarting)] + ([ConfigResolved] + LaunchEvents(svc, o) + [SetState(StateRunning)]);
    }
  }

  lemma LaunchWorks(svc: ServiceID, o: Setup)
    requires o.create.Built? && !o.startFails
    ensures [SetState(StateStarting)] + ([ConfigResolved] + LaunchEvents(svc, o) + [SetState(StateRunning)])
         == Launched(svc)
  {
  }

  lemma LaunchAbandoned(svc: ServiceID, o: Setup)
    requires !o.create.Built? || o.startFails
    ensures Abandoned([SetState(StateStarting), ConfigResolved] + LaunchEvents(svc, o), svc, o)
  {
    var ps := [Logger, MeterProvider, TracerProvider][..ReachedBy(o.create)];
    NewReaches(svc, o.create);
    if o.create.Built? {
      assert LaunchEvents(svc, o)
          == Creations(svc, ps) + [ServiceCreated(svc), ServiceStartFailed(svc), ServiceStopped(svc)]
                                     + Stops(svc, ps);
    } else {
      assert LaunchEvents(svc, o) == Creations(svc, ps) + Stops(svc, ps);
    }
    hide LaunchEvents, Creations, Stops;
  }

  lemma NewReaches(svc: ServiceID, outcome: NewOutcome)
    ensures var ps := [Logger, MeterProvider, TracerProvider][..ReachedBy(outcome)];
            && NewEvents(svc, outcome)
            == Creations(svc, ps) + (if outcome.Built? then [ServiceCreated(svc)] else Stops(svc, ps))
            && (outcome.Built? ==> RetireEvents(svc) == [ServiceStopped(svc)] + Stops(svc, ps))
  {
    var all := [Logger, MeterProvider, TracerProvider];
    assert all[..0] == [] && all[..1] == [Logger] && all[..2] == [Logger, MeterProvider] && all[..3] == all;
    hide RetireEvents;
    if outcome.Built? {
      RetiresAll(svc);
    }
  }

  lemma RetiresAll(svc: ServiceID)
    ensures RetireEvents(svc) == [ServiceStopped(svc)] + Stops(svc, [Logger, MeterProvider, TracerProvider])
  {
  }

  lemma {:induction false} LoopFollows(partialReload: bool, cur: Current, inputs: seq<Input>)
    ensures Follows(LoopEvents(partialReload, cur, inputs), partialReload, cur, inputs,
                    LoopExit(partialReload, cur, inputs))
    decreases |inputs|
  {
    if inputs != [] && (inputs[0].ConfigChanged? || inputs[0].Hangup?) {
      var o := inputs[0].reload;
      ReloadMeans(partialReload, cur, o);
      SetupMeans(partialReload, cur.svc + 1, o.setup);
      hide Follows, SetupEvents, Abandoned, ReloadEvents, Launched, NotLaunched, Told, GivenUp,
           Updates, Ready, SetupFails,
           Partial;
      if ReloadFails(partialReload, cur.base, o) {
        var rest := if o.retireFailing != {} then [] else SetupEvents(partialReload, cur.svc + 1, o.setup);
        FollowsFailure(rest, partialReload, cur, inputs);
      } else {
        var next := CurrentAfter(partialReload, cur, o);
        LoopFollows(partialReload, next, inputs[1..]);
        var tail, exit := LoopEvents(partialReload, next, inputs[1..]), LoopExit(partialReload, next, inputs[1..]);
        if Updates(partialReload, cur, o) {
          FollowsUpdate(tail, partialReload, cur, inputs, exit);
        } else {
          FollowsRestart(tail, partialReload, cur, inputs, exit);
        }
      }
    }
  }

  lemma FollowsUpdate(tail: seq<Event>, partialReload: bool, cur: Current, inputs: seq<Input>, exit: Exit)
    requires inputs != [] && (inputs[0].ConfigChanged? || inputs[0].Hangup?)
    requires Updates(partialReload, cur, inputs[0].reload)
    requires Follows(tail, partialReload, cur.(applied := inputs[0].reload.config.value), inputs[1..], exit)
    ensures Follows(Told(cur, inputs[0].reload.config.value) + tail, partialReload, cur, inputs, exit)
  {
    var told := Told(cur, inputs[0].reload.config.value);
    Sliced(told, tail);
    assert |told| == 2;
    hide Told;
  }

  lemma FollowsRestart(tail: seq<Event>, partialReload: bool, cur: Current, inputs: seq<Input>, exit: Exit)
    requires inputs != [] && (inputs[0].ConfigChanged? || inputs[0].Hangup?)
    requires var o := inputs[0].reload;
             && !Updates(partialReload, cur, o) && o.retireFailing == {}
             && Ready(partialReload, o.setup) && o.setup.create.Built? && !o.setup.startFails
             && Follows(tail, partialReload, Fresh(cur.svc + 1, o.setup), inputs[1..], exit)
    ensures Follows(GivenUp(partialReload, cur, inputs[0].reload) + Launched(cur.svc + 1) + tail,
                    partialReload, cur, inputs, exit)
  {
    var head, launched := GivenUp(partialReload, cur, inputs[0].reload), Launched(cur.svc + 1);
    assert |launched| == 8;
    hide GivenUp, Launched, Updates, Ready;
    Sliced3(head, launched, tail);
  }

  lemma FollowsFailure(rest: seq<Event>, partialReload: bool, cur: Current, inputs: seq<Input>)
    requires inputs != [] && (inputs[0].ConfigChanged? || inputs[0].Hangup?)
    requires var o := inputs[0].reload;
             && !Updates(partialReload, cur, o)
             && if o.retireFailing != {} then rest == []
                else if !Ready(partialReload, o.setup) then NotLaunched(rest, o.setup)
                else (!o.setup.create.Built? || o.setup.startFails) && Abandoned(rest, cur.svc + 1, o.setup)
    ensures Follows(GivenUp(partialReload, cur, inputs[0].reload) + rest, partialReload, cur, inputs, ReloadFailed)
  {
    hide Abandoned, NotLaunched, GivenUp, Updates, Ready;
    Sliced(GivenUp(partialReload, cur, inputs[0].reload), rest);
  }

  lemma Sliced<T>(a: seq<T>, b: seq<T>)
    ensures a <= a + b && (a + b)[..|a|] == a && (a + b)[|a|..] == b
  {
  }

  lemma Sliced3<T>(a: seq<T>, b: seq<T>, c: seq<T>)
    ensures a <= a + b + c && (a + b + c)[|a|..] == b + c && (b + c)[..|b|] == b && (b + c)[|b|..] == c
  {
  }

  lemma ReloadMeans(partialReload: bool, cur: Current, o: Reload)
    ensures Partial(partialReload, cur.base, o) <==> Updates(partialReload, cur, o)
    ensures if Updates(partialReload, cur, o) then
              o.config.Some? && ReloadEvents(partialReload, cur, o) == Told(cur, o.config.value)
            else
              ReloadEvents(partialReload, cur, o) == GivenUp(partialReload, cur, o)
              + if o.retireFailing != {} then [] else SetupEvents(partialReload, cur.svc + 1, o.setup)
  {
    hide SetupEvents, Struck;
    if partialReload && o.config.Some? {
      var cfg := o.config.value;
      assert Changed(cur.applied, cfg) == set id | id in cur.applied.receivers && id in cfg.receivers
                                                   && cur.applied.receivers[id] != cfg.receivers[id];
    }
  }

  class Collector {
    const t: Trace
    const h: Hasher
    /** The feature gates for the partial reload of receivers. */
    const partialReload: bool
    var state: State
    var service: Option<ServiceID>
    var currentFingerprint: Option<Fingerprint>
    var next: ServiceID

    /** The configuration of the last full start, and the one applied last. */
    ghost var base: Config
    ghost var applied: Config

    ghost predicate Valid()
      reads this, t
    {
      && CollisionFree(h) && t.Valid()
      && t.Ledger().state == state
    }

    /** Between two inputs: the service is running, and differs from its start in receivers only. */
    ghost predicate Running()
      reads this, t
    {
      && Valid() && state == StateRunning && !t.Ledger().down
      && service.Some? && Alive(t.Ledger(), service.value) && t.Ledger().started && next == service.value + 1
      && (partialReload ==> currentFingerprint == Some(FingerprintOf(h, applied)))
      && Struck(applied) == Struck(base)
    }

    ghost function Cur(): Current
      requires service.Some?
      reads this
    {
      Current(service.value, base, applied)
    }

    /** Nothing is alive: before the first setup, between services, and at the end. */
    ghost predicate Stopped()
      reads this, t
    {
      Valid() && Idle(t.Ledger(), next)
    }

    constructor (h: Hasher, partialReload: bool)
      requires CollisionFree(h)
      ensures Stopped() && fresh(t) && this.h == h && this.partialReload == partialReload
      ensures t.events == [] && next == 0 && !t.Ledger().down && state == StateStarting && currentFingerprint.None?
    {
      t := new Trace();
      this.h, this.partialReload := h, partialReload;
      state, service, currentFingerprint, next := StateStarting, None, None, 0;
    }

    method SetCollectorState(s: State)
      requires Valid() && (s == StateRunning ==> t.Ledger().alive.Some? && t.Ledger().started)
      modifies this`state, t
      ensures Valid() && state == s && t.Ledger() == old(t.Ledger()).(state := s)
      ensures t.events == old(t.events) + [SetState(s)]
    {
      hide After;
      t.Emit(SetState(s));
      state := s;
    }

    /** configProvider.getWithConf: the configuration is resolved anew. */
    method GetConfig()
      requires Valid() && !t.Ledger().down
      modifies t
      ensures Valid() && t.Ledger() == old(t.Ledger())
      ensures t.events == old(t.events) + [ConfigResolved]
    {
      hide After;
      t.Emit(ConfigResolved);
    }

    /** setupConfigurationComponents. A service that was created but not started is shut down again. */
    method SetupConfigurationComponents(o: Setup) returns (err: bool)
      requires Stopped() && !t.Ledger().down
      modifies this, t
      ensures err ==> Stopped() && state == StateStarting && !t.Ledger().down
      ensures !err ==> Running() && o.config == Some(base) && applied == base
      ensures err <==> SetupFails(partialReload, o)
      ensures !err ==> service == Some(old(next))
      ensures t.events == old(t.events) + SetupEvents(partialReload, old(next), o)
    {
      hide After, Next, FingerprintOf, Struck, CollisionFree, SetupEvents, LaunchEvents;
      SetupInSteps(t.events, partialReload, next, o);
      SetCollectorState(StateStarting);
      if o.factoriesFail {
        return true;
      }
      GetConfig();
      if o.config.None? || o.invalid {
        return true;
      }
      var cfg := o.config.value;
      var fingerprint: Option<Fingerprint> := None;
      if partialReload {
        if o.fingerprintFails {
          return true;
        }
        var fp := FingerprintForPartialReload(h, cfg);
        fingerprint := Some(fp);
      }
      if o.marshalFails {
        return true;
      }
      var svc := next;
      next := next + 1;
      var created, ok := LaunchService(t, svc, o);
      service := if created then Some(svc) else None;
      if !ok {
        return true;
      }
      if partialReload {
        currentFingerprint := fingerprint;
      }
      base, applied := cfg, cfg;
      SetCollectorState(StateRunning);
      return false;
    }

    /** tryPartialReceiverReload: whether it was attempted, and whether it failed. */
    method TryPartialReceiverReload(o: Reload) returns (reloaded: bool, err: bool)
      requires Running() && currentFingerprint.Some? && partialReload
      modifies this`currentFingerprint, this`applied, t
      ensures Running() && t.Ledger() == old(t.Ledger())
      ensures t.events == old(t.events) + AttemptEvents(old(Cur()), o)
      ensures reloaded <==> Attempted(old(base), o)
      ensures reloaded ==> (err <==> o.updateFails)
      ensures applied == if reloaded && !err then o.config.value else old(applied)
      ensures base == old(base)
    {
      hide After, FingerprintOf, Struck, CollisionFree, ReceiversOnlyChanged;
      if o.factoriesFail {
        return false, true;
      }
      GetConfig();
      if o.config.None? || o.invalid || o.fingerprintFails {
        return false, true;
      }
      var cfg := o.config.value;
      var fp := FingerprintForPartialReload(h, cfg);
      var only := CheckReceiversOnlyChanged(currentFingerprint.value, fp, cfg.fixed.connectors.Keys);
      ReceiversOnlyIff(h, applied, cfg);
      assert only == OnlyReceiversDiffer(h, applied, cfg);
      if !only {
        return false, false;
      }
      var changed := ChangedReceivers(currentFingerprint.value, fp);
      ChangedIsDiffering(h, applied, cfg);
      t.Emit(ServiceUpdated(service.value, changed));
      if o.updateFails {
        return true, true;
      }
      currentFingerprint := Some(fp);
      applied := cfg;
      return true, false;
    }

    /** reloadConfiguration: partial if that is possible and works, and full otherwise. */
    method ReloadConfiguration(o: Reload) returns (err: bool)
      requires Running()
      modifies this, t
      ensures !err ==> Running()
      ensures err ==> Stopped() && !t.Ledger().down && (state == StateClosing || state == StateStarting)
      ensures err <==> ReloadFails(partialReload, old(base), o)
      ensures t.events == old(t.events) + ReloadEvents(partialReload, old(Cur()), o)
      ensures !err ==> Cur() == CurrentAfter(partialReload, old(Cur()), o)
    {
      hide After, FingerprintOf, Struck, CollisionFree, AttemptEvents, SetupEvents, ReloadEvents, SetupFails;
      ReloadInSteps(t.events, partialReload, Cur(), o);
      if partialReload && currentFingerprint.Some? {
        var reloaded, failed := TryPartialReceiverReload(o);
        if reloaded && !failed {
          return false;
        }
      }
      var svc := service.value;
      SetCollectorState(StateClosing);
      var retireFailed := ShutdownService(t, svc, o.retireFailing);
      IdleLater(t.Ledger(), svc + 1, next);
      if retireFailed {
        return true;
      }
      err := SetupConfigurationComponents(o.setup);
    }

    /** shutdown: the config provider first, and then the service, whatever fails. */
    method Shutdown(configFails: bool, failing: set<ShutdownStep>) returns (err: bool)
      requires Running()
      modifies this, t
      ensures Stopped() && state == StateClosed && t.Ledger().down
      ensures t.events == old(t.events) + ShutdownEvents(old(Cur()).svc)
      ensures err <==> configFails || failing != {}
    {
      hide After, FingerprintOf, Struck, CollisionFree;
      SetCollectorState(StateClosing);
      t.Emit(ConfigProviderDown);
      var failed := ShutdownService(t, service.value, failing);
      IdleLater(t.Ledger(), service.value + 1, next);
      SetCollectorState(StateClosed);
      err := configFails || failed;
    }

    /**
     Run, for any sequence of inputs. At every moment the trace is one the automaton
     accepts. When Run returns, nothing is alive and no provider runs any more. The
     collector ends closed exactly if no reload failed, and the config provider is shut
     down exactly if neither the first setup nor a reload failed.
     */
    method Run(shutdownCalled: bool, setup: Setup, inputs: seq<Input>, configFails: bool, failing: set<ShutdownStep>)
      returns (exit: Exit)
      requires Stopped() && !t.Ledger().down
      modifies this, t
      ensures t.Valid()
      ensures exit.StillRunning? ==> Running()
      ensures !exit.StillRunning? ==> Stopped()
      ensures !exit.StillRunning? ==> (state == StateClosed <==> !exit.ReloadFailed?)
      ensures t.Ledger().down <==> exit.ShutDownBefore? || exit.ShutDown?
      ensures exit == RunExit(partialReload, old(next), shutdownCalled, setup, inputs)
      ensures t.events == old(t.events) + RunEvents(partialReload, old(next), shutdownCalled, setup, inputs)
    {
      hide After, FingerprintOf, Struck, CollisionFree, Alive, SetupFails, SetupEvents, LoopExit, LoopEvents;
      if shutdownCalled {
        SetCollectorState(StateClosed);
        t.Emit(ConfigProviderDown);
        return ShutDownBefore;
      }
      var err := SetupConfigurationComponents(setup);
      if err {
        SetCollectorState(StateClosed);
        return SetupFailed;
      }
      exit := Loop(inputs, configFails, failing);
    }

    /** The control loop. */
    method Loop(inputs: seq<Input>, configFails: bool, failing: set<ShutdownStep>) returns (exit: Exit)
      requires Running()
      modifies this, t
      ensures exit == LoopExit(partialReload, old(Cur()), inputs)
      ensures t.Valid() && t.events == old(t.events) + LoopEvents(partialReload, old(Cur()), inputs)
      ensures exit.StillRunning? ==> Running()
      ensures !exit.StillRunning? ==> Stopped() && (state == StateClosed <==> !exit.ReloadFailed?)
      ensures t.Ledger().down <==> exit.ShutDown?
      ensures exit.StillRunning? || exit.ReloadFailed? || exit.ShutDown?
    {
      hide After, FingerprintOf, Struck, CollisionFree, Alive,
           LoopExit, LoopEvents, ReloadFails, ReloadEvents, CurrentAfter;
      assert inputs[0..] == inputs;
      for i := 0 to |inputs|
        invariant Running()
        invariant LoopExit(partialReload, Cur(), inputs[i..]) == LoopExit(partialReload, old(Cur()), inputs)
        invariant t.events + LoopEvents(partialReload, Cur(), inputs[i..])
               == old(t.events) + LoopEvents(partialReload, old(Cur()), inputs)
      {
        LoopNext(partialReload, Cur(), inputs, i);
        if inputs[i].ConfigChanged? || inputs[i].Hangup? {
          ghost var before, was := t.events, Cur();
          var err := ReloadConfiguration(inputs[i].reload);
          if err {
            return ReloadFailed;
          }
          Reassociated(before, ReloadEvents(partialReload, was, inputs[i].reload),
                       LoopEvents(partialReload, Cur(), inputs[i + 1..]));
        } else {
          var _ := Shutdown(configFails, failing);
          return ShutDown;
        }
      }
      LoopLast(partialReload, Cur(), inputs);
      return StillRunning;
    }
  }

  lemma Reassociated<T>(a: seq<T>, b: seq<T>, c: seq<T>)
    ensures a + b + c == a + (b + c)
  {
  }

  lemma SetupInSteps(before: seq<Event>, partialReload: bool, svc: ServiceID, o: Setup)
    ensures var begun := before + [SetState(StateStarting)];
            var launched := begun + [ConfigResolved] + LaunchEvents(svc, o);
            before + SetupEvents(partialReload, svc, o) == (
              if o.factoriesFail then begun
              else if StopsBeforeLaunch(partialReload, o) then begun + [ConfigResolved]
              else if o.create.Built? && !o.startFails then launched + [SetState(StateRunning)] else launched)
  {
    hide LaunchEvents;
  }

  lemma ReloadInSteps(before: seq<Event>, partialReload: bool, cur: Current, o: Reload)
    ensures var tried := if partialReload then before + AttemptEvents(cur, o) else before;
            var retired := tried + [SetState(StateClosing)] + RetireEvents(cur.svc);
            before + ReloadEvents(partialReload, cur, o) == (
              if Partial(partialReload, cur.base, o) then tried
              else if o.retireFailing != {} then retired
              else retired + SetupEvents(partialReload, cur.svc + 1, o.setup))
  {
    hide AttemptEvents, SetupEvents, Partial;
  }

  lemma LoopNext(partialReload: bool, cur: Current, inputs: seq<Input>, i: nat)
    requires i < |inputs|
    ensures if inputs[i].ConfigChanged? || inputs[i].Hangup? then
              var o := inputs[i].reload;
              if ReloadFails(partialReload, cur.base, o) then
                && LoopExit(partialReload, cur, inputs[i..]) == ReloadFailed
                && LoopEvents(partialReload, cur, inputs[i..]) == ReloadEvents(partialReload, cur, o)
              else
                var next := CurrentAfter(partialReload, cur, o);
                && LoopExit(partialReload, cur, inputs[i..]) == LoopExit(partialReload, next, inputs[i + 1..])
                && LoopEvents(partialReload, cur, inputs[i..])
                == ReloadEvents(partialReload, cur, o) + LoopEvents(partialReload, next, inputs[i + 1..])
            else
              && LoopExit(partialReload, cur, inputs[i..]) == ShutDown
              && LoopEvents(partialReload, cur, inputs[i..]) == ShutdownEvents(cur.svc)
  {
    hide ReloadFails, ReloadEvents, CurrentAfter;
    assert inputs[i..][0] == inputs[i] && inputs[i..][1..] == inputs[i + 1..];
  }

  lemma LoopLast(partialReload: bool, cur: Current, inputs: seq<Input>)
    ensures inputs[|inputs|..] == []
    ensures LoopExit(partialReload, cur, []) == StillRunning && LoopEvents(partialReload, cur, []) == []
  {
  }

  lemma IdleLater(l: Ledger, svc: ServiceID, later: ServiceID)
    requires Idle(l, svc) && svc <= later
    ensures Idle(l, later)
  {
  }

  /** What a run means, in terms of its events alone. */
  ghost predicate SafeRun(es: seq<Event>) {
    && (forall n, a, b :: 0 <= n <= |es| && AliveIn(es[..n], a) && AliveIn(es[..n], b) ==> a == b)
    && (forall n :: 0 <= n <= |es| && StateAfter(es[..n]) == StateRunning ==>
          exists svc :: AliveIn(es[..n], svc) && Count(es[..n], ServiceStarted(svc)) > 0)
    && Count(es, ConfigProviderDown) <= 1
    && (forall i, j :: 0 <= i < j < |es| && es[i] == ConfigProviderDown ==> es[j] != ConfigResolved)
    && LastInFirstOut(es)
    && Equipped(es)
  }

  /** When a service is created and when it is stopped, its logger and both its providers run. */
  ghost predicate Equipped(es: seq<Event>) {
    forall i, p :: 0 <= i < |es| && (es[i].ServiceCreated? || es[i].ServiceStopped?) ==>
      RunningIn(es[..i], (es[i].svc, p))
  }

  /** When a provider is stopped, every one created after it was stopped before. */
  ghost predicate LastInFirstOut(es: seq<Event>) {
    forall i, j, k :: 0 <= i < j < k < |es| && es[i].ProviderCreated? && es[j].ProviderCreated?
                      && es[k] == ProviderStopped(es[i].svc, es[i].provider)
                      ==> StoppedIn(es, j + 1, k, (es[j].svc, es[j].provider))
  }

  ghost predicate CleanRun(es: seq<Event>) {
    && (forall svc :: Count(es, ServiceStopped(svc)) == Count(es, ServiceCreated(svc)) <= 1)
    && (forall svc, p :: Count(es, ProviderStopped(svc, p)) == Count(es, ProviderCreated(svc, p)) <= 1)
  }

  lemma AcceptedIsSafe(es: seq<Event>)
    requires After(es).Some?
    ensures SafeRun(es)
  {
    hide After, Count, StateAfter, AliveIn, RunningIn;
    forall n, a, b | 0 <= n <= |es| && AliveIn(es[..n], a) && AliveIn(es[..n], b) ensures a == b {
      AtMostOneAlive(es, n, a, b);
    }
    forall n | 0 <= n <= |es| && StateAfter(es[..n]) == StateRunning
      ensures exists svc :: AliveIn(es[..n], svc) && Count(es[..n], ServiceStarted(svc)) > 0
    {
      var svc := RunningMeansStarted(es, n);
    }
    ConfigProviderOnce(es);
    forall i, p | 0 <= i < |es| && (es[i].ServiceCreated? || es[i].ServiceStopped?)
      ensures RunningIn(es[..i], (es[i].svc, p))
    {
      ProvidersRun(es, i, p);
    }
    forall i, j, k | 0 <= i < j < k < |es| && es[i].ProviderCreated? && es[j].ProviderCreated?
      && es[k] == ProviderStopped(es[i].svc, es[i].provider)
      ensures StoppedIn(es, j + 1, k, (es[j].svc, es[j].provider))
    {
      ReverseOrder(es, i, j, k, (es[i].svc, es[i].provider), (es[j].svc, es[j].provider));
    }
  }

  lemma StoppedIsClean(es: seq<Event>)
    requires After(es).Some? && After(es).value.alive.None? && After(es).value.stack == []
    ensures CleanRun(es)
  {
    hide After, Count;
    forall svc ensures Count(es, ServiceStopped(svc)) == Count(es, ServiceCreated(svc)) <= 1 {
      AllStoppedOnce(es, svc, (svc, Logger));
    }
    forall svc, p ensures Count(es, ProviderStopped(svc, p)) == Count(es, ProviderCreated(svc, p)) <= 1 {
      AllStoppedOnce(es, svc, (svc, p));
    }
  }

  /**
   Every run of a new collector, whatever the inputs and failures: at most one service
   is alive at a time, running means started, the config provider goes down at most once
   and is not asked afterwards, and telemetry providers are stopped in the reverse order
   of their creation; and when Run has returned, every service and every telemetry
   provider ever created was stopped exactly once. How Run ends depends on the inputs as
   RunExit says.
   */
  method RunCollector(h: Hasher, partialReload: bool, shutdownCalled: bool, setup: Setup, inputs: seq<Input>,
                      configFails: bool, failing: set<ShutdownStep>)
    returns (es: seq<Event>, exit: Exit)
    requires CollisionFree(h)
    ensures exit == RunExit(partialReload, 0, shutdownCalled, setup, inputs)
    ensures es == RunEvents(partialReload, 0, shutdownCalled, setup, inputs)
    ensures if shutdownCalled then exit == ShutDownBefore && es == [SetState(StateClosed), ConfigProviderDown]
            else Accounted(es, partialReload, 0, setup, inputs, exit)
    ensures !shutdownCalled && (setup.factoriesFail || setup.config.None? || setup.invalid || setup.marshalFails
                                || (partialReload && setup.fingerprintFails)) ==>
              && exit == SetupFailed && StateAfter(es) == StateClosed
              && forall e :: e in es ==> !e.ServiceCreated? && !e.ProviderCreated?
    ensures After(es).Some? && SafeRun(es)
    ensures !exit.StillRunning? ==> CleanRun(es)
    ensures !exit.StillRunning? ==> (StateAfter(es) == StateClosed <==> !exit.ReloadFailed?)
    ensures Count(es, ConfigProviderDown) == if exit.ShutDownBefore? || exit.ShutDown? then 1 else 0
  {
    hide After, Count, StateAfter, SafeRun, CleanRun, CollisionFree, Accounted;
    RunAccounted(partialReload, 0, setup, inputs);
    NothingCreated(partialReload, setup, inputs);
    hide RunEvents, RunExit;
    var col := new Collector(h, partialReload);
    exit := col.Run(shutdownCalled, setup, inputs, configFails, failing);
    es := col.t.events;
    AcceptedIsSafe(es);
    StateCounts(es);
    ConfigProviderOnce(es);
    if !exit.StillRunning? {
      StoppedIsClean(es);
    }
  }

  const SOME_CONFIG := Config(Fixed("", "", "", "", map[]), map[], [], map[])

  /** All goes well until a reload finds no configuration. */
  const GOOD_SETUP := Setup(false, Some(SOME_CONFIG), false, false, false, Built, false, {})
  const FAILING_RELOAD := Reload(false, None, false, false, false, {}, GOOD_SETUP.(config := None))

  /** Such a reload ends the run without closing the collector or the config provider. */
  method FailedReloadStaysOpen(h: Hasher) returns (es: seq<Event>)
    requires CollisionFree(h)
    ensures es == [SetState(StateStarting), ConfigResolved] + NewEvents(0, Built) + [ServiceStarted(0)]
                + [SetState(StateRunning), SetState(StateClosing)] + RetireEvents(0)
                + [SetState(StateStarting), ConfigResolved]
    ensures StateAfter(es) != StateClosed && Count(es, ConfigProviderDown) == 0
  {
    hide After, SafeRun, CleanRun, StateAfter, Count, CollisionFree, RunExit, RunEvents;
    FailedReload();
    var exit;
    es, exit := RunCollector(h, false, false, GOOD_SETUP, [Hangup(FAILING_RELOAD)], false, {});
  }

  lemma FailedReload()
    ensures RunExit(false, 0, false, GOOD_SETUP, [Hangup(FAILING_RELOAD)]) == ReloadFailed
    ensures RunEvents(false, 0, false, GOOD_SETUP, [Hangup(FAILING_RELOAD)])
         == [SetState(StateStarting), ConfigResolved] + NewEvents(0, Built) + [ServiceStarted(0)]
          + [SetState(StateRunning), SetState(StateClosing)] + RetireEvents(0)
          + [SetState(StateStarting), ConfigResolved]
  {
    var cur := Fresh(0, GOOD_SETUP);
    assert ReloadFails(false, SOME_CONFIG, FAILING_RELOAD);
    assert LoopEvents(false, cur, [Hangup(FAILING_RELOAD)])
        == ReloadEvents(false, cur, FAILING_RELOAD)
        == [SetState(StateClosing)] + RetireEvents(0) + [SetState(StateStarting), ConfigResolved];
    hide LoopEvents, ReloadEvents;
  }
}
