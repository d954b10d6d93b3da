/**
 Components shared between signals (internal/sharedcomponent): one live component per
 key, started and stopped once, with the last five status events replayed to whoever
 joins later.
 */
module SharedComponent {
  import opened Common

  const RING := 5

  /** The last five events of a log. */
  function LastFive<E>(log: seq<E>): seq<E> {
    log[Max(0, |log| - RING)..]
  }

  lemma LastFiveIs<E>(log: seq<E>)
    ensures |log| <= 5 ==> LastFive(log) == log
    ensures |log| > 5 ==> log == log[..|log| - 5] + LastFive(log) && |LastFive(log)| == 5
  {
  }

  lemma NotSameSlot(i: nat, n: nat)
    requires n - RING < i < n
    ensures i % RING != n % RING
  {
  }

  /** The slot that comes j-th after n events: of event n - 5 + j, or not yet used. */
  lemma SlotOf(n: nat, j: nat)
    requires j < RING
    ensures n - RING + j >= 0 ==> (n % RING + j) % RING == (n - RING + j) % RING
    ensures n - RING + j < 0 ==> n <= (n % RING + j) % RING
  {
  }

  /** The host handed to the wrapped component, with its ring of previous events. */
  class HostWrapper<E> {
    /** One entry per registration of a status reporter. */
    var sources: seq<nat>
    const previousEvents: array<Option<E>>
    /** The slot that is written next, and the oldest one when the ring is full. */
    var at: nat

    /** The events remembered since the start, and what each registration was sent. */
    ghost var log: seq<E>
    ghost var received: seq<seq<E>>
    ghost var joinedAt: seq<nat>

    /** Event number i, while it is among the last five, is in slot i modulo five. */
    ghost predicate RingHolds()
      reads this, previousEvents
    {
      && previousEvents.Length == RING && at == |log| % RING
      && (forall i :: Max(0, |log| - RING) <= i < |log| ==> previousEvents[i % RING] == Some(log[i]))
      && (forall k :: |log| <= k < RING ==> previousEvents[k] == None)
    }

    /** Each registration has got everything from at most five events before it joined. */
    ghost predicate Valid()
      reads this, previousEvents
    {
      && RingHolds()
      && |received| == |sources| == |joinedAt|
      && forall i :: 0 <= i < |sources| ==> joinedAt[i] <= |log| && received[i] == log[Max(0, joinedAt[i] - RING)..]
    }

    constructor ()
      ensures Valid() && sources == [] && log == [] && joinedAt == [] && fresh(previousEvents)
    {
      sources, at, log, received, joinedAt := [], 0, [], [], [];
      previousEvents := new Option<E>[RING](_ => None);
    }

    /** An event takes the slot of the oldest one, and the ring moves on. */
    method Remember(e: E)
      requires RingHolds()
      modifies this`at, this`log, previousEvents
      ensures RingHolds() && log == old(log) + [e]
    {
      ghost var n := |log|;
      previousEvents[at] := Some(e);
      at := (at + 1) % RING;
      log := log + [e];
      forall i | Max(0, n + 1 - RING) <= i < n ensures i % RING != n % RING {
        NotSameSlot(i, n);
      }
    }

    method SendToAll(e: E)
      requires |received| == |sources|
      modifies this`received
      ensures |received| == |sources|
      ensures forall k :: 0 <= k < |sources| ==> received[k] == old(received)[k] + [e]
    {
      var i := 0;
      while i < |sources|
        invariant 0 <= i <= |sources| == |received|
        invariant forall k :: 0 <= k < |sources| ==> received[k] == old(received)[k] + if k < i then [e] else []
      {
        received := received[i := received[i] + [e]];
        i := i + 1;
      }
    }

    /** Report: remembered only if there is someone to send it to. */
    method Report(e: E)
      requires Valid()
      modifies this, previousEvents
      ensures Valid() && sources == old(sources) && joinedAt == old(joinedAt)
      ensures log == if |sources| > 0 then old(log) + [e] else old(log)
    {
      if |sources| > 0 {
        Remember(e);
      }
      SendToAll(e);
    }

    method ReportAll(events: seq<E>)
      requires Valid()
      modifies this, previousEvents
      ensures Valid() && sources == old(sources) && joinedAt == old(joinedAt)
      ensures log == if |sources| > 0 then old(log) + events else old(log)
    {
      for i := 0 to |events|
        invariant Valid() && sources == old(sources) && joinedAt == old(joinedAt)
        invariant log == if |sources| > 0 then old(log) + events[..i] else old(log)
      {
        Report(events[i]);
      }
      assert events[..|events|] == events;
    }

    /** Going once around the ring from the next slot on finds the last five events, oldest first. */
    method Replay() returns (sent: seq<E>)
      requires RingHolds()
      ensures sent == LastFive(log)
    {
      sent := [];
      ghost var n := |log|;
      ghost var first := Max(0, n - RING);
      var j := 0;
      while j < RING
        invariant 0 <= j <= RING
        invariant sent == log[first..Max(first, n - RING + j)]
      {
        SlotOf(n, j);
        var slot := previousEvents[(at + j) % RING];
        if slot.Some? {
          sent := sent + [slot.value];
        }
        j := j + 1;
      }
    }

    /** addSource: what the ring holds is sent to the newcomer before it joins. */
    method AddSource(s: nat)
      requires Valid()
      modifies this`sources, this`received, this`joinedAt
      ensures Valid() && log == old(log)
      ensures sources == old(sources) + [s] && joinedAt == old(joinedAt) + [|log|]
      ensures received == old(received) + [LastFive(log)]
    {
      var sent := Replay();
      sources := sources + [s];
      received := received + [sent];
      joinedAt := joinedAt + [|log|];
    }
  }

  /** A component without its ring: what it has logged, and who joined it when. */
  datatype Summary<K, E> = Summary(key: K, started: bool, startErr: bool, stopped: bool,
                                   sources: seq<nat>, log: seq<E>, joinedAt: seq<nat>)

  /** Start: the first one starts the component, and every one may bring a reporter. */
  function Joined<K, E>(c: Summary<K, E>, reporter: Option<nat>, events: seq<E>, fails: bool): Summary<K, E> {
    var joining := if reporter.Some? then [reporter.value] else [];
    if c.started then
      c.(sources := c.sources + joining, joinedAt := c.joinedAt + if reporter.Some? then [|c.log|] else [])
    else
      Summary(c.key, true, fails, c.stopped, joining,
              if reporter.Some? then events else [], if reporter.Some? then [0] else [])
  }

  /** An event is remembered only if there is someone to send it to. */
  function Noted<K, E>(c: Summary<K, E>, e: E): Summary<K, E> {
    if c.started && c.sources != [] then c.(log := c.log + [e]) else c
  }

  /** A shared component, as its key, its once-flags and its wrapper. */
  class Component<K, E> {
    const key: K
    var startErr: bool
    var stopOnce: bool
    var hostWrapper: HostWrapper?<E>

    /** How often the wrapped component was started and stopped. */
    ghost var starts: nat
    ghost var stops: nat

    ghost function Footprint(): set<object>
      reads this, hostWrapper
    {
      {this} + if hostWrapper == null then {} else {hostWrapper, hostWrapper.previousEvents}
    }

    ghost predicate Valid()
      reads this, hostWrapper, if hostWrapper == null then {} else {hostWrapper.previousEvents}
    {
      && starts == (if hostWrapper == null then 0 else 1)
      && stops == (if stopOnce then 1 else 0)
      && (hostWrapper != null ==> hostWrapper.Valid())
    }

    ghost function Summarized(): Summary<K, E>
      reads this, hostWrapper
    {
      if hostWrapper == null then Summary(key, false, startErr, stopOnce, [], [], [])
      else Summary(key, true, startErr, stopOnce, hostWrapper.sources, hostWrapper.log, hostWrapper.joinedAt)
    }

    constructor (key: K)
      ensures Valid() && this.key == key && hostWrapper == null
      ensures Summarized() == Summary(key, false, false, false, [], [], [])
    {
      this.key, startErr, stopOnce, hostWrapper, starts, stops := key, false, false, null, 0, 0;
    }

    /**
     Start: the wrapped component is started by the first call only, every call returns
     the result of that one, and each host that can report joins the sources. The first
     start reports `events` while it runs.
     */
    method Start(reporter: Option<nat>, events: seq<E>, fails: bool) returns (err: bool)
      requires Valid()
      modifies Footprint()
      ensures Valid() && starts == 1 && fresh(Footprint() - old(Footprint()))
      ensures hostWrapper != null && (old(hostWrapper) != null ==> hostWrapper == old(hostWrapper))
      ensures err == startErr == if old(hostWrapper) == null then fails else old(startErr)
      ensures stopOnce == old(stopOnce) && stops == old(stops)
      ensures Summarized() == Joined(old(Summarized()), reporter, events, fails)
      ensures hostWrapper.sources == old(if hostWrapper == null then [] else hostWrapper.sources)
                                     + if reporter.Some? then [reporter.value] else []
      ensures old(hostWrapper) == null ==>
                && hostWrapper.log == (if reporter.Some? then events else [])
                && hostWrapper.received == (if reporter.Some? then [events] else [])
      ensures old(hostWrapper) != null ==>
                && hostWrapper.log == old(if hostWrapper == null then [] else hostWrapper.log)
                && hostWrapper.received == old(if hostWrapper == null then [] else hostWrapper.received)
                                         + if reporter.Some? then [LastFive(hostWrapper.log)] else []
    {
      hide HostWrapper.Valid, HostWrapper.RingHolds, LastFive;
      if hostWrapper == null {
        hostWrapper := FirstHost(reporter, events);
        starts := starts + 1;
        startErr := fails;
        return startErr;
      }
      if reporter.Some? {
        hostWrapper.AddSource(reporter.value);
      }
      return startErr;
    }
  }

  /** The host of a first start, which reports `events` while it runs. */
  method FirstHost<E>(reporter: Option<nat>, events: seq<E>) returns (w: HostWrapper<E>)
    ensures fresh(w) && fresh(w.previousEvents) && w.Valid()
    ensures w.sources == (if reporter.Some? then [reporter.value] else [])
    ensures w.log == (if reporter.Some? then events else [])
    ensures w.received == (if reporter.Some? then [events] else [])
    ensures w.joinedAt == if reporter.Some? then [0] else []
  {
    hide HostWrapper.RingHolds;
    w := new HostWrapper();
    if reporter.Some? {
      w.AddSource(reporter.value);
    }
    w.ReportAll(events);
    assert reporter.Some? ==> w.received[0] == w.log[0..] == events;
  }

  class Map<K(==), E> {
    var components: map<K, Component<K, E>>
    /** Every component ever created. */
    ghost var created: set<Component<K, E>>

    /** A component is in the map, under its key, exactly until it is stopped. */
    ghost predicate Valid()
      reads this, created
    {
      && (forall k :: k in components ==> components[k] in created && components[k].key == k && !components[k].stopOnce)
      && (forall c :: c in created ==> (!c.stopOnce <==> c.key in components && components[c.key] == c))
      && (forall c :: c in created ==> c.stops == if c.stopOnce then 1 else 0)
    }

    constructor ()
      ensures Valid() && components == map[] && created == {}
    {
      components, created := map[], {};
    }

    /** LoadOrStore: the live component of the key, or a new one if it can be created. */
    method LoadOrStore(key: K, createFails: bool) returns (c: Option<Component<K, E>>)
      requires Valid()
      modifies this
      ensures Valid()
      ensures key in old(components) ==>
                c == Some(old(components)[key]) && components == old(components) && created == old(created)
      ensures key !in old(components) && createFails ==>
                c.None? && components == old(components) && created == old(created)
      ensures key !in old(components) && !createFails ==>
                && c.Some? && fresh(c.value) && c.value.Valid() && c.value.key == key && c.value.hostWrapper == null
                && c.value.Summarized() == Summary(key, false, false, false, [], [], [])
                && components == old(components)[key := c.value] && created == old(created) + {c.value}
    {
      if key in components {
        return Some(components[key]);
      }
      if createFails {
        return None;
      }
      var comp := new Component(key);
      components := components[key := comp];
      created := created + {comp};
      return Some(comp);
    }

    /** Component.Shutdown: the first call stops the wrapped component and frees its key. */
    method Shutdown(c: Component<K, E>, fails: bool) returns (err: bool)
      requires Valid() && c in created
      modifies this`components, c`stopOnce, c`stops
      ensures Valid() && c.stopOnce && c.stops == 1 && created == old(created)
      ensures err <==> fails && !old(c.stopOnce)
      ensures components == if old(c.stopOnce) then old(components) else old(components) - {c.key}
    {
      err := false;
      if !c.stopOnce {
        c.stopOnce := true;
        err := fails;
        c.stops := c.stops + 1;
        components := components - {c.key};
      }
    }
  }

  /** Two live components never share a key. */
  lemma OneLivePerKey<K, E>(m: Map<K, E>, a: Component<K, E>, b: Component<K, E>)
    requires m.Valid() && a in m.created && b in m.created
    requires a.key == b.key && !a.stopOnce && !b.stopOnce
    ensures a == b
  {
  }

  // ---------------------------------------------------------------- a run as a function

  /** What is done with a map and with the components it handed out, each by its number. */
  datatype Op<K, E> =
    | Load(key: K, createFails: bool)
    | Start(at: nat, reporter: Option<nat>, events: seq<E>, startFails: bool)
    | Report(at: nat, event: E)
    | Shutdown(at: nat, stopFails: bool)

  datatype Result = Loaded(ok: bool) | Started(err: bool) | Reported | Stopped(err: bool) | NoSuchHandle

  /** All components in the order of their creation, the live one of each key, and those handed out. */
  datatype State<!K, E> = State(components: seq<Summary<K, E>>, live: map<K, nat>, handles: seq<nat>)

  predicate Proper<K, E>(s: State<K, E>) {
    && (forall k :: k in s.live ==> s.live[k] < |s.components|)
    && forall i :: 0 <= i < |s.handles| ==> s.handles[i] < |s.components|
  }

  function Step<K(==), E>(s: State<K, E>, op: Op<K, E>): (r: (State<K, E>, Result))
    requires Proper(s)
    ensures Proper(r.0)
  {
    match op
    case Load(key, fails) =>
      if key in s.live then (s.(handles := s.handles + [s.live[key]]), Loaded(true))
      else if fails then (s, Loaded(false))
      else
        var n := |s.components|;
        (State(s.components + [Summary(key, false, false, false, [], [], [])], s.live[key := n], s.handles + [n]),
         Loaded(true))
    case Start(i, reporter, events, fails) =>
      if i >= |s.handles| then (s, NoSuchHandle) else
      var n := s.handles[i];
      var c := Joined(s.components[n], reporter, events, fails);
      (s.(components := s.components[n := c]), Started(c.startErr))
    case Report(i, e) =>
      if i >= |s.handles| then (s, NoSuchHandle) else
      var n := s.handles[i];
      (s.(components := s.components[n := Noted(s.components[n], e)]), Reported)
    case Shutdown(i, fails) =>
      if i >= |s.handles| then (s, NoSuchHandle) else
      var n := s.handles[i];
      if s.components[n].stopped then (s, Stopped(false))
      else (s.(components := s.components[n := s.components[n].(stopped := true)],
               live := s.live - {s.components[n].key}), Stopped(fails))
  }

  function Steps<K(==), E>(ops: seq<Op<K, E>>): (r: (State<K, E>, seq<Result>))
    ensures Proper(r.0) && |r.1| == |ops|
  {
    if ops == [] then (State([], map[], []), []) else
    var (s, results) := Steps(ops[..|ops| - 1]);
    var (t, result) := Step(s, ops[|ops| - 1]);
    (t, results + [result])
  }

  lemma StepsNext<K, E>(ops: seq<Op<K, E>>, i: nat)
    requires i < |ops|
    ensures Steps(ops[..i + 1])
         == (Step(Steps(ops[..i]).0, ops[i]).0, Steps(ops[..i]).1 + [Step(Steps(ops[..i]).0, ops[i]).1])
  {
    hide Step;
    assert ops[..i + 1][..i] == ops[..i];
  }

  // --------------------------------------------- what a run comes to, by its operations

  /** The operation is about component `n`, by the handle it is given. */
  predicate Concerns<K, E>(s: State<K, E>, op: Op<K, E>, n: nat) {
    !op.Load? && op.at < |s.handles| && s.handles[op.at] == n
  }

  /** The operations about component `n`, in order. */
  function About<K(==), E>(ops: seq<Op<K, E>>, n: nat): seq<Op<K, E>> {
    if ops == [] then [] else
    var before, op := ops[..|ops| - 1], ops[|ops| - 1];
    About(before, n) + if Concerns(Steps(before).0, op, n) then [op] else []
  }

  lemma AboutNext<K, E>(ops: seq<Op<K, E>>, op: Op<K, E>, n: nat)
    ensures About(ops + [op], n) == About(ops, n) + if Concerns(Steps(ops).0, op, n) then [op] else []
  {
    hide Steps, Concerns;
    assert (ops + [op])[..|ops|] == ops;
  }

  predicate EverStarted<K, E>(ops: seq<Op<K, E>>) {
    exists i :: 0 <= i < |ops| && ops[i].Start?
  }

  /** The reporters of the hosts that started, in order. */
  function Reporters<K, E>(ops: seq<Op<K, E>>): seq<nat> {
    if ops == [] then [] else
    var op := ops[|ops| - 1];
    Reporters(ops[..|ops| - 1]) + if op.Start? && op.reporter.Some? then [op.reporter.value] else []
  }

  /**
   The events since the first reporter joined: those of the first start, if it brought a
   reporter, and later every single one.
   */
  function Heard<K, E>(ops: seq<Op<K, E>>): seq<E> {
    if ops == [] then [] else
    var before, op := ops[..|ops| - 1], ops[|ops| - 1];
    Heard(before) + if op.Start? && !EverStarted(before) && op.reporter.Some? then op.events
                    else if op.Report? && Reporters(before) != [] then [op.event]
                    else []
  }

  /** How many events had been heard when each reporter joined. */
  function JoinedAfter<K, E>(ops: seq<Op<K, E>>): seq<nat> {
    if ops == [] then [] else
    var before, op := ops[..|ops| - 1], ops[|ops| - 1];
    JoinedAfter(before) + if op.Start? && op.reporter.Some? then [|Heard(before)|] else []
  }

  /** Whether the first start failed. */
  predicate StartFailed<K, E>(ops: seq<Op<K, E>>) {
    exists i :: 0 <= i < |ops| && ops[i].Start? && ops[i].startFails && !EverStarted(ops[..i])
  }

  predicate EverStopped<K, E>(ops: seq<Op<K, E>>) {
    exists i :: 0 <= i < |ops| && ops[i].Shutdown?
  }

  /** What a component is after the operations about it. */
  ghost predicate Is<K, E>(c: Summary<K, E>, ops: seq<Op<K, E>>) {
    && (c.started <==> EverStarted(ops)) && (c.startErr <==> StartFailed(ops))
    && (c.stopped <==> EverStopped(ops))
    && c.sources == Reporters(ops) && c.log == Heard(ops) && c.joinedAt == JoinedAfter(ops)
  }

  /** What an operation does to its component. */
  function Acted<K, E>(c: Summary<K, E>, op: Op<K, E>): Summary<K, E> {
    match op
    case Start(_, reporter, events, fails) => Joined(c, reporter, events, fails)
    case Report(_, e) => Noted(c, e)
    case Shutdown(_, _) => c.(stopped := true)
    case Load(_, _) => c
  }

  lemma StepActs<K, E>(s: State<K, E>, op: Op<K, E>, n: nat)
    requires Proper(s)
    ensures var t := Step(s, op).0;
            && |t.components| == |s.components| + (if op.Load? && op.key !in s.live && !op.createFails then 1 else 0)
            && (n < |s.components| ==>
                  t.components[n] == if Concerns(s, op, n) then Acted(s.components[n], op) else s.components[n])
            && (n >= |s.components| ==> !Concerns(s, op, n))
            && (n == |s.components| < |t.components| ==>
                  op.Load? && t.components[n] == Summary(op.key, false, false, false, [], [], []))
  {
    hide Joined, Noted;
  }

  lemma {:induction false} NothingBefore<K, E>(ops: seq<Op<K, E>>)
    ensures !EverStarted(ops) ==>
              Reporters(ops) == [] && Heard(ops) == [] && JoinedAfter(ops) == [] && !StartFailed(ops)
  {
    if ops != [] && !EverStarted(ops) {
      var before := ops[..|ops| - 1];
      assert forall i :: 0 <= i < |before| ==> before[i] == ops[i];
      NothingBefore(before);
    }
  }

  lemma {:induction false} IsNext<K, E>(c: Summary<K, E>, ops: seq<Op<K, E>>, op: Op<K, E>)
    requires Is(c, ops) && !op.Load?
    ensures Is(Acted(c, op), ops + [op])
  {
    NothingBefore(ops);
    EverNext(ops, op);
    StartFailedNext(ops, op);
    RecordsNext(ops, op);
    hide EverStarted, EverStopped, StartFailed, Reporters, Heard, JoinedAfter;
  }

  lemma RecordsNext<K, E>(ops: seq<Op<K, E>>, op: Op<K, E>)
    ensures var joins := op.Start? && op.reporter.Some?;
            && Reporters(ops + [op]) == Reporters(ops) + (if joins then [op.reporter.value] else [])
            && JoinedAfter(ops + [op]) == JoinedAfter(ops) + (if joins then [|Heard(ops)|] else [])
            && Heard(ops + [op]) == Heard(ops) + if joins && !EverStarted(ops) then op.events
                                                 else if op.Report? && Reporters(ops) != [] then [op.event] else []
  {
    hide EverStarted;
    assert (ops + [op])[..|ops|] == ops;
  }

  lemma EverNext<K, E>(ops: seq<Op<K, E>>, op: Op<K, E>)
    ensures EverStarted(ops + [op]) <==> EverStarted(ops) || op.Start?
    ensures EverStopped(ops + [op]) <==> EverStopped(ops) || op.Shutdown?
  {
    var more := ops + [op];
    assert more[|ops|] == op && forall i :: 0 <= i < |ops| ==> more[i] == ops[i];
  }

  lemma StartFailedNext<K, E>(ops: seq<Op<K, E>>, op: Op<K, E>)
    ensures StartFailed(ops + [op]) <==> StartFailed(ops) || (op.Start? && op.startFails && !EverStarted(ops))
  {
    var more := ops + [op];
    hide EverStarted;
    assert forall i :: 0 <= i <= |ops| ==> more[..i] == ops[..i];
    assert more[|ops|] == op && ops[..|ops|] == ops;
  }

  /**
   After every run each component is what the operations about it come to: started by the
   first start, with that one's error, and stopped by the first shutdown; its sources are
   the reporters of all starts, in order; and it logged the events since the first of them
   joined. What was not created yet was not touched.
   */
  lemma {:induction false} History<K, E>(ops: seq<Op<K, E>>, n: nat)
    ensures Told(Steps(ops).0, About(ops, n), n)
  {
    if ops == [] {
    } else {
      var before, op := ops[..|ops| - 1], ops[|ops| - 1];
      History(before, n);
      hide Told, Steps, About;
      ToldNext(before, op, n);
      assert ops == before + [op];
    }
  }

  ghost predicate Told<K, E>(s: State<K, E>, about: seq<Op<K, E>>, n: nat) {
    if n < |s.components| then Is(s.components[n], about) else about == []
  }

  lemma ToldNext<K, E>(ops: seq<Op<K, E>>, op: Op<K, E>, n: nat)
    requires Told(Steps(ops).0, About(ops, n), n)
    ensures Told(Steps(ops + [op]).0, About(ops + [op], n), n)
  {
    hide Is, Acted, Steps, Step, About;
    var s := Steps(ops).0;
    Appended(ops, op);
    StepActs(s, op, n);
    AboutNext(ops, op, n);
    if n < |s.components| && Concerns(s, op, n) {
      IsNext(s.components[n], About(ops, n), op);
    } else {
      assert About(ops + [op], n) == About(ops, n);
    }
    if op.Load? {
      NewIs<K, E>(op.key);
    }
  }

  lemma NewIs<K, E>(key: K)
    ensures Is<K, E>(Summary(key, false, false, false, [], [], []), [])
  {
  }

  /** After every run the live component of a key is the one with that key that is not stopped. */
  lemma {:induction false} LiveIff<K, E>(ops: seq<Op<K, E>>, key: K, n: nat)
    ensures var s := Steps(ops).0;
            key in s.live && s.live[key] == n <==>
              n < |s.components| && s.components[n].key == key && !s.components[n].stopped
  {
    if ops != [] {
      var before, op := ops[..|ops| - 1], ops[|ops| - 1];
      LiveIff(before, key, n);
      var s := Steps(before).0;
      if op.Load? && key in s.live {
        LiveIff(before, key, s.live[key]);
      }
      if op.Load? && op.key == key && n < |s.components| {
        LiveIff(before, key, n);
      }
      if op.Shutdown? && op.at < |s.handles| {
        var m := s.handles[op.at];
        LiveIff(before, s.components[m].key, m);
      }
    }
  }

  /**
   A load after any run hands out the component with the key that is not stopped. If there
   is none it makes a new one, or fails when that fails.
   */
  lemma LoadResult<K, E>(ops: seq<Op<K, E>>, key: K, fails: bool)
    ensures var (s, t, result) := OneMore(ops, Load(key, fails));
            && (forall n :: 0 <= n < |s.components| && s.components[n].key == key && !s.components[n].stopped ==>
                  result == Loaded(true) && t == s.(handles := s.handles + [n]))
            && ((forall n :: 0 <= n < |s.components| && s.components[n].key == key ==> s.components[n].stopped) ==>
                  if fails then result == Loaded(false) && t == s
                  else
                    && result == Loaded(true) && t.handles == s.handles + [|s.components|]
                    && |t.components| == |s.components| + 1 && s.components <= t.components
                    && t.components[|s.components|].key == key)
  {
    Appended(ops, Load(key, fails));
    var s := Steps(ops).0;
    forall n | 0 <= n < |s.components| && s.components[n].key == key && !s.components[n].stopped
      ensures key in s.live && s.live[key] == n
    {
      LiveIff(ops, key, n);
    }
    if key in s.live {
      LiveIff(ops, key, s.live[key]);
    }
    hide Steps;
  }

  /** A start returns the error of the first start of its component, and a shutdown its own only if it is the first. */
  lemma StartAndStopResults<K, E>(ops: seq<Op<K, E>>, op: Op<K, E>)
    requires (op.Start? || op.Shutdown?) && op.at < |Steps(ops).0.handles|
    ensures var (s, t, result) := OneMore(ops, op);
            && (op.Start? ==> result == Started(StartFailed(About(ops + [op], s.handles[op.at]))))
            && (op.Shutdown? ==> result == Stopped(op.stopFails && !EverStopped(About(ops, s.handles[op.at]))))
  {
    var n := Steps(ops).0.handles[op.at];
    Appended(ops, op);
    History(ops, n);
    History(ops + [op], n);
    hide Steps, About, StartFailed, EverStopped, Joined;
  }

  /** The states before and after one more operation, and its result. */
  function OneMore<K(==), E>(ops: seq<Op<K, E>>, op: Op<K, E>): (State<K, E>, State<K, E>, Result) {
    (Steps(ops).0, Steps(ops + [op]).0, Steps(ops + [op]).1[|ops|])
  }

  lemma Appended<K, E>(ops: seq<Op<K, E>>, op: Op<K, E>)
    ensures var (t, result) := Step(Steps(ops).0, op);
            Steps(ops + [op]).0 == t && Steps(ops + [op]).1[|ops|] == result
  {
    hide Step;
    assert (ops + [op])[..|ops|] == ops;
  }

  // ------------------------------------------------------------------ whole runs

  ghost function Wrappers<K, E>(all: set<Component<K, E>>): set<object>
    reads all
  {
    set c | c in all && c.hostWrapper != null :: c.hostWrapper
  }

  ghost function Rings<K, E>(all: set<Component<K, E>>): set<object>
    reads all, Wrappers(all)
  {
    set c | c in all && c.hostWrapper != null :: c.hostWrapper.previousEvents
  }

  /** The components are valid and have nothing in common. */
  ghost predicate Apart<K, E>(all: set<Component<K, E>>)
    reads all, Wrappers(all), Rings(all)
  {
    && (forall c :: c in all ==> c.Valid())
    && (forall c, d :: c in all && d in all && c != d ==> c.Footprint() !! d.Footprint())
  }

  method StartIn<K, E>(m: Map<K, E>, c: Component<K, E>, reporter: Option<nat>, events: seq<E>, fails: bool)
    returns (err: bool)
    requires m.Valid() && c in m.created && Apart(m.created)
    modifies c.Footprint()
    ensures m.Valid() && Apart(m.created)
    ensures c.Summarized() == Joined(old(c.Summarized()), reporter, events, fails) && err == c.startErr
    ensures fresh(c.Footprint() - old(c.Footprint()))
    ensures forall d :: d in m.created && d != c ==>
              d.Footprint() == old(d.Footprint()) && d.Summarized() == old(d.Summarized())
  {
    hide Component.Valid, Joined;
    ghost var others := m.created - {c};
    assert forall d :: d in others ==> d.Footprint() !! c.Footprint();
    err := c.Start(reporter, events, fails);
    assert forall d :: d in others ==>
      d.Valid() && d.Footprint() == old(d.Footprint()) && d.Footprint() !! c.Footprint();
    assert forall d :: d in m.created ==> d.stopOnce == old(d.stopOnce) && d.stops == old(d.stops);
  }

  method ReportIn<K, E>(m: Map<K, E>, c: Component<K, E>, e: E)
    requires m.Valid() && c in m.created && Apart(m.created)
    modifies c.Footprint()
    ensures m.Valid() && Apart(m.created)
    ensures c.Summarized() == Noted(old(c.Summarized()), e) && c.Footprint() == old(c.Footprint())
    ensures forall d :: d in m.created && d != c ==>
              d.Footprint() == old(d.Footprint()) && d.Summarized() == old(d.Summarized())
  {
    hide HostWrapper.RingHolds, HostWrapper.Valid;
    if c.hostWrapper != null {
      c.hostWrapper.Report(e);
    }
  }

  method ShutdownIn<K, E>(m: Map<K, E>, c: Component<K, E>, fails: bool) returns (err: bool)
    requires m.Valid() && c in m.created && Apart(m.created)
    modifies m`components, c`stopOnce, c`stops
    ensures m.Valid() && Apart(m.created)
    ensures c.Summarized() == old(c.Summarized()).(stopped := true) && (err <==> fails && !old(c.stopOnce))
    ensures m.components == if old(c.stopOnce) then old(m.components) else old(m.components) - {c.key}
    ensures forall d :: d in m.created ==>
              d.Footprint() == old(d.Footprint()) && (d != c ==> d.Summarized() == old(d.Summarized()))
  {
    hide HostWrapper.RingHolds, HostWrapper.Valid;
    err := m.Shutdown(c, fails);
  }

  method LoadIn<K(==), E>(m: Map<K, E>, key: K, fails: bool) returns (c: Option<Component<K, E>>)
    requires m.Valid() && Apart(m.created)
    modifies m
    ensures m.Valid() && Apart(m.created)
    ensures key in old(m.components) ==> c == Some(old(m.components)[key]) && m.created == old(m.created)
    ensures key !in old(m.components) && fails ==> c.None? && m.created == old(m.created)
    ensures key in old(m.components) || fails ==> m.components == old(m.components)
    ensures key !in old(m.components) && !fails ==>
              && c.Some? && fresh(c.value) && c.value.hostWrapper == null && c.value.Footprint() == {c.value}
              && c.value.Summarized() == Summary(key, false, false, false, [], [], [])
              && m.created == old(m.created) + {c.value} && m.components == old(m.components)[key := c.value]
    ensures forall d :: d in old(m.created) ==>
              d.Footprint() == old(d.Footprint()) && d.Summarized() == old(d.Summarized())
  {
    hide HostWrapper.RingHolds, HostWrapper.Valid;
    c := m.LoadOrStore(key, fails);
  }

  /** What holds of every component after any sequence of operations. */
  ghost predicate RanWell<K, E>(all: set<Component<K, E>>)
    reads all, Wrappers(all), Rings(all)
  {
    && (forall c :: c in all ==> c.starts <= 1 && c.stops <= 1)
    && (forall c, d :: c in all && d in all && c != d && c.key == d.key ==> c.stops == 1 || d.stops == 1)
    && (forall c :: c in all && c.hostWrapper != null ==> Informed(c.hostWrapper))
  }

  /** Every registered reporter got the log from at most five events before it joined. */
  ghost predicate Informed<E>(w: HostWrapper<E>)
    reads w
  {
    && |w.received| == |w.joinedAt| == |w.sources|
    && forall i :: 0 <= i < |w.sources| ==>
         w.joinedAt[i] <= |w.log| && w.received[i] == w.log[Max(0, w.joinedAt[i] - RING)..]
  }

  /** All that a run may change: the map, and the components with their hosts. */
  ghost predicate Within<K, E>(m: Map<K, E>, frame: set<object>)
    reads m, m.created, Wrappers(m.created)
  {
    m in frame && forall c :: c in m.created ==> c.Footprint() <= frame
  }

  /** The created components in order, each once. */
  ghost predicate Listed<K, E>(created: set<Component<K, E>>, all: seq<Component<K, E>>) {
    created == (set c | c in all) && forall i, j :: 0 <= i < j < |all| ==> all[i] != all[j]
  }

  ghost predicate LiveAt<K, E>(components: map<K, Component<K, E>>, all: seq<Component<K, E>>, live: map<K, nat>) {
    components.Keys == live.Keys && forall k :: k in live ==> live[k] < |all| && components[k] == all[live[k]]
  }

  ghost predicate HandedOut<K, E>(handles: seq<Component<K, E>>, all: seq<Component<K, E>>, numbers: seq<nat>) {
    |handles| == |numbers| && forall i :: 0 <= i < |handles| ==> numbers[i] < |all| && handles[i] == all[numbers[i]]
  }

  ghost predicate Shown<K, E>(all: seq<Component<K, E>>, summaries: seq<Summary<K, E>>)
    reads all, Wrappers(set c | c in all)
  {
    |all| == |summaries| && forall i :: 0 <= i < |all| ==> all[i] in all && all[i].Summarized() == summaries[i]
  }

  /** The components `all`, the map and the handles are as the state says. */
  ghost predicate Mirrors<K, E>(m: Map<K, E>, all: seq<Component<K, E>>, handles: seq<Component<K, E>>, s: State<K, E>)
    reads m, all, Wrappers(set c | c in all)
  {
    && Proper(s) && Listed(m.created, all) && Shown(all, s.components)
    && LiveAt(m.components, all, s.live) && HandedOut(handles, all, s.handles)
  }

  lemma HandleIn<K, E>(created: set<Component<K, E>>, all: seq<Component<K, E>>,
                       handles: seq<Component<K, E>>, numbers: seq<nat>, i: nat)
    requires Listed(created, all) && HandedOut(handles, all, numbers) && i < |handles|
    ensures |handles| == |numbers| && numbers[i] < |all| && handles[i] == all[numbers[i]] && handles[i] in created
    ensures forall k :: 0 <= k < |all| ==> all[k] in created && (all[k] == handles[i] <==> k == numbers[i])
  {
  }

  lemma AllCreated<K, E>(created: set<Component<K, E>>, all: seq<Component<K, E>>)
    requires Listed(created, all)
    ensures forall k :: 0 <= k < |all| ==> all[k] in created
  {
  }

  lemma ListedNext<K, E>(created: set<Component<K, E>>, all: seq<Component<K, E>>, c: Component<K, E>)
    requires Listed(created, all) && c !in created
    ensures Listed(created + {c}, all + [c])
  {
    var more := all + [c];
    assert forall i :: 0 <= i < |all| ==> all[i] in created;
    assert created + {c} == set d | d in more;
  }

  lemma LiveNext<K, E>(components: map<K, Component<K, E>>, all: seq<Component<K, E>>,
                       live: map<K, nat>, key: K, c: Component<K, E>)
    requires LiveAt(components, all, live)
    ensures LiveAt(components[key := c], all + [c], live[key := |all|])
  {
  }

  lemma LiveLess<K, E>(components: map<K, Component<K, E>>, all: seq<Component<K, E>>, live: map<K, nat>, key: K)
    requires LiveAt(components, all, live)
    ensures LiveAt(components - {key}, all, live - {key})
  {
  }

  lemma HandedNext<K, E>(handles: seq<Component<K, E>>, all: seq<Component<K, E>>,
                         numbers: seq<nat>, c: Component<K, E>)
    requires HandedOut(handles, all, numbers)
    ensures HandedOut(handles + [c], all + [c], numbers + [|all|])
    ensures forall n :: 0 <= n < |all| && all[n] == c ==> HandedOut(handles + [c], all, numbers + [n])
  {
  }

  method StartAt<K(==), E>(m: Map<K, E>, handles: seq<Component<K, E>>, i: nat,
                   reporter: Option<nat>, events: seq<E>, fails: bool,
                           ghost all: seq<Component<K, E>>, ghost s: State<K, E>, ghost frame: set<object>)
    returns (result: Result, ghost f: set<object>)
    requires m.Valid() && Apart(m.created) && Within(m, frame) && Mirrors(m, all, handles, s) && i < |handles|
    modifies frame
    ensures m.Valid() && Apart(m.created) && Within(m, f) && fresh(f - frame)
    ensures var (t, r) := Step(s, Start(i, reporter, events, fails)); Mirrors(m, all, handles, t) && result == r
  {
    hide Apart, Map.Valid, Joined, Listed, LiveAt, HandedOut;
    HandleIn(m.created, all, handles, s.handles, i);
    var err := StartIn(m, handles[i], reporter, events, fails);
    f := frame + handles[i].Footprint();
    result := Started(err);
  }

  method ReportAt<K(==), E>(m: Map<K, E>, handles: seq<Component<K, E>>, i: nat, e: E,
                            ghost all: seq<Component<K, E>>, ghost s: State<K, E>, ghost frame: set<object>)
    requires m.Valid() && Apart(m.created) && Within(m, frame) && Mirrors(m, all, handles, s) && i < |handles|
    modifies frame
    ensures m.Valid() && Apart(m.created) && Within(m, frame)
    ensures Mirrors(m, all, handles, Step(s, Report(i, e)).0)
  {
    hide Apart, Map.Valid, Noted, Listed, LiveAt, HandedOut;
    HandleIn(m.created, all, handles, s.handles, i);
    ReportIn(m, handles[i], e);
  }

  method ShutdownAt<K(==), E>(m: Map<K, E>, handles: seq<Component<K, E>>, i: nat, fails: bool,
                              ghost all: seq<Component<K, E>>, ghost s: State<K, E>, ghost frame: set<object>)
    returns (result: Result)
    requires m.Valid() && Apart(m.created) && Within(m, frame) && Mirrors(m, all, handles, s) && i < |handles|
    modifies frame
    ensures m.Valid() && Apart(m.created) && Within(m, frame)
    ensures var (t, r) := Step(s, Shutdown(i, fails)); Mirrors(m, all, handles, t) && result == r
  {
    hide Apart, Map.Valid, Listed, LiveAt, HandedOut;
    HandleIn(m.created, all, handles, s.handles, i);
    LiveLess(m.components, all, s.live, handles[i].key);
    assert handles[i] in handles[i].Footprint();
    var err := ShutdownIn(m, handles[i], fails);
    result := Stopped(err);
  }

  method LoadNext<K(==), E>(m: Map<K, E>, handles: seq<Component<K, E>>, key: K, fails: bool,
                            ghost all: seq<Component<K, E>>, ghost s: State<K, E>, ghost frame: set<object>)
    returns (handles': seq<Component<K, E>>, result: Result, ghost all': seq<Component<K, E>>, ghost f: set<object>)
    requires m.Valid() && Apart(m.created) && Within(m, frame) && Mirrors(m, all, handles, s)
    modifies m
    ensures m.Valid() && Apart(m.created) && Within(m, f) && fresh(f - frame)
    ensures var (t, r) := Step(s, Load(key, fails)); Mirrors(m, all', handles', t) && result == r
  {
    hide Apart, Map.Valid, Listed, LiveAt, HandedOut;
    LiveHere(m.components, all, s.live, key);
    AllCreated(m.created, all);
    ghost var created, components := m.created, m.components;
    var known := key in m.components;
    var c := LoadIn(m, key, fails);
    all' := all;
    if c.None? {
      return handles, Loaded(false), all', frame;
    }
    handles', result, f := handles + [c.value], Loaded(true), frame + {c.value};
    HandedNext(handles, all, s.handles, c.value);
    if !known {
      all' := all + [c.value];
      ListedNext(created, all, c.value);
      LiveNext(components, all, s.live, key, c.value);
    }
  }

  lemma LiveHere<K, E>(components: map<K, Component<K, E>>, all: seq<Component<K, E>>, live: map<K, nat>, key: K)
    requires LiveAt(components, all, live)
    ensures key in components <==> key in live
    ensures key in live ==> live[key] < |all| && components[key] == all[live[key]]
  {
  }

  /** One operation does to the components what the step does to the state. */
  method Perform<K(==), E>(m: Map<K, E>, handles: seq<Component<K, E>>, op: Op<K, E>,
                           ghost all: seq<Component<K, E>>, ghost s: State<K, E>, ghost frame: set<object>)
    returns (handles': seq<Component<K, E>>, result: Result, ghost all': seq<Component<K, E>>, ghost f: set<object>)
    requires m.Valid() && Apart(m.created) && Within(m, frame) && Mirrors(m, all, handles, s)
    modifies frame
    ensures m.Valid() && Apart(m.created) && Within(m, f) && fresh(f - frame)
    ensures var (t, r) := Step(s, op); Mirrors(m, all', handles', t) && result == r
  {
    hide Apart, Map.Valid, Joined, Noted, Listed, LiveAt;
    handles', all', f := handles, all, frame;
    match op {
      case Load(key, fails) =>
        handles', result, all', f := LoadNext(m, handles, key, fails, all, s, frame);
      case Start(i, reporter, events, fails) =>
        if i < |handles| {
          result, f := StartAt(m, handles, i, reporter, events, fails, all, s, frame);
        } else {
          result := NoSuchHandle;
        }
      case Report(i, e) =>
        if i < |handles| {
          ReportAt(m, handles, i, e, all, s, frame);
          result := Reported;
        } else {
          result := NoSuchHandle;
        }
      case Shutdown(i, fails) =>
        if i < |handles| {
          result := ShutdownAt(m, handles, i, fails, all, s, frame);
        } else {
          result := NoSuchHandle;
        }
    }
  }

  lemma ValidRanWell<K, E>(m: Map<K, E>)
    requires m.Valid() && Apart(m.created)
    ensures RanWell(m.created)
  {
    hide HostWrapper.RingHolds;
  }

  /**
   Any run: every operation returns what the run as a function says, and the components
   end as it says. Each key has at most one live component, no component is started or
   stopped twice, and every reporter has the log from at most five events before it
   joined on.
   */
  method Run<K(==), E>(ops: seq<Op<K, E>>)
    returns (m: Map<K, E>, handles: seq<Component<K, E>>, results: seq<Result>, ghost all: seq<Component<K, E>>)
    ensures results == Steps(ops).1 && Mirrors(m, all, handles, Steps(ops).0)
    ensures RanWell(m.created)
  {
    hide Apart, Map.Valid, RanWell, Mirrors, Step, Steps;
    m := NewMap();
    handles, results, all := [], [], [];
    NothingDone(m);
    ghost var frame: set<object> := {m};
    assert ops[..0] == [];
    for i := 0 to |ops|
      invariant m.Valid() && Apart(m.created) && Within(m, frame) && fresh(frame)
      invariant results == Steps(ops[..i]).1 && Mirrors(m, all, handles, Steps(ops[..i]).0)
    {
      StepsNext(ops, i);
      var result;
      handles, result, all, frame := Perform(m, handles, ops[i], all, Steps(ops[..i]).0, frame);
      results := results + [result];
    }
    assert ops[..|ops|] == ops;
    ValidRanWell(m);
  }

  lemma NothingDone<K, E>(m: Map<K, E>)
    requires m.components == map[] && m.created == {}
    ensures Steps<K, E>([]) == (State([], map[], []), []) && Mirrors(m, [], [], State([], map[], []))
  {
  }

  method NewMap<K(==), E>() returns (m: Map<K, E>)
    ensures fresh(m) && m.Valid() && Apart(m.created) && m.components == map[] && m.created == {}
  {
    m := new Map();
  }
}
