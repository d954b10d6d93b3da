/**
 Fan-out of one payload to many consumers (internal/fanoutconsumer): who gets the
 original and who a clone, and when the payload becomes read-only. The payload type is a
 parameter, since logs, metrics, traces and profiles share the code.
 */
module Fanout {

  class Payload<T> {
    var content: T
    var readOnly: bool

    constructor (content: T)
      ensures this.content == content && !readOnly
    {
      this.content, readOnly := content, false;
    }
  }

  /** A consumer: a component that declares whether it mutates, or a fan-out. */
  datatype Consumer =
    | Leaf(id: nat, mutates: bool)
    | Fan(mutable: seq<Consumer>, readonly: seq<Consumer>)

  /** Capabilities().MutatesData. */
  predicate Mutates(c: Consumer) {
    match c
    case Leaf(_, mutates) => mutates
    case Fan(mutable, readonly) => |mutable| > 0 && |readonly| == 0
  }

  /** Every fan-out of the tree has its consumers in the right lists. */
  predicate Built(c: Consumer)
    decreases c
  {
    c.Fan? ==>
      && (forall i :: 0 <= i < |c.mutable| ==> Mutates(c.mutable[i]) && Built(c.mutable[i]))
      && (forall i :: 0 <= i < |c.readonly| ==> !Mutates(c.readonly[i]) && Built(c.readonly[i]))
  }

  /** The leaves below a consumer in the order in which they are called. */
  function Order(c: Consumer): seq<Consumer>
    decreases c
  {
    match c
    case Leaf(_, _) => [c]
    case Fan(mutable, readonly) => OrderAll(mutable) + OrderAll(readonly)
  }

  function OrderAll(cs: seq<Consumer>): seq<Consumer>
    decreases cs
  {
    if cs == [] then [] else Order(cs[0]) + OrderAll(cs[1..])
  }

  /** The consumers whose MutatesData is `flag`, in order. */
  function Those(cs: seq<Consumer>, flag: bool): (r: seq<Consumer>)
    ensures forall i :: 0 <= i < |r| ==> r[i] in cs && Mutates(r[i]) == flag
  {
    if cs == [] then []
    else if Mutates(cs[|cs| - 1]) == flag then Those(cs[..|cs| - 1], flag) + [cs[|cs| - 1]]
    else Those(cs[..|cs| - 1], flag)
  }

  /** How many of the first `i` consumers have MutatesData equal to `flag`. */
  function Ahead(cs: seq<Consumer>, flag: bool, i: nat): nat
    requires i <= |cs|
  {
    |set j | 0 <= j < i && Mutates(cs[j]) == flag|
  }

  /** They are all taken, none is taken twice, and they stay in the order in which they were given. */
  lemma ThoseInOrder(cs: seq<Consumer>, flag: bool, i: nat)
    requires i < |cs|
    ensures |Those(cs, flag)| == Ahead(cs, flag, |cs|)
    ensures Mutates(cs[i]) == flag ==>
              Ahead(cs, flag, i) < |Those(cs, flag)| && Those(cs, flag)[Ahead(cs, flag, i)] == cs[i]
  {
    ThoseCount(cs, flag, |cs|);
    assert cs[..|cs|] == cs;
    if Mutates(cs[i]) == flag {
      ThoseCount(cs, flag, i);
      ThosePrefix(cs, flag, i + 1);
      assert cs[..i + 1][..i] == cs[..i];
    }
  }

  lemma {:induction false} ThoseCount(cs: seq<Consumer>, flag: bool, n: nat)
    requires n <= |cs|
    ensures |Those(cs[..n], flag)| == Ahead(cs, flag, n)
  {
    if n > 0 {
      ThoseCount(cs, flag, n - 1);
      AheadNext(cs, flag, n - 1);
      assert cs[..n][..n - 1] == cs[..n - 1];
      hide Ahead;
    }
  }

  lemma {:induction false} ThosePrefix(cs: seq<Consumer>, flag: bool, n: nat)
    requires n <= |cs|
    ensures Those(cs[..n], flag) <= Those(cs, flag)
  {
    if n < |cs| {
      var last := |cs| - 1;
      ThosePrefix(cs[..last], flag, n);
      assert cs[..last][..n] == cs[..n];
    } else {
      assert cs[..n] == cs;
    }
  }

  lemma AheadNext(cs: seq<Consumer>, flag: bool, i: nat)
    requires i < |cs|
    ensures Ahead(cs, flag, i + 1) == Ahead(cs, flag, i) + if Mutates(cs[i]) == flag then 1 else 0
  {
    var before, after := (set j | 0 <= j < i && Mutates(cs[j]) == flag),
                         set j | 0 <= j < i + 1 && Mutates(cs[j]) == flag;
    assert after == if Mutates(cs[i]) == flag then before + {i} else before;
  }

  /** Components are called in the order given, those that mutate before all others. */
  lemma {:induction false} ComponentsInOrder(cs: seq<Consumer>)
    requires forall i :: 0 <= i < |cs| ==> cs[i].Leaf?
    ensures OrderAll(cs) == cs
  {
    if cs != [] {
      ComponentsInOrder(cs[1..]);
    }
  }

  /** Below a consumer that declares that it mutates there is a leaf, and all leaves do. */
  lemma {:induction false} AllMutate(c: Consumer)
    requires Built(c) && Mutates(c)
    ensures Order(c) != [] && forall i :: 0 <= i < |Order(c)| ==> Mutates(Order(c)[i])
    decreases c, 0
  {
    if c.Fan? {
      assert OrderAll(c.readonly) == [];
      AllOfThemMutate(c.mutable);
    }
  }

  lemma {:induction false} AllOfThemMutate(cs: seq<Consumer>)
    requires forall i :: 0 <= i < |cs| ==> Built(cs[i]) && Mutates(cs[i])
    ensures (cs != [] ==> OrderAll(cs) != []) && forall i :: 0 <= i < |OrderAll(cs)| ==> Mutates(OrderAll(cs)[i])
    decreases cs
  {
    if cs != [] {
      AllMutate(cs[0]);
      AllOfThemMutate(cs[1..]);
    }
  }

  lemma {:induction false} OrderAllConcat(a: seq<Consumer>, b: seq<Consumer>)
    ensures OrderAll(a + b) == OrderAll(a) + OrderAll(b)
  {
    if a == [] {
      assert a + b == b;
    } else {
      assert (a + b)[1..] == a[1..] + b;
      OrderAllConcat(a[1..], b);
    }
  }

  lemma OrderAllSnoc(a: seq<Consumer>, c: Consumer)
    ensures OrderAll(a + [c]) == OrderAll(a) + Order(c)
  {
    OrderAllConcat(a, [c]);
    OrderAllOne(c);
  }

  /** Splitting consumers by capability neither loses nor repeats a leaf. */
  lemma {:induction false} SplitKeepsLeaves(cs: seq<Consumer>)
    ensures multiset(OrderAll(Those(cs, true)) + OrderAll(Those(cs, false))) == multiset(OrderAll(cs))
  {
    if cs != [] {
      var init, last := cs[..|cs| - 1], cs[|cs| - 1];
      assert cs == init + [last];
      SplitKeepsLeaves(init);
      OrderAllSnoc(init, last);
      OrderAllSnoc(Those(init, Mutates(last)), last);
    }
  }

  lemma OrderAllOne(c: Consumer)
    ensures OrderAll([c]) == Order(c)
  {
    assert OrderAll([c]) == Order(c) + [];
  }

  lemma FanBuilt(c: Consumer)
    requires c.Fan?
    requires forall i :: 0 <= i < |c.mutable| ==> Mutates(c.mutable[i]) && Built(c.mutable[i])
    requires forall i :: 0 <= i < |c.readonly| ==> !Mutates(c.readonly[i]) && Built(c.readonly[i])
    ensures Built(c)
  {
  }

  /** NewLogs. */
  method NewFanout(cs: seq<Consumer>) returns (c: Consumer)
    requires forall i :: 0 <= i < |cs| ==> Built(cs[i])
    ensures c == if |cs| == 1 && !Mutates(cs[0]) then cs[0] else Fan(Those(cs, true), Those(cs, false))
    ensures Built(c)
    ensures multiset(Order(c)) == multiset(OrderAll(cs))
  {
    hide OrderAll, Built;
    SplitKeepsLeaves(cs);
    if |cs| == 1 && !Mutates(cs[0]) {
      OrderAllOne(cs[0]);
      assert cs == [cs[0]];
      return cs[0];
    }
    var mutable, readonly := [], [];
    for i := 0 to |cs|
      invariant mutable == Those(cs[..i], true) && readonly == Those(cs[..i], false)
    {
      assert cs[..i + 1][..i] == cs[..i];
      if Mutates(cs[i]) {
        mutable := mutable + [cs[i]];
      } else {
        readonly := readonly + [cs[i]];
      }
    }
    assert cs[..|cs|] == cs;
    c := Fan(mutable, readonly);
    FanBuilt(c);
  }

  /** One call of a leaf: the payload it was handed, and the content it saw. */
  datatype Delivery<T> = Delivery(leaf: Consumer, payload: Payload<T>, seen: T)

  /** The payloads that were handed out. */
  ghost function Handed<T>(calls: seq<Delivery<T>>): set<Payload<T>> {
    set d | d in calls :: d.payload
  }

  /** All leaves that hold `p` have MutatesData equal to `flag`. */
  ghost predicate HeldBy<T>(calls: seq<Delivery<T>>, p: Payload<T>, flag: bool) {
    forall i :: 0 <= i < |calls| && calls[i].payload == p ==> Mutates(calls[i].leaf) == flag
  }

  /**
   The deliveries call these leaves in this order with this content. A mutating leaf
   holds a payload that no other leaf holds and that is not read-only. What the others
   hold still has the content, and is read-only when two of them hold it.
   */
  ghost predicate Delivered<T>(calls: seq<Delivery<T>>, leaves: seq<Consumer>, content: T)
    reads Handed(calls)
  {
    && |calls| == |leaves|
    && (forall i :: 0 <= i < |calls| ==>
          && calls[i].payload in Handed(calls)
          && calls[i].leaf == leaves[i] && calls[i].leaf.Leaf? && calls[i].seen == content
          && if Mutates(calls[i].leaf) then !calls[i].payload.readOnly else calls[i].payload.content == content)
    && (forall i, j :: 0 <= i < j < |calls| && calls[i].payload == calls[j].payload ==>
          !Mutates(calls[i].leaf) && !Mutates(calls[j].leaf) && calls[i].payload.readOnly)
  }

  /** The leaves that fail, as multierr collects them. */
  function Failing(leaves: seq<Consumer>, fails: Consumer -> bool): seq<Consumer> {
    if leaves == [] then []
    else if fails(leaves[0]) then [leaves[0]] + Failing(leaves[1..], fails)
    else Failing(leaves[1..], fails)
  }

  /** Exactly the calls of leaves that fail are collected, as often as they are made. */
  lemma {:induction false} FailingExact(leaves: seq<Consumer>, fails: Consumer -> bool, c: Consumer)
    ensures multiset(Failing(leaves, fails))[c] == if fails(c) then multiset(leaves)[c] else 0
  {
    if leaves != [] {
      FailingExact(leaves[1..], fails, c);
      assert leaves == [leaves[0]] + leaves[1..];
    }
  }

  lemma {:induction false} FailingConcat(a: seq<Consumer>, b: seq<Consumer>, fails: Consumer -> bool)
    ensures Failing(a + b, fails) == Failing(a, fails) + Failing(b, fails)
  {
    if a == [] {
      assert a + b == b;
    } else {
      assert (a + b)[1..] == a[1..] + b;
      FailingConcat(a[1..], b, fails);
    }
  }

  /** Deliveries put after one another; what both handed out is read-only and held by readers. */
  lemma DeliveredConcat<T>(a: seq<Delivery<T>>, la: seq<Consumer>, b: seq<Delivery<T>>, lb: seq<Consumer>, content: T)
    requires Delivered(a, la, content) && Delivered(b, lb, content)
    requires forall p :: p in Handed(a) && p in Handed(b) ==> HeldBy(a, p, false) && HeldBy(b, p, false) && p.readOnly
    ensures Delivered(a + b, la + lb, content)
    ensures Handed(a + b) == Handed(a) + Handed(b)
    ensures forall p, flag :: HeldBy(a, p, flag) && HeldBy(b, p, flag) ==> HeldBy(a + b, p, flag)
  {
    var c := a + b;
    forall i, j | 0 <= i < j < |c| && c[i].payload == c[j].payload
      ensures !Mutates(c[i].leaf) && !Mutates(c[j].leaf) && c[i].payload.readOnly
    {
      if i < |a| <= j {
        assert a[i] in a && b[j - |a|] in b;
        assert c[i].payload in Handed(a) && c[i].payload in Handed(b);
      }
    }
  }

  /** Every leaf that does not mutate has the payload itself. */
  ghost predicate ReadersHold<T>(calls: seq<Delivery<T>>, p: Payload<T>) {
    forall i :: 0 <= i < |calls| && !Mutates(calls[i].leaf) ==> calls[i].payload == p
  }

  /** The last leaf, and no other, has the payload itself. */
  ghost predicate LastHolds<T>(calls: seq<Delivery<T>>, p: Payload<T>) {
    calls != [] && forall i :: 0 <= i < |calls| ==> (calls[i].payload == p <==> i == |calls| - 1)
  }

  lemma HoldsConcat<T>(a: seq<Delivery<T>>, b: seq<Delivery<T>>, p: Payload<T>)
    ensures ReadersHold(a, p) && ReadersHold(b, p) ==> ReadersHold(a + b, p)
    ensures p !in Handed(a) && LastHolds(b, p) ==> LastHolds(a + b, p)
  {
    assert forall i :: 0 <= i < |a| ==> a[i] in a && a[i].payload in Handed(a);
  }

  /** Where all leaves mutate, there is no reader. */
  lemma NoReaders<T>(calls: seq<Delivery<T>>, cs: seq<Consumer>, content: T, p: Payload<T>)
    requires Delivered(calls, OrderAll(cs), content)
    requires forall i :: 0 <= i < |cs| ==> Built(cs[i]) && Mutates(cs[i])
    ensures ReadersHold(calls, p)
  {
    AllOfThemMutate(cs);
    hide OrderAll, Built;
  }

  lemma NotHeld<T>(calls: seq<Delivery<T>>, p: Payload<T>, flag: bool)
    requires p !in Handed(calls)
    ensures HeldBy(calls, p, flag)
  {
    assert forall i :: 0 <= i < |calls| ==> calls[i] in calls && calls[i].payload in Handed(calls);
  }

  method Clone<T>(ld: Payload<T>) returns (r: Payload<T>)
    ensures fresh(r) && r.content == ld.content && !r.readOnly
  {
    r := new Payload(ld.content);
  }

  /** A leaf is called, and changes what it got if it declares that it does. */
  method ConsumeLeaf<T>(c: Consumer, ld: Payload<T>, mutate: (Consumer, T) -> T, fails: Consumer -> bool)
    returns (calls: seq<Delivery<T>>, errs: seq<Consumer>)
    requires c.Leaf? && (c.mutates ==> !ld.readOnly)
    modifies ld
    ensures Delivered(calls, [c], old(ld.content)) && Handed(calls) == {ld} && HeldBy(calls, ld, c.mutates)
    ensures ReadersHold(calls, ld) && LastHolds(calls, ld)
    ensures errs == Failing([c], fails)
    ensures ld.content == (if c.mutates then mutate(c, old(ld.content)) else old(ld.content))
            && ld.readOnly == old(ld.readOnly)
  {
    calls := [Delivery(c, ld, ld.content)];
    if c.mutates {
      ld.content := mutate(c, ld.content);
    }
    errs := if fails(c) then [c] else [];
  }

  /**
   ConsumeLogs on a whole tree of consumers. `mutate` is what a mutating leaf does to
   the content it gets. The caller's payload keeps its content unless the consumer
   declares that it mutates and the payload is not read-only.
   */
  method Consume<T>(c: Consumer, ld: Payload<T>, mutate: (Consumer, T) -> T, fails: Consumer -> bool)
    returns (calls: seq<Delivery<T>>, errs: seq<Consumer>)
    requires Built(c)
    requires c.Leaf? && c.mutates ==> !ld.readOnly
    modifies ld
    ensures Delivered(calls, Order(c), old(ld.content))
    ensures errs == Failing(Order(c), fails)
    ensures forall p :: p in Handed(calls) ==> p == ld || fresh(p)
    ensures !Mutates(c) || old(ld.readOnly) ==> ld.content == old(ld.content)
    ensures Mutates(c) || old(ld.readOnly) ==> ld.readOnly == old(ld.readOnly)
    ensures HeldBy(calls, ld, Mutates(c))
    ensures ReadersHold(calls, ld) && (Mutates(c) && !old(ld.readOnly) ==> LastHolds(calls, ld))
    ensures Mutates(c) && old(ld.readOnly) ==> ld !in Handed(calls)
    decreases c, 2
  {
    hide Built, OrderAll, Failing, Delivered, HeldBy, ReadersHold, LastHolds;
    match c {
      case Leaf(_, _) =>
        calls, errs := ConsumeLeaf(c, ld, mutate, fails);
      case Fan(mutable, readonly) =>
        calls, errs := ConsumeMutable(c, ld, mutate, fails);
        if |readonly| == 0 {
          NoneLeft(mutable);
        } else {
          var more, moreErrs := ConsumeReadonly(c, ld, mutate, fails);
          NotHeld(calls, ld, false);
          DeliveredConcat(calls, OrderAll(mutable), more, OrderAll(readonly), old(ld.content));
          FailingConcat(OrderAll(mutable), OrderAll(readonly), fails);
          HoldsConcat(calls, more, ld);
          calls, errs := calls + more, errs + moreErrs;
        }
    }
  }

  lemma NoneLeft(cs: seq<Consumer>)
    ensures OrderAll([]) == [] && OrderAll(cs) + [] == OrderAll(cs)
  {
  }

  /** The part of ConsumeLogs for the mutating consumers: clones for all but perhaps the last. */
  method ConsumeMutable<T>(c: Consumer, ld: Payload<T>, mutate: (Consumer, T) -> T, fails: Consumer -> bool)
    returns (calls: seq<Delivery<T>>, errs: seq<Consumer>)
    requires c.Fan? && Built(c)
    modifies ld
    ensures Delivered(calls, OrderAll(c.mutable), old(ld.content))
    ensures errs == Failing(OrderAll(c.mutable), fails)
    ensures forall p :: p in Handed(calls) ==> (p == ld && Mutates(c)) || fresh(p)
    ensures !Mutates(c) || old(ld.readOnly) ==> ld.content == old(ld.content)
    ensures ld.readOnly == old(ld.readOnly)
    ensures HeldBy(calls, ld, Mutates(c))
    ensures ReadersHold(calls, ld) && (Mutates(c) && !old(ld.readOnly) ==> LastHolds(calls, ld))
    ensures Mutates(c) && old(ld.readOnly) ==> ld !in Handed(calls)
    decreases c, 1
  {
    BuiltParts(c);
    hide Built, Order, HeldBy, ReadersHold, LastHolds;
    calls, errs := [], [];
    NotHeld(calls, ld, Mutates(c));
    ghost var content := ld.content;
    if |c.mutable| > 0 {
      var last := |c.mutable| - 1;
      for i := 0 to last
        invariant ld.content == content && ld.readOnly == old(ld.readOnly)
        invariant Delivered(calls, OrderAll(c.mutable[..i]), content)
        invariant errs == Failing(OrderAll(c.mutable[..i]), fails)
        invariant forall p :: p in Handed(calls) ==> fresh(p)
      {
        hide Delivered, OrderAll, Failing;
        var clone := Clone(ld);
        calls, errs := ConsumeNext(c, i, clone, calls, errs, content, mutate, fails);
      }
      hide Delivered, OrderAll, Failing;
      assert c.mutable[..last + 1] == c.mutable;
      if |c.readonly| == 0 && !ld.readOnly {
        calls, errs := ConsumeNext(c, last, ld, calls, errs, content, mutate, fails);
      } else {
        var clone := Clone(ld);
        calls, errs := ConsumeNext(c, last, clone, calls, errs, content, mutate, fails);
        NotHeld(calls, ld, Mutates(c));
      }
      NoReaders(calls, c.mutable, content, ld);
    } else {
      NoCalls<T>(ld);
    }
  }

  lemma BuiltParts(c: Consumer)
    requires c.Fan? && Built(c)
    ensures forall i :: 0 <= i < |c.mutable| ==> Built(c.mutable[i]) && Mutates(c.mutable[i])
  {
  }

  lemma NoCalls<T>(p: Payload<T>)
    ensures ReadersHold([], p)
  {
  }

  /** One more mutating consumer is called, with a payload that was not handed out before. */
  method ConsumeNext<T>(c: Consumer, i: nat, ld: Payload<T>, before: seq<Delivery<T>>, errsBefore: seq<Consumer>,
                        ghost content: T, mutate: (Consumer, T) -> T, fails: Consumer -> bool)
    returns (calls: seq<Delivery<T>>, errs: seq<Consumer>)
    requires c.Fan? && Built(c) && i < |c.mutable|
    requires ld !in Handed(before) && ld.content == content && !ld.readOnly
    requires Delivered(before, OrderAll(c.mutable[..i]), content)
    requires errsBefore == Failing(OrderAll(c.mutable[..i]), fails)
    modifies ld
    ensures Delivered(calls, OrderAll(c.mutable[..i + 1]), content)
    ensures errs == Failing(OrderAll(c.mutable[..i + 1]), fails)
    ensures forall p :: p in Handed(calls) ==> p in Handed(before) || p == ld || fresh(p)
    ensures !ld.readOnly && HeldBy(calls, ld, true) && LastHolds(calls, ld)
    decreases c, 0
  {
    hide OrderAll, Order, Failing, Delivered, HeldBy, ReadersHold, LastHolds;
    var more, moreErrs := Consume(c.mutable[i], ld, mutate, fails);
    HoldsConcat(before, more, ld);
    assert c.mutable[..i + 1] == c.mutable[..i] + [c.mutable[i]];
    OrderAllSnoc(c.mutable[..i], c.mutable[i]);
    FailingConcat(OrderAll(c.mutable[..i]), Order(c.mutable[i]), fails);
    DeliveredConcat(before, OrderAll(c.mutable[..i]), more, Order(c.mutable[i]), content);
    NotHeld(before, ld, true);
    calls, errs := before + more, errsBefore + moreErrs;
  }

  /** A consumer that does not mutate gets a payload; earlier deliveries stay what they are. */
  method ConsumeAfter<T>(c: Consumer, ld: Payload<T>, ghost before: seq<Delivery<T>>, ghost leaves: seq<Consumer>,
                         mutate: (Consumer, T) -> T, fails: Consumer -> bool)
    returns (calls: seq<Delivery<T>>, errs: seq<Consumer>)
    requires Built(c) && !Mutates(c) && (before == [] || ld.readOnly)
    requires Delivered(before, leaves, ld.content)
    modifies ld
    ensures Delivered(calls, Order(c), ld.content) && Delivered(before, leaves, ld.content)
    ensures errs == Failing(Order(c), fails)
    ensures forall p :: p in Handed(calls) ==> p == ld || fresh(p)
    ensures ld.content == old(ld.content) && (old(ld.readOnly) ==> ld.readOnly)
    ensures HeldBy(calls, ld, false) && ReadersHold(calls, ld)
    decreases c, 3
  {
    hide Order, Failing, HeldBy, Built, ReadersHold, LastHolds;
    calls, errs := Consume(c, ld, mutate, fails);
  }

  /** One more of the other consumers is called with the shared payload. */
  method ConsumeShared<T>(c: Consumer, i: nat, ld: Payload<T>, before: seq<Delivery<T>>, errsBefore: seq<Consumer>,
                          ghost content: T, mutate: (Consumer, T) -> T, fails: Consumer -> bool)
    returns (calls: seq<Delivery<T>>, errs: seq<Consumer>)
    requires c.Fan? && Built(c) && i < |c.readonly|
    requires ld.content == content && HeldBy(before, ld, false) && (i == 0 ==> before == [])
    requires (i > 0 ==> ld.readOnly) && ReadersHold(before, ld)
    requires Delivered(before, OrderAll(c.readonly[..i]), content)
    requires errsBefore == Failing(OrderAll(c.readonly[..i]), fails)
    modifies ld
    ensures Delivered(calls, OrderAll(c.readonly[..i + 1]), content)
    ensures errs == Failing(OrderAll(c.readonly[..i + 1]), fails)
    ensures forall p :: p in Handed(calls) ==> p in Handed(before) || p == ld || fresh(p)
    ensures ld.content == content && HeldBy(calls, ld, false) && ReadersHold(calls, ld)
    ensures old(ld.readOnly) ==> ld.readOnly
    decreases c, 0
  {
    hide OrderAll, Order, Failing, HeldBy, Delivered, ReadersHold;
    var more, moreErrs := ConsumeAfter(c.readonly[i], ld, before, OrderAll(c.readonly[..i]), mutate, fails);
    DeliveredConcat(before, OrderAll(c.readonly[..i]), more, Order(c.readonly[i]), content);
    FailingConcat(OrderAll(c.readonly[..i]), Order(c.readonly[i]), fails);
    assert c.readonly[..i + 1] == c.readonly[..i] + [c.readonly[i]];
    OrderAllSnoc(c.readonly[..i], c.readonly[i]);
    HoldsConcat(before, more, ld);
    calls, errs := before + more, errsBefore + moreErrs;
  }

  /** The part of ConsumeLogs for the other consumers, which share the payload itself. */
  method ConsumeReadonly<T>(c: Consumer, ld: Payload<T>, mutate: (Consumer, T) -> T, fails: Consumer -> bool)
    returns (calls: seq<Delivery<T>>, errs: seq<Consumer>)
    requires c.Fan? && Built(c)
    modifies ld
    ensures Delivered(calls, OrderAll(c.readonly), old(ld.content))
    ensures errs == Failing(OrderAll(c.readonly), fails)
    ensures forall p :: p in Handed(calls) ==> (p == ld && |c.readonly| > 0) || fresh(p)
    ensures ld.content == old(ld.content)
    ensures old(ld.readOnly) || |c.readonly| == 0 ==> ld.readOnly == old(ld.readOnly)
    ensures HeldBy(calls, ld, false) && ReadersHold(calls, ld)
    ensures |c.readonly| == 0 ==> calls == []
    decreases c, 1
  {
    hide Order, HeldBy, ReadersHold;
    calls, errs := [], [];
    NoCalls<T>(ld);
    NotHeld(calls, ld, false);
    ghost var content := ld.content;
    if |c.readonly| > 1 && !ld.readOnly {
      ld.readOnly := true;
    }
    for i := 0 to |c.readonly|
      invariant ld.content == content
      invariant |c.readonly| > 1 || old(ld.readOnly) ==> ld.readOnly
      invariant i == 0 ==> calls == [] && (|c.readonly| <= 1 ==> ld.readOnly == old(ld.readOnly))
      invariant Delivered(calls, OrderAll(c.readonly[..i]), content)
      invariant errs == Failing(OrderAll(c.readonly[..i]), fails)
      invariant forall p :: p in Handed(calls) ==> p == ld || fresh(p)
      invariant HeldBy(calls, ld, false) && ReadersHold(calls, ld)
    {
      hide Delivered, OrderAll, Failing, Built;
      calls, errs := ConsumeShared(c, i, ld, calls, errs, content, mutate, fails);
    }
    assert c.readonly[..|c.readonly|] == c.readonly;
  }
}
