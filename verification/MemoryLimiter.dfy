/**
 The memory limiter (internal/memorylimiter): configuration, limits, and the tick that
 reads memory, forces garbage collections under two coupled backoffs, and decides
 whether data is refused.
 */
module MemoryLimiter {
  import opened Common

  const MIB := 1024 * 1024

  type uint32 = x: int | 0 <= x < 0x1_0000_0000

  /** Arithmetic on uint64 and on durations wraps. */
  function Wrap64(x: int): uint64 {
    x % TWO64
  }

  function WrapDuration(x: int): int {
    (x + TWO63) % TWO64 - TWO63
  }

  // -------------------------------------------------------------------- configuration

  /** Durations are in nanoseconds. `floor` is 95% of the check interval, as the code rounds it. */
  datatype Config = Config(checkInterval: int, floor: int,
                           minSoft: int, minHard: int, maxSoft: int, maxHard: int, gcEnabled: bool,
                           limitMiB: uint32, spikeMiB: uint32, limitPercent: uint32, spikePercent: uint32)

  datatype ConfigError =
    | NoError | CheckIntervalOutOfRange | InconsistentGCMinInterval | NegativeGCMaxSoftInterval
    | NegativeGCMaxHardInterval | InconsistentGCMaxSoftInterval | InconsistentGCMaxHardInterval
    | InconsistentGCMaxInterval | LimitOutOfRange | LimitPercentageOutOfRange
    | SpikeLimitOutOfRange | SpikeLimitPercentageOutOfRange

  /** Config.Validate. */
  function Validate(cfg: Config): ConfigError {
    if cfg.checkInterval <= 0 then CheckIntervalOutOfRange
    else if cfg.minSoft < cfg.minHard then InconsistentGCMinInterval
    else if cfg.maxSoft < 0 then NegativeGCMaxSoftInterval
    else if cfg.maxHard < 0 then NegativeGCMaxHardInterval
    else if cfg.maxSoft > 0 && cfg.maxSoft < cfg.minSoft then InconsistentGCMaxSoftInterval
    else if cfg.maxHard > 0 && cfg.maxHard < cfg.minHard then InconsistentGCMaxHardInterval
    else if cfg.maxSoft > 0 && cfg.maxHard > 0 && cfg.maxSoft < cfg.maxHard then InconsistentGCMaxInterval
    else if cfg.limitMiB == 0 && cfg.limitPercent == 0 then LimitOutOfRange
    else if cfg.limitPercent > 100 || cfg.spikePercent > 100 then LimitPercentageOutOfRange
    else if cfg.limitMiB > 0 && cfg.limitMiB <= cfg.spikeMiB then SpikeLimitOutOfRange
    else if cfg.limitPercent > 0 && cfg.limitPercent <= cfg.spikePercent then SpikeLimitPercentageOutOfRange
    else NoError
  }

  /** The durations are real ones: none of the doublings below leaves 64 bits. */
  predicate Bounded(cfg: Config) {
    && 0 <= cfg.floor < TWO62
    && -TWO62 < cfg.minHard < TWO62 && -TWO62 < cfg.minSoft < TWO62
    && -TWO62 < cfg.maxHard < TWO62 && -TWO62 < cfg.maxSoft < TWO62
  }

  // --------------------------------------------------------------------------- limits

  datatype UsageChecker = UsageChecker(allocLimit: uint64, spikeLimit: uint64) {
    function SoftLimit(): uint64 {
      Wrap64(allocLimit - spikeLimit)
    }

    predicate AboveSoft(alloc: uint64) {
      alloc >= SoftLimit()
    }

    predicate AboveHard(alloc: uint64) {
      alloc >= allocLimit
    }
  }

  function FixedChecker(allocLimit: uint64, spikeLimit: uint64): UsageChecker {
    UsageChecker(allocLimit, if spikeLimit == 0 then allocLimit / 5 else spikeLimit)
  }

  function PercentageChecker(total: uint64, limit: uint64, spike: uint64): UsageChecker {
    FixedChecker(Wrap64(limit * total) / 100, Wrap64(spike * total) / 100)
  }

  /** getMemUsageChecker, given the total memory of the machine. */
  function GetChecker(cfg: Config, total: uint64): UsageChecker {
    if cfg.limitMiB != 0 then FixedChecker(Wrap64(cfg.limitMiB * MIB), Wrap64(cfg.spikeMiB * MIB))
    else PercentageChecker(total, cfg.limitPercent, cfg.spikePercent)
  }

  /** The limits in bytes of a valid configuration with a fixed limit: without a spike limit that is a fifth. */
  lemma FixedLimits(cfg: Config, total: uint64, x: uint64)
    requires Validate(cfg) == NoError && cfg.limitMiB > 0
    ensures var c := GetChecker(cfg, total);
            && (c.AboveHard(x) <==> x >= cfg.limitMiB * 1_048_576)
            && (cfg.spikeMiB > 0 ==> (c.AboveSoft(x) <==> x >= (cfg.limitMiB - cfg.spikeMiB) * 1_048_576))
            && (cfg.spikeMiB == 0 ==>
                  (c.AboveSoft(x) <==> x >= cfg.limitMiB * 1_048_576 - cfg.limitMiB * 1_048_576 / 5))
  {
    var l, s: nat := cfg.limitMiB * 1_048_576, cfg.spikeMiB * 1_048_576;
    NoWrap(l);
    NoWrap(s);
    assert GetChecker(cfg, total) == FixedChecker(l, s);
    FixedChecks(l, s, x);
    hide GetChecker, FixedChecker, Wrap64;
  }

  /** The same with a percentage of the total memory, as long as the share of the limit fits in 64 bits. */
  lemma PercentageLimits(cfg: Config, total: uint64, x: uint64)
    requires Validate(cfg) == NoError && cfg.limitMiB == 0 && cfg.limitPercent * total < TWO64
    ensures var c := GetChecker(cfg, total);
            var limit, spike := cfg.limitPercent * total / 100, cfg.spikePercent * total / 100;
            && (c.AboveHard(x) <==> x >= limit)
            && (spike > 0 ==> (c.AboveSoft(x) <==> x >= limit - spike))
            && (spike == 0 ==> (c.AboveSoft(x) <==> x >= limit - limit / 5))
  {
    SharesFit(total, cfg.limitPercent, cfg.spikePercent);
    hide Wrap64, FixedChecker, PercentageChecker;
    FixedChecks(cfg.limitPercent * total / 100, cfg.spikePercent * total / 100, x);
  }

  lemma SharesFit(total: uint64, limit: uint32, spike: uint32)
    requires spike <= limit && limit * total < TWO64
    ensures 0 <= spike * total / 100 <= limit * total / 100 < TWO64
    ensures PercentageChecker(total, limit, spike) == FixedChecker(limit * total / 100, spike * total / 100)
  {
    Scaled(spike, limit, total);
    var l, s := limit * total, spike * total;
    NoWrap(l);
    NoWrap(s);
    SmallerShare(s, l);
    hide Wrap64, FixedChecker;
  }

  lemma SmallerShare(a: nat, b: nat)
    requires a <= b
    ensures a / 100 <= b / 100
  {
  }

  lemma FixedChecks(limit: uint64, spike: uint64, x: uint64)
    requires spike <= limit
    ensures var c := FixedChecker(limit, spike);
            && (c.AboveHard(x) <==> x >= limit)
            && (c.AboveSoft(x) <==> x >= limit - if spike == 0 then limit / 5 else spike)
  {
  }

  /** A configuration is valid exactly if its intervals are ordered and its limits leave room for the spikes. */
  lemma ValidIff(cfg: Config)
    ensures Validate(cfg) == NoError <==>
            && cfg.checkInterval > 0 && cfg.minHard <= cfg.minSoft && 0 <= cfg.maxSoft && 0 <= cfg.maxHard
            && (cfg.maxSoft == 0 || cfg.minSoft <= cfg.maxSoft) && (cfg.maxHard == 0 || cfg.minHard <= cfg.maxHard)
            && (cfg.maxSoft == 0 || cfg.maxHard == 0 || cfg.maxHard <= cfg.maxSoft)
            && (cfg.limitMiB > 0 || cfg.limitPercent > 0) && cfg.limitPercent <= 100 && cfg.spikePercent <= 100
            && (cfg.limitMiB == 0 || cfg.spikeMiB < cfg.limitMiB)
            && (cfg.limitPercent == 0 || cfg.spikePercent < cfg.limitPercent)
  {
  }

  lemma FixedOrdered(limit: uint64, spike: uint64)
    requires spike <= limit
    ensures var c := FixedChecker(limit, spike);
            && c.spikeLimit <= c.allocLimit
            && c.SoftLimit() == c.allocLimit - c.spikeLimit
  {
  }

  lemma PercentageOrdered(total: uint64, limit: int, spike: int)
    requires 0 <= spike <= limit && limit * total < TWO64
    ensures 0 <= spike * total && Wrap64(spike * total) / 100 <= Wrap64(limit * total) / 100
  {
    Scaled(spike, limit, total);
    Scaled(0, spike, total);
    var s, l := spike * total, limit * total;
    assert Wrap64(s) == s && Wrap64(l) == l;
  }

  /** For a validated configuration the soft limit does not wrap and is at most the hard limit. */
  lemma SoftLimitBelowHard(cfg: Config, total: uint64)
    requires Validate(cfg) == NoError
    requires cfg.limitMiB == 0 ==> cfg.limitPercent * total < TWO64
    ensures var c := GetChecker(cfg, total);
            && c.spikeLimit <= c.allocLimit
            && c.SoftLimit() == c.allocLimit - c.spikeLimit <= c.allocLimit
            && forall alloc :: c.AboveHard(alloc) ==> c.AboveSoft(alloc)
  {
    hide FixedChecker, Wrap64;
    if cfg.limitMiB == 0 {
      PercentageOrdered(total, cfg.limitPercent, cfg.spikePercent);
      FixedOrdered(Wrap64(cfg.limitPercent * total) / 100, Wrap64(cfg.spikePercent * total) / 100);
    } else {
      NoWrap(cfg.limitMiB * MIB);
      NoWrap(cfg.spikeMiB * MIB);
      FixedOrdered(cfg.limitMiB * MIB, cfg.spikeMiB * MIB);
    }
  }

  /** A percentage of the memory, in hundreds, and how often it leaves 64 bits. */
  function Share(percent: uint32, total: uint64): nat {
    percent * total
  }

  function Wraps(x: nat): nat {
    x / TWO64
  }

  /**
   The limit leaves 64 bits more often than the spike only as far as the difference of
   the two makes up for it, rounding to hundreds aside.
   */
  predicate OrderSurvives(limit: nat, spike: nat) {
    TWO64 * Wraps(limit) - TWO64 * Wraps(spike) < limit - spike + 100 - (limit + 84 * Wraps(limit)) % 100
  }

  /**
   Exactly when the soft limit is at most the hard limit and does not wrap: always with a
   fixed limit, and otherwise when the order of the two shares survives; so it holds
   whenever both leave 64 bits equally often.
   */
  lemma SoftLimitBelowHardIff(cfg: Config, total: uint64)
    requires Validate(cfg) == NoError
    ensures var c := GetChecker(cfg, total);
            var ordered := cfg.limitMiB > 0
                           || OrderSurvives(Share(cfg.limitPercent, total), Share(cfg.spikePercent, total));
            && (c.SoftLimit() <= c.allocLimit <==> ordered)
            && (c.SoftLimit() == c.allocLimit - c.spikeLimit <==> ordered)
            && ((forall alloc: uint64 :: c.AboveHard(alloc) ==> c.AboveSoft(alloc)) <==> ordered)
            && (Wraps(Share(cfg.limitPercent, total)) == Wraps(Share(cfg.spikePercent, total)) ==> ordered)
  {
    hide Wrap64, Wraps, FixedChecker, OrderSurvives, UsageChecker.SoftLimit;
    HardIsSoft(GetChecker(cfg, total));
    if cfg.limitMiB > 0 {
      SoftLimitBelowHard(cfg, total);
    } else {
      var limit, spike := Share(cfg.limitPercent, total), Share(cfg.spikePercent, total);
      assert GetChecker(cfg, total) == FixedChecker(Wrap64(limit) / 100, Wrap64(spike) / 100);
      WrapsIff(Wrap64(limit) / 100, Wrap64(spike) / 100);
      OrderedIff(limit, spike);
      Scaled(cfg.spikePercent, cfg.limitPercent, total);
      if Wraps(limit) == Wraps(spike) {
        EquallyOften(limit, spike);
      }
    }
  }

  lemma HardIsSoft(c: UsageChecker)
    ensures (forall alloc: uint64 :: c.AboveHard(alloc) ==> c.AboveSoft(alloc)) <==> c.SoftLimit() <= c.allocLimit
  {
    hide UsageChecker.SoftLimit;
    assert c.AboveHard(c.allocLimit);
  }

  lemma EquallyOften(limit: nat, spike: nat)
    requires spike <= limit && Wraps(limit) == Wraps(spike)
    ensures OrderSurvives(limit, spike)
  {
    hide Wraps;
  }

  /** The remainder in hundreds of what is left of a share in 64 bits, by the share and its wraps. */
  lemma HundredsLeft(x: nat)
    ensures Wrap64(x) % 100 == (x + 84 * Wraps(x)) % 100
  {
    CutOff(x);
    var q, r := Wraps(x), Wrap64(x);
    hide Wrap64, Wraps;
    var k := (TWO64 + 84) / 100 * q;
    assert x + 84 * q == r + 100 * k;
    SameRemainder(r, k);
  }

  lemma SameRemainder(r: nat, k: nat)
    ensures (r + 100 * k) % 100 == r % 100
  {
  }

  /** Two numbers cut to 64 bits, in hundreds. */
  lemma OrderedIff(limit: nat, spike: nat)
    ensures Wrap64(spike) / 100 <= Wrap64(limit) / 100 <==> OrderSurvives(limit, spike)
  {
    CutOff(limit);
    CutOff(spike);
    HundredsLeft(limit);
    InHundreds(Wrap64(spike), Wrap64(limit));
    hide Wrap64, Wraps;
  }

  lemma CutOff(x: nat)
    ensures x == TWO64 * Wraps(x) + Wrap64(x)
  {
  }

  lemma InHundreds(a: nat, b: nat)
    ensures a / 100 <= b / 100 <==> a < b - b % 100 + 100
  {
  }

  lemma WrapsIff(limit: uint64, spike: uint64)
    ensures var c := FixedChecker(limit, spike);
            && (c.SoftLimit() <= c.allocLimit <==> spike <= limit)
            && (c.SoftLimit() == c.allocLimit - c.spikeLimit <==> spike <= limit)
  {
  }

  lemma NoWrap(x: uint64)
    ensures Wrap64(x) == x
  {
  }

  /** With more memory than a uint64 can hold the percentage of, the soft limit can lie above the hard one. */
  lemma SoftLimitCanExceedHard()
    ensures var total := 0x1_0000_0000_0000_0000 / 100 + 1;
            var cfg := Config(1, 0, 0, 0, 0, 0, true, 0, 0, 100, 99);
            Validate(cfg) == NoError && var c := GetChecker(cfg, total); c.SoftLimit() > c.allocLimit
  {
  }

  lemma Scaled(a: int, b: int, t: nat)
    requires 0 <= a <= b
    ensures a * t <= b * t
  {
  }

  // -------------------------------------------------------------------------- backoff

  /** nextBackoffInterval. */
  function NextInterval(floor: int, current: int, configMin: int, configMax: int): int {
    if configMax == 0 then configMin
    else Min(WrapDuration(Max(current, Max(configMin, floor)) * 2), Max(configMax, configMin))
  }

  /**
   What the interval of a path is after `k` ineffective forced collections since the
   last effective observation: it doubles from its floor up to its cap.
   */
  function IntervalAfter(floor: int, configMin: int, configMax: int, k: nat): int {
    if k == 0 then 0
    else if configMax == 0 then configMin
    else Min(Pow2(k) * Max(configMin, floor), Max(configMax, configMin))
  }

  /** The step of the code takes the closed form from `k` to `k + 1`. */
  lemma NextIntervalClosedForm(floor: int, configMin: int, configMax: int, k: nat)
    requires 0 <= floor < TWO62 && -TWO62 < configMin < TWO62 && -TWO62 < configMax < TWO62
    ensures NextInterval(floor, IntervalAfter(floor, configMin, configMax, k), configMin, configMax)
         == IntervalAfter(floor, configMin, configMax, k + 1)
  {
    hide Pow2, WrapDuration;
    if configMax != 0 {
      var m, cap := Max(configMin, floor), Max(configMax, configMin);
      PowerStep(k, m);
      if k == 0 {
        DurationFits(2 * m);
      } else {
        var p := Pow2(k) * m;
        assert IntervalAfter(floor, configMin, configMax, k) == Min(p, cap);
        DurationFits(2 * Max(Min(p, cap), m));
        DoublingCapped(p, m, cap);
      }
    }
  }

  lemma PowerStep(k: nat, m: nat)
    ensures Pow2(k + 1) * m == 2 * (Pow2(k) * m)
    ensures k == 0 ==> Pow2(k + 1) * m == 2 * m
    ensures Pow2(k) * m >= m
  {
    Positive(k);
    var p := Pow2(k);
    assert Pow2(k + 1) == 2 * p;
    hide Pow2;
    Doubles(p, m);
    Grows(p, m);
    if k == 0 {
      assert 2 * (1 * m) == 2 * m;
    }
  }

  lemma {:induction false} Positive(k: nat)
    ensures Pow2(k) >= 1 && (k == 0 ==> Pow2(k) == 1)
  {
    if k > 0 {
      Positive(k - 1);
    }
  }

  lemma DurationFits(x: int)
    requires -TWO63 <= x < TWO63
    ensures WrapDuration(x) == x
  {
  }

  /** Doubling a capped value and capping it again caps the doubled value. */
  lemma DoublingCapped(p: int, m: int, cap: int)
    requires p >= m >= 0
    ensures Min(2 * Max(Min(p, cap), m), cap) == Min(2 * p, cap)
  {
  }

  lemma Grows(a: int, m: int)
    requires a >= 1 && m >= 0
    ensures a * m >= m
  {
  }

  lemma Doubles(a: int, m: int)
    ensures 2 * a * m == 2 * (a * m)
  {
  }

  function SoftGate(cfg: Config, k: nat): int {
    Max(cfg.minSoft, IntervalAfter(cfg.floor, cfg.minSoft, cfg.maxSoft, k))
  }

  function HardGate(cfg: Config, k: nat): int {
    Max(cfg.minHard, IntervalAfter(cfg.floor, cfg.minHard, cfg.maxHard, k))
  }

  /** The hard path can back off further than a soft path whose backoff is off. */
  predicate HardOutgrowsSoft(cfg: Config) {
    && cfg.maxSoft == 0 && cfg.maxHard > cfg.minSoft
    && cfg.maxHard > 0 && (cfg.floor > 0 || cfg.minHard > 0 || cfg.minSoft < 0)
  }

  lemma GateOrder(cfg: Config, k: nat)
    requires Validate(cfg) == NoError && Bounded(cfg) && (k == 0 || !HardOutgrowsSoft(cfg))
    ensures SoftGate(cfg, k) >= HardGate(cfg, k)
  {
    if k > 0 && cfg.maxHard > 0 {
      var ms, mh := Max(cfg.minSoft, cfg.floor), Max(cfg.minHard, cfg.floor);
      Scale(Pow2(k), mh, ms);
      if mh == 0 {
        assert Pow2(k) * mh == 0;
      }
    }
  }

  lemma Scale(p: nat, a: int, b: int)
    requires a <= b
    ensures p * a <= p * b
  {
  }

  /** Doubling a positive number passes every bound. */
  lemma {:induction false} Pow2Unbounded(n: nat)
    ensures Pow2(n) > n
  {
    if n > 0 {
      Pow2Unbounded(n - 1);
    }
  }

  lemma OutgrownAt(cfg: Config) returns (k: nat)
    requires Validate(cfg) == NoError && Bounded(cfg) && HardOutgrowsSoft(cfg)
    ensures SoftGate(cfg, k) < HardGate(cfg, k)
  {
    k := cfg.maxHard;
    var m := Max(cfg.minHard, cfg.floor);
    Pow2Unbounded(k);
    if m > 0 {
      Grows(m, Pow2(k));
      assert m * Pow2(k) == Pow2(k) * m;
    } else {
      assert Pow2(k) * m == 0;
    }
  }

  // ----------------------------------------------------------------------------- runs

  /** One reading of the allocated memory; `forced` when it follows a forced collection. */
  datatype Observation = Observation(alloc: uint64, forced: bool)

  function LastAlloc(obs: seq<Observation>): uint64 {
    if obs == [] then 0 else obs[|obs| - 1].alloc
  }

  /** Memory is below the soft limit, or dropped by at least 5% since the reading before. */
  predicate Effective(c: UsageChecker, previous: uint64, alloc: uint64) {
    !c.AboveSoft(alloc) || alloc <= Wrap64(previous * 95) / 100
  }

  /** In numbers: memory is below the soft limit, or at most 95% of the reading before, computed in 64 bits. */
  lemma EffectiveIff(c: UsageChecker, previous: uint64, alloc: uint64)
    ensures Effective(c, previous, alloc)
       <==> !c.AboveSoft(alloc) || 100 * alloc <= (95 * previous) % 0x1_0000_0000_0000_0000
    ensures 95 * previous < 0x1_0000_0000_0000_0000 && c.AboveSoft(alloc) ==>
              (Effective(c, previous, alloc) <==> 100 * alloc <= 95 * previous)
  {
  }

  /** The ineffective forced collections since the last effective observation. */
  function Ineffective(c: UsageChecker, obs: seq<Observation>): nat {
    if obs == [] then 0 else
    var before, last := obs[..|obs| - 1], obs[|obs| - 1];
    if Effective(c, LastAlloc(before), last.alloc) then 0
    else Ineffective(c, before) + if last.forced then 1 else 0
  }

  lemma NextObservation(c: UsageChecker, obs: seq<Observation>, o: Observation)
    ensures LastAlloc(obs + [o]) == o.alloc
    ensures Ineffective(c, obs + [o]) ==
            if Effective(c, LastAlloc(obs), o.alloc) then 0 else Ineffective(c, obs) + if o.forced then 1 else 0
  {
    assert (obs + [o])[..|obs|] == obs;
  }

  /** The forced collections from which on no observation was effective. */
  ghost function Wasted(c: UsageChecker, obs: seq<Observation>): set<int> {
    set i | 0 <= i < |obs| && obs[i].forced && NoneEffective(c, obs, i)
  }

  ghost predicate NoneEffective(c: UsageChecker, obs: seq<Observation>, from: nat) {
    forall j :: from <= j < |obs| ==> !EffectiveAt(c, obs, j)
  }

  predicate EffectiveAt(c: UsageChecker, obs: seq<Observation>, j: nat)
    requires j < |obs|
  {
    Effective(c, if j == 0 then 0 else obs[j - 1].alloc, obs[j].alloc)
  }

  lemma NoneEffectiveNext(c: UsageChecker, obs: seq<Observation>, o: Observation, i: nat)
    requires i <= |obs|
    ensures NoneEffective(c, obs + [o], i) <==> NoneEffective(c, obs, i) && !Effective(c, LastAlloc(obs), o.alloc)
  {
    hide Effective;
    var more := obs + [o];
    assert forall j :: 0 <= j < |obs| ==> EffectiveAt(c, more, j) == EffectiveAt(c, obs, j);
    assert EffectiveAt(c, more, |obs|) == Effective(c, LastAlloc(obs), o.alloc);
    hide EffectiveAt;
  }

  lemma WastedNext(c: UsageChecker, obs: seq<Observation>, o: Observation)
    ensures Wasted(c, obs + [o]) == if Effective(c, LastAlloc(obs), o.alloc) then {}
                                    else Wasted(c, obs) + if o.forced then {|obs|} else {}
  {
    hide Effective, NoneEffective;
    forall i | 0 <= i <= |obs| ensures
      NoneEffective(c, obs + [o], i) <==> NoneEffective(c, obs, i) && !Effective(c, LastAlloc(obs), o.alloc)
    {
      NoneEffectiveNext(c, obs, o, i);
    }
    NothingLeft(c, obs);
  }

  lemma NothingLeft(c: UsageChecker, obs: seq<Observation>)
    ensures NoneEffective(c, obs, |obs|)
  {
  }

  /** The count is the number of these. */
  lemma {:induction false} IneffectiveCounts(c: UsageChecker, obs: seq<Observation>)
    ensures Ineffective(c, obs) == |Wasted(c, obs)|
  {
    if obs != [] {
      var n := |obs| - 1;
      IneffectiveCounts(c, obs[..n]);
      WastedNext(c, obs[..n], obs[n]);
      assert obs == obs[..n] + [obs[n]];
      hide Effective, NoneEffective;
    }
  }

  datatype Status = StatusOK | StatusRecoverableError

  predicate Refusing(reports: seq<Status>) {
    reports != [] && reports[|reports| - 1] == StatusRecoverableError
  }

  /** A forced collection, from the check of its gate to its end. */
  datatype Collection = Collection(start: int, done: int)

  /** All collections end before the next one starts, and more than `gap` before it. */
  ghost predicate Spaced(gcs: seq<Collection>, gap: int) {
    && (forall i :: 0 <= i < |gcs| ==> gcs[i].start <= gcs[i].done)
    && (forall i, j :: 0 <= i < j < |gcs| ==> gcs[i].done <= gcs[j].start && gcs[j].start - gcs[i].done > gap)
  }

  lemma SpacedNext(gcs: seq<Collection>, gc: Collection, gap: int)
    requires Spaced(gcs, gap) && gc.start <= gc.done
    requires gcs != [] ==> var last := gcs[|gcs| - 1].done; last <= gc.start && gc.start - last > gap
    ensures Spaced(gcs + [gc], gap)
  {
    var all := gcs + [gc];
    forall i, j | 0 <= i < j < |all| ensures all[i].done <= all[j].start && all[j].start - all[i].done > gap {
      if j == |gcs| && i < j - 1 {
        assert gcs[i].done <= gcs[j - 1].start;
      }
    }
  }

  /** What the world shows in one tick: memory and time, and both again after a collection. */
  datatype World = World(alloc: uint64, now: int, gcDone: int, allocAfter: uint64)

  // ------------------------------------------------------- a run, from its world alone

  /** What was observed, collected and reported so far. */
  datatype History = History(obs: seq<Observation>, gcs: seq<Collection>, reports: seq<Status>)

  function LastDone(start: int, gcs: seq<Collection>): int {
    if gcs == [] then start else gcs[|gcs| - 1].done
  }

  /** The gate of the path on which a reading lies, after `k` ineffective collections. */
  function Gate(cfg: Config, c: UsageChecker, alloc: uint64, k: nat): int {
    if c.AboveHard(alloc) then HardGate(cfg, k) else SoftGate(cfg, k)
  }

  /** Whether a tick forces a collection. */
  predicate Forces(cfg: Config, c: UsageChecker, start: int, h: History, w: World) {
    cfg.gcEnabled && c.AboveSoft(w.alloc)
    && w.now - LastDone(start, h.gcs) > Gate(cfg, c, w.alloc, Ineffective(c, h.obs + [Observation(w.alloc, false)]))
  }

  /** One tick. A status is reported when refusal begins or ends, and when a collection brought memory down. */
  function Tick(cfg: Config, c: UsageChecker, start: int, h: History, w: World): History {
    var forced := Forces(cfg, c, start, h, w);
    var was, now := Refusing(h.reports), c.AboveSoft(if forced then w.allocAfter else w.alloc);
    History(h.obs + [Observation(w.alloc, false)] + (if forced then [Observation(w.allocAfter, true)] else []),
            h.gcs + (if forced then [Collection(w.now, w.gcDone)] else []),
            h.reports + if now then (if was then [] else [StatusRecoverableError])
                        else if was || c.AboveSoft(w.alloc) then [StatusOK] else [])
  }

  /**
   The reports of a tick, by its readings alone: that data is refused, exactly when it was
   not and the last reading is above the soft limit; that all is well, exactly when the
   last reading is not, and data was refused before or an earlier reading of the tick was.
   */
  lemma TickReports(cfg: Config, c: UsageChecker, start: int, h: History, w: World)
    ensures var t := Tick(cfg, c, start, h, w);
            && |h.obs| < |t.obs|
            && var above := c.AboveSoft(t.obs[|t.obs| - 1].alloc);
               if above && !Refusing(h.reports) then t.reports == h.reports + [StatusRecoverableError]
               else if !above && (Refusing(h.reports) || AboveFrom(c, t.obs, |h.obs|)) then
                 t.reports == h.reports + [StatusOK]
               else t.reports == h.reports
  {
    var t := Tick(cfg, c, start, h, w);
    assert t.obs[|h.obs|].alloc == w.alloc;
    hide Forces, Refusing;
  }

  /** Some reading from `n` on is above the soft limit. */
  predicate AboveFrom(c: UsageChecker, obs: seq<Observation>, n: nat) {
    exists i :: n <= i < |obs| && c.AboveSoft(obs[i].alloc)
  }

  lemma TickCases(cfg: Config, c: UsageChecker, start: int, h: History, w: World)
    ensures var seen, was := h.obs + [Observation(w.alloc, false)], Refusing(h.reports);
            Tick(cfg, c, start, h, w) == (
              if !c.AboveSoft(w.alloc) then History(seen, h.gcs, if was then h.reports + [StatusOK] else h.reports)
              else
                var forced := Forces(cfg, c, start, h, w);
                var now := forced ==> c.AboveSoft(w.allocAfter);
                History(if forced then seen + [Observation(w.allocAfter, true)] else seen,
                        if forced then h.gcs + [Collection(w.now, w.gcDone)] else h.gcs,
                        if !now then h.reports + [StatusOK]
                        else if was then h.reports else h.reports + [StatusRecoverableError]))
  {
    hide Forces, Refusing;
    assert Forces(cfg, c, start, h, w) ==> c.AboveSoft(w.alloc) by {
      ForcesAbove(cfg, c, start, h, w);
    }
  }

  lemma ForcesAbove(cfg: Config, c: UsageChecker, start: int, h: History, w: World)
    ensures Forces(cfg, c, start, h, w) ==> c.AboveSoft(w.alloc)
  {
  }

  /** A collection is forced, and recorded with its times, exactly when it is enabled, needed and due. */
  lemma TickCollects(cfg: Config, c: UsageChecker, start: int, h: History, w: World)
    ensures var t := Tick(cfg, c, start, h, w);
            var k := Ineffective(c, h.obs + [Observation(w.alloc, false)]);
            var due := w.now - LastDone(start, h.gcs)
                       > if w.alloc >= c.allocLimit then HardGate(cfg, k) else SoftGate(cfg, k);
            if cfg.gcEnabled && c.AboveSoft(w.alloc) && due then
              && t.gcs == h.gcs + [Collection(w.now, w.gcDone)]
              && t.obs == h.obs + [Observation(w.alloc, false), Observation(w.allocAfter, true)]
            else t.gcs == h.gcs && t.obs == h.obs + [Observation(w.alloc, false)]
  {
  }

  function RunOf(cfg: Config, c: UsageChecker, start: int, ws: seq<World>): History {
    if ws == [] then History([], [], [])
    else Tick(cfg, c, start, RunOf(cfg, c, start, ws[..|ws| - 1]), ws[|ws| - 1])
  }

  lemma RunNext(cfg: Config, c: UsageChecker, start: int, ws: seq<World>, i: nat)
    requires i < |ws|
    ensures RunOf(cfg, c, start, ws[..i + 1]) == Tick(cfg, c, start, RunOf(cfg, c, start, ws[..i]), ws[i])
    ensures RunOf(cfg, c, start, []) == History([], [], []) && ws[..0] == [] && ws[..|ws|] == ws
  {
    hide Tick;
    assert ws[..i + 1][..i] == ws[..i];
  }

  class Limiter {
    const cfg: Config
    const checker: UsageChecker
    var softInterval: int
    var hardInterval: int
    var lastGCDone: int
    var lastAlloc: uint64
    var mustRefuse: bool

    /** Everything observed, collected and reported since the limiter was created. */
    ghost const start: int
    ghost var obs: seq<Observation>
    ghost var gcs: seq<Collection>
    ghost var reports: seq<Status>

    ghost function Past(): History
      reads this
    {
      History(obs, gcs, reports)
    }

    /** The intervals are functions of the history, and so are the previous reading and the last end. */
    ghost predicate Synced()
      reads this
    {
      && Bounded(cfg)
      && softInterval == IntervalAfter(cfg.floor, cfg.minSoft, cfg.maxSoft, Ineffective(checker, obs))
      && hardInterval == IntervalAfter(cfg.floor, cfg.minHard, cfg.maxHard, Ineffective(checker, obs))
      && lastAlloc == LastAlloc(obs)
      && lastGCDone == LastDone(start, gcs)
      && Spaced(gcs, cfg.minHard)
    }

    /** The state between two ticks. */
    ghost predicate Valid()
      reads this
    {
      && Synced()
      && (mustRefuse <==> Refusing(reports))
      && (mustRefuse <==> obs != [] && checker.AboveSoft(LastAlloc(obs)))
    }

    constructor (cfg: Config, total: uint64, now: int)
      requires Bounded(cfg)
      ensures Valid() && this.cfg == cfg && checker == GetChecker(cfg, total) && lastGCDone == now
      ensures start == now && Past() == History([], [], []) && !mustRefuse
    {
      this.cfg, checker, start := cfg, GetChecker(cfg, total), now;
      softInterval, hardInterval, lastGCDone, lastAlloc, mustRefuse := 0, 0, now, 0, false;
      obs, gcs, reports := [], [], [];
    }

    /** checkLimitAndBackoff. */
    method CheckLimitAndBackoff(alloc: uint64, didGC: bool) returns (aboveSoft: bool)
      requires Synced()
      modifies this`softInterval, this`hardInterval, this`lastAlloc, this`obs
      ensures Synced() && obs == old(obs) + [Observation(alloc, didGC)]
      ensures aboveSoft <==> checker.AboveSoft(alloc)
    {
      hide IntervalAfter, NextInterval, Spaced, Wrap64;
      ghost var k := Ineffective(checker, obs);
      NextObservation(checker, obs, Observation(alloc, didGC));
      NextIntervalClosedForm(cfg.floor, cfg.minSoft, cfg.maxSoft, k);
      NextIntervalClosedForm(cfg.floor, cfg.minHard, cfg.maxHard, k);
      IntervalReset(cfg.floor, cfg.minSoft, cfg.maxSoft);
      IntervalReset(cfg.floor, cfg.minHard, cfg.maxHard);
      aboveSoft := checker.AboveSoft(alloc);
      var effective := !aboveSoft || alloc <= Wrap64(lastAlloc * 95) / 100;
      lastAlloc := alloc;
      obs := obs + [Observation(alloc, didGC)];
      if effective {
        softInterval := 0;
        hardInterval := 0;
        return;
      }
      if !didGC {
        return;
      }
      softInterval := NextInterval(cfg.floor, softInterval, cfg.minSoft, cfg.maxSoft);
      hardInterval := NextInterval(cfg.floor, hardInterval, cfg.minHard, cfg.maxHard);
    }

    /**
     CheckMemLimits. A collection is forced exactly when the reading is above the soft
     limit and the gate of its path is open, and the tick ends refusing data exactly when
     its last reading is above the soft limit.
     */
    method CheckMemLimits(w: World)
      requires Valid() && cfg.minHard <= cfg.minSoft
      requires LastDone(start, gcs) <= w.now <= w.gcDone
      modifies this
      ensures Valid()
      ensures Past() == Tick(cfg, checker, start, old(Past()), w)
    {
      hide IntervalAfter, Spaced, Ineffective, Wrap64, Tick;
      TickCases(cfg, checker, start, Past(), w);
      var aboveSoft := CheckLimitAndBackoff(w.alloc, false);
      if !aboveSoft {
        if mustRefuse {
          reports := reports + [StatusOK];
        }
        mustRefuse := false;
        return;
      }
      var gate := if checker.AboveHard(w.alloc) then Max(cfg.minHard, hardInterval) else Max(cfg.minSoft, softInterval);
      if cfg.gcEnabled && w.now - lastGCDone > gate {
        aboveSoft := ForceGC(w);
      }
      if !mustRefuse && aboveSoft {
        reports := reports + [StatusRecoverableError];
      }
      if !aboveSoft {
        reports := reports + [StatusOK];
      }
      mustRefuse := aboveSoft;
    }

    /** doGCandReadMemStats and the second check of the limit. */
    method ForceGC(w: World) returns (aboveSoft: bool)
      requires Synced() && lastGCDone <= w.now <= w.gcDone && w.now - lastGCDone > cfg.minHard
      modifies this`softInterval, this`hardInterval, this`lastAlloc, this`obs, this`gcs, this`lastGCDone
      ensures Synced() && lastGCDone == w.gcDone && gcs == old(gcs) + [Collection(w.now, w.gcDone)]
      ensures obs == old(obs) + [Observation(w.allocAfter, true)]
      ensures aboveSoft <==> checker.AboveSoft(w.allocAfter)
    {
      hide IntervalAfter, Ineffective, Wrap64;
      SpacedNext(gcs, Collection(w.now, w.gcDone), cfg.minHard);
      hide Spaced;
      gcs := gcs + [Collection(w.now, w.gcDone)];
      lastGCDone := w.gcDone;
      aboveSoft := CheckLimitAndBackoff(w.allocAfter, true);
    }
  }

  lemma IntervalReset(floor: int, configMin: int, configMax: int)
    ensures IntervalAfter(floor, configMin, configMax, 0) == 0
  {
  }

  /** Time goes on from tick to tick and during collections. */
  predicate Ordered(ws: seq<World>, from: int) {
    && (forall i :: 0 <= i < |ws| ==> from <= ws[i].now <= ws[i].gcDone)
    && (forall i, j :: 0 <= i < j < |ws| ==> ws[i].gcDone <= ws[j].now)
  }

  lemma {:induction false} NeverLate(cfg: Config, c: UsageChecker, start: int, ws: seq<World>, i: nat)
    requires Ordered(ws, start) && i <= |ws|
    ensures forall j :: i <= j < |ws| ==> LastDone(start, RunOf(cfg, c, start, ws[..i]).gcs) <= ws[j].now
  {
    hide Forces, Refusing;
    if i > 0 {
      NeverLate(cfg, c, start, ws, i - 1);
      RunNext(cfg, c, start, ws, i - 1);
    }
  }

  // ------------------------------------------------------- the two gates in every run

  /** The ineffective collections by which the next check of a run, on this reading, sets its gates. */
  function IneffectiveAt(cfg: Config, c: UsageChecker, start: int, ws: seq<World>, alloc: uint64): nat {
    Ineffective(c, RunOf(cfg, c, start, ws).obs + [Observation(alloc, false)])
  }

  /** At every check of every run the soft path waits at least as long as the hard path. */
  ghost predicate SoftWaitsLonger(cfg: Config, c: UsageChecker, start: int) {
    forall ws, alloc: uint64 :: Ordered(ws, start) ==>
      var k := IneffectiveAt(cfg, c, start, ws, alloc);
      SoftGate(cfg, k) >= HardGate(cfg, k)
  }

  /**
   For a validated configuration, in every run from any start, the soft gate is never
   shorter than the hard gate, exactly unless collections can be forced, the soft cap is
   off and the hard path can outgrow the soft minimum. It holds when both caps are on.
   */
  lemma SoftGateNeverShorterIff(cfg: Config, c: UsageChecker, start: int)
    requires Validate(cfg) == NoError && Bounded(cfg)
    ensures SoftWaitsLonger(cfg, c, start) <==> !(cfg.gcEnabled && HardOutgrowsSoft(cfg))
    ensures cfg.maxSoft > 0 && cfg.maxHard > 0 ==> SoftWaitsLonger(cfg, c, start)
  {
    hide Validate, Bounded, SoftGate, HardGate, IneffectiveAt;
    if cfg.gcEnabled && HardOutgrowsSoft(cfg) {
      var k := OutgrownAt(cfg);
      var ws := Stubborn(cfg, c, start, k);
      assert IneffectiveAt(cfg, c, start, ws, TWO64 - 1) == k;
    } else {
      forall ws, alloc: uint64 | Ordered(ws, start)
        ensures var k := IneffectiveAt(cfg, c, start, ws, alloc); SoftGate(cfg, k) >= HardGate(cfg, k)
      {
        var k := IneffectiveAt(cfg, c, start, ws, alloc);
        if !cfg.gcEnabled {
          NeverForced(cfg, c, start, ws, alloc);
        }
        GateOrder(cfg, k);
      }
    }
  }

  /** Every number of ineffective collections is met in some run, exactly if collections can be forced. */
  lemma IneffectiveReachableIff(cfg: Config, c: UsageChecker, start: int, k: nat)
    ensures (exists ws, alloc: uint64 :: Ordered(ws, start) && IneffectiveAt(cfg, c, start, ws, alloc) == k)
       <==> cfg.gcEnabled || k == 0
  {
    hide IneffectiveAt;
    if cfg.gcEnabled {
      var ws := Stubborn(cfg, c, start, k);
      assert IneffectiveAt(cfg, c, start, ws, TWO64 - 1) == k;
    } else {
      forall ws, alloc: uint64 ensures IneffectiveAt(cfg, c, start, ws, alloc) == 0 {
        NeverForced(cfg, c, start, ws, alloc);
      }
      assert Ordered([], start) && IneffectiveAt(cfg, c, start, [], 0) == 0;
    }
  }

  lemma {:induction false} NeverForced(cfg: Config, c: UsageChecker, start: int, ws: seq<World>, alloc: uint64)
    requires !cfg.gcEnabled
    ensures IneffectiveAt(cfg, c, start, ws, alloc) == 0
  {
    hide Effective, Refusing;
    NextObservation(c, RunOf(cfg, c, start, ws).obs, Observation(alloc, false));
    if ws != [] {
      var before, last := ws[..|ws| - 1], ws[|ws| - 1].alloc;
      NeverForced(cfg, c, start, before, last);
      var h := RunOf(cfg, c, start, before);
      assert RunOf(cfg, c, start, ws).obs == h.obs + [Observation(last, false)];
    }
  }

  /** Memory that stays as high as it can be: each of `k` ticks forces a collection, and none helps. */
  lemma {:induction false} Stubborn(cfg: Config, c: UsageChecker, start: int, k: nat) returns (ws: seq<World>)
    requires cfg.gcEnabled
    ensures Ordered(ws, start) && IneffectiveAt(cfg, c, start, ws, TWO64 - 1) == k
    ensures LastAlloc(RunOf(cfg, c, start, ws).obs) in {0, TWO64 - 1}
  {
    hide Tick, HardGate, SoftGate, Ordered, Ineffective, LastAlloc, Effective;
    if k == 0 {
      ws := [];
      NothingYet(cfg, c, start);
    } else {
      var before := Stubborn(cfg, c, start, k - 1);
      var h := RunOf(cfg, c, start, before);
      var free := LastDone(start, h.gcs) + Max(SoftGate(cfg, k - 1), HardGate(cfg, k - 1)) + 1;
      var now := Max(free, if before == [] then start else before[|before| - 1].gcDone);
      var w := World(TWO64 - 1, now, now, TWO64 - 1);
      ws := before + [w];
      assert ws[..|before|] == before;
      OrderedNext(before, start, w);
      StubbornTick(cfg, c, start, h, w);
    }
  }

  lemma NothingYet(cfg: Config, c: UsageChecker, start: int)
    ensures Ordered([], start) && IneffectiveAt(cfg, c, start, [], TWO64 - 1) == 0
    ensures LastAlloc(RunOf(cfg, c, start, []).obs) == 0
  {
    NextObservation(c, [], Observation(TWO64 - 1, false));
  }

  lemma OrderedNext(ws: seq<World>, start: int, w: World)
    requires Ordered(ws, start) && (if ws == [] then start else ws[|ws| - 1].gcDone) <= w.now <= w.gcDone
    ensures Ordered(ws + [w], start)
  {
  }

  lemma StubbornTick(cfg: Config, c: UsageChecker, start: int, h: History, w: World)
    requires cfg.gcEnabled && w.alloc == w.allocAfter == TWO64 - 1 && LastAlloc(h.obs) in {0, TWO64 - 1}
    requires var k := Ineffective(c, h.obs + [Observation(TWO64 - 1, false)]);
             w.now - LastDone(start, h.gcs) > Max(SoftGate(cfg, k), HardGate(cfg, k))
    ensures var obs := Tick(cfg, c, start, h, w).obs;
            && LastAlloc(obs) == TWO64 - 1
            && Ineffective(c, obs + [Observation(TWO64 - 1, false)])
            == Ineffective(c, h.obs + [Observation(TWO64 - 1, false)]) + 1
  {
    var seen := h.obs + [Observation(TWO64 - 1, false)];
    var after := seen + [Observation(TWO64 - 1, true)];
    hide SoftGate, HardGate, Refusing, Ineffective;
    NextObservation(c, h.obs, Observation(TWO64 - 1, false));
    NextObservation(c, seen, Observation(TWO64 - 1, true));
    NextObservation(c, after, Observation(TWO64 - 1, false));
    NoHelp(c, 0);
    NoHelp(c, TWO64 - 1);
    hide Effective, Wrap64;
    assert Forces(cfg, c, start, h, w);
  }

  lemma NoHelp(c: UsageChecker, previous: uint64)
    requires previous in {0, TWO64 - 1}
    ensures c.AboveSoft(TWO64 - 1) && !Effective(c, previous, TWO64 - 1)
  {
  }

  /** 100 MiB, with a backoff on the hard path alone. */
  const HARD_ONLY := Config(1_000_000_000, 950_000_000, 0, 0, 0, 30_000_000_000, true, 100, 0, 0, 0)

  /** A reading of 90 MiB before and after a collection. */
  const STUCK := World(90 * MIB, 1, 1, 90 * MIB)

  /**
   A valid configuration and a run of one tick, after which a reading above the soft limit
   would force a collection at once and a reading above the hard limit would not.
   */
  lemma HardGateCanOutgrow(total: uint64)
    ensures Validate(HARD_ONLY) == NoError && Bounded(HARD_ONLY) && Ordered([STUCK], 0)
    ensures var c := GetChecker(HARD_ONLY, total);
            var h := RunOf(HARD_ONLY, c, 0, [STUCK]);
            && !SoftWaitsLonger(HARD_ONLY, c, 0)
            && !c.AboveHard(90 * MIB) && Forces(HARD_ONLY, c, 0, h, World(90 * MIB, 2, 2, 0))
            && c.AboveHard(200 * MIB) && !Forces(HARD_ONLY, c, 0, h, World(200 * MIB, 2, 2, 0))
  {
    var c := GetChecker(HARD_ONLY, total);
    StuckGates();
    StuckOnce(c);
    SoftGateNeverShorterIff(HARD_ONLY, c, 0);
    hide SoftWaitsLonger, SoftGate, HardGate, Ineffective, RunOf;
  }

  lemma StuckGates()
    ensures SoftGate(HARD_ONLY, 0) == HardGate(HARD_ONLY, 0) == SoftGate(HARD_ONLY, 1) == 0
    ensures HardGate(HARD_ONLY, 1) == 1_900_000_000
  {
    assert Pow2(1) == 2;
  }

  lemma StuckOnce(c: UsageChecker)
    requires c == UsageChecker(100 * MIB, 20 * MIB)
    ensures var h := RunOf(HARD_ONLY, c, 0, [STUCK]);
            && LastDone(0, h.gcs) == 1
            && Ineffective(c, h.obs + [Observation(90 * MIB, false)]) == 1
            && Ineffective(c, h.obs + [Observation(200 * MIB, false)]) == 1
  {
    var low, again := Observation(90 * MIB, false), Observation(90 * MIB, true);
    NextObservation(c, [], low);
    NextObservation(c, [low], again);
    NextObservation(c, [low, again], low);
    NextObservation(c, [low, again], Observation(200 * MIB, false));
    StuckGates();
    hide SoftGate, HardGate, Ineffective, Refusing;
    var start := History([], [], []);
    assert RunOf(HARD_ONLY, c, 0, [STUCK]) == Tick(HARD_ONLY, c, 0, start, STUCK);
    assert start.obs + [low] == [low];
    assert Forces(HARD_ONLY, c, 0, start, STUCK);
    assert Tick(HARD_ONLY, c, 0, start, STUCK).obs == [low, again];
  }

  /** NewMemoryLimiter: it fails exactly if the total memory is needed and cannot be read. */
  method NewMemoryLimiter(cfg: Config, total: Option<uint64>, now: int) returns (l: Option<Limiter>)
    requires Bounded(cfg)
    ensures l.None? <==> cfg.limitMiB == 0 && total.None?
    ensures l.Some? ==> fresh(l.value) && l.value.Valid() && l.value.cfg == cfg && l.value.start == now
    ensures l.Some? ==> l.value.checker == GetChecker(cfg, if total.Some? then total.value else 0)
    ensures l.Some? ==> l.value.Past() == History([], [], []) && !l.value.mustRefuse
  {
    if cfg.limitMiB == 0 && total.None? {
      return None;
    }
    var res := new Limiter(cfg, if total.Some? then total.value else 0, now);
    return Some(res);
  }

  /**
   Any number of ticks of a limiter with a validated configuration. In terms of the run
   as a function of the world: the intervals follow the closed form, forced collections
   stay apart, the soft gate is never shorter than the hard one when both caps are on,
   and refusal, the last reading and the last reported status agree.
   */
  method Ticks(cfg: Config, total: uint64, start: int, ws: seq<World>)
    returns (refuse: bool, softInterval: int, hardInterval: int)
    requires Validate(cfg) == NoError && Bounded(cfg) && Ordered(ws, start)
    ensures var c := GetChecker(cfg, total);
            var h := RunOf(cfg, c, start, ws);
            && softInterval == IntervalAfter(cfg.floor, cfg.minSoft, cfg.maxSoft, Ineffective(c, h.obs))
            && hardInterval == IntervalAfter(cfg.floor, cfg.minHard, cfg.maxHard, Ineffective(c, h.obs))
            && Spaced(h.gcs, cfg.minHard)
            && (refuse <==> Refusing(h.reports))
            && (ws != [] ==> h.obs != [] && (refuse <==> c.AboveSoft(LastAlloc(h.obs))))
    ensures cfg.maxSoft > 0 && cfg.maxHard > 0 ==> Max(cfg.minSoft, softInterval) >= Max(cfg.minHard, hardInterval)
  {
    hide IntervalAfter, Spaced, Ineffective, Refusing, GetChecker, RunOf, Tick;
    ghost var c := GetChecker(cfg, total);
    SomethingSeen(cfg, c, start, []);
    assert ws[..0] == [];
    var l := new Limiter(cfg, total, start);
    for i := 0 to |ws|
      invariant fresh(l) && l.Valid() && l.cfg == cfg && l.checker == c && l.start == start
      invariant l.Past() == RunOf(cfg, c, start, ws[..i])
    {
      RunNext(cfg, c, start, ws, i);
      NeverLate(cfg, c, start, ws, i);
      l.CheckMemLimits(ws[i]);
    }
    assert ws[..|ws|] == ws;
    refuse, softInterval, hardInterval := l.mustRefuse, l.softInterval, l.hardInterval;
    if cfg.maxSoft > 0 && cfg.maxHard > 0 {
      GateOrder(cfg, Ineffective(c, l.obs));
    }
    assert SoftGate(cfg, Ineffective(c, l.obs)) == Max(cfg.minSoft, softInterval);
    assert HardGate(cfg, Ineffective(c, l.obs)) == Max(cfg.minHard, hardInterval);
    SomethingSeen(cfg, c, start, ws);
  }

  lemma SomethingSeen(cfg: Config, c: UsageChecker, start: int, ws: seq<World>)
    ensures ws == [] ==> RunOf(cfg, c, start, ws) == History([], [], [])
    ensures ws != [] ==> RunOf(cfg, c, start, ws).obs != []
  {
    hide Forces, Refusing;
  }
}
