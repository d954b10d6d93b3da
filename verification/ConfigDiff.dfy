/**
 Deciding whether a configuration change concerns receivers only
 (otelcol/config_diff.go), from hash-based fingerprints.
 */
module ConfigDiff {

  type ID = string
  type PipelineID = string

  datatype Pipeline = Pipeline(receivers: seq<ID>, processors: seq<ID>, exporters: seq<ID>)

  /** The raw content of every section that must not change, with the connectors by ID. */
  datatype Fixed = Fixed(telemetry: string, extensions: string, processors: string, exporters: string,
                         connectors: map<ID, string>)

  datatype Config = Config(fixed: Fixed, receivers: map<ID, string>,
                           extensions: seq<ID>, pipelines: map<PipelineID, Pipeline>)

  type Hash = nat

  /** The two uses of the stable hash. */
  datatype Hasher = Hasher(sections: Fixed -> Hash, entry: string -> Hash)

  ghost predicate CollisionFree(h: Hasher) {
    && (forall a, b :: h.sections(a) == h.sections(b) ==> a == b)
    && (forall a, b :: h.entry(a) == h.entry(b) ==> a == b)
  }

  datatype Fingerprint = Fingerprint(nonReceiverHash: Hash, receiverHashes: map<ID, Hash>,
                                     extensions: seq<ID>, pipelines: map<PipelineID, Pipeline>)

  function EntryHashes(h: Hasher, entries: map<ID, string>): map<ID, Hash> {
    map id | id in entries :: h.entry(entries[id])
  }

  /** What fingerprintForPartialReload records of a configuration. */
  function FingerprintOf(h: Hasher, cfg: Config): Fingerprint {
    Fingerprint(h.sections(cfg.fixed), EntryHashes(h, cfg.receivers), cfg.extensions, cfg.pipelines)
  }

  method HashEntriesByID(h: Hasher, entries: map<ID, string>) returns (out: map<ID, Hash>)
    ensures out == EntryHashes(h, entries)
  {
    out := map[];
    var left := entries.Keys;
    while left != {}
      invariant left <= entries.Keys && out.Keys == entries.Keys - left
      invariant forall id :: id in out ==> out[id] == h.entry(entries[id])
      decreases |left|
    {
      var id :| id in left;
      out := out[id := h.entry(entries[id])];
      left := left - {id};
    }
  }

  method ClonePipelines(pipelines: map<PipelineID, Pipeline>) returns (out: map<PipelineID, Pipeline>)
    ensures out == pipelines
  {
    out := map[];
    var left := pipelines.Keys;
    while left != {}
      invariant left <= pipelines.Keys && out.Keys == pipelines.Keys - left
      invariant forall pid :: pid in out ==> out[pid] == pipelines[pid]
      decreases |left|
    {
      var pid :| pid in left;
      var pipe := pipelines[pid];
      out := out[pid := Pipeline(pipe.receivers, pipe.processors, pipe.exporters)];
      left := left - {pid};
    }
  }

  method FingerprintForPartialReload(h: Hasher, cfg: Config) returns (f: Fingerprint)
    ensures f == FingerprintOf(h, cfg)
  {
    var hashes := HashEntriesByID(h, cfg.receivers);
    var pipes := ClonePipelines(cfg.pipelines);
    f := Fingerprint(h.sections(cfg.fixed), hashes, cfg.extensions, pipes);
  }

  /** The IDs that are connectors, in order. */
  function Connectors(ids: seq<ID>, connectors: set<ID>): (r: seq<ID>)
    ensures forall id :: id in r <==> id in ids && id in connectors
  {
    if ids == [] then []
    else if ids[|ids| - 1] in connectors then Connectors(ids[..|ids| - 1], connectors) + [ids[|ids| - 1]]
    else Connectors(ids[..|ids| - 1], connectors)
  }

  /** Every connector entry is kept, behind exactly the connector entries that stood in front of it. */
  lemma ConnectorsInOrder(a: seq<ID>, id: ID, b: seq<ID>, connectors: set<ID>)
    ensures Connectors(a + [id] + b, connectors)
         == Connectors(a, connectors) + (if id in connectors then [id] else []) + Connectors(b, connectors)
  {
    ConnectorsConcat(a + [id], b, connectors);
    ConnectorsNext(a, id, connectors);
  }

  lemma ConnectorsNext(a: seq<ID>, id: ID, connectors: set<ID>)
    ensures Connectors(a + [id], connectors) == Connectors(a, connectors) + if id in connectors then [id] else []
  {
    assert (a + [id])[..|a|] == a;
  }

  lemma {:induction false} ConnectorsConcat(a: seq<ID>, b: seq<ID>, connectors: set<ID>)
    ensures Connectors(a + b, connectors) == Connectors(a, connectors) + Connectors(b, connectors)
  {
    if b == [] {
      assert a + b == a;
    } else {
      var init, id := b[..|b| - 1], b[|b| - 1];
      ConnectorsConcat(a, init, connectors);
      ConnectorsNext(a + init, id, connectors);
      ConnectorsNext(init, id, connectors);
      assert a + b == a + init + [id] && b == init + [id];
    }
  }

  method FilterIDs(ids: seq<ID>, connectors: set<ID>) returns (out: seq<ID>)
    ensures out == Connectors(ids, connectors)
  {
    out := [];
    for i := 0 to |ids|
      invariant out == Connectors(ids[..i], connectors)
    {
      assert ids[..i + 1][..i] == ids[..i];
      if ids[i] in connectors {
        out := out + [ids[i]];
      }
    }
    assert ids[..|ids|] == ids;
  }

  /** Two pipelines agree in everything but plain receivers. */
  predicate SamePipeline(a: Pipeline, b: Pipeline, connectors: set<ID>) {
    && a.processors == b.processors && a.exporters == b.exporters
    && Connectors(a.receivers, connectors) == Connectors(b.receivers, connectors)
  }

  /** receiversOnlyChanged. The pipelines of `cur` are only looked up, and counted. */
  predicate ReceiversOnlyChanged(old_: Fingerprint, cur: Fingerprint, connectors: set<ID>) {
    && old_.nonReceiverHash == cur.nonReceiverHash
    && old_.extensions == cur.extensions
    && |old_.pipelines| == |cur.pipelines|
    && forall pid :: pid in old_.pipelines ==>
         pid in cur.pipelines && SamePipeline(old_.pipelines[pid], cur.pipelines[pid], connectors)
  }

  method CheckReceiversOnlyChanged(old_: Fingerprint, cur: Fingerprint, connectors: set<ID>) returns (r: bool)
    ensures r == ReceiversOnlyChanged(old_, cur, connectors)
  {
    if old_.nonReceiverHash != cur.nonReceiverHash || old_.extensions != cur.extensions
       || |old_.pipelines| != |cur.pipelines| {
      return false;
    }
    var left := old_.pipelines.Keys;
    while left != {}
      invariant left <= old_.pipelines.Keys
      invariant forall pid :: pid in old_.pipelines.Keys - left ==>
                  pid in cur.pipelines && SamePipeline(old_.pipelines[pid], cur.pipelines[pid], connectors)
      decreases |left|
    {
      var pid :| pid in left;
      if pid !in cur.pipelines {
        return false;
      }
      var a, b := old_.pipelines[pid], cur.pipelines[pid];
      if a.processors != b.processors || a.exporters != b.exporters {
        return false;
      }
      var x := FilterIDs(a.receivers, connectors);
      var y := FilterIDs(b.receivers, connectors);
      if x != y {
        return false;
      }
      left := left - {pid};
    }
    return true;
  }

  /** The configuration with its receivers and its plain-receiver entries struck out. */
  function Struck(cfg: Config): Config {
    Config(cfg.fixed, map[], cfg.extensions,
           map pid | pid in cfg.pipelines ::
             cfg.pipelines[pid].(receivers := Connectors(cfg.pipelines[pid].receivers, cfg.fixed.connectors.Keys)))
  }

  /** What must be the same for two configurations to be equal but for receivers. */
  lemma StruckIff(a: Config, b: Config)
    ensures Struck(a) == Struck(b) <==>
            && a.fixed.telemetry == b.fixed.telemetry && a.fixed.extensions == b.fixed.extensions
            && a.fixed.processors == b.fixed.processors && a.fixed.exporters == b.fixed.exporters
            && a.fixed.connectors == b.fixed.connectors
            && a.extensions == b.extensions && a.pipelines.Keys == b.pipelines.Keys
            && forall pid :: pid in a.pipelines ==>
                 && a.pipelines[pid].processors == b.pipelines[pid].processors
                 && a.pipelines[pid].exporters == b.pipelines[pid].exporters
                 && Connectors(a.pipelines[pid].receivers, a.fixed.connectors.Keys)
                 == Connectors(b.pipelines[pid].receivers, a.fixed.connectors.Keys)
  {
    hide Connectors;
    if Struck(a) == Struck(b) {
      assert a.pipelines.Keys == Struck(a).pipelines.Keys && b.pipelines.Keys == Struck(b).pipelines.Keys;
      forall pid | pid in a.pipelines ensures Struck(a).pipelines[pid] == Struck(b).pipelines[pid] {
      }
    }
  }

  /** A set contained in another of the same size is that set. */
  lemma SameSizeSubset<T>(a: set<T>, b: set<T>)
    requires a <= b && |a| == |b|
    ensures a == b
  {
    if a != b {
      var x :| x in b && x !in a;
      SubsetSize(a + {x}, b);
    }
  }

  lemma {:induction false} SubsetSize<T>(a: set<T>, b: set<T>)
    requires a <= b
    ensures |a| <= |b|
    decreases a
  {
    if a != {} {
      var x :| x in a;
      SubsetSize(a - {x}, b - {x});
    }
  }

  /** The configurations are the same once receivers are struck out. */
  ghost predicate OnlyReceiversDiffer(h: Hasher, a: Config, b: Config) {
    ReceiversOnlyChanged(FingerprintOf(h, a), FingerprintOf(h, b), b.fixed.connectors.Keys)
  }

  lemma ChangedToStruck(a: Config, b: Config)
    requires a.fixed == b.fixed && a.extensions == b.extensions && |a.pipelines| == |b.pipelines|
    requires forall pid :: pid in a.pipelines ==>
               pid in b.pipelines && SamePipeline(a.pipelines[pid], b.pipelines[pid], b.fixed.connectors.Keys)
    ensures Struck(a) == Struck(b)
  {
    hide Connectors;
    assert |a.pipelines.Keys| == |b.pipelines.Keys|;
    SameSizeSubset(a.pipelines.Keys, b.pipelines.Keys);
    assert Struck(a).pipelines == Struck(b).pipelines;
  }

  lemma StruckToChanged(a: Config, b: Config, pid: PipelineID)
    requires Struck(a) == Struck(b)
    ensures |a.pipelines| == |b.pipelines|
    ensures pid in a.pipelines ==>
              pid in b.pipelines && SamePipeline(a.pipelines[pid], b.pipelines[pid], b.fixed.connectors.Keys)
  {
    hide Connectors;
    assert a.pipelines.Keys == Struck(a).pipelines.Keys;
    assert b.pipelines.Keys == Struck(b).pipelines.Keys;
    assert |a.pipelines.Keys| == |b.pipelines.Keys|;
    if pid in a.pipelines {
      assert Struck(a).pipelines[pid] == Struck(b).pipelines[pid];
    }
  }

  /**
   With a collision-free hash, the fingerprints pass the test exactly when the two
   configurations are equal apart from receivers and plain-receiver entries.
   */
  lemma ReceiversOnlyIff(h: Hasher, a: Config, b: Config)
    requires CollisionFree(h)
    ensures OnlyReceiversDiffer(h, a, b) <==> Struck(a) == Struck(b)
  {
    hide SamePipeline, EntryHashes;
    if OnlyReceiversDiffer(h, a, b) {
      ChangedToStruck(a, b);
    }
    if Struck(a) == Struck(b) {
      forall pid | pid in a.pipelines
        ensures pid in b.pipelines && SamePipeline(a.pipelines[pid], b.pipelines[pid], b.fixed.connectors.Keys)
      {
        StruckToChanged(a, b, pid);
      }
      StruckToChanged(a, b, "");
    }
  }

  /** The test is an equivalence, although it looks at connectors of one side only. */
  lemma ReceiversOnlyEquivalence(h: Hasher, a: Config, b: Config, c: Config)
    requires CollisionFree(h)
    ensures OnlyReceiversDiffer(h, a, a)
    ensures OnlyReceiversDiffer(h, a, b) ==> OnlyReceiversDiffer(h, b, a)
    ensures OnlyReceiversDiffer(h, a, b) && OnlyReceiversDiffer(h, b, c) ==> OnlyReceiversDiffer(h, a, c)
  {
    hide OnlyReceiversDiffer, Struck, CollisionFree;
    ReceiversOnlyIff(h, a, a);
    ReceiversOnlyIff(h, a, b);
    ReceiversOnlyIff(h, b, a);
    ReceiversOnlyIff(h, b, c);
    ReceiversOnlyIff(h, a, c);
  }

  /** The receivers that both fingerprints have with different hashes. */
  function DifferingIDs(a: map<ID, Hash>, b: map<ID, Hash>): set<ID> {
    set id | id in b && id in a && a[id] != b[id]
  }

  method ChangedReceivers(old_: Fingerprint, cur: Fingerprint) returns (changed: set<ID>)
    ensures changed == DifferingIDs(old_.receiverHashes, cur.receiverHashes)
  {
    changed := {};
    var a, b := old_.receiverHashes, cur.receiverHashes;
    var left := b.Keys;
    while left != {}
      invariant left <= b.Keys
      invariant forall id :: id in changed <==> id in b.Keys - left && id in a && a[id] != b[id]
      decreases |left|
    {
      var id :| id in left;
      if id in a && a[id] != b[id] {
        changed := changed + {id};
      }
      left := left - {id};
    }
  }

  /** changedReceivers names exactly the receivers that both have and that differ in content. */
  lemma ChangedReceiversExact(h: Hasher, a: Config, b: Config, id: ID)
    requires CollisionFree(h)
    ensures id in DifferingIDs(FingerprintOf(h, a).receiverHashes, FingerprintOf(h, b).receiverHashes)
            <==> id in a.receivers && id in b.receivers && a.receivers[id] != b.receivers[id]
  {
  }
}
