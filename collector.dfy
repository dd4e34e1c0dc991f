/**
 * The master collector: nineteen fixed gauges, each with an extraction closure that resets it and
 * repopulates it from the `/state` snapshot, and the optional slave-attribute counter, registered
 * only when an attribute allow-list is configured. A scrape runs every closure on one snapshot.
 */
module MasterCollector {
  import opened Wrappers
  import opened Ranges
  import opened MasterState
  import opened Gauges
  import opened SlaveAttributes

  datatype Scalar = Cpus | Mem | Disk
  datatype SlavePool = SlaveTotal | SlaveUsed | SlaveUnreserved
  datatype FrameworkPool = FrameworkUsed | FrameworkOffered

  /** What a slave gauge reports: one scalar resource of a pool, or the number of ports in it. */
  datatype SlaveQuantity = Amount(scalar: Scalar) | PortCount

  /** What a framework gauge reports: whether it is active, or one scalar of a resource pool. */
  datatype FrameworkQuantity = Active | Allocation(pool: FrameworkPool, scalar: Scalar)

  /** Which closure feeds a gauge. */
  datatype Extractor =
    | SlaveMetric(pool: SlavePool, quantity: SlaveQuantity)
    | FrameworkMetric(fquantity: FrameworkQuantity)

  /** A registered gauge: its options and the closure that fills it. */
  datatype Metric = Metric(opts: Opts, extractor: Extractor)

  /** `labels`: the label names of every slave gauge. */
  const SlaveLabelNames: seq<string> := ["slave", "hostname"]

  /** `framework_labels`: the label names of every framework gauge. */
  const FrameworkLabelNames: seq<string> := ["framework"]

  function LabelNames(e: Extractor): seq<string> {
    if e.SlaveMetric? then SlaveLabelNames else FrameworkLabelNames
  }

  function SlaveOpts(name: string, help: string): Opts {
    Opts("mesos", "slave", name, help)
  }

  function FrameworkOpts(name: string, help: string): Opts {
    Opts("mesos", "framework", name, help)
  }

  /** The nineteen gauges of `newMasterStateCollector`, in the order they are written there. */
  const FixedMetrics: seq<Metric> := [
    Metric(SlaveOpts("cpus", "Total slave CPUs (fractional)"), SlaveMetric(SlaveTotal, Amount(Cpus))),
    Metric(SlaveOpts("cpus_used", "Used slave CPUs (fractional)"), SlaveMetric(SlaveUsed, Amount(Cpus))),
    Metric(SlaveOpts("cpus_unreserved", "Unreserved slave CPUs (fractional)"), SlaveMetric(SlaveUnreserved, Amount(Cpus))),
    Metric(SlaveOpts("mem_bytes", "Total slave memory in bytes"), SlaveMetric(SlaveTotal, Amount(Mem))),
    Metric(SlaveOpts("mem_used_bytes", "Used slave memory in bytes"), SlaveMetric(SlaveUsed, Amount(Mem))),
    Metric(SlaveOpts("mem_unreserved_bytes", "Unreserved slave memory in bytes"), SlaveMetric(SlaveUnreserved, Amount(Mem))),
    Metric(SlaveOpts("disk_bytes", "Total slave disk space in bytes"), SlaveMetric(SlaveTotal, Amount(Disk))),
    Metric(SlaveOpts("disk_used_bytes", "Used slave disk space in bytes"), SlaveMetric(SlaveUsed, Amount(Disk))),
    Metric(SlaveOpts("disk_unreserved_bytes", "Unreserved slave disk in bytes"), SlaveMetric(SlaveUnreserved, Amount(Disk))),
    Metric(SlaveOpts("ports", "Total slave ports"), SlaveMetric(SlaveTotal, PortCount)),
    Metric(SlaveOpts("ports_used", "Used slave ports"), SlaveMetric(SlaveUsed, PortCount)),
    Metric(SlaveOpts("ports_unreserved", "Unreserved slave ports"), SlaveMetric(SlaveUnreserved, PortCount)),
    Metric(FrameworkOpts("active", "Active framework"), FrameworkMetric(Active)),
    Metric(FrameworkOpts("cpu_used", "Framework cpu used"), FrameworkMetric(Allocation(FrameworkUsed, Cpus))),
    Metric(FrameworkOpts("disk_used", "Framework disk used"), FrameworkMetric(Allocation(FrameworkUsed, Disk))),
    Metric(FrameworkOpts("mem_used", "Framework memory used"), FrameworkMetric(Allocation(FrameworkUsed, Mem))),
    Metric(FrameworkOpts("cpu_offered", "Framework cpu offered"), FrameworkMetric(Allocation(FrameworkOffered, Cpus))),
    Metric(FrameworkOpts("mem_offered", "Framework mem offered"), FrameworkMetric(Allocation(FrameworkOffered, Mem))),
    Metric(FrameworkOpts("disk_offered", "Framework disk offered"), FrameworkMetric(Allocation(FrameworkOffered, Disk)))
  ]

  /** The registry holds a gauge for every slave pool and quantity and for every framework quantity. */
  lemma RegistryCovers()
    ensures |FixedMetrics| == 19
    ensures forall p: SlavePool, q: SlaveQuantity :: exists i :: 0 <= i < |FixedMetrics| && FixedMetrics[i].extractor == SlaveMetric(p, q)
    ensures forall q: FrameworkQuantity :: exists i :: 0 <= i < |FixedMetrics| && FixedMetrics[i].extractor == FrameworkMetric(q)
  {
    forall p: SlavePool, q: SlaveQuantity
      ensures exists i :: 0 <= i < |FixedMetrics| && FixedMetrics[i].extractor == SlaveMetric(p, q)
    {
      var i := 3 * (match q case Amount(Cpus) => 0 case Amount(Mem) => 1 case Amount(Disk) => 2 case PortCount => 3)
             + (match p case SlaveTotal => 0 case SlaveUsed => 1 case SlaveUnreserved => 2);
      assert FixedMetrics[i].extractor == SlaveMetric(p, q);
    }
    forall q: FrameworkQuantity
      ensures exists i :: 0 <= i < |FixedMetrics| && FixedMetrics[i].extractor == FrameworkMetric(q)
    {
      var i := match q
        case Active => 12
        case Allocation(FrameworkUsed, Cpus) => 13
        case Allocation(FrameworkUsed, Disk) => 14
        case Allocation(FrameworkUsed, Mem) => 15
        case Allocation(FrameworkOffered, Cpus) => 16
        case Allocation(FrameworkOffered, Mem) => 17
        case Allocation(FrameworkOffered, Disk) => 18;
      assert FixedMetrics[i].extractor == FrameworkMetric(q);
    }
  }

  /** No closure is registered twice, and each gauge sits in the subsystem of the entities it reads. */
  lemma RegistryDistinct()
    ensures forall i, j :: 0 <= i < j < |FixedMetrics| ==> FixedMetrics[i].extractor != FixedMetrics[j].extractor
    ensures forall i :: 0 <= i < |FixedMetrics| ==>
      FixedMetrics[i].opts.subsystem == (if FixedMetrics[i].extractor.SlaveMetric? then "slave" else "framework")
  {
  }

  function PoolOf(s: Slave, p: SlavePool): Resources {
    match p
    case SlaveTotal => s.total
    case SlaveUsed => s.used
    case SlaveUnreserved => s.unreserved
  }

  function FrameworkPoolOf(f: Framework, p: FrameworkPool): FrameworkResources {
    match p
    case FrameworkUsed => f.used
    case FrameworkOffered => f.offered
  }

  /** The value a slave gauge is set to: mem and disk scaled by 1024, ports counted by `size`. */
  function SlaveValue(p: SlavePool, q: SlaveQuantity, s: Slave): real {
    var r := PoolOf(s, p);
    match q
    case Amount(Cpus) => r.cpus
    case Amount(Mem) => r.mem * 1024.0
    case Amount(Disk) => r.disk * 1024.0
    case PortCount => SizeOf(r.ports) as real
  }

  /** The value a framework gauge is set to: 1 or 0 for `active`, resources unchanged. */
  function FrameworkValue(q: FrameworkQuantity, f: Framework): real {
    match q
    case Active => if f.active then 1.0 else 0.0
    case Allocation(p, Cpus) => FrameworkPoolOf(f, p).cpus
    case Allocation(p, Mem) => FrameworkPoolOf(f, p).mem
    case Allocation(p, Disk) => FrameworkPoolOf(f, p).disk
  }

  /** `WithLabelValues(s.PID, s.Hostname)`. */
  function SlaveKey(s: Slave): LabelValues {
    [s.pid, s.hostname]
  }

  /** `WithLabelValues(f.Name)`. */
  function FrameworkKey(f: Framework): LabelValues {
    [f.name]
  }

  function SlaveProjection(p: SlavePool, q: SlaveQuantity): Slave -> real {
    s => SlaveValue(p, q, s)
  }

  function FrameworkProjection(q: FrameworkQuantity): Framework -> real {
    f => FrameworkValue(q, f)
  }

  /** The series a gauge holds after its closure ran on `st`. */
  function Expected(e: Extractor, st: State): map<LabelValues, real> {
    match e
    case SlaveMetric(p, q) => Populate(st.slaves, SlaveKey, SlaveProjection(p, q))
    case FrameworkMetric(q) => Populate(st.frameworks, FrameworkKey, FrameworkProjection(q))
  }

  /** One gauge closure of the registry. */
  method RunExtractor(g: GaugeVec, e: Extractor, st: State)
    requires g.labelNames == LabelNames(e)
    modifies g
    ensures g.values == Expected(e, st)
  {
    match e
    case SlaveMetric(p, q) =>
      Extract(g, st.slaves, SlaveKey, SlaveProjection(p, q));
    case FrameworkMetric(q) =>
      Extract(g, st.frameworks, FrameworkKey, FrameworkProjection(q));
  }

  /**
   * After a scrape a slave gauge has exactly one series per distinct (pid, hostname) of the
   * snapshot and a framework gauge one per distinct framework name; entities that disappeared
   * from the snapshot have no series any more.
   */
  lemma ExpectedKeys(e: Extractor, st: State)
    ensures e.SlaveMetric? ==> Expected(e, st).Keys == set i | 0 <= i < |st.slaves| :: [st.slaves[i].pid, st.slaves[i].hostname]
    ensures e.FrameworkMetric? ==> Expected(e, st).Keys == set i | 0 <= i < |st.frameworks| :: [st.frameworks[i].name]
  {
    match e
    case SlaveMetric(p, q) => PopulateKeys(st.slaves, SlaveKey, SlaveProjection(p, q));
    case FrameworkMetric(q) => PopulateKeys(st.frameworks, FrameworkKey, FrameworkProjection(q));
  }

  /**
   * The series of a slave that no later slave of the snapshot shares its (pid, hostname) with
   * holds cpus unchanged, mem and disk times 1024, and the wrapped sum of its port-range widths.
   */
  lemma SlaveGaugeValue(p: SlavePool, q: SlaveQuantity, st: State, j: nat)
    requires j < |st.slaves|
    requires forall k :: j < k < |st.slaves| ==> SlaveKey(st.slaves[k]) != SlaveKey(st.slaves[j])
    ensures [st.slaves[j].pid, st.slaves[j].hostname] in Expected(SlaveMetric(p, q), st)
    ensures var v := Expected(SlaveMetric(p, q), st)[[st.slaves[j].pid, st.slaves[j].hostname]];
      var r := PoolOf(st.slaves[j], p);
      && (q == Amount(Cpus) ==> v == r.cpus)
      && (q == Amount(Mem) ==> v == r.mem * 1024.0)
      && (q == Amount(Disk) ==> v == r.disk * 1024.0)
      && (q == PortCount ==> v == (Total(r.ports) % Modulus) as real)
  {
    PopulateLastWins(st.slaves, SlaveKey, SlaveProjection(p, q), j);
  }

  /**
   * The series of a framework that no later framework of the snapshot shares its name with holds
   * 1 or 0 for `active` and its used or offered resources unchanged.
   */
  lemma FrameworkGaugeValue(q: FrameworkQuantity, st: State, j: nat)
    requires j < |st.frameworks|
    requires forall k :: j < k < |st.frameworks| ==> st.frameworks[k].name != st.frameworks[j].name
    ensures [st.frameworks[j].name] in Expected(FrameworkMetric(q), st)
    ensures var v := Expected(FrameworkMetric(q), st)[[st.frameworks[j].name]];
      var f := st.frameworks[j];
      && (q == Active ==> (v == 1.0 <==> f.active) && (v == 0.0 <==> !f.active))
      && (q == Allocation(FrameworkUsed, Cpus) ==> v == f.used.cpus)
      && (q == Allocation(FrameworkUsed, Mem) ==> v == f.used.mem)
      && (q == Allocation(FrameworkUsed, Disk) ==> v == f.used.disk)
      && (q == Allocation(FrameworkOffered, Cpus) ==> v == f.offered.cpus)
      && (q == Allocation(FrameworkOffered, Mem) ==> v == f.offered.mem)
      && (q == Allocation(FrameworkOffered, Disk) ==> v == f.offered.disk)
  {
    forall k | j < k < |st.frameworks| ensures FrameworkKey(st.frameworks[k]) != FrameworkKey(st.frameworks[j]) {
      assert FrameworkKey(st.frameworks[k])[0] == st.frameworks[k].name;
    }
    PopulateLastWins(st.frameworks, FrameworkKey, FrameworkProjection(q), j);
  }

  /** `masterCollector`: the registry built once, and the scrape that refreshes it. */
  class Collector {
    const gauges: seq<GaugeVec>
    const attributes: CounterVec?
    const attributeLabels: seq<string>
    const exportLabels: seq<string>
    const helpers: Helpers

    /** Gauge `i` is the `i`-th fixed metric; the counter, if any, has the export labels. */
    ghost predicate Valid() {
      && |gauges| == |FixedMetrics|
      && (forall i :: 0 <= i < |gauges| ==>
            gauges[i].opts == FixedMetrics[i].opts && gauges[i].labelNames == LabelNames(FixedMetrics[i].extractor))
      && (forall i, j :: 0 <= i < j < |gauges| ==> gauges[i] != gauges[j])
      && exportLabels == SlaveLabelNames + attributeLabels
      && (attributes != null ==> attributes.labelNames == exportLabels)
    }

    /**
     * `newMasterStateCollector`: the nineteen gauges, and the attribute counter labelled `slave`,
     * `hostname` and the normalised allow-list only when the allow-list is not empty.
     */
    constructor (slaveAttributeLabels: seq<string>, helpers: Helpers)
      ensures Valid()
      ensures this.helpers == helpers
      ensures attributeLabels == NormaliseLabelList(slaveAttributeLabels, helpers.normaliseLabel)
      ensures forall i :: 0 <= i < |gauges| ==> fresh(gauges[i]) && gauges[i].values == map[]
      ensures attributes != null <==> |slaveAttributeLabels| > 0
      ensures attributes != null ==>
        && fresh(attributes) && attributes.rows == map[]
        && attributes.subsystem == "slave" && attributes.name == "attributes"
        && attributes.help == "Attributes assigned to slaves"
    {
      var gs: seq<GaugeVec> := [];
      for i := 0 to |FixedMetrics|
        invariant |gs| == i
        invariant forall k :: 0 <= k < i ==>
          && fresh(gs[k]) && gs[k].values == map[]
          && gs[k].opts == FixedMetrics[k].opts && gs[k].labelNames == LabelNames(FixedMetrics[k].extractor)
        invariant forall k, l :: 0 <= k < l < i ==> gs[k] != gs[l]
      {
        var g := new GaugeVec(FixedMetrics[i].opts, LabelNames(FixedMetrics[i].extractor));
        gs := gs + [g];
      }
      gauges := gs;
      this.helpers := helpers;
      var normalised := NormaliseLabelList(slaveAttributeLabels, helpers.normaliseLabel);
      attributeLabels := normalised;
      exportLabels := SlaveLabelNames + normalised;
      if |slaveAttributeLabels| > 0 {
        attributes := new CounterVec("slave", "attributes", "Attributes assigned to slaves", SlaveLabelNames + normalised);
      } else {
        attributes := null;
      }
    }

    /**
     * `Collect` on the snapshot `st` the fetch produced: every gauge is replaced by what its
     * closure computes from `st`, and the counter gains a row of 1 per slave and keeps the rest.
     */
    method Collect(st: State)
      requires Valid()
      modifies gauges, attributes
      ensures forall i :: 0 <= i < |gauges| ==> gauges[i].values == Expected(FixedMetrics[i].extractor, st)
      ensures attributes != null ==>
        attributes.rows == old(attributes.rows) + Populate(st.slaves, RowKey(attributeLabels, exportLabels, helpers), One)
    {
      for i := 0 to |gauges|
        invariant forall k :: 0 <= k < i ==> gauges[k].values == Expected(FixedMetrics[k].extractor, st)
        invariant attributes != null ==> attributes.rows == old(attributes.rows)
      {
        RunExtractor(gauges[i], FixedMetrics[i].extractor, st);
      }
      if attributes != null {
        ExtractAttributes(attributes, st.slaves, attributeLabels, exportLabels, helpers);
      }
    }
  }

  /**
   * One slave `s1` on `h1` with 4 cpus, 1024 mem, 1024 disk and ports 31000-32000 in its total
   * pool: its cpus, mem_bytes and ports series are 4, 1048576 and 1001.
   */
  lemma OneSlaveScenario(s: Slave)
    requires s.pid == "s1" && s.hostname == "h1"
    requires s.total == Resources(4.0, 1024.0, 1024.0, [Range(31000, 32000)])
    ensures Expected(SlaveMetric(SlaveTotal, Amount(Cpus)), State([s], []))[["s1", "h1"]] == 4.0
    ensures Expected(SlaveMetric(SlaveTotal, Amount(Mem)), State([s], []))[["s1", "h1"]] == 1048576.0
    ensures Expected(SlaveMetric(SlaveTotal, PortCount), State([s], []))[["s1", "h1"]] == 1001.0
  {
    SizeExamples();
    assert [s][..0] == [];
  }

  /**
   * With the allow-list `rack`, a slave `s1` whose only attribute `rack` normalises to itself and
   * reads as the string `r1` gets the label map `slave = s1, rack = r1`.
   */
  lemma RackScenario(s: Slave, h: Helpers)
    requires s.pid == "s1" && |s.attributes| == 1
    requires h.normaliseLabel(s.attributes[0].0) == "rack" && h.attributeString(s.attributes[0].1) == Some("r1")
    ensures SlaveLabels(s, ["rack"], h) == map["slave" := "s1", "rack" := "r1"]
  {
    var m := Defaults("s1", ["rack"]);
    assert ["rack"][..0] == [];
    assert m == map["slave" := "s1", "rack" := ""];
    assert s.attributes[..0] == [];
    assert Overwrite(m, s.attributes, ["rack"], h) == Apply(m, s.attributes[0], ["rack"], h);
  }
}
