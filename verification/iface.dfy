/**
 * The interface collector: one sample per metric and interface, read from
 * the Interface rows of the Open_vSwitch database. Each sample is labelled
 * by the interface's bridge and port, which come from joining the Bridge,
 * Port and Interface tables. The per-queue metrics emit one sample per
 * queue, for as long as the statistics hold a counter for the next queue.
 */
module Iface {
  import opened Wrappers
  import opened Text
  import opened Config
  import opened Registry
  import opened OvsSchema
  import opened Assoc
  import Ovsdb

  // ---------------------------------------------------------------------
  // Metrics

  /** How a metric reads its value from an Interface row. */
  datatype Reading =
    | AdminState
    | LinkState
    | Mtu
    | LinkSpeed
    | LinkResets
      /** One counter of the statistics column, 0 when absent. */
    | Stat(key: string)
      /** The preferred counter when it is positive, else the fallback counter. */
    | StatOr(preferred: string, fallback: string)
      /** The counters `<direction>_q<n>_<suffix>`, one sample per queue n. */
    | Queue(direction: string, suffix: string)

  /** A metric of the collector with the way it reads an interface. */
  datatype IfaceMetric = IfaceMetric(metric: Metric, reading: Reading)

  const CommonLabels: seq<string> := ["bridge", "port", "interface", "type"]
  const QueueLabels: seq<string> := CommonLabels + ["queue"]

  /** The label names a metric with this reading carries. */
  function LabelsOf(reading: Reading): seq<string> {
    if reading.Queue? then QueueLabels else CommonLabels
  }

  /** The help text of each metric, by name. */
  function Help(name: string): string {
    if name == "ovs_interface_admin_state" then
      "The administrative state of the interface. Possible values are: up(1), down(0) or unknown(-1)."
    else if name == "ovs_interface_link_state" then
      "The link state of the interface. Possible values are: up(1), down(0) or unknown(-1)."
    else if name == "ovs_interface_mtu_bytes" then "Maximum transmission unit size in bytes."
    else if name == "ovs_interface_link_speed_bps" then "Link speed in bits per second."
    else if name == "ovs_interface_link_resets" then "The number of times the link_state has changed."
    else if name == "ovs_interface_rx_packets" then "Number of received packets."
    else if name == "ovs_interface_rx_bytes" then "Number of received bytes."
    else if name == "ovs_interface_rx_errors" then "Number of invalid packets received."
    else if name == "ovs_interface_rx_dropped" then "Number of packets dropped by hardware because the Rx ring was full."
    else if name == "ovs_interface_tx_packets" then "Number of transmitted packets."
    else if name == "ovs_interface_tx_bytes" then "Number of transmitted bytes."
    else if name == "ovs_interface_tx_errors" then "Number of errors while transmitting packets."
    else if name == "ovs_interface_tx_retries" then
      "Number of times a packet transmission was retried because the destination queue was full."
    else if name == "ovs_interface_rx_guest_notifications" then
      "Number of times a guest was notifified of a received pkt on this queue."
    else if name == "ovs_interface_tx_guest_notifications" then
      "Number of times a guest was notifified of a transmitted pkt on this queue."
    else if name == "ovs_interface_rx_good_packets" then
      "Number of received packets that were delivered to the guest for this queue."
    else if name == "ovs_interface_tx_good_packets" then
      "Number of transmitted packets that were received from the guest for this queue."
    else if name == "ovs_interface_rx_multicast_packets" then "Number of recieved multicast packets for this queue."
    else if name == "ovs_interface_tx_multicast_packets" then "Number of transmitted multicast packets for this queue."
    else ""
  }

  /** Each metric's name, value type, set and reading, in the order the collector walks them for every interface. */
  const Entries: seq<(string, ValueType, MetricSet, Reading)> := [
    ("ovs_interface_admin_state", Gauge, BASE, AdminState),
    ("ovs_interface_link_state", Gauge, BASE, LinkState),
    ("ovs_interface_mtu_bytes", Gauge, BASE, Mtu),
    ("ovs_interface_link_speed_bps", Gauge, BASE, LinkSpeed),
    ("ovs_interface_link_resets", Counter, COUNTERS, LinkResets),
    ("ovs_interface_rx_packets", Counter, COUNTERS, Stat("rx_packets")),
    ("ovs_interface_rx_bytes", Counter, COUNTERS, Stat("rx_bytes")),
    ("ovs_interface_rx_errors", Counter, ERRORS, Stat("rx_errors")),
    ("ovs_interface_rx_dropped", Counter, ERRORS, StatOr("rx_missed_errors", "rx_dropped")),
    ("ovs_interface_tx_packets", Counter, COUNTERS, Stat("tx_packets")),
    ("ovs_interface_tx_bytes", Counter, COUNTERS, Stat("tx_bytes")),
    ("ovs_interface_tx_errors", Counter, ERRORS, StatOr("ovs_tx_failure_drops", "tx_errors")),
    ("ovs_interface_tx_retries", Counter, ERRORS, Stat("ovs_tx_retries")),
    ("ovs_interface_rx_guest_notifications", Counter, PERF, Queue("rx", "guest_notifications")),
    ("ovs_interface_tx_guest_notifications", Counter, PERF, Queue("tx", "guest_notifications")),
    ("ovs_interface_rx_good_packets", Counter, PERF, Queue("rx", "good_packets")),
    ("ovs_interface_tx_good_packets", Counter, PERF, Queue("tx", "good_packets")),
    ("ovs_interface_rx_multicast_packets", Counter, PERF, Queue("rx", "multicast_packets")),
    ("ovs_interface_tx_multicast_packets", Counter, PERF, Queue("tx", "multicast_packets"))
  ]

  /** The metrics the entries describe, with their help texts and label names. */
  function MetricsOf(entries: seq<(string, ValueType, MetricSet, Reading)>): (ms: seq<IfaceMetric>)
    ensures |ms| == |entries|
    ensures forall k :: 0 <= k < |entries| ==>
              ms[k] == IfaceMetric(Metric(entries[k].0, Help(entries[k].0), LabelsOf(entries[k].3), entries[k].1, entries[k].2),
                                   entries[k].3)
  {
    seq(|entries|, k requires 0 <= k < |entries| =>
      IfaceMetric(Metric(entries[k].0, Help(entries[k].0), LabelsOf(entries[k].3), entries[k].1, entries[k].2), entries[k].3))
  }

  const IfaceMetrics: seq<IfaceMetric> := MetricsOf(Entries)

  /** The descriptors of a metric list, in order. */
  function Descriptors(ms: seq<IfaceMetric>): (ds: seq<Metric>)
    ensures |ds| == |ms| && forall k :: 0 <= k < |ms| ==> ds[k] == ms[k].metric
  {
    seq(|ms|, k requires 0 <= k < |ms| => ms[k].metric)
  }

  const Info: CollectorInfo := CollectorInfo("interface", Descriptors(IfaceMetrics))

  /** Every metric carries the label names its reading fills. */
  lemma MetricsShape()
    ensures |IfaceMetrics| == 19
    ensures forall k :: 0 <= k < |IfaceMetrics| ==> IfaceMetrics[k].metric.labels == LabelsOf(IfaceMetrics[k].reading)
  {
    assert |Entries| == 19;
  }

  lemma EntryNamesDistinct()
    ensures forall i, j :: 0 <= i < j < |Entries| ==> Entries[i].0 != Entries[j].0
  {
  }

  /** No two metrics of the collector share a name. */
  lemma MetricNamesDistinct()
    ensures NamesDistinct(Info.metrics)
  {
    EntryNamesDistinct();
  }

  // ---------------------------------------------------------------------
  // Values

  /** The value of a state column: 1 for up, 0 for down, -1 for anything else or nothing. */
  function StateValue(state: Option<string>): (v: real)
    ensures v == 1.0 <==> state == Some("up")
    ensures v == 0.0 <==> state == Some("down")
    ensures v == -1.0 <==> state != Some("up") && state != Some("down")
  {
    if state == Some("up") then 1.0 else if state == Some("down") then 0.0 else -1.0
  }

  /** An optional integer column, 0 when the column is empty. */
  function ColumnValue(column: Option<int>): real {
    match column
    case Some(n) => n as real
    case None => 0.0
  }

  /** A statistics counter, 0 when the counter is absent (the Go map's zero value). */
  function StatValue(stats: map<string, int>, key: string): int {
    if key in stats then stats[key] else 0
  }

  /** The value of a metric that is not per queue. */
  function Value(reading: Reading, i: Interface): real
    requires !reading.Queue?
  {
    match reading
    case AdminState => StateValue(i.adminState)
    case LinkState => StateValue(i.linkState)
    case Mtu => ColumnValue(i.mtu)
    case LinkSpeed => ColumnValue(i.linkSpeed)
    case LinkResets => ColumnValue(i.linkResets)
    case Stat(key) => StatValue(i.statistics, key) as real
    case StatOr(preferred, fallback) =>
      if StatValue(i.statistics, preferred) > 0 then StatValue(i.statistics, preferred) as real
      else StatValue(i.statistics, fallback) as real
  }

  /** A drop or error count reports the driver's own counter whenever it has counted anything, the generic one otherwise. */
  lemma PreferredCounter(i: Interface, preferred: string, fallback: string)
    ensures preferred in i.statistics && i.statistics[preferred] > 0 ==>
              Value(StatOr(preferred, fallback), i) == i.statistics[preferred] as real
    ensures (preferred !in i.statistics || i.statistics[preferred] <= 0) ==>
              Value(StatOr(preferred, fallback), i) == Value(Stat(fallback), i)
  {
  }

  /** A column or counter the row holds is reported as it is. */
  lemma PresentValues(i: Interface, key: string)
    ensures i.mtu.Some? ==> Value(Mtu, i) == i.mtu.value as real
    ensures i.linkSpeed.Some? ==> Value(LinkSpeed, i) == i.linkSpeed.value as real
    ensures i.linkResets.Some? ==> Value(LinkResets, i) == i.linkResets.value as real
    ensures key in i.statistics ==> Value(Stat(key), i) == i.statistics[key] as real
  {
  }

  /** An interface row with every optional column empty and no statistics reads unknown states and zero counts. */
  lemma EmptyRowValues(i: Interface, reading: Reading)
    requires i.adminState.None? && i.linkState.None? && i.mtu.None? && i.linkSpeed.None? && i.linkResets.None?
    requires i.statistics == map[]
    requires !reading.Queue?
    ensures reading.AdminState? || reading.LinkState? ==> Value(reading, i) == -1.0
    ensures !reading.AdminState? && !reading.LinkState? ==> Value(reading, i) == 0.0
  {
  }

  // ---------------------------------------------------------------------
  // Per-queue counters

  /** The statistics key of one queue's counter: `rx_q0_good_packets`. */
  function QueueKey(direction: string, index: nat, suffix: string): string {
    direction + "_q" + NatToString(index) + "_" + suffix
  }

  /** Two queues' keys for the same counter differ. */
  lemma QueueKeyInjective(direction: string, suffix: string, a: nat, b: nat)
    requires QueueKey(direction, a, suffix) == QueueKey(direction, b, suffix)
    ensures a == b
  {
    var p := direction + "_q";
    var sa := NatToString(a);
    var sb := NatToString(b);
    var x := QueueKey(direction, a, suffix);
    assert x == p + sa + ("_" + suffix);
    assert x == p + sb + ("_" + suffix);
    assert |sa| == |sb|;
    assert x[|p|..|p| + |sa|] == sa;
    assert x[|p|..|p| + |sb|] == sb;
    NatToStringInjective(a, b);
  }

  /**
   * The counters under `key(from)`, `key(from + 1)`, ... up to the first
   * index without one. The search is cut once the index passes the number
   * of counters; RunStopsAtGap shows that the cut never comes first.
   */
  function Run(stats: map<string, int>, key: nat -> string, from: nat): (vs: seq<int>)
    ensures |vs| > 0 ==> from + |vs| <= |stats| + 1
    decreases |stats| + 1 - from
  {
    if from > |stats| || key(from) !in stats then []
    else [stats[key(from)]] + Run(stats, key, from + 1)
  }

  /** Each value of a run is the counter of its index, and the run ends at a missing counter or at the cut. */
  lemma {:induction false} RunValues(stats: map<string, int>, key: nat -> string, from: nat)
    ensures var vs := Run(stats, key, from);
            (forall j :: from <= j < from + |vs| ==> key(j) in stats && vs[j - from] == stats[key(j)])
            && (key(from + |vs|) !in stats || from + |vs| > |stats|)
    decreases |stats| + 1 - from
  {
    var vs := Run(stats, key, from);
    if !(from > |stats| || key(from) !in stats) {
      var rest := Run(stats, key, from + 1);
      RunValues(stats, key, from + 1);
      assert vs == [stats[key(from)]] + rest;
      forall j | from + 1 <= j < from + |vs| ensures key(j) in stats && vs[j - from] == stats[key(j)] {
        assert vs[j - from] == rest[j - (from + 1)];
      }
      assert from + |vs| == from + 1 + |rest|;
    }
  }

  /** The keys of indexes 0 to n - 1. */
  function KeySet(key: nat -> string, n: nat): (keys: set<string>)
    ensures forall j :: 0 <= j < n ==> key(j) in keys
  {
    if n == 0 then {} else KeySet(key, n - 1) + {key(n - 1)}
  }

  lemma {:induction false} KeySetOnly(key: nat -> string, n: nat, x: string)
    requires x in KeySet(key, n)
    ensures exists j :: 0 <= j < n && x == key(j)
  {
    if x != key(n - 1) {
      KeySetOnly(key, n - 1, x);
    }
  }

  lemma {:induction false} KeySetSize(key: nat -> string, n: nat)
    requires forall a, b :: 0 <= a < b < n ==> key(a) != key(b)
    ensures |KeySet(key, n)| == n
  {
    if n > 0 {
      KeySetSize(key, n - 1);
      if key(n - 1) in KeySet(key, n - 1) {
        KeySetOnly(key, n - 1, key(n - 1));
      }
    }
  }

  lemma SubsetSize(a: set<string>, b: set<string>)
    requires a <= b
    ensures |a| <= |b|
  {
    assert b == a + (b - a);
    assert a * (b - a) == {};
  }

  /** n counters under distinct keys need n statistics entries. */
  lemma KeysFit(stats: map<string, int>, key: nat -> string, n: nat)
    requires forall a, b :: 0 <= a < b < n ==> key(a) != key(b)
    requires forall j :: 0 <= j < n ==> key(j) in stats
    ensures n <= |stats|
  {
    KeySetSize(key, n);
    forall x | x in KeySet(key, n) ensures x in stats.Keys {
      KeySetOnly(key, n, x);
    }
    SubsetSize(KeySet(key, n), stats.Keys);
  }

  /** With distinct keys, a run from 0 always ends at the first missing counter, never at the cut. */
  lemma {:induction false} RunStopsAtGap(stats: map<string, int>, key: nat -> string)
    requires forall a, b :: 0 <= a < b ==> key(a) != key(b)
    ensures var vs := Run(stats, key, 0);
            (forall j :: 0 <= j < |vs| ==> key(j) in stats && vs[j] == stats[key(j)])
            && key(|vs|) !in stats
  {
    var vs := Run(stats, key, 0);
    RunValues(stats, key, 0);
    if key(|vs|) in stats {
      KeysFit(stats, key, |vs| + 1);
    }
  }

  /** The counters of one direction's queues, from queue 0. */
  function QueueRun(stats: map<string, int>, direction: string, suffix: string): (vs: seq<int>)
    ensures |vs| <= |stats| + 1
  {
    Run(stats, (k: nat) => QueueKey(direction, k, suffix), 0)
  }

  /**
   * The run holds the counter of every queue up to the first queue without
   * one, and stops there: the values the collector's unbounded loop reads.
   */
  lemma QueueRunComplete(stats: map<string, int>, direction: string, suffix: string)
    ensures var vs := QueueRun(stats, direction, suffix);
            (forall q :: 0 <= q < |vs| ==> QueueKey(direction, q, suffix) in stats && vs[q] == stats[QueueKey(direction, q, suffix)])
            && QueueKey(direction, |vs|, suffix) !in stats
  {
    var key := (k: nat) => QueueKey(direction, k, suffix);
    forall a, b | 0 <= a < b ensures key(a) != key(b) {
      if key(a) == key(b) {
        QueueKeyInjective(direction, suffix, a, b);
      }
    }
    RunStopsAtGap(stats, key);
    var vs := QueueRun(stats, direction, suffix);
    forall q | 0 <= q < |vs| ensures QueueKey(direction, q, suffix) in stats && vs[q] == stats[QueueKey(direction, q, suffix)] {
      assert key(q) == QueueKey(direction, q, suffix);
    }
    assert key(|vs|) == QueueKey(direction, |vs|, suffix);
  }

  /** One sample per queue, labelled by the queue's index. */
  function QueueSamples(metric: Metric, labels: seq<string>, vs: seq<int>): (r: seq<Sample>)
    ensures |r| == |vs|
    ensures forall k :: 0 <= k < |vs| ==> r[k] == Sample(metric, labels + [NatToString(k)], vs[k] as real)
  {
    seq(|vs|, k requires 0 <= k < |vs| => Sample(metric, labels + [NatToString(k)], vs[k] as real))
  }

  // ---------------------------------------------------------------------
  // Samples of one interface

  /** The samples of one metric for one interface carrying `labels`. */
  function MetricSamples(m: IfaceMetric, labels: seq<string>, i: Interface): (r: seq<Sample>)
  {
    match m.reading
    case Queue(direction, suffix) => QueueSamples(m.metric, labels, QueueRun(i.statistics, direction, suffix))
    case _ => [Sample(m.metric, labels, Value(m.reading, i))]
  }

  /** The samples of every metric whose set is active, in metric order. */
  function InterfaceSamples(active: MetricSet, ms: seq<IfaceMetric>, labels: seq<string>, i: Interface): (r: seq<Sample>)
    decreases |ms|
  {
    if |ms| == 0 then []
    else (if Has(active, ms[0].metric.metricSet) then MetricSamples(ms[0], labels, i) else []) +
         InterfaceSamples(active, ms[1..], labels, i)
  }

  /** A sample of one interface is a sample of one of the active metrics. */
  lemma {:induction false} InterfaceSampleFrom(active: MetricSet, ms: seq<IfaceMetric>, labels: seq<string>, i: Interface, s: Sample)
    requires s in InterfaceSamples(active, ms, labels, i)
    ensures exists k :: 0 <= k < |ms| && Has(active, ms[k].metric.metricSet) && s in MetricSamples(ms[k], labels, i)
    decreases |ms|
  {
    if !(Has(active, ms[0].metric.metricSet) && s in MetricSamples(ms[0], labels, i)) {
      InterfaceSampleFrom(active, ms[1..], labels, i, s);
      var k :| 0 <= k < |ms[1..]| && Has(active, ms[1..][k].metric.metricSet) && s in MetricSamples(ms[1..][k], labels, i);
      assert ms[1..][k] == ms[k + 1];
    }
  }

  /** Every sample of an active metric is among the interface's samples. */
  lemma {:induction false} InterfaceSampleOf(active: MetricSet, ms: seq<IfaceMetric>, labels: seq<string>, i: Interface, k: nat, s: Sample)
    requires k < |ms| && Has(active, ms[k].metric.metricSet) && s in MetricSamples(ms[k], labels, i)
    ensures s in InterfaceSamples(active, ms, labels, i)
    decreases |ms|
  {
    if k > 0 {
      assert ms[1..][k - 1] == ms[k];
      InterfaceSampleOf(active, ms[1..], labels, i, k - 1, s);
    }
  }

  /**
   * A metric that is not per queue gives exactly one sample with the
   * interface's labels and value; a per-queue metric gives one sample per
   * queue counter, labelled by the queue's index, up to the first missing
   * queue.
   */
  lemma MetricSamplesExact(m: IfaceMetric, labels: seq<string>, i: Interface)
    ensures !m.reading.Queue? ==> MetricSamples(m, labels, i) == [Sample(m.metric, labels, Value(m.reading, i))]
    ensures m.reading.Queue? ==>
              var r := MetricSamples(m, labels, i);
              var key := (q: nat) => QueueKey(m.reading.direction, q, m.reading.suffix);
              (forall q :: 0 <= q < |r| ==>
                 key(q) in i.statistics && r[q] == Sample(m.metric, labels + [NatToString(q)], i.statistics[key(q)] as real))
              && key(|r|) !in i.statistics
  {
    if m.reading.Queue? {
      QueueRunComplete(i.statistics, m.reading.direction, m.reading.suffix);
    }
  }

  /** A sample of a metric carries one value per label name of the metric. */
  lemma MetricSamplesLabelled(m: IfaceMetric, labels: seq<string>, i: Interface, s: Sample)
    requires m.metric.labels == LabelsOf(m.reading) && |labels| == |CommonLabels|
    requires s in MetricSamples(m, labels, i)
    ensures s.metric == m.metric && WellLabelled(s)
  {
  }

  // ---------------------------------------------------------------------
  // Joining bridges, ports and interfaces

  /** The name of the last bridge listing the port, if any. */
  function LastBridgeOf(bridges: seq<Bridge>, port: string): (r: Option<string>)
    ensures r.Some? ==> exists k :: 0 <= k < |bridges| && port in bridges[k].ports && r.value == bridges[k].name
    ensures r.None? <==> forall k :: 0 <= k < |bridges| ==> port !in bridges[k].ports
    decreases |bridges|
  {
    if |bridges| == 0 then None
    else
      match LastBridgeOf(bridges[1..], port)
      case Some(b) => Some(b)
      case None => if port in bridges[0].ports then Some(bridges[0].name) else None
  }

  /** The last port listing the interface, if any. */
  function LastPortOf(ports: seq<Port>, iface: string): (r: Option<Port>)
    ensures r.Some? ==> r.value in ports && iface in r.value.interfaces
    ensures r.None? <==> forall k :: 0 <= k < |ports| ==> iface !in ports[k].interfaces
    decreases |ports|
  {
    if |ports| == 0 then None
    else
      match LastPortOf(ports[1..], iface)
      case Some(p) => Some(p)
      case None => if iface in ports[0].interfaces then Some(ports[0]) else None
  }

  /** `d[key] = value` for every key in turn. */
  function PutEach(d: Dict, keys: seq<string>, value: string): Dict
    decreases |keys|
  {
    if |keys| == 0 then d else PutEach(Put(d, keys[0], value), keys[1..], value)
  }

  lemma {:induction false} PutEachFind(d: Dict, keys: seq<string>, value: string, key: string)
    ensures Find(PutEach(d, keys, value), key) == if key in keys then Some(value) else Find(d, key)
    decreases |keys|
  {
    if |keys| > 0 {
      PutEachFind(Put(d, keys[0], value), keys[1..], value, key);
      PutFind(d, keys[0], value, key);
      assert key in keys <==> key == keys[0] || key in keys[1..];
    }
  }

  /** The first loop: every port reference of every bridge maps to the bridge's name. */
  function PortBridges(d: Dict, bridges: seq<Bridge>): Dict
    decreases |bridges|
  {
    if |bridges| == 0 then d else PortBridges(PutEach(d, bridges[0].ports, bridges[0].name), bridges[1..])
  }

  /** After the first loop a port maps to the last bridge that lists it. */
  lemma {:induction false} PortBridgesFind(d: Dict, bridges: seq<Bridge>, port: string)
    ensures Find(PortBridges(d, bridges), port) ==
              if LastBridgeOf(bridges, port).Some? then LastBridgeOf(bridges, port) else Find(d, port)
    decreases |bridges|
  {
    if |bridges| > 0 {
      PortBridgesFind(PutEach(d, bridges[0].ports, bridges[0].name), bridges[1..], port);
      PutEachFind(d, bridges[0].ports, bridges[0].name, port);
    }
  }

  /**
   * The inner second loop, over the interfaces of one port: each interface
   * maps to the port's name, and the port's name maps to the bridge the
   * port's UUID maps to at that moment, or to "" when it maps to none.
   */
  function LinkInterfaces(pb: Dict, ip: Dict, p: Port, ifaces: seq<string>): (r: (Dict, Dict))
    decreases |ifaces|
  {
    if |ifaces| == 0 then (pb, ip)
    else LinkInterfaces(Put(pb, p.name, Find(pb, p.uuid).GetOr("")), Put(ip, ifaces[0], p.name), p, ifaces[1..])
  }

  /** The outer second loop, over every port. */
  function LinkPorts(pb: Dict, ip: Dict, ports: seq<Port>): (r: (Dict, Dict))
    decreases |ports|
  {
    if |ports| == 0 then (pb, ip)
    else
      var linked := LinkInterfaces(pb, ip, ports[0], ports[0].interfaces);
      LinkPorts(linked.0, linked.1, ports[1..])
  }

  /** Both loops: the port-to-bridge and the interface-to-port maps. */
  function Join(bridges: seq<Bridge>, ports: seq<Port>): (r: (Dict, Dict)) {
    LinkPorts(PortBridges([], bridges), [], ports)
  }

  lemma {:induction false} LinkInterfacesPort(pb: Dict, ip: Dict, p: Port, ifaces: seq<string>, key: string)
    ensures Find(LinkInterfaces(pb, ip, p, ifaces).1, key) == if key in ifaces then Some(p.name) else Find(ip, key)
    decreases |ifaces|
  {
    if |ifaces| > 0 {
      var pb1 := Put(pb, p.name, Find(pb, p.uuid).GetOr(""));
      LinkInterfacesPort(pb1, Put(ip, ifaces[0], p.name), p, ifaces[1..], key);
      PutFind(ip, ifaces[0], p.name, key);
      assert key in ifaces <==> key == ifaces[0] || key in ifaces[1..];
    }
  }

  lemma {:induction false} LinkInterfacesBridge(pb: Dict, ip: Dict, p: Port, ifaces: seq<string>, key: string)
    ensures Find(LinkInterfaces(pb, ip, p, ifaces).0, key) ==
              if key == p.name && |ifaces| > 0 then Some(Find(pb, p.uuid).GetOr("")) else Find(pb, key)
    decreases |ifaces|
  {
    if |ifaces| > 0 {
      var v := Find(pb, p.uuid).GetOr("");
      var pb1 := Put(pb, p.name, v);
      LinkInterfacesBridge(pb1, Put(ip, ifaces[0], p.name), p, ifaces[1..], key);
      PutFind(pb, p.name, v, key);
      PutFind(pb, p.name, v, p.uuid);
      assert Find(pb1, p.uuid).GetOr("") == v;
    }
  }

  /** After the second loop an interface maps to the name of the last port listing it. */
  lemma {:induction false} LinkPortsPort(pb: Dict, ip: Dict, ports: seq<Port>, key: string)
    ensures Find(LinkPorts(pb, ip, ports).1, key) ==
              if LastPortOf(ports, key).Some? then Some(LastPortOf(ports, key).value.name) else Find(ip, key)
    decreases |ports|
  {
    if |ports| > 0 {
      var linked := LinkInterfaces(pb, ip, ports[0], ports[0].interfaces);
      LinkPortsPort(linked.0, linked.1, ports[1..], key);
      LinkInterfacesPort(pb, ip, ports[0], ports[0].interfaces, key);
    }
  }

  /** Every port name the interface map holds has an entry in the port map. */
  ghost predicate Covered(pb: Dict, ip: Dict) {
    forall key :: Find(ip, key).Some? ==> Find(pb, Find(ip, key).value).Some?
  }

  lemma {:induction false} LinkInterfacesCovered(pb: Dict, ip: Dict, p: Port, ifaces: seq<string>)
    requires Covered(pb, ip)
    ensures Covered(LinkInterfaces(pb, ip, p, ifaces).0, LinkInterfaces(pb, ip, p, ifaces).1)
    decreases |ifaces|
  {
    if |ifaces| > 0 {
      var v := Find(pb, p.uuid).GetOr("");
      var pb1 := Put(pb, p.name, v);
      var ip1 := Put(ip, ifaces[0], p.name);
      forall key | Find(ip1, key).Some? ensures Find(pb1, Find(ip1, key).value).Some? {
        PutFind(ip, ifaces[0], p.name, key);
        PutFind(pb, p.name, v, Find(ip1, key).value);
      }
      LinkInterfacesCovered(pb1, ip1, p, ifaces[1..]);
    }
  }

  lemma {:induction false} LinkPortsCovered(pb: Dict, ip: Dict, ports: seq<Port>)
    requires Covered(pb, ip)
    ensures Covered(LinkPorts(pb, ip, ports).0, LinkPorts(pb, ip, ports).1)
    decreases |ports|
  {
    if |ports| > 0 {
      var linked := LinkInterfaces(pb, ip, ports[0], ports[0].interfaces);
      LinkInterfacesCovered(pb, ip, ports[0], ports[0].interfaces);
      LinkPortsCovered(linked.0, linked.1, ports[1..]);
    }
  }

  /**
   * Whenever an interface has a port, the port has a bridge entry: the
   * collector's second existence check never skips an interface.
   */
  lemma JoinCovered(bridges: seq<Bridge>, ports: seq<Port>, iface: string)
    ensures var j := Join(bridges, ports);
            Find(j.1, iface).Some? ==> Find(j.0, Find(j.1, iface).value).Some?
  {
    LinkPortsCovered(PortBridges([], bridges), [], ports);
  }

  /** Port names are unique and no port is named like a port's UUID, as in a consistent database. */
  predicate PortsApart(ports: seq<Port>) {
    && (forall i, j :: 0 <= i < j < |ports| ==> ports[i].name != ports[j].name)
    && (forall i, j :: 0 <= i < |ports| && 0 <= j < |ports| ==> ports[i].name != ports[j].uuid)
  }

  /** A key no port is named after keeps its bridge through the second loop. */
  lemma {:induction false} LinkPortsOther(pb: Dict, ip: Dict, ports: seq<Port>, key: string)
    requires forall k :: 0 <= k < |ports| ==> ports[k].name != key
    ensures Find(LinkPorts(pb, ip, ports).0, key) == Find(pb, key)
    decreases |ports|
  {
    if |ports| > 0 {
      var linked := LinkInterfaces(pb, ip, ports[0], ports[0].interfaces);
      LinkInterfacesBridge(pb, ip, ports[0], ports[0].interfaces, key);
      LinkPortsOther(linked.0, linked.1, ports[1..], key);
    }
  }

  /** With ports apart, a port that has interfaces maps to the bridge its UUID mapped to before the second loop. */
  lemma {:induction false} LinkPortsBridge(pb: Dict, ip: Dict, ports: seq<Port>, k: nat)
    requires PortsApart(ports) && k < |ports| && |ports[k].interfaces| > 0
    ensures Find(LinkPorts(pb, ip, ports).0, ports[k].name) == Some(Find(pb, ports[k].uuid).GetOr(""))
    decreases |ports|
  {
    var linked := LinkInterfaces(pb, ip, ports[0], ports[0].interfaces);
    var rest := ports[1..];
    assert forall j :: 0 <= j < |rest| ==> rest[j] == ports[j + 1];
    if k == 0 {
      LinkInterfacesBridge(pb, ip, ports[0], ports[0].interfaces, ports[0].name);
      LinkPortsOther(linked.0, linked.1, rest, ports[0].name);
    } else {
      LinkPortsBridge(linked.0, linked.1, rest, k - 1);
      LinkInterfacesBridge(pb, ip, ports[0], ports[0].interfaces, ports[k].uuid);
    }
  }

  /** The labels of an interface's samples; an empty type is a synonym for "system". */
  function InterfaceLabels(bridge: string, port: string, i: Interface): (labels: seq<string>)
    ensures |labels| == |CommonLabels|
  {
    [bridge, port, i.name, if i.ifaceType == "" then "system" else i.ifaceType]
  }

  /**
   * Under ports apart, an interface is labelled by the last port listing it
   * and by the last bridge listing that port, "" when no bridge does.
   */
  lemma JoinLabels(bridges: seq<Bridge>, ports: seq<Port>, iface: string)
    requires PortsApart(ports)
    ensures var j := Join(bridges, ports);
            var p := LastPortOf(ports, iface);
            && (Find(j.1, iface).Some? <==> p.Some?)
            && (p.Some? ==> Find(j.1, iface) == Some(p.value.name) &&
                            Find(j.0, p.value.name) == Some(LastBridgeOf(bridges, p.value.uuid).GetOr("")))
  {
    var pb := PortBridges([], bridges);
    LinkPortsPort(pb, [], ports, iface);
    var p := LastPortOf(ports, iface);
    if p.Some? {
      var k :| 0 <= k < |ports| && ports[k] == p.value;
      LinkPortsBridge(pb, [], ports, k);
      PortBridgesFind([], bridges, p.value.uuid);
    }
  }

  // ---------------------------------------------------------------------
  // Collector

  /** The samples of one interface row: none when no port lists it, else those of every active metric. */
  function OneInterface(active: MetricSet, ms: seq<IfaceMetric>, pb: Dict, ip: Dict, i: Interface): (r: seq<Sample>)
  {
    match Find(ip, i.uuid)
    case None => []
    case Some(port) =>
      match Find(pb, port)
      case None => []
      case Some(bridge) => InterfaceSamples(active, ms, InterfaceLabels(bridge, port, i), i)
  }

  function AllInterfaces(active: MetricSet, ms: seq<IfaceMetric>, pb: Dict, ip: Dict, ifaces: seq<Interface>): (r: seq<Sample>)
  {
    Gather((i: Interface) => OneInterface(active, ms, pb, ip, i), ifaces)
  }

  /** A scrape: nothing when any of the three tables cannot be listed, else the samples of every interface row in turn. */
  function Collect(active: MetricSet, bridges: Result<seq<Bridge>, Ovsdb.DbError>, ports: Result<seq<Port>, Ovsdb.DbError>,
                   ifaces: Result<seq<Interface>, Ovsdb.DbError>): (r: seq<Sample>)
    ensures bridges.Failure? || ports.Failure? || ifaces.Failure? ==> r == []
  {
    if bridges.Failure? || ports.Failure? || ifaces.Failure? then []
    else Scrape(active, IfaceMetrics, bridges.value, ports.value, ifaces.value)
  }

  /** The samples of every interface row in turn, for a metric list, once the three tables are listed. */
  function Scrape(active: MetricSet, ms: seq<IfaceMetric>, bridges: seq<Bridge>, ports: seq<Port>, ifaces: seq<Interface>): (r: seq<Sample>)
  {
    var j := Join(bridges, ports);
    AllInterfaces(active, ms, j.0, j.1, ifaces)
  }

  /** A sample of the rows is a sample of one row. */
  lemma AllInterfacesFrom(active: MetricSet, ms: seq<IfaceMetric>, pb: Dict, ip: Dict, ifaces: seq<Interface>, s: Sample)
    requires s in AllInterfaces(active, ms, pb, ip, ifaces)
    ensures exists k :: 0 <= k < |ifaces| && s in OneInterface(active, ms, pb, ip, ifaces[k])
  {
    var f := (i: Interface) => OneInterface(active, ms, pb, ip, i);
    GatherFrom(f, ifaces, s);
    var k :| 0 <= k < |ifaces| && s in f(ifaces[k]);
  }

  /** Every sample of every row is a sample of the rows. */
  lemma AllInterfacesOf(active: MetricSet, ms: seq<IfaceMetric>, pb: Dict, ip: Dict, ifaces: seq<Interface>, k: nat, s: Sample)
    requires k < |ifaces| && s in OneInterface(active, ms, pb, ip, ifaces[k])
    ensures s in AllInterfaces(active, ms, pb, ip, ifaces)
  {
    GatherOf((i: Interface) => OneInterface(active, ms, pb, ip, i), ifaces, k, s);
  }

  /** An interface row no port lists gives no sample; one that a port lists gives the samples of every active metric. */
  lemma OneInterfaceJoined(active: MetricSet, ms: seq<IfaceMetric>, bridges: seq<Bridge>, ports: seq<Port>, i: Interface)
    ensures var j := Join(bridges, ports);
            && (LastPortOf(ports, i.uuid).None? ==> OneInterface(active, ms, j.0, j.1, i) == [])
            && (LastPortOf(ports, i.uuid).Some? ==>
                  exists bridge :: OneInterface(active, ms, j.0, j.1, i) ==
                                   InterfaceSamples(active, ms, InterfaceLabels(bridge, LastPortOf(ports, i.uuid).value.name, i), i))
  {
    var j := Join(bridges, ports);
    LinkPortsPort(PortBridges([], bridges), [], ports, i.uuid);
    JoinCovered(bridges, ports, i.uuid);
    if LastPortOf(ports, i.uuid).Some? {
      var bridge := Find(j.0, Find(j.1, i.uuid).value).value;
      assert OneInterface(active, ms, j.0, j.1, i) ==
             InterfaceSamples(active, ms, InterfaceLabels(bridge, LastPortOf(ports, i.uuid).value.name, i), i);
    }
  }

  /** The labels the join gives an interface some port lists: the last such port, and that port's last bridge. */
  function JoinedLabels(bridges: seq<Bridge>, ports: seq<Port>, i: Interface): (labels: seq<string>)
    requires LastPortOf(ports, i.uuid).Some?
  {
    var p := LastPortOf(ports, i.uuid).value;
    InterfaceLabels(LastBridgeOf(bridges, p.uuid).GetOr(""), p.name, i)
  }

  /** With ports apart, the samples of an interface row are those of every active metric under its joined labels. */
  lemma OneInterfaceApart(active: MetricSet, ms: seq<IfaceMetric>, bridges: seq<Bridge>, ports: seq<Port>, i: Interface)
    requires PortsApart(ports)
    ensures var j := Join(bridges, ports);
            OneInterface(active, ms, j.0, j.1, i) ==
              if LastPortOf(ports, i.uuid).None? then []
              else InterfaceSamples(active, ms, JoinedLabels(bridges, ports, i), i)
  {
    JoinLabels(bridges, ports, i.uuid);
  }

  /**
   * With ports apart, a sample is in a scrape exactly when it is a sample
   * of an active metric for an interface row some port lists, under the
   * row's joined labels.
   */
  lemma ScrapeExact(active: MetricSet, ms: seq<IfaceMetric>, bridges: seq<Bridge>, ports: seq<Port>, ifaces: seq<Interface>, s: Sample)
    requires PortsApart(ports)
    ensures s in Scrape(active, ms, bridges, ports, ifaces) <==>
              exists k :: 0 <= k < |ifaces| && LastPortOf(ports, ifaces[k].uuid).Some? &&
                          s in InterfaceSamples(active, ms, JoinedLabels(bridges, ports, ifaces[k]), ifaces[k])
  {
    var j := Join(bridges, ports);
    if s in Scrape(active, ms, bridges, ports, ifaces) {
      AllInterfacesFrom(active, ms, j.0, j.1, ifaces, s);
      var k :| 0 <= k < |ifaces| && s in OneInterface(active, ms, j.0, j.1, ifaces[k]);
      OneInterfaceApart(active, ms, bridges, ports, ifaces[k]);
    }
    if exists k :: 0 <= k < |ifaces| && LastPortOf(ports, ifaces[k].uuid).Some? &&
                   s in InterfaceSamples(active, ms, JoinedLabels(bridges, ports, ifaces[k]), ifaces[k]) {
      var k :| 0 <= k < |ifaces| && LastPortOf(ports, ifaces[k].uuid).Some? &&
               s in InterfaceSamples(active, ms, JoinedLabels(bridges, ports, ifaces[k]), ifaces[k]);
      OneInterfaceApart(active, ms, bridges, ports, ifaces[k]);
      AllInterfacesOf(active, ms, j.0, j.1, ifaces, k, s);
    }
  }

  /**
   * With ports apart, a sample is in a successful scrape exactly when it is
   * a sample of an active metric of the collector for an interface row some
   * port lists, labelled by that port and its bridge.
   */
  lemma CollectExact(active: MetricSet, bridges: seq<Bridge>, ports: seq<Port>, ifaces: seq<Interface>, s: Sample)
    requires PortsApart(ports)
    ensures s in Collect(active, Success(bridges), Success(ports), Success(ifaces)) <==>
              exists k :: 0 <= k < |ifaces| && LastPortOf(ports, ifaces[k].uuid).Some? &&
                          s in InterfaceSamples(active, IfaceMetrics, JoinedLabels(bridges, ports, ifaces[k]), ifaces[k])
  {
    assert Collect(active, Success(bridges), Success(ports), Success(ifaces)) == Scrape(active, IfaceMetrics, bridges, ports, ifaces);
    ScrapeExact(active, IfaceMetrics, bridges, ports, ifaces, s);
  }

  /** A sample of a scrape is a sample of one of the metrics, of an active set, with one value per label name. */
  lemma ScrapeSound(active: MetricSet, ms: seq<IfaceMetric>, bridges: seq<Bridge>, ports: seq<Port>, ifaces: seq<Interface>, s: Sample)
    requires forall k :: 0 <= k < |ms| ==> ms[k].metric.labels == LabelsOf(ms[k].reading)
    requires s in Scrape(active, ms, bridges, ports, ifaces)
    ensures Exportable(active, Descriptors(ms), s)
  {
    var j := Join(bridges, ports);
    AllInterfacesFrom(active, ms, j.0, j.1, ifaces, s);
    var k :| 0 <= k < |ifaces| && s in OneInterface(active, ms, j.0, j.1, ifaces[k]);
    var i := ifaces[k];
    var port := Find(j.1, i.uuid).value;
    var labels := InterfaceLabels(Find(j.0, port).value, port, i);
    InterfaceSampleFrom(active, ms, labels, i, s);
    var m :| 0 <= m < |ms| && Has(active, ms[m].metric.metricSet) && s in MetricSamples(ms[m], labels, i);
    MetricSamplesLabelled(ms[m], labels, i, s);
    assert Descriptors(ms)[m] == s.metric;
  }

  /** Every sample of a scrape is of a listed metric of an active set and carries one value per label name. */
  lemma CollectSound(active: MetricSet, bridges: Result<seq<Bridge>, Ovsdb.DbError>, ports: Result<seq<Port>, Ovsdb.DbError>,
                     ifaces: Result<seq<Interface>, Ovsdb.DbError>, s: Sample)
    requires s in Collect(active, bridges, ports, ifaces)
    ensures Exportable(active, Info.metrics, s)
  {
    MetricsShape();
    ScrapeSound(active, IfaceMetrics, bridges.value, ports.value, ifaces.value, s);
  }
}
