/**
 * The ovn collector: samples read from the `external_ids` column of the
 * Open_vSwitch row (numeric values, booleans, constant-1 samples labelled
 * by a value, and one sample per bridge mapping), then the counters of
 * ovn-controller's `coverage/show`, where the two packet-in drop events are
 * summed into a single `packet_in_drop` sample.
 */
module Ovn {
  import opened Wrappers
  import opened Text
  import opened Config
  import opened Registry
  import opened LineFold
  import opened OvsSchema
  import opened Assoc
  import Ovsdb
  import Coverage

  // ---------------------------------------------------------------------
  // Metrics

  const PacketInDrop: string := "packet_in_drop"
  const DropBufferedPacketsMap: string := "pinctrl_drop_buffered_packets_map"
  const DropControllerEvent: string := "pinctrl_drop_controller_event"

  const RemoteProbeInterval: Metric :=
    Metric("ovnc_remote_probe_interval", "Maximum number of milliseconds of idle time on connection to the OVN SB DB before sending an inactivity probe message",
           [], Gauge, COUNTERS)
  const OpenflowProbeInterval: Metric :=
    Metric("ovnc_openflow_probe_interval", "Maximum number of milliseconds of idle time on OpenFlow connection to the OVS bridge before sending an inactivity probe message",
           [], Gauge, COUNTERS)
  const MonitorAll: Metric :=
    Metric("ovnc_monitor_all", "Specifies if ovn-controller should monitor all records of tables in OVN SB DB. The value of 0 means it will conditionally monitor the records that are needed in the current chassis",
           [], Gauge, BASE)
  const EncapIp: Metric :=
    Metric("ovnc_encap_ip", "A metric with a constant '1' value labeled by ipadress that specifies the encapsulation ip address configured on that node",
           ["encap_ip"], Gauge, BASE)
  const SbConnectionMethod: Metric :=
    Metric("ovnc_sb_connection_method", "A metric with a constant '1' value labeled by sb_connection_method that specifies the ovn-remote value configured on that node",
           ["sb_connection_method"], Gauge, BASE)
  const EncapType: Metric :=
    Metric("ovnc_encap_type", "A metric with a constant '1' value labeled by type that specifies the encapsulation type that a chassis should use to connect to this node",
           ["encap_type"], Gauge, BASE)
  const BridgeMappings: Metric :=
    Metric("ovnc_bridge_mappings", "A metric with a constant '1' value labeled by mapping that specifies a list of key-value pairs that map a physical network name to a local ovs bridge that provides connectivity to that network.",
           ["network", "bridge"], Gauge, BASE)

  /** `external_ids` keys whose value is a number. */
  const NumericTable: Table := [
    ("ovn-remote-probe-interval", RemoteProbeInterval),
    ("ovn-openflow-probe-interval", OpenflowProbeInterval)
  ]

  /** `external_ids` keys whose value is a boolean. */
  const BooleanTable: Table := [
    ("ovn-monitor-all", MonitorAll)
  ]

  /** `external_ids` keys whose value becomes the single label of a constant-1 sample. */
  const LabelTable: Table := [
    ("ovn-encap-ip", EncapIp),
    ("ovn-remote", SbConnectionMethod),
    ("ovn-encap-type", EncapType)
  ]

  /** The key whose value lists `network:bridge` pairs, one constant-1 sample per pair. */
  const BridgeMappingsKey: string := "ovn-bridge-mappings"

  /** ovn-controller's coverage events: each event, the name of its metric and the metric's set. */
  const ControllerEvents: seq<(string, string, MetricSet)> := [
    ("lflow_run", "ovnc_lflow_run", DEBUG),
    ("rconn_sent", "ovnc_rconn_sent", DEBUG),
    ("rconn_queued", "ovnc_rconn_queued", ERRORS),
    ("rconn_discarded", "ovnc_rconn_discarded", ERRORS),
    ("rconn_overflow", "ovnc_rconn_overflow", ERRORS),
    ("vconn_open", "ovnc_vconn_open", DEBUG),
    ("vconn_sent", "ovnc_vconn_sent", DEBUG),
    ("vconn_received", "ovnc_vconn_received", DEBUG),
    ("stream_open", "ovnc_stream_open", DEBUG),
    ("txn_success", "ovnc_txn_success", DEBUG),
    ("txn_error", "ovnc_txn_error", ERRORS),
    ("txn_uncommitted", "ovnc_txn_uncommitted", ERRORS),
    ("txn_unchanged", "ovnc_txn_unchanged", DEBUG),
    ("txn_incomplete", "ovnc_txn_incomplete", ERRORS),
    ("txn_aborted", "ovnc_txn_aborted", ERRORS),
    ("txn_try_again", "ovnc_txn_try_again", ERRORS),
    ("pinctrl_total_pin_pkts", "ovnc_pinctrl_total_pin_pkts", DEBUG),
    ("netlink_sent", "ovnc_netlink_sent", DEBUG),
    ("netlink_received", "ovnc_netlink_received", DEBUG),
    ("netlink_recv_jumbo", "ovnc_netlink_recv_jumbo", ERRORS),
    ("netlink_overflow", "ovnc_netlink_overflow", ERRORS),
    (PacketInDrop, "ovnc_packet_in_drop", ERRORS)
  ]

  /** The help text of each coverage event's metric. */
  function ControllerHelp(event: string): string {
    if event == "lflow_run" then
      "Number of times ovn-controller has translated the Logical_Flow table in the OVN SB database into OpenFlow flow"
    else if event == "rconn_sent" then
      "Specifies the number of messages that have been sent to the underlying virtual connection (unix, tcp, or ssl) to OpenFlow devices"
    else if event == "rconn_queued" then
      "Specifies the number of messages that have been queued because it couldn’t be sent using the underlying virtual connection to OpenFlow devices"
    else if event == "rconn_discarded" then
      "Specifies the number of messages that have been dropped because the send queue had to be flushed because of reconnection."
    else if event == "rconn_overflow" then
      "Specifies the number of messages that have been dropped because of the queue overflow"
    else if event == "vconn_open" then
      "Specifies the number of attempts to connect to an OpenFlow Device"
    else if event == "vconn_sent" then
      "Specifies the number of messages sent to the OpenFlow Device"
    else if event == "vconn_received" then
      "Specifies the number of messages received from the OpenFlow Device"
    else if event == "stream_open" then
      "Specifies the number of attempts to connect to a remote peer (active connection)"
    else if event == "txn_success" then
      "Specifies the number of times the OVSDB transaction has successfully completed"
    else if event == "txn_error" then
      "Specifies the number of times the OVSDB transaction has errored out"
    else if event == "txn_uncommitted" then
      "Specifies the number of times the OVSDB transaction were uncommitted"
    else if event == "txn_unchanged" then
      "Specifies the number of times the OVSDB transaction resulted in no change to the database"
    else if event == "txn_incomplete" then
      "Specifies the number of times the OVSDB transaction did not complete and the client had to re-try"
    else if event == "txn_aborted" then
      "Specifies the number of times the OVSDB transaction has been aborted"
    else if event == "txn_try_again" then
      "Specifies the number of times the OVSDB transaction failed and the client had to re-try"
    else if event == "pinctrl_total_pin_pkts" then
      "Specifies the number of times ovn-controller has handled the packet-ins from ovs-vswitchd"
    else if event == "netlink_sent" then
      "Number of netlink message sent to the kernel"
    else if event == "netlink_received" then
      "Number of netlink messages received by the kernel"
    else if event == "netlink_recv_jumbo" then
      "Number of netlink messages that were received from the kernel were more than the allocated buffer"
    else if event == "netlink_overflow" then
      "Netlink messages dropped by the daemon due to buffer overflow"
    else if event == PacketInDrop then
      "Specifies the number of times the ovn-controller has dropped the packet-ins from ovs-vswitchd due to resource constraints"
    else ""
  }

  /** Every coverage metric is an unlabelled counter. */
  function ControllerMetric(e: (string, string, MetricSet)): Metric {
    Metric(e.1, ControllerHelp(e.0), [], Counter, e.2)
  }

  /** A table keyed by coverage events, each with its counter. */
  function EventTable(events: seq<(string, string, MetricSet)>): (t: Table)
    ensures |t| == |events|
    ensures forall i :: 0 <= i < |events| ==> t[i] == (events[i].0, ControllerMetric(events[i]))
  {
    seq(|events|, i requires 0 <= i < |events| => (events[i].0, ControllerMetric(events[i])))
  }

  /** The `ovnController` table: each event and its metric. */
  const ControllerTable: Table := EventTable(ControllerEvents)

  /** The metrics of the external_ids tables. */
  const ExternalIdMetrics: seq<Metric> := Values(NumericTable) + Values(BooleanTable) + Values(LabelTable)

  /** Metrics() as written: the members of the four tables, without the bridge mappings metric. */
  const MetricsAsWritten: seq<Metric> := ExternalIdMetrics + Values(ControllerTable)

  /** Every metric the collector emits, the bridge mappings metric included. */
  const Metrics: seq<Metric> := ExternalIdMetrics + [BridgeMappings] + Values(ControllerTable)

  const InfoAsWritten: CollectorInfo := CollectorInfo("ovn", MetricsAsWritten)
  const Info: CollectorInfo := CollectorInfo("ovn", Metrics)

  /** No metric of the table has labels. */
  predicate Unlabelled(table: Table) {
    forall i :: 0 <= i < |table| ==> table[i].1.labels == []
  }

  /** Every metric of the table has exactly one label. */
  predicate OneLabel(table: Table) {
    forall i :: 0 <= i < |table| ==> |table[i].1.labels| == 1
  }

  /** The external_ids tables: their keys, sets, types and labels. */
  lemma ExternalIdTables()
    ensures |NumericTable| == 2 && NumericTable[0].0 == "ovn-remote-probe-interval" &&
            NumericTable[1].0 == "ovn-openflow-probe-interval"
    ensures forall i :: 0 <= i < |NumericTable| ==>
              NumericTable[i].1.metricSet == COUNTERS && NumericTable[i].1.valueType == Gauge
    ensures |BooleanTable| == 1 && BooleanTable[0].0 == "ovn-monitor-all" && BooleanTable[0].1.metricSet == BASE
    ensures |LabelTable| == 3 && LabelTable[0].0 == "ovn-encap-ip" && LabelTable[1].0 == "ovn-remote" &&
            LabelTable[2].0 == "ovn-encap-type"
    ensures forall i :: 0 <= i < |LabelTable| ==> LabelTable[i].1.metricSet == BASE
    ensures Unlabelled(NumericTable) && Unlabelled(BooleanTable) && OneLabel(LabelTable)
    ensures BridgeMappings.labels == ["network", "bridge"] && BridgeMappings.metricSet == BASE
  {
  }

  /** The coverage table has 22 distinct events. */
  lemma ControllerKeysDistinct()
    ensures |ControllerTable| == 22 && KeysDistinct(ControllerTable)
  {
    assert forall i, j :: 0 <= i < j < |ControllerEvents| ==> ControllerEvents[i].0 != ControllerEvents[j].0;
  }

  /** Every coverage metric is an unlabelled counter, and neither drop component is an event of the table. */
  lemma ControllerTableShape()
    ensures Unlabelled(ControllerTable)
    ensures forall i :: 0 <= i < |ControllerTable| ==> ControllerTable[i].1.valueType == Counter
    ensures forall i :: 0 <= i < |ControllerTable| ==>
              ControllerTable[i].0 != DropBufferedPacketsMap && ControllerTable[i].0 != DropControllerEvent
  {
    assert forall i :: 0 <= i < |ControllerEvents| ==>
             ControllerEvents[i].0 != DropBufferedPacketsMap && ControllerEvents[i].0 != DropControllerEvent;
  }

  /** `packet_in_drop` is reported as `ovnc_packet_in_drop`, an error metric. */
  lemma PacketInDropShape()
    ensures Lookup(ControllerTable, PacketInDrop).Some?
    ensures Lookup(ControllerTable, PacketInDrop).value.name == "ovnc_packet_in_drop"
    ensures Lookup(ControllerTable, PacketInDrop).value.metricSet == ERRORS
  {
    ControllerKeysDistinct();
    PacketInDropEntry();
    LookupDistinct(ControllerTable, 21);
  }

  /** The last entry of the coverage table is `packet_in_drop`'s. */
  lemma PacketInDropEntry()
    ensures |ControllerTable| == 22
    ensures ControllerTable[21].0 == PacketInDrop
    ensures ControllerTable[21].1.name == "ovnc_packet_in_drop" && ControllerTable[21].1.metricSet == ERRORS
  {
    var e := ControllerEvents[21];
    assert e == (PacketInDrop, "ovnc_packet_in_drop", ERRORS);
  }

  lemma ControllerNamesDistinct()
    ensures NamesDistinct(Values(ControllerTable))
  {
    assert forall i, j :: 0 <= i < j < |ControllerEvents| ==> ControllerEvents[i].1 != ControllerEvents[j].1;
  }

  /** None of these names is the name of a coverage event's metric. */
  lemma NotEventNames(names: seq<string>)
    requires names == ["ovnc_remote_probe_interval", "ovnc_openflow_probe_interval", "ovnc_monitor_all",
                       "ovnc_encap_ip", "ovnc_sb_connection_method", "ovnc_encap_type", "ovnc_bridge_mappings"]
    ensures forall i, j :: 0 <= i < |names| && 0 <= j < |ControllerEvents| ==> names[i] != ControllerEvents[j].1
  {
  }

  /** The names of the external_ids and bridge mappings metrics, in table order. */
  lemma ExternalIdNameList()
    ensures Names(ExternalIdMetrics + [BridgeMappings]) ==
              ["ovnc_remote_probe_interval", "ovnc_openflow_probe_interval", "ovnc_monitor_all",
               "ovnc_encap_ip", "ovnc_sb_connection_method", "ovnc_encap_type", "ovnc_bridge_mappings"]
  {
    var ext := ExternalIdMetrics + [BridgeMappings];
    assert ext == [RemoteProbeInterval, OpenflowProbeInterval, MonitorAll, EncapIp, SbConnectionMethod, EncapType, BridgeMappings];
  }

  /** Each coverage metric is named by its event's entry. */
  lemma ControllerMetricNames()
    ensures |Values(ControllerTable)| == |ControllerEvents|
    ensures forall j :: 0 <= j < |ControllerEvents| ==> Values(ControllerTable)[j].name == ControllerEvents[j].1
  {
  }

  lemma ExternalIdNamesApart()
    ensures NamesDistinct(ExternalIdMetrics + [BridgeMappings])
    ensures NamesApart(ExternalIdMetrics + [BridgeMappings], Values(ControllerTable))
  {
    var ext := ExternalIdMetrics + [BridgeMappings];
    var names := Names(ext);
    ExternalIdNameList();
    NotEventNames(names);
    ControllerMetricNames();
    assert forall i, j :: 0 <= i < j < |names| ==> names[i] != names[j];
  }

  /** No two metrics of the collector share a name. */
  lemma MetricNamesDistinct()
    ensures NamesDistinct(Metrics)
  {
    ControllerNamesDistinct();
    ExternalIdNamesApart();
    NamesDistinctAppend(ExternalIdMetrics + [BridgeMappings], Values(ControllerTable));
  }

  // ---------------------------------------------------------------------
  // external_ids

  /** What a present key's value reads as: the labels and value of its sample, or nothing. */
  type Reader = string -> Option<(seq<string>, real)>

  /** The sample a table entry gives: its key is present, its set is active and its value reads. */
  predicate Emits(active: MetricSet, entry: (string, Metric), ids: map<string, string>, read: Reader, s: Sample) {
    && entry.0 in ids
    && Has(active, entry.1.metricSet)
    && read(ids[entry.0]).Some?
    && s == Sample(entry.1, read(ids[entry.0]).value.0, read(ids[entry.0]).value.1)
  }

  /**
   * The loop over a table of external_ids keys: one sample per entry whose
   * key is present, whose set is active and whose value reads. The table's
   * order stands for Go's map order.
   */
  function PerKey(active: MetricSet, table: Table, ids: map<string, string>, read: Reader): (r: seq<Sample>)
    ensures |r| <= |table|
    decreases |table|
  {
    if |table| == 0 then []
    else
      var key := table[0].0;
      var m := table[0].1;
      (if key in ids && Has(active, m.metricSet) && read(ids[key]).Some?
       then [Sample(m, read(ids[key]).value.0, read(ids[key]).value.1)]
       else [])
      + PerKey(active, table[1..], ids, read)
  }

  lemma {:induction false} PerKeySamples(active: MetricSet, table: Table, ids: map<string, string>, read: Reader, s: Sample)
    ensures s in PerKey(active, table, ids, read) <==>
            exists i :: 0 <= i < |table| && Emits(active, table[i], ids, read, s)
    decreases |table|
  {
    if |table| > 0 {
      PerKeySamples(active, table[1..], ids, read, s);
      var key := table[0].0;
      var m := table[0].1;
      var head := if key in ids && Has(active, m.metricSet) && read(ids[key]).Some?
                  then [Sample(m, read(ids[key]).value.0, read(ids[key]).value.1)] else [];
      assert PerKey(active, table, ids, read) == head + PerKey(active, table[1..], ids, read);
      if s in PerKey(active, table, ids, read) {
        if s in head {
          assert Emits(active, table[0], ids, read, s);
        } else {
          var i :| 0 <= i < |table| - 1 && Emits(active, table[1..][i], ids, read, s);
          assert table[1..][i] == table[i + 1];
        }
      }
      if exists i :: 0 <= i < |table| && Emits(active, table[i], ids, read, s) {
        var i :| 0 <= i < |table| && Emits(active, table[i], ids, read, s);
        if i > 0 {
          assert table[1..][i - 1] == table[i];
        }
      }
    }
  }

  /** A metric a table sample is of belongs to the table. */
  lemma PerKeyFromTable(active: MetricSet, table: Table, ids: map<string, string>, read: Reader, s: Sample)
    requires s in PerKey(active, table, ids, read)
    ensures s.metric in Values(table) && Has(active, s.metric.metricSet)
    ensures exists i :: 0 <= i < |table| && s.metric == table[i].1 && table[i].0 in ids &&
                        read(ids[table[i].0]).Some? && s.labels == read(ids[table[i].0]).value.0
  {
    PerKeySamples(active, table, ids, read, s);
    var i :| 0 <= i < |table| && Emits(active, table[i], ids, read, s);
    assert Values(table)[i] == s.metric;
  }

  function ReadNumber(parseFloat: string -> Option<real>): Reader {
    v => if parseFloat(v).Some? then Some(([], parseFloat(v).value)) else None
  }

  /**
   * collectopenvSwitch: each present numeric key whose set is active yields
   * its parsed value; a value strconv.ParseFloat rejects skips only its key.
   * The parser is a parameter.
   */
  function CollectNumeric(active: MetricSet, table: Table, ids: map<string, string>,
                          parseFloat: string -> Option<real>): (r: seq<Sample>)
    ensures |r| <= |table|
  {
    PerKey(active, table, ids, ReadNumber(parseFloat))
  }

  lemma NumericSamples(active: MetricSet, table: Table, ids: map<string, string>,
                       parseFloat: string -> Option<real>, s: Sample)
    ensures s in CollectNumeric(active, table, ids, parseFloat) <==>
            exists i :: 0 <= i < |table| && table[i].0 in ids && Has(active, table[i].1.metricSet) &&
                        parseFloat(ids[table[i].0]).Some? &&
                        s == Sample(table[i].1, [], parseFloat(ids[table[i].0]).value)
  {
    PerKeySamples(active, table, ids, ReadNumber(parseFloat), s);
  }

  /** The value of a boolean key: 1 iff its lower-cased text is `true`. */
  function BoolValue(v: string): (x: real)
    ensures x == 1.0 <==> ToLower(v) == "true"
    ensures x == 0.0 <==> ToLower(v) != "true"
  {
    if ToLower(v) != "true" then 0.0 else 1.0
  }

  const ReadBool: Reader := v => Some(([], BoolValue(v)))

  /** collectopenvSwitchBoolean: each present boolean key whose set is active yields 1 or 0. */
  function CollectBoolean(active: MetricSet, table: Table, ids: map<string, string>): (r: seq<Sample>)
    ensures |r| <= |table|
  {
    PerKey(active, table, ids, ReadBool)
  }

  lemma BooleanSamples(active: MetricSet, table: Table, ids: map<string, string>, s: Sample)
    ensures s in CollectBoolean(active, table, ids) <==>
            exists i :: 0 <= i < |table| && table[i].0 in ids && Has(active, table[i].1.metricSet) &&
                        s == Sample(table[i].1, [], if ToLower(ids[table[i].0]) == "true" then 1.0 else 0.0)
  {
    PerKeySamples(active, table, ids, ReadBool, s);
  }

  const ReadLabel: Reader := v => Some(([v], 1.0))

  /** The first loop of collectopenvSwitchLabels: each present label key whose set is active yields 1, labelled by its value. */
  function CollectLabelKeys(active: MetricSet, table: Table, ids: map<string, string>): (r: seq<Sample>)
    ensures |r| <= |table|
  {
    PerKey(active, table, ids, ReadLabel)
  }

  lemma LabelSamples(active: MetricSet, table: Table, ids: map<string, string>, s: Sample)
    ensures s in CollectLabelKeys(active, table, ids) <==>
            exists i :: 0 <= i < |table| && table[i].0 in ids && Has(active, table[i].1.metricSet) &&
                        s == Sample(table[i].1, [ids[table[i].0]], 1.0)
  {
    PerKeySamples(active, table, ids, ReadLabel, s);
  }

  // ---------------------------------------------------------------------
  // ovn-bridge-mappings

  /**
   * One comma-separated entry split at its colons: the trimmed text before
   * the first colon and the trimmed text between the first colon and the
   * second. An entry without a colon has no second part.
   */
  function MappingOf(entry: string): (r: Option<(string, string)>)
    ensures r.Some? <==> ':' in entry
  {
    var parts := Split(entry, ':');
    if |parts| < 2 then None else Some((TrimSpace(parts[0]), TrimSpace(parts[1])))
  }

  /** The loop of parse_mappings as written: an entry without a colon indexes past the end of its split and panics. */
  function PutAllAsWritten(ms: Dict, entries: seq<string>): (r: Result<Dict, string>)
    ensures r.Success? <==> forall k :: 0 <= k < |entries| ==> ':' in entries[k]
    decreases |entries|
  {
    if |entries| == 0 then Success(ms)
    else
      match MappingOf(entries[0])
      case None => Failure("index out of range")
      case Some((network, bridge)) => PutAllAsWritten(Put(ms, network, bridge), entries[1..])
  }

  /** parse_mappings as written; a panic is a Failure. */
  function ParseMappingsAsWritten(s: string): (r: Result<Dict, string>)
  {
    PutAllAsWritten([], Split(s, ','))
  }

  /** An empty value, one network without a bridge, or a trailing comma makes parse_mappings panic. */
  lemma ParseMappingsPanics(network: string)
    requires ',' !in network
    ensures ParseMappingsAsWritten("").Failure?
    ensures ':' !in network ==> ParseMappingsAsWritten(network).Failure?
    ensures ParseMappingsAsWritten(network + ",").Failure?
  {
    assert Split("", ',')[0] == "";
    assert IndexOf(network, ',') == |network|;
    assert Split(network, ',') == [network];
    var s := network + ",";
    assert s[|network|] == ',';
    assert IndexOf(s, ',') == |network|;
    assert s[|network| + 1..] == "";
    assert Split(s, ',') == [network] + Split("", ',');
    assert Split(s, ',')[1] == "";
  }

  /** The loop as intended: an entry without a colon names no mapping and is skipped. */
  function PutAll(ms: Dict, entries: seq<string>): (r: Dict)
    decreases |entries|
  {
    if |entries| == 0 then ms
    else
      match MappingOf(entries[0])
      case None => PutAll(ms, entries[1..])
      case Some((network, bridge)) => PutAll(Put(ms, network, bridge), entries[1..])
  }

  /** parse_mappings without the panic. */
  function ParseMappings(s: string): (r: Dict)
  {
    PutAll([], Split(s, ','))
  }

  lemma {:induction false} PutAllDistinct(ms: Dict, entries: seq<string>)
    requires Unique(ms)
    ensures Unique(PutAll(ms, entries))
    decreases |entries|
  {
    if |entries| > 0 {
      match MappingOf(entries[0])
      case None => PutAllDistinct(ms, entries[1..]);
      case Some((n, b)) =>
        PutUnique(ms, n, b);
        PutAllDistinct(Put(ms, n, b), entries[1..]);
    }
  }

  /** Where parse_mappings does not panic, skipping entries changes nothing. */
  lemma {:induction false} PutAllAgrees(ms: Dict, entries: seq<string>)
    requires PutAllAsWritten(ms, entries).Success?
    ensures PutAllAsWritten(ms, entries).value == PutAll(ms, entries)
    decreases |entries|
  {
    if |entries| > 0 {
      var (network, bridge) := MappingOf(entries[0]).value;
      PutAllAgrees(Put(ms, network, bridge), entries[1..]);
    }
  }

  lemma ParseMappingsAgrees(s: string)
    requires ParseMappingsAsWritten(s).Success?
    ensures ParseMappingsAsWritten(s).value == ParseMappings(s)
  {
    PutAllAgrees([], Split(s, ','));
  }

  /** The bridge of the last entry naming `network`, if any entry does. */
  function LastBridge(entries: seq<string>, network: string): (r: Option<string>)
    decreases |entries|
  {
    if |entries| == 0 then None
    else
      match MappingOf(entries[|entries| - 1])
      case Some((n, b)) => if n == network then Some(b) else LastBridge(entries[..|entries| - 1], network)
      case None => LastBridge(entries[..|entries| - 1], network)
  }

  /** Storing one more entry is storing it after the earlier ones. */
  lemma {:induction false} PutAllSnoc(ms: Dict, entries: seq<string>, e: string)
    ensures PutAll(ms, entries + [e]) ==
            match MappingOf(e)
            case None => PutAll(ms, entries)
            case Some((n, b)) => Put(PutAll(ms, entries), n, b)
    decreases |entries|
  {
    if |entries| == 0 {
      assert [e][1..] == [];
    } else {
      assert (entries + [e])[0] == entries[0];
      assert (entries + [e])[1..] == entries[1..] + [e];
      match MappingOf(entries[0])
      case None => PutAllSnoc(ms, entries[1..], e);
      case Some((n, b)) => PutAllSnoc(Put(ms, n, b), entries[1..], e);
    }
  }

  /** After storing entries, a network maps to the bridge of the last entry naming it, or to what it mapped to before. */
  lemma {:induction false} PutAllFind(ms: Dict, entries: seq<string>, network: string)
    ensures Find(PutAll(ms, entries), network) ==
            if LastBridge(entries, network).Some? then LastBridge(entries, network) else Find(ms, network)
    decreases |entries|
  {
    if |entries| > 0 {
      var front := entries[..|entries| - 1];
      var e := entries[|entries| - 1];
      assert entries == front + [e];
      PutAllSnoc(ms, front, e);
      PutAllFind(ms, front, network);
      match MappingOf(e)
      case None =>
      case Some((n, b)) => PutFind(PutAll(ms, front), n, b, network);
    }
  }

  /** parse_mappings as intended: each network maps to the bridge its last entry names, and no other network is mapped. */
  lemma ParseMappingsFind(s: string, network: string)
    ensures Find(ParseMappings(s), network) == LastBridge(Split(s, ','), network)
  {
    PutAllFind([], Split(s, ','), network);
  }

  /** One constant-1 sample of `m` per mapping, labelled by its network and bridge. */
  function MappingSamples(m: Metric, ms: Dict): (r: seq<Sample>)
    ensures |r| == |ms|
  {
    seq(|ms|, k requires 0 <= k < |ms| => Sample(m, [ms[k].0, ms[k].1], 1.0))
  }

  /** With one pair per network, the samples are those of the pairs Find confirms, and no network is labelled twice. */
  lemma MappingSamplesExact(m: Metric, ms: Dict, s: Sample)
    requires Unique(ms)
    ensures s in MappingSamples(m, ms) <==>
            s.metric == m && s.value == 1.0 && |s.labels| == 2 && Find(ms, s.labels[0]) == Some(s.labels[1])
    ensures var r := MappingSamples(m, ms);
            forall i, j :: 0 <= i < j < |r| ==> r[i].labels[0] != r[j].labels[0]
  {
    var r := MappingSamples(m, ms);
    if s in r {
      var k :| 0 <= k < |r| && r[k] == s;
      FindUnique(ms, ms[k].0, ms[k].1);
    }
    if s.metric == m && s.value == 1.0 && |s.labels| == 2 && Find(ms, s.labels[0]) == Some(s.labels[1]) {
      var k :| 0 <= k < |ms| && ms[k] == (s.labels[0], s.labels[1]);
      assert r[k] == s;
    }
  }

  /**
   * The second half of collectopenvSwitchLabels, with the intended
   * parse_mappings: nothing unless the key is present and the set of
   * ovnc_bridge_mappings is active.
   */
  function BridgeSamples(active: MetricSet, ids: map<string, string>): (r: seq<Sample>)
  {
    if BridgeMappingsKey in ids && Has(active, BridgeMappings.metricSet)
    then MappingSamples(BridgeMappings, ParseMappings(ids[BridgeMappingsKey]))
    else []
  }

  /**
   * The bridge-mapping samples are exactly one per network the value maps,
   * labelled by the network and the bridge its last entry names; no network
   * appears twice.
   */
  lemma BridgeSamplesExact(active: MetricSet, ids: map<string, string>, s: Sample)
    ensures s in BridgeSamples(active, ids) <==>
            && BridgeMappingsKey in ids && Has(active, BridgeMappings.metricSet)
            && s.metric == BridgeMappings && s.value == 1.0 && |s.labels| == 2
            && LastBridge(Split(ids[BridgeMappingsKey], ','), s.labels[0]) == Some(s.labels[1])
    ensures var r := BridgeSamples(active, ids);
            forall i, j :: 0 <= i < j < |r| ==> r[i].labels[0] != r[j].labels[0]
  {
    if BridgeMappingsKey in ids && Has(active, BridgeMappings.metricSet) {
      var v := ids[BridgeMappingsKey];
      PutAllDistinct([], Split(v, ','));
      MappingSamplesExact(BridgeMappings, ParseMappings(v), s);
      if |s.labels| == 2 {
        ParseMappingsFind(v, s.labels[0]);
      }
    }
  }

  // ---------------------------------------------------------------------
  // ovn-controller coverage/show

  /** The totals the two packet-in drop components reported, `""` until a line names them. */
  datatype Drops = Drops(bufferedPackets: string, controllerEvent: string)

  const NoDrops: Drops := Drops("", "")

  /**
   * One line of collectCoverageMetrics: a matching line of a drop component
   * records its total and emits nothing; any other matching line goes
   * through makeMetric.
   */
  function StepOn(active: MetricSet, table: Table, drops: Drops, line: string): (r: (Drops, seq<Sample>))
  {
    match Coverage.MatchLine(line)
    case None => (drops, [])
    case Some((event, total)) =>
      if event == DropBufferedPacketsMap then (drops.(bufferedPackets := total), [])
      else if event == DropControllerEvent then (drops.(controllerEvent := total), [])
      else (drops, Coverage.MakeMetric(active, table, event, DigitsValue(total)))
  }

  function CoverageStep(active: MetricSet, table: Table): (Drops, string) -> (Drops, seq<Sample>) {
    (d: Drops, line: string) => StepOn(active, table, d, line)
  }

  /** The total a line reports for `event`, if it is a matching line of that event. */
  function EventTotal(event: string): string -> Option<string> {
    line =>
      match Coverage.MatchLine(line)
      case Some((e, total)) => if e == event then Some(total) else None
      case None => None
  }

  /** After any lines, each component holds the total of the last line that named it. */
  lemma {:induction false} FoldDrops(active: MetricSet, table: Table, d: Drops, lines: seq<string>)
    ensures Fold(CoverageStep(active, table), d, lines).0 ==
            Drops(LastHeader(EventTotal(DropBufferedPacketsMap), lines).GetOr(d.bufferedPackets),
                  LastHeader(EventTotal(DropControllerEvent), lines).GetOr(d.controllerEvent))
    decreases |lines|
  {
    if |lines| > 0 {
      var front := lines[..|lines| - 1];
      var line := lines[|lines| - 1];
      assert lines == front + [line];
      FoldSnoc(CoverageStep(active, table), d, front, line);
      FoldDrops(active, table, d, front);
    }
  }

  /**
   * Outside the drop components, the ovn-controller scan emits what the
   * plain coverage collector emits on the same lines, whatever it has
   * recorded so far.
   */
  lemma {:induction false} CoverageAsPlain(active: MetricSet, table: Table, d: Drops, lines: seq<string>)
    requires Lookup(table, DropBufferedPacketsMap).None? && Lookup(table, DropControllerEvent).None?
    ensures Fold(CoverageStep(active, table), d, lines).1 == Fold(Coverage.Step(active, table), (), lines).1
    decreases |lines|
  {
    if |lines| > 0 {
      var first := StepOn(active, table, d, lines[0]);
      assert first.1 == Coverage.CollectLine(active, table, lines[0]);
      CoverageAsPlain(active, table, first.0, lines[1..]);
    }
  }

  /** The int a recorded total adds: nothing when none was recorded or when strconv.Atoi rejects it. */
  function DropPart(v: string): (i: int)
    ensures MinInt64 <= i <= MaxInt64
    ensures |v| > 0 && AllDigits(v) && DigitsValue(v) <= MaxInt64 ==> i == DigitsValue(v)
    ensures v == "" || Atoi(v).None? ==> i == 0
  {
    if v == "" then 0 else Atoi(v).GetOr(0)
  }

  /** Go's `+` on a 64-bit int: the sum wrapped into the int64 range. */
  function AddInt64(a: int, b: int): (r: int)
    requires MinInt64 <= a <= MaxInt64 && MinInt64 <= b <= MaxInt64
    ensures MinInt64 <= r <= MaxInt64
    ensures (a + b - r) % 0x1_0000_0000_0000_0000 == 0
  {
    var s := a + b;
    if s > MaxInt64 then s - 0x1_0000_0000_0000_0000
    else if s < MinInt64 then s + 0x1_0000_0000_0000_0000
    else s
  }

  /** The packet-in drop total, summed in the order the model lists the components. */
  function DropTotal(d: Drops): (t: int)
    ensures MinInt64 <= t <= MaxInt64
  {
    AddInt64(AddInt64(0, DropPart(d.bufferedPackets)), DropPart(d.controllerEvent))
  }

  /**
   * Go ranges over the two components in no fixed order; either order gives
   * the same total, and without overflow the total is the plain sum.
   */
  lemma DropTotalOrderFree(d: Drops)
    ensures DropTotal(d) == AddInt64(AddInt64(0, DropPart(d.controllerEvent)), DropPart(d.bufferedPackets))
    ensures var sum := DropPart(d.bufferedPackets) + DropPart(d.controllerEvent);
            MinInt64 <= sum <= MaxInt64 ==> DropTotal(d) == sum
  {
  }

  /**
   * collectCoverageMetrics: an empty reply yields nothing; otherwise the
   * samples of the lines, then a packet_in_drop sample when the components'
   * total is positive.
   */
  function CollectCoverage(active: MetricSet, table: Table, reply: string): (r: seq<Sample>)
    ensures reply == "" ==> r == []
  {
    if reply == "" then []
    else
      Fold(CoverageStep(active, table), NoDrops, Lines(reply)).1 +
      DropSample(active, table, Fold(CoverageStep(active, table), NoDrops, Lines(reply)).0)
  }

  /** The packet_in_drop sample of the recorded totals: present iff their sum is positive and the event is an active table entry. */
  function DropSample(active: MetricSet, table: Table, drops: Drops): (r: seq<Sample>)
    ensures |r| <= 1
    ensures |r| == 1 ==> DropTotal(drops) > 0 && r[0].value == DropTotal(drops) as real
  {
    if DropTotal(drops) > 0 then Coverage.MakeMetric(active, table, PacketInDrop, DropTotal(drops)) else []
  }

  /**
   * The ovn-controller coverage samples are the plain coverage samples of
   * the reply, followed by the packet_in_drop sample of the totals the last
   * lines of the two drop components report, when positive.
   */
  lemma CollectCoverageExact(active: MetricSet, table: Table, reply: string)
    requires Lookup(table, DropBufferedPacketsMap).None? && Lookup(table, DropControllerEvent).None?
    ensures var lines := Lines(reply);
            var total := DropTotal(Drops(LastHeader(EventTotal(DropBufferedPacketsMap), lines).GetOr(""),
                                         LastHeader(EventTotal(DropControllerEvent), lines).GetOr("")));
            CollectCoverage(active, table, reply) ==
            Coverage.Collect(active, table, reply) +
            (if reply != "" && total > 0 then Coverage.MakeMetric(active, table, PacketInDrop, total) else [])
  {
    if reply != "" {
      FoldDrops(active, table, NoDrops, Lines(reply));
      CoverageAsPlain(active, table, NoDrops, Lines(reply));
    }
  }

  /** One line's samples: at most one, of an active, unlabelled table metric. */
  lemma StepOnSound(active: MetricSet, table: Table, d: Drops, line: string)
    ensures var r := StepOn(active, table, d, line).1;
            |r| <= 1 && forall k :: 0 <= k < |r| ==> Coverage.FromTable(active, table, r[k])
  {
    var r := StepOn(active, table, d, line).1;
    if |r| == 1 {
      LookupInValues(table, Coverage.MatchLine(line).value.0);
    }
  }

  /** Every coverage sample is of an active, unlabelled table metric; at most one per line, plus the drop total. */
  lemma CollectCoverageSound(active: MetricSet, table: Table, reply: string)
    ensures var r := CollectCoverage(active, table, reply);
            |r| <= |Lines(reply)| + 1 &&
            forall k :: 0 <= k < |r| ==> Coverage.FromTable(active, table, r[k])
  {
    var step := CoverageStep(active, table);
    var ok := s => Coverage.FromTable(active, table, s);
    forall c, l ensures StepYields(step, ok, c, l) && StepAtMost(step, 1, c, l) {
      StepOnSound(active, table, c, l);
    }
    if reply != "" {
      FoldYields(step, ok, NoDrops, Lines(reply));
      FoldAtMost(step, 1, NoDrops, Lines(reply));
      if |DropSample(active, table, Fold(step, NoDrops, Lines(reply)).0)| == 1 {
        LookupInValues(table, PacketInDrop);
      }
    }
  }

  // ---------------------------------------------------------------------
  // The collector

  /**
   * Collect: when the Open_vSwitch row cannot be read, nothing; otherwise
   * the external_ids samples, then the coverage samples of the
   * ovn-controller reply. The parser of numeric values and the reply are
   * parameters.
   */
  function Collect(active: MetricSet, vswitch: Result<OpenvSwitch, Ovsdb.DbError>, reply: string,
                   parseFloat: string -> Option<real>): (r: seq<Sample>)
    ensures vswitch.Failure? ==> r == []
  {
    if vswitch.Failure? then []
    else
      ExternalIdSamples(active, vswitch.value.externalIds, parseFloat) + BridgeSamples(active, vswitch.value.externalIds) +
      CollectCoverage(active, ControllerTable, reply)
  }

  /** The samples of the three external_ids tables, in the order the collector runs their loops. */
  function ExternalIdSamples(active: MetricSet, ids: map<string, string>, parseFloat: string -> Option<real>): (r: seq<Sample>)
    ensures |r| <= |NumericTable| + |BooleanTable| + |LabelTable|
  {
    CollectNumeric(active, NumericTable, ids, parseFloat) + CollectBoolean(active, BooleanTable, ids) +
    CollectLabelKeys(active, LabelTable, ids)
  }

  /** Every per-key sample is exportable as one of the table's metrics. */
  lemma {:induction false} PerKeyExportable(active: MetricSet, table: Table, ids: map<string, string>, read: Reader,
                                            width: nat, s: Sample)
    requires forall i :: 0 <= i < |table| ==> |table[i].1.labels| == width
    requires forall v :: read(v).Some? ==> |read(v).value.0| == width
    requires s in PerKey(active, table, ids, read)
    ensures Exportable(active, Values(table), s)
  {
    PerKeyFromTable(active, table, ids, read, s);
  }

  lemma ExternalIdExportable(active: MetricSet, ids: map<string, string>, parseFloat: string -> Option<real>, s: Sample)
    requires s in ExternalIdSamples(active, ids, parseFloat)
    ensures Exportable(active, ExternalIdMetrics, s)
  {
    ExternalIdTables();
    if s in CollectNumeric(active, NumericTable, ids, parseFloat) {
      PerKeyExportable(active, NumericTable, ids, ReadNumber(parseFloat), 0, s);
    } else if s in CollectBoolean(active, BooleanTable, ids) {
      PerKeyExportable(active, BooleanTable, ids, ReadBool, 0, s);
    } else {
      PerKeyExportable(active, LabelTable, ids, ReadLabel, 1, s);
    }
  }

  lemma BridgeExportable(active: MetricSet, ids: map<string, string>, s: Sample)
    requires s in BridgeSamples(active, ids)
    ensures Exportable(active, [BridgeMappings], s)
  {
    ExternalIdTables();
    BridgeSamplesExact(active, ids, s);
  }

  lemma CoverageExportable(active: MetricSet, reply: string, s: Sample)
    requires s in CollectCoverage(active, ControllerTable, reply)
    ensures Exportable(active, Values(ControllerTable), s)
  {
    CollectCoverageSound(active, ControllerTable, reply);
    ControllerTableShape();
  }

  /** Every sample Collect emits is of a metric the collector lists, active and with one value per label. */
  lemma CollectSound(active: MetricSet, vswitch: Result<OpenvSwitch, Ovsdb.DbError>, reply: string,
                     parseFloat: string -> Option<real>)
    ensures var r := Collect(active, vswitch, reply, parseFloat);
            forall k :: 0 <= k < |r| ==> Exportable(active, Info.metrics, r[k])
  {
    var r := Collect(active, vswitch, reply, parseFloat);
    if vswitch.Success? {
      var ids := vswitch.value.externalIds;
      var ext := ExternalIdSamples(active, ids, parseFloat);
      var bridges := BridgeSamples(active, ids);
      var coverage := CollectCoverage(active, ControllerTable, reply);
      forall s | s in ext ensures Exportable(active, ExternalIdMetrics, s) {
        ExternalIdExportable(active, ids, parseFloat, s);
      }
      forall s | s in bridges ensures Exportable(active, [BridgeMappings], s) {
        BridgeExportable(active, ids, s);
      }
      forall s | s in coverage ensures Exportable(active, Values(ControllerTable), s) {
        CoverageExportable(active, reply, s);
      }
      ExportableAppend(active, ExternalIdMetrics, [BridgeMappings], ext, bridges);
      ExportableAppend(active, ExternalIdMetrics + [BridgeMappings], Values(ControllerTable), ext + bridges, coverage);
      assert r == ext + bridges + coverage;
      assert Info.metrics == ExternalIdMetrics + [BridgeMappings] + Values(ControllerTable);
      forall k | 0 <= k < |r| ensures Exportable(active, Info.metrics, r[k]) {
        assert r[k] in r;
      }
    }
  }

  /** One `network:bridge` entry parses to one mapping. */
  lemma SingleMapping(v: string)
    requires ':' in v && ',' !in v
    ensures |ParseMappings(v)| == 1
  {
    assert IndexOf(v, ',') == |v|;
    assert Split(v, ',') == [v];
    assert [v][1..] == [];
    var (n, b) := MappingOf(v).value;
    assert PutAll([], [v]) == PutAll(Put([], n, b), []);
  }

  /** Metrics() lists ovnc_bridge_mappings only in its corrected form. */
  lemma BridgeMappingsUnlisted()
    ensures BridgeMappings in Info.metrics && BridgeMappings !in InfoAsWritten.metrics
  {
    MetricNamesDistinct();
    assert Metrics[|ExternalIdMetrics|] == BridgeMappings;
  }

  /**
   * Metrics() as written leaves out ovnc_bridge_mappings, which Collect
   * emits whenever the key holds one `network:bridge` entry and the metric's
   * set is active: that sample's metric is not among the listed ones.
   */
  lemma MetricsOmitBridgeMappings(active: MetricSet, row: OpenvSwitch, reply: string,
                                  parseFloat: string -> Option<real>)
    requires Has(active, BridgeMappings.metricSet)
    requires BridgeMappingsKey in row.externalIds
    requires ':' in row.externalIds[BridgeMappingsKey] && ',' !in row.externalIds[BridgeMappingsKey]
    ensures exists s :: s in Collect(active, Success(row), reply, parseFloat) && s.metric !in InfoAsWritten.metrics
  {
    SingleMapping(row.externalIds[BridgeMappingsKey]);
    BridgeMappingsUnlisted();
    var bridges := BridgeSamples(active, row.externalIds);
    var s := bridges[0];
    assert s.metric == BridgeMappings;
    BridgeInCollect(active, row, reply, parseFloat, s);
  }

  /** A bridge mappings sample of a row is a sample of the scrape. */
  lemma BridgeInCollect(active: MetricSet, row: OpenvSwitch, reply: string, parseFloat: string -> Option<real>, s: Sample)
    requires s in BridgeSamples(active, row.externalIds)
    ensures s in Collect(active, Success(row), reply, parseFloat)
  {
    var ext := ExternalIdSamples(active, row.externalIds, parseFloat);
    var coverage := CollectCoverage(active, ControllerTable, reply);
    assert Collect(active, Success(row), reply, parseFloat) == ext + BridgeSamples(active, row.externalIds) + coverage;
  }
}
