/**
 * The bridge collector: for every Bridge row, its number of ports and the
 * number of OpenFlow rules the switch reports for it through the bridge's
 * management socket.
 */
module Bridge {
  import opened Wrappers
  import opened Config
  import opened Registry
  import opened OvsSchema
  import OpenFlow
  import Ovsdb

  const Labels: seq<string> := ["bridge", "datapath_type"]

  const PortCount: Metric := Metric("ovs_bridge_port_count", "The number of ports in a bridge.", Labels, Gauge, BASE)
  const FlowCount: Metric :=
    Metric("ovs_bridge_flow_count", "The number of openflow rules configured on a bridge.", Labels, Gauge, BASE)

  const Info: CollectorInfo := CollectorInfo("bridge", [PortCount, FlowCount])

  /** Both metrics are base gauges labelled by bridge and datapath type, with distinct names. */
  lemma MetricsShape()
    ensures |Info.metrics| == 2 && Info.metrics[0].name != Info.metrics[1].name
    ensures forall m :: m in Info.metrics ==> m.metricSet == BASE && m.valueType == Gauge && m.labels == ["bridge", "datapath_type"]
  {
  }

  /** How the exporter reaches a bridge's management socket, given its path. */
  type Dialer = string -> Result<OpenFlow.Socket, string>

  /** The flow count of a bridge: the switch's aggregate count, or 0 when the exchange fails. */
  function FlowValue(br: Bridge, rundir: string, dial: Dialer): (v: real)
    ensures v >= 0.0
  {
    var x := OpenFlow.GetAggregateStats(OpenFlow.BridgeStats(br.name, 0, 0, 0), rundir, dial);
    if x.err.Some? then 0.0 else x.stats.flows as real
  }

  /** Returning 0 on a failed exchange is the count the stats already hold: the value is always the stats' count. */
  lemma FlowValueIsCount(br: Bridge, rundir: string, dial: Dialer)
    ensures FlowValue(br, rundir, dial) ==
              OpenFlow.GetAggregateStats(OpenFlow.BridgeStats(br.name, 0, 0, 0), rundir, dial).stats.flows as real
  {
  }

  /** A switch that answers with an aggregate reply gives that reply's flow count. */
  lemma FlowValueOfReply(br: Bridge, rundir: string, dial: Dialer, hello: seq<OpenFlow.Byte>,
                         reply: OpenFlow.AggregateReply, rest: seq<OpenFlow.Byte>, writes: nat)
    requires |hello| == OpenFlow.HELLO_SIZE && writes >= 2
    requires dial(OpenFlow.SocketPath(rundir, br.name)) ==
             Success(OpenFlow.Socket(writes, hello + OpenFlow.EncodeReply(reply) + rest))
    ensures FlowValue(br, rundir, dial) == reply.flowCount as real
  {
    OpenFlow.GetAggregateStatsOfReply(OpenFlow.BridgeStats(br.name, 0, 0, 0), rundir, dial, hello, reply, rest, writes);
  }

  /** The samples of one bridge row, given its flow count: its port count and flow count, when their set is active. */
  function BridgeSamples(active: MetricSet, br: Bridge, flows: real): (r: seq<Sample>)
  {
    var labels := [br.name, br.datapathType];
    (if Has(active, PortCount.metricSet) then [Sample(PortCount, labels, |br.ports| as real)] else []) +
    (if Has(active, FlowCount.metricSet) then [Sample(FlowCount, labels, flows)] else [])
  }

  /** The samples of every bridge in turn; `flows` reads a bridge's flow count. */
  function AllBridges(active: MetricSet, bridges: seq<Bridge>, flows: Bridge -> real): (r: seq<Sample>)
    decreases |bridges|
  {
    if |bridges| == 0 then []
    else BridgeSamples(active, bridges[0], flows(bridges[0])) + AllBridges(active, bridges[1..], flows)
  }

  /** A scrape: nothing when the Bridge table cannot be listed, else the samples of every bridge in turn. */
  function Collect(active: MetricSet, bridges: Result<seq<Bridge>, Ovsdb.DbError>, rundir: string, dial: Dialer): (r: seq<Sample>)
    ensures bridges.Failure? ==> r == []
  {
    if bridges.Failure? then [] else AllBridges(active, bridges.value, br => FlowValue(br, rundir, dial))
  }

  /**
   * With BASE active each bridge gives two samples, its port count then its
   * flow count, both labelled by its name and datapath type; without BASE
   * the scrape is empty.
   */
  lemma {:induction false} AllBridgesExact(active: MetricSet, bridges: seq<Bridge>, flows: Bridge -> real)
    ensures var r := AllBridges(active, bridges, flows);
            && (!Has(active, BASE) ==> r == [])
            && (Has(active, BASE) ==>
                  |r| == 2 * |bridges| &&
                  forall k :: 0 <= k < |bridges| ==>
                    && r[2 * k] == Sample(PortCount, [bridges[k].name, bridges[k].datapathType], |bridges[k].ports| as real)
                    && r[2 * k + 1] == Sample(FlowCount, [bridges[k].name, bridges[k].datapathType], flows(bridges[k])))
    decreases |bridges|
  {
    if |bridges| > 0 {
      var r := AllBridges(active, bridges, flows);
      var rest := AllBridges(active, bridges[1..], flows);
      AllBridgesExact(active, bridges[1..], flows);
      if Has(active, BASE) {
        assert r == BridgeSamples(active, bridges[0], flows(bridges[0])) + rest;
        forall k | 1 <= k < |bridges|
          ensures r[2 * k] == rest[2 * (k - 1)] && r[2 * k + 1] == rest[2 * (k - 1) + 1]
                  && bridges[k] == bridges[1..][k - 1]
        {
        }
      }
    }
  }

  /** A successful scrape with BASE active reports, for bridge k, its port count and then its flow count. */
  lemma CollectExact(active: MetricSet, bridges: seq<Bridge>, rundir: string, dial: Dialer)
    requires Has(active, BASE)
    ensures var r := Collect(active, Success(bridges), rundir, dial);
            |r| == 2 * |bridges| &&
            forall k :: 0 <= k < |bridges| ==>
              && r[2 * k] == Sample(PortCount, [bridges[k].name, bridges[k].datapathType], |bridges[k].ports| as real)
              && r[2 * k + 1] == Sample(FlowCount, [bridges[k].name, bridges[k].datapathType], FlowValue(bridges[k], rundir, dial))
  {
    var flows := br => FlowValue(br, rundir, dial);
    AllBridgesExact(active, bridges, flows);
    forall k | 0 <= k < |bridges| ensures flows(bridges[k]) == FlowValue(bridges[k], rundir, dial) {
    }
  }

  lemma AllBridgesSound(active: MetricSet, bridges: seq<Bridge>, flows: Bridge -> real, s: Sample)
    requires s in AllBridges(active, bridges, flows)
    ensures Exportable(active, Info.metrics, s)
  {
    var r := AllBridges(active, bridges, flows);
    AllBridgesExact(active, bridges, flows);
    var k :| 0 <= k < |r| && r[k] == s;
    assert k == 2 * (k / 2) || k == 2 * (k / 2) + 1;
  }

  /** Every sample of a scrape is of a listed metric of an active set and carries one value per label name. */
  lemma CollectSound(active: MetricSet, bridges: Result<seq<Bridge>, Ovsdb.DbError>, rundir: string, dial: Dialer, s: Sample)
    requires s in Collect(active, bridges, rundir, dial)
    ensures Exportable(active, Info.metrics, s)
  {
    AllBridgesSound(active, bridges.value, br => FlowValue(br, rundir, dial), s);
  }
}
