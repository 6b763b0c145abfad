/**
 * The vswitch collector: the build versions and the DPDK state read from
 * the single Open_vSwitch row, reported only while BASE is active.
 */
module Vswitch {
  import opened Wrappers
  import opened Config
  import opened Registry
  import opened OvsSchema
  import Ovsdb

  const BuildInfo: Metric :=
    Metric("ovs_build_info", "Version and library from which OVS binaries were built.",
           ["ovs_version", "dpdk_version", "db_version"], Gauge, BASE)
  const DpdkInitialized: Metric :=
    Metric("ovs_dpdk_initialized", "Has the DPDK subsystem been initialized.", [], Gauge, BASE)

  const Info: CollectorInfo := CollectorInfo("vswitch", [BuildInfo, DpdkInitialized])

  /** Both metrics are base gauges; only the build information is labelled, by the three versions. */
  lemma MetricsShape()
    ensures forall m :: m in Info.metrics ==> m.metricSet == BASE && m.valueType == Gauge
    ensures |Info.metrics| == 2 && |Info.metrics[0].labels| == 3 && Info.metrics[1].labels == []
  {
  }

  /** The build-info sample: a constant 1 labelled by the three versions, "" for each the row leaves empty. */
  function BuildInfoSample(v: OpenvSwitch): Sample {
    Sample(BuildInfo, [v.ovsVersion.GetOr(""), v.dpdkVersion.GetOr(""), v.dbVersion.GetOr("")], 1.0)
  }

  /** The DPDK sample: 1 when initialized, 0 otherwise. */
  function DpdkSample(v: OpenvSwitch): Sample {
    Sample(DpdkInitialized, [], if v.dpdkInitialized then 1.0 else 0.0)
  }

  /** A scrape: nothing unless BASE is active and the row can be read, else the two samples in metric order. */
  function Collect(active: MetricSet, vswitch: Result<OpenvSwitch, Ovsdb.DbError>): (r: seq<Sample>)
    ensures !Has(active, BASE) || vswitch.Failure? ==> r == []
    ensures |r| == 0 || |r| == 2
  {
    if !Has(active, BASE) then []
    else
      match vswitch
      case Failure(_) => []
      case Success(v) => [BuildInfoSample(v), DpdkSample(v)]
  }

  /** Every sample of a scrape is of a listed metric of an active set and carries one value per label name. */
  lemma CollectSound(active: MetricSet, vswitch: Result<OpenvSwitch, Ovsdb.DbError>, s: Sample)
    requires s in Collect(active, vswitch)
    ensures Exportable(active, Info.metrics, s)
  {
  }

  /**
   * A successful scrape reports what the row holds: each version that is
   * set and not empty is read back from its label, a version left empty
   * reads "", and the DPDK sample is 1 exactly when DPDK is initialized.
   */
  lemma CollectReadsBack(active: MetricSet, v: OpenvSwitch)
    requires Has(active, BASE)
    ensures var r := Collect(active, Success(v));
            && |r| == 2 && r[0].metric == BuildInfo && r[1].metric == DpdkInitialized
            && r[0].value == 1.0 && r[1].labels == []
            && (forall k :: 0 <= k < 3 ==> r[0].labels[k] == [v.ovsVersion, v.dpdkVersion, v.dbVersion][k].GetOr(""))
            && (r[1].value == 1.0 <==> v.dpdkInitialized)
            && (r[1].value == 0.0 <==> !v.dpdkInitialized)
  {
  }
}
