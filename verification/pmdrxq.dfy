/**
 * The pmd_rxq collector: `dpif-netdev/pmd-rxq-show` prints, for each PMD
 * thread, the same header as `pmd-perf-show` followed by its isolation
 * flag, one line per receive queue with its usage, and the thread's
 * overhead. A header also brings in the thread's context switch counts,
 * read beforehand from the daemon's per-thread status files.
 */
module PmdRxq {
  import opened Wrappers
  import opened Text
  import opened Config
  import opened Registry
  import opened Patterns
  import opened LineFold
  import PmdPerf

  // ---------------------------------------------------------------------
  // Metrics

  const IsolatedMetric: Metric :=
    Metric("ovs_pmd_cpu_isolated", "1 or 0 whether the CPU is excluded from automatic Rxq balancing.",
           ["numa", "cpu"], Gauge, PERF)
  const OverheadMetric: Metric :=
    Metric("ovs_pmd_cpu_overhead", "Percentage of CPU cycles not related to one specific Rxq.",
           ["numa", "cpu"], Gauge, PERF)
  const CtxtSwitchesMetric: Metric :=
    Metric("ovs_pmd_context_switches", "Number of voluntary context switches per PMD thread.",
           ["numa", "cpu"], Counter, PERF)
  const NonVolCtxtSwitchesMetric: Metric :=
    Metric("ovs_pmd_nonvol_context_switches", "Number of non-voluntary context switches per PMD thread.",
           ["numa", "cpu"], Counter, ERRORS)
  const UsageMetric: Metric :=
    Metric("ovs_pmd_rxq_usage", "Percentage of CPU cycles used to process packets from one Rxq.",
           ["numa", "cpu", "interface", "rxq"], Gauge, PERF)
  const EnabledMetric: Metric :=
    Metric("ovs_pmd_rxq_enabled", "1 or 0 whether a vhost-user Rxq is enabled by a guest.",
           ["numa", "cpu", "interface", "rxq"], Gauge, PERF)

  /** The collector's metric list, in its declared order. */
  const Metrics: seq<Metric> :=
    [IsolatedMetric, OverheadMetric, CtxtSwitchesMetric, NonVolCtxtSwitchesMetric, EnabledMetric, UsageMetric]

  const Info: CollectorInfo := CollectorInfo("pmd-rxq", Metrics)

  /** Six metrics with distinct names; the per-queue ones add interface and queue labels; only non-voluntary switches are an error metric. */
  lemma MetricsShape()
    ensures |Info.metrics| == 6
    ensures forall i, j :: 0 <= i < j < |Info.metrics| ==> Info.metrics[i].name != Info.metrics[j].name
    ensures forall m :: m in Info.metrics ==> m.labels[..2] == ["numa", "cpu"]
    ensures forall m :: m in Info.metrics ==> (|m.labels| == 4 <==> m == UsageMetric || m == EnabledMetric)
    ensures forall m :: m in Info.metrics ==> (m.metricSet == ERRORS <==> m == NonVolCtxtSwitchesMetric)
    ensures forall m :: m in Info.metrics ==> m.metricSet == ERRORS || m.metricSet == PERF
    ensures forall m :: m in Info.metrics ==> (m.valueType == Counter <==> m == CtxtSwitchesMetric || m == NonVolCtxtSwitchesMetric)
  {
  }

  // ---------------------------------------------------------------------
  // Line grammars

  /** `^\s*isolated\s*:\s*(true|false)$` */
  const IsolatedPattern: Pattern :=
    Then(Run(Space, false, false), Then(Lit("isolated"), Then(Run(Space, false, false), Then(Lit(":"),
    Then(Run(Space, false, false), Then(Alt("true", "false"), Done))))))

  /** `^\s*port:\s*(\S+)\s+queue-id:\s*(\d+)\s+\((enabled|disabled)\)\s+pmd usage:\s*([\d\.]+)\s*%$` */
  const RxqPattern: Pattern :=
    Then(Run(Space, false, false), Then(Lit("port:"), Then(Run(Space, false, false), Then(Run(NonSpace, true, true),
    Then(Run(Space, true, false), Then(Lit("queue-id:"), Then(Run(Space, false, false), Then(Run(Digit, true, true),
    Then(Run(Space, true, false), Then(Lit("("), Then(Alt("enabled", "disabled"), Then(Lit(")"),
    Then(Run(Space, true, false), Then(Lit("pmd usage:"), Then(Run(Space, false, false), Then(Run(DigitOrDot, true, true),
    Then(Run(Space, false, false), Then(Lit("%"), Done))))))))))))))))))

  /** `^\s*overhead\s*:\s*([\d\.]+)\s*%$` */
  const OverheadPattern: Pattern :=
    Then(Run(Space, false, false), Then(Lit("overhead"), Then(Run(Space, false, false), Then(Lit(":"),
    Then(Run(Space, false, false), Then(Run(DigitOrDot, true, true), Then(Run(Space, false, false), Then(Lit("%"),
    Done))))))))

  /** The three grammars can be matched greedily, so `Match` gives the regular expressions' captures. */
  lemma PatternsDeterministic()
    ensures Deterministic(IsolatedPattern) && Deterministic(RxqPattern) && Deterministic(OverheadPattern)
  {
    RxqDeterministic();
  }

  lemma RxqDeterministic()
    ensures Deterministic(RxqPattern)
  {
    var t := RxqPattern.tail.tail.tail.tail.tail.tail.tail.tail.tail;
    assert Deterministic(t);
  }

  /** The capture groups: the flag; port, queue id, state and usage; the overhead. */
  lemma PatternGroups()
    ensures Groups(IsolatedPattern) == [Alt("true", "false")]
    ensures Groups(RxqPattern) == [Run(NonSpace, true, true), Run(Digit, true, true), Alt("enabled", "disabled"), Run(DigitOrDot, true, true)]
    ensures Groups(OverheadPattern) == [Run(DigitOrDot, true, true)]
  {
    var t := RxqPattern.tail.tail.tail.tail.tail.tail.tail.tail.tail;
    assert Groups(t) == [Alt("enabled", "disabled"), Run(DigitOrDot, true, true)];
  }

  /** A header line is none of the detail lines: it starts with `pm`, not blanks then `isolated`, `port:` or `overhead`. */
  lemma HeaderIsNotDetail(line: string)
    requires Match(PmdPerf.HeaderPattern, line).Some?
    ensures Match(IsolatedPattern, line).None? && Match(RxqPattern, line).None? && Match(OverheadPattern, line).None?
  {
    PmdPerf.HeaderStart(line);
    assert line[0] == 'p' && line[1] == 'm';
    assert line[SpanLen(line, IsSpace)..] == line;
    if Match(IsolatedPattern, line).Some? {
      LeadingLit("isolated", IsolatedPattern.tail.tail, line);
    }
    if Match(RxqPattern, line).Some? {
      LeadingLit("port:", RxqPattern.tail.tail, line);
    }
    if Match(OverheadPattern, line).Some? {
      LeadingLit("overhead", OverheadPattern.tail.tail, line);
    }
  }

  /** No line is two kinds of detail line: after the blanks come `i`, `p` or `o`. */
  lemma DetailsExclusive(line: string)
    ensures Match(RxqPattern, line).Some? ==> Match(IsolatedPattern, line).None?
    ensures Match(OverheadPattern, line).Some? ==> Match(IsolatedPattern, line).None? && Match(RxqPattern, line).None?
  {
    var n := SpanLen(line, IsSpace);
    if Match(IsolatedPattern, line).Some? {
      LeadingLit("isolated", IsolatedPattern.tail.tail, line);
    }
    if Match(RxqPattern, line).Some? {
      LeadingLit("port:", RxqPattern.tail.tail, line);
    }
    if Match(OverheadPattern, line).Some? {
      LeadingLit("overhead", OverheadPattern.tail.tail, line);
    }
  }

  // ---------------------------------------------------------------------
  // Thread status files

  /** What one `/proc/<pid>/task/<tid>/status` file says about a thread. */
  datatype PmdStat = PmdStat(name: string, cpuAffinity: nat, numaAffinity: nat, ctxSwitches: nat, nonVolCtxSwitches: nat)

  const NoStat: PmdStat := PmdStat("", 0, 0, 0, 0)

  /** The key and value of a status line of exactly two fields. */
  function KeyValue(line: string): (r: Option<(string, string)>)
    ensures r.Some? <==> |Fields(line)| == 2
    ensures r.Some? ==> r.value == (Fields(line)[0], Fields(line)[1])
  {
    var tokens := Fields(line);
    if |tokens| == 2 then Some((tokens[0], tokens[1])) else None
  }

  /** A `Name:` line naming something other than a `pmd-c...` thread. */
  predicate NotPmdLine(line: string) {
    KeyValue(line).Some? && KeyValue(line).value.0 == "Name:" && !("pmd-c" <= KeyValue(line).value.1)
  }

  /** The field a status line sets, by its key; other keys set nothing. */
  function Assign(stat: PmdStat, key: string, value: string): (r: PmdStat)
    ensures r.name == (if key == "Name:" then value else stat.name)
    ensures r.cpuAffinity == (if key == "Cpus_allowed_list:" then ParseUintValue(value) else stat.cpuAffinity)
    ensures r.numaAffinity == (if key == "Mems_allowed_list:" then ParseUintValue(value) else stat.numaAffinity)
    ensures r.ctxSwitches == (if key == "voluntary_ctxt_switches:" then ParseUintValue(value) else stat.ctxSwitches)
    ensures r.nonVolCtxSwitches == (if key == "nonvoluntary_ctxt_switches:" then ParseUintValue(value) else stat.nonVolCtxSwitches)
  {
    if key == "Name:" then stat.(name := value)
    else if key == "Cpus_allowed_list:" then stat.(cpuAffinity := ParseUintValue(value))
    else if key == "Mems_allowed_list:" then stat.(numaAffinity := ParseUintValue(value))
    else if key == "voluntary_ctxt_switches:" then stat.(ctxSwitches := ParseUintValue(value))
    else if key == "nonvoluntary_ctxt_switches:" then stat.(nonVolCtxSwitches := ParseUintValue(value))
    else stat
  }

  /** parseStatus over the file's lines from `stat`: None (not a PMD thread) at the first foreign `Name:` line. */
  function ParseStatusFrom(stat: PmdStat, lines: seq<string>): (r: Option<PmdStat>)
    decreases |lines|
  {
    if |lines| == 0 then Some(stat)
    else
      match KeyValue(lines[0])
      case None => ParseStatusFrom(stat, lines[1..])
      case Some((key, value)) =>
        if key == "Name:" && !("pmd-c" <= value) then None
        else ParseStatusFrom(Assign(stat, key, value), lines[1..])
  }

  function ParseStatus(lines: seq<string>): Option<PmdStat> {
    ParseStatusFrom(NoStat, lines)
  }

  /** The value of the last two-field line whose key is `key`. */
  function LastValue(lines: seq<string>, key: string): (r: Option<string>)
    decreases |lines|
  {
    if |lines| == 0 then None
    else
      match LastValue(lines[1..], key)
      case Some(v) => Some(v)
      case None =>
        match KeyValue(lines[0])
        case Some((k, v)) => if k == key then Some(v) else None
        case None => None
  }

  /** The number a key's last line gives, or `dflt` when the key never appears. */
  function LastNumber(lines: seq<string>, key: string, dflt: nat): nat {
    match LastValue(lines, key)
    case Some(v) => ParseUintValue(v)
    case None => dflt
  }

  /** A status file is rejected exactly when one of its `Name:` lines does not name a PMD thread. */
  lemma {:induction false} ParseStatusRejects(stat: PmdStat, lines: seq<string>)
    ensures ParseStatusFrom(stat, lines).None? <==> exists k :: 0 <= k < |lines| && NotPmdLine(lines[k])
    decreases |lines|
  {
    if |lines| > 0 {
      RejectsShift(lines);
      match KeyValue(lines[0])
      case None =>
        ParseStatusRejects(stat, lines[1..]);
      case Some((key, value)) =>
        ParseStatusRejects(Assign(stat, key, value), lines[1..]);
    }
  }

  lemma RejectsShift(lines: seq<string>)
    requires |lines| > 0
    ensures (exists k :: 0 <= k < |lines| && NotPmdLine(lines[k])) <==>
            NotPmdLine(lines[0]) || exists k :: 0 <= k < |lines[1..]| && NotPmdLine(lines[1..][k])
  {
    if exists k :: 0 <= k < |lines| && NotPmdLine(lines[k]) {
      var k :| 0 <= k < |lines| && NotPmdLine(lines[k]);
      if k > 0 {
        assert lines[1..][k - 1] == lines[k];
      }
    }
  }

  /**
   * An accepted status file yields, for each field, the value of the last
   * line that sets it (the name verbatim, the numbers as ParseUint reads
   * them), or the starting value when no line does.
   */
  lemma ParseStatusFields(stat: PmdStat, lines: seq<string>)
    requires ParseStatusFrom(stat, lines).Some?
    ensures var r := ParseStatusFrom(stat, lines).value;
            && r.name == LastValue(lines, "Name:").GetOr(stat.name)
            && r.cpuAffinity == LastNumber(lines, "Cpus_allowed_list:", stat.cpuAffinity)
            && r.numaAffinity == LastNumber(lines, "Mems_allowed_list:", stat.numaAffinity)
            && r.ctxSwitches == LastNumber(lines, "voluntary_ctxt_switches:", stat.ctxSwitches)
            && r.nonVolCtxSwitches == LastNumber(lines, "nonvoluntary_ctxt_switches:", stat.nonVolCtxSwitches)
  {
    ParseStatusName(stat, lines);
    ParseStatusNumber(stat, lines, "Cpus_allowed_list:");
    ParseStatusNumber(stat, lines, "Mems_allowed_list:");
    ParseStatusNumber(stat, lines, "voluntary_ctxt_switches:");
    ParseStatusNumber(stat, lines, "nonvoluntary_ctxt_switches:");
  }

  /** The numeric field a key sets. */
  function NumberField(st: PmdStat, key: string): nat {
    if key == "Cpus_allowed_list:" then st.cpuAffinity
    else if key == "Mems_allowed_list:" then st.numaAffinity
    else if key == "voluntary_ctxt_switches:" then st.ctxSwitches
    else if key == "nonvoluntary_ctxt_switches:" then st.nonVolCtxSwitches
    else 0
  }

  lemma {:induction false} ParseStatusName(stat: PmdStat, lines: seq<string>)
    requires ParseStatusFrom(stat, lines).Some?
    ensures ParseStatusFrom(stat, lines).value.name == LastValue(lines, "Name:").GetOr(stat.name)
    decreases |lines|
  {
    if |lines| > 0 {
      match KeyValue(lines[0])
      case None =>
        ParseStatusName(stat, lines[1..]);
      case Some((key, value)) =>
        ParseStatusName(Assign(stat, key, value), lines[1..]);
        LastValueStep(lines, "Name:", stat.name);
    }
  }

  lemma {:induction false} ParseStatusNumber(stat: PmdStat, lines: seq<string>, key: string)
    requires ParseStatusFrom(stat, lines).Some?
    requires key in {"Cpus_allowed_list:", "Mems_allowed_list:", "voluntary_ctxt_switches:", "nonvoluntary_ctxt_switches:"}
    ensures NumberField(ParseStatusFrom(stat, lines).value, key) == LastNumber(lines, key, NumberField(stat, key))
    decreases |lines|
  {
    if |lines| > 0 {
      match KeyValue(lines[0])
      case None =>
        ParseStatusNumber(stat, lines[1..], key);
      case Some((k, v)) =>
        ParseStatusNumber(Assign(stat, k, v), lines[1..], key);
        LastNumberStep(lines, key, NumberField(stat, key));
    }
  }

  /** The last value of a key in a file is that of the rest of the file, or else the first line's. */
  lemma LastValueStep(lines: seq<string>, key: string, dflt: string)
    requires |lines| > 0 && KeyValue(lines[0]).Some?
    ensures var (k, v) := KeyValue(lines[0]).value;
            LastValue(lines, key).GetOr(dflt) == LastValue(lines[1..], key).GetOr(if k == key then v else dflt)
  {
  }

  lemma LastNumberStep(lines: seq<string>, key: string, dflt: nat)
    requires |lines| > 0 && KeyValue(lines[0]).Some?
    ensures var (k, v) := KeyValue(lines[0]).value;
            LastNumber(lines, key, dflt) == LastNumber(lines[1..], key, if k == key then ParseUintValue(v) else dflt)
  {
  }

  /**
   * getVswitchdPmdStat once every status file is parsed: the accepted
   * threads, in directory order, keyed by CPU affinity; a later thread
   * pinned to the same CPU replaces an earlier one.
   */
  function StatsMap(parsed: seq<Option<PmdStat>>): (m: map<nat, PmdStat>)
    decreases |parsed|
  {
    if |parsed| == 0 then map[]
    else
      var m := StatsMap(parsed[..|parsed| - 1]);
      match parsed[|parsed| - 1]
      case Some(st) => m[st.cpuAffinity := st]
      case None => m
  }

  /** getVswitchdPmdStat over the status files of the daemon's threads. */
  function PmdStats(files: seq<seq<string>>): map<nat, PmdStat> {
    StatsMap(seq(|files|, i requires 0 <= i < |files| => ParseStatus(files[i])))
  }

  /** An accepted thread pinned to CPU `c`. */
  predicate Pinned(st: Option<PmdStat>, c: nat) {
    st.Some? && st.value.cpuAffinity == c
  }

  /** Entry `k` is the last one pinned to `c`. */
  predicate LastFor(parsed: seq<Option<PmdStat>>, c: nat, k: int) {
    0 <= k < |parsed| && Pinned(parsed[k], c) && forall j :: k < j < |parsed| ==> !Pinned(parsed[j], c)
  }

  /** A CPU is a key exactly when some accepted thread is pinned to it. */
  lemma {:induction false} StatsMapKeys(parsed: seq<Option<PmdStat>>, c: nat)
    ensures c in StatsMap(parsed) <==> exists k :: 0 <= k < |parsed| && Pinned(parsed[k], c)
    decreases |parsed|
  {
    if |parsed| > 0 {
      var init := parsed[..|parsed| - 1];
      StatsMapKeys(init, c);
      if exists k :: 0 <= k < |init| && Pinned(init[k], c) {
        var k :| 0 <= k < |init| && Pinned(init[k], c);
        assert parsed[k] == init[k];
      }
      if exists k :: 0 <= k < |parsed| && Pinned(parsed[k], c) {
        var k :| 0 <= k < |parsed| && Pinned(parsed[k], c);
        if k < |init| {
          assert parsed[k] == init[k];
        }
      }
    }
  }

  /** A CPU maps to the last accepted thread pinned to it. */
  lemma {:induction false} StatsMapLast(parsed: seq<Option<PmdStat>>, c: nat, k: int)
    requires LastFor(parsed, c, k)
    ensures c in StatsMap(parsed) && StatsMap(parsed)[c] == parsed[k].value
    decreases |parsed|
  {
    var n := |parsed| - 1;
    if k < n {
      var init := parsed[..n];
      assert init[k] == parsed[k];
      forall j | k < j < |init| ensures !Pinned(init[j], c) {
        assert init[j] == parsed[j];
      }
      StatsMapLast(init, c, k);
    }
  }

  // ---------------------------------------------------------------------
  // The scan

  type Core = PmdPerf.Core

  function ThreadLabels(core: Core): seq<string> {
    [core.numa, core.cpu]
  }

  /** A sample of the list labelled by the thread: its first two label values are the thread's NUMA node and CPU. */
  predicate OfThread(core: Core, s: Sample) {
    s.metric in Metrics && WellLabelled(s) && |s.labels| >= 2 && s.labels[0] == core.numa && s.labels[1] == core.cpu
  }

  /** 1 for the first alternative of a `(a|b)` capture, 0 for the other. */
  function Flag(v: string, yes: string): real {
    if v == yes then 1.0 else 0.0
  }

  /** A queue line: its enabled flag, then its usage when the percentage parses. */
  function QueueSamples(core: Core, caps: seq<string>): (r: seq<Sample>)
    requires |caps| == 4
    ensures 1 <= |r| <= 2
    ensures forall k :: 0 <= k < |r| ==> OfThread(core, r[k]) && r[k].metric.metricSet == PERF
  {
    var labels := ThreadLabels(core) + [caps[0], caps[1]];
    var enabled := Sample(EnabledMetric, labels, Flag(caps[2], "enabled"));
    match ParseDecimal(caps[3])
    case Some(u) => [enabled, Sample(UsageMetric, labels, u)]
    case None => [enabled]
  }

  /** The detail a line gives inside an open thread while PERF is active, or None when it is not a detail line. */
  function Detail(core: Core, line: string): (r: Option<seq<Sample>>)
    ensures r.Some? ==> |r.value| <= 2
    ensures r.Some? ==> forall k :: 0 <= k < |r.value| ==> OfThread(core, r.value[k]) && r.value[k].metric.metricSet == PERF
  {
    PatternGroups();
    match Match(IsolatedPattern, line)
    case Some(v) =>
      Some([Sample(IsolatedMetric, ThreadLabels(core), Flag(v[0], "true"))])
    case None =>
      match Match(RxqPattern, line)
      case Some(v) =>
        Some(QueueSamples(core, v))
      case None =>
        match Match(OverheadPattern, line)
        case Some(v) =>
          (match ParseDecimal(v[0])
           case Some(o) => Some([Sample(OverheadMetric, ThreadLabels(core), o)])
           case None => Some([]))
        case None => None
  }

  /** A header's samples: the thread's context switches, when its CPU has a status entry, each under its own set. */
  function SwitchSamples(active: MetricSet, stats: map<nat, PmdStat>, core: Core): (r: seq<Sample>)
    ensures |r| <= 2
    ensures forall k :: 0 <= k < |r| ==> OfThread(core, r[k]) && Has(active, r[k].metric.metricSet)
  {
    var c := ParseUintValue(core.cpu);
    if c !in stats then []
    else
      (if Has(active, CtxtSwitchesMetric.metricSet)
       then [Sample(CtxtSwitchesMetric, ThreadLabels(core), stats[c].ctxSwitches as real)] else [])
      + (if Has(active, NonVolCtxtSwitchesMetric.metricSet)
         then [Sample(NonVolCtxtSwitchesMetric, ThreadLabels(core), stats[c].nonVolCtxSwitches as real)] else [])
  }

  /** One line: a detail line of an open thread is consumed while PERF is active; otherwise a header switches threads. */
  function StepOn(active: MetricSet, stats: map<nat, PmdStat>, core: Core, line: string): (r: (Core, seq<Sample>))
    ensures |r.1| <= 2
  {
    if PmdPerf.Open(core) && Has(active, PERF) && Detail(core, line).Some? then
      (core, Detail(core, line).value)
    else
      match PmdPerf.HeaderOf(line)
      case Some(h) => (h, SwitchSamples(active, stats, h))
      case None => (core, [])
  }

  function Step(active: MetricSet, stats: map<nat, PmdStat>): (Core, string) -> (Core, seq<Sample>) {
    (core: Core, line: string) => StepOn(active, stats, core, line)
  }

  /** Collect: nothing for an empty reply, otherwise the scan's samples. */
  function Collect(active: MetricSet, stats: map<nat, PmdStat>, reply: string): (r: seq<Sample>)
    ensures reply == "" ==> r == []
  {
    if reply == "" then [] else Fold(Step(active, stats), PmdPerf.NoCore, Lines(reply)).1
  }

  // ---------------------------------------------------------------------
  // Properties

  /**
   * A header switches to the thread it names, whatever came before; it
   * emits the voluntary count (PERF) and the non-voluntary count (ERRORS)
   * from the status entry of the CPU it names, and nothing when there is none.
   */
  lemma StepHeader(active: MetricSet, stats: map<nat, PmdStat>, core: Core, line: string)
    requires PmdPerf.HeaderOf(line).Some?
    ensures var h := PmdPerf.HeaderOf(line).value;
            var r := StepOn(active, stats, core, line);
            var c := ParseUintValue(h.cpu);
            && r.0 == h
            && (c !in stats ==> r.1 == [])
            && (c in stats && Has(active, PERF) && Has(active, ERRORS) ==>
                  r.1 == [Sample(CtxtSwitchesMetric, [h.numa, h.cpu], stats[c].ctxSwitches as real),
                          Sample(NonVolCtxtSwitchesMetric, [h.numa, h.cpu], stats[c].nonVolCtxSwitches as real)])
  {
    HeaderIsNotDetail(line);
  }

  /** Inside a thread while PERF is active, `isolated` gives 1 for true and 0 for false, and keeps the thread. */
  lemma IsolatedLine(active: MetricSet, stats: map<nat, PmdStat>, core: Core, line: string)
    requires PmdPerf.Open(core) && Has(active, PERF) && Match(IsolatedPattern, line).Some?
    ensures var v := Match(IsolatedPattern, line).value;
            && |v| == 1 && (v[0] == "true" || v[0] == "false")
            && StepOn(active, stats, core, line) == (core, [Sample(IsolatedMetric, [core.numa, core.cpu], if v[0] == "true" then 1.0 else 0.0)])
  {
    PatternGroups();
    var v := Match(IsolatedPattern, line).value;
    assert ItemAccepts(Groups(IsolatedPattern)[0], v[0]);
  }

  /**
   * Inside a thread while PERF is active, a queue line gives its enabled
   * flag labelled with the thread, port and queue id, then its usage when
   * the percentage parses, and keeps the thread.
   */
  lemma QueueLine(active: MetricSet, stats: map<nat, PmdStat>, core: Core, line: string)
    requires PmdPerf.Open(core) && Has(active, PERF) && Match(RxqPattern, line).Some?
    ensures var v := Match(RxqPattern, line).value;
            var r := StepOn(active, stats, core, line);
            var labels := [core.numa, core.cpu, v[0], v[1]];
            && |v| == 4 && |v[0]| > 0 && AllIn(v[0], NonSpace) && |v[1]| > 0 && AllDigits(v[1])
            && r.0 == core && 1 <= |r.1| <= 2
            && r.1[0] == Sample(EnabledMetric, labels, if v[2] == "enabled" then 1.0 else 0.0)
            && (|r.1| == 2 <==> ParseDecimal(v[3]).Some?)
            && (|r.1| == 2 ==> r.1[1] == Sample(UsageMetric, labels, ParseDecimal(v[3]).value))
  {
    QueueCaptures(line);
    QueueStep(active, stats, core, line);
  }

  /** A queue line's four captures: a non-blank port name and a decimal queue id come first. */
  lemma QueueCaptures(line: string)
    requires Match(RxqPattern, line).Some?
    ensures var v := Match(RxqPattern, line).value;
            |v| == 4 && |v[0]| > 0 && AllIn(v[0], NonSpace) && |v[1]| > 0 && AllDigits(v[1])
  {
    PatternGroups();
    var v := Match(RxqPattern, line).value;
    assert ItemAccepts(Groups(RxqPattern)[0], v[0]);
    DigitGroup(RxqPattern, v, 1);
  }

  /** Inside an open thread while PERF is active, a queue line gives its queue samples and keeps the thread. */
  lemma QueueStep(active: MetricSet, stats: map<nat, PmdStat>, core: Core, line: string)
    requires PmdPerf.Open(core) && Has(active, PERF) && Match(RxqPattern, line).Some?
    ensures |Match(RxqPattern, line).value| == 4
    ensures StepOn(active, stats, core, line) == (core, QueueSamples(core, Match(RxqPattern, line).value))
  {
    PatternGroups();
    DetailsExclusive(line);
    assert Detail(core, line) == Some(QueueSamples(core, Match(RxqPattern, line).value));
  }

  /** Inside a thread while PERF is active, `overhead` gives its percentage when it parses, and keeps the thread. */
  lemma OverheadLine(active: MetricSet, stats: map<nat, PmdStat>, core: Core, line: string)
    requires PmdPerf.Open(core) && Has(active, PERF) && Match(OverheadPattern, line).Some?
    ensures var v := Match(OverheadPattern, line).value;
            var r := StepOn(active, stats, core, line);
            && |v| == 1 && r.0 == core
            && (r.1 == [] <==> ParseDecimal(v[0]).None?)
            && (ParseDecimal(v[0]).Some? ==> r.1 == [Sample(OverheadMetric, [core.numa, core.cpu], ParseDecimal(v[0]).value)])
  {
    PatternGroups();
    DetailsExclusive(line);
  }

  /** After any lines, the thread is the one the last header named, or the starting one when there was none. */
  lemma ContextIsLastHeader(active: MetricSet, stats: map<nat, PmdStat>, core: Core, lines: seq<string>)
    ensures Fold(Step(active, stats), core, lines).0 == LastHeader(PmdPerf.HeaderOf, lines).GetOr(core)
  {
    var step := Step(active, stats);
    forall c, l ensures Tracks(step, PmdPerf.HeaderOf, c, l) {
      if PmdPerf.HeaderOf(l).Some? {
        HeaderIsNotDetail(l);
      }
    }
    FoldTracks(step, PmdPerf.HeaderOf, core, lines);
  }

  /** Before the first header nothing is emitted, whatever the detail lines say. */
  lemma NothingBeforeHeader(active: MetricSet, stats: map<nat, PmdStat>, lines: seq<string>)
    requires LastHeader(PmdPerf.HeaderOf, lines).None?
    ensures Fold(Step(active, stats), PmdPerf.NoCore, lines) == (PmdPerf.NoCore, [])
  {
    var step := Step(active, stats);
    forall l ensures IdleUntilHeader(step, PmdPerf.HeaderOf, PmdPerf.NoCore, l) {
    }
    FoldBeforeHeader(step, PmdPerf.HeaderOf, PmdPerf.NoCore, lines);
  }

  /** A sample of the collector: an active metric of the list, labelled by a thread, one value per label name. */
  predicate Valid(active: MetricSet, s: Sample) {
    && s.metric in Info.metrics
    && Has(active, s.metric.metricSet)
    && WellLabelled(s)
    && |s.labels| >= 2 && s.labels[0] != "" && s.labels[1] != ""
  }

  /** Every sample of one line is valid. */
  lemma StepValid(active: MetricSet, stats: map<nat, PmdStat>, core: Core, line: string)
    ensures var r := StepOn(active, stats, core, line).1;
            forall k :: 0 <= k < |r| ==> Valid(active, r[k])
  {
  }

  /** Every sample is valid, and no line emits more than two. */
  lemma CollectSound(active: MetricSet, stats: map<nat, PmdStat>, reply: string)
    ensures var r := Collect(active, stats, reply);
            |r| <= 2 * |Lines(reply)| && forall k :: 0 <= k < |r| ==> Valid(active, r[k])
  {
    if reply != "" {
      var step := Step(active, stats);
      var ok := s => Valid(active, s);
      forall c, l ensures StepYields(step, ok, c, l) {
        StepValid(active, stats, c, l);
      }
      forall c, l ensures StepAtMost(step, 2, c, l) {
      }
      FoldYields(step, ok, PmdPerf.NoCore, Lines(reply));
      FoldAtMost(step, 2, PmdPerf.NoCore, Lines(reply));
    }
  }
}
