/**
 * The pmd_perf collector: `dpif-netdev/pmd-perf-show` prints, for each PMD
 * thread, a header `pmd thread numa_id N core_id C:` followed by lines
 * `<label>: <count> <details>`. A line whose label is a key of the metric
 * table becomes a sample labelled with the thread's NUMA node and core.
 */
module PmdPerf {
  import opened Wrappers
  import opened Text
  import opened Config
  import opened Registry
  import opened Patterns
  import opened LineFold

  // ---------------------------------------------------------------------
  // Metrics

  const CommonLabels: seq<string> := ["numa", "cpu"]

  function PmdCounter(name: string, description: string, ms: MetricSet): Metric {
    Metric(name, description, CommonLabels, Counter, ms)
  }

  /** The label text of each statistic line, exactly as printed, and its metric. */
  const PerfTable: Table := [
    ("Iterations", PmdCounter("ovs_pmd_total_iterations", "Total number of iterations", PERF)),
    ("- idle iterations", PmdCounter("ovs_pmd_idle_iterations", "Number of iterations where zero packets where received", PERF)),
    ("- busy iterations", PmdCounter("ovs_pmd_busy_iterations", "Number of iterations spent processing packets", PERF)),
    ("- sleep iterations", PmdCounter("ovs_pmd_sleep_iterations", "Number of iterations spent sleeping", PERF)),
    ("Sleep time (us)", PmdCounter("ovs_pmd_sleep_microseconds", "Total time spent sleeping in microseconds", PERF)),
    ("Rx packets", PmdCounter("ovs_pmd_rx_packets", "Number of packets received", PERF)),
    ("Datapath passes", PmdCounter("ovs_pmd_datapath_passes", "Number of datapath passes", DEBUG)),
    ("- PHWOL hits", PmdCounter("ovs_pmd_phwol_hits", "phwol hits", DEBUG)),
    ("- MFEX Opt hits", PmdCounter("ovs_pmd_mfex_opt_hits", "mfex opt hits", DEBUG)),
    ("- Simple Match hits", PmdCounter("ovs_pmd_simple_match_hits", "simple match hits", DEBUG)),
    ("- EMC hits", PmdCounter("ovs_pmd_emc_hits", "emc hits", DEBUG)),
    ("- SMC hits", PmdCounter("ovs_pmd_smc_hits", "smc hits", DEBUG)),
    ("- Megaflow hits", PmdCounter("ovs_pmd_megaflow_hits", "megaflow hits", DEBUG)),
    ("- Upcalls", PmdCounter("ovs_pmd_total_upcalls", "Number of upcalls", PERF)),
    ("- Lost upcalls", PmdCounter("ovs_pmd_lost_upcalls", "Number of lost upcalls", ERRORS)),
    ("Tx packets", PmdCounter("ovs_pmd_tx_packets", "Number of Tx packets", PERF)),
    ("Tx batches", Metric("ovs_pmd_tx_batches", "Number of Tx batches", CommonLabels, Gauge, PERF))
  ]

  /** The collector's metrics: the table's values (the source lists them in map order). */
  const Info: CollectorInfo := CollectorInfo("pmd-perf", Values(PerfTable))

  const DebugKeys: set<string> :=
    {"Datapath passes", "- PHWOL hits", "- MFEX Opt hits", "- Simple Match hits", "- EMC hits", "- SMC hits", "- Megaflow hits"}

  /** The table's 17 keys are distinct. */
  lemma PerfTableKeys()
    ensures |PerfTable| == 17 && KeysDistinct(PerfTable)
  {
  }

  /** The table's keys, in table order. */
  const PerfKeys: seq<string> := [
    "Iterations", "- idle iterations", "- busy iterations", "- sleep iterations", "Sleep time (us)",
    "Rx packets", "Datapath passes", "- PHWOL hits", "- MFEX Opt hits", "- Simple Match hits",
    "- EMC hits", "- SMC hits", "- Megaflow hits", "- Upcalls", "- Lost upcalls", "Tx packets", "Tx batches"
  ]

  lemma KeysOfTable()
    ensures |PerfTable| == |PerfKeys| && forall i :: 0 <= i < |PerfTable| ==> PerfTable[i].0 == PerfKeys[i]
  {
  }

  /**
   * The used-cycles line printed between "Iterations" and "- idle
   * iterations" is not a key: the statistic pattern takes it, but the
   * table lookup finds nothing.
   */
  lemma UsedTscNotKey()
    ensures Lookup(PerfTable, "- Used TSC cycles").None?
  {
    KeysOfTable();
    assert "- Used TSC cycles" !in PerfKeys;
  }

  /** No two statistics share a metric name. */
  lemma PerfTableNames()
    ensures forall i, j :: 0 <= i < j < |PerfTable| ==> PerfTable[i].1.name != PerfTable[j].1.name
  {
  }

  /** Every metric is labelled [numa, cpu], and "Tx batches" is the only gauge. */
  lemma PerfTableLabels()
    ensures forall i :: 0 <= i < |PerfTable| ==> PerfTable[i].1.labels == ["numa", "cpu"]
    ensures forall i :: 0 <= i < |PerfTable| ==>
              (PerfTable[i].1.valueType == Gauge <==> PerfTable[i].0 == "Tx batches")
  {
  }

  /** The cache-level hit counts are debug metrics, lost upcalls an error metric, the rest perf metrics. */
  lemma PerfTableSets()
    ensures forall i :: 0 <= i < |PerfTable| ==>
              PerfTable[i].1.metricSet == (if PerfTable[i].0 in DebugKeys then DEBUG
                                           else if PerfTable[i].0 == "- Lost upcalls" then ERRORS
                                           else PERF)
  {
  }

  // ---------------------------------------------------------------------
  // Line grammars

  /** `^pmd thread numa_id (\d+) core_id (\d+):$` (the pmd_rxq collector uses the same header). */
  const HeaderPattern: Pattern :=
    Then(Lit("pmd thread numa_id "), Then(Run(Digit, true, true), Then(Lit(" core_id "), Then(Run(Digit, true, true),
    Then(Lit(":"), Done)))))

  lemma HeaderDeterministic()
    ensures Deterministic(HeaderPattern)
  {
  }

  /**
   * The pieces of a line in the language of `^\s*([^:]+):\s+(\d+)\s*(.*)$`:
   * leading whitespace, a label without a colon, the colon, whitespace,
   * digits, and anything after.
   */
  predicate StatShaped(line: string, lead: string, key: string, gap: string, digits: string, tail: string) {
    && line == lead + key + ":" + gap + digits + tail
    && AllSpace(lead)
    && |key| > 0 && ':' !in key
    && |gap| > 0 && AllSpace(gap)
    && |digits| > 0 && AllDigits(digits)
  }

  /**
   * What `^\s*([^:]+)` captures from the text before the first colon: the
   * text without its leading whitespace, or its last character when it is
   * all whitespace (the greedy `\s*` gives one character back to `[^:]+`).
   */
  function LabelOf(pre: string): (key: string)
    requires |pre| > 0
    ensures 0 < |key| <= |pre| && key == pre[|pre| - |key|..]
  {
    var n := SpanLen(pre, IsSpace);
    if n < |pre| then pre[n..] else pre[|pre| - 1..]
  }

  /** What `:\s+(\d+)` captures from the text after the colon: the digits after at least one blank. */
  function CountOf(rest: string): (r: Option<DigitString>)
  {
    var sp := SpanLen(rest, IsSpace);
    var d := SpanLen(rest[sp..], IsDigit);
    if sp == 0 || d == 0 then None else Some(rest[sp..sp + d])
  }

  /** The label and the count the expression captures, or None when the line does not match. */
  function StatMatch(line: string): (r: Option<(string, DigitString)>)
  {
    var i := IndexOf(line, ':');
    if i == |line| || i == 0 then None
    else
      match CountOf(line[i + 1..])
      case None => None
      case Some(digits) => Some((LabelOf(line[..i]), digits))
  }

  lemma CountOfSound(rest: string)
    requires CountOf(rest).Some?
    ensures var digits := CountOf(rest).value;
            var sp := SpanLen(rest, IsSpace);
            && 0 < sp && AllSpace(rest[..sp]) && |digits| > 0
            && sp + |digits| <= |rest| && rest == rest[..sp] + digits + rest[sp + |digits|..]
  {
    var sp := SpanLen(rest, IsSpace);
    var d := SpanLen(rest[sp..], IsDigit);
    assert rest == rest[..sp] + rest[sp..sp + d] + rest[sp + d..];
  }

  lemma CountOfComplete(gap: string, digits: string, tail: string)
    requires |gap| > 0 && AllSpace(gap) && |digits| > 0 && AllDigits(digits)
    ensures CountOf(gap + digits + tail) == Some(digits + tail[..SpanLen(tail, IsDigit)])
  {
    var rest := gap + digits + tail;
    assert rest == gap + (digits + tail);
    SpanLenOfConcat(gap, digits + tail, IsSpace);
    assert rest[|gap|..] == digits + tail;
    SpanLenAppend(digits, tail, IsDigit);
    var d := |digits| + SpanLen(tail, IsDigit);
    assert rest[|gap|..|gap| + d] == digits + tail[..SpanLen(tail, IsDigit)];
  }

  lemma LabelOfSound(pre: string)
    requires |pre| > 0 && ':' !in pre
    ensures var key := LabelOf(pre);
            && AllSpace(pre[..|pre| - |key|]) && ':' !in key && pre == pre[..|pre| - |key|] + key
  {
    var key := LabelOf(pre);
    var n := SpanLen(pre, IsSpace);
    assert |pre| - |key| <= n;
    assert pre == pre[..|pre| - |key|] + pre[|pre| - |key|..];
  }

  lemma Reassemble(line: string, pre: string, rest: string, lead: string, key: string, gap: string, digits: string, tail: string)
    requires line == pre + ":" + rest && pre == lead + key && rest == gap + digits + tail
    ensures line == lead + key + ":" + gap + digits + tail
  {
  }

  /** The pieces the matcher reads around the colon at `i`, as witnesses of `StatShaped`. */
  lemma ShapedAround(line: string, i: nat)
    requires 0 < i < |line| && line[i] == ':' && ':' !in line[..i] && CountOf(line[i + 1..]).Some?
    ensures var pre, rest := line[..i], line[i + 1..];
            var key, digits := LabelOf(pre), CountOf(rest).value;
            var sp := SpanLen(rest, IsSpace);
            StatShaped(line, pre[..|pre| - |key|], key, rest[..sp], digits, rest[sp + |digits|..])
  {
    var pre, rest := line[..i], line[i + 1..];
    var key, digits := LabelOf(pre), CountOf(rest).value;
    LabelOfSound(pre);
    CountOfSound(rest);
    var sp := SpanLen(rest, IsSpace);
    SplitAround(line, i);
    Reassemble(line, pre, rest, pre[..|pre| - |key|], key, rest[..sp], digits, rest[sp + |digits|..]);
  }

  /** What the matcher captures, the line really is made of. */
  lemma StatMatchSound(line: string)
    requires StatMatch(line).Some?
    ensures exists lead, gap, tail :: StatShaped(line, lead, StatMatch(line).value.0, gap, StatMatch(line).value.1, tail)
  {
    var i := IndexOf(line, ':');
    assert StatMatch(line).value == (LabelOf(line[..i]), CountOf(line[i + 1..]).value);
    assert ':' !in line[..i] by {
      forall k | 0 <= k < i ensures line[..i][k] != ':' {
        assert line[..i][k] == line[k];
      }
    }
    ShapedAround(line, i);
  }

  /**
   * A line of that shape matches: the label is the text before the colon as
   * `LabelOf` reads it, the count is the digits and any digits that follow.
   */
  lemma StatMatchComplete(line: string, lead: string, key: string, gap: string, digits: string, tail: string)
    requires StatShaped(line, lead, key, gap, digits, tail)
    ensures StatMatch(line) == Some((LabelOf(lead + key), digits + tail[..SpanLen(tail, IsDigit)]))
  {
    var pre := lead + key;
    var rest := gap + digits + tail;
    assert line == pre + [':'] + rest;
    assert ':' !in pre by {
      forall k | 0 <= k < |pre| ensures pre[k] != ':' {
        if k >= |lead| {
          assert pre[k] == key[k - |lead|];
        }
      }
    }
    IndexOfAfterPrefix(pre, rest, ':');
    assert line[..|pre|] == pre;
    assert line[|pre| + 1..] == rest;
    CountOfComplete(gap, digits, tail);
  }

  // ---------------------------------------------------------------------
  // The scan

  /** The PMD thread the statistic lines belong to: empty strings before the first header. */
  datatype Core = Core(numa: string, cpu: string)

  const NoCore: Core := Core("", "")

  predicate Open(core: Core) {
    core.numa != "" && core.cpu != ""
  }

  /** The label values of a thread's samples. */
  function LabelsOf(core: Core): seq<string> {
    [core.numa, core.cpu]
  }

  /** The thread a header line names, by two digit strings; None for any other line. */
  function HeaderOf(line: string): (r: Option<Core>)
    ensures r.Some? <==> Match(HeaderPattern, line).Some?
    ensures r.Some? ==> Open(r.value) && AllDigits(r.value.numa) && AllDigits(r.value.cpu)
  {
    match Match(HeaderPattern, line)
    case Some(caps) =>
      DigitGroup(HeaderPattern, caps, 0);
      DigitGroup(HeaderPattern, caps, 1);
      Some(Core(caps[0], caps[1]))
    case None => None
  }

  /** makeMetric: a sample when the label is a table key whose set is active. */
  function MakeMetric(active: MetricSet, table: Table, core: Core, key: string, value: DigitString): (r: seq<Sample>)
    ensures |r| <= 1
    ensures |r| == 1 <==> Lookup(table, key).Some? && Has(active, Lookup(table, key).value.metricSet)
    ensures |r| == 1 ==> r[0] == Sample(Lookup(table, key).value, [core.numa, core.cpu], DigitsValue(value) as real)
  {
    match Lookup(table, key)
    case None => []
    case Some(m) => if Has(active, m.metricSet) then [Sample(m, [core.numa, core.cpu], DigitsValue(value) as real)] else []
  }

  /** One line: inside a thread, a statistic line is consumed (with or without a sample); otherwise a header switches threads. */
  /** A used-cycles line yields no sample, whatever the active sets, the thread and the count. */
  lemma UsedTscSilent(active: MetricSet, core: Core, value: DigitString)
    ensures MakeMetric(active, PerfTable, core, "- Used TSC cycles", value) == []
  {
    UsedTscNotKey();
  }

  function Step(active: MetricSet, table: Table): (Core, string) -> (Core, seq<Sample>) {
    (core: Core, line: string) =>
      if Open(core) && StatMatch(line).Some? then
        (core, MakeMetric(active, table, core, StatMatch(line).value.0, StatMatch(line).value.1))
      else
        (HeaderOf(line).GetOr(core), [])
  }

  /** Collect: nothing for an empty reply, otherwise the scan's samples. */
  function Collect(active: MetricSet, table: Table, reply: string): (r: seq<Sample>)
    ensures reply == "" ==> r == []
  {
    if reply == "" then [] else Fold(Step(active, table), NoCore, Lines(reply)).1
  }

  // ---------------------------------------------------------------------
  // Properties

  /** A header line starts with the literal `pmd thread numa_id `. */
  lemma HeaderStart(line: string)
    requires Match(HeaderPattern, line).Some?
    ensures "pmd thread numa_id " <= line
  {
    MatchGivesPieces(HeaderPattern, line);
    var ps :| Accepts(HeaderPattern, ps) && Concat(ps) == line && Captures(HeaderPattern, ps) == Match(HeaderPattern, line).value;
    var p1 := Then(Run(Digit, true, true), Then(Lit(" core_id "), Then(Run(Digit, true, true), Then(Lit(":"), Done))));
    AcceptsHead(Lit("pmd thread numa_id "), p1, ps);
  }

  /** A header line ends at its only colon, so it is never read as a statistic line. */
  lemma HeaderIsNotStat(line: string)
    requires Match(HeaderPattern, line).Some?
    ensures StatMatch(line).None?
  {
    MatchGivesPieces(HeaderPattern, line);
    var ps :| Accepts(HeaderPattern, ps) && Concat(ps) == line && Captures(HeaderPattern, ps) == Match(HeaderPattern, line).value;
    var p1 := Then(Run(Digit, true, true), Then(Lit(" core_id "), Then(Run(Digit, true, true), Then(Lit(":"), Done))));
    var p2 := Then(Lit(" core_id "), Then(Run(Digit, true, true), Then(Lit(":"), Done)));
    var p3 := Then(Run(Digit, true, true), Then(Lit(":"), Done));
    var p4 := Then(Lit(":"), Done);
    AcceptsHead(Lit("pmd thread numa_id "), p1, ps);
    var q1 := ps[1..];
    AcceptsHead(Run(Digit, true, true), p2, q1);
    var q2 := q1[1..];
    AcceptsHead(Lit(" core_id "), p3, q2);
    var q3 := q2[1..];
    AcceptsHead(Run(Digit, true, true), p4, q3);
    var q4 := q3[1..];
    AcceptsHead(Lit(":"), Done, q4);
    assert Concat(q4[1..]) == "";
    var a, b, c, d := ps[0], q1[0], q2[0], q3[0];
    assert Concat(q4) == ":";
    assert Concat(q3) == d + ":";
    assert Concat(q2) == c + (d + ":");
    assert Concat(q1) == b + (c + (d + ":"));
    HeaderText(line, a, b, c, d);
  }

  lemma HeaderText(line: string, a: string, b: string, c: string, d: string)
    requires line == a + (b + (c + (d + ":")))
    requires a == "pmd thread numa_id " && AllIn(b, Digit) && c == " core_id " && AllIn(d, Digit)
    ensures StatMatch(line).None?
  {
    var pre := a + b + c + d;
    assert line == pre + ":";
    assert ':' !in pre by {
      forall k | 0 <= k < |pre| ensures pre[k] != ':' {
        if k < |a| {
          assert pre[k] == a[k];
        } else if k < |a| + |b| {
          assert pre[k] == b[k - |a|];
        } else if k < |a| + |b| + |c| {
          assert pre[k] == c[k - |a| - |b|];
        } else {
          assert pre[k] == d[k - |a| - |b| - |c|];
        }
      }
    }
    ColonLast(line, pre);
  }

  /** Nothing follows the first colon, so there is no count. */
  lemma ColonLast(line: string, pre: string)
    requires line == pre + ":" && ':' !in pre
    ensures StatMatch(line).None?
  {
    IndexOfAfterPrefix(pre, "", ':');
    assert line == pre + [':'] + "";
    assert line[|pre| + 1..] == "";
  }

  /** A header switches to the thread it names, whatever came before, and emits nothing. */
  lemma StepHeader(active: MetricSet, table: Table, core: Core, line: string)
    requires HeaderOf(line).Some?
    ensures Step(active, table)(core, line) == (HeaderOf(line).value, [])
  {
    HeaderIsNotStat(line);
  }

  /**
   * Inside a thread, a statistic line keeps the thread and emits one sample
   * exactly when its label is an active table key: the table's metric,
   * labelled with the thread, valued at the whole digit run after the colon.
   */
  lemma StatLineSample(active: MetricSet, table: Table, core: Core,
                       line: string, lead: string, key: string, gap: string, digits: string, tail: string)
    requires Open(core) && StatShaped(line, lead, key, gap, digits, tail)
    ensures var r := Step(active, table)(core, line);
            var stat := LabelOf(lead + key);
            var count := digits + tail[..SpanLen(tail, IsDigit)];
            && r.0 == core
            && (|r.1| == 1 <==> Lookup(table, stat).Some? && Has(active, Lookup(table, stat).value.metricSet))
            && (|r.1| == 1 ==> r.1[0] == Sample(Lookup(table, stat).value, [core.numa, core.cpu], DigitsValue(count) as real))
            && |r.1| <= 1
  {
    StatMatchComplete(line, lead, key, gap, digits, tail);
  }

  /** After any lines, the thread is the one the last header named, or the starting one when there was none. */
  lemma ContextIsLastHeader(active: MetricSet, table: Table, core: Core, lines: seq<string>)
    ensures Fold(Step(active, table), core, lines).0 == LastHeader(HeaderOf, lines).GetOr(core)
  {
    var step := Step(active, table);
    forall c, l ensures Tracks(step, HeaderOf, c, l) {
      if HeaderOf(l).Some? {
        StepHeader(active, table, c, l);
      }
    }
    FoldTracks(step, HeaderOf, core, lines);
  }

  /** Before the first header nothing is emitted, whatever the statistic lines say. */
  lemma NothingBeforeHeader(active: MetricSet, table: Table, lines: seq<string>)
    requires LastHeader(HeaderOf, lines).None?
    ensures Fold(Step(active, table), NoCore, lines) == (NoCore, [])
  {
    var step := Step(active, table);
    forall l ensures IdleUntilHeader(step, HeaderOf, NoCore, l) {
    }
    FoldBeforeHeader(step, HeaderOf, NoCore, lines);
  }

  /**
   * The samples a line adds carry the NUMA node and core of the latest
   * header before it; a line with no header before it adds none.
   */
  lemma LineSamplesLabelled(active: MetricSet, table: Table, a: seq<string>, line: string)
    ensures var before := Fold(Step(active, table), NoCore, a).1;
            var after := Fold(Step(active, table), NoCore, a + [line]).1;
            |before| <= |after| && after[..|before|] == before &&
            (|after| > |before| ==>
               var h := LastHeader(HeaderOf, a);
               h.Some? && forall k :: |before| <= k < |after| ==> after[k].labels == [h.value.numa, h.value.cpu])
  {
    var step := Step(active, table);
    forall c, l ensures StepLabels(step, Open, LabelsOf, c, l) {
    }
    FoldSnocAdds(step, NoCore, a, line);
    FoldSnocLabels(step, Open, LabelsOf, NoCore, a, line);
    ContextIsLastHeader(active, table, NoCore, a);
  }

  /** A sample of the collector: an active table metric, labelled by a NUMA node and a core. */
  predicate FromTable(active: MetricSet, table: Table, s: Sample) {
    && s.metric in Values(table)
    && Has(active, s.metric.metricSet)
    && |s.labels| == 2 && s.labels[0] != "" && s.labels[1] != ""
  }

  /** Every sample is an active table metric labelled with a thread, and no line emits two. */
  lemma CollectSound(active: MetricSet, table: Table, reply: string)
    ensures var r := Collect(active, table, reply);
            |r| <= |Lines(reply)| && forall k :: 0 <= k < |r| ==> FromTable(active, table, r[k])
  {
    if reply != "" {
      var step := Step(active, table);
      var ok := s => FromTable(active, table, s);
      forall c, l ensures StepYields(step, ok, c, l) {
        var r := step(c, l).1;
        if |r| == 1 {
          var key := StatMatch(l).value.0;
          LookupInValues(table, key);
        }
      }
      forall c, l ensures StepAtMost(step, 1, c, l) {
      }
      FoldYields(step, ok, NoCore, Lines(reply));
      FoldAtMost(step, 1, NoCore, Lines(reply));
    }
  }
}
