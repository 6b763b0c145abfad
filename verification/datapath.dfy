/**
 * The datapath collector: `dpctl/show` lists the datapaths, each a header
 * line `<type>@<name>:` followed by indented detail lines. The `lookups`
 * and `flows` details become samples labelled with the type and name of
 * the latest header.
 */
module Datapath {
  import opened Wrappers
  import opened Text
  import opened Config
  import opened Registry
  import opened Patterns
  import opened LineFold

  // ---------------------------------------------------------------------
  // Metrics

  const CommonLabels: seq<string> := ["type", "name"]

  const FlowsMetric: Metric :=
    Metric("ovs_datapath_flows_total", "The number of datapath flows.", CommonLabels, Gauge, PERF)
  const HitsMetric: Metric :=
    Metric("ovs_datapath_lookup_hits_total", "The total number of lookups in the datapath flow cache.", CommonLabels, Gauge, PERF)
  const MissedMetric: Metric :=
    Metric("ovs_datapath_lookup_missed_total", "Number of missed lookups in the datapath flow cache.", CommonLabels, Gauge, PERF)
  const LostMetric: Metric :=
    Metric("ovs_datapath_lookup_lost_total", "Number of lost lookups in the datapath flow cache.", CommonLabels, Gauge, PERF)

  /** The collector's metric list, in its declared order. */
  const Metrics: seq<Metric> := [FlowsMetric, HitsMetric, MissedMetric, LostMetric]

  const Info: CollectorInfo := CollectorInfo("datapath", Metrics)

  /** Four gauges of the PERF set with distinct names, all labelled by datapath type and name. */
  lemma MetricsShape()
    ensures |Info.metrics| == 4
    ensures forall m :: m in Info.metrics ==> m.valueType == Gauge && m.metricSet == PERF && m.labels == ["type", "name"]
    ensures forall i, j :: 0 <= i < j < |Info.metrics| ==> Info.metrics[i].name != Info.metrics[j].name
  {
  }

  // ---------------------------------------------------------------------
  // Line grammars

  /** `^([\w-]+)@([\w-]+):$` */
  const HeaderPattern: Pattern :=
    Then(Run(WordOrDash, true, true), Then(Lit("@"), Then(Run(WordOrDash, true, true), Then(Lit(":"), Done))))

  /** `^  lookups:\s*hit:\s*(\d+)\s+missed:\s*(\d+)\s+lost:(\d+)$` */
  const LookupsPattern: Pattern :=
    Then(Lit("  lookups:"), Then(Run(Space, false, false), Then(Lit("hit:"), Then(Run(Space, false, false),
    Then(Run(Digit, true, true), Then(Run(Space, true, false), Then(Lit("missed:"), Then(Run(Space, false, false),
    Then(Run(Digit, true, true), Then(Run(Space, true, false), Then(Lit("lost:"), Then(Run(Digit, true, true),
    Done))))))))))))

  /** `^  flows:\s*(\d+)$` */
  const FlowsPattern: Pattern :=
    Then(Lit("  flows:"), Then(Run(Space, false, false), Then(Run(Digit, true, true), Done)))

  /** The three grammars can be matched greedily, so `Match` gives the regular expressions' captures. */
  lemma PatternsDeterministic()
    ensures Deterministic(HeaderPattern) && Deterministic(LookupsPattern) && Deterministic(FlowsPattern)
  {
  }

  // ---------------------------------------------------------------------
  // The scan

  /** The datapath the detail lines belong to: empty strings before the first header. */
  datatype Context = Context(dptype: string, dpname: string)

  const Start: Context := Context("", "")

  /** Detail lines are read only once both parts of the context are set. */
  predicate Open(ctx: Context) {
    ctx.dptype != "" && ctx.dpname != ""
  }

  function LabelsOf(ctx: Context): seq<string> {
    [ctx.dptype, ctx.dpname]
  }

  /** The datapath a header line names, with both parts non-empty; None for any other line. */
  function HeaderOf(line: string): (r: Option<Context>)
    ensures r.Some? <==> Match(HeaderPattern, line).Some?
    ensures r.Some? ==> Open(r.value)
  {
    match Match(HeaderPattern, line)
    case Some(caps) =>
      assert ItemAccepts(Groups(HeaderPattern)[0], caps[0]);
      assert ItemAccepts(Groups(HeaderPattern)[1], caps[1]);
      Some(Context(caps[0], caps[1]))
    case None => None
  }

  /** One line: a detail line inside a datapath yields its samples, otherwise a header replaces the context. */
  function Step(ctx: Context, line: string): (r: (Context, seq<Sample>))
    ensures |r.1| <= 3
    ensures |r.1| > 0 ==> Open(ctx) && r.0 == ctx
    ensures forall k :: 0 <= k < |r.1| ==> r.1[k].metric in Metrics && r.1[k].labels == LabelsOf(ctx)
  {
    var lookups := Match(LookupsPattern, line);
    var flows := Match(FlowsPattern, line);
    if Open(ctx) && lookups.Some? then
      var v := lookups.value;
      DigitGroup(LookupsPattern, v, 0);
      DigitGroup(LookupsPattern, v, 1);
      DigitGroup(LookupsPattern, v, 2);
      (ctx, [Sample(HitsMetric, LabelsOf(ctx), DigitsValue(v[0]) as real),
             Sample(MissedMetric, LabelsOf(ctx), DigitsValue(v[1]) as real),
             Sample(LostMetric, LabelsOf(ctx), DigitsValue(v[2]) as real)])
    else if Open(ctx) && flows.Some? then
      var v := flows.value;
      DigitGroup(FlowsPattern, v, 0);
      (ctx, [Sample(FlowsMetric, LabelsOf(ctx), DigitsValue(v[0]) as real)])
    else
      (HeaderOf(line).GetOr(ctx), [])
  }

  /** Collect: nothing unless PERF is active, nothing for an empty reply, otherwise the scan's samples. */
  function Collect(active: MetricSet, reply: string): (r: seq<Sample>)
    ensures !Has(active, PERF) ==> r == []
    ensures reply == "" ==> r == []
  {
    if !Has(active, PERF) || reply == "" then [] else Fold(Step, Start, Lines(reply)).1
  }

  // ---------------------------------------------------------------------
  // Properties

  /** No line is both a header and a detail line: a header starts with `[\w-]`, a detail line with a space. */
  lemma HeaderIsNotDetail(line: string)
    requires Match(HeaderPattern, line).Some?
    ensures Match(LookupsPattern, line).None? && Match(FlowsPattern, line).None?
  {
    MatchFirst(HeaderPattern.head, HeaderPattern.tail, line);
    assert InClass(line[0], WordOrDash);
    MatchFirst(LookupsPattern.head, LookupsPattern.tail, line);
    MatchFirst(FlowsPattern.head, FlowsPattern.tail, line);
  }

  /** A header opens a datapath with its two captures, whatever came before, and emits nothing. */
  lemma StepHeader(ctx: Context, line: string)
    requires Match(HeaderPattern, line).Some?
    ensures var caps := Match(HeaderPattern, line).value;
            |caps| == 2 && Step(ctx, line) == (Context(caps[0], caps[1]), []) && Open(Context(caps[0], caps[1]))
  {
    HeaderIsNotDetail(line);
  }

  /** Any other line leaves the context as it is. */
  lemma StepOther(ctx: Context, line: string)
    requires Match(HeaderPattern, line).None?
    ensures Step(ctx, line).0 == ctx
  {
  }

  /** After any lines, the context is the one the last header named, or the starting one when there was none. */
  lemma ContextIsLastHeader(ctx: Context, lines: seq<string>)
    ensures Fold(Step, ctx, lines).0 == LastHeader(HeaderOf, lines).GetOr(ctx)
  {
    forall c, l ensures Tracks(Step, HeaderOf, c, l) {
      if Match(HeaderPattern, l).Some? {
        StepHeader(c, l);
      }
    }
    FoldTracks(Step, HeaderOf, ctx, lines);
  }

  /** Before the first header nothing is emitted, whatever the detail lines say. */
  lemma NothingBeforeHeader(lines: seq<string>)
    requires LastHeader(HeaderOf, lines).None?
    ensures Fold(Step, Start, lines) == (Start, [])
  {
    forall l ensures IdleUntilHeader(Step, HeaderOf, Start, l) {
    }
    FoldBeforeHeader(Step, HeaderOf, Start, lines);
  }

  /**
   * The samples a line adds carry the type and name of the latest header
   * before it; a line with no header before it adds none.
   */
  lemma LineSamplesLabelled(a: seq<string>, line: string)
    ensures var before := Fold(Step, Start, a).1;
            var after := Fold(Step, Start, a + [line]).1;
            |before| <= |after| && after[..|before|] == before &&
            (|after| > |before| ==>
               LastHeader(HeaderOf, a).Some? &&
               forall k :: |before| <= k < |after| ==> after[k].labels == LabelsOf(LastHeader(HeaderOf, a).value))
  {
    forall c, l ensures StepLabels(Step, Open, LabelsOf, c, l) {
      StepLabelled(c, l);
    }
    FoldSnocAdds(Step, Start, a, line);
    FoldSnocLabels(Step, Open, LabelsOf, Start, a, line);
    ContextIsLastHeader(Start, a);
  }

  /** A line that emits samples was read inside a datapath, and its samples carry that datapath's labels. */
  lemma StepLabelled(ctx: Context, line: string)
    ensures var r := Step(ctx, line).1;
            |r| > 0 ==> Open(ctx) && forall k :: 0 <= k < |r| ==> r[k].labels == LabelsOf(ctx)
  {
  }

  /**
   * Inside a datapath, a `lookups` line emits hits, missed and lost, valued
   * at its three numbers in order, and a `flows` line emits the flow count;
   * neither changes the context.
   */
  lemma DetailSamples(ctx: Context, line: string)
    requires Open(ctx)
    ensures var r := Step(ctx, line);
            match Match(LookupsPattern, line)
            case Some(v) =>
              r.0 == ctx && |r.1| == 3 && |v| == 3 &&
              r.1[0].metric == HitsMetric && r.1[1].metric == MissedMetric && r.1[2].metric == LostMetric &&
              (forall k :: 0 <= k < 3 ==> AllDigits(v[k]) && r.1[k].value == DigitsValue(v[k]) as real && r.1[k].labels == LabelsOf(ctx))
            case None =>
              match Match(FlowsPattern, line)
              case Some(v) =>
                r.0 == ctx && |v| == 1 && AllDigits(v[0]) &&
                r.1 == [Sample(FlowsMetric, LabelsOf(ctx), DigitsValue(v[0]) as real)]
              case None => r.1 == []
  {
    if Match(LookupsPattern, line).Some? {
      LookupsLine(ctx, line);
    } else if Match(FlowsPattern, line).Some? {
      FlowsLine(ctx, line);
    }
  }

  lemma LookupsLine(ctx: Context, line: string)
    requires Open(ctx) && Match(LookupsPattern, line).Some?
    ensures var r := Step(ctx, line);
            var v := Match(LookupsPattern, line).value;
            r.0 == ctx && |r.1| == 3 && |v| == 3 &&
            r.1[0].metric == HitsMetric && r.1[1].metric == MissedMetric && r.1[2].metric == LostMetric &&
            (forall k :: 0 <= k < 3 ==> AllDigits(v[k]) && r.1[k].value == DigitsValue(v[k]) as real && r.1[k].labels == LabelsOf(ctx))
  {
    var v := Match(LookupsPattern, line).value;
    DigitGroup(LookupsPattern, v, 0);
    DigitGroup(LookupsPattern, v, 1);
    DigitGroup(LookupsPattern, v, 2);
  }

  lemma FlowsLine(ctx: Context, line: string)
    requires Open(ctx) && Match(LookupsPattern, line).None? && Match(FlowsPattern, line).Some?
    ensures var r := Step(ctx, line);
            var v := Match(FlowsPattern, line).value;
            r.0 == ctx && |v| == 1 && AllDigits(v[0]) &&
            r.1 == [Sample(FlowsMetric, LabelsOf(ctx), DigitsValue(v[0]) as real)]
  {
    DigitGroup(FlowsPattern, Match(FlowsPattern, line).value, 0);
  }

  /** A sample of the collector: an active metric of the list, one label value per label name, both non-empty. */
  predicate Valid(active: MetricSet, s: Sample) {
    && s.metric in Info.metrics
    && Has(active, s.metric.metricSet)
    && WellLabelled(s)
    && |s.labels| == 2 && s.labels[0] != "" && s.labels[1] != ""
  }

  /** With PERF active, every sample of one line is valid. */
  lemma StepValid(active: MetricSet, ctx: Context, line: string)
    requires Has(active, PERF)
    ensures var r := Step(ctx, line).1;
            forall k :: 0 <= k < |r| ==> Valid(active, r[k])
  {
    var r := Step(ctx, line).1;
    forall k | 0 <= k < |r| ensures Valid(active, r[k]) {
      SampleValid(active, ctx, r[k]);
    }
  }

  /** A sample of one of the four metrics, labelled by an open context, is valid when PERF is active. */
  lemma SampleValid(active: MetricSet, ctx: Context, s: Sample)
    requires Has(active, PERF) && Open(ctx) && s.labels == LabelsOf(ctx) && s.metric in Metrics
    ensures Valid(active, s)
  {
  }

  /** Every sample is valid, and no line emits more than three. */
  lemma CollectSound(active: MetricSet, reply: string)
    ensures var r := Collect(active, reply);
            |r| <= 3 * |Lines(reply)| && forall k :: 0 <= k < |r| ==> Valid(active, r[k])
  {
    if Has(active, PERF) && reply != "" {
      var ok := s => Valid(active, s);
      forall c, l ensures StepYields(Step, ok, c, l) {
        StepValid(active, c, l);
      }
      forall c, l ensures StepAtMost(Step, 3, c, l) {
      }
      FoldYields(Step, ok, Start, Lines(reply));
      FoldAtMost(Step, 3, Start, Lines(reply));
    }
  }
}
