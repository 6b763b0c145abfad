/**
 * The coverage collector: the lines of `coverage/show` of the form
 * `<event>  <rates>  total: <n>` become one sample each, valued at the
 * total, when the event is in the metric table and its set is active.
 * The table (collectors/coverage/metrics.go) is not part of this model and
 * is a parameter.
 */
module Coverage {
  import opened Wrappers
  import opened Text
  import opened Config
  import opened Registry
  import opened LineFold

  const TotalTag: string := "total: "

  /**
   * The pieces of a line in the language of `^(\w+)\s+.*\s+total: (\d+)$`:
   * a word, at least one space, anything but a newline, at least one space,
   * `total: ` and the digits.
   */
  predicate Shaped(line: string, key: string, gap1: string, rates: string, gap2: string, total: string) {
    && line == key + gap1 + rates + gap2 + TotalTag + total
    && |key| > 0 && (forall i :: 0 <= i < |key| ==> IsWordChar(key[i]))
    && |gap1| > 0 && AllSpace(gap1)
    && '\n' !in rates
    && |gap2| > 0 && AllSpace(gap2)
    && |total| > 0 && AllDigits(total)
  }

  /** The key and total the expression captures on a line, or None when it does not match. */
  function MatchLine(line: string): (r: Option<(string, string)>)
  {
    var n := SpanLen(line, IsWordChar);
    var d := BackSpanLen(line, IsDigit);
    if n == 0 || d == 0 || |line| < n + d + 9 then None
    else
      var t := |line| - d - 7;
      if line[t..|line| - d] == TotalTag && IsSpace(line[n]) && IsSpace(line[t - 1]) then
        Some((line[..n], line[|line| - d..]))
      else None
  }

  /** What the matcher captures, the line really is made of. */
  lemma MatchLineSound(line: string)
    requires '\n' !in line && MatchLine(line).Some?
    ensures var (key, total) := MatchLine(line).value;
            exists gap1, rates, gap2 :: Shaped(line, key, gap1, rates, gap2, total)
  {
    var n := SpanLen(line, IsWordChar);
    var d := BackSpanLen(line, IsDigit);
    var t := |line| - d - 7;
    ShapedAtCuts(line, n, t, d);
  }

  /** Cutting a line after its word, its first space, its rates and its last space gives the pieces of Shaped. */
  lemma ShapedAtCuts(line: string, n: nat, t: nat, d: nat)
    requires 1 <= n && n + 2 <= t && t + 7 + d == |line| && 1 <= d
    requires forall k :: 0 <= k < n ==> IsWordChar(line[k])
    requires forall k :: |line| - d <= k < |line| ==> IsDigit(line[k])
    requires IsSpace(line[n]) && IsSpace(line[t - 1]) && line[t..|line| - d] == TotalTag
    requires '\n' !in line
    ensures Shaped(line, line[..n], line[n..n + 1], line[n + 1..t - 1], line[t - 1..t], line[|line| - d..])
  {
    var key, gap1, rates, gap2, total := line[..n], line[n..n + 1], line[n + 1..t - 1], line[t - 1..t], line[|line| - d..];
    assert line[..n + 1] == key + gap1;
    assert line[..t - 1] == key + gap1 + rates;
    assert line[..t] == key + gap1 + rates + gap2;
    assert line[..|line| - d] == key + gap1 + rates + gap2 + TotalTag;
    assert line == line[..|line| - d] + total;
    assert forall i :: 0 <= i < |rates| ==> rates[i] == line[n + 1 + i];
  }

  /** A line of that shape is matched, and the captures are its word and its total. */
  lemma MatchLineComplete(line: string, key: string, gap1: string, rates: string, gap2: string, total: string)
    requires Shaped(line, key, gap1, rates, gap2, total)
    ensures MatchLine(line) == Some((key, total))
  {
    var rest := gap1 + rates + gap2 + TotalTag + total;
    assert line == key + rest;
    SpanLenOfConcat(key, rest, IsWordChar);
    var front := key + gap1 + rates + gap2 + TotalTag;
    assert line == front + total;
    assert front[|front| - 1] == ' ';
    BackSpanLenOfConcat(front, total, IsDigit);
    var t := |line| - |total| - 7;
    assert line[t..|line| - |total|] == TotalTag;
    assert line[|key|] == gap1[0];
    assert line[t - 1] == gap2[|gap2| - 1];
  }

  /**
   * makeMetric: the sample of an event's total, present iff the event is in
   * the table and its set is active. The total is a string of digits, which
   * strconv.ParseFloat reads as its value.
   */
  function MakeMetric(active: MetricSet, table: Table, event: string, total: nat): (r: seq<Sample>)
    ensures |r| <= 1
    ensures |r| == 1 <==> Lookup(table, event).Some? && Has(active, Lookup(table, event).value.metricSet)
    ensures |r| == 1 ==> r[0].labels == [] && (event, r[0].metric) in table && r[0].value == total as real
  {
    match Lookup(table, event)
    case None => []
    case Some(m) => if Has(active, m.metricSet) then [Sample(m, [], total as real)] else []
  }

  /** The sample of one line: present iff the line matches, its key is in the table and the key's set is active. */
  function CollectLine(active: MetricSet, table: Table, line: string): (r: seq<Sample>)
    ensures |r| <= 1
    ensures |r| == 1 <==>
      MatchLine(line).Some? && Lookup(table, MatchLine(line).value.0).Some? &&
      Has(active, Lookup(table, MatchLine(line).value.0).value.metricSet)
    ensures |r| == 1 ==> r[0].labels == [] && (MatchLine(line).value.0, r[0].metric) in table &&
                         r[0].value == DigitsValue(MatchLine(line).value.1) as real
  {
    match MatchLine(line)
    case None => []
    case Some((key, total)) => MakeMetric(active, table, key, DigitsValue(total))
  }

  function Step(active: MetricSet, table: Table): ((), string) -> ((), seq<Sample>) {
    (u: (), line: string) => ((), CollectLine(active, table, line))
  }

  /** Collect: an empty reply yields nothing; otherwise every line is handled on its own. */
  function Collect(active: MetricSet, table: Table, reply: string): (r: seq<Sample>)
    ensures reply == "" ==> r == []
  {
    if reply == "" then [] else Fold(Step(active, table), (), Lines(reply)).1
  }

  predicate FromTable(active: MetricSet, table: Table, s: Sample) {
    Has(active, s.metric.metricSet) && s.metric in Values(table) && s.labels == []
  }

  /** Every sample is of an active table metric, without labels, and no line yields two. */
  lemma CollectSound(active: MetricSet, table: Table, reply: string)
    ensures var r := Collect(active, table, reply);
            |r| <= |Lines(reply)| &&
            forall k :: 0 <= k < |r| ==> FromTable(active, table, r[k])
  {
    var step := Step(active, table);
    var ok := s => FromTable(active, table, s);
    forall c, l ensures StepYields(step, ok, c, l) {
      var r := CollectLine(active, table, l);
      if |r| == 1 {
        LookupInValues(table, MatchLine(l).value.0);
      }
    }
    forall c, l ensures StepAtMost(step, 1, c, l) {
      assert |step(c, l).1| == |CollectLine(active, table, l)|;
    }
    if reply != "" {
      FoldYields(step, ok, (), Lines(reply));
      FoldAtMost(step, 1, (), Lines(reply));
    }
  }

  /** Lines are independent: the samples of a reply are those of its first lines followed by those of the rest. */
  lemma CollectLinesIndependent(active: MetricSet, table: Table, a: seq<string>, b: seq<string>)
    ensures Fold(Step(active, table), (), a + b).1 == Fold(Step(active, table), (), a).1 + Fold(Step(active, table), (), b).1
  {
    FoldAppend(Step(active, table), (), a, b);
  }
}
