/**
 * What the collectors share: the metric descriptor, the samples they emit,
 * describe-time filtering on the active metric sets, collector enablement,
 * and the rows of the metric listing.
 */
module Registry {
  import opened Wrappers
  import opened Text
  import opened Config

  datatype ValueType = Counter | Gauge

  /** A metric descriptor: its name, help text, label names, type and metric set. */
  datatype Metric = Metric(name: string, description: string, labels: seq<string>, valueType: ValueType, metricSet: MetricSet)

  /** The Prometheus descriptor built from a metric. */
  datatype Desc = Desc(fqName: string, help: string, variableLabels: seq<string>)

  /** One emitted sample: the metric, its label values and its value. */
  datatype Sample = Sample(metric: Metric, labels: seq<string>, value: real)

  /** A sample carries one label value per label name of its metric. */
  predicate WellLabelled(s: Sample) {
    |s.labels| == |s.metric.labels|
  }

  predicate AllWellLabelled(ss: seq<Sample>) {
    forall k :: 0 <= k < |ss| ==> WellLabelled(ss[k])
  }

  /** Every sample is of a metric whose set is active. */
  predicate AllEnabled(active: MetricSet, ss: seq<Sample>) {
    forall k :: 0 <= k < |ss| ==> Has(active, ss[k].metric.metricSet)
  }

  /** A collector as the registry sees it: its name and its metric list. */
  datatype CollectorInfo = CollectorInfo(name: string, metrics: seq<Metric>)

  /** A sample a collector may send: of one of its listed metrics, of an active set, fully labelled. */
  predicate Exportable(active: MetricSet, ms: seq<Metric>, s: Sample) {
    s.metric in ms && Has(active, s.metric.metricSet) && WellLabelled(s)
  }

  /** Samples exportable under their own metric lists stay exportable, concatenated, under the lists concatenated. */
  lemma ExportableAppend(active: MetricSet, a: seq<Metric>, b: seq<Metric>, ra: seq<Sample>, rb: seq<Sample>)
    requires forall s :: s in ra ==> Exportable(active, a, s)
    requires forall s :: s in rb ==> Exportable(active, b, s)
    ensures forall s :: s in ra + rb ==> Exportable(active, a + b, s)
  {
    forall s | s in ra + rb ensures Exportable(active, a + b, s) {
      if s in ra {
        assert s.metric in a;
      } else {
        assert s.metric in b;
      }
    }
  }

  // ---------------------------------------------------------------------
  // Metric tables

  /**
   * A Go `map[string]Metric` written as key/metric pairs. Lookups do not
   * depend on the order; where the exporter iterates such a map, the model
   * states only order-free properties of what comes out.
   */
  type Table = seq<(string, Metric)>

  predicate KeysDistinct(t: Table) {
    forall i, j :: 0 <= i < j < |t| ==> t[i].0 != t[j].0
  }

  /** The metric stored under `key`, if any. */
  function Lookup(t: Table, key: string): (r: Option<Metric>)
    ensures r.Some? ==> (key, r.value) in t
    ensures r.None? <==> forall i :: 0 <= i < |t| ==> t[i].0 != key
  {
    if |t| == 0 then None
    else if t[0].0 == key then Some(t[0].1)
    else Lookup(t[1..], key)
  }

  /** With distinct keys, the pair stored under a key is the one Lookup finds. */
  lemma {:induction false} LookupDistinct(t: Table, i: nat)
    requires KeysDistinct(t) && i < |t|
    ensures Lookup(t, t[i].0) == Some(t[i].1)
  {
    if i > 0 {
      assert KeysDistinct(t[1..]) by {
        forall a, b | 0 <= a < b < |t| - 1 ensures t[1..][a].0 != t[1..][b].0 {
          assert t[1..][a] == t[a + 1] && t[1..][b] == t[b + 1];
        }
      }
      assert t[0].0 != t[i].0;
      LookupDistinct(t[1..], i - 1);
    }
  }

  /** What Lookup finds is one of the table's metrics. */
  lemma {:induction false} LookupInValues(t: Table, key: string)
    requires Lookup(t, key).Some?
    ensures Lookup(t, key).value in Values(t)
  {
    if t[0].0 == key {
      assert Values(t)[0] == t[0].1;
    } else {
      LookupInValues(t[1..], key);
      var i :| 0 <= i < |t| - 1 && Values(t[1..])[i] == Lookup(t, key).value;
      assert Values(t)[i + 1] == t[1..][i].1;
    }
  }

  /** The metrics of a table. */
  function Values(t: Table): (ms: seq<Metric>)
    ensures |ms| == |t|
    ensures forall k :: 0 <= k < |t| ==> ms[k] == t[k].1
  {
    seq(|t|, k requires 0 <= k < |t| => t[k].1)
  }

  // ---------------------------------------------------------------------
  // Distinct keys and names

  function Keys(t: Table): (ks: seq<string>)
    ensures |ks| == |t| && forall k :: 0 <= k < |t| ==> ks[k] == t[k].0
  {
    seq(|t|, k requires 0 <= k < |t| => t[k].0)
  }

  function Names(ms: seq<Metric>): (ns: seq<string>)
    ensures |ns| == |ms| && forall k :: 0 <= k < |ms| ==> ns[k] == ms[k].name
  {
    seq(|ms|, k requires 0 <= k < |ms| => ms[k].name)
  }

  predicate NamesDistinct(ms: seq<Metric>) {
    forall i, j :: 0 <= i < j < |ms| ==> ms[i].name != ms[j].name
  }

  /** No metric of `a` shares a name with one of `b`. */
  predicate NamesApart(a: seq<Metric>, b: seq<Metric>) {
    forall i, j :: 0 <= i < |a| && 0 <= j < |b| ==> a[i].name != b[j].name
  }

  lemma NamesDistinctAppend(a: seq<Metric>, b: seq<Metric>)
    requires NamesDistinct(a) && NamesDistinct(b) && NamesApart(a, b)
    ensures NamesDistinct(a + b)
  {
    forall i, j | 0 <= i < j < |a + b| ensures (a + b)[i].name != (a + b)[j].name {
      if j < |a| {
        assert (a + b)[i] == a[i] && (a + b)[j] == a[j];
      } else if i >= |a| {
        assert (a + b)[i] == b[i - |a|] && (a + b)[j] == b[j - |a|];
      } else {
        assert (a + b)[i] == a[i] && (a + b)[j] == b[j - |a|];
      }
    }
  }

  // ---------------------------------------------------------------------
  // Desc memoisation

  function NewDesc(m: Metric): Desc {
    Desc(m.name, m.description, m.labels)
  }

  /** A metric with its descriptor cache. */
  datatype Entry = Entry(metric: Metric, cache: Option<Desc>)

  predicate CacheValid(e: Entry) {
    e.cache.None? || e.cache.value == NewDesc(e.metric)
  }

  /** Metric.Desc: build the descriptor on first use, return the cached one afterwards. */
  function GetDesc(e: Entry): (r: (Entry, Desc))
    requires CacheValid(e)
    ensures r.1 == NewDesc(e.metric)
    ensures r.0 == Entry(e.metric, Some(r.1))
    ensures e.cache.Some? ==> r.0 == e
  {
    match e.cache
    case Some(d) => (e, d)
    case None =>
      var d := NewDesc(e.metric);
      (Entry(e.metric, Some(d)), d)
  }

  /** A second call returns the same descriptor and leaves the entry as the first call did. */
  lemma GetDescOnce(e: Entry)
    requires CacheValid(e)
    ensures CacheValid(GetDesc(e).0)
    ensures GetDesc(GetDesc(e).0) == GetDesc(e)
  {
  }

  // ---------------------------------------------------------------------
  // DescribeEnabledMetrics

  /** The metrics whose set is active, in list order. */
  function Enabled(active: MetricSet, ms: seq<Metric>): (r: seq<Metric>)
    ensures |r| <= |ms|
    ensures forall m :: m in r <==> m in ms && Has(active, m.metricSet)
  {
    if |ms| == 0 then []
    else (if Has(active, ms[0].metricSet) then [ms[0]] else []) + Enabled(active, ms[1..])
  }

  /** Filtering distributes over concatenation, so list order is kept. */
  lemma {:induction false} EnabledAppend(active: MetricSet, a: seq<Metric>, b: seq<Metric>)
    ensures Enabled(active, a + b) == Enabled(active, a) + Enabled(active, b)
  {
    if |a| > 0 {
      assert (a + b)[1..] == a[1..] + b;
      EnabledAppend(active, a[1..], b);
    } else {
      assert a + b == b;
    }
  }

  /** The descriptors DescribeEnabledMetrics sends, in order. */
  function DescribeEnabledMetrics(active: MetricSet, c: CollectorInfo): (r: seq<Desc>)
    ensures |r| == |Enabled(active, c.metrics)|
    ensures forall k :: 0 <= k < |r| ==> r[k] == NewDesc(Enabled(active, c.metrics)[k])
  {
    var ms := Enabled(active, c.metrics);
    seq(|ms|, k requires 0 <= k < |ms| => NewDesc(ms[k]))
  }

  /** With every set active, every metric is described. */
  lemma {:induction false} EnabledAll(active: MetricSet, ms: seq<Metric>)
    requires forall k :: 0 <= k < |ms| ==> Has(active, ms[k].metricSet)
    ensures Enabled(active, ms) == ms
  {
    if |ms| > 0 {
      EnabledAll(active, ms[1..]);
    }
  }

  // ---------------------------------------------------------------------
  // CollectorEnabled

  /** No configured list enables every collector; otherwise the collector must be named. */
  function CollectorEnabled(configured: seq<string>, name: string): (r: bool)
    ensures |configured| == 0 ==> r
    ensures |configured| > 0 ==> (r <==> exists k :: 0 <= k < |configured| && configured[k] == name)
  {
    |configured| == 0 || name in configured
  }

  // ---------------------------------------------------------------------
  // PrintMetrics

  const Columns: seq<string> := ["METRIC", "COLLECTOR", "SET", "TYPE", "LABELS", "HELP"]

  datatype Format = TextFormat | JsonFormat | CsvFormat | TsvFormat | MarkdownFormat

  /** The name each listing format is selected by. */
  function FormatName(f: Format): string {
    match f
    case TextFormat => "text"
    case JsonFormat => "json"
    case CsvFormat => "csv"
    case TsvFormat => "tsv"
    case MarkdownFormat => "markdown"
  }

  /** The format `PrintMetrics` selects by name: exactly text, json, csv, tsv and markdown, each its own. */
  function ParseFormat(format: string): (r: Option<Format>)
    ensures r.Some? <==> format in {"text", "json", "csv", "tsv", "markdown"}
    ensures r.Some? ==> FormatName(r.value) == format
    ensures format == "json" <==> r == Some(JsonFormat)
  {
    if format == "text" then Some(TextFormat)
    else if format == "json" then Some(JsonFormat)
    else if format == "csv" then Some(CsvFormat)
    else if format == "tsv" then Some(TsvFormat)
    else if format == "markdown" then Some(MarkdownFormat)
    else None
  }

  /** Every format is selected by its own name. */
  lemma ParseFormatName(f: Format)
    ensures ParseFormat(FormatName(f)) == Some(f)
  {
  }

  function TypeName(t: ValueType): string {
    match t
    case Counter => "counter"
    case Gauge => "gauge"
  }

  /** Go's %q on a string, that is strconv.Quote: the escaped text between double quotes. */
  function Quote(s: string): (r: string)
    ensures |r| >= |s| + 2 && r[0] == '"' && r[|r| - 1] == '"'
  {
    "\"" + QuoteBody(s) + "\""
  }

  /**
   * strconv.IsPrint on the characters up to U+00FF: the printable ASCII
   * range, and U+00A1 to U+00FF except the soft hyphen. Every character
   * above U+00FF counts as printable.
   */
  predicate IsPrint(c: char) {
    if c <= '\U{FF}' then (' ' <= c <= '~') || ('\U{A1}' <= c && c != '\U{AD}')
    else true
  }

  /** A character strconv.Quote copies as it is. */
  predicate Plain(c: char) {
    IsPrint(c) && c != '"' && c != '\\'
  }

  function HexDigit(d: int): (c: char)
    requires 0 <= d < 16
    ensures IsPrint(c)
  {
    "0123456789abcdef"[d]
  }

  /**
   * The text strconv.Quote writes for one character: a backslash before a
   * quote or backslash, the character itself when printable, the short
   * escapes \a \b \f \n \r \t \v, `\x` and two hex digits for the other
   * control characters and DEL, and `\u` and four hex digits otherwise.
   */
  function EscapeChar(c: char): (r: string)
    ensures Plain(c) ==> r == [c]
    ensures !Plain(c) ==> |r| >= 2 && r[0] == '\\'
    ensures forall k :: 0 <= k < |r| ==> IsPrint(r[k])
  {
    var n := c as int;
    if c == '"' || c == '\\' then ['\\', c]
    else if IsPrint(c) then [c]
    else if c == '\U{07}' then "\\a"
    else if c == '\U{08}' then "\\b"
    else if c == '\U{0C}' then "\\f"
    else if c == '\n' then "\\n"
    else if c == '\r' then "\\r"
    else if c == '\t' then "\\t"
    else if c == '\U{0B}' then "\\v"
    else if c < ' ' || c == '\U{7F}' then ['\\', 'x', HexDigit(n / 16), HexDigit(n % 16)]
    else ['\\', 'u', HexDigit(n / 4096 % 16), HexDigit(n / 256 % 16), HexDigit(n / 16 % 16), HexDigit(n % 16)]
  }

  /** The escaped text of strconv.Quote, without the surrounding quotes. */
  function QuoteBody(s: string): (r: string)
    ensures |r| >= |s|
    ensures forall k :: 0 <= k < |r| ==> IsPrint(r[k])
    ensures |r| == |s| ==> forall k :: 0 <= k < |s| ==> Plain(s[k])
  {
    if |s| == 0 then "" else EscapeChar(s[0]) + QuoteBody(s[1..])
  }

  /** A help text comes out of the quoting unchanged exactly when every character is plain. */
  lemma {:induction false} QuoteBodyIdentity(s: string)
    ensures (forall k :: 0 <= k < |s| ==> Plain(s[k])) <==> QuoteBody(s) == s
  {
    if |s| > 0 && forall k :: 0 <= k < |s| ==> Plain(s[k]) {
      QuoteBodyIdentity(s[1..]);
      assert [s[0]] + s[1..] == s;
    }
  }

  /** Quoting works character by character: the body of a concatenation is the concatenation of the bodies. */
  lemma {:induction false} QuoteBodyAppend(a: string, b: string)
    ensures QuoteBody(a + b) == QuoteBody(a) + QuoteBody(b)
  {
    if |a| > 0 {
      assert (a + b)[1..] == a[1..] + b;
      QuoteBodyAppend(a[1..], b);
    } else {
      assert a + b == b;
    }
  }

  /** The listing row of one metric of one collector. */
  function RowValues(collector: string, m: Metric): (v: seq<string>)
    ensures |v| == |Columns|
  {
    [m.name, collector, String(m.metricSet), TypeName(m.valueType), Join(m.labels, ","), m.description]
  }

  /** One line of a tabular format. */
  function FormatLine(f: Format, v: seq<string>): string
    requires |v| == |Columns| && f != JsonFormat
  {
    match f
    case TextFormat =>
      v[0] + " collector=" + v[1] + " set=" + v[2] + " type=" + v[3] + " labels=" + v[4] + " help=" + Quote(v[5]) + "\n"
    case CsvFormat => Join(v, ";") + ";\n"
    case TsvFormat => Join(v, "\t") + "\n"
    case MarkdownFormat => "| " + Join(v, " | ") + " |\n"
  }

  function Dashes(n: nat): (r: string)
    ensures |r| == n && forall k :: 0 <= k < n ==> r[k] == '-'
  {
    seq(n, _ => '-')
  }

  /** The header lines of each format. */
  function Header(f: Format): (h: seq<string>)
    requires f != JsonFormat
  {
    match f
    case TextFormat => []
    case CsvFormat => [FormatLine(f, Columns)]
    case TsvFormat => [FormatLine(f, Columns)]
    case MarkdownFormat => [FormatLine(f, Columns), FormatLine(f, DashRow(Columns))]
  }

  /** The markdown separator row: a dash run as wide as each column name. */
  function DashRow(cols: seq<string>): (d: seq<string>)
    ensures |d| == |cols| && forall k :: 0 <= k < |cols| ==> d[k] == Dashes(|cols[k]|)
  {
    seq(|cols|, k requires 0 <= k < |cols| => Dashes(|cols[k]|))
  }

  /** Every (collector name, metric) pair: collectors in order, each collector's metrics in order. */
  function Pairs(cs: seq<CollectorInfo>): (ps: seq<(string, Metric)>)
  {
    if |cs| == 0 then []
    else seq(|cs[0].metrics|, k requires 0 <= k < |cs[0].metrics| => (cs[0].name, cs[0].metrics[k])) + Pairs(cs[1..])
  }

  function Sum(cs: seq<CollectorInfo>): nat {
    if |cs| == 0 then 0 else |cs[0].metrics| + Sum(cs[1..])
  }

  /** One pair per metric, and a pair's metric belongs to the collector it names. */
  lemma {:induction false} PairsContents(cs: seq<CollectorInfo>)
    ensures |Pairs(cs)| == Sum(cs)
    ensures forall p :: p in Pairs(cs) <==>
              exists i, k :: 0 <= i < |cs| && 0 <= k < |cs[i].metrics| && p == (cs[i].name, cs[i].metrics[k])
  {
    if |cs| > 0 {
      PairsContents(cs[1..]);
      var head := seq(|cs[0].metrics|, k requires 0 <= k < |cs[0].metrics| => (cs[0].name, cs[0].metrics[k]));
      forall p | p in Pairs(cs)
        ensures exists i, k :: 0 <= i < |cs| && 0 <= k < |cs[i].metrics| && p == (cs[i].name, cs[i].metrics[k])
      {
        if p in head {
          var k :| 0 <= k < |head| && head[k] == p;
          assert p == (cs[0].name, cs[0].metrics[k]);
        } else {
          assert p in Pairs(cs[1..]);
          var i, k :| 0 <= i < |cs| - 1 && 0 <= k < |cs[1..][i].metrics| && p == (cs[1..][i].name, cs[1..][i].metrics[k]);
          assert cs[1..][i] == cs[i + 1];
        }
      }
      forall p | exists i, k :: 0 <= i < |cs| && 0 <= k < |cs[i].metrics| && p == (cs[i].name, cs[i].metrics[k])
        ensures p in Pairs(cs)
      {
        var i, k :| 0 <= i < |cs| && 0 <= k < |cs[i].metrics| && p == (cs[i].name, cs[i].metrics[k]);
        if i == 0 {
          assert head[k] == p;
        } else {
          assert cs[1..][i - 1] == cs[i];
          assert p in Pairs(cs[1..]);
        }
      }
    }
  }

  /** Metric k of collector i is pair number Sum(cs[..i]) + k. */
  lemma {:induction false} PairsIndex(cs: seq<CollectorInfo>, i: nat, k: nat)
    requires i < |cs| && k < |cs[i].metrics|
    ensures Sum(cs[..i]) + k < |Pairs(cs)|
    ensures Pairs(cs)[Sum(cs[..i]) + k] == (cs[i].name, cs[i].metrics[k])
  {
    PairsContents(cs);
    PairsContents(cs[1..]);
    if i == 0 {
      assert cs[..0] == [];
    } else {
      PairsIndex(cs[1..], i - 1, k);
      assert cs[1..][..i - 1] == cs[1..i];
      assert cs[..i][1..] == cs[1..i];
      assert Sum(cs[..i]) == |cs[0].metrics| + Sum(cs[1..i]);
    }
  }

  /** Listing a further collector appends its rows after the others. */
  lemma {:induction false} PairsAppend(cs: seq<CollectorInfo>, c: CollectorInfo)
    ensures Pairs(cs + [c]) == Pairs(cs) + Pairs([c])
  {
    if |cs| > 0 {
      assert (cs + [c])[1..] == cs[1..] + [c];
      PairsAppend(cs[1..], c);
    } else {
      assert cs + [c] == [c];
    }
  }

  /** A JSON record of the listing. */
  datatype JsonRecord = JsonRecord(metric: string, collector: string, metricSet: string, valueType: string, labels: seq<string>, help: string)

  datatype Listing = Rows(rows: seq<string>) | Json(records: seq<JsonRecord>)

  /**
   * PrintMetrics: the header lines of the format, then one row per pair;
   * for json, one record per pair. An unknown format is an error, and
   * nothing is listed.
   */
  function PrintMetrics(cs: seq<CollectorInfo>, format: string): (r: Result<Listing, string>)
    ensures r.Failure? <==> ParseFormat(format).None?
    ensures r.Success? && ParseFormat(format) == Some(JsonFormat) ==> r.value.Json? && |r.value.records| == |Pairs(cs)|
    ensures r.Success? && ParseFormat(format) != Some(JsonFormat) ==>
              r.value.Rows? && |r.value.rows| == |Header(ParseFormat(format).value)| + |Pairs(cs)|
  {
    match ParseFormat(format)
    case None => Failure(format)
    case Some(f) => Success(Listed(cs, f))
  }

  /** The listing in a known format. */
  function Listed(cs: seq<CollectorInfo>, f: Format): (l: Listing)
    ensures l.Json? <==> f == JsonFormat
    ensures l.Json? ==> |l.records| == |Pairs(cs)|
    ensures f != JsonFormat ==> |l.rows| == |Header(f)| + |Pairs(cs)|
  {
    if f == JsonFormat then Json(PairRecords(Pairs(cs)))
    else Rows(Header(f) + PairLines(f, Pairs(cs)))
  }

  /** The JSON records: one per pair. */
  function PairRecords(ps: seq<(string, Metric)>): (r: seq<JsonRecord>)
    ensures |r| == |ps|
    ensures forall j :: 0 <= j < |ps| ==>
              r[j] == JsonRecord(ps[j].1.name, ps[j].0, String(ps[j].1.metricSet), TypeName(ps[j].1.valueType),
                                 ps[j].1.labels, ps[j].1.description)
  {
    seq(|ps|, k requires 0 <= k < |ps| =>
      JsonRecord(ps[k].1.name, ps[k].0, String(ps[k].1.metricSet), TypeName(ps[k].1.valueType), ps[k].1.labels, ps[k].1.description))
  }

  /** The lines after the header: one per pair. */
  function PairLines(f: Format, ps: seq<(string, Metric)>): (r: seq<string>)
    requires f != JsonFormat
    ensures |r| == |ps|
    ensures forall j :: 0 <= j < |ps| ==> r[j] == FormatLine(f, RowValues(ps[j].0, ps[j].1))
  {
    seq(|ps|, k requires 0 <= k < |ps| => FormatLine(f, RowValues(ps[k].0, ps[k].1)))
  }

  /**
   * Metric k of collector i is listed right after the header and the rows
   * of the collectors before it: at line |header| + Sum(cs[..i]) + k.
   */
  lemma PrintMetricsLine(cs: seq<CollectorInfo>, format: string, i: nat, k: nat)
    requires ParseFormat(format).Some? && ParseFormat(format) != Some(JsonFormat)
    requires i < |cs| && k < |cs[i].metrics|
    ensures var r := PrintMetrics(cs, format).value;
            var f := ParseFormat(format).value;
            r.Rows? && |Header(f)| + Sum(cs[..i]) + k < |r.rows| &&
            r.rows[|Header(f)| + Sum(cs[..i]) + k] == FormatLine(f, RowValues(cs[i].name, cs[i].metrics[k]))
  {
    var f := ParseFormat(format).value;
    assert PrintMetrics(cs, format).value == Listed(cs, f);
    PairsIndex(cs, i, k);
    RowAt(cs, f, Sum(cs[..i]) + k);
  }

  /** In the line formats, row j after the header is the line of pair j. */
  lemma RowAt(cs: seq<CollectorInfo>, f: Format, j: nat)
    requires f != JsonFormat && j < |Pairs(cs)|
    ensures var rows := Listed(cs, f).rows;
            |Header(f)| + j < |rows| && rows[|Header(f)| + j] == FormatLine(f, RowValues(Pairs(cs)[j].0, Pairs(cs)[j].1))
  {
    var lines := PairLines(f, Pairs(cs));
    assert (Header(f) + lines)[|Header(f)| + j] == lines[j];
  }

  /** The JSON record of metric k of collector i is record Sum(cs[..i]) + k. */
  lemma PrintMetricsRecord(cs: seq<CollectorInfo>, i: nat, k: nat)
    requires i < |cs| && k < |cs[i].metrics|
    ensures var r := PrintMetrics(cs, "json").value;
            var m := cs[i].metrics[k];
            r.Json? && Sum(cs[..i]) + k < |r.records| &&
            r.records[Sum(cs[..i]) + k] ==
              JsonRecord(m.name, cs[i].name, String(m.metricSet), TypeName(m.valueType), m.labels, m.description)
  {
    PairsIndex(cs, i, k);
    assert ParseFormat("json") == Some(JsonFormat);
  }

  /** The tabular formats start with the column names; markdown follows them with dash runs as wide as each name. */
  lemma HeaderRows(f: Format)
    requires f in {CsvFormat, TsvFormat, MarkdownFormat}
    ensures |Header(f)| >= 1 && Header(f)[0] == FormatLine(f, Columns)
    ensures f == MarkdownFormat ==> |Header(f)| == 2
    ensures f == MarkdownFormat ==>
              (exists d :: |d| == |Columns| && Header(f)[1] == FormatLine(f, d) &&
                (forall k :: 0 <= k < |Columns| ==> d[k] == Dashes(|Columns[k]|)))
  {
    if f == MarkdownFormat {
      assert Header(f)[1] == FormatLine(f, DashRow(Columns));
    }
  }

  /** A CSV row splits back into its six fields (plus the empty one after the trailing ';'). */
  lemma CsvRowFields(v: seq<string>)
    requires |v| == |Columns|
    requires forall k :: 0 <= k < |v| ==> ';' !in v[k]
    ensures var line := FormatLine(CsvFormat, v);
            Split(line[..|line| - 1], ';') == v + [""]
  {
    var line := FormatLine(CsvFormat, v);
    var parts := v + [""];
    var body := Join(v, ";") + ";";
    assert line == body + "\n";
    assert line[..|line| - 1] == body;
    JoinSnoc(v, "", ";");
    assert Join(parts, ";") == body;
    assert forall k :: 0 <= k < |parts| ==> ';' !in parts[k] by {
      assert forall k :: 0 <= k < |v| ==> parts[k] == v[k];
    }
    SplitJoin(parts, ';');
  }

  /** A TSV row splits back into its six fields. */
  lemma TsvRowFields(v: seq<string>)
    requires |v| == |Columns|
    requires forall k :: 0 <= k < |v| ==> '\t' !in v[k]
    ensures var line := FormatLine(TsvFormat, v);
            Split(line[..|line| - 1], '\t') == v
  {
    var line := FormatLine(TsvFormat, v);
    assert line == Join(v, "\t") + "\n";
    assert line[..|line| - 1] == Join(v, "\t");
    SplitJoin(v, '\t');
  }

  lemma {:induction false} JoinSnoc(parts: seq<string>, x: string, sep: string)
    requires |parts| > 0
    ensures Join(parts + [x], sep) == Join(parts, sep) + sep + x
  {
    if |parts| == 1 {
      assert (parts + [x])[1..] == [x];
    } else {
      assert (parts + [x])[1..] == parts[1..] + [x];
      JoinSnoc(parts[1..], x, sep);
    }
  }

  // ---------------------------------------------------------------------
  // Gathering samples over rows

  /** The samples `f` gives for every item, in item order. */
  function Gather<T>(f: T -> seq<Sample>, xs: seq<T>): (r: seq<Sample>)
    decreases |xs|
  {
    if |xs| == 0 then [] else f(xs[0]) + Gather(f, xs[1..])
  }

  /** A gathered sample is a sample of some item. */
  lemma {:induction false} GatherFrom<T>(f: T -> seq<Sample>, xs: seq<T>, s: Sample)
    requires s in Gather(f, xs)
    ensures exists k :: 0 <= k < |xs| && s in f(xs[k])
    decreases |xs|
  {
    if s !in f(xs[0]) {
      GatherFrom(f, xs[1..], s);
      var k :| 0 <= k < |xs[1..]| && s in f(xs[1..][k]);
      assert xs[1..][k] == xs[k + 1];
    }
  }

  /** Every sample of every item is gathered. */
  lemma {:induction false} GatherOf<T>(f: T -> seq<Sample>, xs: seq<T>, k: nat, s: Sample)
    requires k < |xs| && s in f(xs[k])
    ensures s in Gather(f, xs)
    decreases |xs|
  {
    if k > 0 {
      assert xs[1..][k - 1] == xs[k];
      GatherOf(f, xs[1..], k - 1, s);
    }
  }
}
