# openstack-network-exporter, modelled in Dafny

openstack-network-exporter is a Prometheus exporter for Open vSwitch and
OVN nodes. Its collectors turn the daemons' output into labelled samples.
That output is the text replies of `ovs-appctl` commands, rows of the
Open_vSwitch database, and OpenFlow statistics replies. This project
models the pure logic between those inputs and the samples, and proves
what the collectors promise about it.

The modules follow the Go packages:

- `Config`: the metric-set bitmask, `Has`, `String` and `ParseMetricSets`.
- `Registry`: metric descriptors and their `Desc` cache,
  `DescribeEnabledMetrics`, `CollectorEnabled` and the metric listing
  printed by `PrintMetrics`.
- `Logger`: log-level parsing, the verbosity gate of each leveled logging
  function, message formatting, and the logr sink's `Enabled`.
- `OpenFlow`: the big-endian encoding of the OpenFlow 1.0 Hello, the
  Nicira aggregate-statistics request, and the decoding of its reply
  (sections 5.1, 5.3.5 and 5.5.1 of the OpenFlow Switch Specification
  1.0.0). It also models the exchange `GetAggregateStats` performs over a
  socket that is passed in as a parameter.
- `Ovsdb`: `getOperations`, the first-row rule of `Get`, the row
  appending of `List`, and the connection cache of `connect`. The
  database client is passed in as parameters.
- The line-oriented collectors, each an explicit fold over the reply's
  lines carrying a context value (`LineFold.Fold`):
  - `Coverage`;
  - `Memory` (a token scan instead of a fold);
  - `Datapath`;
  - `PmdPerf`;
  - `PmdRxq`, with its `/proc/<pid>/task/*/status` parser;
  - `Ovn`: external_ids, bridge mappings, and the ovn-controller
    coverage with the synthetic packet-in drop total.
- The record collectors:
  - `Iface`: the bridge/port/interface join, the state encodings, the
    fallback counters, and the contiguous per-queue indices;
  - `Bridge`;
  - `Vswitch`.
- Helpers:
  - `Text`: splitting, trimming, lines, ASCII case folding, and decimal
    digits;
  - `Patterns`: an anchored matcher for the regular expressions that
    each match at most one way, with a soundness and completeness proof
    against a declarative `Accepts` relation (the pattern's pieces,
    joined by `Concat`, spell the input);
  - `Assoc`: a small association list that stands for Go maps;
  - `OvsSchema`: the database rows with the columns the collectors read;
  - `Wrappers`: `Option` and `Result`.

A collector's result is a sequence of `Registry.Sample` values. Each
sample holds a metric, a label-value list and a real value. Several
collectors are checked against the same predicate,
`Registry.Exportable`. It says that a sample's metric is one the
collector lists, that the metric's set is active, and that the sample
carries one value per label name.

## Model

| member | source | states |
|---|---|---|
| Config.DefaultSets | config/config.go:21-29 | The default set holds base, errors, perf and counters, and does not hold debug. |
| Config.HasLaws | config/config.go:31-33 | Every set contains the empty set. The empty set contains only the empty set. Containing a union means containing both parts. |
| Config.NamesFromContents | config/config.go:35-53 | A group's name appears in the listing exactly when its bit is in the set. |
| Config.StringOfNone | config/config.go:35-53 | The empty set is listed as the empty string. |
| Config.ParseMetricSets | config/config.go:144-169 | No names gives the default set. Otherwise the result is the parse of the names. |
| Config.ParseNames | config/config.go:150-165 | Parsing succeeds exactly when every name is a known group in any case. The result contains every named group. A failure reports a rejected name from the input. |
| Config.ParseNamesFirstFailure | config/config.go:150-162 | A failure reports the first unknown name: the name it reports is in the input, no group has that name, and every name before it is a known group. |
| Config.ParseNamesMinimal | config/config.go:150-161 | A parsed set contains a group exactly when some name names it: it is the union of the named bits and nothing more. |
| Config.ParseNamesAppend | config/config.go:150-165 | One more name ORs in its bit. After a rejected name, later names change nothing. |
| Config.ParseNamesRepeat | config/config.go:150-161 | Repeating a name already in the list leaves the result unchanged. |
| Config.SetOfNameIgnoresCase | config/config.go:151 | A name and its lower-case form name the same group. |
| Config.ParseNamesWithin | config/config.go:150-165 | A parsed set has only bits of the five named groups. |
| Config.StringRoundTrip | config/config.go:35-53 | For any non-empty set of named groups, splitting its listing at commas and parsing the names gives the set back. |
| Registry.Lookup | collectors/coverage/collector.go:19-22 | A collector's `metrics[name]` lookup (also in the memory, pmd_perf and ovn collectors) finds a metric stored under the key, and finds nothing exactly when no entry has that key. |
| Registry.LookupDistinct | collectors/memory/collector.go:44-47 | With distinct keys, looking up an entry's key finds that entry's metric. |
| Registry.GetDesc | collectors/lib/metric.go:30-35 | The descriptor is built from the metric's name, help and labels. It is cached, and an existing cache entry is returned unchanged. |
| Registry.GetDescOnce | collectors/lib/metric.go:30-35 | Asking a second time returns the same descriptor and the same cache: it is built at most once. |
| Registry.Enabled | collectors/lib/metric.go:37-44 | The enabled metrics are exactly the listed metrics whose set is active. |
| Registry.EnabledAppend | collectors/lib/metric.go:38-43 | Filtering keeps list order: filtering a concatenation concatenates the filtered parts. |
| Registry.EnabledAll | collectors/lib/metric.go:38-43 | When every set is active, every metric is described, in list order. |
| Registry.DescribeEnabledMetrics | collectors/lib/metric.go:37-44 | One descriptor per enabled metric, in list order, each built from that metric. |
| Registry.CollectorEnabled | collectors/lib/metric.go:117-128 | With no configured collectors every collector runs. Otherwise a collector runs exactly when its name is configured. |
| Registry.ParseFormat | collectors/lib/metric.go:58-78 | The listing accepts exactly text, json, csv, tsv and markdown, and each name selects the format of that name; only `json` selects the JSON listing. |
| Registry.ParseFormatName | collectors/lib/metric.go:58-78 | Every format is selected by its own name. |
| Registry.PrintMetrics | collectors/lib/metric.go:55-115 | An unknown format is an error and nothing is listed. JSON gives one record per (collector, metric) pair. The line formats give the header rows followed by one line per pair. |
| Registry.PairsContents | collectors/lib/metric.go:80-81 | There is one pair per metric of each collector, and a pair's metric belongs to the collector it names. |
| Registry.PairsIndex | collectors/lib/metric.go:80-81 | Collectors come in the given order and metrics in each collector's order: metric k of collector i is pair Sum(cs[..i]) + k. |
| Registry.PrintMetricsLine | collectors/lib/metric.go:80-110 | In the line formats, the line of metric k of collector i follows the header at that position. Its fields are the name, collector, set listing, type, comma-joined labels and help. |
| Registry.PrintMetricsRecord | collectors/lib/metric.go:93-101 | In JSON, the record at that position holds the same six fields. |
| Registry.HeaderRows | collectors/lib/metric.go:46-71 | csv, tsv and markdown start with the column names. Markdown follows them with a row of dash runs as wide as each column name. |
| Registry.CsvRowFields | collectors/lib/metric.go:50 | A CSV line is the six fields, each followed by ';', so splitting it at ';' gives the fields back when none contains ';'. |
| Registry.TsvRowFields | collectors/lib/metric.go:51 | Splitting a TSV line at tabs gives the six fields back when none contains a tab. |
| Registry.EscapeChar | collectors/lib/metric.go:49 | A printable character other than a quote or backslash is copied as it is. Any other character becomes an escape that starts with a backslash. Every character written is printable. |
| Registry.QuoteBody | collectors/lib/metric.go:49 | The quoted help is at least as long as the help and holds only printable characters, so a help text never breaks the one-line-per-metric listing. |
| Registry.QuoteBodyIdentity | collectors/lib/metric.go:49 | The quoted help equals the help exactly when every character of it is printable and neither a quote nor a backslash. |
| Registry.QuoteBodyAppend | collectors/lib/metric.go:49 | Quoting works character by character: quoting a concatenation concatenates the quoted parts. |
| Logger.ParseLogLevel | log/logger.go:29-48 | A level parses to a priority between CRIT and DEBUG. An unknown level is an error carrying the rejected input. |
| Logger.ParseLogLevelSpellings | log/logger.go:31-46 | A level parses to a priority exactly when its lower-case form is one of that priority's spellings, e.g. warn and warning for WARNING. |
| Logger.ParseLogLevelIgnoresCase | log/logger.go:31 | Case does not matter. |
| Logger.LogfPriority | log/logger.go:78-157 | Each leveled function writes at a priority between CRIT and DEBUG. |
| Logger.LogfPriorityOfName | log/logger.go:78-157 | Each leveled function gates on the priority of the level it is named after: Debugf on debug, Infof on info, Noticef on notice, Warningf on warning, Errf on err and Critf on crit. |
| Logger.LogfPriorityOrder | log/logger.go:78-157 | The six functions gate on six different priorities, Critf the most severe and Debugf the least. |
| Logger.LoggedAtLevel | log/logger.go:78-157 | With a configured level, a function writes exactly when the level it is named after is that level or a more severe one. |
| Logger.Logged | log/logger.go:78-157 | A leveled function writes exactly when the verbosity is at least its priority, and then writes its message and arguments as `format` renders them. |
| Logger.LoggedMonotonic | log/logger.go:78-157 | Raising the verbosity never silences a message. |
| Logger.Template | log/logger.go:74 | The template handed to fmt.Sprintf is the message trimmed of surrounding white space, followed by exactly one newline. |
| Logger.Format | log/logger.go:73-75 | The line is the formatter applied to that template and the arguments. |
| Logger.FormatIgnoresSurroundingSpace | log/logger.go:73-75 | White space around the message never reaches the formatter: trimming the message first yields the same line. |
| Logger.FormatPlain | log/logger.go:73-75 | A message with no `%` and no arguments is written as the trimmed message and one newline, given a formatter that copies such a template unchanged. |
| Logger.SinkEnabled | log/logger.go:163-175 | Negative levels count as 0. Level 0 is enabled at NOTICE, level 1 at INFO, and any higher level at DEBUG. |
| Logger.SinkEnabledMonotonic | log/logger.go:163-175 | An enabled level stays enabled at any higher verbosity and at any lower level. |
| Logger.SinkInfoPriority | log/logger.go:189-214 | sink.Info writes level 0 as an error, level 1 as info, and higher levels as debug. |
| Logger.SinkMessage | log/logger.go:181 | The sink formats its message and argument list with the fixed template `%s: %v` and one newline. |
| Logger.SinkError | log/logger.go:177-187 | sink.Error writes exactly when Errf would, and writes the sink's line. |
| OpenFlow.HeaderRoundTrip | openflow/openflow.go:29-34 | Decoding an encoded OpenFlow header gives it back. |
| OpenFlow.StatsMsgRoundTrip | openflow/openflow.go:37-50 | Decoding an encoded Nicira statistics header gives it back. |
| OpenFlow.ReplyRoundTrip | openflow/openflow.go:61-68 | Decoding an encoded aggregate reply recovers its header and its packet, byte and flow counts. |
| OpenFlow.ReplyCountsOnly | openflow/openflow.go:136-144 | The counts depend only on reply bytes 24 to 43: the type, length, xid, vendor and subtype are not checked. |
| OpenFlow.HelloEncoding | openflow/openflow.go:111-116 | The Hello is the 8 bytes 01 00 00 08 00 00 00 01. |
| OpenFlow.RequestEncoding | openflow/openflow.go:123-135 | The request is the 32 bytes of version 1, type 16, length 32, xid 1, vendor stats, Nicira, subtype 1, padding, port none, match length 0, all tables, padding. |
| OpenFlow.RequestLayout | openflow/openflow.go:37-59 | Any request encodes field by field, big-endian, in declaration order, with zero padding. |
| OpenFlow.LengthFields | openflow/openflow.go:111-128 | The length field of both frames equals the size of its encoding. |
| OpenFlow.SocketPath | openflow/openflow.go:71 | The socket path ends in `<bridge>.mgmt`. It is that file name alone for an empty run directory, and otherwise the run directory and the file name with exactly one `/` between them. |
| OpenFlow.GetAggregateStats | openflow/openflow.go:104-147 | After any error the counts are unchanged. After success the bytes sent are the Hello followed by the request. |
| OpenFlow.GetAggregateStatsOfReply | openflow/openflow.go:104-147 | A switch that answers the Hello with any 8 bytes and the request with a reply yields exactly that reply's counts. |
| OpenFlow.GetAggregateStatsShort | openflow/openflow.go:117-140 | Fewer than 56 bytes back is an error, and the counts are kept. |
| Ovsdb.GetOperations | ovsdb/ovsdb.go:105-143 | No arguments give one select of the whole table. A column alone is an error, and so is a column the table lacks. Otherwise there is one select per value. |
| Ovsdb.GetOperationsSelects | ovsdb/ovsdb.go:122-140 | Select k is on the table, with a single equality on the column against value k. The value is wrapped as a UUID reference for `_uuid`. |
| Ovsdb.Connect | ovsdb/ovsdb.go:27-70 | A stored connection is returned without dialing. A successful dial is stored. A failed dial stores nothing. |
| Ovsdb.ConnectCached | ovsdb/ovsdb.go:31-33 | After a success, the next call returns the same connection whatever dialing would do. |
| Ovsdb.ConnectRetries | ovsdb/ovsdb.go:61-69 | After a failure nothing is stored, so the next call dials again. |
| Ovsdb.Get | ovsdb/ovsdb.go:72-103 | Get leaves the connection cache as connect does. |
| Ovsdb.FirstRow | ovsdb/ovsdb.go:92-102 | No row in any result is NotFound, and only then. |
| Ovsdb.GetFirstRow | ovsdb/ovsdb.go:92-102 | Get decodes the first row of the first result that has rows, whatever the later rows are. |
| Ovsdb.AppendRows | ovsdb/ovsdb.go:171-187 | The caller's list is kept as a prefix and grows by at most one value per row. Without an error it grows by one per row. |
| Ovsdb.AppendRowsDecodes | ovsdb/ovsdb.go:171-187 | Every appended value is the decoding of its row, in row order. |
| Ovsdb.AppendRowsStops | ovsdb/ovsdb.go:175-184 | An error stops at the first row that fails, and the rows before it stay appended. |
| Ovsdb.List | ovsdb/ovsdb.go:145-189 | List never clears the caller's list: it stays a prefix of the result, on errors too. |
| Ovsdb.ListAppendsAll | ovsdb/ovsdb.go:165-188 | A successful List appends exactly the decodings of all returned rows, in order. |
| Coverage.MatchLineSound | collectors/coverage/collector.go:56 | A matched line is a word, white space, anything, white space, `total: ` and the digits returned. |
| Coverage.MatchLineComplete | collectors/coverage/collector.go:56 | Every line of that shape matches, giving its word and its total. |
| Coverage.MakeMetric | collectors/coverage/collector.go:19-35 | A sample exists exactly when the event is in the table and its set is active. It is the table's metric, with no labels, valued at the total. |
| Coverage.CollectLine | collectors/coverage/collector.go:66-73 | A line yields a sample exactly when it matches, its event is in the table and the set is active. |
| Coverage.Collect | collectors/coverage/collector.go:59-62 | An empty reply yields nothing. |
| Coverage.CollectSound | collectors/coverage/collector.go:58-76 | At most one sample per line, each an active, unlabelled metric of the table. |
| Coverage.CollectLinesIndependent | collectors/coverage/collector.go:64-75 | Lines are independent: the samples of a concatenation are the samples of each part. |
| Memory.MemoryTableShape | collectors/memory/metrics.go:13-44 | The keys are handlers, ports, revalidators, rules and keys, all distinct. The names are distinct, and every entry is an unlabelled PERF gauge. |
| Memory.MatchAtIff | collectors/memory/collector.go:35 | The token matcher accepts a prefix exactly when it is word characters, ':' and a maximal run of digits. |
| Memory.FindAllSound | collectors/memory/collector.go:43 | Every token found matches at its position, and tokens are in text order without overlap. |
| Memory.FindFromCovers | collectors/memory/collector.go:43 | No token is missed: any position where a token starts lies inside a found token. |
| Memory.FindAllTokens | collectors/memory/collector.go:35-43 | Every found key is a maximal run of word characters, so `udpif keys:76` yields the key `keys`. |
| Memory.TokenSample | collectors/memory/collector.go:44-56 | A token yields a sample exactly when its key is in the table and the set is active. The sample is that metric, unlabelled, valued at the digits. |
| Memory.SamplesAppend | collectors/memory/collector.go:43-57 | Tokens are independent: samples of concatenated token lists concatenate. |
| Memory.Collect | collectors/memory/collector.go:38-41 | An empty reply yields nothing. |
| Memory.CollectSound | collectors/memory/collector.go:37-58 | Every sample is an active, unlabelled PERF gauge of the table. |
| Datapath.MetricsShape | collectors/datapath/metrics.go:12-44 | Four distinct metrics, all PERF gauges labelled [type, name]. |
| Datapath.HeaderOf | collectors/datapath/collector.go:82-86 | A header line is exactly a line matching `type@name:`, and it gives the datapath type and then its name. It opens a context with both labels non-empty. |
| Datapath.HeaderIsNotDetail | collectors/datapath/collector.go:34-38 | A header line is never a lookups or flows line. |
| Datapath.StepHeader | collectors/datapath/collector.go:82-86 | A header replaces the context with its two captures and yields nothing. |
| Datapath.StepOther | collectors/datapath/collector.go:58-87 | Any other line leaves the context unchanged. |
| Datapath.ContextIsLastHeader | collectors/datapath/collector.go:51-87 | After any lines, the context is that of the last header among them. |
| Datapath.NothingBeforeHeader | collectors/datapath/collector.go:51-58 | Lines before any header yield nothing. |
| Datapath.DetailSamples | collectors/datapath/collector.go:59-78 | In a context, a lookups line yields hits, missed and lost, in that order, with its three numbers. A flows line yields one flows sample. Both carry the context labels. |
| Datapath.LineSamplesLabelled | collectors/datapath/collector.go:58-79 | A line only appends samples, and they carry the labels of the last header before it. |
| Datapath.Collect | collectors/datapath/collector.go:42-49 | Without PERF, or with an empty reply, nothing is emitted. |
| Datapath.CollectSound | collectors/datapath/collector.go:41-88 | At most three samples per line, each of a listed, active metric with two labels. |
| PmdPerf.PerfTableKeys | collectors/pmd_perf/metrics.go:14-153 | The table has 17 distinct keys. |
| PmdPerf.KeysOfTable | collectors/pmd_perf/metrics.go:14-153 | The table's keys are the 17 statistic labels, in the order the command prints them. |
| PmdPerf.UsedTscNotKey | collectors/pmd_perf/metrics.go:14-31 | The used-cycles line printed between the iterations and idle-iterations lines is not a key of the table. |
| PmdPerf.UsedTscSilent | collectors/pmd_perf/metrics.go:14-31 | The statistic pattern takes the used-cycles line, but it yields no sample, whatever the active sets, the thread and the count. |
| PmdPerf.PerfTableNames | collectors/pmd_perf/metrics.go:14-153 | Metric names are distinct. |
| PmdPerf.PerfTableLabels | collectors/pmd_perf/metrics.go:12-153 | Every metric is labelled [numa, cpu]. Tx batches is the only gauge. |
| PmdPerf.PerfTableSets | collectors/pmd_perf/metrics.go:65-136 | Datapath passes and the six cache hit counts are DEBUG. Lost upcalls is ERRORS. The rest are PERF. |
| PmdPerf.HeaderOf | collectors/pmd_perf/collector.go:86-90 | A header is exactly a line matching the pmd thread pattern. Its numa and cpu are non-empty digit strings. |
| PmdPerf.StatMatchSound | collectors/pmd_perf/collector.go:59 | A matched statistic line is white space, a label without ':', ':', white space, digits and anything. |
| PmdPerf.StatMatchComplete | collectors/pmd_perf/collector.go:59 | Every line of that shape matches, giving the label and its digits. |
| PmdPerf.HeaderIsNotStat | collectors/pmd_perf/collector.go:57-59 | A header never matches the statistic pattern, so it always reopens the context. |
| PmdPerf.MakeMetric | collectors/pmd_perf/collector.go:19-35 | A sample exists exactly when the label is a key and its set is active. It is labelled (numa, cpu) and valued at the digits. |
| PmdPerf.StepHeader | collectors/pmd_perf/collector.go:86-90 | A header sets the context to its numa and cpu and yields nothing. |
| PmdPerf.StatLineSample | collectors/pmd_perf/collector.go:75-83 | In a context, a statistic line keeps the context, unknown label or not, and yields what MakeMetric yields. |
| PmdPerf.ContextIsLastHeader | collectors/pmd_perf/collector.go:68-91 | After any lines, the context is that of the last header. |
| PmdPerf.NothingBeforeHeader | collectors/pmd_perf/collector.go:68-75 | Lines before any header yield nothing. |
| PmdPerf.LineSamplesLabelled | collectors/pmd_perf/collector.go:75-83 | A line only appends samples, labelled by the last header before it. |
| PmdPerf.Collect | collectors/pmd_perf/collector.go:63-66 | An empty reply yields nothing. |
| PmdPerf.CollectSound | collectors/pmd_perf/collector.go:62-92 | At most one sample per line, each an active metric of the table. |
| PmdRxq.MetricsShape | collectors/pmd_rxq/metrics.go:12-58 | Six distinct metrics, all labelled first by numa and cpu. Usage and enabled add interface and rxq. Only the non-voluntary switches are ERRORS, and only the two switch counts are counters. |
| PmdRxq.HeaderIsNotDetail | collectors/pmd_rxq/collector.go:39-46 | A header line is never an isolated, queue or overhead line. |
| PmdRxq.DetailsExclusive | collectors/pmd_rxq/collector.go:41-46 | At most one of the three detail patterns matches a line. |
| PmdRxq.KeyValue | collectors/pmd_rxq/collector.go:152-156 | A status line counts exactly when it has two fields, which become the name and the value. |
| PmdRxq.Assign | collectors/pmd_rxq/collector.go:158-172 | Each known name sets its own field, and any other name changes nothing. |
| PmdRxq.ParseStatusRejects | collectors/pmd_rxq/collector.go:159-162 | A status file is rejected exactly when some two-field `Name:` line does not start with `pmd-c`. |
| PmdRxq.ParseStatusFields | collectors/pmd_rxq/collector.go:151-178 | An accepted file's fields are the values of the last lines naming them. Unparsable numbers read 0. |
| PmdRxq.StatsMapKeys | collectors/pmd_rxq/collector.go:201-216 | The stats map has an entry for a cpu exactly when some accepted thread is pinned to it. |
| PmdRxq.StatsMapLast | collectors/pmd_rxq/collector.go:203-213 | The entry is that of the last such thread. |
| PmdRxq.StepHeader | collectors/pmd_rxq/collector.go:106-127 | A header sets the context. It yields the context-switch samples when the stats map has the core, each gated on its own set. |
| PmdRxq.IsolatedLine | collectors/pmd_rxq/collector.go:68-75 | In a context with PERF, an isolated line yields one sample, 1 exactly for `true`. |
| PmdRxq.QueueLine | collectors/pmd_rxq/collector.go:76-92 | A queue line yields the enabled sample, 1 exactly for `enabled`, labelled by numa, cpu, port and queue. The usage sample follows only when its number parses. |
| PmdRxq.OverheadLine | collectors/pmd_rxq/collector.go:93-102 | An overhead line yields one sample when its number parses, and none otherwise. |
| PmdRxq.ContextIsLastHeader | collectors/pmd_rxq/collector.go:57-128 | After any lines, the context is that of the last header. |
| PmdRxq.NothingBeforeHeader | collectors/pmd_rxq/collector.go:64 | Detail lines before any header yield nothing. |
| PmdRxq.StepValid | collectors/pmd_rxq/collector.go:61-128 | Every sample of a line is of a listed, active metric with one value per label. |
| PmdRxq.Collect | collectors/pmd_rxq/collector.go:52-55 | An empty reply yields nothing. |
| PmdRxq.CollectSound | collectors/pmd_rxq/collector.go:49-129 | At most two samples per line, each of a listed, active metric with one value per label. |
| Ovn.ExternalIdTables | collectors/ovn/metrics.go:9-63 | Two numeric COUNTERS gauges, one BASE boolean, and three BASE label keys with one label each. Bridge mappings are BASE with labels [network, bridge]. |
| Ovn.ControllerKeysDistinct | collectors/ovn/metrics.go:65-198 | The coverage table has 22 distinct events. |
| Ovn.ControllerTableShape | collectors/ovn/metrics.go:65-198 | Every coverage metric is an unlabelled counter. |
| Ovn.PacketInDropShape | collectors/ovn/metrics.go:192-197 | packet_in_drop maps to ovnc_packet_in_drop in ERRORS. |
| Ovn.ExternalIdNamesApart | collectors/ovn/metrics.go:9-198 | External-id and bridge-mapping names are distinct from each other and from every coverage name. |
| Ovn.MetricNamesDistinct | collectors/ovn/metrics.go:200-205 | No two metrics of the collector share a name. |
| Ovn.PerKeySamples | collectors/ovn/collector.go:23-41 | The per-key loop yields exactly one sample per entry whose key is present, whose set is active and whose value reads. |
| Ovn.NumericSamples | collectors/ovn/collector.go:23-41 | Numeric keys yield their parsed value. A value that does not parse skips only that key. |
| Ovn.BoolValue | collectors/ovn/collector.go:53-56 | A boolean reads 1 exactly when its lower-case form is `true`, and 0 otherwise. |
| Ovn.BooleanSamples | collectors/ovn/collector.go:43-60 | A boolean key that is present with an active set yields one unlabelled sample of that value. |
| Ovn.LabelSamples | collectors/ovn/collector.go:75-87 | A label key that is present with an active set yields the constant 1, labelled by the key's value. |
| Ovn.MappingOf | collectors/ovn/collector.go:69-70 | An entry gives a network and a bridge exactly when it contains ':'. |
| Ovn.PutAllAsWritten | collectors/ovn/collector.go:68-71 | The loop as written succeeds exactly when every entry contains ':'. |
| Ovn.ParseMappingsPanics | collectors/ovn/collector.go:67-70 | The value "", one network without a bridge, or a trailing comma makes parse_mappings as written fail. |
| Ovn.ParseMappingsAgrees | collectors/ovn/collector.go:62-73 | Wherever the code as written succeeds, the corrected parse gives the same mappings. |
| Ovn.ParseMappingsFind | collectors/ovn/collector.go:62-73 | A network maps to the bridge of the last entry that names it: later duplicates overwrite earlier ones. |
| Ovn.PutAllDistinct | collectors/ovn/collector.go:66-71 | The parsed mappings hold each network once. |
| Ovn.MappingSamplesExact | collectors/ovn/collector.go:96-99 | One sample per mapping, valued 1 and labelled network then bridge. No network is labelled twice. |
| Ovn.BridgeSamplesExact | collectors/ovn/collector.go:89-99 | With the key present and the set active, the samples are exactly one per mapped network, with the bridge of its last entry. Otherwise there are none. |
| Ovn.FoldDrops | collectors/ovn/collector.go:148-163 | After any lines, each drop component holds the total of the last line naming it. |
| Ovn.CoverageAsPlain | collectors/ovn/collector.go:152-161 | Apart from the drop components, the scan emits what makeMetric emits for each line. |
| Ovn.DropPart | collectors/ovn/collector.go:166-174 | A recorded total adds its value when Atoi accepts it, and 0 when nothing was recorded or Atoi rejects it. |
| Ovn.AddInt64 | collectors/ovn/collector.go:173 | Go's int addition: the exact sum modulo 2^64, in the int64 range. |
| Ovn.DropTotalOrderFree | collectors/ovn/collector.go:165-175 | Either iteration order over the two components gives the same total. Without overflow it is the plain sum. |
| Ovn.DropSample | collectors/ovn/collector.go:176-181 | A packet_in_drop sample appears only when the total is positive, valued at the total. |
| Ovn.CollectCoverage | collectors/ovn/collector.go:143-146 | An empty reply yields nothing. |
| Ovn.CollectCoverageExact | collectors/ovn/collector.go:136-182 | The coverage samples are the plain coverage samples of the reply, then the drop sample of the last reported totals when positive. |
| Ovn.CollectCoverageSound | collectors/ovn/collector.go:136-182 | At most one sample per line plus the drop total, each an active, unlabelled metric of the table. |
| Ovn.Collect | collectors/ovn/collector.go:204-213 | If the Open_vSwitch row cannot be read, nothing is emitted, coverage included. |
| Ovn.CollectSound | collectors/ovn/collector.go:204-220 | Every sample is exportable as one of the collector's metrics, including the bridge mappings. |
| Ovn.BridgeMappingsUnlisted | collectors/ovn/collector.go:190-198 | Metrics() as written lacks ovnc_bridge_mappings, and the corrected list has it. |
| Ovn.MetricsOmitBridgeMappings | collectors/ovn/collector.go:190-198 | With one mapping configured, the collector as written emits a sample of a metric its Metrics() does not list. |
| Iface.MetricsShape | collectors/iface/metrics.go:18-323 | 19 metrics. The per-queue ones are labelled bridge, port, interface, type and queue, and the others the first four. |
| Iface.MetricNamesDistinct | collectors/iface/metrics.go:20-323 | No two interface metrics share a name. |
| Iface.StateValue | collectors/iface/metrics.go:29-39 | A state reads 1 exactly for up, 0 exactly for down, and -1 for anything else or nothing. |
| Iface.PresentValues | collectors/iface/metrics.go:71-76 | A column or counter the row holds is reported as it is. |
| Iface.EmptyRowValues | collectors/iface/metrics.go:63-220 | Empty columns and missing counters read 0, and missing states read -1. |
| Iface.PreferredCounter | collectors/iface/metrics.go:158-163 | A drop or error count reports the preferred counter when it is positive, and the generic counter otherwise. |
| Iface.QueueKeyInjective | collectors/iface/metrics.go:230-236 | Different queue indices give different statistics keys. |
| Iface.QueueRunComplete | collectors/iface/collector.go:92-100 | The per-queue values are those of indices 0, 1, … up to the first index with no counter, which is absent. |
| Iface.MetricSamplesExact | collectors/iface/collector.go:90-104 | A scalar metric yields exactly one sample. A per-queue metric yields one per index of its run, labelled by the decimal index. |
| Iface.InterfaceSampleOf | collectors/iface/collector.go:90-106 | Every sample of an active metric is among the interface's samples. |
| Iface.InterfaceSampleFrom | collectors/iface/collector.go:90-106 | Every sample of an interface comes from some active metric. |
| Iface.PortBridgesFind | collectors/iface/collector.go:64-68 | A port UUID maps to the last bridge that lists it. |
| Iface.JoinCovered | collectors/iface/collector.go:61-83 | Every interface with a port also has a bridge entry, so the second lookup never skips. |
| Iface.JoinLabels | collectors/iface/collector.go:64-88 | The port is the last one listing the interface. The bridge is the last bridge listing that port, or "" when none does. |
| Iface.InterfaceLabels | collectors/iface/collector.go:84-88 | The labels are bridge, port, interface and type, in that order, with an empty type reported as `system`. |
| Iface.OneInterfaceJoined | collectors/iface/collector.go:75-83 | An interface that no port lists yields nothing. |
| Iface.Collect | collectors/iface/collector.go:45-59 | A failure of any of the three lists emits nothing. |
| Iface.CollectExact | collectors/iface/collector.go:45-107 | A sample is emitted exactly when some interface has a port and the sample is one of its samples under the joined labels. |
| Iface.CollectSound | collectors/iface/collector.go:36-108 | Every sample is exportable as one of the collector's metrics. |
| Bridge.MetricsShape | collectors/bridge/metrics.go:20-52 | Two distinct BASE gauges labelled bridge and datapath_type. |
| Bridge.FlowValue | collectors/bridge/metrics.go:35-52 | The flow value is never negative. |
| Bridge.FlowValueIsCount | collectors/bridge/metrics.go:43-51 | The flow value is the count the exchange leaves in the stats: the switch's count, or 0 when the exchange fails. |
| Bridge.FlowValueOfReply | collectors/bridge/metrics.go:43-51 | A switch that answers with a reply gives that reply's flow count. |
| Bridge.Collect | collectors/bridge/collector.go:41-45 | A failed bridge list emits nothing. |
| Bridge.AllBridgesExact | collectors/bridge/collector.go:47-56 | Without BASE nothing is emitted. With BASE there are two samples per bridge in bridge order, the port count then the flow count, labelled by name and datapath type. |
| Bridge.CollectExact | collectors/bridge/collector.go:39-57 | The scrape is that per-bridge emission with each bridge's flow value. |
| Bridge.CollectSound | collectors/bridge/collector.go:39-57 | Every sample is exportable as one of the collector's metrics. |
| Vswitch.MetricsShape | collectors/vswitch/metrics.go:18-54 | Both metrics are BASE gauges. Only build info has labels, the three versions. |
| Vswitch.Collect | collectors/vswitch/collector.go:36-53 | Without BASE, or without the row, nothing is emitted. Otherwise both samples are. |
| Vswitch.CollectReadsBack | collectors/vswitch/metrics.go:27-53 | Build info is 1, labelled by the three versions with "" for each one missing. DPDK is 1 exactly when initialized and 0 exactly when not. |
| Vswitch.CollectSound | collectors/vswitch/collector.go:36-53 | Every sample is exportable as one of the collector's metrics. |

## Where the model follows the code

- `OpenFlow.GetAggregateStats` reads a fixed 48-byte reply. It checks neither the reply's type, nor its length field, nor its xid.
- `Ovsdb.List` keeps the values appended before a failing row in the caller's list. It does not roll them back.
- `Ovn.Collect` returns before the coverage scan when the Open_vSwitch row cannot be read.
- The packet-in drop total is summed with Go's int64 `+`. A component that `strconv.Atoi` rejects is skipped.
- Collectors that range over Go maps are modelled with the table in source order. Order-free properties are proved for them: membership, counts, and the sum of the two drop components in either order.

## Where the model departs from the code

- `Ovn.Collect` and `Ovn.BridgeSamples` read `ovn-bridge-mappings` with the corrected `Ovn.ParseMappings`, which skips an entry without a `:`. The code as written, `Ovn.ParseMappingsAsWritten`, panics instead when the value is empty, has an entry without a `:`, or ends in a comma (see Findings). For every value on which the Go code does not panic, the two agree (`Ovn.ParseMappingsAgrees`).
- `Ovn.Info` lists the collector's metrics with `bridgeMappings` included (`Ovn.Metrics`), so Describe and the metric listing cover every metric `Ovn.Collect` emits. The list as written is `Ovn.MetricsAsWritten` (see Findings).

## Left out

- Config: `MetricSet` is a `bv8`, while Go uses a 64-bit `uint`. Only the five named bits (bits 1 to 5; NONE is 0) are used anywhere, so bits 6 to 63 are not modelled.
- `config.Parse`, the YAML file and environment overrides, and the accessors `MetricSets`, `Collectors` and `OvsRundir`: the active set, the configured collectors and the run directory are parameters.
- Sample values are `real`. float64 rounding and `strconv.ParseFloat` are not modelled. Digit-only grammars use the exact value of the digits. The `[\d\.]+` percentages of pmd_rxq are read by `Text.ParseDecimal`, the exact value of the digits and the point, so float64 rounding and ParseFloat's range errors are not modelled there. The numeric external_ids of the ovn collector go through a partial parse function passed as a parameter.
- Strings are sequences of characters. `strings.ToLower` is modelled on ASCII letters only.
- `bufio.Scanner`'s 64 KiB line limit is not modelled: every line is read.
- All I/O is a parameter:
  - the `ovs-appctl` replies (appctl/appctl.go);
  - the OVSDB client's dial and transaction results;
  - the OpenFlow socket (its accepted writes and incoming bytes);
  - the procfs reads behind the pmd_rxq statistics. The task directory listing and each status file's lines are parameters. `parseStatus` and the map that `getVswitchdPmdStat` builds are modelled.
- Timeouts, deadlines, the mutex in ovsdb.go, and Prometheus descriptors and channels are not modelled.
- The coverage collector's metric table: collectors/coverage/metrics.go is not part of this model, so the table is a parameter of `Coverage`.
- The generated database models (package ovsdb/ovs) are not part of this model. `OvsSchema` defines only the columns the collectors read.
- The regular-expression engine. Each pattern is a hand-written matcher. `Patterns` handles the deterministic ones, and hand-written scanners handle coverage, the pmd_perf statistic line and the memory tokens.
- Log output: the syslog and stderr writers, the logr and promhttp adapters, `ErrorLogger`, `InitLogging`, and `Println`.
- Logger.ParseLogLevel: the error carries the rejected text. The wording of Go's error message, which quotes that text after "invalid log level", is not modelled.
- Logger.Format: fmt.Sprintf is a parameter of the model. Its verb substitution is not modelled, so the contracts relate the line to the template, and `FormatPlain` covers only templates with no `%`.
- Registry.QuoteBody, Registry.EscapeChar, Registry.QuoteBodyIdentity: strconv.IsPrint is modelled up to U+00FF. Every character above U+00FF is taken as printable, so the `\u` and `\U` escapes Go writes for non-printable characters such as U+2028 are not modelled.
- OpenFlow.SocketPath: filepath.Join also cleans the joined path (it collapses repeated `/`, and resolves `.` and `..`). The model only joins, which agrees with Go when the run directory is already clean and the bridge name holds no `/`.
- main.go, the HTTP server, flag parsing and collectors/collectors.go.
- Iface.CollectExact: requires port names to be unique and distinct from every port UUID (`PortsApart`). The Go join stores port names and port UUIDs as keys of the same map, so without that assumption a port whose name equals another port's UUID can change an interface's bridge label. JoinCovered, OneInterfaceJoined and CollectSound hold without it.
- Iface.JoinLabels: requires `PortsApart` for the same reason.

## Findings

| source | as written | input that shows it | evidently intended | confidence | as-written member | corrected member |
|---|---|---|---|---|---|---|
| collectors/ovn/collector.go:62-73 | `parse_mappings` indexes `mSplit[1]` for every comma-separated entry, and panics when an entry has no ':'. | `external_ids:ovn-bridge-mappings` set to "", to `physnet1`, or to `physnet1:br-ex,` | An entry without ':' names no mapping and is skipped. | medium; not executed | Ovn.ParseMappingsAsWritten, Ovn.ParseMappingsPanics | Ovn.ParseMappings, Ovn.ParseMappingsAgrees, Ovn.ParseMappingsFind |
| collectors/ovn/collector.go:190-198 | `Metrics()` lists the four tables but not `bridgeMappings`, although `Collect` emits `ovnc_bridge_mappings`. The metric is missing from Describe and from the metric listing. | `ovn-bridge-mappings` set to `physnet1:br-ex` with BASE active | `Metrics()` also lists `bridgeMappings`. | medium; not executed | Ovn.MetricsAsWritten, Ovn.MetricsOmitBridgeMappings | Ovn.Metrics, Ovn.CollectSound |
