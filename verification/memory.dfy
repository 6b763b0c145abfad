/**
 * The memory collector: every `<word>:<digits>` token of `memory/show`,
 * found left to right without overlap wherever it sits in the reply,
 * becomes a sample when its word is a key of the table and the key's set
 * is active.
 */
module Memory {
  import opened Wrappers
  import opened Text
  import opened Config
  import opened Registry

  /** The key → metric table: five gauges of the PERF set, without labels. */
  const MemoryTable: Table := [
    ("handlers", Metric("ovs_memory_handlers_total", "Total number of handler threads.", [], Gauge, PERF)),
    ("ports", Metric("ovs_memory_ports_total", "Total number of ports.", [], Gauge, PERF)),
    ("revalidators", Metric("ovs_memory_revalidators_total", "Total number of revalidator threads.", [], Gauge, PERF)),
    ("rules", Metric("ovs_memory_rules_total", "Total number of rules.", [], Gauge, PERF)),
    ("keys", Metric("ovs_memory_keys_total", "Total number of udpif keys.", [], Gauge, PERF))
  ]

  /** The table's keys are exactly the five counters, and its metric names are distinct. */
  lemma MemoryTableShape()
    ensures KeysDistinct(MemoryTable)
    ensures |MemoryTable| == 5
    ensures forall i :: 0 <= i < |MemoryTable| ==> MemoryTable[i].0 in {"handlers", "ports", "revalidators", "rules", "keys"}
    ensures forall i, j :: 0 <= i < j < |MemoryTable| ==> MemoryTable[i].1.name != MemoryTable[j].1.name
    ensures PerfGauges(MemoryTable)
  {
  }

  // ---------------------------------------------------------------------
  // FindAllStringSubmatch with `(\w+):(\d+)`

  /** An occurrence of the expression: where it starts and its two captures. */
  datatype Token = Token(start: nat, key: string, value: DigitString)

  function End(t: Token): nat {
    t.start + |t.key| + 1 + |t.value|
  }

  predicate AllWord(s: string) {
    forall i :: 0 <= i < |s| ==> IsWordChar(s[i])
  }

  /**
   * The match of `(\w+):(\d+)` starting at the first character of `s`:
   * `\w+` cannot stop before a ':', so it is the whole word run; `\d+` is greedy.
   */
  function MatchAt(s: string): (r: Option<(string, DigitString)>)
    ensures r.Some? ==> |r.value.0| > 0 && |r.value.0| + 1 + |r.value.1| <= |s|
  {
    var n := SpanLen(s, IsWordChar);
    if n == 0 || n == |s| || s[n] != ':' then None
    else
      var d := SpanLen(s[n + 1..], IsDigit);
      if d == 0 then None else Some((s[..n], s[n + 1..n + 1 + d]))
  }

  /** `s` starts with a word, a colon and the longest run of digits after it. */
  predicate StartsWithToken(s: string, key: string, value: string, rest: string) {
    s == key + ":" + value + rest &&
    |key| > 0 && AllWord(key) && |value| > 0 && AllDigits(value) &&
    (|rest| == 0 || !IsDigit(rest[0]))
  }

  /** MatchAt finds a token exactly when the text starts with one, and captures its word and digits. */
  lemma MatchAtIff(s: string, key: string, value: string, rest: string)
    ensures StartsWithToken(s, key, value, rest) <==> MatchAt(s) == Some((key, value)) && rest == s[|key| + 1 + |value|..]
  {
    if StartsWithToken(s, key, value, rest) {
      MatchAtComplete(s, key, value, rest);
    }
    if MatchAt(s) == Some((key, value)) && rest == s[|key| + 1 + |value|..] {
      MatchAtSound(s);
    }
  }

  lemma MatchAtComplete(s: string, key: string, value: string, rest: string)
    requires StartsWithToken(s, key, value, rest)
    ensures MatchAt(s) == Some((key, value)) && rest == s[|key| + 1 + |value|..]
  {
    TokenPieces(s, key, value, rest);
    SpanLenOfConcat(key, ":" + value + rest, IsWordChar);
    SpanLenOfConcat(value, rest, IsDigit);
  }

  /** Where the pieces of a token sit in the text. */
  lemma TokenPieces(s: string, key: string, value: string, rest: string)
    requires s == key + ":" + value + rest
    ensures s == key + (":" + value + rest)
    ensures s[..|key|] == key && s[|key|] == ':' && s[|key| + 1..] == value + rest
    ensures s[|key| + 1..|key| + 1 + |value|] == value && s[|key| + 1 + |value|..] == rest
  {
    var n, d := |key|, |value|;
    var tail := ":" + (value + rest);
    assert s == key + tail by {
      Assoc4(key, ":", value, rest);
    }
    assert s[n..] == tail;
    assert s[n + 1..] == tail[1..];
    assert tail[1..] == value + rest;
  }

  /** Cutting the text around a colon at position n and after d more characters. */
  lemma SplitAtColon(s: string, n: nat, d: nat)
    requires n + 1 + d <= |s| && s[n] == ':'
    ensures s == s[..n] + ":" + s[n + 1..n + 1 + d] + s[n + 1 + d..]
  {
    var t := s[n + 1..];
    assert t == t[..d] + t[d..];
    assert s[n..] == ":" + t;
    assert s == s[..n] + (":" + (t[..d] + t[d..]));
    Assoc4(s[..n], ":", t[..d], t[d..]);
  }

  /** Regrouping a concatenation of four strings to the right. */
  lemma Assoc4(a: string, b: string, c: string, d: string)
    ensures a + b + c + d == a + (b + (c + d))
  {
  }

  lemma MatchAtSound(s: string)
    requires MatchAt(s).Some?
    ensures var (key, value) := MatchAt(s).value;
            StartsWithToken(s, key, value, s[|key| + 1 + |value|..])
  {
    var (key, value) := MatchAt(s).value;
    var n, d := |key|, |value|;
    var t := s[n + 1..];
    SplitAtColon(s, n, d);
    assert forall i :: 0 <= i < d ==> value[i] == t[i];
    assert forall i :: 0 <= i < n ==> key[i] == s[i];
    assert n + 1 + d < |s| ==> s[n + 1 + d] == t[d];
  }

  predicate TokenAt(s: string, t: Token) {
    t.start <= |s| && MatchAt(s[t.start..]) == Some((t.key, t.value))
  }

  /** The matches from `pos` on: the leftmost match, then the leftmost after its end, and so on. */
  function FindFrom(s: string, pos: nat): (ts: seq<Token>)
    requires pos <= |s|
    ensures forall i :: 0 <= i < |ts| ==> pos <= ts[i].start
    decreases |s| - pos
  {
    if pos == |s| then []
    else
      match MatchAt(s[pos..])
      case None => FindFrom(s, pos + 1)
      case Some((key, value)) =>
        var t := Token(pos, key, value);
        [t] + FindFrom(s, End(t))
  }

  function FindAll(s: string): seq<Token> {
    FindFrom(s, 0)
  }

  /** Every token is a match at its position. */
  predicate AllMatch(s: string, ts: seq<Token>) {
    forall i :: 0 <= i < |ts| ==> TokenAt(s, ts[i]) && End(ts[i]) <= |s|
  }

  /** The tokens follow each other without overlap. */
  predicate Ordered(ts: seq<Token>) {
    forall i :: 0 <= i < |ts| - 1 ==> End(ts[i]) <= ts[i + 1].start
  }

  lemma {:induction false} FindFromMatches(s: string, pos: nat)
    requires pos <= |s|
    ensures AllMatch(s, FindFrom(s, pos))
    decreases |s| - pos
  {
    if pos < |s| {
      var m := MatchAt(s[pos..]);
      if m.None? {
        assert FindFrom(s, pos) == FindFrom(s, pos + 1);
        FindFromMatches(s, pos + 1);
      } else {
        var t := Token(pos, m.value.0, m.value.1);
        var rest := FindFrom(s, End(t));
        assert FindFrom(s, pos) == [t] + rest;
        FindFromMatches(s, End(t));
        assert TokenAt(s, t);
        forall i | 0 <= i < |rest| + 1 ensures TokenAt(s, ([t] + rest)[i]) && End(([t] + rest)[i]) <= |s| {
          if i > 0 {
            assert ([t] + rest)[i] == rest[i - 1];
          }
        }
      }
    }
  }

  lemma {:induction false} FindFromOrdered(s: string, pos: nat)
    requires pos <= |s|
    ensures Ordered(FindFrom(s, pos))
    decreases |s| - pos
  {
    if pos < |s| {
      var m := MatchAt(s[pos..]);
      if m.None? {
        assert FindFrom(s, pos) == FindFrom(s, pos + 1);
        FindFromOrdered(s, pos + 1);
      } else {
        var t := Token(pos, m.value.0, m.value.1);
        var rest := FindFrom(s, End(t));
        assert FindFrom(s, pos) == [t] + rest;
        FindFromOrdered(s, End(t));
        forall i | 0 <= i < |rest| ensures End(([t] + rest)[i]) <= ([t] + rest)[i + 1].start {
          assert ([t] + rest)[i + 1] == rest[i];
          if i > 0 {
            assert ([t] + rest)[i] == rest[i - 1];
          }
        }
      }
    }
  }

  /** The tokens FindAll reports are matches, in textual order, without overlap. */
  lemma FindAllSound(s: string)
    ensures AllMatch(s, FindAll(s)) && Ordered(FindAll(s))
  {
    FindFromMatches(s, 0);
    FindFromOrdered(s, 0);
  }

  /** Position `p` lies inside one of the tokens. */
  predicate Covers(ts: seq<Token>, p: nat) {
    exists i :: 0 <= i < |ts| && ts[i].start <= p < End(ts[i])
  }

  /** Nothing is skipped: every position where the expression matches lies inside a reported match. */
  lemma {:induction false} FindFromCovers(s: string, pos: nat, p: nat)
    requires pos <= p < |s| && MatchAt(s[p..]).Some?
    ensures Covers(FindFrom(s, pos), p)
    decreases |s| - pos
  {
    var m := MatchAt(s[pos..]);
    if m.None? {
      assert p != pos;
      assert FindFrom(s, pos) == FindFrom(s, pos + 1);
      FindFromCovers(s, pos + 1, p);
    } else {
      var t := Token(pos, m.value.0, m.value.1);
      var rest := FindFrom(s, End(t));
      assert FindFrom(s, pos) == [t] + rest;
      if p >= End(t) {
        FindFromCovers(s, End(t), p);
        var i :| 0 <= i < |rest| && rest[i].start <= p < End(rest[i]);
        assert ([t] + rest)[i + 1] == rest[i];
      } else {
        assert ([t] + rest)[0] == t;
      }
    }
  }

  // ---------------------------------------------------------------------
  // Collect

  /** The sample of one match, if its key is in the table and its set active. */
  function TokenSample(active: MetricSet, table: Table, t: Token): (r: seq<Sample>)
    ensures |r| <= 1
    ensures |r| == 1 <==> Lookup(table, t.key).Some? && Has(active, Lookup(table, t.key).value.metricSet)
    ensures |r| == 1 ==> r[0] == Sample(Lookup(table, t.key).value, [], DigitsValue(t.value) as real)
  {
    match Lookup(table, t.key)
    case None => []
    case Some(m) => if Has(active, m.metricSet) then [Sample(m, [], DigitsValue(t.value) as real)] else []
  }

  function Samples(active: MetricSet, table: Table, ts: seq<Token>): (r: seq<Sample>)
    ensures |r| <= |ts|
  {
    if |ts| == 0 then [] else TokenSample(active, table, ts[0]) + Samples(active, table, ts[1..])
  }

  /** Collect: nothing for an empty reply; otherwise one sample per usable match, in textual order. */
  function Collect(active: MetricSet, reply: string): (r: seq<Sample>)
    ensures reply == "" ==> r == []
  {
    if reply == "" then [] else Samples(active, MemoryTable, FindAll(reply))
  }

  /** Matches are handled one at a time, in order. */
  lemma {:induction false} SamplesAppend(active: MetricSet, table: Table, a: seq<Token>, b: seq<Token>)
    ensures Samples(active, table, a + b) == Samples(active, table, a) + Samples(active, table, b)
  {
    if |a| == 0 {
      assert a + b == b;
    } else {
      assert (a + b)[1..] == a[1..] + b;
      assert (a + b)[0] == a[0];
      SamplesAppend(active, table, a[1..], b);
    }
  }

  /** A sample of an active metric of the table, without labels. */
  predicate FromTable(active: MetricSet, table: Table, x: Sample) {
    x.metric in Values(table) && x.labels == [] && Has(active, x.metric.metricSet)
  }

  predicate AllFromTable(active: MetricSet, table: Table, r: seq<Sample>) {
    forall k :: 0 <= k < |r| ==> FromTable(active, table, r[k])
  }

  lemma {:induction false} SamplesSound(active: MetricSet, table: Table, ts: seq<Token>)
    ensures AllFromTable(active, table, Samples(active, table, ts))
  {
    if |ts| > 0 {
      SamplesSound(active, table, ts[1..]);
      var head := TokenSample(active, table, ts[0]);
      var tail := Samples(active, table, ts[1..]);
      if |head| == 1 {
        LookupInValues(table, ts[0].key);
        assert FromTable(active, table, head[0]);
      }
      forall k | 0 <= k < |head + tail| ensures FromTable(active, table, (head + tail)[k]) {
        if k >= |head| {
          assert (head + tail)[k] == tail[k - |head|];
        }
      }
    }
  }

  /** Every metric of the table is an unlabelled PERF gauge. */
  predicate PerfGauges(t: Table) {
    forall i :: 0 <= i < |t| ==> t[i].1.metricSet == PERF && t[i].1.valueType == Gauge && t[i].1.labels == []
  }

  lemma TableSound(active: MetricSet, t: Table, r: seq<Sample>)
    requires PerfGauges(t) && AllFromTable(active, t, r)
    ensures forall k :: 0 <= k < |r| ==> r[k].metric.metricSet == PERF && r[k].metric.valueType == Gauge
  {
    forall k | 0 <= k < |r| ensures r[k].metric.metricSet == PERF && r[k].metric.valueType == Gauge {
      assert FromTable(active, t, r[k]);
      var i :| 0 <= i < |t| && Values(t)[i] == r[k].metric;
    }
  }

  /** Collected samples are unlabelled PERF gauges of the memory table, emitted only while PERF is active. */
  lemma CollectSound(active: MetricSet, reply: string)
    ensures AllFromTable(active, MemoryTable, Collect(active, reply))
    ensures forall k :: 0 <= k < |Collect(active, reply)| ==>
              Collect(active, reply)[k].metric.metricSet == PERF && Collect(active, reply)[k].metric.valueType == Gauge
  {
    MemoryTableShape();
    if reply != "" {
      SamplesSound(active, MemoryTable, FindAll(reply));
    }
    TableSound(active, MemoryTable, Collect(active, reply));
  }

  /** A word run that ends in something other than a colon starts no token. */
  lemma NoTokenBefore(s: string, p: nat, e: nat)
    requires p <= e < |s| && s[e] != ':' && !IsWordChar(s[e])
    requires forall i :: p <= i < e ==> IsWordChar(s[i])
    ensures MatchAt(s[p..]) == None
  {
    assert s[p..] == s[p..e] + s[e..];
    SpanLenOfConcat(s[p..e], s[e..], IsWordChar);
  }

  /**
   * Each token is a run of word characters, a colon and digits, copied from
   * the reply: a space or a dash ends a key, so `udpif keys:76` gives `keys`.
   */
  lemma FindAllTokens(s: string, i: nat)
    requires i < |FindAll(s)|
    ensures var t := FindAll(s)[i];
            |t.key| > 0 && AllWord(t.key) && |t.value| > 0 && End(t) <= |s| &&
            s[t.start..End(t)] == t.key + ":" + t.value &&
            (End(t) == |s| || !IsDigit(s[End(t)]))
  {
    FindFromMatches(s, 0);
    TokenShape(s, FindAll(s)[i]);
  }

  /** A token matched at its position is a word, a colon and the longest digit run there. */
  lemma TokenShape(s: string, t: Token)
    requires TokenAt(s, t) && End(t) <= |s|
    ensures |t.key| > 0 && AllWord(t.key) && |t.value| > 0 &&
            s[t.start..End(t)] == t.key + ":" + t.value &&
            (End(t) == |s| || !IsDigit(s[End(t)]))
  {
    var u := s[t.start..];
    var n := |t.key| + 1 + |t.value|;
    MatchAtSound(u);
    var x, rest := t.key + ":" + t.value, u[n..];
    assert u == x + rest && |x| == n;
    assert u[..n] == x by {
      assert (x + rest)[..|x|] == x;
    }
    assert s[t.start..End(t)] == u[..n];
    assert End(t) < |s| ==> s[End(t)] == rest[0];
  }
}
