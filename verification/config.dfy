/**
 * Metric sets: the bitmask every collector consults before emitting a
 * sample, its textual form, and the parsing of the configured names.
 */
module Config {
  import opened Wrappers
  import opened Text

  /** A set of metric groups, as bits; every named group lies in the low byte. */
  type MetricSet = bv8

  // The first group constant is `1 << iota` on the second line of the
  // constant block, so the groups start at bit 1, not bit 0.
  const NONE: MetricSet := 0
  const BASE: MetricSet := 2
  const ERRORS: MetricSet := 4
  const PERF: MetricSet := 8
  const COUNTERS: MetricSet := 16
  const DEBUG: MetricSet := 32
  const DEFAULT: MetricSet := BASE | ERRORS | PERF | COUNTERS

  /** The named groups, in the order their names are listed. */
  const Named: seq<(string, MetricSet)> :=
    [("base", BASE), ("errors", ERRORS), ("perf", PERF), ("counters", COUNTERS), ("debug", DEBUG)]

  /** `s` contains every group of `o`. */
  predicate Has(s: MetricSet, o: MetricSet) {
    s & o == o
  }

  /** The union of the named groups from index `i` on. */
  function MaskFrom(i: nat): MetricSet
    decreases |Named| - i
  {
    if i >= |Named| then 0 else Named[i].1 | MaskFrom(i + 1)
  }

  /** Every named group. */
  const ALL: MetricSet := MaskFrom(0)

  lemma AllIsNamedUnion()
    ensures ALL == BASE | ERRORS | PERF | COUNTERS | DEBUG
  {
    assert MaskFrom(5) == 0;
    assert MaskFrom(4) == DEBUG;
  }

  lemma HasLaws(s: MetricSet, a: MetricSet, b: MetricSet)
    ensures Has(s, NONE)
    ensures Has(NONE, a) <==> a == NONE
    ensures Has(s, a | b) <==> Has(s, a) && Has(s, b)
  {
  }

  lemma DefaultSets()
    ensures Has(DEFAULT, BASE) && Has(DEFAULT, ERRORS) && Has(DEFAULT, PERF) && Has(DEFAULT, COUNTERS)
    ensures !Has(DEFAULT, DEBUG)
  {
  }

  // ---------------------------------------------------------------------
  // String

  /** The names of the groups in `s` from index `i` on, in table order. */
  function NamesFrom(s: MetricSet, i: nat): seq<string>
    decreases |Named| - i
  {
    if i >= |Named| then []
    else (if Has(s, Named[i].1) then [Named[i].0] else []) + NamesFrom(s, i + 1)
  }

  /** The comma-separated names of the groups in `s`. */
  function String(s: MetricSet): string {
    Join(NamesFrom(s, 0), ",")
  }

  /** A name is listed iff its group is in the set; names keep table order. */
  lemma {:induction false} NamesFromContents(s: MetricSet, i: nat, j: nat)
    requires i <= |Named| && j < |Named|
    ensures Named[j].0 in NamesFrom(s, i) <==> (i <= j && Has(s, Named[j].1))
    decreases |Named| - i
  {
    if i < |Named| {
      NamesFromContents(s, i + 1, j);
      NamedNamesDistinct();
      var rest := NamesFrom(s, i + 1);
      assert NamesFrom(s, i) == (if Has(s, Named[i].1) then [Named[i].0] else []) + rest;
    }
  }

  /** The five names are distinct. */
  lemma NamedNamesDistinct()
    ensures forall a, b :: 0 <= a < b < |Named| ==> Named[a].0 != Named[b].0
  {
  }

  lemma StringOfNone()
    ensures String(NONE) == ""
  {
    assert NamesFrom(NONE, 5) == [];
    assert NamesFrom(NONE, 4) == [];
    assert NamesFrom(NONE, 3) == [];
    assert NamesFrom(NONE, 2) == [];
    assert NamesFrom(NONE, 1) == [];
  }

  // ---------------------------------------------------------------------
  // ParseMetricSets

  /** The group a configured name selects, ignoring case. */
  function SetOfName(name: string): Option<MetricSet> {
    var n := ToLower(name);
    if n == "base" then Some(BASE)
    else if n == "errors" then Some(ERRORS)
    else if n == "perf" then Some(PERF)
    else if n == "counters" then Some(COUNTERS)
    else if n == "debug" then Some(DEBUG)
    else None
  }

  /** The union of the named groups; the first unknown name is the error. */
  function ParseNames(names: seq<string>): (r: Result<MetricSet, string>)
    ensures r.Success? <==> forall k :: 0 <= k < |names| ==> SetOfName(names[k]).Some?
    ensures r.Success? ==> forall k :: 0 <= k < |names| ==> Has(r.value, SetOfName(names[k]).value)
    ensures r.Failure? ==> r.error in names && SetOfName(r.error).None?
  {
    if |names| == 0 then Success(NONE)
    else
      match SetOfName(names[0])
      case None => Failure(names[0])
      case Some(b) =>
        match ParseNames(names[1..])
        case Failure(e) => Failure(e)
        case Success(rest) => Success(b | rest)
  }

  /** A failure reports the first unknown name: every name before it is known. */
  lemma {:induction false} ParseNamesFirstFailure(names: seq<string>)
    requires ParseNames(names).Failure?
    ensures exists k :: 0 <= k < |names| && names[k] == ParseNames(names).error
              && SetOfName(names[k]).None? && forall j :: 0 <= j < k ==> SetOfName(names[j]).Some?
  {
    if SetOfName(names[0]).None? {
      assert names[0] == ParseNames(names).error;
    } else {
      ParseNamesFirstFailure(names[1..]);
      var k :| 0 <= k < |names| - 1 && names[1..][k] == ParseNames(names[1..]).error
                && SetOfName(names[1..][k]).None? && forall j :: 0 <= j < k ==> SetOfName(names[1..][j]).Some?;
      assert names[k + 1] == ParseNames(names).error;
      assert forall j :: 0 < j < k + 1 ==> SetOfName(names[j]).Some? by {
        assert forall j :: 0 < j < k + 1 ==> names[j] == names[1..][j - 1];
      }
    }
  }

  /** The configured metric sets; no names at all selects DEFAULT. */
  function ParseMetricSets(names: seq<string>): (r: Result<MetricSet, string>)
    ensures |names| == 0 ==> r == Success(DEFAULT)
    ensures |names| > 0 ==> r == ParseNames(names)
  {
    if |names| == 0 then Success(DEFAULT) else ParseNames(names)
  }

  /** Every group of a parsed set was named by one of the names. */
  lemma {:induction false} ParseNamesMinimal(names: seq<string>, b: MetricSet)
    requires ParseNames(names).Success?
    requires b in {BASE, ERRORS, PERF, COUNTERS, DEBUG}
    ensures Has(ParseNames(names).value, b) <==> exists k :: 0 <= k < |names| && SetOfName(names[k]) == Some(b)
  {
    if |names| > 0 {
      ParseNamesMinimal(names[1..], b);
      if exists k :: 0 <= k < |names| - 1 && SetOfName(names[1..][k]) == Some(b) {
        var k :| 0 <= k < |names| - 1 && SetOfName(names[1..][k]) == Some(b);
        assert SetOfName(names[k + 1]) == Some(b);
      }
      if exists k :: 0 <= k < |names| && SetOfName(names[k]) == Some(b) {
        var k :| 0 <= k < |names| && SetOfName(names[k]) == Some(b);
        if k > 0 {
          assert SetOfName(names[1..][k - 1]) == Some(b);
        }
      }
    }
  }

  /** Parsing one more name adds its group. */
  lemma {:induction false} ParseNamesAppend(names: seq<string>, x: string)
    ensures ParseNames(names).Failure? ==> ParseNames(names + [x]) == ParseNames(names)
    ensures ParseNames(names).Success? && SetOfName(x).Some? ==>
              ParseNames(names + [x]) == Success(ParseNames(names).value | SetOfName(x).value)
  {
    if |names| > 0 {
      assert (names + [x])[1..] == names[1..] + [x];
      ParseNamesAppend(names[1..], x);
    }
  }

  /** Repeating a name changes nothing. */
  lemma ParseNamesRepeat(names: seq<string>, k: nat)
    requires k < |names|
    ensures ParseNames(names + [names[k]]) == ParseNames(names)
  {
    var more := names + [names[k]];
    if ParseNames(names).Success? {
      var a := ParseNames(names).value;
      var x := SetOfName(names[k]).value;
      assert Has(a, x);
      ParseNamesAppend(names, names[k]);
      assert a | x == a;
    } else {
      ParseNamesAppend(names, names[k]);
    }
  }

  /** A parsed set holds named groups only. */
  lemma {:induction false} ParseNamesWithin(names: seq<string>)
    requires ParseNames(names).Success?
    ensures Has(ALL, ParseNames(names).value)
  {
    AllIsNamedUnion();
    if |names| > 0 {
      ParseNamesWithin(names[1..]);
    }
  }

  /** Names are matched ignoring ASCII case. */
  lemma SetOfNameIgnoresCase(name: string)
    ensures SetOfName(ToLower(name)) == SetOfName(name)
  {
    var n := ToLower(name);
    assert ToLower(n) == n;
  }

  // ---------------------------------------------------------------------
  // Round trip

  lemma SetOfNamedName(i: nat)
    requires i < |Named|
    ensures SetOfName(Named[i].0) == Some(Named[i].1)
  {
    var n := Named[i].0;
    assert ToLower(n) == n;
  }

  lemma ParseNamesCons(n: string, rest: seq<string>)
    requires SetOfName(n).Some? && ParseNames(rest).Success?
    ensures ParseNames([n] + rest) == Success(SetOfName(n).value | ParseNames(rest).value)
  {
    var names := [n] + rest;
    assert names[0] == n && names[1..] == rest;
  }

  /** Each named group is a single bit. */
  predicate SingleBit(b: MetricSet) {
    b != 0 && b & (b - 1) == 0
  }

  lemma NamedSingleBit(i: nat)
    requires i < |Named|
    ensures SingleBit(Named[i].1)
  {
    var b := Named[i].1;
    assert b == BASE || b == ERRORS || b == PERF || b == COUNTERS || b == DEBUG;
  }

  lemma SingleBitSplit(s: MetricSet, b: MetricSet, m: MetricSet, u: MetricSet)
    requires SingleBit(b) && u == b | m
    ensures Has(s, b) ==> s & u == b | (s & m)
    ensures !Has(s, b) ==> s & u == s & m
  {
  }

  lemma MaskFromSplit(s: MetricSet, i: nat)
    requires i < |Named|
    ensures Has(s, Named[i].1) ==> s & MaskFrom(i) == Named[i].1 | (s & MaskFrom(i + 1))
    ensures !Has(s, Named[i].1) ==> s & MaskFrom(i) == s & MaskFrom(i + 1)
  {
    NamedSingleBit(i);
    SingleBitSplit(s, Named[i].1, MaskFrom(i + 1), MaskFrom(i));
  }

  lemma ParseNamesStep(s: MetricSet, i: nat)
    requires i < |Named|
    requires ParseNames(NamesFrom(s, i + 1)) == Success(s & MaskFrom(i + 1))
    ensures ParseNames(NamesFrom(s, i)) == Success(s & MaskFrom(i))
  {
    var rest := NamesFrom(s, i + 1);
    MaskFromSplit(s, i);
    if Has(s, Named[i].1) {
      assert NamesFrom(s, i) == [Named[i].0] + rest;
      SetOfNamedName(i);
      ParseNamesCons(Named[i].0, rest);
    } else {
      assert NamesFrom(s, i) == rest;
    }
  }

  lemma {:induction false} ParseNamesFrom(s: MetricSet, i: nat)
    requires i <= |Named|
    ensures ParseNames(NamesFrom(s, i)) == Success(s & MaskFrom(i))
    decreases |Named| - i
  {
    if i < |Named| {
      ParseNamesFrom(s, i + 1);
      ParseNamesStep(s, i);
    }
  }

  lemma NamesHaveNoComma(s: MetricSet, i: nat)
    requires i <= |Named|
    ensures forall k :: 0 <= k < |NamesFrom(s, i)| ==> ',' !in NamesFrom(s, i)[k]
    decreases |Named| - i
  {
    if i < |Named| {
      NamesHaveNoComma(s, i + 1);
    }
  }

  /** Parsing the listed names of a non-empty set of named groups gives the set back. */
  lemma StringRoundTrip(s: MetricSet)
    requires s != NONE && Has(ALL, s)
    ensures ParseMetricSets(Split(String(s), ',')) == Success(s)
  {
    var names := NamesFrom(s, 0);
    ParseNamesFrom(s, 0);
    assert s & ALL == s;
    if |names| == 0 {
      assert false;
    }
    NamesHaveNoComma(s, 0);
    SplitJoin(names, ',');
  }
}
