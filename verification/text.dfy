/**
 * Character classes, line splitting and number parsing shared by the text
 * parsers. Each function mirrors the Go library routine it is named after
 * (bufio.ScanLines, strings.Split/Join/TrimSpace/Fields/ToLower,
 * strconv.Itoa/Atoi/ParseUint) on the inputs the exporter gives it.
 */
module Text {
  import opened Wrappers

  // ---------------------------------------------------------------------
  // Character classes

  predicate IsDigit(c: char) {
    '0' <= c <= '9'
  }

  /** RE2's `\w`: ASCII letters, digits and underscore. */
  predicate IsWordChar(c: char) {
    'a' <= c <= 'z' || 'A' <= c <= 'Z' || IsDigit(c) || c == '_'
  }

  /** RE2's `\s`: tab, newline, form feed, carriage return and space. */
  predicate IsSpace(c: char) {
    c == '\t' || c == '\n' || c == '\U{0C}' || c == '\r' || c == ' '
  }

  /** Go's unicode.IsSpace, used by strings.TrimSpace and strings.Fields. */
  predicate IsUnicodeSpace(c: char) {
    || IsSpace(c) || c == '\U{0B}' || c == '\U{85}' || c == '\U{A0}' || c == '\U{1680}'
    || ('\U{2000}' <= c <= '\U{200A}') || c == '\U{2028}' || c == '\U{2029}'
    || c == '\U{202F}' || c == '\U{205F}' || c == '\U{3000}'
  }

  predicate AllDigits(s: string) {
    forall i :: 0 <= i < |s| ==> IsDigit(s[i])
  }

  predicate AllSpace(s: string) {
    forall i :: 0 <= i < |s| ==> IsSpace(s[i])
  }

  // ---------------------------------------------------------------------
  // Searching and spans

  /** Index of the first `c` in `s`, or `|s|` when there is none. */
  function IndexOf(s: string, c: char): (i: nat)
    ensures i <= |s|
    ensures i < |s| ==> s[i] == c
    ensures forall k :: 0 <= k < i ==> s[k] != c
  {
    if |s| == 0 then 0
    else if s[0] == c then 0
    else 1 + IndexOf(s[1..], c)
  }

  /** Length of the longest prefix of `s` whose characters all satisfy `p`. */
  function SpanLen(s: string, p: char -> bool): (n: nat)
    ensures n <= |s|
    ensures forall k :: 0 <= k < n ==> p(s[k])
    ensures n < |s| ==> !p(s[n])
  {
    if |s| == 0 || !p(s[0]) then 0 else 1 + SpanLen(s[1..], p)
  }

  /** Length of the longest suffix of `s` whose characters all satisfy `p`. */
  function BackSpanLen(s: string, p: char -> bool): (n: nat)
    ensures n <= |s|
    ensures forall k :: |s| - n <= k < |s| ==> p(s[k])
    ensures n < |s| ==> !p(s[|s| - n - 1])
  {
    if |s| == 0 || !p(s[|s| - 1]) then 0 else 1 + BackSpanLen(s[..|s| - 1], p)
  }

  /** The span stops exactly where a run of `p` characters is followed by a non-`p` one. */
  lemma {:induction false} SpanLenOfConcat(a: string, b: string, p: char -> bool)
    requires forall k :: 0 <= k < |a| ==> p(a[k])
    requires |b| == 0 || !p(b[0])
    ensures SpanLen(a + b, p) == |a|
  {
    if |a| > 0 {
      assert (a + b)[1..] == a[1..] + b;
      SpanLenOfConcat(a[1..], b, p);
    } else {
      assert a + b == b;
    }
  }

  /** A run of `p` characters in front lengthens the span by its length. */
  lemma {:induction false} SpanLenAppend(a: string, b: string, p: char -> bool)
    requires forall k :: 0 <= k < |a| ==> p(a[k])
    ensures SpanLen(a + b, p) == |a| + SpanLen(b, p)
  {
    if |a| > 0 {
      assert (a + b)[1..] == a[1..] + b;
      SpanLenAppend(a[1..], b, p);
    } else {
      assert a + b == b;
    }
  }

  /** The backward span stops exactly where a run of `p` characters is preceded by a non-`p` one. */
  lemma {:induction false} BackSpanLenOfConcat(a: string, b: string, p: char -> bool)
    requires forall k :: 0 <= k < |b| ==> p(b[k])
    requires |a| == 0 || !p(a[|a| - 1])
    ensures BackSpanLen(a + b, p) == |b|
    decreases |b|
  {
    if |b| > 0 {
      var b' := b[..|b| - 1];
      assert (a + b)[..|a + b| - 1] == a + b';
      assert (a + b)[|a + b| - 1] == b[|b| - 1];
      BackSpanLenOfConcat(a, b', p);
    } else {
      assert a + b == a;
    }
  }

  // ---------------------------------------------------------------------
  // strings.ToLower, restricted to ASCII

  function LowerChar(c: char): (r: char)
    ensures 'A' <= c <= 'Z' ==> 'a' <= r <= 'z'
    ensures !('A' <= c <= 'Z') ==> r == c
  {
    if 'A' <= c <= 'Z' then (c as int + 32) as char else c
  }

  function ToLower(s: string): (r: string)
    ensures |r| == |s|
    ensures forall i :: 0 <= i < |s| ==> r[i] == LowerChar(s[i])
  {
    seq(|s|, i requires 0 <= i < |s| => LowerChar(s[i]))
  }

  // ---------------------------------------------------------------------
  // strings.Join and strings.Split with a one-character separator

  function Join(parts: seq<string>, sep: string): string {
    if |parts| == 0 then ""
    else if |parts| == 1 then parts[0]
    else parts[0] + sep + Join(parts[1..], sep)
  }

  /** strings.Split(s, [c]): never empty; the empty string gives `[""]`. */
  function Split(s: string, c: char): (parts: seq<string>)
    ensures |parts| >= 1
    ensures forall k :: 0 <= k < |parts| ==> c !in parts[k]
    decreases |s|
  {
    var i := IndexOf(s, c);
    if i == |s| then [s] else [s[..i]] + Split(s[i + 1..], c)
  }

  lemma IndexOfAfterPrefix(a: string, b: string, c: char)
    requires c !in a
    ensures IndexOf(a + [c] + b, c) == |a|
  {
    var s := a + [c] + b;
    assert s[|a|] == c;
    assert forall k :: 0 <= k < |a| ==> s[k] == a[k];
  }

  /** Splitting undoes joining, as long as no part contains the separator. */
  lemma {:induction false} SplitJoin(parts: seq<string>, c: char)
    requires |parts| >= 1
    requires forall k :: 0 <= k < |parts| ==> c !in parts[k]
    ensures Split(Join(parts, [c]), c) == parts
  {
    if |parts| == 1 {
      var s := parts[0];
      assert forall k :: 0 <= k < |s| ==> s[k] in s;
    } else {
      var a, rest := parts[0], parts[1..];
      var b := Join(rest, [c]);
      var s := Join(parts, [c]);
      assert s == a + [c] + b;
      IndexOfAfterPrefix(a, b, c);
      AroundSeparator(a, b, c);
      assert Split(s, c) == [a] + Split(b, c);
      assert forall k :: 0 <= k < |rest| ==> c !in rest[k] by {
        forall k | 0 <= k < |rest| ensures c !in rest[k] {
          assert rest[k] == parts[k + 1];
        }
      }
      SplitJoin(rest, c);
      assert parts == [a] + rest;
    }
  }

  /** The text before and after the separator. */
  lemma AroundSeparator(a: string, b: string, c: char)
    ensures (a + [c] + b)[..|a|] == a && (a + [c] + b)[|a| + 1..] == b
  {
  }

  // ---------------------------------------------------------------------
  // strings.TrimSpace and strings.Fields

  function TrimLeft(s: string): (r: string)
    ensures |r| <= |s| && r == s[|s| - |r|..]
    ensures forall k :: 0 <= k < |s| - |r| ==> IsUnicodeSpace(s[k])
    ensures |r| > 0 ==> !IsUnicodeSpace(r[0])
  {
    if |s| > 0 && IsUnicodeSpace(s[0]) then TrimLeft(s[1..]) else s
  }

  function TrimRight(s: string): (r: string)
    ensures |r| <= |s| && r == s[..|r|]
    ensures forall k :: |r| <= k < |s| ==> IsUnicodeSpace(s[k])
    ensures |r| > 0 ==> !IsUnicodeSpace(r[|r| - 1])
  {
    if |s| > 0 && IsUnicodeSpace(s[|s| - 1]) then TrimRight(s[..|s| - 1]) else s
  }

  /** strings.TrimSpace: the longest infix with no Unicode space at either end. */
  function TrimSpace(s: string): (r: string)
    ensures |r| == 0 || (!IsUnicodeSpace(r[0]) && !IsUnicodeSpace(r[|r| - 1]))
  {
    TrimRight(TrimLeft(s))
  }

  /** A character that strings.Fields keeps inside a field. */
  predicate InField(c: char) {
    !IsUnicodeSpace(c)
  }

  /** strings.Fields: the maximal runs of non-space characters, in order. */
  function Fields(s: string): (fs: seq<string>)
    ensures forall k :: 0 <= k < |fs| ==> |fs[k]| > 0
    decreases |s|
  {
    var t := TrimLeft(s);
    if |t| == 0 then []
    else
      var n := SpanLen(t, InField);
      assert n > 0 by { assert InField(t[0]); }
      [t[..n]] + Fields(t[n..])
  }

  // ---------------------------------------------------------------------
  // bufio.Scanner with ScanLines

  function DropCR(line: string): string {
    if |line| > 0 && line[|line| - 1] == '\r' then line[..|line| - 1] else line
  }

  /**
   * The lines bufio.ScanLines yields: split at each newline, one trailing
   * carriage return removed from each line, and no final empty line after
   * a trailing newline.
   */
  function Lines(s: string): (ls: seq<string>)
    ensures forall k :: 0 <= k < |ls| ==> '\n' !in ls[k]
    decreases |s|
  {
    if |s| == 0 then []
    else
      var i := IndexOf(s, '\n');
      if i == |s| then [DropCR(s)] else [DropCR(s[..i])] + Lines(s[i + 1..])
  }

  predicate NoCR(s: string) {
    forall k :: 0 <= k < |s| ==> s[k] != '\r'
  }

  lemma LinesUnfold(s: string)
    requires IndexOf(s, '\n') < |s|
    ensures Lines(s) == [DropCR(s[..IndexOf(s, '\n')])] + Lines(s[IndexOf(s, '\n') + 1..])
  {
  }

  lemma JoinCons(h: string, rest: seq<string>, sep: string)
    requires |rest| > 0
    ensures Join([h] + rest, sep) == h + sep + Join(rest, sep)
  {
    assert ([h] + rest)[1..] == rest;
  }

  /** The newline that ends a reply, if any. */
  function Trailer(s: string): string {
    if |s| > 0 && s[|s| - 1] == '\n' then "\n" else ""
  }

  /** Joining the lines again gives back a reply without carriage returns. */
  lemma {:induction false} LinesJoin(s: string)
    requires NoCR(s)
    ensures Join(Lines(s), "\n") + Trailer(s) == s
    decreases |s|
  {
    if |s| > 0 {
      var i := IndexOf(s, '\n');
      if i == |s| {
        assert DropCR(s) == s;
      } else {
        var tail := s[i + 1..];
        LinesJoin(tail);
        LinesJoinStep(s, i);
      }
    }
  }

  lemma LinesJoinStep(s: string, i: nat)
    requires NoCR(s)
    requires i == IndexOf(s, '\n') < |s|
    requires Join(Lines(s[i + 1..]), "\n") + Trailer(s[i + 1..]) == s[i + 1..]
    ensures Join(Lines(s), "\n") + Trailer(s) == s
  {
    var head := s[..i];
    var tail := s[i + 1..];
    LinesHead(s, i);
    CutAt(s, i);
    if |tail| == 0 {
      LinesJoinLast(s, head);
    } else {
      LinesJoinCons(s, head, tail);
    }
  }

  lemma LinesHead(s: string, i: nat)
    requires NoCR(s)
    requires i == IndexOf(s, '\n') < |s|
    ensures Lines(s) == [s[..i]] + Lines(s[i + 1..])
  {
    assert DropCR(s[..i]) == s[..i];
    LinesUnfold(s);
  }

  lemma CutAt(s: string, i: nat)
    requires i < |s| && s[i] == '\n'
    ensures s == s[..i] + "\n" + s[i + 1..]
  {
    assert s[i..] == "\n" + s[i + 1..];
    assert s == s[..i] + s[i..];
  }

  /** A string is the text before position `i`, the character there, and the text after. */
  lemma SplitAround(s: string, i: nat)
    requires i < |s|
    ensures s == s[..i] + [s[i]] + s[i + 1..]
  {
    assert s[i..] == [s[i]] + s[i + 1..];
    assert s == s[..i] + s[i..];
  }

  lemma LinesJoinLast(s: string, head: string)
    requires s == head + "\n"
    requires Lines(s) == [head] + Lines("")
    ensures Join(Lines(s), "\n") + Trailer(s) == s
  {
    assert Trailer(s) == "\n";
  }

  lemma LinesJoinCons(s: string, head: string, tail: string)
    requires s == head + "\n" + tail && |tail| > 0
    requires Lines(s) == [head] + Lines(tail)
    requires Join(Lines(tail), "\n") + Trailer(tail) == tail
    ensures Join(Lines(s), "\n") + Trailer(s) == s
  {
    assert |Lines(tail)| > 0;
    JoinCons(head, Lines(tail), "\n");
    assert Trailer(s) == Trailer(tail);
    calc {
      Join(Lines(s), "\n") + Trailer(s);
      (head + "\n" + Join(Lines(tail), "\n")) + Trailer(tail);
      head + "\n" + (Join(Lines(tail), "\n") + Trailer(tail));
      head + "\n" + tail;
    }
  }

  // ---------------------------------------------------------------------
  // Decimal numbers

  function DigitValue(c: char): (d: nat)
    requires IsDigit(c)
    ensures d < 10
  {
    (c as int) - ('0' as int)
  }

  function DigitChar(d: nat): (c: char)
    requires d < 10
    ensures IsDigit(c) && DigitValue(c) == d
  {
    ('0' as int + d) as char
  }

  /** A string of decimal digits, the capture of a `\d+` or `\d*` group. */
  type DigitString = s: string | AllDigits(s)

  /** The value of a decimal digit string (the empty string reads as 0). */
  function DigitsValue(s: string): nat
    requires AllDigits(s)
  {
    if |s| == 0 then 0 else 10 * DigitsValue(s[..|s| - 1]) + DigitValue(s[|s| - 1])
  }

  function Pow10(n: nat): (r: nat)
    ensures r >= 1
  {
    if n == 0 then 1 else 10 * Pow10(n - 1)
  }

  /** A digit string of length n denotes a value below 10^n. */
  lemma {:induction false} DigitsValueBound(s: string)
    requires AllDigits(s)
    ensures DigitsValue(s) < Pow10(|s|)
  {
    if |s| > 0 {
      DigitsValueBound(s[..|s| - 1]);
    }
  }

  /** strconv.Itoa on a non-negative value. */
  function NatToString(n: nat): (s: string)
    ensures |s| >= 1 && AllDigits(s)
    ensures |s| > 1 ==> s[0] != '0'
    decreases n
  {
    if n < 10 then [DigitChar(n)] else NatToString(n / 10) + [DigitChar(n % 10)]
  }

  /** Reading back the decimal rendering of `n` gives `n`. */
  lemma {:induction false} NatToStringRoundTrip(n: nat)
    ensures DigitsValue(NatToString(n)) == n
    decreases n
  {
    var s := NatToString(n);
    if n >= 10 {
      NatToStringRoundTrip(n / 10);
      assert s[..|s| - 1] == NatToString(n / 10);
    } else {
      assert s[..|s| - 1] == [];
    }
  }

  /** Distinct values have distinct renderings. */
  lemma NatToStringInjective(a: nat, b: nat)
    requires NatToString(a) == NatToString(b)
    ensures a == b
  {
    NatToStringRoundTrip(a);
    NatToStringRoundTrip(b);
  }

  const MaxUint64: nat := 0xFFFF_FFFF_FFFF_FFFF
  const MaxInt64: int := 0x7FFF_FFFF_FFFF_FFFF
  const MinInt64: int := -0x8000_0000_0000_0000

  /**
   * The value strconv.ParseUint(s, 10, 64) returns when its error is
   * ignored: 0 on a syntax error, the largest uint64 on overflow.
   */
  function ParseUintValue(s: string): (v: nat)
    ensures v <= MaxUint64
    ensures |s| > 0 && AllDigits(s) && DigitsValue(s) <= MaxUint64 ==> v == DigitsValue(s)
    ensures !(|s| > 0 && AllDigits(s)) ==> v == 0
  {
    if |s| == 0 || !AllDigits(s) then 0
    else if DigitsValue(s) > MaxUint64 then MaxUint64
    else DigitsValue(s)
  }

  /** strconv.Atoi on a 64-bit platform: an optional sign, digits, no overflow. */
  function Atoi(s: string): (r: Option<int>)
    ensures r.Some? ==> MinInt64 <= r.value <= MaxInt64
    ensures |s| > 0 && AllDigits(s) ==> (r.Some? <==> DigitsValue(s) <= MaxInt64)
    ensures |s| > 0 && AllDigits(s) && r.Some? ==> r.value == DigitsValue(s)
  {
    if |s| > 0 && (s[0] == '+' || s[0] == '-') then
      var d := s[1..];
      if |d| == 0 || !AllDigits(d) then None
      else
        var v := if s[0] == '-' then -(DigitsValue(d) as int) else DigitsValue(d);
        if MinInt64 <= v <= MaxInt64 then Some(v) else None
    else if |s| == 0 || !AllDigits(s) then None
    else if DigitsValue(s) <= MaxInt64 then Some(DigitsValue(s))
    else None
  }

  /**
   * strconv.ParseFloat on a string of digits and dots (the only strings the
   * exporter hands it from a `[\d\.]+` capture): accepted iff it holds at
   * most one dot and at least one digit.
   */
  function ParseDecimal(s: string): (r: Option<real>)
    ensures r.Some? ==> |s| > 0
    ensures r.Some? ==> r.value >= 0.0
  {
    var i := IndexOf(s, '.');
    if i == |s| then
      if |s| > 0 && AllDigits(s) then Some(DigitsValue(s) as real) else None
    else
      var whole := s[..i];
      var frac := s[i + 1..];
      if AllDigits(whole) && AllDigits(frac) && |whole| + |frac| > 0 then
        Some(DecimalValue(whole, frac))
      else None
  }

  /** The value of the decimal `whole.frac`. */
  function DecimalValue(whole: string, frac: string): real
    requires AllDigits(whole) && AllDigits(frac)
  {
    DigitsValue(whole) as real + DigitsValue(frac) as real / Pow10(|frac|) as real
  }

  /** A plain digit string parses to its integer value. */
  lemma ParseDecimalOfDigits(s: string)
    requires |s| > 0 && AllDigits(s)
    ensures ParseDecimal(s) == Some(DigitsValue(s) as real)
  {
    assert forall k :: 0 <= k < |s| ==> s[k] != '.';
  }

  lemma RatioBelowOne(d: real, p: real)
    requires 0.0 <= d < p
    ensures d / p < 1.0
  {
    var q := d / p;
    assert q * p == d;
  }

  /** The fractional part of a decimal contributes less than one. */
  lemma FractionBelowOne(f: string)
    requires AllDigits(f)
    ensures DigitsValue(f) as real / Pow10(|f|) as real < 1.0
  {
    DigitsValueBound(f);
    RatioBelowOne(DigitsValue(f) as real, Pow10(|f|) as real);
  }

  lemma NoDotInDigits(s: string)
    requires AllDigits(s)
    ensures '.' !in s
  {
  }

  /** `w.f` parses to its decimal value. */
  lemma ParseDecimalOfFraction(w: string, f: string)
    requires AllDigits(w) && AllDigits(f) && |w| + |f| > 0
    ensures ParseDecimal(w + "." + f) == Some(DecimalValue(w, f))
  {
    var s := w + "." + f;
    NoDotInDigits(w);
    IndexOfAfterPrefix(w, f, '.');
    assert IndexOf(s, '.') == |w|;
    assert s[..|w|] == w;
    assert s[|w| + 1..] == f;
  }

  /** A second dot makes the parse fail, as strconv.ParseFloat does. */
  lemma ParseDecimalRejectsTwoDots(a: string, b: string, c: string)
    requires AllDigits(a) && AllDigits(b)
    ensures ParseDecimal(a + "." + b + "." + c) == None
  {
    var s := a + "." + b + "." + c;
    assert s[|a|] == '.';
    assert forall k :: 0 <= k < |a| ==> s[k] == a[k] && s[k] != '.';
    var frac := s[|a| + 1..];
    assert frac[|b|] == '.';
    assert !AllDigits(frac);
  }
}
