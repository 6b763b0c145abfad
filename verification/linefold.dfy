/**
 * The shape every line-oriented collector shares: a scan over the lines of
 * a daemon reply that carries a parse context from one line to the next
 * and emits samples as it goes. A collector supplies its step function;
 * the lemmas here turn facts about one step into facts about the scan.
 */
module LineFold {
  import opened Wrappers
  import opened Registry

  /** Run `step` over `lines` from `ctx`: the final context and every sample, in line order. */
  function Fold<C>(step: (C, string) -> (C, seq<Sample>), ctx: C, lines: seq<string>): (r: (C, seq<Sample>))
    decreases |lines|
  {
    if |lines| == 0 then (ctx, [])
    else
      var first := step(ctx, lines[0]);
      var rest := Fold(step, first.0, lines[1..]);
      (rest.0, first.1 + rest.1)
  }

  /** Scanning two blocks of lines is scanning the first, then the second from where it left off. */
  lemma {:induction false} FoldAppend<C>(step: (C, string) -> (C, seq<Sample>), ctx: C, a: seq<string>, b: seq<string>)
    ensures var fa := Fold(step, ctx, a);
            var fb := Fold(step, fa.0, b);
            Fold(step, ctx, a + b) == (fb.0, fa.1 + fb.1)
    decreases |a|
  {
    var fa := Fold(step, ctx, a);
    var fb := Fold(step, fa.0, b);
    if |a| == 0 {
      assert a + b == b;
      assert fa.1 + fb.1 == fb.1;
    } else {
      var first := step(ctx, a[0]);
      var mid := Fold(step, first.0, a[1..]);
      assert (a + b)[1..] == a[1..] + b;
      assert (a + b)[0] == a[0];
      FoldAppend(step, first.0, a[1..], b);
      assert fa == (mid.0, first.1 + mid.1);
      assert Fold(step, first.0, a[1..] + b) == (fb.0, mid.1 + fb.1);
      assert first.1 + (mid.1 + fb.1) == (first.1 + mid.1) + fb.1;
    }
  }

  /** One more line adds exactly what its step emits in the context the earlier lines left. */
  lemma FoldSnoc<C>(step: (C, string) -> (C, seq<Sample>), ctx: C, a: seq<string>, line: string)
    ensures var fa := Fold(step, ctx, a);
            var s := step(fa.0, line);
            Fold(step, ctx, a + [line]) == (s.0, fa.1 + s.1)
  {
    FoldAppend(step, ctx, a, [line]);
    var fa := Fold(step, ctx, a);
    var s := step(fa.0, line);
    assert [line][1..] == [];
    assert Fold(step, fa.0, [line]) == (s.0, s.1 + []);
    assert s.1 + [] == s.1;
  }

  /** The samples of one more line come after those of the lines before it, which stay as they were. */
  lemma FoldSnocAdds<C>(step: (C, string) -> (C, seq<Sample>), ctx: C, a: seq<string>, line: string)
    ensures var before := Fold(step, ctx, a).1;
            var added := step(Fold(step, ctx, a).0, line).1;
            var after := Fold(step, ctx, a + [line]).1;
            |after| == |before| + |added| && after[..|before|] == before &&
            forall k :: 0 <= k < |added| ==> after[|before| + k] == added[k]
  {
    FoldSnoc(step, ctx, a, line);
    var before := Fold(step, ctx, a).1;
    var added := step(Fold(step, ctx, a).0, line).1;
    var after := before + added;
    assert after[..|before|] == before;
    assert forall k :: 0 <= k < |added| ==> after[|before| + k] == added[k];
  }

  /** A step emits samples only in an open context, and they carry that context's labels. */
  predicate StepLabels<C>(step: (C, string) -> (C, seq<Sample>), open: C -> bool, labels: C -> seq<string>, ctx: C, line: string) {
    var r := step(ctx, line).1;
    |r| > 0 ==> open(ctx) && forall k :: 0 <= k < |r| ==> r[k].labels == labels(ctx)
  }

  /** The samples one more line adds carry the labels of the context it was read in, which is open. */
  lemma FoldSnocLabels<C>(step: (C, string) -> (C, seq<Sample>), open: C -> bool, labels: C -> seq<string>,
                          ctx: C, a: seq<string>, line: string)
    requires forall c, l :: StepLabels(step, open, labels, c, l)
    ensures var before := Fold(step, ctx, a).1;
            var after := Fold(step, ctx, a + [line]).1;
            var c := Fold(step, ctx, a).0;
            |after| > |before| ==> open(c) && forall k :: |before| <= k < |after| ==> after[k].labels == labels(c)
  {
    FoldSnoc(step, ctx, a, line);
    assert StepLabels(step, open, labels, Fold(step, ctx, a).0, line);
  }

  predicate StepYields<C>(step: (C, string) -> (C, seq<Sample>), ok: Sample -> bool, ctx: C, line: string) {
    forall k :: 0 <= k < |step(ctx, line).1| ==> ok(step(ctx, line).1[k])
  }

  /** A property every step's samples have, every sample of the scan has. */
  lemma {:induction false} FoldYields<C>(step: (C, string) -> (C, seq<Sample>), ok: Sample -> bool, ctx: C, lines: seq<string>)
    requires forall c, l :: StepYields(step, ok, c, l)
    ensures forall k :: 0 <= k < |Fold(step, ctx, lines).1| ==> ok(Fold(step, ctx, lines).1[k])
    decreases |lines|
  {
    if |lines| > 0 {
      var first := step(ctx, lines[0]);
      FoldYields(step, ok, first.0, lines[1..]);
      assert StepYields(step, ok, ctx, lines[0]);
    }
  }

  /** One step emits at most `n` samples. */
  predicate StepAtMost<C>(step: (C, string) -> (C, seq<Sample>), n: nat, ctx: C, line: string) {
    |step(ctx, line).1| <= n
  }

  lemma {:induction false} FoldAtMost<C>(step: (C, string) -> (C, seq<Sample>), n: nat, ctx: C, lines: seq<string>)
    requires forall c, l :: StepAtMost(step, n, c, l)
    ensures |Fold(step, ctx, lines).1| <= n * |lines|
    decreases |lines|
  {
    if |lines| > 0 {
      assert StepAtMost(step, n, ctx, lines[0]);
      FoldAtMost(step, n, step(ctx, lines[0]).0, lines[1..]);
    }
  }

  /** Lines that leave the context as it is and emit nothing change nothing when scanned together. */
  lemma {:induction false} FoldIdle<C>(step: (C, string) -> (C, seq<Sample>), ctx: C, lines: seq<string>)
    requires forall k :: 0 <= k < |lines| ==> step(ctx, lines[k]) == (ctx, [])
    ensures Fold(step, ctx, lines) == (ctx, [])
    decreases |lines|
  {
    if |lines| > 0 {
      assert step(ctx, lines[0]) == (ctx, []);
      forall k | 0 <= k < |lines[1..]| ensures step(ctx, lines[1..][k]) == (ctx, []) {
        assert lines[1..][k] == lines[k + 1];
      }
      FoldIdle(step, ctx, lines[1..]);
      var first: seq<Sample> := [];
      assert first + [] == [];
    }
  }

  // ---------------------------------------------------------------------
  // Header lines

  /** The context named by the last header line among `lines`, if there is one. */
  function LastHeader<C>(header: string -> Option<C>, lines: seq<string>): (r: Option<C>)
    decreases |lines|
  {
    if |lines| == 0 then None
    else
      match header(lines[|lines| - 1])
      case Some(c) => Some(c)
      case None => LastHeader(header, lines[..|lines| - 1])
  }

  /** A step replaces the context with the one a header line names and keeps it on every other line. */
  ghost predicate Tracks<C>(step: (C, string) -> (C, seq<Sample>), header: string -> Option<C>, ctx: C, line: string) {
    step(ctx, line).0 == header(line).GetOr(ctx)
  }

  /** After any lines, the context is the one the last header named, or the starting one when there was none. */
  lemma {:induction false} FoldTracks<C>(step: (C, string) -> (C, seq<Sample>), header: string -> Option<C>, ctx: C, lines: seq<string>)
    requires forall c, l :: Tracks(step, header, c, l)
    ensures Fold(step, ctx, lines).0 == LastHeader(header, lines).GetOr(ctx)
    decreases |lines|
  {
    if |lines| > 0 {
      var a := lines[..|lines| - 1];
      var line := lines[|lines| - 1];
      assert lines == a + [line];
      FoldSnoc(step, ctx, a, line);
      FoldTracks(step, header, ctx, a);
      assert Tracks(step, header, Fold(step, ctx, a).0, line);
    }
  }

  /** Every line before the last header is not a header. */
  lemma {:induction false} NoHeaderBefore<C>(header: string -> Option<C>, lines: seq<string>, k: nat)
    requires LastHeader(header, lines).None? && k < |lines|
    ensures header(lines[k]).None?
    decreases |lines|
  {
    if k < |lines| - 1 {
      assert lines[..|lines| - 1][k] == lines[k];
      NoHeaderBefore(header, lines[..|lines| - 1], k);
    }
  }

  /** In the starting context only a header line does anything. */
  ghost predicate IdleUntilHeader<C>(step: (C, string) -> (C, seq<Sample>), header: string -> Option<C>, ctx: C, line: string) {
    header(line).None? ==> step(ctx, line) == (ctx, [])
  }

  /** Lines with no header among them leave the starting context as it is and emit nothing. */
  lemma FoldBeforeHeader<C>(step: (C, string) -> (C, seq<Sample>), header: string -> Option<C>, ctx: C, lines: seq<string>)
    requires forall l :: IdleUntilHeader(step, header, ctx, l)
    requires LastHeader(header, lines).None?
    ensures Fold(step, ctx, lines) == (ctx, [])
  {
    forall k | 0 <= k < |lines| ensures step(ctx, lines[k]) == (ctx, []) {
      NoHeaderBefore(header, lines, k);
      assert IdleUntilHeader(step, header, ctx, lines[k]);
    }
    FoldIdle(step, ctx, lines);
  }
}
