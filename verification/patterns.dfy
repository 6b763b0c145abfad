/**
 * Anchored patterns for the exporter's line grammars.
 *
 * Most of the regular expressions the collectors apply to a line are a
 * sequence of literals, character-class runs (`\s*`, `\d+`, `[\w-]+`, ...)
 * and two-way alternations (`(true|false)`), anchored at both ends. This
 * module gives such a pattern two readings: `Match`, a greedy left-to-right
 * matcher that never backtracks, and `Accepts`/`Concat`, the declarative
 * reading (the line is a concatenation of one piece per item, each piece in
 * its item's language). For patterns whose runs can never be extended into
 * what follows them (`Deterministic`), the two readings agree, so the
 * greedy matcher computes exactly the captures the regular expression does.
 */
module Patterns {
  import opened Wrappers
  import opened Text

  /** The character classes the exporter's expressions use. */
  datatype Class =
    | Word        // \w
    | WordOrDash  // [\w-]
    | Space       // \s
    | NonSpace    // \S
    | Digit       // \d
    | DigitOrDot  // [\d\.]

  predicate InClass(c: char, k: Class) {
    match k
    case Word => IsWordChar(c)
    case WordOrDash => IsWordChar(c) || c == '-'
    case Space => IsSpace(c)
    case NonSpace => !IsSpace(c)
    case Digit => IsDigit(c)
    case DigitOrDot => IsDigit(c) || c == '.'
  }

  predicate AllIn(w: string, k: Class) {
    forall i :: 0 <= i < |w| ==> InClass(w[i], k)
  }

  /** One element of an anchored pattern. */
  datatype Item =
    | Lit(text: string)                            // literal text
    | Run(cls: Class, atLeastOne: bool, keep: bool) // cls* or cls+, captured when keep
    | Alt(left: string, right: string)             // (left|right), always captured

  /** A pattern is a list of items, matched one after the other from `^` to `$`. */
  datatype Pattern = Done | Then(head: Item, tail: Pattern)

  predicate Keeps(it: Item) {
    match it
    case Lit(_) => false
    case Run(_, _, keep) => keep
    case Alt(_, _) => true
  }

  /** The capturing items of `p`, in order: capture group j is matched by item j of this list. */
  function Groups(p: Pattern): seq<Item> {
    match p
    case Done => []
    case Then(it, rest) => (if Keeps(it) then [it] else []) + Groups(rest)
  }

  // ---------------------------------------------------------------------
  // Declarative reading

  predicate ItemAccepts(it: Item, w: string) {
    match it
    case Lit(t) => w == t
    case Run(k, one, _) => (one ==> |w| > 0) && AllIn(w, k)
    case Alt(a, b) => w == a || w == b
  }

  /** `pieces` assigns to every item of `p` a piece in that item's language. */
  predicate Accepts(p: Pattern, pieces: seq<string>) {
    match p
    case Done => |pieces| == 0
    case Then(it, rest) => |pieces| > 0 && ItemAccepts(it, pieces[0]) && Accepts(rest, pieces[1..])
  }

  function Concat(pieces: seq<string>): string {
    if |pieces| == 0 then "" else pieces[0] + Concat(pieces[1..])
  }

  /** The pieces of the capturing items, in pattern order. */
  function Captures(p: Pattern, pieces: seq<string>): seq<string>
    requires Accepts(p, pieces)
  {
    match p
    case Done => []
    case Then(it, rest) => (if Keeps(it) then [pieces[0]] else []) + Captures(rest, pieces[1..])
  }

  /** Every capture is in the language of the item that captured it. */
  predicate GroupsAccept(p: Pattern, caps: seq<string>) {
    |caps| == |Groups(p)| && forall j :: 0 <= j < |caps| ==> ItemAccepts(Groups(p)[j], caps[j])
  }

  /** A line the pattern matches starts with a piece of the pattern's first item. */
  lemma MatchFirst(it: Item, rest: Pattern, s: string)
    ensures Match(Then(it, rest), s).Some? ==> Piece(it, s).Some?
  {
  }

  /** A capture of a `\d+` group is a non-empty digit string. */
  lemma DigitGroup(p: Pattern, caps: seq<string>, j: nat)
    requires GroupsAccept(p, caps) && j < |caps| && Groups(p)[j] == Run(Digit, true, true)
    ensures |caps[j]| > 0 && AllDigits(caps[j])
  {
    assert ItemAccepts(Groups(p)[j], caps[j]);
  }

  // ---------------------------------------------------------------------
  // Greedy reading

  /** The piece the greedy matcher gives the item at the start of `s`: a run takes all it can. */
  function Piece(it: Item, s: string): (r: Option<string>)
    ensures r.Some? ==> r.value <= s
  {
    match it
    case Lit(t) => if t <= s then Some(t) else None
    case Run(k, one, _) =>
      var n := SpanLen(s, c => InClass(c, k));
      if one && n == 0 then None else Some(s[..n])
    case Alt(a, b) => if a <= s then Some(a) else if b <= s then Some(b) else None
  }

  /** Greedy, non-backtracking decomposition of `s` into one piece per item. */
  function MatchPieces(p: Pattern, s: string): (r: Option<seq<string>>)
  {
    match p
    case Done => if |s| == 0 then Some([]) else None
    case Then(it, rest) =>
      match Piece(it, s)
      case None => None
      case Some(w) =>
        match MatchPieces(rest, s[|w|..])
        case None => None
        case Some(tail) => Some([w] + tail)
  }

  /** The captures of the anchored pattern on the line, or None when it does not match. */
  function Match(p: Pattern, s: string): (r: Option<seq<string>>)
    ensures r.Some? ==> GroupsAccept(p, r.value)
  {
    match MatchPieces(p, s)
    case None => None
    case Some(pieces) =>
      MatchPiecesSound(p, s);
      CapturesInGroups(p, pieces);
      Some(Captures(p, pieces))
  }

  // ---------------------------------------------------------------------
  // Determinism: no run can be extended into what follows it

  /**
   * A pair of classes known to share no character: whitespace against any
   * other class. (These are the only pairs the exporter's patterns put side
   * by side.)
   */
  predicate Disjoint(a: Class, b: Class) {
    (a == Space) != (b == Space)
  }

  lemma DisjointSound(a: Class, b: Class, c: char)
    requires Disjoint(a, b)
    ensures !(InClass(c, a) && InClass(c, b))
  {
  }

  /** No string accepted by `p` starts with a character of class `k`. */
  predicate Excludes(k: Class, p: Pattern) {
    match p
    case Done => true
    case Then(Lit(t), rest) => if |t| == 0 then Excludes(k, rest) else !InClass(t[0], k)
    case Then(Run(k2, one, _), rest) => Disjoint(k, k2) && (one || Excludes(k, rest))
    case Then(Alt(a, b), _) => |a| > 0 && |b| > 0 && !InClass(a[0], k) && !InClass(b[0], k)
  }

  /** Every run stops where the rest of the pattern starts, and alternatives differ in their first character. */
  predicate Deterministic(p: Pattern) {
    match p
    case Done => true
    case Then(it, rest) =>
      (match it
       case Lit(_) => true
       case Run(k, _, _) => Excludes(k, rest)
       case Alt(a, b) => |a| > 0 && |b| > 0 && a[0] != b[0])
      && Deterministic(rest)
  }

  // ---------------------------------------------------------------------
  // The two readings agree

  lemma ConcatCons(pieces: seq<string>)
    requires |pieces| > 0
    ensures Concat(pieces) == pieces[0] + Concat(pieces[1..])
  {
  }

  /** One more item in front: the line grows by its piece, the captures by the piece when the item keeps it. */
  lemma Prepend(it: Item, rest: Pattern, w: string, ws: seq<string>)
    requires ItemAccepts(it, w) && Accepts(rest, ws)
    ensures Accepts(Then(it, rest), [w] + ws)
    ensures Concat([w] + ws) == w + Concat(ws)
    ensures Captures(Then(it, rest), [w] + ws) == (if Keeps(it) then [w] else []) + Captures(rest, ws)
  {
    assert ([w] + ws)[1..] == ws;
  }

  /** The greedy matcher only returns genuine decompositions. */
  lemma {:induction false} MatchPiecesSound(p: Pattern, s: string)
    requires MatchPieces(p, s).Some?
    ensures Accepts(p, MatchPieces(p, s).value)
    ensures Concat(MatchPieces(p, s).value) == s
  {
    match p
    case Done =>
    case Then(it, rest) =>
      var ps := MatchPieces(p, s).value;
      var w := ps[0];
      assert w <= s;
      var tail := s[|w|..];
      assert MatchPieces(rest, tail).Some? && MatchPieces(rest, tail).value == ps[1..];
      MatchPiecesSound(rest, tail);
      assert ItemAccepts(it, w) by {
        match it
        case Lit(_) =>
        case Run(k, _, _) =>
          var n := SpanLen(s, c => InClass(c, k));
          assert w == s[..n];
          forall i | 0 <= i < |w| ensures InClass(w[i], k) {
            assert w[i] == s[i];
          }
        case Alt(_, _) =>
      }
      assert s == w + tail;
  }

  /** The captures of an accepted decomposition are in their groups' languages. */
  lemma {:induction false} CapturesInGroups(p: Pattern, ps: seq<string>)
    requires Accepts(p, ps)
    ensures GroupsAccept(p, Captures(p, ps))
  {
    match p
    case Done =>
    case Then(it, rest) =>
      CapturesInGroups(rest, ps[1..]);
      var tail := Captures(rest, ps[1..]);
      if Keeps(it) {
        assert Captures(p, ps) == [ps[0]] + tail;
        assert Groups(p) == [it] + Groups(rest);
        forall j | 0 < j < |Captures(p, ps)|
          ensures ItemAccepts(Groups(p)[j], Captures(p, ps)[j])
        {
          assert Captures(p, ps)[j] == tail[j - 1];
          assert Groups(p)[j] == Groups(rest)[j - 1];
        }
      } else {
        assert Captures(p, ps) == tail;
        assert Groups(p) == Groups(rest);
      }
  }

  /** A non-empty string accepted by `p` does not start with a character `p` excludes. */
  lemma {:induction false} ExcludesSound(k: Class, p: Pattern, ps: seq<string>)
    requires Excludes(k, p) && Accepts(p, ps) && |Concat(ps)| > 0
    ensures !InClass(Concat(ps)[0], k)
  {
    match p
    case Then(it, rest) =>
      ConcatCons(ps);
      var w := ps[0];
      if |w| > 0 {
        assert Concat(ps)[0] == w[0];
        match it
        case Lit(t) =>
        case Run(k2, _, _) =>
          assert InClass(w[0], k2);
          DisjointSound(k, k2, w[0]);
        case Alt(a, b) =>
      } else {
        assert Concat(ps) == Concat(ps[1..]);
        match it
        case Lit(t) =>
          ExcludesSound(k, rest, ps[1..]);
        case Run(k2, one, _) =>
          ExcludesSound(k, rest, ps[1..]);
        case Alt(a, b) =>
      }
  }

  /**
   * For a deterministic pattern, every decomposition of the line is the one
   * the greedy matcher finds: the regular expression has exactly one way to
   * match, and its captures are the matcher's.
   */
  lemma {:induction false} MatchPiecesComplete(p: Pattern, ps: seq<string>)
    requires Deterministic(p) && Accepts(p, ps)
    ensures MatchPieces(p, Concat(ps)) == Some(ps)
  {
    match p
    case Done =>
    case Then(it, rest) =>
      var s := Concat(ps);
      ConcatCons(ps);
      var w := ps[0];
      var tail := Concat(ps[1..]);
      assert s == w + tail;
      assert w <= s;
      assert s[|w|..] == tail;
      MatchPiecesComplete(rest, ps[1..]);
      assert Piece(it, s) == Some(w) by {
        match it
        case Lit(t) =>
        case Run(k, one, _) =>
          var n := SpanLen(s, c => InClass(c, k));
          if |tail| > 0 {
            ExcludesSound(k, rest, ps[1..]);
          }
          SpanLenOfConcat(w, tail, c => InClass(c, k));
          assert n == |w|;
          assert s[..n] == w;
        case Alt(a, b) =>
      }
      assert ps == [w] + ps[1..];
  }

  /** The first piece belongs to the first item and the others to the rest of the pattern. */
  lemma AcceptsHead(it: Item, rest: Pattern, ps: seq<string>)
    requires Accepts(Then(it, rest), ps)
    ensures |ps| > 0 && ItemAccepts(it, ps[0]) && Accepts(rest, ps[1..]) && Concat(ps) == ps[0] + Concat(ps[1..])
  {
  }

  /** A line matched by `^\s*<t>...`, where `t` starts with a non-blank, has `t` right after its leading blanks. */
  lemma LeadingLit(t: string, rest: Pattern, line: string)
    requires Match(Then(Run(Space, false, false), Then(Lit(t), rest)), line).Some?
    requires |t| > 0 && !IsSpace(t[0])
    ensures t <= line[SpanLen(line, IsSpace)..]
  {
    var p := Then(Run(Space, false, false), Then(Lit(t), rest));
    MatchGivesPieces(p, line);
    var ps :| Accepts(p, ps) && Concat(ps) == line && Captures(p, ps) == Match(p, line).value;
    AcceptsHead(Run(Space, false, false), Then(Lit(t), rest), ps);
    AcceptsHead(Lit(t), rest, ps[1..]);
    var after := Concat(ps[1..][1..]);
    assert line == ps[0] + (t + after);
    SpanLenOfConcat(ps[0], t + after, IsSpace);
    assert line[|ps[0]|..] == t + after;
  }

  /** The matcher's verdict and captures, stated against the declarative reading. */
  lemma MatchIff(p: Pattern, s: string, caps: seq<string>)
    requires Deterministic(p)
    ensures Match(p, s) == Some(caps) <==>
            exists ps :: Accepts(p, ps) && Concat(ps) == s && Captures(p, ps) == caps
  {
    if Match(p, s) == Some(caps) {
      MatchPiecesSound(p, s);
    }
    if exists ps :: Accepts(p, ps) && Concat(ps) == s && Captures(p, ps) == caps {
      var ps :| Accepts(p, ps) && Concat(ps) == s && Captures(p, ps) == caps;
      MatchPiecesComplete(p, ps);
    }
  }

  /** A matched line is rebuilt from its pieces; the captures are a selection of them. */
  lemma MatchGivesPieces(p: Pattern, s: string)
    requires Match(p, s).Some?
    ensures exists ps :: Accepts(p, ps) && Concat(ps) == s && Captures(p, ps) == Match(p, s).value
  {
    MatchPiecesSound(p, s);
  }
}
