/** The six regular expressions parseKeyValues runs over a line, written as
    dedicated scanners. Each assignment pattern is `[\w_/\.]+\s*=\s*` followed by
    a value shape; every repetition in them is greedy and is followed by a
    character its class excludes, so a match attempt at a position has exactly
    one outcome and no backtracking is needed. The boolean pattern is
    `[\w_/\.]+\s*=\s*false|true`: its alternation is unparenthesised, so a bare
    `true` is a match of its own. re.findall tries positions left to right,
    keeps the first match found at each, and resumes after it. */
module Patterns {
  import opened Wrappers
  import opened Text

  /** The six value shapes, in the order parseKeyValues scans for them. */
  datatype Shape =
    | Quoted   // key = "text"
    | Boolean  // key = false, or a bare true
    | Integer  // key = 9
    | Decimal  // key = 3.97
    | Call     // key = ExtResource( 27 )
    | ResPath  // key = "res://path"

  const ScanOrder: seq<Shape> := [Quoted, Boolean, Integer, Decimal, Call, ResPath]

  /** Every character of t[lo..hi] is in cls. */
  predicate AllIn(t: string, lo: int, hi: int, cls: CharClass)
    requires 0 <= lo <= hi <= |t|
  {
    forall i :: lo <= i < hi ==> InClass(t[i], cls)
  }

  /** A key the assignment patterns can capture: a non-empty run of [\w_/\.]. */
  predicate IsKey(k: string) {
    |k| > 0 && AllIn(k, 0, |k|, KeyChar)
  }

  // ---------------------------------------------------------------------------
  // The declarative description of the patterns, by positions in the line.

  /** `[\w_/\.]+\s*=\s*` spans t[j..v]: the key is t[j..k] and the '=' is at s1. */
  predicate PrefixAt(t: string, j: int, k: int, s1: int, v: int) {
    && 0 <= j < k <= s1 < v <= |t|
    && AllIn(t, j, k, KeyChar)
    && AllIn(t, k, s1, Space)
    && t[s1] == '='
    && AllIn(t, s1 + 1, v, Space)
    && (v == |t| || !IsSpace(t[v]))
  }

  /** `\d+\.\d+` spans t[v..e], with its '.' at dot. */
  predicate DecimalAt(t: string, v: int, dot: int, e: int) {
    && 0 <= v < dot && dot + 1 < e <= |t|
    && AllIn(t, v, dot, Digit)
    && t[dot] == '.'
    && AllIn(t, dot + 1, e, Digit)
  }

  /** `[A-Za-z]+\(\s*\d+\s*\)` spans t[v..e]: '(' at l, the digits are t[a..d]. */
  predicate CallAt(t: string, v: int, l: int, a: int, d: int, e: int) {
    && 0 <= v < l && l < a < d < e <= |t|
    && AllIn(t, v, l, Letter)
    && t[l] == '('
    && AllIn(t, l + 1, a, Space)
    && AllIn(t, a, d, Digit)
    && AllIn(t, d, e - 1, Space)
    && t[e - 1] == ')'
  }

  /** The value part of shape p spans t[v..e]. */
  ghost predicate ShapeAt(p: Shape, t: string, v: int, e: int)
    requires 0 <= v <= e <= |t|
  {
    match p
    case Quoted => e - v >= 2 && t[v] == '"' && t[e - 1] == '"' && AllIn(t, v + 1, e - 1, QuotedChar)
    case Boolean => OccursAt(t, "false", v) && e == v + 5
    case Integer => v < e && AllIn(t, v, e, Digit)
    case Decimal => exists dot :: DecimalAt(t, v, dot, e)
    case Call => exists l, a, d :: CallAt(t, v, l, a, d, e)
    case ResPath => e - v >= 8 && OccursAt(t, "\"res://", v) && t[e - 1] == '"' && AllIn(t, v + 7, e - 1, ResPathChar)
  }

  /** The greedy \d+ that ends the integer and decimal shapes cannot go on past e. */
  predicate Maximal(p: Shape, t: string, e: int)
    requires 0 <= e <= |t|
  {
    (p == Integer || p == Decimal) ==> e == |t| || !IsDigit(t[e])
  }

  // ---------------------------------------------------------------------------
  // The scanners.

  /** Matches `[\w_/\.]+\s*=\s*` at j and returns where the value starts. */
  function ValueStart(t: string, j: nat): (r: Option<nat>)
    requires j <= |t|
    ensures r.Some? ==> PrefixAt(t, j, RunEnd(t, j, KeyChar), RunEnd(t, RunEnd(t, j, KeyChar), Space), r.value)
  {
    var k := RunEnd(t, j, KeyChar);
    if k == j then None
    else
      var s1 := RunEnd(t, k, Space);
      if s1 < |t| && t[s1] == '=' then Some(RunEnd(t, s1 + 1, Space)) else None
  }

  /** Matches the value part of shape p at v and returns where the match ends. */
  function ValueEnd(p: Shape, t: string, v: nat): (r: Option<nat>)
    requires v <= |t|
    ensures r.Some? ==> v < r.value <= |t| && ShapeAt(p, t, v, r.value) && Maximal(p, t, r.value)
  {
    match p
    case Quoted =>
      if v < |t| && t[v] == '"' then
        var e := RunEnd(t, v + 1, QuotedChar);
        if e < |t| && t[e] == '"' then Some(e + 1) else None
      else None
    case Boolean =>
      if OccursAt(t, "false", v) then Some(v + 5) else None
    case Integer =>
      var e := RunEnd(t, v, Digit);
      if v < e then Some(e) else None
    case Decimal => DecimalEnd(t, v)
    case Call => CallEnd(t, v)
    case ResPath =>
      if OccursAt(t, "\"res://", v) then
        var e := RunEnd(t, v + 7, ResPathChar);
        if e < |t| && t[e] == '"' then Some(e + 1) else None
      else None
  }

  /** `\d+\.\d+` at v, greedy. */
  function DecimalEnd(t: string, v: nat): (r: Option<nat>)
    requires v <= |t|
    ensures r.Some? ==> v < r.value <= |t| && ShapeAt(Decimal, t, v, r.value) && Maximal(Decimal, t, r.value)
  {
    var dot := RunEnd(t, v, Digit);
    if v < dot && dot < |t| && t[dot] == '.' then
      var e := RunEnd(t, dot + 1, Digit);
      if dot + 1 < e then
        assert DecimalAt(t, v, dot, e);
        Some(e)
      else None
    else None
  }

  /** `[a-zA-Z]+\(\s*\d+\s*\)` at v. */
  function CallEnd(t: string, v: nat): (r: Option<nat>)
    requires v <= |t|
    ensures r.Some? ==> v < r.value <= |t| && ShapeAt(Call, t, v, r.value) && Maximal(Call, t, r.value)
  {
    var l := RunEnd(t, v, Letter);
    if v < l && l < |t| && t[l] == '(' then
      var a := RunEnd(t, l + 1, Space);
      var d := RunEnd(t, a, Digit);
      if a < d then
        var b := RunEnd(t, d, Space);
        if b < |t| && t[b] == ')' then
          assert CallAt(t, v, l, a, d, b + 1);
          Some(b + 1)
        else None
      else None
    else None
  }

  /** The scanner finds every prefix the declarative description admits. */
  lemma ValueStartIff(t: string, j: nat, k: nat, s1: nat, v: nat)
    requires j <= |t|
    ensures PrefixAt(t, j, k, s1, v) ==> ValueStart(t, j) == Some(v)
    ensures ValueStart(t, j) == Some(v) ==> PrefixAt(t, j, RunEnd(t, j, KeyChar), RunEnd(t, RunEnd(t, j, KeyChar), Space), v)
  {
    if PrefixAt(t, j, k, s1, v) {
      RunEndUnique(t, j, KeyChar, k);
      RunEndUnique(t, k, Space, s1);
      RunEndUnique(t, s1 + 1, Space, v);
    }
  }

  lemma DecimalEndComplete(t: string, v: nat, dot: nat, e: nat)
    requires DecimalAt(t, v, dot, e) && (e == |t| || !IsDigit(t[e]))
    ensures DecimalEnd(t, v) == Some(e)
  {
    RunEndUnique(t, v, Digit, dot);
    RunEndUnique(t, dot + 1, Digit, e);
  }

  /** The four greedy runs of a call value end where CallAt says. */
  lemma CallRuns(t: string, v: nat, l: nat, a: nat, d: nat, e: nat)
    requires CallAt(t, v, l, a, d, e)
    ensures RunEnd(t, v, Letter) == l && RunEnd(t, l + 1, Space) == a
    ensures RunEnd(t, a, Digit) == d && RunEnd(t, d, Space) == e - 1
  {
    assert !InClass(t[l], Letter) by { assert t[l] == '('; }
    RunEndUnique(t, v, Letter, l);
    assert !InClass(t[a], Space) by { assert InClass(t[a], Digit); }
    RunEndUnique(t, l + 1, Space, a);
    assert !InClass(t[d], Digit) by { assert t[d] == ')' || InClass(t[d], Space); }
    RunEndUnique(t, a, Digit, d);
    assert !InClass(t[e - 1], Space) by { assert t[e - 1] == ')'; }
    RunEndUnique(t, d, Space, e - 1);
  }

  lemma CallEndComplete(t: string, v: nat, l: nat, a: nat, d: nat, e: nat)
    requires CallAt(t, v, l, a, d, e)
    ensures CallEnd(t, v) == Some(e)
  {
    CallRuns(t, v, l, a, d, e);
  }

  /** The value scanner for shape p ends exactly where the declarative shape, run to its
      greedy end, does. */
  lemma ValueEndIff(p: Shape, t: string, v: nat, e: nat)
    requires v <= e <= |t|
    ensures ValueEnd(p, t, v) == Some(e) <==> ShapeAt(p, t, v, e) && Maximal(p, t, e)
  {
    if ShapeAt(p, t, v, e) && Maximal(p, t, e) {
      match p
      case Quoted =>
        RunEndUnique(t, v + 1, QuotedChar, e - 1);
      case Boolean =>
      case Integer =>
        RunEndUnique(t, v, Digit, e);
      case Decimal =>
        var dot :| DecimalAt(t, v, dot, e);
        DecimalEndComplete(t, v, dot, e);
      case Call =>
        var l, a, d :| CallAt(t, v, l, a, d, e);
        CallEndComplete(t, v, l, a, d, e);
      case ResPath =>
        RunEndUnique(t, v + 7, ResPathChar, e - 1);
    }
  }

  /** The characters of a value: no '=', no whitespace at either end, and '"' only as
      the delimiters of the quoted and res:// shapes. */
  predicate Delimited(p: Shape, t: string, v: int, e: int)
    requires 0 <= v <= e <= |t|
  {
    && v < e
    && (forall i :: v <= i < e ==> t[i] != '=')
    && !IsSpace(t[v]) && !IsSpace(t[e - 1])
    && (p == Quoted || p == ResPath ==>
          e - v >= 2 && t[v] == '"' && t[e - 1] == '"' && forall i :: v < i < e - 1 ==> t[i] != '"')
    && (p != Quoted && p != ResPath ==> forall i :: v <= i < e ==> t[i] != '"')
  }

  lemma ValueFacts(p: Shape, t: string, v: nat, e: nat)
    requires v <= e <= |t| && ShapeAt(p, t, v, e)
    ensures Delimited(p, t, v, e)
  {
    match p
    case Quoted => QuotedFacts(t, v, e);
    case Boolean => BooleanFacts(t, v, e);
    case Integer => IntegerFacts(t, v, e);
    case Decimal => DecimalFacts(t, v, e);
    case Call => CallFacts(t, v, e);
    case ResPath => ResPathFacts(t, v, e);
  }

  lemma QuotedFacts(t: string, v: nat, e: nat)
    requires v <= e <= |t| && ShapeAt(Quoted, t, v, e)
    ensures Delimited(Quoted, t, v, e)
  {
  }

  lemma BooleanFacts(t: string, v: nat, e: nat)
    requires v <= e <= |t| && ShapeAt(Boolean, t, v, e)
    ensures Delimited(Boolean, t, v, e)
  {
    assert t[v..v + 5] == "false";
    assert forall i :: v <= i < e ==> t[i] == "false"[i - v];
  }

  lemma IntegerFacts(t: string, v: nat, e: nat)
    requires v <= e <= |t| && ShapeAt(Integer, t, v, e)
    ensures Delimited(Integer, t, v, e)
  {
  }

  lemma DecimalFacts(t: string, v: nat, e: nat)
    requires v <= e <= |t| && ShapeAt(Decimal, t, v, e)
    ensures Delimited(Decimal, t, v, e)
  {
    var dot :| DecimalAt(t, v, dot, e);
  }

  lemma CallFacts(t: string, v: nat, e: nat)
    requires v <= e <= |t| && ShapeAt(Call, t, v, e)
    ensures Delimited(Call, t, v, e)
  {
    var l, a, d :| CallAt(t, v, l, a, d, e);
  }

  lemma ResPathFacts(t: string, v: nat, e: nat)
    requires v <= e <= |t| && ShapeAt(ResPath, t, v, e)
    ensures Delimited(ResPath, t, v, e)
  {
    assert t[v..v + 7] == "\"res://";
    assert forall i :: v <= i < v + 7 ==> t[i] == "\"res://"[i - v];
  }

  /** An assignment of shape p spans t[j..e]. */
  predicate AssignmentAt(p: Shape, t: string, j: nat, e: nat)
    requires j <= |t|
  {
    ValueStart(t, j).Some? && ValueEnd(p, t, ValueStart(t, j).value) == Some(e)
  }

  /** re.match of pattern p at position j: where the match ends, if there is one. */
  function MatchEnd(p: Shape, t: string, j: nat): (r: Option<nat>)
    requires j <= |t|
    ensures r.Some? ==> j < r.value <= |t|
  {
    var v := ValueStart(t, j);
    if v.Some? && ValueEnd(p, t, v.value).Some? then ValueEnd(p, t, v.value)
    else if p == Boolean && OccursAt(t, "true", j) then Some(j + 4)
    else None
  }

  /** A match is an assignment of shape p or, for the boolean pattern only, a bare "true". */
  lemma MatchEndMeaning(p: Shape, t: string, j: nat)
    requires j <= |t|
    ensures MatchEnd(p, t, j).Some? <==> (exists e :: AssignmentAt(p, t, j, e)) || (p == Boolean && OccursAt(t, "true", j))
    ensures MatchEnd(p, t, j).Some? && !AssignmentAt(p, t, j, MatchEnd(p, t, j).value) ==>
      p == Boolean && t[j..MatchEnd(p, t, j).value] == "true"
  {
    var v := ValueStart(t, j);
    if v.Some? && ValueEnd(p, t, v.value).Some? {
      assert AssignmentAt(p, t, j, ValueEnd(p, t, v.value).value);
    }
  }

  /** A match found by re.findall: t[start..end]. */
  datatype Span = Span(start: nat, end: nat)

  /** q lies inside one of the spans. */
  predicate Covered(spans: seq<Span>, q: int)
    decreases |spans|
  {
    spans != [] && (spans[0].start <= q < spans[0].end || Covered(spans[1..], q))
  }

  /** re.match of pattern p at every position of t. */
  function MatchEnds(p: Shape, t: string): (ends: seq<Option<nat>>)
    ensures |ends| == |t|
    ensures forall q :: 0 <= q < |t| ==> ends[q] == MatchEnd(p, t, q)
    ensures EndsAfter(ends)
  {
    seq(|t|, q requires 0 <= q < |t| => MatchEnd(p, t, q))
  }

  /** Every match found at q ends after q and within the line. */
  predicate EndsAfter(ends: seq<Option<nat>>) {
    forall q :: 0 <= q < |ends| && ends[q].Some? ==> q < ends[q].value <= |ends|
  }

  /** re.findall's matches from position i on, given the match found at each
      position: leftmost first, then on from the end of each match. */
  function SpansFrom(ends: seq<Option<nat>>, i: nat): (r: seq<Span>)
    requires EndsAfter(ends) && i <= |ends|
    decreases |ends| - i
    ensures forall k :: 0 <= k < |r| ==> i <= r[k].start < r[k].end <= |ends| && ends[r[k].start] == Some(r[k].end)
    ensures forall k :: 0 <= k < |r| - 1 ==> r[k].end <= r[k + 1].start
  {
    if i == |ends| then []
    else
      match ends[i]
      case Some(e) => [Span(i, e)] + SpansFrom(ends, e)
      case None => SpansFrom(ends, i + 1)
  }

  /** Nothing is skipped: every position from i on that no span covers has no match. */
  lemma {:induction false} SpansLeftmost(ends: seq<Option<nat>>, i: nat, q: nat)
    requires EndsAfter(ends) && i <= q < |ends|
    requires !Covered(SpansFrom(ends, i), q)
    decreases |ends| - i
    ensures ends[q].None?
  {
    match ends[i]
    case Some(e) =>
      assert SpansFrom(ends, i)[1..] == SpansFrom(ends, e);
      SpansLeftmost(ends, e, q);
    case None =>
      if q > i {
        SpansLeftmost(ends, i + 1, q);
      }
  }

  /** The matched texts of a list of spans. */
  function Texts(t: string, spans: seq<Span>): (ms: seq<string>)
    requires forall k :: 0 <= k < |spans| ==> spans[k].start <= spans[k].end <= |t|
    ensures |ms| == |spans|
    ensures forall k :: 0 <= k < |spans| ==> ms[k] == t[spans[k].start..spans[k].end]
  {
    if spans == [] then [] else [t[spans[0].start..spans[0].end]] + Texts(t, spans[1..])
  }

  /** re.findall(pattern, t): the texts of all matches. */
  function FindAll(p: Shape, t: string): seq<string> {
    Texts(t, SpansFrom(MatchEnds(p, t), 0))
  }
}
