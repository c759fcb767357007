/** parseKeyValues and parseAllSectionKeyValues: the key/value dictionary of a
    line, built by six regular-expression scans in a fixed order, and the
    per-heading dictionaries of a section. */
module KeyValues {
  import opened Wrappers
  import opened Text
  import opened Patterns

  // ---------------------------------------------------------------------------
  // Storing one match, as the loops of parseKeyValues do.

  /** The quoted-string, boolean and res:// scans also strip '"' from both pieces. */
  predicate StripsQuotes(p: Shape) {
    p == Quoted || p == Boolean || p == ResPath
  }

  /** How a piece of a match is cleaned: strip(), then strip('"') where the scan does so. */
  function Clean(p: Shape, piece: string): string {
    if StripsQuotes(p) then StripClass(Strip(piece), QuoteMark) else Strip(piece)
  }

  /** A match is split on "=" and stored only when that gives at least two pieces. */
  function Store(p: Shape, r: map<string, string>, m: string): map<string, string> {
    var pieces := Split(m, "=");
    if |pieces| >= 2 then r[Clean(p, pieces[0]) := Clean(p, pieces[1])] else r
  }

  /** One findall loop: the matches stored in order, a later one overwriting an earlier one. */
  function StoreAll(p: Shape, r: map<string, string>, ms: seq<string>): map<string, string>
    decreases |ms|
  {
    if ms == [] then r else StoreAll(p, Store(p, r, ms[0]), ms[1..])
  }

  /** One scan of the line for shape p, on top of what the earlier scans stored. */
  function Scan(p: Shape, r: map<string, string>, line: string): map<string, string> {
    StoreAll(p, r, FindAll(p, line))
  }

  /** The scans of shapes, in order, on top of r. */
  function ScanAll(shapes: seq<Shape>, r: map<string, string>, line: string): map<string, string>
    decreases |shapes|
  {
    if shapes == [] then r else ScanAll(shapes[1..], Scan(shapes[0], r, line), line)
  }

  /** The dictionary parseKeyValues returns for a line. */
  function KeyValuesOf(line: string): map<string, string> {
    ScanAll(ScanOrder, map[], line)
  }

  // ---------------------------------------------------------------------------
  // What a match stores, by positions in the line.

  /** The key an assignment match starting at j captures: the run of [\w_/\.] there. */
  function KeyAt(t: string, j: nat): string
    requires j <= |t|
  {
    t[j..RunEnd(t, j, KeyChar)]
  }

  /** The value text stored for a matched value x of shape p: without its double
      quotes for the quoted and res:// shapes, as it stands otherwise. */
  function ValueText(p: Shape, x: string): string {
    if (p == Quoted || p == ResPath) && |x| >= 2 then x[1..|x| - 1] else x
  }

  /** A matched value x of shape p: no '=', no whitespace at either end, and '"' only
      as the delimiters of the quoted and res:// shapes. */
  predicate DelimitedValue(p: Shape, x: string) {
    && |x| > 0 && '=' !in x && !IsSpace(x[0]) && !IsSpace(x[|x| - 1])
    && (p == Quoted || p == ResPath ==> |x| >= 2 && x[0] == '"' && x[|x| - 1] == '"' && '"' !in x[1..|x| - 1])
    && (p != Quoted && p != ResPath ==> '"' !in x)
  }

  lemma ValueSlice(p: Shape, t: string, v: nat, e: nat)
    requires v <= e <= |t| && Delimited(p, t, v, e)
    ensures DelimitedValue(p, t[v..e])
  {
    var x := t[v..e];
    assert forall i :: 0 <= i < |x| ==> x[i] == t[v + i];
    if p == Quoted || p == ResPath {
      var inner := x[1..|x| - 1];
      assert forall i :: 0 <= i < |inner| ==> inner[i] == t[v + 1 + i];
    }
  }

  /** The pair an assignment match t[s.start..s.end] stands for; None for a bare "true". */
  /** Storing one pair, if there is one. */
  function Put(r: map<string, string>, pair: Option<(string, string)>): (m: map<string, string>)
    ensures pair.None? ==> m == r
    ensures pair.Some? ==> m.Keys == r.Keys + {pair.value.0} && m[pair.value.0] == pair.value.1
    ensures pair.Some? ==> forall k :: k in r && k != pair.value.0 ==> m[k] == r[k]
  {
    match pair
    case Some(kv) => r[kv.0 := kv.1]
    case None => r
  }

  function SpanPair(p: Shape, t: string, s: Span): Option<(string, string)>
    requires s.start <= |t|
  {
    var v := ValueStart(t, s.start);
    if v.Some? && ValueEnd(p, t, v.value) == Some(s.end) then
      Some((KeyAt(t, s.start), ValueText(p, t[v.value..s.end])))
    else None
  }

  /** An assignment match splits on "=" into the text before and after its one '='. */
  lemma SplitAssignment(t: string, j: nat, k: nat, s1: nat, v: nat, e: nat)
    requires PrefixAt(t, j, k, s1, v) && v <= e <= |t|
    requires forall i :: v <= i < e ==> t[i] != '='
    ensures Split(t[j..e], "=") == [t[j..s1], t[s1 + 1..e]]
  {
    var a := t[j..s1];
    var b := t[s1 + 1..e];
    assert t[j..e] == a + ['='] + b;
    forall i | 0 <= i < |a|
      ensures a[i] != '='
    {
      assert a[i] == t[j + i];
    }
    forall i | 0 <= i < |b|
      ensures b[i] != '='
    {
      assert b[i] == t[s1 + 1 + i];
    }
    SplitOnce(a, '=', b);
  }

  /** Cleaning the text before the '=' leaves the key. */
  lemma CleanKey(p: Shape, t: string, j: nat, k: nat, s1: nat, v: nat)
    requires PrefixAt(t, j, k, s1, v)
    ensures Clean(p, t[j..s1]) == t[j..k]
  {
    var key := t[j..k];
    assert t[j..s1] == [] + key + t[k..s1];
    StripPadded([], key, t[k..s1], Space);
    if StripsQuotes(p) {
      StripUnpadded(key, QuoteMark);
    }
  }

  /** strip() removes the whitespace between the '=' and the value. */
  lemma StripValue(t: string, s1: nat, v: nat, e: nat)
    requires s1 + 1 <= v < e <= |t| && AllIn(t, s1 + 1, v, Space)
    requires !IsSpace(t[v]) && !IsSpace(t[e - 1])
    ensures Strip(t[s1 + 1..e]) == t[v..e]
  {
    var w := t[s1 + 1..v];
    assert t[s1 + 1..e] == w + t[v..e] + [];
    assert forall i :: 0 <= i < |w| ==> w[i] == t[s1 + 1 + i];
    StripPadded(w, t[v..e], [], Space);
  }

  /** strip('"') removes the delimiting quotes of a text with no other '"'. */
  lemma StripQuotes(x: string)
    requires |x| >= 2 && x[0] == '"' && x[|x| - 1] == '"' && '"' !in x[1..|x| - 1]
    ensures StripClass(x, QuoteMark) == x[1..|x| - 1]
  {
    var inner := x[1..|x| - 1];
    assert x == ['"'] + inner + ['"'];
    assert inner != [] ==> inner[0] in inner && inner[|inner| - 1] in inner;
    StripPadded(['"'], inner, ['"'], QuoteMark);
  }

  /** A text with no '"' is left as it is by strip('"'). */
  lemma StripNoQuotes(x: string)
    requires '"' !in x
    ensures StripClass(x, QuoteMark) == x
  {
    assert x != [] ==> x[0] in x && x[|x| - 1] in x;
    StripUnpadded(x, QuoteMark);
  }

  /** Cleaning the text after the '=', which strip() takes to the value x, leaves the
      value text. */
  lemma CleanValue(p: Shape, y: string, x: string)
    requires Strip(y) == x && DelimitedValue(p, x)
    ensures Clean(p, y) == ValueText(p, x)
  {
    if p == Quoted || p == ResPath {
      StripQuotes(x);
    } else if p == Boolean {
      StripNoQuotes(x);
    }
  }

  /** Storing the text of an assignment match stores its key and value text. */
  lemma StoreAssignment(p: Shape, r: map<string, string>, t: string, j: nat, k: nat, s1: nat, v: nat, e: nat)
    requires PrefixAt(t, j, k, s1, v) && v <= e <= |t| && Delimited(p, t, v, e)
    ensures Store(p, r, t[j..e]) == r[t[j..k] := ValueText(p, t[v..e])]
  {
    SplitAssignment(t, j, k, s1, v, e);
    CleanKey(p, t, j, k, s1, v);
    StripValue(t, s1, v, e);
    ValueSlice(p, t, v, e);
    CleanValue(p, t[s1 + 1..e], t[v..e]);
  }

  /** Storing the matched text of a match is storing the pair it stands for: splitting on
      "=" and stripping recovers exactly the key and the value, and a bare "true" stores nothing. */
  lemma StoreMatch(p: Shape, r: map<string, string>, t: string, j: nat, e: nat)
    requires j <= |t| && MatchEnd(p, t, j) == Some(e)
    ensures Store(p, r, t[j..e]) == Put(r, SpanPair(p, t, Span(j, e)))
  {
    MatchEndMeaning(p, t, j);
    var vs := ValueStart(t, j);
    if vs.Some? && ValueEnd(p, t, vs.value) == Some(e) {
      var k := RunEnd(t, j, KeyChar);
      ValueFacts(p, t, vs.value, e);
      StoreAssignment(p, r, t, j, k, RunEnd(t, k, Space), vs.value, e);
    } else {
      SplitNone(t[j..e], '=');
    }
  }

  /** One findall loop of parseKeyValues. */
  method StoreMatches(p: Shape, line: string, r0: map<string, string>) returns (r: map<string, string>)
    ensures r == Scan(p, r0, line)
  {
    var ms := FindAll(p, line);
    r := r0;
    var i := 0;
    while i < |ms|
      invariant 0 <= i <= |ms|
      invariant StoreAll(p, r, ms[i..]) == StoreAll(p, r0, ms)
    {
      var pair := Split(ms[i], "=");
      if |pair| >= 2 {
        r := r[Clean(p, pair[0]) := Clean(p, pair[1])];
      }
      assert ms[i..][1..] == ms[i + 1..];
      i := i + 1;
    }
  }

  /** parseKeyValues: the six scans, in their fixed order, into one dictionary. */
  method ParseKeyValues(line: string) returns (r: map<string, string>)
    ensures r == KeyValuesOf(line)
  {
    r := map[];
    r := StoreMatches(Quoted, line, r);
    r := StoreMatches(Boolean, line, r);
    r := StoreMatches(Integer, line, r);
    r := StoreMatches(Decimal, line, r);
    r := StoreMatches(Call, line, r);
    r := StoreMatches(ResPath, line, r);
  }
  // ---------------------------------------------------------------------------
  // Properties of the dictionary.

  lemma UpdateIsUnion(r: map<string, string>, k: string, v: string)
    ensures r[k := v] == r + map[k := v]
  {
  }

  /** Storing a match overwrites one key of r, or nothing. */
  lemma StoreOverrides(p: Shape, r: map<string, string>, m: string)
    ensures Store(p, r, m) == r + Store(p, map[], m)
  {
    var pieces := Split(m, "=");
    if |pieces| >= 2 {
      UpdateIsUnion(r, Clean(p, pieces[0]), Clean(p, pieces[1]));
    }
  }

  /** A scan overwrites what the earlier scans stored and does not depend on it. */
  lemma {:induction false} StoreAllOverrides(p: Shape, r: map<string, string>, ms: seq<string>)
    decreases |ms|
    ensures StoreAll(p, r, ms) == r + StoreAll(p, map[], ms)
  {
    if ms != [] {
      var r1 := Store(p, r, ms[0]);
      var e1 := Store(p, map[], ms[0]);
      StoreOverrides(p, r, ms[0]);
      StoreAllOverrides(p, r1, ms[1..]);
      StoreAllOverrides(p, e1, ms[1..]);
      UnionAssoc(r, e1, StoreAll(p, map[], ms[1..]));
    }
  }

  lemma UnionAssoc(a: map<string, string>, b: map<string, string>, c: map<string, string>)
    ensures (a + b) + c == a + (b + c)
  {
  }

  /** What one scan of a line stores on its own. */
  function Layer(p: Shape, line: string): map<string, string> {
    Scan(p, map[], line)
  }

  /** The dictionary is the six scans' own dictionaries merged in scan order, a later
      scan overwriting the keys an earlier one set. */
  lemma KeyValuesLayers(line: string)
    ensures KeyValuesOf(line) ==
      Layer(Quoted, line) + Layer(Boolean, line) + Layer(Integer, line)
      + Layer(Decimal, line) + Layer(Call, line) + Layer(ResPath, line)
  {
    var r0: map<string, string> := map[];
    forall p | true
      ensures forall r :: Scan(p, r, line) == r + Layer(p, line)
    {
      forall r
        ensures Scan(p, r, line) == r + Layer(p, line)
      {
        StoreAllOverrides(p, r, FindAll(p, line));
      }
    }
    assert r0 + Layer(Quoted, line) == Layer(Quoted, line);
  }

  /** The matches re.findall finds for shape p in the line. */
  function Spans(p: Shape, t: string): (r: seq<Span>)
    ensures forall k :: 0 <= k < |r| ==> r[k].start < r[k].end <= |t| && MatchEnd(p, t, r[k].start) == Some(r[k].end)
  {
    SpansFrom(MatchEnds(p, t), 0)
  }

  /** The key/value pair each span stands for, if it is an assignment. */
  function Pairs(p: Shape, t: string, spans: seq<Span>): (r: seq<Option<(string, string)>>)
    requires forall k :: 0 <= k < |spans| ==> spans[k].start <= |t|
    ensures |r| == |spans|
  {
    seq(|spans|, k requires 0 <= k < |spans| => SpanPair(p, t, spans[k]))
  }

  /** Storing the pairs in order into r; a non-assignment is skipped. */
  function StorePairs(r: map<string, string>, pairs: seq<Option<(string, string)>>): map<string, string>
    decreases |pairs|
  {
    if pairs == [] then r
    else StorePairs(Put(r, pairs[0]), pairs[1..])
  }

  lemma StoreAllSpans(p: Shape, r: map<string, string>, t: string, spans: seq<Span>)
    requires forall k :: 0 <= k < |spans| ==>
      spans[k].start < spans[k].end <= |t| && MatchEnd(p, t, spans[k].start) == Some(spans[k].end)
    ensures StoreAll(p, r, Texts(t, spans)) == StorePairs(r, Pairs(p, t, spans))
  {
    StoreAllSpansFrom(p, r, t, spans, 0);
    assert spans[0..] == spans;
    assert Pairs(p, t, spans)[0..] == Pairs(p, t, spans);
  }

  /** The matches from the i-th on, stored one at a time. */
  lemma {:induction false} StoreAllSpansFrom(p: Shape, r: map<string, string>, t: string, spans: seq<Span>, i: nat)
    requires forall k :: 0 <= k < |spans| ==>
      spans[k].start < spans[k].end <= |t| && MatchEnd(p, t, spans[k].start) == Some(spans[k].end)
    requires i <= |spans|
    decreases |spans| - i
    ensures StoreAll(p, r, Texts(t, spans[i..])) == StorePairs(r, Pairs(p, t, spans)[i..])
  {
    if i < |spans| {
      var s := spans[i];
      StoreMatch(p, r, t, s.start, s.end);
      var r1 := Store(p, r, t[s.start..s.end]);
      TextsFrom(t, spans, i);
      StorePairsFrom(r, Pairs(p, t, spans), i);
      StoreAllSpansFrom(p, r1, t, spans, i + 1);
    }
  }

  lemma TextsFrom(t: string, spans: seq<Span>, i: nat)
    requires forall k :: 0 <= k < |spans| ==> spans[k].start <= spans[k].end <= |t|
    requires i < |spans|
    ensures Texts(t, spans[i..]) == [t[spans[i].start..spans[i].end]] + Texts(t, spans[i + 1..])
  {
    assert spans[i..][1..] == spans[i + 1..];
  }

  lemma StorePairsFrom(r: map<string, string>, pairs: seq<Option<(string, string)>>, i: nat)
    requires i < |pairs|
    ensures StorePairs(r, pairs[i..]) == StorePairs(Put(r, pairs[i]), pairs[i + 1..])
  {
    assert pairs[i..][1..] == pairs[i + 1..];
  }

  /** A scan stores, in order, the key and value text of every assignment match it finds. */
  lemma ScanStoresSpans(p: Shape, r: map<string, string>, t: string)
    ensures Scan(p, r, t) == StorePairs(r, Pairs(p, t, Spans(p, t)))
  {
    StoreAllSpans(p, r, t, Spans(p, t));
  }

  /** The keys among the pairs. */
  function PairKeys(pairs: seq<Option<(string, string)>>): set<string>
    decreases |pairs|
  {
    if pairs == [] then {}
    else
      (match pairs[0] case Some(kv) => {kv.0} case None => {}) + PairKeys(pairs[1..])
  }

  /** The keys scan p finds in the line. */
  function FoundKeys(p: Shape, t: string): set<string> {
    PairKeys(Pairs(p, t, Spans(p, t)))
  }

  /** A pair parseKeyValues can store: the key is a run of [\w_/\.], the value holds
      neither '=' nor '"'. */
  predicate WellFormedPair(kv: (string, string)) {
    IsKey(kv.0) && '=' !in kv.1 && '"' !in kv.1
  }

  predicate WellFormedPairs(m: map<string, string>) {
    forall k :: k in m ==> WellFormedPair((k, m[k]))
  }

  /** The pair an assignment match stands for is well formed. */
  lemma SpanPairFacts(p: Shape, t: string, s: Span)
    requires s.start <= |t| && SpanPair(p, t, s).Some?
    ensures WellFormedPair(SpanPair(p, t, s).value)
  {
    var j := s.start;
    var v := ValueStart(t, j).value;
    KeyAtIsKey(t, j);
    ValueFacts(p, t, v, s.end);
    ValueSlice(p, t, v, s.end);
    ValueTextFacts(p, t[v..s.end]);
  }

  lemma KeyAtIsKey(t: string, j: nat)
    requires j <= |t| && ValueStart(t, j).Some?
    ensures IsKey(KeyAt(t, j))
  {
    var key := KeyAt(t, j);
    assert forall i :: 0 <= i < |key| ==> key[i] == t[j + i];
  }

  lemma ValueTextFacts(p: Shape, x: string)
    requires DelimitedValue(p, x)
    ensures '=' !in ValueText(p, x) && '"' !in ValueText(p, x)
  {
    if p == Quoted || p == ResPath {
      var inner := x[1..|x| - 1];
      assert forall c :: c in inner ==> c in x;
    }
  }

  lemma {:induction false} StorePairsKeys(r: map<string, string>, pairs: seq<Option<(string, string)>>)
    decreases |pairs|
    ensures StorePairs(r, pairs).Keys == r.Keys + PairKeys(pairs)
  {
    if pairs != [] {
      var r1 := Put(r, pairs[0]);
      StorePairsKeys(r1, pairs[1..]);
    }
  }

  lemma {:induction false} StorePairsWellFormed(r: map<string, string>, pairs: seq<Option<(string, string)>>)
    requires WellFormedPairs(r)
    requires forall k :: 0 <= k < |pairs| && pairs[k].Some? ==> WellFormedPair(pairs[k].value)
    decreases |pairs|
    ensures WellFormedPairs(StorePairs(r, pairs))
  {
    if pairs != [] {
      var r1 := Put(r, pairs[0]);
      assert WellFormedPairs(r1);
      StorePairsWellFormed(r1, pairs[1..]);
    }
  }

  /** What one scan stores on its own: the keys it finds, well formed. */
  lemma LayerFacts(p: Shape, line: string)
    ensures Layer(p, line).Keys == FoundKeys(p, line)
    ensures WellFormedPairs(Layer(p, line))
  {
    var spans := Spans(p, line);
    var pairs := Pairs(p, line, spans);
    ScanStoresSpans(p, map[], line);
    StorePairsKeys(map[], pairs);
    forall k | 0 <= k < |pairs| && pairs[k].Some?
      ensures WellFormedPair(pairs[k].value)
    {
      SpanPairFacts(p, line, spans[k]);
    }
    StorePairsWellFormed(map[], pairs);
  }

  lemma UnionWellFormed(a: map<string, string>, b: map<string, string>)
    requires WellFormedPairs(a) && WellFormedPairs(b)
    ensures WellFormedPairs(a + b)
  {
    forall k | k in a + b
      ensures WellFormedPair((k, (a + b)[k]))
    {
      if k in b {
        assert (a + b)[k] == b[k];
      } else {
        assert (a + b)[k] == a[k];
      }
    }
  }

  /** The keys of the dictionary are exactly the keys the six scans find. */
  lemma KeyValuesKeys(line: string)
    ensures KeyValuesOf(line).Keys ==
      FoundKeys(Quoted, line) + FoundKeys(Boolean, line) + FoundKeys(Integer, line)
      + FoundKeys(Decimal, line) + FoundKeys(Call, line) + FoundKeys(ResPath, line)
  {
    KeyValuesLayers(line);
    LayerFacts(Quoted, line);
    LayerFacts(Boolean, line);
    LayerFacts(Integer, line);
    LayerFacts(Decimal, line);
    LayerFacts(Call, line);
    LayerFacts(ResPath, line);
  }

  /** Every key of the dictionary is a run of [\w_/\.] characters, and no value holds '='
      or '"'. */
  lemma KeyValuesWellFormed(line: string)
    ensures WellFormedPairs(KeyValuesOf(line))
  {
    KeyValuesLayers(line);
    LayerFacts(Quoted, line);
    LayerFacts(Boolean, line);
    LayerFacts(Integer, line);
    LayerFacts(Decimal, line);
    LayerFacts(Call, line);
    LayerFacts(ResPath, line);
    var m1 := Layer(Quoted, line) + Layer(Boolean, line);
    UnionWellFormed(Layer(Quoted, line), Layer(Boolean, line));
    var m2 := m1 + Layer(Integer, line);
    UnionWellFormed(m1, Layer(Integer, line));
    var m3 := m2 + Layer(Decimal, line);
    UnionWellFormed(m2, Layer(Decimal, line));
    var m4 := m3 + Layer(Call, line);
    UnionWellFormed(m3, Layer(Call, line));
    UnionWellFormed(m4, Layer(ResPath, line));
  }

  lemma {:induction false} StorePairsFalse(r: map<string, string>, pairs: seq<Option<(string, string)>>)
    requires forall k :: k in r ==> r[k] == "false"
    requires forall k :: 0 <= k < |pairs| && pairs[k].Some? ==> pairs[k].value.1 == "false"
    decreases |pairs|
    ensures forall k :: k in StorePairs(r, pairs) ==> StorePairs(r, pairs)[k] == "false"
  {
    if pairs != [] {
      var r1 := Put(r, pairs[0]);
      StorePairsFalse(r1, pairs[1..]);
    }
  }

  lemma BooleanPairFalse(t: string, s: Span)
    requires s.start <= |t| && SpanPair(Boolean, t, s).Some?
    ensures SpanPair(Boolean, t, s).value.1 == "false"
  {
    var v := ValueStart(t, s.start).value;
    assert t[v..s.end] == "false";
  }

  /** The boolean scan stores only "false": `key = true` is matched as a bare "true" and dropped. */
  lemma BooleanLayerFalse(line: string)
    ensures forall k :: k in Layer(Boolean, line) ==> Layer(Boolean, line)[k] == "false"
  {
    var spans := Spans(Boolean, line);
    var pairs := Pairs(Boolean, line, spans);
    ScanStoresSpans(Boolean, map[], line);
    forall k | 0 <= k < |pairs| && pairs[k].Some?
      ensures pairs[k].value.1 == "false"
    {
      BooleanPairFalse(line, spans[k]);
    }
    StorePairsFalse(map[], pairs);
  }

}
