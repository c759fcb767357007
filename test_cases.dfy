/** The cases test.py checks, stated about the model: the dictionary of a short
    assignment line, the three heading builders on the dictionaries of the example
    headings, and the project file that is not there. */
module TestCases {
  import opened Wrappers
  import opened Text
  import opened Helpers
  import opened Patterns
  import opened KeyValues
  import opened Sections
  import opened Entities
  import opened ProjectFiles

  // ---------------------------------------------------------------- parseKeyValues

  /** The `total=8.45` item of the line test.py parses. */
  const Total: string := "total=8.45"

  /** Where a pattern occurs, each of its characters stands at its offset. */
  lemma OccursAtIndex(t: string, s: string, j: int, k: nat)
    requires OccursAt(t, s, j) && k < |s|
    ensures t[j + k] == s[k]
  {
    assert t[j + k] == t[j..j + |s|][k];
  }

  /** The key `total` is followed by '=' at 5, so every start inside the key reaches the
      value at 6; from the '=' on no start finds an '=' after its key. */
  lemma TotalValueStart(q: nat)
    requires q <= |Total|
    ensures q < 5 ==> ValueStart(Total, q) == Some(6)
    ensures q >= 5 ==> ValueStart(Total, q) == None
  {
    if q < 5 {
      assert AllIn(Total, q, 5, KeyChar);
      ValueStartIff(Total, q, 5, 5, 6);
    } else if q == 5 {
      assert RunEnd(Total, 5, KeyChar) == 5;
    } else {
      assert AllIn(Total, q, 10, KeyChar);
      RunEndUnique(Total, q, KeyChar, 10);
    }
  }

  /** The integer scan matches `total=8` at each start inside the key. */
  lemma TotalIntegerEnds(q: nat)
    requires q < |Total|
    ensures MatchEnd(Integer, Total, q) == if q < 5 then Some(7) else None
  {
    TotalValueStart(q);
    if q < 5 {
      RunEndUnique(Total, 6, Digit, 7);
    }
  }

  /** The decimal scan matches the whole item at each start inside the key. */
  lemma TotalDecimalEnds(q: nat)
    requires q < |Total|
    ensures MatchEnd(Decimal, Total, q) == if q < 5 then Some(10) else None
  {
    TotalValueStart(q);
    if q < 5 {
      assert DecimalAt(Total, 6, 7, 10);
      DecimalEndComplete(Total, 6, 7, 10);
    }
  }

  /** The other four scans match nothing: there is no '"', no "false", no bare "true"
      and no call. */
  lemma TotalOtherEnds(p: Shape, q: nat)
    requires p != Integer && p != Decimal && q < |Total|
    ensures MatchEnd(p, Total, q) == None
  {
    TotalValueStart(q);
    if q < 5 {
      TotalOtherValue(p);
    }
    if p == Boolean {
      TotalNoTrue(q);
    }
  }

  lemma TotalOtherValue(p: Shape)
    requires p != Integer && p != Decimal
    ensures ValueEnd(p, Total, 6) == None
  {
    if p == Call {
      assert RunEnd(Total, 6, Letter) == 6;
    }
  }

  lemma TotalNoTrue(q: nat)
    requires q < |Total|
    ensures !OccursAt(Total, "true", q)
  {
    if OccursAt(Total, "true", q) {
      OccursAtIndex(Total, "true", q, 2);
    }
  }

  /** re.findall keeps the match at the first start and resumes after it. */
  lemma {:induction false} SpansNone(ends: seq<Option<nat>>, i: nat)
    requires EndsAfter(ends) && i <= |ends|
    requires forall q :: i <= q < |ends| ==> ends[q].None?
    decreases |ends| - i
    ensures SpansFrom(ends, i) == []
  {
    if i < |ends| {
      SpansNone(ends, i + 1);
    }
  }

  /** A scan that matches nothing adds nothing. */
  lemma EmptyLayer(p: Shape, t: string)
    requires forall q :: 0 <= q < |t| ==> MatchEnd(p, t, q).None?
    ensures Layer(p, t) == map[]
  {
    SpansNone(MatchEnds(p, t), 0);
    ScanStoresSpans(p, map[], t);
  }

  /** Positions with no match are passed over. */
  lemma {:induction false} SpansSkip(ends: seq<Option<nat>>, i: nat, j: nat)
    requires EndsAfter(ends) && i <= j <= |ends|
    requires forall q :: i <= q < j ==> ends[q].None?
    decreases j - i
    ensures SpansFrom(ends, i) == SpansFrom(ends, j)
  {
    if i < j {
      SpansSkip(ends, i + 1, j);
    }
  }

  /** A scan whose one match is t[j..e], standing for the pair (key, value). */
  lemma OneMatchLayer(p: Shape, t: string, j: nat, e: nat, key: string, value: string)
    requires j < |t| && MatchEnd(p, t, j) == Some(e)
    requires forall q :: 0 <= q < j ==> MatchEnd(p, t, q).None?
    requires forall q :: e <= q < |t| ==> MatchEnd(p, t, q).None?
    requires SpanPair(p, t, Span(j, e)) == Some((key, value))
    ensures Layer(p, t) == map[key := value]
  {
    var ends := MatchEnds(p, t);
    SpansSkip(ends, 0, j);
    SpansNone(ends, e);
    assert SpansFrom(ends, j) == [Span(j, e)] + SpansFrom(ends, e);
    ScanStoresSpans(p, map[], t);
    assert Pairs(p, t, Spans(p, t)) == [Some((key, value))];
  }

  /** The integer scan stores "8" for `total`. */
  lemma TotalIntegerLayer()
    ensures Layer(Integer, Total) == map["total" := "8"]
  {
    forall q | 0 <= q < |Total|
      ensures MatchEnd(Integer, Total, q) == if q < 5 then Some(7) else None
    {
      TotalIntegerEnds(q);
    }
    TotalValueStart(0);
    RunEndUnique(Total, 0, KeyChar, 5);
    assert KeyAt(Total, 0) == "total";
    assert Total[6..7] == "8";
    OneMatchLayer(Integer, Total, 0, 7, "total", "8");
  }

  /** The decimal scan stores "8.45" for `total`. */
  lemma TotalDecimalSpan()
    ensures SpanPair(Decimal, Total, Span(0, 10)) == Some(("total", "8.45"))
  {
    TotalValueStart(0);
    TotalDecimalValue();
    RunEndUnique(Total, 0, KeyChar, 5);
    TotalText();
    SpanPairAt(Decimal, Total, 0, 5, 6, 10, "total", "8.45");
  }

  lemma TotalDecimalValue()
    ensures ValueEnd(Decimal, Total, 6) == Some(10)
  {
    assert DecimalAt(Total, 6, 7, 10);
    DecimalEndComplete(Total, 6, 7, 10);
  }

  lemma TotalText()
    ensures Total[0..5] == "total" && Total[6..10] == "8.45"
  {
  }

  lemma TotalDecimalLayer()
    ensures Layer(Decimal, Total) == map["total" := "8.45"]
  {
    forall q | 0 <= q < |Total|
      ensures MatchEnd(Decimal, Total, q) == if q < 5 then Some(10) else None
    {
      TotalDecimalEnds(q);
    }
    TotalDecimalSpan();
    OneMatchLayer(Decimal, Total, 0, 10, "total", "8.45");
  }

  lemma TotalEmptyLayer(p: Shape)
    requires p != Integer && p != Decimal
    ensures Layer(p, Total) == map[]
  {
    forall q | 0 <= q < |Total|
      ensures MatchEnd(p, Total, q).None?
    {
      TotalOtherEnds(p, q);
    }
    EmptyLayer(p, Total);
  }

  /** Only the integer and decimal scans store anything; the decimal scan runs later. */
  lemma DecimalOverInteger(line: string, key: string, n: string, d: string)
    requires Layer(Quoted, line) == map[] && Layer(Boolean, line) == map[]
    requires Layer(Call, line) == map[] && Layer(ResPath, line) == map[]
    requires Layer(Integer, line) == map[key := n] && Layer(Decimal, line) == map[key := d]
    ensures KeyValuesOf(line) == map[key := d]
  {
    KeyValuesLayers(line);
  }

  /** `total=8.45` is matched both by the integer scan, as `total=8`, and by the decimal
      scan; the decimal scan runs later, so the dictionary ends with the decimal. */
  lemma TotalKeyValues()
    ensures Layer(Integer, Total) == map["total" := "8"]
    ensures KeyValuesOf(Total) == map["total" := "8.45"]
  {
    TotalIntegerLayer();
    TotalDecimalLayer();
    TotalEmptyLayer(Quoted);
    TotalEmptyLayer(Boolean);
    TotalEmptyLayer(Call);
    TotalEmptyLayer(ResPath);
    DecimalOverInteger(Total, "total", "8", "8.45");
  }

  // ------------------------------------------------------------ a whole heading line

  /** The character of a pattern at k sits at j + k in the text it occurs in. */

  /** Every start inside a run of key characters t[j..k] that the spaces after it lead
      to s1, where no '=' stands, captures no key. */
  lemma KeyRunNone(t: string, j: nat, k: nat, s1: nat)
    requires j < k <= s1 <= |t|
    requires AllIn(t, j, k, KeyChar) && (k == |t| || !InClass(t[k], KeyChar))
    requires AllIn(t, k, s1, Space) && (s1 == |t| || !IsSpace(t[s1]))
    requires s1 == |t| || t[s1] != '='
    ensures forall q :: j <= q < k ==> ValueStart(t, q) == None
  {
    RunEndUnique(t, k, Space, s1);
    forall q | j <= q < k
      ensures ValueStart(t, q) == None
    {
      RunEndUnique(t, q, KeyChar, k);
    }
  }

  /** Every start inside a run of key characters t[j..k] followed, after spaces, by '='
      at s1 reaches the value at v. */
  lemma KeyRunAssign(t: string, j: nat, k: nat, s1: nat, v: nat)
    requires j < k <= s1 < v <= |t|
    requires AllIn(t, j, k, KeyChar) && (k == |t| || !InClass(t[k], KeyChar))
    requires AllIn(t, k, s1, Space) && t[s1] == '='
    requires AllIn(t, s1 + 1, v, Space) && (v == |t| || !IsSpace(t[v]))
    ensures forall q :: j <= q < k ==> ValueStart(t, q) == Some(v)
  {
    forall q | j <= q < k
      ensures ValueStart(t, q) == Some(v)
    {
      ValueStartIff(t, q, k, s1, v);
    }
  }

  /** A start on a character outside [\w_/\.] captures no key. */
  lemma NoKeyStart(t: string, q: nat)
    requires q < |t| && !InClass(t[q], KeyChar)
    ensures ValueStart(t, q) == None
  {
  }

  lemma SliceLeft(x: string, y: string, i: nat, j: nat)
    requires i <= j <= |x|
    ensures (x + y)[i..j] == x[i..j]
  {
  }

  lemma SliceRight(x: string, y: string, i: nat, j: nat)
    requires i <= j <= |y|
    ensures (x + y)[|x| + i..|x| + j] == y[i..j]
  {
  }

  /** The heading line of the ext_resource test, written in three pieces:
      `[ext_resource path="res://src/ClothHolder/ClothHolder.tscn" type="PackedScene" id=21]`. */
  const ClothLine: string := ClothA + ClothB + ClothC
  const ClothA: string := "[ext_resource path=\"res://src/"
  const ClothB: string := "ClothHolder/ClothHolder.tscn\" type="
  const ClothC: string := "\"PackedScene\" id=21]"

  /** Where the value starts for a match attempted at q: after the keys path, type and id. */
  function ClothStart(q: nat): Option<nat> {
    if 14 <= q < 18 then Some(19)
    else if 60 <= q < 64 then Some(65)
    else if 79 <= q < 81 then Some(82)
    else None
  }

  // The eight runs of key characters, in order.

  lemma ClothRunExtResource()
    ensures forall q :: 1 <= q < 13 ==> ValueStart(ClothLine, q) == None
  {
    KeyRunNone(ClothLine, 1, 13, 14);
  }

  lemma ClothRunPath()
    ensures forall q :: 14 <= q < 18 ==> ValueStart(ClothLine, q) == Some(19)
  {
    KeyRunAssign(ClothLine, 14, 18, 18, 19);
  }

  lemma ClothRunRes()
    ensures forall q :: 20 <= q < 23 ==> ValueStart(ClothLine, q) == None
  {
    KeyRunNone(ClothLine, 20, 23, 23);
  }

  lemma ClothRunFile()
    ensures forall q :: 24 <= q < 58 ==> ValueStart(ClothLine, q) == None
  {
    KeyRunNone(ClothLine, 24, 58, 58);
  }

  lemma ClothRunType()
    ensures forall q :: 60 <= q < 64 ==> ValueStart(ClothLine, q) == Some(65)
  {
    KeyRunAssign(ClothLine, 60, 64, 64, 65);
  }

  lemma ClothRunScene()
    ensures forall q :: 66 <= q < 77 ==> ValueStart(ClothLine, q) == None
  {
    KeyRunNone(ClothLine, 66, 77, 77);
  }

  lemma ClothRunId()
    ensures forall q :: 79 <= q < 81 ==> ValueStart(ClothLine, q) == Some(82)
  {
    KeyRunAssign(ClothLine, 79, 81, 81, 82);
  }

  lemma ClothRunNumber()
    ensures forall q :: 82 <= q < 84 ==> ValueStart(ClothLine, q) == None
  {
    KeyRunNone(ClothLine, 82, 84, 84);
  }

  /** The positions between the runs hold no key character. */
  lemma ClothGap(q: nat)
    requires q in {0, 13, 18, 19, 23, 58, 59, 64, 65, 77, 78, 81, 84}
    ensures ValueStart(ClothLine, q) == None
  {
    NoKeyStart(ClothLine, q);
  }

  lemma ClothValueStart(q: nat)
    requires q < |ClothLine|
    ensures ValueStart(ClothLine, q) == ClothStart(q)
  {
    if q in {0, 13, 18, 19, 23, 58, 59, 64, 65, 77, 78, 81, 84} {
      ClothGap(q);
    } else if q < 13 {
      ClothRunExtResource();
    } else if q < 18 {
      ClothRunPath();
    } else if q < 23 {
      ClothRunRes();
    } else if q < 58 {
      ClothRunFile();
    } else if q < 64 {
      ClothRunType();
    } else if q < 77 {
      ClothRunScene();
    } else if q < 81 {
      ClothRunId();
    } else {
      ClothRunNumber();
    }
  }

  /** The line holds no bare "true": its only 'u' is in "ext_resource", after an 'o'. */
  lemma ClothOnlyU(i: nat)
    requires i < |ClothLine| && ClothLine[i] == 'u'
    ensures i == 9
  {
  }

  lemma ClothNoTrue(q: int)
    ensures !OccursAt(ClothLine, "true", q)
  {
    if OccursAt(ClothLine, "true", q) {
      OccursAtIndex(ClothLine, "true", q, 2);
      ClothOnlyU(q + 2);
      OccursAtIndex(ClothLine, "true", q, 0);
    }
  }

  /** The res:// shape runs from the value of path to its closing quote. */
  lemma ClothPathResPath()
    ensures ValueEnd(ResPath, ClothLine, 19) == Some(59)
  {
    assert ClothLine[19..26] == "\"res://";
    RunEndUnique(ClothLine, 26, ResPathChar, 58);
  }

  /** The quoted shape stops at the ':' of `res://`. */
  lemma ClothPathQuoted()
    ensures ValueEnd(Quoted, ClothLine, 19) == None
  {
    RunEndUnique(ClothLine, 20, QuotedChar, 23);
  }

  /** At the value of path only the res:// shape matches, up to the closing quote. */
  lemma ClothPathValue(p: Shape)
    ensures ValueEnd(p, ClothLine, 19) == if p == ResPath then Some(59) else None
  {
    if p == Quoted {
      ClothPathQuoted();
    } else if p == ResPath {
      ClothPathResPath();
    } else if p == Boolean {
      if OccursAt(ClothLine, "false", 19) {
        OccursAtIndex(ClothLine, "false", 19, 0);
      }
    } else if p == Call {
      assert RunEnd(ClothLine, 19, Letter) == 19;
    } else {
      assert RunEnd(ClothLine, 19, Digit) == 19;
    }
  }

  lemma ClothTypeQuoted()
    ensures ValueEnd(Quoted, ClothLine, 65) == Some(78)
  {
    RunEndUnique(ClothLine, 66, QuotedChar, 77);
  }

  /** The value of type is no `res://` path. */
  lemma ClothTypeResPath()
    ensures ValueEnd(ResPath, ClothLine, 65) == None
  {
    if OccursAt(ClothLine, "\"res://", 65) {
      OccursAtIndex(ClothLine, "\"res://", 65, 1);
    }
  }

  /** At the value of type only the quoted shape matches. */
  lemma ClothTypeValue(p: Shape)
    ensures ValueEnd(p, ClothLine, 65) == if p == Quoted then Some(78) else None
  {
    if p == Quoted {
      ClothTypeQuoted();
    } else if p == ResPath {
      ClothTypeResPath();
    } else if p == Boolean {
      if OccursAt(ClothLine, "false", 65) {
        OccursAtIndex(ClothLine, "false", 65, 0);
      }
    } else if p == Call {
      assert RunEnd(ClothLine, 65, Letter) == 65;
    }
  }

  /** At the value of id only the integer shape matches; `21]` is no decimal. */
  lemma ClothIdValue(p: Shape)
    ensures ValueEnd(p, ClothLine, 82) == if p == Integer then Some(84) else None
  {
    if p == Integer || p == Decimal {
      RunEndUnique(ClothLine, 82, Digit, 84);
    }
  }

  /** re.match of each scan at each position of the line. */
  function ClothEnd(p: Shape, q: nat): Option<nat> {
    match p
    case Quoted => if 60 <= q < 64 then Some(78) else None
    case Integer => if 79 <= q < 81 then Some(84) else None
    case ResPath => if 14 <= q < 18 then Some(59) else None
    case _ => None
  }

  lemma ClothMatchEnd(p: Shape, q: nat)
    requires q < |ClothLine|
    ensures MatchEnd(p, ClothLine, q) == ClothEnd(p, q)
  {
    ClothValueStart(q);
    ClothNoTrue(q);
    if 14 <= q < 18 {
      ClothPathValue(p);
    } else if 60 <= q < 64 {
      ClothTypeValue(p);
    } else if 79 <= q < 81 {
      ClothIdValue(p);
    }
  }

  /** No match of shape p starts in [lo, hi) when ClothEnd says so. */
  lemma ClothNone(p: Shape, lo: nat, hi: nat)
    requires hi <= |ClothLine|
    requires forall q :: lo <= q < hi ==> ClothEnd(p, q).None?
    ensures forall q :: lo <= q < hi ==> MatchEnd(p, ClothLine, q).None?
  {
    forall q | lo <= q < hi
      ensures MatchEnd(p, ClothLine, q).None?
    {
      ClothMatchEnd(p, q);
    }
  }

  /** The pair stored for a match at j whose key runs to k and whose value spans [v, e). */
  lemma SpanPairAt(p: Shape, t: string, j: nat, k: nat, v: nat, e: nat, key: string, value: string)
    requires j <= k <= |t| && v <= e <= |t|
    requires ValueStart(t, j) == Some(v) && ValueEnd(p, t, v) == Some(e)
    requires RunEnd(t, j, KeyChar) == k && t[j..k] == key && ValueText(p, t[v..e]) == value
    ensures SpanPair(p, t, Span(j, e)) == Some((key, value))
  {
  }

  lemma ClothTypeSpan()
    ensures SpanPair(Quoted, ClothLine, Span(60, 78)) == Some(("type", "PackedScene"))
  {
    ClothValueStart(60);
    ClothTypeQuoted();
    RunEndUnique(ClothLine, 60, KeyChar, 64);
    ClothTypeText();
    SpanPairAt(Quoted, ClothLine, 60, 64, 65, 78, "type", "PackedScene");
  }

  lemma ClothTypeText()
    ensures ClothLine[60..64] == "type" && ValueText(Quoted, ClothLine[65..78]) == "PackedScene"
  {
    SliceLeft(ClothA + ClothB, ClothC, 60, 64);
    SliceRight(ClothA, ClothB, 30, 34);
    assert ClothB[30..34] == "type";
    SliceRight(ClothA + ClothB, ClothC, 0, 13);
    assert ClothC[0..13] == "\"PackedScene\"";
  }

  /** The quoted-string scan finds only `type="PackedScene"`. */
  lemma ClothTypeLayer()
    ensures Layer(Quoted, ClothLine) == map["type" := "PackedScene"]
  {
    ClothNone(Quoted, 0, 60);
    ClothNone(Quoted, 78, |ClothLine|);
    ClothMatchEnd(Quoted, 60);
    ClothTypeSpan();
    OneMatchLayer(Quoted, ClothLine, 60, 78, "type", "PackedScene");
  }

  lemma ClothIdSpan()
    ensures SpanPair(Integer, ClothLine, Span(79, 84)) == Some(("id", "21"))
  {
    ClothValueStart(79);
    ClothIdValue(Integer);
    RunEndUnique(ClothLine, 79, KeyChar, 81);
    ClothIdText();
    SpanPairAt(Integer, ClothLine, 79, 81, 82, 84, "id", "21");
  }

  lemma ClothIdText()
    ensures ClothLine[79..81] == "id" && ValueText(Integer, ClothLine[82..84]) == "21"
  {
    SliceRight(ClothA + ClothB, ClothC, 14, 16);
    SliceRight(ClothA + ClothB, ClothC, 17, 19);
    assert ClothC[14..16] == "id" && ClothC[17..19] == "21";
  }

  /** The integer scan finds only `id=21`. */
  lemma ClothIdLayer()
    ensures Layer(Integer, ClothLine) == map["id" := "21"]
  {
    ClothNone(Integer, 0, 79);
    ClothNone(Integer, 84, |ClothLine|);
    ClothMatchEnd(Integer, 79);
    ClothIdSpan();
    OneMatchLayer(Integer, ClothLine, 79, 84, "id", "21");
  }

  lemma ClothPathSpan()
    ensures SpanPair(ResPath, ClothLine, Span(14, 59)) == Some(("path", "res://src/ClothHolder/ClothHolder.tscn"))
  {
    ClothValueStart(14);
    ClothPathResPath();
    RunEndUnique(ClothLine, 14, KeyChar, 18);
    ClothPathText();
    SpanPairAt(ResPath, ClothLine, 14, 18, 19, 59, "path", "res://src/ClothHolder/ClothHolder.tscn");
  }

  lemma ClothPathText()
    ensures ClothLine[14..18] == "path"
    ensures ValueText(ResPath, ClothLine[19..59]) == "res://src/ClothHolder/ClothHolder.tscn"
  {
    SliceLeft(ClothA + ClothB, ClothC, 14, 18);
    SliceLeft(ClothA, ClothB, 14, 18);
    assert ClothA[14..18] == "path";
    SliceLeft(ClothA + ClothB, ClothC, 19, 59);
    ClothPathStripped();
  }

  /** The path's value text spans the first two pieces of the line. */
  lemma ClothPathStripped()
    ensures ValueText(ResPath, (ClothA + ClothB)[19..59]) == "res://src/ClothHolder/ClothHolder.tscn"
  {
    var x, y := ClothA[19..], ClothB[..29];
    assert (ClothA + ClothB)[19..59] == x + y;
    assert (x + y)[1..|x + y| - 1] == x[1..] + y[..28];
    assert x[1..] == "res://src/";
    assert y[..28] == "ClothHolder/ClothHolder.tscn";
    ResPathPiecesJoin();
  }

  /** The path's two pieces join into the stored value. */
  lemma ResPathPiecesJoin()
    ensures "res://src/" + "ClothHolder/ClothHolder.tscn" == "res://src/ClothHolder/ClothHolder.tscn"
  {
  }

  /** The res:// scan finds only the path, and keeps its `res://`. */
  lemma ClothPathLayer()
    ensures Layer(ResPath, ClothLine) == map["path" := "res://src/ClothHolder/ClothHolder.tscn"]
  {
    ClothNone(ResPath, 0, 14);
    ClothNone(ResPath, 59, |ClothLine|);
    ClothMatchEnd(ResPath, 14);
    ClothPathSpan();
    OneMatchLayer(ResPath, ClothLine, 14, 59, "path", "res://src/ClothHolder/ClothHolder.tscn");
  }

  lemma ClothEmptyLayer(p: Shape)
    requires p == Boolean || p == Decimal || p == Call
    ensures Layer(p, ClothLine) == map[]
  {
    ClothNone(p, 0, |ClothLine|);
    EmptyLayer(p, ClothLine);
  }

  /** The dictionary of a line on which three scans each store one pair under distinct
      keys and the other three store nothing. */
  lemma ThreeLayers(line: string, a: string, x: string, b: string, y: string, c: string, z: string)
    requires Layer(Quoted, line) == map[a := x] && Layer(Integer, line) == map[b := y]
    requires Layer(ResPath, line) == map[c := z]
    requires Layer(Boolean, line) == map[] && Layer(Decimal, line) == map[] && Layer(Call, line) == map[]
    requires a != b && b != c && a != c
    ensures KeyValuesOf(line) == map[c := z, a := x, b := y]
  {
    KeyValuesLayers(line);
    MergeThree(a, x, b, y, c, z);
  }

  lemma MergeThree(a: string, x: string, b: string, y: string, c: string, z: string)
    requires a != b && b != c && a != c
    ensures map[a := x] + map[] + map[b := y] + map[] + map[] + map[c := z] == map[c := z, a := x, b := y]
  {
    var e: map<string, string> := map[];
    var m := map[a := x] + e + map[b := y] + e + e + map[c := z];
    assert m.Keys == {a, b, c};
  }

  /** parseKeyValues on the whole heading line gives path (with its `res://`), type and id. */
  lemma ClothKeyValues()
    ensures KeyValuesOf(ClothLine) == ClothHolderItems
  {
    ClothTypeLayer();
    ClothIdLayer();
    ClothPathLayer();
    ClothEmptyLayer(Boolean);
    ClothEmptyLayer(Decimal);
    ClothEmptyLayer(Call);
    ThreeLayers(ClothLine, "type", "PackedScene", "id", "21", "path", "res://src/ClothHolder/ClothHolder.tscn");
  }

  predicate NoBreaks(a: string) {
    forall i :: 0 <= i < |a| ==> !IsLineBreak(a[i])
  }

  lemma NoBreaksConcat(a: string, b: string)
    requires NoBreaks(a) && NoBreaks(b)
    ensures NoBreaks(a + b)
  {
    forall i | 0 <= i < |a + b|
      ensures !IsLineBreak((a + b)[i])
    {
      if i >= |a| {
        assert (a + b)[i] == b[i - |a|];
      }
    }
  }

  /** The line is an ext_resource heading. */
  lemma ClothSectionType()
    ensures GetSectionType(ClothLine) == ExtResource
  {
    assert ClothLine[..14] == "[ext_resource ";
    assert ClothLine[14..][70] == ']';
  }

  lemma ClothPiecesNoBreaks()
    ensures NoBreaks(ClothA) && NoBreaks(ClothB) && NoBreaks(ClothC)
  {
    ClothAHasNoLineBreak();
    ClothBHasNoLineBreak();
  }

  /** Neither of the first two pieces holds a line boundary (the third is short enough
      for the caller to see at once). */
  lemma ClothAHasNoLineBreak()
    ensures NoBreaks(ClothA)
  {
  }

  lemma ClothBHasNoLineBreak()
    ensures NoBreaks(ClothB)
  {
  }

  /** The line is a line of its own. */
  lemma ClothSplit()
    ensures SplitLines(ClothLine) == [ClothLine]
  {
    ClothPiecesNoBreaks();
    NoBreaksConcat(ClothA, ClothB);
    NoBreaksConcat(ClothA + ClothB, ClothC);
    SplitLinesSingle(ClothLine);
  }

  /** A section of one ext_resource line is built from that line's dictionary. */
  lemma OneLineResource(section: string, kv: map<string, string>, x: HeadingExtResource)
    requires SplitLines(section) == [section] && Info(section) == LineInfo(ExtResource, kv)
    requires ExtResourceFields(EmptyExtResource, kv) == Success(x)
    ensures HeadingExtResourceOf(section) == Success(x)
  {
    var infos := Infos(SplitLines(section));
    assert infos == [LineInfo(ExtResource, kv)];
    assert FirstOfType(infos, ExtResource) == Some(0) by {
      assert infos[..0] == [];
    }
    ExtResourceReadsHeading(infos);
  }

  /** HeadingExtResource on the test's line: path src/ClothHolder/ClothHolder.tscn, type
      PackedScene, id 21. */
  lemma ClothHeading()
    ensures HeadingExtResourceOf(ClothLine) == Success(ClothHolder)
  {
    ClothSectionType();
    ClothSplit();
    ClothKeyValues();
    ClothHolderFields();
    OneLineResource(ClothLine, ClothHolderItems, ClothHolder);
  }

  // ---------------------------------------------------------------- HeadingNode

  /** The dictionary of the node heading test.py builds from:
      `[node name ="Level" type = "Spatial" parent="." instance= ExtResource( 27 )]`. */
  const LevelItems: map<string, string> :=
    map["name" := "Level", "type" := "Spatial", "parent" := ".", "instance" := "ExtResource( 27 )"]

  /** The dictionary of the line after it: `script = ExtResource( 2 )`. */
  const ScriptItems: map<string, string> := map["script" := "ExtResource( 2 )"]

  const LevelNode: HeadingNode :=
    HeadingNode(Some("Level"), Some("Spatial"), Some("."), Some(EntryExtResource(27)), Some(EntryExtResource(2)))

  lemma ExtResource2()
    ensures ExtResourceRef("ExtResource( 2 )") == Success(EntryExtResource(2))
  {
    assert DecimalString(2) == "2";
    assert "ExtResource( 2 )" == [] + "ExtResource(" + (" " + DecimalString(2) + " ") + ")" + [];
    ExtResourceRefReads([], " ", 2, " ", []);
  }

  /** The heading sets name, type, parent and instance 27, and no script. */
  lemma LevelHeading()
    ensures HeadingFields(EmptyNode, LevelItems) == Success(LevelNode.(script := None))
    ensures ScriptField(LevelNode.(script := None), LevelItems) == Success(LevelNode.(script := None))
  {
    var kv := LevelItems;
    assert kv["name"] == "Level" && kv["type"] == "Spatial" && kv["parent"] == ".";
    assert "script" !in kv;
    assert kv["instance"] == "ExtResource( 27 )";
    ExtResource27();
    var r := HeadingFields(EmptyNode, kv);
    assert r.Success?;
    assert r.value.instance == Some(EntryExtResource(27));
  }

  /** The script line sets script 2. */
  lemma LevelScript()
    ensures ScriptField(LevelNode.(script := None), ScriptItems) == Success(LevelNode)
  {
    ExtResource2();
  }

  /** A Node heading line read first: its fields, then its own script item. */
  lemma NodeHeadingLine(heading: LineInfo, n1: HeadingNode)
    requires heading.kind == Node
    requires HeadingFields(EmptyNode, heading.kv).Success?
    requires ScriptField(HeadingFields(EmptyNode, heading.kv).value, heading.kv) == Success(n1)
    ensures NodeLines([heading]) == Success(NodeWalk(n1, true))
  {
    assert [heading][..0] == [];
  }

  /** A Node heading line followed by one more line: the heading's fields, then the
      script items of both lines. */
  lemma NodeTwoLines(heading: LineInfo, next: LineInfo, n1: HeadingNode, n2: HeadingNode)
    requires NodeLines([heading]) == Success(NodeWalk(n1, true))
    requires ScriptField(n1, next.kv) == Success(n2)
    ensures NodeLines([heading, next]) == Success(NodeWalk(n2, true))
  {
    var infos := [heading, next];
    assert infos[..1] == [heading];
    NodeLinesSnoc(infos, 1);
    assert infos[..2] == infos;
  }

  /** The heading line and the script line build the node test.py expects. */
  lemma LevelNodeBuilt(heading: LineInfo, script: LineInfo)
    requires heading == LineInfo(Node, LevelItems) && script.kv == ScriptItems
    ensures NodeLines([heading, script]) == Success(NodeWalk(LevelNode, true))
  {
    LevelHeading();
    LevelScript();
    NodeHeadingLine(heading, LevelNode.(script := None));
    NodeTwoLines(heading, script, LevelNode.(script := None), LevelNode);
  }

  // ---------------------------------------------------------------- HeadingConnection

  /** The dictionary of `[connection signal="pressed" from="Button" to="." method="on_button_pressed"]`. */
  const PressedItems: map<string, string> :=
    map["signal" := "pressed", "from" := "Button", "to" := ".", "method" := "on_button_pressed"]

  /** The connection is read from its heading line, whatever lines surround it. */
  lemma PressedConnection(infos: seq<LineInfo>)
    requires FirstOfType(infos, Connection).Some?
    requires infos[FirstOfType(infos, Connection).value].kv == PressedItems
    ensures ConnectionLines(infos) ==
      ConnectionWalk(HeadingConnection(Some("pressed"), Some("Button"), Some("."), Some("on_button_pressed")), true)
  {
    ConnectionReadsHeading(infos);
  }

  // ---------------------------------------------------------------- HeadingExtResource

  /** The dictionary of
      `[ext_resource path="res://src/ClothHolder/ClothHolder.tscn" type="PackedScene" id=21]`. */
  const ClothHolderItems: map<string, string> :=
    map["path" := "res://src/ClothHolder/ClothHolder.tscn", "type" := "PackedScene", "id" := "21"]

  const ClothHolder: HeadingExtResource :=
    HeadingExtResource(Some("src/ClothHolder/ClothHolder.tscn"), Some("PackedScene"), 21)

  lemma ClothHolderPath()
    ensures After("res://src/ClothHolder/ClothHolder.tscn", "res://") == "src/ClothHolder/ClothHolder.tscn"
  {
    assert "res://src/ClothHolder/ClothHolder.tscn" == [] + "res://" + "src/ClothHolder/ClothHolder.tscn";
    AfterFirst([], "res://", "src/ClothHolder/ClothHolder.tscn");
  }

  lemma ParseInt21()
    ensures ParseInt("21") == Success(21)
  {
    assert DecimalString(21) == "21";
    assert "21" == [] + DecimalString(21) + [];
    ParseIntDecimal(21, [], []);
  }

  /** The path loses its `res://`, the type is kept and the id is read as 21. */
  lemma ClothHolderFields()
    ensures ExtResourceFields(EmptyExtResource, ClothHolderItems) == Success(ClothHolder)
  {
    var kv := ClothHolderItems;
    assert kv["path"] == "res://src/ClothHolder/ClothHolder.tscn";
    assert kv["type"] == "PackedScene" && kv["id"] == "21";
    ClothHolderPath();
    ParseInt21();
    var r := ExtResourceFields(EmptyExtResource, kv);
    assert r.Success?;
    assert r.value.path == ClothHolder.path && r.value.typeName == ClothHolder.typeName;
  }

  /** The resource is read from its heading line, whatever lines surround it. */
  lemma ClothHolderResource(infos: seq<LineInfo>)
    requires FirstOfType(infos, ExtResource).Some?
    requires infos[FirstOfType(infos, ExtResource).value].kv == ClothHolderItems
    ensures ExtResourceLines(infos) == Success(ExtResourceWalk(ClothHolder, true))
  {
    ExtResourceReadsHeading(infos);
    ClothHolderFields();
  }

  // ---------------------------------------------------------------- ProjectFile

  /** A project file that is not there: no main scene, and the message names the file. */
  lemma MissingProjectFile(text: string)
    ensures ProjectFileOf("XXX.godot", false, text) == Project(None, Some("Failed to find XXX.godot file ..."))
  {
    assert MissingFileError("XXX.godot") == "Failed to find XXX.godot file ...";
  }
}
