/** Splitting a Godot file into its bracketed sections (readFileSections) and
    telling a section's kind from its heading (getSectionType). */
module Sections {
  import opened Wrappers
  import opened Text

  /** The kinds of section a scene file is made of. */
  datatype SectionType = Unknown | Node | Connection | ExtResource

  /** The last index in [lo, hi) holding c: where `(\w|\W)*` followed by c backs off to,
      since the greedy star first takes the whole rest of the text. */
  function LastIndexOf(s: string, lo: nat, hi: nat, c: char): (r: Option<nat>)
    requires lo <= hi <= |s|
    decreases hi - lo
    ensures r.Some? ==> lo <= r.value < hi && s[r.value] == c && forall k :: r.value < k < hi ==> s[k] != c
    ensures r.None? ==> forall k :: lo <= k < hi ==> s[k] != c
  {
    if lo == hi then None
    else if s[hi - 1] == c then Some(hi - 1)
    else LastIndexOf(s, lo, hi - 1, c)
  }

  /** `$` at k: the end of the text, or just before a final newline. */
  predicate AtEnd(s: string, k: nat) {
    k == |s| || (k + 1 == |s| && s[k] == '\n')
  }

  /** The last index in [lo, hi) where `\]$` matches: the back-off of `(\w|\W)*\]$`. */
  function ClosingAt(s: string, lo: nat, hi: nat): (r: Option<nat>)
    requires lo <= hi <= |s|
    decreases hi - lo
    ensures r.Some? ==> lo <= r.value < hi && s[r.value] == ']' && AtEnd(s, r.value + 1)
    ensures r.None? ==> forall k :: lo <= k < hi ==> !(s[k] == ']' && AtEnd(s, k + 1))
  {
    if lo == hi then None
    else if s[hi - 1] == ']' && AtEnd(s, hi) then Some(hi - 1)
    else ClosingAt(s, lo, hi - 1)
  }

  /** re.match(r"^\[node (\w|\W)*\]", s) */
  predicate NodeMatch(s: string) {
    StartsWith(s, "[node ") && LastIndexOf(s, 6, |s|, ']').Some?
  }

  /** re.match(r"^\[connection (\w|\W)*\]$", s) */
  predicate ConnectionMatch(s: string) {
    StartsWith(s, "[connection ") && ClosingAt(s, 12, |s|).Some?
  }

  /** re.match(r"^\[ext_resource (\w|\W)*\]", s) */
  predicate ExtResourceMatch(s: string) {
    StartsWith(s, "[ext_resource ") && LastIndexOf(s, 14, |s|, ']').Some?
  }

  /** The text ends in ']', or in ']' and one newline, with the ']' at index lo or later. */
  predicate ClosedAtEnd(s: string, lo: nat) {
    || (|s| >= lo + 1 && s[|s| - 1] == ']')
    || (|s| >= lo + 2 && s[|s| - 2] == ']' && s[|s| - 1] == '\n')
  }

  /** getSectionType: a Node or ExtResource heading is its prefix followed somewhere by
      ']'; a Connection heading is its prefix with ']' at the very end, before at most one
      newline, so lines in between are allowed. The prefixes exclude one another, so the
      order of the tests does not matter. */
  function GetSectionType(s: string): (r: SectionType)
    ensures r == Node <==> StartsWith(s, "[node ") && ']' in s[6..]
    ensures r == Connection <==> StartsWith(s, "[connection ") && ClosedAtEnd(s, 12)
    ensures r == ExtResource <==> StartsWith(s, "[ext_resource ") && ']' in s[14..]
  {
    PrefixesExclusive(s);
    MatchIff(s);
    if NodeMatch(s) then Node
    else if ConnectionMatch(s) then Connection
    else if ExtResourceMatch(s) then ExtResource
    else Unknown
  }

  lemma PrefixesExclusive(s: string)
    ensures StartsWith(s, "[node ") ==> s[1] == 'n'
    ensures StartsWith(s, "[connection ") ==> s[1] == 'c'
    ensures StartsWith(s, "[ext_resource ") ==> s[1] == 'e'
  {
    if StartsWith(s, "[node ") {
      assert s[1] == s[..6][1];
    }
    if StartsWith(s, "[connection ") {
      assert s[1] == s[..12][1];
    }
    if StartsWith(s, "[ext_resource ") {
      assert s[1] == s[..14][1];
    }
  }

  /** The back-off scanners find a match exactly when the declarative condition holds. */
  lemma MatchIff(s: string)
    ensures NodeMatch(s) <==> StartsWith(s, "[node ") && ']' in s[6..]
    ensures ConnectionMatch(s) <==> StartsWith(s, "[connection ") && ClosedAtEnd(s, 12)
    ensures ExtResourceMatch(s) <==> StartsWith(s, "[ext_resource ") && ']' in s[14..]
  {
    if StartsWith(s, "[node ") {
      LastIndexIff(s, 6, ']');
    }
    if StartsWith(s, "[ext_resource ") {
      LastIndexIff(s, 14, ']');
    }
    if StartsWith(s, "[connection ") {
      var r := ClosingAt(s, 12, |s|);
      if ClosedAtEnd(s, 12) {
        if |s| >= 13 && s[|s| - 1] == ']' {
          assert !(r.None?) by { assert s[|s| - 1] == ']' && AtEnd(s, |s|); }
        } else {
          assert !(r.None?) by { assert s[|s| - 2] == ']' && AtEnd(s, |s| - 1); }
        }
      }
    }
  }

  lemma LastIndexIff(s: string, lo: nat, c: char)
    requires lo <= |s|
    ensures LastIndexOf(s, lo, |s|, c).Some? <==> c in s[lo..]
  {
    var r := LastIndexOf(s, lo, |s|, c);
    if c in s[lo..] {
      var k :| 0 <= k < |s| - lo && s[lo..][k] == c;
      assert s[lo + k] == c;
    }
    if r.Some? {
      assert s[lo..][r.value - lo] == c;
    }
  }

  /** `[node]` has no space after "node", so it is no Node heading. */
  lemma BareNodeIsUnknown()
    ensures GetSectionType("[node]") == Unknown
  {
    assert !StartsWith("[node]", "[connection ");
    assert !StartsWith("[node]", "[ext_resource ");
    assert "[node]"[5] != "[node "[5];
  }

  /** A connection section with a body still counts as a Connection, provided it ends
      in ']' (before at most one newline); one that ends otherwise is Unknown. */
  lemma ConnectionWithBody(head: string, body: string)
    ensures GetSectionType("[connection " + head + "\n" + body + "]") == Connection
    ensures GetSectionType("[connection " + head + "\n" + body + "]\n") == Connection
    ensures GetSectionType("[connection " + head + "]\n" + body + "x") == Unknown
  {
    var s1 := "[connection " + head + "\n" + body + "]";
    assert s1[..12] == "[connection ";
    var s2 := s1 + "\n";
    assert s2[..12] == "[connection ";
    var s3 := "[connection " + head + "]\n" + body + "x";
    assert s3[..12] == "[connection ";
    PrefixesExclusive(s3);
  }

  /** The text is normalised to LF line ends, then cut at every "\n[". */
  function Fragments(code: string): (frags: seq<string>)
    ensures |frags| >= 1
    ensures forall i :: 0 <= i < |frags| ==> !Occurs(frags[i], "\n[")
  {
    Split(Replace(code, "\r\n", "\n"), "\n[")
  }

  /** str.count(sep): the non-overlapping occurrences of sep, left to right. */
  function Count(s: string, sep: string): nat
    requires sep != []
    decreases |s|
  {
    var i := Find(s, sep);
    if i < 0 then 0 else 1 + Count(s[i + |sep|..], sep)
  }

  lemma {:induction false} SplitCount(s: string, sep: string)
    requires sep != []
    decreases |s|
    ensures |Split(s, sep)| == Count(s, sep) + 1
  {
    var i := Find(s, sep);
    if i >= 0 {
      SplitCount(s[i + |sep|..], sep);
    }
  }

  /** readFileSections on the text of a file: each fragment gets its '[' back and is
      stripped; the '[' the first section gets is always taken off again. */
  function ReadFileSections(code: string): (sections: seq<string>)
    ensures |sections| == |Fragments(code)|
  {
    var frags := Fragments(code);
    var stripped := seq(|frags|, i requires 0 <= i < |frags| => Strip("[" + frags[i]));
    if |stripped| > 0 && StartsWith(stripped[0], "[") then stripped[0 := stripped[0][1..]]
    else stripped
  }

  /** Stripping a fragment with its '[' put back only removes trailing whitespace. */
  lemma StripBracket(f: string)
    ensures Strip("[" + f) == "[" + TrimEnd(f, Space)
  {
    TrimEndBracket(f);
    var y := "[" + TrimEnd(f, Space);
    assert y[0] == '[';
  }

  lemma TrimEndBracket(f: string)
    ensures TrimEnd("[" + f, Space) == "[" + TrimEnd(f, Space)
  {
    var y := TrimEnd(f, Space);
    var w := f[|y|..];
    assert "[" + f == ("[" + y) + w;
    assert forall i :: 0 <= i < |w| ==> w[i] == f[|y| + i];
    TrimEndPadded("[" + y, w, Space);
  }

  /** There is one section more than there are "\n[" in the LF-normalised text. */
  lemma SectionCount(code: string)
    ensures |ReadFileSections(code)| == Count(Replace(code, "\r\n", "\n"), "\n[") + 1
  {
    SplitCount(Replace(code, "\r\n", "\n"), "\n[");
  }

  /** Every section but the first is '[' and its fragment with trailing whitespace
      removed; the first is its fragment with trailing whitespace removed, so it keeps
      any leading whitespace and never keeps the '[' put in front of it. The fragments
      joined with "\n[" give back the normalised text. */
  lemma SectionsShape(code: string)
    ensures ReadFileSections(code)[0] == TrimEnd(Fragments(code)[0], Space)
    ensures forall i :: 0 < i < |ReadFileSections(code)| ==>
      ReadFileSections(code)[i] == "[" + TrimEnd(Fragments(code)[i], Space)
    ensures Join(Fragments(code), "\n[") == Replace(code, "\r\n", "\n")
  {
    var frags := Fragments(code);
    forall i | 0 <= i < |frags|
      ensures Strip("[" + frags[i]) == "[" + TrimEnd(frags[i], Space)
    {
      StripBracket(frags[i]);
    }
    var first := "[" + TrimEnd(frags[0], Space);
    assert StartsWith(first, "[");
    assert first[1..] == TrimEnd(frags[0], Space);
    SplitJoin(Replace(code, "\r\n", "\n"), "\n[");
  }

  /** No section holds "\n[": each later section starts a line with '['. */
  lemma SectionsUnbroken(code: string)
    ensures forall i :: 0 <= i < |ReadFileSections(code)| ==> !Occurs(ReadFileSections(code)[i], "\n[")
    ensures forall i :: 0 < i < |ReadFileSections(code)| ==> StartsWith(ReadFileSections(code)[i], "[")
  {
    var frags := Fragments(code);
    var secs := ReadFileSections(code);
    SectionsShape(code);
    forall i | 0 <= i < |secs|
      ensures !Occurs(secs[i], "\n[")
      ensures i > 0 ==> StartsWith(secs[i], "[")
    {
      var y := TrimEnd(frags[i], Space);
      PrefixNoOccurrence(frags[i], |y|, "\n[");
      assert frags[i][..|y|] == y;
      if i > 0 {
        BracketNoBreak(y);
      }
    }
  }

  /** Putting '[' in front of a text without "\n[" creates none. */
  lemma BracketNoBreak(y: string)
    requires !Occurs(y, "\n[")
    ensures !Occurs("[" + y, "\n[") && StartsWith("[" + y, "[")
  {
    var s := "[" + y;
    if Occurs(s, "\n[") {
      var j :| 0 <= j <= |s| && OccursAt(s, "\n[", j);
      assert s[j] == s[j..j + 2][0] == '\n';
      assert s[j + 1] == s[j..j + 2][1] == '[';
      assert j > 0;
      assert y[j - 1..j + 1] == s[j..j + 2];
      assert OccursAt(y, "\n[", j - 1);
    }
  }

  lemma PrefixNoOccurrence(f: string, n: nat, sep: string)
    requires n <= |f| && !Occurs(f, sep)
    ensures !Occurs(f[..n], sep)
  {
    if Occurs(f[..n], sep) {
      var j :| 0 <= j <= n && OccursAt(f[..n], sep, j);
      OccursInSlice(f, sep, 0, n, j);
    }
  }
}
