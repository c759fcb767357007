/** The Python string built-ins the parser is written with (str.find, str.strip,
    str.split, str.replace, str.splitlines, int()) and the character classes of
    the regular expressions it uses. Characters are Unicode scalar values;
    whitespace and line boundaries follow Python exactly, while \w, \d and the
    digits int() accepts are restricted to ASCII. */
module Text {
  import opened Wrappers

  /** The exception int() raises, carrying the literal it could not read. */
  datatype ValueError = ValueError(literal: string)

  /** str.isspace(): what str.strip() removes and what \s matches. */
  predicate IsSpace(c: char) {
    || c == ' ' || '\t' <= c <= '\r' || '\U{1C}' <= c <= '\U{1F}'
    || c == '\U{85}' || c == '\U{A0}' || c == '\U{1680}' || '\U{2000}' <= c <= '\U{200A}'
    || c == '\U{2028}' || c == '\U{2029}' || c == '\U{202F}' || c == '\U{205F}' || c == '\U{3000}'
  }

  predicate IsLetter(c: char) { 'a' <= c <= 'z' || 'A' <= c <= 'Z' }

  predicate IsDigit(c: char) { '0' <= c <= '9' }

  /** \w, restricted to ASCII. */
  predicate IsWordChar(c: char) { IsLetter(c) || IsDigit(c) || c == '_' }

  /** The line boundaries of str.splitlines() ("\r\n" counts as one). */
  predicate IsLineBreak(c: char) {
    || c == '\n' || c == '\r' || c == '\U{0B}' || c == '\U{0C}' || '\U{1C}' <= c <= '\U{1E}'
    || c == '\U{85}' || c == '\U{2028}' || c == '\U{2029}'
  }

  /** The character classes that occur in the parser's regular expressions. */
  datatype CharClass =
    | Space        // \s
    | Word         // \w
    | Digit        // \d
    | Letter       // [A-Za-z]
    | KeyChar      // [\w_/\.]
    | QuotedChar   // [\s\w\.]
    | ResPathChar  // [\w/\.:]
    | LineChar     // anything but a line boundary
    | QuoteMark    // the '"' that strip('"') removes

  predicate InClass(c: char, cls: CharClass) {
    match cls
    case Space => IsSpace(c)
    case Word => IsWordChar(c)
    case Digit => IsDigit(c)
    case Letter => IsLetter(c)
    case KeyChar => IsWordChar(c) || c == '/' || c == '.'
    case QuotedChar => IsSpace(c) || IsWordChar(c) || c == '.'
    case ResPathChar => IsWordChar(c) || c == '/' || c == '.' || c == ':'
    case LineChar => !IsLineBreak(c)
    case QuoteMark => c == '"'
  }

  /** The end of the longest run of `cls` characters starting at j: what a
      greedy `[cls]*` consumes. */
  function RunEnd(t: string, j: nat, cls: CharClass): (e: nat)
    requires j <= |t|
    decreases |t| - j
    ensures j <= e <= |t|
    ensures forall i :: j <= i < e ==> InClass(t[i], cls)
    ensures e == |t| || !InClass(t[e], cls)
  {
    if j < |t| && InClass(t[j], cls) then RunEnd(t, j + 1, cls) else j
  }

  /** Any index with the two run properties is the run's end. */
  lemma RunEndUnique(t: string, j: nat, cls: CharClass, e: nat)
    requires j <= e <= |t|
    requires forall i :: j <= i < e ==> InClass(t[i], cls)
    requires e == |t| || !InClass(t[e], cls)
    ensures RunEnd(t, j, cls) == e
  {
  }

  predicate StartsWith(v: string, prefix: string) {
    |prefix| <= |v| && v[..|prefix|] == prefix
  }

  predicate OccursAt(v: string, s: string, i: int) {
    0 <= i && i + |s| <= |v| && v[i..i + |s|] == s
  }

  predicate Occurs(v: string, s: string) {
    exists i :: 0 <= i <= |v| && OccursAt(v, s, i)
  }

  function FindFrom(v: string, s: string, i: nat): (r: int)
    decreases |v| - i
    ensures r == -1 || (i <= r && OccursAt(v, s, r))
    ensures r == -1 ==> forall j :: i <= j ==> !OccursAt(v, s, j)
    ensures r >= 0 ==> forall j :: i <= j < r ==> !OccursAt(v, s, j)
  {
    if i + |s| > |v| then -1
    else if v[i..i + |s|] == s then i
    else FindFrom(v, s, i + 1)
  }

  /** str.find: the first index at which s occurs in v, or -1. */
  function Find(v: string, s: string): (r: int)
    ensures -1 <= r
    ensures r >= 0 ==> OccursAt(v, s, r) && forall j :: 0 <= j < r ==> !OccursAt(v, s, j)
    ensures r == -1 <==> !Occurs(v, s)
  {
    FindFrom(v, s, 0)
  }

  /** A slice of a slice is a slice of the whole. */
  lemma SliceOfSlice(t: string, a: nat, b: nat, c: nat, d: nat)
    requires a <= b <= |t| && c <= d <= b - a
    ensures t[a..b][c..d] == t[a + c..a + d]
  {
    forall i | 0 <= i < d - c
      ensures t[a..b][c..d][i] == t[a + c..a + d][i]
    {
      assert t[a..b][c..d][i] == t[a..b][c + i] == t[a + c + i];
    }
  }

  /** An occurrence inside a prefix or a suffix is an occurrence in the whole. */
  lemma OccursInSlice(v: string, s: string, a: nat, b: nat, j: int)
    requires a <= b <= |v|
    requires OccursAt(v[a..b], s, j)
    ensures OccursAt(v, s, a + j)
  {
    var w := v[a..b];
    forall k | 0 <= k < |s|
      ensures s[k] == v[a + j + k]
    {
      assert s[k] == w[j..j + |s|][k] == w[j + k];
    }
    assert v[a + j..a + j + |s|] == s;
  }

  /** No occurrence of a single character c when c is not in v. */
  lemma NotOccursChar(v: string, c: char)
    requires c !in v
    ensures !Occurs(v, [c])
  {
    forall i | 0 <= i <= |v|
      ensures !OccursAt(v, [c], i)
    {
      if i + 1 <= |v| {
        assert v[i..i + 1] == [v[i]];
      }
    }
  }

  /** The first occurrence of a single character c in a + [c] + b, when c is not in a. */
  lemma FindChar(a: string, c: char, b: string)
    requires c !in a
    ensures Find(a + [c] + b, [c]) == |a|
  {
    var v := a + [c] + b;
    assert v[|a|..|a| + 1] == [c];
    var r := Find(v, [c]);
    assert r >= 0 ==> v[r] == v[r..r + 1][0] == c;
    assert OccursAt(v, [c], |a|);
  }

  /** Occurrences that end inside u are the same in u and in u + rest. */
  lemma OccursAtPrefix(u: string, rest: string, s: string, j: int)
    requires j + |s| <= |u|
    ensures OccursAt(u + rest, s, j) <==> OccursAt(u, s, j)
  {
    if 0 <= j {
      assert (u + rest)[j..j + |s|] == u[j..j + |s|];
    }
  }

  /** The first occurrence of s in u, when it ends inside u, is its first occurrence in u + rest. */
  lemma FindFirst(u: string, rest: string, s: string, k: nat)
    requires OccursAt(u, s, k)
    requires forall j :: 0 <= j < k ==> !OccursAt(u, s, j)
    ensures Find(u + rest, s) == k
  {
    OccursAtPrefix(u, rest, s, k);
    var r := Find(u + rest, s);
    if 0 <= r < k {
      OccursAtPrefix(u, rest, s, r);
    }
  }

  function TrimStart(s: string, cls: CharClass): (r: string)
    decreases |s|
    ensures |r| <= |s| && r == s[|s| - |r|..]
    ensures forall i :: 0 <= i < |s| - |r| ==> InClass(s[i], cls)
    ensures r == [] || !InClass(r[0], cls)
  {
    if |s| > 0 && InClass(s[0], cls) then TrimStart(s[1..], cls) else s
  }

  function TrimEnd(s: string, cls: CharClass): (r: string)
    decreases |s|
    ensures |r| <= |s| && r == s[..|r|]
    ensures forall i :: |r| <= i < |s| ==> InClass(s[i], cls)
    ensures r == [] || !InClass(r[|r| - 1], cls)
  {
    if |s| > 0 && InClass(s[|s| - 1], cls) then TrimEnd(s[..|s| - 1], cls) else s
  }

  /** str.strip() for cls == Space, str.strip('"') for cls == QuoteMark. */
  function StripClass(s: string, cls: CharClass): (r: string)
    ensures r == [] || (!InClass(r[0], cls) && !InClass(r[|r| - 1], cls))
  {
    TrimStart(TrimEnd(s, cls), cls)
  }

  function Strip(s: string): string {
    StripClass(s, Space)
  }

  lemma {:induction false} TrimEndPadded(y: string, w: string, cls: CharClass)
    requires forall i :: 0 <= i < |w| ==> InClass(w[i], cls)
    requires y == [] || !InClass(y[|y| - 1], cls)
    decreases |w|
    ensures TrimEnd(y + w, cls) == y
  {
    if w == [] {
      assert y + w == y;
    } else {
      var s := y + w;
      assert s[|s| - 1] == w[|w| - 1];
      assert s[..|s| - 1] == y + w[..|w| - 1];
      TrimEndPadded(y, w[..|w| - 1], cls);
    }
  }

  lemma {:induction false} TrimStartPadded(w: string, y: string, cls: CharClass)
    requires forall i :: 0 <= i < |w| ==> InClass(w[i], cls)
    requires y == [] || !InClass(y[0], cls)
    decreases |w|
    ensures TrimStart(w + y, cls) == y
  {
    if w == [] {
      assert w + y == y;
    } else {
      var s := w + y;
      assert s[0] == w[0];
      assert s[1..] == w[1..] + y;
      TrimStartPadded(w[1..], y, cls);
    }
  }

  /** Stripping removes exactly the padding around a core whose ends are not in the class. */
  lemma StripPadded(w1: string, x: string, w2: string, cls: CharClass)
    requires forall i :: 0 <= i < |w1| ==> InClass(w1[i], cls)
    requires forall i :: 0 <= i < |w2| ==> InClass(w2[i], cls)
    requires x == [] || (!InClass(x[0], cls) && !InClass(x[|x| - 1], cls))
    ensures StripClass(w1 + x + w2, cls) == x
  {
    if x == [] {
      var w := w1 + w2;
      assert w1 + x + w2 == [] + w;
      assert forall i :: 0 <= i < |w| ==> InClass(w[i], cls) by {
        assert forall i :: 0 <= i < |w| ==> w[i] == if i < |w1| then w1[i] else w2[i - |w1|];
      }
      TrimEndPadded([], w, cls);
    } else {
      assert (w1 + x)[|w1 + x| - 1] == x[|x| - 1];
      TrimEndPadded(w1 + x, w2, cls);
      TrimStartPadded(w1, x, cls);
    }
  }

  /** A string without padding is left unchanged by stripping. */
  lemma StripUnpadded(x: string, cls: CharClass)
    requires x == [] || (!InClass(x[0], cls) && !InClass(x[|x| - 1], cls))
    ensures StripClass(x, cls) == x
  {
    StripPadded([], x, [], cls);
    assert [] + x + [] == x;
  }

  /** str.split(sep) for a non-empty separator. */
  function Split(s: string, sep: string): (pieces: seq<string>)
    requires sep != []
    decreases |s|
    ensures |pieces| >= 1
    ensures forall k :: 0 <= k < |pieces| ==> !Occurs(pieces[k], sep)
  {
    var i := Find(s, sep);
    if i < 0 then [s]
    else
      assert !Occurs(s[..i], sep) by {
        if Occurs(s[..i], sep) {
          var j :| OccursAt(s[..i], sep, j);
          OccursInSlice(s, sep, 0, i, j);
        }
      }
      [s[..i]] + Split(s[i + |sep|..], sep)
  }

  /** sep.join(pieces). */
  function Join(pieces: seq<string>, sep: string): string
    decreases |pieces|
  {
    if |pieces| == 0 then []
    else if |pieces| == 1 then pieces[0]
    else pieces[0] + sep + Join(pieces[1..], sep)
  }

  /** Joining the pieces of a split with its separator gives back the text. */
  lemma {:induction false} SplitJoin(s: string, sep: string)
    requires sep != []
    decreases |s|
    ensures Join(Split(s, sep), sep) == s
  {
    var i := Find(s, sep);
    if i >= 0 {
      var rest := s[i + |sep|..];
      var tail := Split(rest, sep);
      assert Split(s, sep) == [s[..i]] + tail;
      SplitJoin(rest, sep);
      JoinCons(s[..i], tail, sep);
      assert s == s[..i] + s[i..i + |sep|] + rest;
    }
  }

  lemma JoinCons(a: string, tail: seq<string>, sep: string)
    requires |tail| >= 1
    ensures Join([a] + tail, sep) == a + sep + Join(tail, sep)
  {
    assert ([a] + tail)[1..] == tail;
  }

  /** A split on a character that occurs exactly once. */
  lemma SplitOnce(a: string, c: char, b: string)
    requires c !in a && c !in b
    ensures Split(a + [c] + b, [c]) == [a, b]
  {
    var s := a + [c] + b;
    FindChar(a, c, b);
    assert s[..|a|] == a;
    assert s[|a| + 1..] == b;
    NotOccursChar(b, c);
  }

  /** A split on a character that does not occur. */
  lemma SplitNone(a: string, c: char)
    requires c !in a
    ensures Split(a, [c]) == [a]
  {
    NotOccursChar(a, c);
  }

  /** str.replace(target, replacement), left to right and non-overlapping. */
  function Replace(s: string, target: string, replacement: string): string
    requires target != []
    decreases |s|
  {
    var i := Find(s, target);
    if i < 0 then s else s[..i] + replacement + Replace(s[i + |target|..], target, replacement)
  }

  /** Replacing is splitting on the target and joining with the replacement. */
  lemma {:induction false} ReplaceIsSplitJoin(s: string, target: string, replacement: string)
    requires target != []
    decreases |s|
    ensures Replace(s, target, replacement) == Join(Split(s, target), replacement)
  {
    var i := Find(s, target);
    if i >= 0 {
      var rest := s[i + |target|..];
      ReplaceIsSplitJoin(rest, target, replacement);
      var tail := Split(rest, target);
      assert Split(s, target) == [s[..i]] + tail;
      assert ([s[..i]] + tail)[1..] == tail;
    }
  }

  /** str.splitlines(): the lines of s without their line boundaries. */
  function SplitLines(s: string): (lines: seq<string>)
    decreases |s|
    ensures |lines| == 0 <==> s == []
    ensures forall k, i :: 0 <= k < |lines| && 0 <= i < |lines[k]| ==> !IsLineBreak(lines[k][i])
  {
    if s == [] then []
    else
      var e := RunEnd(s, 0, LineChar);
      if e == |s| then [s]
      else
        var next := if s[e] == '\r' && e + 1 < |s| && s[e + 1] == '\n' then e + 2 else e + 1;
        [s[..e]] + SplitLines(s[next..])
  }

  /** The first line of a + "\n" + b is a when a holds no line boundary. */
  lemma SplitLinesCons(a: string, b: string)
    requires forall i :: 0 <= i < |a| ==> !IsLineBreak(a[i])
    ensures SplitLines(a + "\n" + b) == [a] + SplitLines(b)
  {
    var s := a + "\n" + b;
    RunEndUnique(s, 0, LineChar, |a|);
    assert s[..|a|] == a;
    assert s[|a| + 1..] == b;
  }

  /** A non-empty text without line boundaries is a single line. */
  lemma SplitLinesSingle(a: string)
    requires a != []
    requires forall i :: 0 <= i < |a| ==> !IsLineBreak(a[i])
    ensures SplitLines(a) == [a]
  {
    RunEndUnique(a, 0, LineChar, |a|);
  }

  /** Digits with single underscores between them: the literals int() reads in base 10. */
  predicate IsIntLiteral(d: string) {
    && |d| > 0
    && forall i :: 0 <= i < |d| ==>
         IsDigit(d[i]) || (d[i] == '_' && 0 < i < |d| - 1 && IsDigit(d[i - 1]) && IsDigit(d[i + 1]))
  }

  /** The number the digits of d spell, underscores skipped. */
  function DigitsValue(d: string): nat
    decreases |d|
  {
    if d == [] then 0
    else
      var c := d[|d| - 1];
      if IsDigit(c) then 10 * DigitsValue(d[..|d| - 1]) + (c as int - '0' as int)
      else DigitsValue(d[..|d| - 1])
  }

  /** int(s): surrounding whitespace, an optional sign, then a digit literal. */
  function ParseInt(s: string): (r: Result<int, ValueError>)
    ensures Strip(s) == [] ==> r == Failure(ValueError(s))
  {
    var t := Strip(s);
    var negative := |t| > 0 && t[0] == '-';
    var body := if |t| > 0 && (t[0] == '+' || t[0] == '-') then t[1..] else t;
    if IsIntLiteral(body) then Success(if negative then -(DigitsValue(body) as int) else DigitsValue(body))
    else Failure(ValueError(s))
  }

  /** str(n) for a natural number n. */
  function DecimalString(n: nat): (d: string)
    decreases n
    ensures |d| > 0 && forall i :: 0 <= i < |d| ==> IsDigit(d[i])
  {
    if n < 10 then [('0' as int + n) as char]
    else DecimalString(n / 10) + [('0' as int + n % 10) as char]
  }

  lemma {:induction false} DigitsValueOfDecimal(n: nat)
    decreases n
    ensures DigitsValue(DecimalString(n)) == n
  {
    var d := DecimalString(n);
    if n >= 10 {
      DigitsValueOfDecimal(n / 10);
      assert d[..|d| - 1] == DecimalString(n / 10);
    } else {
      assert d[..|d| - 1] == [];
    }
  }

  /** int() reads a run of ASCII digits, whatever whitespace surrounds it, as the number it spells. */
  lemma ParseIntDigits(s: string, d: string)
    requires Strip(s) == d && |d| > 0
    requires forall i :: 0 <= i < |d| ==> IsDigit(d[i])
    ensures ParseInt(s) == Success(DigitsValue(d))
  {
    assert IsIntLiteral(d);
  }

  /** int() reads back str(n), whatever whitespace surrounds it. */
  lemma ParseIntDecimal(n: nat, w1: string, w2: string)
    requires forall i :: 0 <= i < |w1| ==> IsSpace(w1[i])
    requires forall i :: 0 <= i < |w2| ==> IsSpace(w2[i])
    ensures ParseInt(w1 + DecimalString(n) + w2) == Success(n)
  {
    var d := DecimalString(n);
    StripPadded(w1, d, w2, Space);
    ParseIntDigits(w1 + d + w2, d);
    DigitsValueOfDecimal(n);
  }
}
