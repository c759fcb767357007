/** parseAllSectionKeyValues: the key/value pairs of a section, grouped under the
    `[word]` heading line they follow. */
module SectionValues {
  import opened Wrappers
  import opened Text
  import opened KeyValues

  /** re.match(r"^\[\w+\]$", line): '[', a run of word characters, ']', then the end of
      the text or one final newline. */
  function HeadingMatch(line: string): (r: bool)
    ensures r && '\n' !in line ==>
      |line| >= 3 && line[0] == '[' && line[|line| - 1] == ']'
      && forall i :: 0 < i < |line| - 1 ==> IsWordChar(line[i])
    ensures !r && '\n' !in line ==>
      !(|line| >= 3 && line[0] == '[' && line[|line| - 1] == ']'
        && forall i :: 0 < i < |line| - 1 ==> IsWordChar(line[i]))
  {
    if |line| > 0 && line[0] == '[' then
      var e := RunEnd(line, 1, Word);
      if 1 < e < |line| && line[e] == ']' then
        (e + 1 == |line| || (e + 2 == |line| && line[e + 1] == '\n'))
      else false
    else false
  }

  /** A heading line holds no '=', so a line with '=' is never a heading. */
  lemma HeadingHasNoEquals(line: string)
    requires HeadingMatch(line)
    ensures '=' !in line
  {
    var e := RunEnd(line, 1, Word);
    forall i | 0 <= i < |line|
      ensures line[i] != '='
    {
      if 0 < i < e {
        assert InClass(line[i], Word);
      }
    }
  }

  lemma EqualsLineNotHeading(line: string)
    requires '=' in line
    ensures !HeadingMatch(line)
  {
    if HeadingMatch(line) {
      HeadingHasNoEquals(line);
    }
  }

  type Grouped = map<string, map<string, string>>

  /** The state of the line loop: the dictionary so far and the current heading. */
  datatype Walk = Walk(retval: Grouped, heading: Option<string>)

  /** Storing the pairs of one line under heading h: the inner dictionary is created on
      the first pair and later pairs overwrite earlier ones. */
  function AddPairs(retval: Grouped, h: string, kv: map<string, string>): Grouped {
    if kv == map[] then retval
    else retval[h := (if h in retval then retval[h] else map[]) + kv]
  }

  /** Nothing is stored for a line without pairs; otherwise h gets the old pairs under
      it overwritten by the new ones, and no other heading changes. */
  lemma AddPairsFacts(retval: Grouped, h: string, kv: map<string, string>)
    ensures kv == map[] ==> AddPairs(retval, h, kv) == retval
    ensures kv != map[] ==>
      && AddPairs(retval, h, kv).Keys == retval.Keys + {h}
      && AddPairs(retval, h, kv)[h] == (if h in retval then retval[h] else map[]) + kv
      && AddPairs(retval, h, kv)[h] != map[]
    ensures forall g :: g in retval && g != h ==> g in AddPairs(retval, h, kv) && AddPairs(retval, h, kv)[g] == retval[g]
  {
    if kv != map[] {
      var k :| k in kv;
      assert k in AddPairs(retval, h, kv)[h];
    }
  }

  /** One turn of the line loop. */
  function WalkLine(w: Walk, line: string): Walk {
    if HeadingMatch(line) then Walk(w.retval, Some(line))
    else if w.heading.Some? && w.heading.value != "" && '=' in line then
      Walk(AddPairs(w.retval, w.heading.value, KeyValuesOf(line)), w.heading)
    else w
  }

  /** The loop over the lines, from the empty dictionary and no heading. */
  function WalkLines(lines: seq<string>): Walk
    decreases |lines|
  {
    if lines == [] then Walk(map[], None)
    else WalkLine(WalkLines(lines[..|lines| - 1]), lines[|lines| - 1])
  }

  function SectionKeyValues(section: string): Grouped {
    WalkLines(SplitLines(section)).retval
  }

  /** The pairs of kv whose keys lie in ks. */
  function Restrict(kv: map<string, string>, ks: set<string>): (r: map<string, string>)
    ensures r.Keys == kv.Keys * ks
    ensures forall k :: k in r ==> r[k] == kv[k]
  {
    map k | k in kv.Keys * ks :: kv[k]
  }

  /** One item of the inner loop: the pair stored under its heading, creating the inner
      dictionary when it is missing. */
  function AddPair(retval: Grouped, h: string, key: string, value: string): Grouped {
    var r1 := if h !in retval then retval[h := map[]] else retval;
    r1[h := r1[h][key := value]]
  }

  lemma AddOnePair(r0: Grouped, h: string, kv: map<string, string>, done: set<string>, key: string)
    requires key in kv && key !in done
    ensures AddPair(AddPairs(r0, h, Restrict(kv, done)), h, key, kv[key])
      == AddPairs(r0, h, Restrict(kv, done + {key}))
  {
    assert Restrict(kv, done + {key}) == Restrict(kv, done)[key := kv[key]];
    AddPairsPut(r0, h, Restrict(kv, done), key, kv[key]);
  }

  /** Storing one more pair under h is storing the pairs with that one added. */
  lemma AddPairsPut(r0: Grouped, h: string, m: map<string, string>, key: string, value: string)
    ensures AddPair(AddPairs(r0, h, m), h, key, value) == AddPairs(r0, h, m[key := value])
  {
    var base := if h in r0 then r0[h] else map[];
    assert key in m[key := value];
    assert base + m[key := value] == (base + m)[key := value];
    if m == map[] {
      assert base + m == base;
    }
    var r1 := AddPairs(r0, h, m);
    assert h in r1 ==> r1[h] == base + m;
    assert AddPair(r1, h, key, value) == r0[h := (base + m)[key := value]];
  }

  /** Stores the pair under its heading, starting an empty dictionary for a heading not yet seen. */
  method PutUnder(retval: Grouped, h: string, key: string, value: string) returns (r: Grouped)
    ensures r == AddPair(retval, h, key, value)
  {
    r := retval;
    if h !in r {
      r := r[h := map[]];
    }
    r := r[h := r[h][key := value]];
  }

  lemma StoreUnderStep(r0: Grouped, h: string, kv: map<string, string>, todo: set<string>, key: string)
    requires key in todo && todo <= kv.Keys
    ensures AddPair(AddPairs(r0, h, Restrict(kv, kv.Keys - todo)), h, key, kv[key])
      == AddPairs(r0, h, Restrict(kv, kv.Keys - (todo - {key})))
  {
    AddOnePair(r0, h, kv, kv.Keys - todo, key);
    assert kv.Keys - (todo - {key}) == (kv.Keys - todo) + {key};
  }

  /** The inner loop of one line: every pair of kv stored under heading h. */
  method StoreUnder(r0: Grouped, h: string, kv: map<string, string>) returns (retval: Grouped)
    ensures retval == AddPairs(r0, h, kv)
  {
    retval := r0;
    var todo := kv.Keys;
    assert Restrict(kv, {}) == map[];
    while todo != {}
      invariant todo <= kv.Keys
      invariant retval == AddPairs(r0, h, Restrict(kv, kv.Keys - todo))
      decreases |todo|
    {
      var key :| key in todo;
      StoreUnderStep(r0, h, kv, todo, key);
      retval := PutUnder(retval, h, key, kv[key]);
      todo := todo - {key};
    }
    assert Restrict(kv, kv.Keys) == kv;
  }

  /** parseAllSectionKeyValues */
  method ParseAllSectionKeyValues(section: string) returns (retval: Grouped)
    ensures retval == SectionKeyValues(section)
  {
    var lines := SplitLines(section);
    retval := map[];
    var heading: Option<string> := None;
    for i := 0 to |lines|
      invariant Walk(retval, heading) == WalkLines(lines[..i])
    {
      var line := lines[i];
      assert lines[..i + 1][..i] == lines[..i];
      ghost var w := WalkLines(lines[..i]);
      assert WalkLines(lines[..i + 1]) == WalkLine(w, line);
      if HeadingMatch(line) {
        heading := Some(line);
      } else if heading.Some? && heading.value != "" && '=' in line {
        var kv := ParseKeyValues(line);
        retval := StoreUnder(retval, heading.value, kv);
      }
    }
    assert lines[..|lines|] == lines;
  }

  /** Whatever the lines, every key of the result is a heading line, and every inner
      dictionary is non-empty (so `if heading:` on it means "present"). */
  lemma {:induction false} WalkFacts(lines: seq<string>)
    decreases |lines|
    ensures WalkLines(lines).heading.Some? ==> HeadingMatch(WalkLines(lines).heading.value)
    ensures forall h :: h in WalkLines(lines).retval ==> HeadingMatch(h) && WalkLines(lines).retval[h] != map[]
  {
    if lines != [] {
      WalkFacts(lines[..|lines| - 1]);
      WalkStep(WalkLines(lines[..|lines| - 1]), lines[|lines| - 1]);
    }
  }

  predicate WalkMeets(w: Walk) {
    && (w.heading.Some? ==> HeadingMatch(w.heading.value))
    && forall h :: h in w.retval ==> HeadingMatch(h) && w.retval[h] != map[]
  }

  lemma WalkStep(w: Walk, line: string)
    requires WalkMeets(w)
    ensures WalkMeets(WalkLine(w, line))
  {
    if !HeadingMatch(line) && w.heading.Some? && w.heading.value != "" && '=' in line {
      AddPairsMeets(w, KeyValuesOf(line));
    }
  }

  lemma AddPairsMeets(w: Walk, kv: map<string, string>)
    requires WalkMeets(w) && w.heading.Some?
    ensures WalkMeets(Walk(AddPairs(w.retval, w.heading.value, kv), w.heading))
  {
    var h := w.heading.value;
    AddPairsFacts(w.retval, h, kv);
    var r := AddPairs(w.retval, h, kv);
    assert forall g :: g in r ==> g == h || g in w.retval;
  }

  lemma SectionKeyValuesFacts(section: string)
    ensures forall h :: h in SectionKeyValues(section) ==> HeadingMatch(h)
    ensures forall h :: h in SectionKeyValues(section) ==> SectionKeyValues(section)[h] != map[]
  {
    WalkFacts(SplitLines(section));
  }

  /** Lines before any heading contribute nothing: with no heading line, the result is
      empty whatever the other lines hold. */
  lemma {:induction false} NoHeadingNoPairs(lines: seq<string>)
    requires forall k :: 0 <= k < |lines| ==> !HeadingMatch(lines[k])
    decreases |lines|
    ensures WalkLines(lines) == Walk(map[], None)
  {
    if lines != [] {
      NoHeadingNoPairs(lines[..|lines| - 1]);
    }
  }

  /** The lines of a heading line followed by one more line. */
  lemma TwoLines(h: string, line: string)
    requires HeadingMatch(h) && '\n' !in h
    requires line != [] && forall i :: 0 <= i < |line| ==> !IsLineBreak(line[i])
    ensures SplitLines(h + "\n" + line) == [h, line]
  {
    forall i | 0 <= i < |h|
      ensures !IsLineBreak(h[i])
    {
      assert h[i] == '[' || h[i] == ']' || IsWordChar(h[i]);
    }
    SplitLinesCons(h, line);
    SplitLinesSingle(line);
  }

  lemma WalkTwo(h: string, line: string)
    requires HeadingMatch(h) && !HeadingMatch(line) && '=' in line
    ensures WalkLines([h, line]).retval == AddPairs(map[], h, KeyValuesOf(line))
  {
    var lines := [h, line];
    assert lines[..1] == [h];
    assert [h][..0] == [];
    assert WalkLines([h]) == Walk(map[], Some(h));
  }

  /** A heading line followed by one line of pairs: the pairs, under that heading; or
      nothing when the line yields no pair. */
  lemma HeadingThenLine(h: string, line: string)
    requires HeadingMatch(h) && '\n' !in h
    requires '=' in line && forall i :: 0 <= i < |line| ==> !IsLineBreak(line[i])
    ensures KeyValuesOf(line) != map[] ==> SectionKeyValues(h + "\n" + line) == map[h := KeyValuesOf(line)]
    ensures KeyValuesOf(line) == map[] ==> SectionKeyValues(h + "\n" + line) == map[]
  {
    TwoLines(h, line);
    EqualsLineNotHeading(line);
    WalkTwo(h, line);
    var kv := KeyValuesOf(line);
    var m: map<string, string> := map[];
    assert m + kv == kv;
  }
}
