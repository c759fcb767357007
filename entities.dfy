/** The three headings a scene file is made of (HeadingNode, HeadingConnection,
    HeadingExtResource) and the resource references they hold (EntryExtResource).
    Each is built by walking the lines of its section: the first line classified as
    its own kind is the heading, read once (the "got heading" latch); a node heading
    also reads `script` from that line and every later one. A builder that calls
    int() on a value it cannot read raises, modelled as a Failure. */
module Entities {
  import opened Wrappers
  import opened Text
  import opened Helpers
  import opened KeyValues
  import opened Sections

  /** A reference to the ext_resource with this id. */
  datatype EntryExtResource = EntryExtResource(id: int)

  /** The value stored under key, or None when the key is missing. */
  function Lookup(kv: map<string, string>, key: string): Option<string> {
    if key in kv then Some(kv[key]) else None
  }

  /** The id of an `ExtResource( n )` value: the text between "ExtResource(" and ")",
      stripped and read as an integer. A value without "ExtResource(" leaves nothing to
      read, which raises. */
  function ExtResourceRef(value: string): (r: Result<EntryExtResource, ValueError>)
    ensures !Occurs(value, "ExtResource(") ==> r == Failure(ValueError([]))
  {
    var id :- ParseInt(Strip(Between(value, "ExtResource(", ")")));
    Success(EntryExtResource(id))
  }

  /** int() of a decimal numeral between whitespace, stripped first. */
  lemma StripThenParse(w1: string, n: nat, w2: string)
    requires forall i :: 0 <= i < |w1| ==> IsSpace(w1[i])
    requires forall i :: 0 <= i < |w2| ==> IsSpace(w2[i])
    ensures ParseInt(Strip(w1 + DecimalString(n) + w2)) == Success(n)
  {
    var d := DecimalString(n);
    StripPadded(w1, d, w2, Space);
    StripUnpadded(d, Space);
    ParseIntDigits(d, d);
    DigitsValueOfDecimal(n);
  }

  /** No ')' among whitespace and digits. */
  lemma NoCloseParen(w1: string, d: string, w2: string)
    requires forall i :: 0 <= i < |w1| ==> IsSpace(w1[i])
    requires forall i :: 0 <= i < |d| ==> IsDigit(d[i])
    requires forall i :: 0 <= i < |w2| ==> IsSpace(w2[i])
    ensures forall j :: 0 <= j < |w1 + d + w2| ==> !OccursAt(w1 + d + w2 + ")", ")", j)
  {
    var mid := w1 + d + w2;
    forall j | 0 <= j < |mid|
      ensures !OccursAt(mid + ")", ")", j)
    {
      if j < |w1| {
        assert mid[j] == w1[j];
      } else if j < |w1| + |d| {
        assert mid[j] == d[j - |w1|];
      } else {
        assert mid[j] == w2[j - |w1| - |d|];
      }
      assert (mid + ")")[j..j + 1] == [mid[j]];
    }
  }

  /** The text between "ExtResource(" and the next ")" is read as the id. */
  lemma ExtResourceRefOf(value: string, mid: string, n: nat)
    requires Between(value, "ExtResource(", ")") == mid
    requires ParseInt(Strip(mid)) == Success(n)
    ensures ExtResourceRef(value) == Success(EntryExtResource(n))
  {
  }

  /** `ExtResource( n )`, with any whitespace inside the parentheses, refers to id n. */
  lemma ExtResourceRefReads(pre: string, w1: string, n: nat, w2: string, post: string)
    requires forall j :: 0 <= j < |pre| ==> !OccursAt(pre + "ExtResource(", "ExtResource(", j)
    requires forall i :: 0 <= i < |w1| ==> IsSpace(w1[i])
    requires forall i :: 0 <= i < |w2| ==> IsSpace(w2[i])
    ensures Between(pre + "ExtResource(" + (w1 + DecimalString(n) + w2) + ")" + post, "ExtResource(", ")")
      == w1 + DecimalString(n) + w2
    ensures ExtResourceRef(pre + "ExtResource(" + (w1 + DecimalString(n) + w2) + ")" + post)
      == Success(EntryExtResource(n))
  {
    var mid := w1 + DecimalString(n) + w2;
    NoCloseParen(w1, DecimalString(n), w2);
    BetweenDelimited(pre, "ExtResource(", mid, ")", post);
    StripThenParse(w1, n, w2);
    ExtResourceRefOf(pre + "ExtResource(" + mid + ")" + post, mid, n);
  }

  /** between("ExtResource( 27 )", "ExtResource(", ")") is " 27 ", and the id read is 27. */
  lemma ExtResource27()
    ensures Between("ExtResource( 27 )", "ExtResource(", ")") == " 27 "
    ensures ExtResourceRef("ExtResource( 27 )") == Success(EntryExtResource(27))
  {
    var v := "ExtResource( 27 )";
    assert DecimalString(27) == "27";
    var mid := " " + "27" + " ";
    assert mid == " 27 ";
    NoCloseParen(" ", "27", " ");
    assert v == [] + "ExtResource(" + mid + ")" + [];
    BetweenDelimited([], "ExtResource(", mid, ")", []);
    StripThenParse(" ", 27, " ");
    ExtResourceRefOf(v, mid, 27);
  }

  /** What the builders look at in a line: its kind and its key/value pairs. */
  datatype LineInfo = LineInfo(kind: SectionType, kv: map<string, string>)

  /** A line's kind and pairs. */
  function Info(line: string): (r: LineInfo)
    ensures r.kind == GetSectionType(line) && r.kv == KeyValuesOf(line)
  {
    LineInfo(GetSectionType(line), KeyValuesOf(line))
  }

  function Infos(lines: seq<string>): (r: seq<LineInfo>)
    ensures |r| == |lines|
  {
    seq(|lines|, i requires 0 <= i < |lines| => Info(lines[i]))
  }

  /** The first line of kind t, if any: where the latch closes. */
  function FirstOfType(infos: seq<LineInfo>, t: SectionType): (r: Option<nat>)
    decreases |infos|
    ensures r.Some? ==> r.value < |infos| && infos[r.value].kind == t
    ensures r.Some? ==> forall j :: 0 <= j < r.value ==> infos[j].kind != t
    ensures r.None? ==> forall j :: 0 <= j < |infos| ==> infos[j].kind != t
  {
    if infos == [] then None
    else
      match FirstOfType(infos[..|infos| - 1], t)
      case Some(k) => Some(k)
      case None => if infos[|infos| - 1].kind == t then Some(|infos| - 1) else None
  }

  /** The first j lines hold the first line of kind t exactly when it lies before j. */
  lemma FirstOfTypePrefix(infos: seq<LineInfo>, t: SectionType, j: nat)
    requires j <= |infos|
    ensures FirstOfType(infos, t).Some? && FirstOfType(infos, t).value < j ==>
      FirstOfType(infos[..j], t) == FirstOfType(infos, t)
    ensures FirstOfType(infos, t).None? || j <= FirstOfType(infos, t).value ==>
      FirstOfType(infos[..j], t).None?
  {
    var r := FirstOfType(infos[..j], t);
    if r.Some? {
      assert infos[..j][r.value] == infos[r.value];
    }
    var f := FirstOfType(infos, t);
    if f.Some? && f.value < j {
      assert infos[..j][f.value] == infos[f.value];
    }
  }

  // ---------------------------------------------------------------- HeadingNode

  datatype HeadingNode = HeadingNode(
    name: Option<string>,
    typeName: Option<string>,
    parent: Option<string>,
    instance: Option<EntryExtResource>,
    script: Option<EntryExtResource>)

  const EmptyNode := HeadingNode(None, None, None, None, None)

  /** HeadingNode.isValid: name and type are set (an empty string counts as set). */
  predicate NodeIsValid(n: HeadingNode) {
    n.name.Some? && n.typeName.Some?
  }

  /** The fields the heading line sets: name, type and parent as given, instance through
      ExtResourceRef, which raises on a value without an `ExtResource( n )` id. */
  function HeadingFields(n: HeadingNode, kv: map<string, string>): (r: Result<HeadingNode, ValueError>)
    ensures r.Success? <==> "instance" !in kv || ExtResourceRef(kv["instance"]).Success?
    ensures r.Failure? ==> "instance" in kv && r.error == ExtResourceRef(kv["instance"]).error
    ensures r.Success? ==> r.value.script == n.script
    ensures r.Success? && "name" in kv ==> r.value.name == Some(kv["name"])
    ensures r.Success? && "name" !in kv ==> r.value.name == n.name
    ensures r.Success? && "type" in kv ==> r.value.typeName == Some(kv["type"])
    ensures r.Success? && "type" !in kv ==> r.value.typeName == n.typeName
    ensures r.Success? && "parent" in kv ==> r.value.parent == Some(kv["parent"])
    ensures r.Success? && "parent" !in kv ==> r.value.parent == n.parent
    ensures r.Success? && "instance" in kv ==> r.value.instance == Some(ExtResourceRef(kv["instance"]).value)
    ensures r.Success? && "instance" !in kv ==> r.value.instance == n.instance
  {
    var n1 := n.(
      name := if "name" in kv then Some(kv["name"]) else n.name,
      typeName := if "type" in kv then Some(kv["type"]) else n.typeName,
      parent := if "parent" in kv then Some(kv["parent"]) else n.parent);
    if "instance" in kv then
      var e :- ExtResourceRef(kv["instance"]);
      Success(n1.(instance := Some(e)))
    else Success(n1)
  }

  /** The `script` field, read from the heading line and every later line. */
  function ScriptField(n: HeadingNode, kv: map<string, string>): (r: Result<HeadingNode, ValueError>)
    ensures r.Success? <==> "script" !in kv || ExtResourceRef(kv["script"]).Success?
    ensures r.Failure? ==> "script" in kv && r.error == ExtResourceRef(kv["script"]).error
    ensures r.Success? ==> r.value.(script := n.script) == n
    ensures "script" !in kv ==> r == Success(n)
    ensures "script" in kv && r.Success? ==>
      r.value.script.Some? && ExtResourceRef(kv["script"]) == Success(r.value.script.value)
  {
    if "script" in kv then
      var e :- ExtResourceRef(kv["script"]);
      Success(n.(script := Some(e)))
    else Success(n)
  }

  datatype NodeWalk = NodeWalk(node: HeadingNode, gotHeading: bool)

  /** One turn of HeadingNode's line loop. */
  function NodeLine(w: NodeWalk, info: LineInfo): Result<NodeWalk, ValueError> {
    if !w.gotHeading && info.kind == Node then
      var n1 :- HeadingFields(w.node, info.kv);
      var n2 :- ScriptField(n1, info.kv);
      Success(NodeWalk(n2, true))
    else if w.gotHeading then
      var n2 :- ScriptField(w.node, info.kv);
      Success(NodeWalk(n2, true))
    else Success(w)
  }

  function NodeLines(infos: seq<LineInfo>): Result<NodeWalk, ValueError>
    decreases |infos|
  {
    if infos == [] then Success(NodeWalk(EmptyNode, false))
    else
      var w :- NodeLines(infos[..|infos| - 1]);
      NodeLine(w, infos[|infos| - 1])
  }

  function HeadingNodeOf(section: string): Result<HeadingNode, ValueError> {
    var w :- NodeLines(Infos(SplitLines(section)));
    Success(w.node)
  }

  /** Once a prefix of the lines raises, the whole loop raises the same error. */
  lemma {:induction false} NodeFailurePersists(infos: seq<LineInfo>, m: nat)
    requires m <= |infos| && NodeLines(infos[..m]).Failure?
    decreases |infos| - m
    ensures NodeLines(infos) == NodeLines(infos[..m])
  {
    if m == |infos| {
      assert infos[..m] == infos;
    } else {
      var init := infos[..|infos| - 1];
      assert init[..m] == infos[..m];
      NodeFailurePersists(init, m);
    }
  }

  /** The heading line's items: name, type, parent and instance. */
  method ReadNodeHeading(n: HeadingNode, line: string) returns (r: Result<HeadingNode, ValueError>)
    ensures r == HeadingFields(n, KeyValuesOf(line))
  {
    var kv := ParseKeyValues(line);
    var node := n;
    if "name" in kv {
      node := node.(name := Some(kv["name"]));
    }
    if "type" in kv {
      node := node.(typeName := Some(kv["type"]));
    }
    if "parent" in kv {
      node := node.(parent := Some(kv["parent"]));
    }
    if "instance" in kv {
      var id := ExtResourceRef(kv["instance"]);
      if id.Failure? {
        return Failure(id.error);
      }
      node := node.(instance := Some(id.value));
    }
    r := Success(node);
  }

  /** A line's `script` item, from the heading line on. */
  method ReadNodeScript(n: HeadingNode, line: string) returns (r: Result<HeadingNode, ValueError>)
    ensures r == ScriptField(n, KeyValuesOf(line))
  {
    var kv := ParseKeyValues(line);
    r := Success(n);
    if "script" in kv {
      var id := ExtResourceRef(kv["script"]);
      if id.Failure? {
        return Failure(id.error);
      }
      r := Success(n.(script := Some(id.value)));
    }
  }

  /** HeadingNode(section) */
  method NewHeadingNode(section: string) returns (r: Result<HeadingNode, ValueError>)
    ensures r == HeadingNodeOf(section)
  {
    var lines := SplitLines(section);
    var w := ReadNodeLines(lines);
    if w.Failure? {
      return Failure(w.error);
    }
    r := Success(w.value.node);
  }

  /** The line loop of HeadingNode(section), over the section's lines. */
  method ReadNodeLines(lines: seq<string>) returns (r: Result<NodeWalk, ValueError>)
    ensures r == NodeLines(Infos(lines))
  {
    var node := EmptyNode;
    var gotHeading := false;
    ghost var infos := Infos(lines);
    for i := 0 to |lines|
      invariant NodeLines(infos[..i]) == Success(NodeWalk(node, gotHeading))
    {
      var step := ReadNodeTurn(lines, i, node, gotHeading);
      if step.Failure? {
        return step;
      }
      node, gotHeading := step.value.node, step.value.gotHeading;
    }
    assert infos[..|lines|] == infos;
    r := Success(NodeWalk(node, gotHeading));
  }

  /** One turn of the line loop: the heading line is read once, `script` from it on. */
  method ReadNodeLine(n: HeadingNode, gotHeading: bool, line: string) returns (r: Result<NodeWalk, ValueError>)
    ensures r == NodeLine(NodeWalk(n, gotHeading), Info(line))
  {
    var node := n;
    var got := gotHeading;
    if !got && GetSectionType(line) == Node {
      got := true;
      var h := ReadNodeHeading(node, line);
      if h.Failure? {
        return Failure(h.error);
      }
      node := h.value;
    }
    if got {
      var sc := ReadNodeScript(node, line);
      if sc.Failure? {
        return Failure(sc.error);
      }
      node := sc.value;
    }
    r := Success(NodeWalk(node, got));
  }

  /** One turn of the line loop over the section's text: the turn extends the walk, or
      its error is the error of the whole walk. */
  method ReadNodeTurn(lines: seq<string>, i: nat, n: HeadingNode, gotHeading: bool) returns (r: Result<NodeWalk, ValueError>)
    requires i < |lines|
    requires NodeLines(Infos(lines)[..i]) == Success(NodeWalk(n, gotHeading))
    ensures r.Success? ==> NodeLines(Infos(lines)[..i + 1]) == r
    ensures r.Failure? ==> NodeLines(Infos(lines)) == r
  {
    ghost var infos := Infos(lines);
    assert infos[i] == Info(lines[i]);
    r := ReadNodeLine(n, gotHeading, lines[i]);
    NodeStep(infos, i, NodeWalk(n, gotHeading), r);
    if r.Failure? {
      NodeFailurePersists(infos, i + 1);
    }
  }

  /** One more line continues the loop from where the shorter prefix left it. */
  lemma NodeStep(infos: seq<LineInfo>, i: nat, w: NodeWalk, step: Result<NodeWalk, ValueError>)
    requires i < |infos|
    requires NodeLines(infos[..i]) == Success(w) && step == NodeLine(w, infos[i])
    ensures NodeLines(infos[..i + 1]) == step
  {
    NodeLinesSnoc(infos, i);
  }

  lemma NodeLinesSnoc(infos: seq<LineInfo>, i: nat)
    requires i < |infos|
    ensures NodeLines(infos[..i + 1]) ==
      match NodeLines(infos[..i])
      case Success(w) => NodeLine(w, infos[i])
      case Failure(e) => Failure(e)
  {
    assert infos[..i + 1][..i] == infos[..i];
  }

  /** The last line, at or after the heading, that sets `script`. */
  function LastScriptLine(infos: seq<LineInfo>): (r: Option<nat>)
    decreases |infos|
    ensures r.Some? ==> r.value < |infos| && "script" in infos[r.value].kv
  {
    if infos == [] then None
    else if FirstOfType(infos, Node).Some? && "script" in infos[|infos| - 1].kv then Some(|infos| - 1)
    else LastScriptLine(infos[..|infos| - 1])
  }

  /** What a finished node walk holds about its heading: the latch is closed exactly
      when a line is a Node heading, and name, type, parent and instance are those the
      first such line gives on its own. */
  predicate LatchMeets(infos: seq<LineInfo>, w: NodeWalk) {
    && w.gotHeading == FirstOfType(infos, Node).Some?
    && (FirstOfType(infos, Node).None? ==> w.node == EmptyNode)
    && (FirstOfType(infos, Node).Some? ==>
          HeadingFields(EmptyNode, infos[FirstOfType(infos, Node).value].kv) == Success(w.node.(script := None)))
  }

  /** ... and about its script: it is read from the last line, from the heading on, that
      sets one. */
  predicate ScriptMeets(infos: seq<LineInfo>, w: NodeWalk) {
    && (LastScriptLine(infos).None? ==> w.node.script.None?)
    && (LastScriptLine(infos).Some? ==>
          w.node.script.Some?
          && ExtResourceRef(infos[LastScriptLine(infos).value].kv["script"]) == Success(w.node.script.value))
  }

  lemma LatchStep(infos: seq<LineInfo>, w: NodeWalk)
    requires infos != [] && LatchMeets(infos[..|infos| - 1], w)
    requires NodeLine(w, infos[|infos| - 1]).Success?
    ensures LatchMeets(infos, NodeLine(w, infos[|infos| - 1]).value)
  {
    var init := infos[..|infos| - 1];
    var info := infos[|infos| - 1];
    if FirstOfType(init, Node).Some? {
      assert init[FirstOfType(init, Node).value] == infos[FirstOfType(init, Node).value];
    } else if info.kind == Node {
      var n1 := HeadingFields(EmptyNode, info.kv).value;
      assert n1.(script := None) == n1;
    }
  }

  lemma ScriptStep(infos: seq<LineInfo>, w: NodeWalk)
    requires infos != [] && ScriptMeets(infos[..|infos| - 1], w)
    requires LatchMeets(infos[..|infos| - 1], w)
    requires NodeLine(w, infos[|infos| - 1]).Success?
    ensures ScriptMeets(infos, NodeLine(w, infos[|infos| - 1]).value)
  {
    var init := infos[..|infos| - 1];
    var info := infos[|infos| - 1];
    var last := LastScriptLine(init);
    if last.Some? {
      assert init[last.value] == infos[last.value];
    }
    if FirstOfType(init, Node).None? && info.kind != Node {
      assert FirstOfType(infos, Node).None?;
      assert LastScriptLine(infos) == last;
      NodeLineIdle(w, info);
    } else {
      assert FirstOfType(infos, Node).Some?;
      NodeLineScript(w, info);
      if "script" in info.kv {
        assert LastScriptLine(infos) == Some(|infos| - 1);
      } else {
        assert LastScriptLine(infos) == last;
      }
    }
  }

  /** Before the heading a line changes nothing. */
  lemma NodeLineIdle(w: NodeWalk, info: LineInfo)
    requires !w.gotHeading && info.kind != Node
    ensures NodeLine(w, info) == Success(w)
  {
  }

  /** From the heading on, a line sets `script` exactly when it has one. */
  lemma NodeLineScript(w: NodeWalk, info: LineInfo)
    requires (w.gotHeading || info.kind == Node) && NodeLine(w, info).Success?
    ensures "script" in info.kv ==>
      && NodeLine(w, info).value.node.script.Some?
      && ExtResourceRef(info.kv["script"]) == Success(NodeLine(w, info).value.node.script.value)
    ensures "script" !in info.kv ==> NodeLine(w, info).value.node.script == w.node.script
  {
    var n1 := if w.gotHeading then w.node else HeadingFields(w.node, info.kv).value;
    assert n1.script == w.node.script;
    assert NodeLine(w, info) == Success(NodeWalk(ScriptField(n1, info.kv).value, true));
  }

  lemma {:induction false} NodeWalkFacts(infos: seq<LineInfo>)
    decreases |infos|
    ensures NodeLines(infos).Success? ==>
      LatchMeets(infos, NodeLines(infos).value) && ScriptMeets(infos, NodeLines(infos).value)
  {
    if infos != [] && NodeLines(infos).Success? {
      var init := infos[..|infos| - 1];
      NodeWalkFacts(init);
      var w := NodeLines(init).value;
      LatchStep(infos, w);
      ScriptStep(infos, w);
    }
  }

  /** A node is built from its first Node line: it is valid exactly when that line exists
      and gives both a name and a type; later Node lines are not read as headings. */
  lemma NodeValidIff(infos: seq<LineInfo>)
    requires NodeLines(infos).Success?
    ensures NodeIsValid(NodeLines(infos).value.node) <==>
      FirstOfType(infos, Node).Some?
      && "name" in infos[FirstOfType(infos, Node).value].kv
      && "type" in infos[FirstOfType(infos, Node).value].kv
  {
    NodeWalkFacts(infos);
    var w := NodeLines(infos).value;
    assert LatchMeets(infos, w);
    var first := FirstOfType(infos, Node);
    if first.Some? {
      var h := HeadingFields(EmptyNode, infos[first.value].kv);
      assert h == Success(w.node.(script := None));
      assert h.value.name == w.node.name && h.value.typeName == w.node.typeName;
    }
  }

  /** Before the heading nothing is read. */
  lemma {:induction false} NoHeadingEmptyNode(infos: seq<LineInfo>)
    requires forall j :: 0 <= j < |infos| ==> infos[j].kind != Node
    decreases |infos|
    ensures NodeLines(infos) == Success(NodeWalk(EmptyNode, false))
  {
    if infos != [] {
      NoHeadingEmptyNode(infos[..|infos| - 1]);
    }
  }

  /** `instance` is read through ExtResourceRef: a heading whose instance value is not
      `ExtResource( n )` makes the whole node raise. */
  lemma NodeInstanceRaises(infos: seq<LineInfo>)
    requires FirstOfType(infos, Node).Some?
    requires "instance" in infos[FirstOfType(infos, Node).value].kv
    requires ExtResourceRef(infos[FirstOfType(infos, Node).value].kv["instance"]).Failure?
    ensures NodeLines(infos).Failure?
  {
    var k := FirstOfType(infos, Node).value;
    NoHeadingEmptyNode(infos[..k]);
    NodeLinesSnoc(infos, k);
    assert HeadingFields(EmptyNode, infos[k].kv).Failure?;
    assert NodeLine(NodeWalk(EmptyNode, false), infos[k]).Failure?;
    NodeFailurePersists(infos, k + 1);
  }

  /** From the heading on, a `script` value that is not `ExtResource( n )` raises. */
  lemma NodeLineScriptRaises(w: NodeWalk, info: LineInfo)
    requires w.gotHeading || info.kind == Node
    requires "script" in info.kv && ExtResourceRef(info.kv["script"]).Failure?
    ensures NodeLine(w, info).Failure?
  {
    if !w.gotHeading && HeadingFields(w.node, info.kv).Success? {
      assert ScriptField(HeadingFields(w.node, info.kv).value, info.kv).Failure?;
    }
  }

  /** `script` is read through ExtResourceRef on the heading line and every later line:
      such a line whose script value is not `ExtResource( n )` makes the whole node raise. */
  lemma NodeScriptRaises(infos: seq<LineInfo>, j: nat)
    requires FirstOfType(infos, Node).Some? && FirstOfType(infos, Node).value <= j < |infos|
    requires "script" in infos[j].kv && ExtResourceRef(infos[j].kv["script"]).Failure?
    ensures NodeLines(infos).Failure?
  {
    NodeScriptPrefixRaises(infos, j);
    NodeFailurePersists(infos, j + 1);
  }

  lemma NodeScriptPrefixRaises(infos: seq<LineInfo>, j: nat)
    requires FirstOfType(infos, Node).Some? && FirstOfType(infos, Node).value <= j < |infos|
    requires "script" in infos[j].kv && ExtResourceRef(infos[j].kv["script"]).Failure?
    ensures NodeLines(infos[..j + 1]).Failure?
  {
    if NodeLines(infos[..j]).Success? {
      var w := NodeLines(infos[..j]).value;
      NodeLatch(infos[..j]);
      LatchAt(infos, j, w.gotHeading);
      NodeLineScriptRaises(w, infos[j]);
      NodeStep(infos, j, w, NodeLine(w, infos[j]));
    } else {
      NodeLinesSnoc(infos, j);
    }
  }

  /** From the heading on, a latch that closes at the first Node line is closed at each
      line, or the line is the heading itself. */
  lemma LatchAt(infos: seq<LineInfo>, j: nat, closed: bool)
    requires FirstOfType(infos, Node).Some? && FirstOfType(infos, Node).value <= j < |infos|
    requires closed == FirstOfType(infos[..j], Node).Some?
    ensures closed || infos[j].kind == Node
  {
    FirstOfTypePrefix(infos, Node, j);
  }

  /** The walk's latch is closed exactly when some line is a Node heading. */
  lemma NodeLatch(infos: seq<LineInfo>)
    ensures NodeLines(infos).Success? ==> NodeLines(infos).value.gotHeading == FirstOfType(infos, Node).Some?
  {
    NodeWalkFacts(infos);
  }

  /** Every id HeadingNode reads decodes: the heading's instance, and the script of the
      heading line and of every line after it. */
  predicate NodeIdsDecode(infos: seq<LineInfo>) {
    HeadingPasses(infos, InstanceDecodes) && FromHeadingPasses(infos, ScriptDecodes)
  }

  /** The line has no item key, or its value is an `ExtResource( n )` reference. */
  predicate Decodes(kv: map<string, string>, key: string) {
    key in kv ==> ExtResourceRef(kv[key]).Success?
  }

  predicate InstanceDecodes(info: LineInfo) { Decodes(info.kv, "instance") }

  predicate ScriptDecodes(info: LineInfo) { Decodes(info.kv, "script") }

  /** The first Node line, if any, passes ok. */
  predicate HeadingPasses(infos: seq<LineInfo>, ok: LineInfo -> bool) {
    FirstOfType(infos, Node).Some? ==> ok(infos[FirstOfType(infos, Node).value])
  }

  /** Every line from the first Node line on passes ok. */
  predicate FromHeadingPasses(infos: seq<LineInfo>, ok: LineInfo -> bool) {
    FirstOfType(infos, Node).Some? ==>
      forall j :: FirstOfType(infos, Node).value <= j < |infos| ==> ok(infos[j])
  }

  /** A failed test stays failed when a line is added. */
  lemma PassesShrink(infos: seq<LineInfo>, ok: LineInfo -> bool)
    requires infos != []
    ensures HeadingPasses(infos, ok) ==> HeadingPasses(infos[..|infos| - 1], ok)
    ensures FromHeadingPasses(infos, ok) ==> FromHeadingPasses(infos[..|infos| - 1], ok)
  {
    var init := infos[..|infos| - 1];
    if FirstOfType(init, Node).Some? {
      assert FirstOfType(infos, Node) == FirstOfType(init, Node);
      assert forall j :: 0 <= j < |init| ==> init[j] == infos[j];
    }
  }

  /** The node is built exactly when every id it reads decodes. */
  lemma NodeLinesSucceedIff(infos: seq<LineInfo>)
    ensures NodeLines(infos).Success? <==> NodeIdsDecode(infos)
  {
    if !NodeIdsDecode(infos) {
      var k := FirstOfType(infos, Node).value;
      if !InstanceDecodes(infos[k]) {
        NodeInstanceRaises(infos);
      } else {
        var j :| k <= j < |infos| && !ScriptDecodes(infos[j]);
        NodeScriptRaises(infos, j);
      }
    }
    if NodeLines(infos).Failure? {
      NodeFailureCause(infos);
    }
  }

  /** A failing node walk points at an id that does not decode. */
  lemma {:induction false} NodeFailureCause(infos: seq<LineInfo>)
    requires NodeLines(infos).Failure?
    decreases |infos|
    ensures !NodeIdsDecode(infos)
  {
    var init := infos[..|infos| - 1];
    if NodeLines(init).Failure? {
      NodeFailureCause(init);
      UndecodedGrows(infos);
    } else {
      NodeFailureAtLast(infos);
    }
  }

  /** An id that does not decode stays one when a line is added. */
  lemma UndecodedGrows(infos: seq<LineInfo>)
    requires infos != [] && !NodeIdsDecode(infos[..|infos| - 1])
    ensures !NodeIdsDecode(infos)
  {
    PassesShrink(infos, InstanceDecodes);
    PassesShrink(infos, ScriptDecodes);
  }

  /** When the walk first raises on the last line, that line holds the id at fault. */
  lemma NodeFailureAtLast(infos: seq<LineInfo>)
    requires infos != [] && NodeLines(infos[..|infos| - 1]).Success? && NodeLines(infos).Failure?
    ensures !NodeIdsDecode(infos)
  {
    var n := |infos| - 1;
    var w := NodeLines(infos[..n]).value;
    NodeLatch(infos[..n]);
    NodeFailureLast(w, infos[n]);
    if !ScriptDecodes(infos[n]) {
      LastFailsFromHeading(infos, ScriptDecodes);
    } else {
      HeadingFailsAtLast(infos, InstanceDecodes);
    }
  }

  /** A last line from the heading on that fails ok is a line from the heading on. */
  lemma LastFailsFromHeading(infos: seq<LineInfo>, ok: LineInfo -> bool)
    requires infos != [] && !ok(infos[|infos| - 1])
    requires FirstOfType(infos[..|infos| - 1], Node).Some? || infos[|infos| - 1].kind == Node
    ensures !FromHeadingPasses(infos, ok)
  {
  }

  /** A last line that is the first Node line and fails ok is a failing heading. */
  lemma HeadingFailsAtLast(infos: seq<LineInfo>, ok: LineInfo -> bool)
    requires infos != [] && !ok(infos[|infos| - 1])
    requires FirstOfType(infos[..|infos| - 1], Node).None? && infos[|infos| - 1].kind == Node
    ensures !HeadingPasses(infos, ok)
  {
  }

  /** A line the walk raises on is the heading with an undecodable instance, or a line
      from the heading on with an undecodable script. */
  lemma NodeFailureLast(w: NodeWalk, info: LineInfo)
    requires NodeLine(w, info).Failure?
    ensures w.gotHeading || info.kind == Node
    ensures (!w.gotHeading && !InstanceDecodes(info)) || !ScriptDecodes(info)
  {
  }

  // ---------------------------------------------------------------- HeadingConnection

  datatype HeadingConnection = HeadingConnection(
    signal: Option<string>,
    fromNode: Option<string>,
    toNode: Option<string>,
    methodName: Option<string>)

  const EmptyConnection := HeadingConnection(None, None, None, None)

  /** HeadingConnection.isValid: all four fields set (an empty string counts as set). */
  predicate ConnectionIsValid(c: HeadingConnection) {
    c.signal.Some? && c.fromNode.Some? && c.toNode.Some? && c.methodName.Some?
  }

  function ConnectionFields(c: HeadingConnection, kv: map<string, string>): HeadingConnection {
    c.(
      signal := if "signal" in kv then Some(kv["signal"]) else c.signal,
      fromNode := if "from" in kv then Some(kv["from"]) else c.fromNode,
      toNode := if "to" in kv then Some(kv["to"]) else c.toNode,
      methodName := if "method" in kv then Some(kv["method"]) else c.methodName)
  }

  datatype ConnectionWalk = ConnectionWalk(conn: HeadingConnection, gotHeading: bool)

  function ConnectionLine(w: ConnectionWalk, info: LineInfo): ConnectionWalk {
    if !w.gotHeading && info.kind == Connection then
      ConnectionWalk(ConnectionFields(w.conn, info.kv), true)
    else w
  }

  function ConnectionLines(infos: seq<LineInfo>): ConnectionWalk
    decreases |infos|
  {
    if infos == [] then ConnectionWalk(EmptyConnection, false)
    else ConnectionLine(ConnectionLines(infos[..|infos| - 1]), infos[|infos| - 1])
  }

  function HeadingConnectionOf(section: string): HeadingConnection {
    ConnectionLines(Infos(SplitLines(section))).conn
  }

  /** HeadingConnection(section) */
  method NewHeadingConnection(section: string) returns (c: HeadingConnection)
    ensures c == HeadingConnectionOf(section)
  {
    c := EmptyConnection;
    var gotHeading := false;
    var lines := SplitLines(section);
    ghost var infos := Infos(lines);
    for i := 0 to |lines|
      invariant ConnectionLines(infos[..i]) == ConnectionWalk(c, gotHeading)
    {
      assert infos[..i + 1][..i] == infos[..i];
      assert infos[i] == Info(lines[i]);
      c, gotHeading := ReadConnectionLine(c, gotHeading, lines[i]);
    }
    assert infos[..|lines|] == infos;
  }

  /** One turn of the line loop: only the first Connection line is read. */
  method ReadConnectionLine(c: HeadingConnection, gotHeading: bool, line: string) returns (c': HeadingConnection, got: bool)
    ensures ConnectionWalk(c', got) == ConnectionLine(ConnectionWalk(c, gotHeading), Info(line))
  {
    c', got := c, gotHeading;
    if !got && GetSectionType(line) == Connection {
      got := true;
      c' := ReadConnectionHeading(c', line);
    }
  }

  /** The heading line's items: signal, from, to and method. */
  method ReadConnectionHeading(c: HeadingConnection, line: string) returns (r: HeadingConnection)
    ensures r == ConnectionFields(c, KeyValuesOf(line))
  {
    var kv := ParseKeyValues(line);
    r := c;
    if "signal" in kv {
      r := r.(signal := Some(kv["signal"]));
    }
    if "from" in kv {
      r := r.(fromNode := Some(kv["from"]));
    }
    if "to" in kv {
      r := r.(toNode := Some(kv["to"]));
    }
    if "method" in kv {
      r := r.(methodName := Some(kv["method"]));
    }
  }

  /** A connection reads only its heading line: the first line classified Connection. */
  lemma {:induction false} ConnectionReadsHeading(infos: seq<LineInfo>)
    decreases |infos|
    ensures ConnectionLines(infos) == match FirstOfType(infos, Connection)
      case None => ConnectionWalk(EmptyConnection, false)
      case Some(k) => ConnectionWalk(ConnectionFields(EmptyConnection, infos[k].kv), true)
  {
    if infos != [] {
      var init := infos[..|infos| - 1];
      ConnectionReadsHeading(init);
      assert forall j :: 0 <= j < |init| ==> init[j] == infos[j];
    }
  }

  lemma ConnectionValidIff(section: string)
    ensures var infos := Infos(SplitLines(section));
      ConnectionIsValid(HeadingConnectionOf(section)) <==>
        FirstOfType(infos, Connection).Some?
        && var kv := infos[FirstOfType(infos, Connection).value].kv;
           "signal" in kv && "from" in kv && "to" in kv && "method" in kv
  {
    ConnectionReadsHeading(Infos(SplitLines(section)));
  }

  // ---------------------------------------------------------------- HeadingExtResource

  datatype HeadingExtResource = HeadingExtResource(path: Option<string>, typeName: Option<string>, id: int)

  /** The id stays -1 unless the heading gives one. */
  const EmptyExtResource := HeadingExtResource(None, None, -1)

  /** HeadingExtResource.isValid: path and type set (an empty string counts as set). */
  predicate ExtResourceIsValid(x: HeadingExtResource) {
    x.path.Some? && x.typeName.Some?
  }

  /** path is the value after its "res://" (empty when there is none), type as given,
      id through int(), which raises on anything but an integer literal. */
  function ExtResourceFields(x: HeadingExtResource, kv: map<string, string>): (r: Result<HeadingExtResource, ValueError>)
    ensures r.Success? <==> "id" !in kv || ParseInt(kv["id"]).Success?
    ensures r.Failure? ==> "id" in kv && r.error == ParseInt(kv["id"]).error
    ensures r.Success? && "id" in kv ==> r.value.id == ParseInt(kv["id"]).value
    ensures r.Success? && "id" !in kv ==> r.value.id == x.id
    ensures r.Success? && "path" in kv ==> r.value.path == Some(After(kv["path"], "res://"))
    ensures r.Success? && "path" in kv && !Occurs(kv["path"], "res://") ==> r.value.path == Some([])
    ensures r.Success? && "path" !in kv ==> r.value.path == x.path
    ensures r.Success? && "type" in kv ==> r.value.typeName == Some(kv["type"])
    ensures r.Success? && "type" !in kv ==> r.value.typeName == x.typeName
  {
    var x1 := x.(
      path := if "path" in kv then Some(After(kv["path"], "res://")) else x.path,
      typeName := if "type" in kv then Some(kv["type"]) else x.typeName);
    if "id" in kv then
      var id :- ParseInt(kv["id"]);
      Success(x1.(id := id))
    else Success(x1)
  }

  datatype ExtResourceWalk = ExtResourceWalk(res: HeadingExtResource, gotHeading: bool)

  function ExtResourceLine(w: ExtResourceWalk, info: LineInfo): Result<ExtResourceWalk, ValueError> {
    if !w.gotHeading && info.kind == ExtResource then
      var x :- ExtResourceFields(w.res, info.kv);
      Success(ExtResourceWalk(x, true))
    else Success(w)
  }

  function ExtResourceLines(infos: seq<LineInfo>): Result<ExtResourceWalk, ValueError>
    decreases |infos|
  {
    if infos == [] then Success(ExtResourceWalk(EmptyExtResource, false))
    else
      var w :- ExtResourceLines(infos[..|infos| - 1]);
      ExtResourceLine(w, infos[|infos| - 1])
  }

  function HeadingExtResourceOf(section: string): Result<HeadingExtResource, ValueError> {
    var w :- ExtResourceLines(Infos(SplitLines(section)));
    Success(w.res)
  }

  /** The heading line's items: path, type and id. */
  method ReadExtResourceHeading(x: HeadingExtResource, line: string) returns (r: Result<HeadingExtResource, ValueError>)
    ensures r == ExtResourceFields(x, KeyValuesOf(line))
  {
    var kv := ParseKeyValues(line);
    var res := x;
    if "path" in kv {
      res := res.(path := Some(After(kv["path"], "res://")));
    }
    if "type" in kv {
      res := res.(typeName := Some(kv["type"]));
    }
    if "id" in kv {
      var n := ParseInt(kv["id"]);
      if n.Failure? {
        return Failure(n.error);
      }
      res := res.(id := n.value);
    }
    r := Success(res);
  }

  lemma {:induction false} ExtResourceFailurePersists(infos: seq<LineInfo>, m: nat)
    requires m <= |infos| && ExtResourceLines(infos[..m]).Failure?
    decreases |infos| - m
    ensures ExtResourceLines(infos) == ExtResourceLines(infos[..m])
  {
    if m == |infos| {
      assert infos[..m] == infos;
    } else {
      var init := infos[..|infos| - 1];
      assert init[..m] == infos[..m];
      ExtResourceFailurePersists(init, m);
    }
  }

  /** HeadingExtResource(section) */
  method NewHeadingExtResource(section: string) returns (r: Result<HeadingExtResource, ValueError>)
    ensures r == HeadingExtResourceOf(section)
  {
    var lines := SplitLines(section);
    var w := ReadExtResourceLines(lines);
    if w.Failure? {
      return Failure(w.error);
    }
    r := Success(w.value.res);
  }

  /** The line loop of HeadingExtResource(section), over the section's lines. */
  method ReadExtResourceLines(lines: seq<string>) returns (r: Result<ExtResourceWalk, ValueError>)
    ensures r == ExtResourceLines(Infos(lines))
  {
    var res := EmptyExtResource;
    var gotHeading := false;
    ghost var infos := Infos(lines);
    for i := 0 to |lines|
      invariant ExtResourceLines(infos[..i]) == Success(ExtResourceWalk(res, gotHeading))
    {
      var step := ReadExtResourceTurn(lines, i, res, gotHeading);
      if step.Failure? {
        return step;
      }
      res, gotHeading := step.value.res, step.value.gotHeading;
    }
    assert infos[..|lines|] == infos;
    r := Success(ExtResourceWalk(res, gotHeading));
  }

  /** One turn of the line loop: only the first ExtResource line is read. */
  method ReadExtResourceLine(x: HeadingExtResource, gotHeading: bool, line: string) returns (r: Result<ExtResourceWalk, ValueError>)
    ensures r == ExtResourceLine(ExtResourceWalk(x, gotHeading), Info(line))
  {
    r := Success(ExtResourceWalk(x, gotHeading));
    if !gotHeading && GetSectionType(line) == ExtResource {
      var h := ReadExtResourceHeading(x, line);
      if h.Failure? {
        return Failure(h.error);
      }
      r := Success(ExtResourceWalk(h.value, true));
    }
  }

  lemma ExtResourceLinesSnoc(infos: seq<LineInfo>, i: nat)
    requires i < |infos|
    ensures ExtResourceLines(infos[..i + 1]) ==
      match ExtResourceLines(infos[..i])
      case Success(w) => ExtResourceLine(w, infos[i])
      case Failure(e) => Failure(e)
  {
    assert infos[..i + 1][..i] == infos[..i];
  }

  /** One turn of the line loop over the section's text: the turn extends the walk, or
      its error is the error of the whole walk. */
  method ReadExtResourceTurn(lines: seq<string>, i: nat, x: HeadingExtResource, gotHeading: bool) returns (r: Result<ExtResourceWalk, ValueError>)
    requires i < |lines|
    requires ExtResourceLines(Infos(lines)[..i]) == Success(ExtResourceWalk(x, gotHeading))
    ensures r.Success? ==> ExtResourceLines(Infos(lines)[..i + 1]) == r
    ensures r.Failure? ==> ExtResourceLines(Infos(lines)) == r
  {
    ghost var infos := Infos(lines);
    assert infos[i] == Info(lines[i]);
    r := ReadExtResourceLine(x, gotHeading, lines[i]);
    ExtResourceStep(infos, i, ExtResourceWalk(x, gotHeading), r);
    if r.Failure? {
      ExtResourceFailurePersists(infos, i + 1);
    }
  }

  lemma ExtResourceStep(infos: seq<LineInfo>, i: nat, w: ExtResourceWalk, step: Result<ExtResourceWalk, ValueError>)
    requires i < |infos|
    requires ExtResourceLines(infos[..i]) == Success(w) && step == ExtResourceLine(w, infos[i])
    ensures ExtResourceLines(infos[..i + 1]) == step
  {
    ExtResourceLinesSnoc(infos, i);
  }

  /** An ext_resource reads only its heading line: the first line classified ExtResource. */
  lemma {:induction false} ExtResourceReadsHeading(infos: seq<LineInfo>)
    decreases |infos|
    ensures ExtResourceLines(infos) == match FirstOfType(infos, ExtResource)
      case None => Success(ExtResourceWalk(EmptyExtResource, false))
      case Some(k) =>
        match ExtResourceFields(EmptyExtResource, infos[k].kv)
        case Success(x) => Success(ExtResourceWalk(x, true))
        case Failure(e) => Failure(e)
  {
    if infos != [] {
      var init := infos[..|infos| - 1];
      ExtResourceReadsHeading(init);
      assert forall j :: 0 <= j < |init| ==> init[j] == infos[j];
    }
  }

  /** Without an id on its heading line an ext_resource keeps id -1; it is valid exactly
      when that line gives a path and a type. */
  lemma ExtResourceDefaults(section: string)
    requires HeadingExtResourceOf(section).Success?
    ensures var infos := Infos(SplitLines(section));
      var x := HeadingExtResourceOf(section).value;
      && (FirstOfType(infos, ExtResource).None? || "id" !in infos[FirstOfType(infos, ExtResource).value].kv ==> x.id == -1)
      && (ExtResourceIsValid(x) <==>
            FirstOfType(infos, ExtResource).Some?
            && "path" in infos[FirstOfType(infos, ExtResource).value].kv
            && "type" in infos[FirstOfType(infos, ExtResource).value].kv)
  {
    ExtResourceReadsHeading(Infos(SplitLines(section)));
  }
}
