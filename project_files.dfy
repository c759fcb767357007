/** The two file records: SceneFile, which sorts the sections of a `.tscn` scene into
    nodes, ext_resources and connections, and ProjectFile, which finds the main scene
    named in `project.godot`. Whether the file exists and what it holds are parameters. */
module ProjectFiles {
  import opened Wrappers
  import opened Text
  import opened Helpers
  import opened Sections
  import opened SectionValues
  import opened Entities

  /** The message both records keep when their file is missing. */
  function MissingFileError(fileName: string): (r: string)
    ensures |r| == |fileName| + 24
    ensures StartsWith(r, "Failed to find ") && r[15..15 + |fileName|] == fileName
    ensures r[15 + |fileName|..] == " file ..."
  {
    "Failed to find " + fileName + " file ..."
  }

  // ---------------------------------------------------------------- SceneFile

  /** What one section gives: nothing (an Unknown section) or the entity built from it,
      valid or not. */
  datatype Built =
    | Skipped
    | NodeBuilt(node: HeadingNode)
    | ConnectionBuilt(conn: HeadingConnection)
    | ResourceBuilt(res: HeadingExtResource)

  /** The dispatch of the section loop: each section is classified
      once and handed to the builder of its kind. */
  function Build(section: string): (r: Result<Built, ValueError>)
    ensures GetSectionType(section) == Unknown <==> r == Success(Skipped)
    ensures r.Success? && r.value.NodeBuilt? ==> GetSectionType(section) == Node
    ensures r.Success? && r.value.ConnectionBuilt? ==> GetSectionType(section) == Connection
    ensures r.Success? && r.value.ResourceBuilt? ==> GetSectionType(section) == ExtResource
    ensures r.Failure? ==> GetSectionType(section) in {Node, ExtResource}
  {
    match GetSectionType(section)
    case Unknown => Success(Skipped)
    case Node =>
      var n :- HeadingNodeOf(section);
      Success(NodeBuilt(n))
    case Connection => Success(ConnectionBuilt(HeadingConnectionOf(section)))
    case ExtResource =>
      var x :- HeadingExtResourceOf(section);
      Success(ResourceBuilt(x))
  }

  lemma BuildNode(section: string)
    requires GetSectionType(section) == Node
    ensures Build(section) == match HeadingNodeOf(section)
      case Success(n) => Success(NodeBuilt(n))
      case Failure(e) => Failure(e)
  {
  }

  lemma BuildConnection(section: string)
    requires GetSectionType(section) == Connection
    ensures Build(section) == Success(ConnectionBuilt(HeadingConnectionOf(section)))
  {
  }

  lemma BuildExtResource(section: string)
    requires GetSectionType(section) == ExtResource
    ensures Build(section) == match HeadingExtResourceOf(section)
      case Success(x) => Success(ResourceBuilt(x))
      case Failure(e) => Failure(e)
  {
  }

  function Builds(sections: seq<string>): (r: seq<Result<Built, ValueError>>)
    ensures |r| == |sections|
  {
    seq(|sections|, i requires 0 <= i < |sections| => Build(sections[i]))
  }

  /** The state of a SceneFile: its error and its three lists. */
  datatype Scene = Scene(
    error: Option<string>,
    nodes: seq<HeadingNode>,
    resources: seq<HeadingExtResource>,
    connections: seq<HeadingConnection>)

  const EmptyScene := Scene(None, [], [], [])

  /** Appending an entity to its list when its isValid() holds. */
  function Keep(s: Scene, b: Built): Scene {
    match b
    case Skipped => s
    case NodeBuilt(n) => if NodeIsValid(n) then s.(nodes := s.nodes + [n]) else s
    case ConnectionBuilt(c) => if ConnectionIsValid(c) then s.(connections := s.connections + [c]) else s
    case ResourceBuilt(x) => if ExtResourceIsValid(x) then s.(resources := s.resources + [x]) else s
  }

  /** The section loop; a builder that raises ends it with that error. */
  function Collect(builds: seq<Result<Built, ValueError>>): Result<Scene, ValueError>
    decreases |builds|
  {
    if builds == [] then Success(EmptyScene)
    else
      var s :- Collect(builds[..|builds| - 1]);
      var b :- builds[|builds| - 1];
      Success(Keep(s, b))
  }

  /** SceneFile(file_name), for a file that exists or not and holds `text`. */
  function SceneFileOf(fileName: string, found: bool, text: string): Result<Scene, ValueError> {
    if !found then Success(EmptyScene.(error := Some(MissingFileError(fileName))))
    else Collect(Builds(ReadFileSections(text)))
  }

  class SceneFile {
    var path: string
    var error: Option<string>
    var nodes: seq<HeadingNode>
    var resources: seq<HeadingExtResource>
    var connections: seq<HeadingConnection>

    function Contents(): Scene
      reads this
    {
      Scene(error, nodes, resources, connections)
    }

    /** The fields set before the file is looked at. */
    constructor Empty(fileName: string)
      ensures path == fileName && Contents() == EmptyScene
    {
      path := fileName;
      error := None;
      nodes := [];
      resources := [];
      connections := [];
    }

    /** One turn of the section loop. */
    method AddSection(section: string) returns (r: Result<Built, ValueError>)
      modifies this
      ensures r == Build(section)
      ensures path == old(path)
      ensures r.Success? ==> Contents() == Keep(old(Contents()), r.value)
    {
      var kind := GetSectionType(section);
      match kind
      case Unknown =>
        r := Success(Skipped);
      case Node =>
        r := AddNode(section);
      case Connection =>
        r := AddConnection(section);
      case ExtResource =>
        r := AddExtResource(section);
    }

    /** A [node] section: built, and appended when valid. */
    method AddNode(section: string) returns (r: Result<Built, ValueError>)
      requires GetSectionType(section) == Node
      modifies this
      ensures r == Build(section)
      ensures path == old(path)
      ensures r.Success? ==> Contents() == Keep(old(Contents()), r.value)
    {
      var node := NewHeadingNode(section);
      BuildNode(section);
      if node.Failure? {
        return Failure(node.error);
      }
      r := Success(NodeBuilt(node.value));
      if NodeIsValid(node.value) {
        nodes := nodes + [node.value];
      }
    }

    /** A [connection] section: built, and appended when valid. */
    method AddConnection(section: string) returns (r: Result<Built, ValueError>)
      requires GetSectionType(section) == Connection
      modifies this
      ensures r == Build(section)
      ensures path == old(path)
      ensures r.Success? ==> Contents() == Keep(old(Contents()), r.value)
    {
      var conn := NewHeadingConnection(section);
      BuildConnection(section);
      r := Success(ConnectionBuilt(conn));
      KeepConnection(conn);
    }

    /** Appends the connection to the scene's list only when it is valid. */
    method KeepConnection(c: HeadingConnection)
      modifies this
      ensures path == old(path)
      ensures Contents() == Keep(old(Contents()), ConnectionBuilt(c))
    {
      if ConnectionIsValid(c) {
        connections := connections + [c];
      }
    }

    /** An [ext_resource] section: built, and appended when valid. */
    method AddExtResource(section: string) returns (r: Result<Built, ValueError>)
      requires GetSectionType(section) == ExtResource
      modifies this
      ensures r == Build(section)
      ensures path == old(path)
      ensures r.Success? ==> Contents() == Keep(old(Contents()), r.value)
    {
      BuildExtResource(section);
      var resource := NewHeadingExtResource(section);
      if resource.Failure? {
        return Failure(resource.error);
      }
      r := Success(ResourceBuilt(resource.value));
      KeepResource(resource.value);
    }

    /** Appends the resource to the scene's list only when it is valid. */
    method KeepResource(x: HeadingExtResource)
      modifies this
      ensures path == old(path)
      ensures Contents() == Keep(old(Contents()), ResourceBuilt(x))
    {
      if ExtResourceIsValid(x) {
        resources := resources + [x];
      }
    }

    /** SceneFile(file_name): a new record, or the error a builder raised. */
    static method Open(fileName: string, found: bool, text: string) returns (r: Result<SceneFile, ValueError>)
      ensures r.Success? <==> SceneFileOf(fileName, found, text).Success?
      ensures r.Success? ==>
        && fresh(r.value) && r.value.path == fileName
        && r.value.Contents() == SceneFileOf(fileName, found, text).value
      ensures r.Failure? ==> r.error == SceneFileOf(fileName, found, text).error
    {
      var f := new SceneFile.Empty(fileName);
      if !found {
        f.error := Some(MissingFileError(fileName));
        return Success(f);
      }
      var raised := f.AddSections(ReadFileSections(text));
      if raised.Failure? {
        return Failure(raised.error);
      }
      r := Success(f);
    }

    /** The section loop, from the empty lists. */
    method AddSections(sections: seq<string>) returns (r: Result<(), ValueError>)
      requires Contents() == EmptyScene
      modifies this
      ensures path == old(path)
      ensures r.Success? <==> Collect(Builds(sections)).Success?
      ensures r.Success? ==> Contents() == Collect(Builds(sections)).value
      ensures r.Failure? ==> r.error == Collect(Builds(sections)).error
    {
      ghost var builds := Builds(sections);
      for i := 0 to |sections|
        invariant path == old(path)
        invariant Collect(builds[..i]) == Success(Contents())
      {
        ghost var before := Contents();
        var b := AddSection(sections[i]);
        SectionStep(sections, i, before, b, Contents());
        if b.Failure? {
          return Failure(b.error);
        }
      }
      assert builds[..|sections|] == builds;
      r := Success(());
    }
  }

  /** One turn of the section loop: the built section b either extends the fold to the
      scene after, or its error is the error of the whole fold. */
  lemma SectionStep(sections: seq<string>, i: nat, before: Scene, b: Result<Built, ValueError>, after: Scene)
    requires i < |sections| && Collect(Builds(sections)[..i]) == Success(before)
    requires b == Build(sections[i]) && (b.Success? ==> after == Keep(before, b.value))
    ensures b.Success? ==> Collect(Builds(sections)[..i + 1]) == Success(after)
    ensures b.Failure? ==> Collect(Builds(sections)) == Failure(b.error)
  {
    var builds := Builds(sections);
    assert builds[i] == b;
    CollectStep(builds, i, before);
    if b.Failure? {
      CollectFailurePersists(builds, i + 1);
    }
  }

  /** One more section continues the fold from where the shorter prefix left it. */
  lemma CollectStep(builds: seq<Result<Built, ValueError>>, i: nat, s: Scene)
    requires i < |builds| && Collect(builds[..i]) == Success(s)
    ensures builds[i].Failure? ==> Collect(builds[..i + 1]) == Failure(builds[i].error)
    ensures builds[i].Success? ==> Collect(builds[..i + 1]) == Success(Keep(s, builds[i].value))
  {
    CollectSnoc(builds, i);
  }

  lemma CollectSnoc(builds: seq<Result<Built, ValueError>>, i: nat)
    requires i < |builds|
    ensures Collect(builds[..i + 1]) ==
      match Collect(builds[..i])
      case Failure(e) => Failure(e)
      case Success(s) =>
        match builds[i]
        case Failure(e) => Failure(e)
        case Success(b) => Success(Keep(s, b))
  {
    assert builds[..i + 1][..i] == builds[..i];
  }

  lemma {:induction false} CollectFailurePersists(builds: seq<Result<Built, ValueError>>, m: nat)
    requires m <= |builds| && Collect(builds[..m]).Failure?
    decreases |builds| - m
    ensures Collect(builds) == Collect(builds[..m])
  {
    if m == |builds| {
      assert builds[..m] == builds;
    } else {
      var init := builds[..|builds| - 1];
      assert init[..m] == builds[..m];
      CollectFailurePersists(init, m);
    }
  }

  /** A missing file: the error message and three empty lists. */
  lemma MissingSceneFile(fileName: string, text: string)
    ensures SceneFileOf(fileName, false, text).Success?
    ensures SceneFileOf(fileName, false, text).value.error == Some(MissingFileError(fileName))
    ensures SceneFileOf(fileName, false, text).value.nodes == []
    ensures SceneFileOf(fileName, false, text).value.resources == []
    ensures SceneFileOf(fileName, false, text).value.connections == []
  {
  }

  /** The valid nodes among the builds, in order: the reference for the node list. */
  function ValidNodes(builds: seq<Result<Built, ValueError>>): seq<HeadingNode>
    decreases |builds|
  {
    if builds == [] then []
    else
      var last := builds[|builds| - 1];
      ValidNodes(builds[..|builds| - 1])
        + (if last.Success? && last.value.NodeBuilt? && NodeIsValid(last.value.node) then [last.value.node] else [])
  }

  function ValidConnections(builds: seq<Result<Built, ValueError>>): seq<HeadingConnection>
    decreases |builds|
  {
    if builds == [] then []
    else
      var last := builds[|builds| - 1];
      ValidConnections(builds[..|builds| - 1])
        + (if last.Success? && last.value.ConnectionBuilt? && ConnectionIsValid(last.value.conn) then [last.value.conn] else [])
  }

  function ValidResources(builds: seq<Result<Built, ValueError>>): seq<HeadingExtResource>
    decreases |builds|
  {
    if builds == [] then []
    else
      var last := builds[|builds| - 1];
      ValidResources(builds[..|builds| - 1])
        + (if last.Success? && last.value.ResourceBuilt? && ExtResourceIsValid(last.value.res) then [last.value.res] else [])
  }

  /** When no builder raises, each list holds exactly the valid entities of its kind in
      section order, the error stays None, and there are at most as many entities as
      sections. */
  lemma {:induction false} CollectLists(builds: seq<Result<Built, ValueError>>)
    requires Collect(builds).Success?
    decreases |builds|
    ensures Collect(builds).value.error == None
    ensures Collect(builds).value.nodes == ValidNodes(builds)
    ensures Collect(builds).value.connections == ValidConnections(builds)
    ensures Collect(builds).value.resources == ValidResources(builds)
    ensures |Collect(builds).value.nodes| + |Collect(builds).value.resources|
      + |Collect(builds).value.connections| <= |builds|
  {
    if builds != [] {
      var init := builds[..|builds| - 1];
      var last := builds[|builds| - 1];
      CollectLists(init);
      KeepLists(Collect(init).value, last.value);
    }
  }

  /** Keeping one build appends at most one entity, to the list of its kind only. */
  lemma KeepLists(s: Scene, b: Built)
    ensures Keep(s, b).error == s.error
    ensures Keep(s, b).nodes == s.nodes + (if b.NodeBuilt? && NodeIsValid(b.node) then [b.node] else [])
    ensures Keep(s, b).connections ==
      s.connections + (if b.ConnectionBuilt? && ConnectionIsValid(b.conn) then [b.conn] else [])
    ensures Keep(s, b).resources ==
      s.resources + (if b.ResourceBuilt? && ExtResourceIsValid(b.res) then [b.res] else [])
  {
  }

  /** Every entity kept is valid. */
  lemma {:induction false} CollectValid(builds: seq<Result<Built, ValueError>>)
    requires Collect(builds).Success?
    decreases |builds|
    ensures forall n :: n in Collect(builds).value.nodes ==> NodeIsValid(n)
    ensures forall c :: c in Collect(builds).value.connections ==> ConnectionIsValid(c)
    ensures forall x :: x in Collect(builds).value.resources ==> ExtResourceIsValid(x)
  {
    if builds != [] {
      CollectValid(builds[..|builds| - 1]);
    }
  }

  /** The record raises exactly when some section's builder raises, and then with the
      error of the first one. */
  lemma {:induction false} CollectFails(builds: seq<Result<Built, ValueError>>)
    decreases |builds|
    ensures Collect(builds).Failure? <==> exists k :: 0 <= k < |builds| && builds[k].Failure?
    ensures Collect(builds).Failure? ==>
      exists k :: 0 <= k < |builds| && builds[k].Failure? && Collect(builds).error == builds[k].error
        && forall j :: 0 <= j < k ==> builds[j].Success?
  {
    if builds != [] {
      var init := builds[..|builds| - 1];
      CollectFails(init);
      assert forall j :: 0 <= j < |init| ==> init[j] == builds[j];
      if Collect(init).Failure? {
        var k :| 0 <= k < |init| && init[k].Failure? && Collect(init).error == init[k].error
          && forall j :: 0 <= j < k ==> init[j].Success?;
        assert builds[k].Failure?;
      } else if builds[|builds| - 1].Failure? {
        assert forall j :: 0 <= j < |init| ==> builds[j].Success?;
      }
    }
  }

  /** Unknown sections contribute nothing: a scene whose sections are all Unknown is
      empty. */
  lemma {:induction false} UnknownSectionsSkipped(sections: seq<string>)
    requires forall i :: 0 <= i < |sections| ==> GetSectionType(sections[i]) == Unknown
    decreases |sections|
    ensures Collect(Builds(sections)) == Success(EmptyScene)
  {
    if sections != [] {
      var init := sections[..|sections| - 1];
      UnknownSectionsSkipped(init);
      assert Builds(sections)[..|sections| - 1] == Builds(init);
      assert Builds(sections)[|sections| - 1] == Success(Skipped);
    }
  }

  // ---------------------------------------------------------------- ProjectFile

  /** `run/main_scene` under a heading exactly `[application]`, when both are truthy. */
  function MainSceneEntry(data: Grouped): (r: Option<string>)
    ensures r.Some? ==>
      && r.value != "" && "[application]" in data
      && "run/main_scene" in data["[application]"]
      && data["[application]"]["run/main_scene"] == r.value
    ensures r.None? && "[application]" in data && "run/main_scene" in data["[application]"]
      ==> data["[application]"]["run/main_scene"] == ""
  {
    if "[application]" in data && data["[application]"] != map[] then
      var heading := data["[application]"];
      if "run/main_scene" in heading && heading["run/main_scene"] != "" then Some(heading["run/main_scene"])
      else None
    else None
  }

  /** The section loop: a section with an entry sets the main scene path, after its
      "res://"; one without leaves it as it was. */
  function MainScene(datas: seq<Grouped>): Option<string>
    decreases |datas|
  {
    if datas == [] then None
    else
      var entry := MainSceneEntry(datas[|datas| - 1]);
      if entry.Some? then Some(After(entry.value, "res://")) else MainScene(datas[..|datas| - 1])
  }

  function Datas(sections: seq<string>): (r: seq<Grouped>)
    ensures |r| == |sections|
  {
    seq(|sections|, i requires 0 <= i < |sections| => SectionKeyValues(sections[i]))
  }

  /** The index of the last section with an entry. */
  function LastEntry(datas: seq<Grouped>): (r: Option<nat>)
    decreases |datas|
    ensures r.Some? ==>
      && r.value < |datas| && MainSceneEntry(datas[r.value]).Some?
      && forall j :: r.value < j < |datas| ==> MainSceneEntry(datas[j]).None?
    ensures r.None? ==> forall j :: 0 <= j < |datas| ==> MainSceneEntry(datas[j]).None?
  {
    if datas == [] then None
    else if MainSceneEntry(datas[|datas| - 1]).Some? then Some(|datas| - 1)
    else LastEntry(datas[..|datas| - 1])
  }

  /** The last section with an entry decides the main scene; with none it stays None. */
  lemma {:induction false} LastEntryWins(datas: seq<Grouped>)
    decreases |datas|
    ensures MainScene(datas) == match LastEntry(datas)
      case None => None
      case Some(k) => Some(After(MainSceneEntry(datas[k]).value, "res://"))
  {
    if datas != [] && MainSceneEntry(datas[|datas| - 1]).None? {
      var init := datas[..|datas| - 1];
      LastEntryWins(init);
      if LastEntry(init).Some? {
        assert init[LastEntry(init).value] == datas[LastEntry(init).value];
      }
    }
  }

  /** Testing the `[application]` dictionary for truth means testing it is present: every inner
      dictionary parseAllSectionKeyValues builds is non-empty. */
  lemma ApplicationTruthy(section: string)
    ensures var data := SectionKeyValues(section);
      "[application]" in data && "run/main_scene" in data["[application]"]
      && data["[application]"]["run/main_scene"] != ""
      ==> MainSceneEntry(data) == Some(data["[application]"]["run/main_scene"])
  {
    SectionKeyValuesFacts(section);
  }

  /** The state of a ProjectFile. */
  datatype Project = Project(mainScenePath: Option<string>, error: Option<string>)

  function ProjectFileOf(fileName: string, found: bool, text: string): (r: Project)
    ensures !found ==> r.mainScenePath == None && r.error == Some(MissingFileError(fileName))
    ensures found ==> r.error == None
  {
    if !found then Project(None, Some(MissingFileError(fileName)))
    else Project(MainScene(Datas(ReadFileSections(text))), None)
  }

  class ProjectFile {
    var path: string
    var mainScenePath: Option<string>
    var error: Option<string>

    /** ProjectFile(file_name) */
    constructor(fileName: string, found: bool, text: string)
      ensures path == fileName
      ensures Project(mainScenePath, error) == ProjectFileOf(fileName, found, text)
    {
      path := fileName;
      mainScenePath := None;
      error := None;
      new;
      if !found {
        error := Some(MissingFileError(fileName));
        return;
      }
      ReadMainScene(ReadFileSections(text));
    }

    /** The section loop of the constructor. */
    method ReadMainScene(sections: seq<string>)
      requires mainScenePath == None
      modifies this
      ensures path == old(path) && error == old(error)
      ensures mainScenePath == MainScene(Datas(sections))
    {
      ghost var datas := Datas(sections);
      for i := 0 to |sections|
        invariant path == old(path) && error == old(error)
        invariant mainScenePath == MainScene(datas[..i])
      {
        assert datas[..i + 1][..i] == datas[..i];
        var data := ParseAllSectionKeyValues(sections[i]);
        assert data == datas[i];
        if "[application]" in data && data["[application]"] != map[] {
          var heading := data["[application]"];
          if "run/main_scene" in heading && heading["run/main_scene"] != "" {
            var entry := heading["run/main_scene"];
            mainScenePath := Some(After(entry, "res://"));
          }
        }
      }
      assert datas[..|sections|] == datas;
    }
  }
}
