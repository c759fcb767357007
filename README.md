# Godot section-file parser, modelled in Dafny

godot-verify reads the two text formats a Godot 3 project is made of: scene files
(`.tscn`) and the project file (`project.godot`). Both are sequences of bracketed
sections such as `[node name="Player" type="KinematicBody"]`, each followed by
`key = value` lines. The parser that this project models has six parts.

1. **String helpers** `before`, `after` and `between`, built on `str.find`.
2. **The key/value extractor** `parseKeyValues`. It runs six regular-expression scans
   over a line, always in the same order. Each scan stores every match it finds in one
   dictionary, so a later scan overwrites a key an earlier one set.
3. **The section splitter** `readFileSections`. It turns CRLF into LF, splits on
   `"\n["`, puts the `[` back, strips whitespace, and removes the `[` again from the
   first section.
4. **The classifier** `getSectionType`. It assigns Unknown, Node, Connection or
   ExtResource to a piece of text.
5. **The entity builders** `HeadingNode`, `HeadingConnection` and `HeadingExtResource`.
   Each walks a section line by line with a one-shot "got heading" latch. Each has an
   `isValid` predicate.
6. **The file records.**
   - `SceneFile` routes every section to its builder and keeps the valid entities in
     three lists, in section order.
   - `ProjectFile` finds `run/main_scene` under the `[application]` heading, using
     `parseAllSectionKeyValues`.

`godot_verify.py` is an older single-file copy of the same code. Its helpers,
extractor, splitter, classifier, builders and `SceneFile` are the same logic, so one
Dafny member models both copies. Its `ProjectFile` only records the path, and is
modelled by its own class `GodotVerify.ProjectFile`.

## Modules

| file | module | what it holds |
|---|---|---|
| `wrappers.dfy` | `Wrappers` | `Option` and `Result`; a Python exception becomes a `Failure` |
| `text.dfy` | `Text` | the Python string built-ins the parser uses: `find`, `strip`, `split`, `replace`, `splitlines`, `int` |
| `helpers.dfy` | `Helpers` | `before`, `after`, `between` |
| `patterns.dfy` | `Patterns` | the six value shapes and `re.findall` as a leftmost, non-overlapping, greedy scanner |
| `keyvalues.dfy` | `KeyValues` | `parseKeyValues`: the six scans and how a match is stored |
| `sections.dfy` | `Sections` | `getSectionType` and `readFileSections` |
| `section_values.dfy` | `SectionValues` | `parseAllSectionKeyValues` |
| `entities.dfy` | `Entities` | `EntryExtResource` and the three `Heading*` builders with their `isValid` |
| `project_files.dfy` | `ProjectFiles` | the `SceneFile` and `ProjectFile` classes |
| `godot_verify.dfy` | `GodotVerify` | the single-file copy's `ProjectFile` |
| `test_cases.dfy` | `TestCases` | the cases test.py checks, stated about the model |

## How the model is built

Each loop of the source is a Dafny method with a `while` or `for` loop. Each method
is proved against a specification function of its inputs. The properties the source
promises are proved as lemmas about those functions.

- **The scans.** `parseKeyValues` is the method `KeyValues.ParseKeyValues`. It calls
  `StoreMatches` once per scan, and `StoreMatches` loops over the matches.
  - Its specification is `KeyValuesOf`, which folds `Store` over `FindAll`.
  - `FindAll` is built from `MatchEnd`: the greedy end of the one pattern at each
    position, if the pattern matches there.
- **Section keys.** `parseAllSectionKeyValues` is the method
  `SectionValues.ParseAllSectionKeyValues`, specified by the fold `WalkLines`. The
  inner loop that copies pairs under the heading is `StoreUnder`.
- **The builders.** Each of the three Python constructors is a method (`NewHeadingNode`,
  `NewHeadingConnection`, `NewHeadingExtResource`) that returns the entity as a value.
  Each is specified by a fold over the section's lines.
  - The lemmas abstract each line as a `LineInfo`: its section type and its key/value
    dictionary.
  - `FirstOfType` names the line where the latch closes.
- **The file records.** `SceneFile` and `ProjectFile` are classes whose fields the
  methods update in place, as the Python constructors do.
  - `SceneFile.Contents()` is the record's state as a `Scene` value.
  - Each step is specified by the fold `Collect` over the `Build` of every section.

## Parser quirks the model keeps

- **Multi-line Connection sections.** A Connection heading is recognised by
  `^\[connection (\w|\W)*\]$`. Because `(\w|\W)` also matches newlines, a whole
  multi-line section ending in `]` (or `]` and one newline) classifies as Connection,
  not only a single heading line (`Sections.ConnectionWithBody`).
- **Bad ids raise.** An ExtResource `id`, or an `instance`/`script` value, that is not
  an integer makes `int()` raise. The builder then fails: the value is not recorded as
  absent.
  - In the model the builder returns `Failure`, and so does the `SceneFile` that
    called it (`Entities.ExtResourceFields` for the id, `Entities.HeadingFields` and
    `Entities.NodeInstanceRaises` for the instance, `Entities.ScriptField` and
    `Entities.NodeScriptRaises` for a script such as `SubResource( 1 )`).
  - A node is built exactly when every id it reads decodes (`Entities.NodeLinesSucceedIff`).
  - `int("")` is what a value without `ExtResource(` produces.
- **The first section keeps its leading whitespace.** The `[` put in front of it stops
  `strip()` from removing that whitespace, and the `[` is then cut off again
  (`Sections.SectionsShape`).
- **`key = true` is never stored.** The boolean pattern's alternation is not
  parenthesised, so `true` matches on its own. Splitting that match on `=` gives one
  piece, and it is dropped. Only `key = false` pairs are stored
  (`Patterns.MatchEndMeaning`, `KeyValues.BooleanLayerFalse`).

## Model

| member | source | states |
|---|---|---|
| Helpers.Before | helpers.py:9-15 | the result is a prefix of the value; it is the whole value when the separator does not occur, and otherwise ends exactly at the first occurrence |
| Helpers.After | helpers.py:17-25 | the result is "" when the separator does not occur; otherwise it is the suffix that starts right after the first occurrence |
| Helpers.Between | helpers.py:27-30 | the result is "" when the front marker does not occur, and is always a prefix of after(value, front) |
| Helpers.BeforeAfterRoundTrip | helpers.py:9-25 | when the separator occurs, before + separator + after gives back the value; the single-file copy at godot_verify.py:12-33 is the same logic |
| Helpers.BeforeWhole | helpers.py:9-15 | for a non-empty value, before returns the whole value exactly when the separator does not occur |
| Helpers.AfterFirst | helpers.py:9-25 | with no earlier occurrence in pre, after(pre + sep + rest) is rest and before(...) is pre |
| Helpers.BetweenDelimited | helpers.py:27-30 | between returns exactly the text from the first front marker to the first back marker after it |
| Helpers.BetweenChar | helpers.py:27-30 | with a one-character back marker absent from mid, between(front + mid + back + post) is mid |
| Entities.ExtResource27 | godot_project_files_parser.py:127 | between("ExtResource( 27 )", "ExtResource(", ")") is " 27 ", and decoding it gives id 27 |
| Text.Find | helpers.py:10 | str.find: -1 exactly when the text does not occur, otherwise the first index where it occurs |
| Text.FindFirst | helpers.py:10 | find stops at the first occurrence, whatever follows it |
| Text.RunEndUnique | godot_project_files_parser.py:35 | a greedy character-class run ends at the one position where the class stops matching |
| Text.StripPadded | godot_project_files_parser.py:36 | strip removes exactly the class characters at both ends, and nothing inside |
| Text.SplitJoin | godot_project_files_parser.py:81 | joining the pieces of split(s, sep) with sep gives back s, and no piece contains sep |
| Text.SplitOnce | godot_project_files_parser.py:36 | a text with exactly one separator splits into exactly the two pieces around it |
| Text.ReplaceIsSplitJoin | godot_project_files_parser.py:80 | replace(s, t, r) equals joining split(s, t) with r |
| Text.SplitLinesCons | godot_project_files_parser.py:18 | splitlines of a line, a newline and a rest is that line followed by the rest's lines; no returned line holds a boundary |
| Text.ParseInt | godot_project_files_parser.py:206 | int() of a blank string raises |
| Text.ParseIntDecimal | godot_project_files_parser.py:206 | int() of a decimal numeral surrounded by whitespace returns that number |
| Text.DigitsValueOfDecimal | godot_project_files_parser.py:127 | reading the decimal numeral of n gives back n |
| Patterns.ValueStartIff | godot_project_files_parser.py:35 | the key-and-equals prefix `[\w_/\.]+\s*=\s*` matches at a position exactly when the greedy runs from there form it |
| Patterns.ValueEndIff | godot_project_files_parser.py:35-67 | the scanner ends a value of a shape at e exactly when the shape matches up to e and cannot be extended, as a greedy regex does |
| Patterns.DecimalEndComplete | godot_project_files_parser.py:55 | every maximal `\d+\.\d+` match is found by the scanner |
| Patterns.CallEndComplete | godot_project_files_parser.py:61 | every `[A-Za-z]+\(\s*\d+\s*\)` match is found by the scanner |
| Patterns.ValueFacts | godot_project_files_parser.py:35-67 | a matched value holds no '=' and no whitespace at its ends, and a '"' only as the delimiters of the two quoted shapes |
| Patterns.MatchEndMeaning | godot_project_files_parser.py:43 | a scan matches at a position exactly when an assignment of that shape starts there, or, for the boolean scan, the bare word true does |
| Patterns.SpansFrom | godot_project_files_parser.py:35 | findall's matches are in increasing order, do not overlap, and each is the pattern's match at its start |
| Patterns.SpansLeftmost | godot_project_files_parser.py:35 | a position that no returned match covers is one where the pattern does not match: findall misses nothing |
| KeyValues.ParseKeyValues | godot_project_files_parser.py:29-72 | the method's dictionary is KeyValuesOf(line), the six scans applied in their order; the single-file copy at godot_verify.py:35-78 is the same logic |
| KeyValues.StoreMatches | godot_project_files_parser.py:35-38 | one scan's loop stores every match of that scan, in order, into the dictionary |
| KeyValues.KeyValuesLayers | godot_project_files_parser.py:35-70 | the result is the six scans' own dictionaries merged in scan order, so a later scan overwrites a key an earlier one set |
| KeyValues.StoreAllOverrides | godot_project_files_parser.py:35-38 | storing a scan's matches on top of a dictionary overrides its keys and keeps the rest |
| KeyValues.StoreAssignment | godot_project_files_parser.py:36-38 | a match key = value stores the trimmed key with the trimmed value, without its double quotes for the quoted shapes |
| KeyValues.StoreMatch | godot_project_files_parser.py:36-38 | storing a match adds exactly the pair its span stands for, or nothing |
| KeyValues.SplitAssignment | godot_project_files_parser.py:36 | a matched assignment splits on '=' into exactly two pieces, the key part and the value part |
| KeyValues.CleanValue | godot_project_files_parser.py:36 | strip().strip('"') of a matched value is its text without the delimiting quotes, so is_empty="" gives "" and res:// values keep their prefix |
| KeyValues.ScanStoresSpans | godot_project_files_parser.py:35-38 | a scan stores the pairs of findall's matches in order |
| KeyValues.KeyValuesKeys | godot_project_files_parser.py:29-72 | the keys of the result are exactly the keys the six scans find |
| KeyValues.KeyValuesWellFormed | godot_project_files_parser.py:29-72 | every stored key is a run of `[\w_/\.]` and every stored value holds neither '=' nor '"' |
| KeyValues.BooleanLayerFalse | godot_project_files_parser.py:40-46 | the boolean scan stores only the value "false": key = true is never recorded |
| KeyValues.BooleanPairFalse | godot_project_files_parser.py:43-46 | any pair the boolean pattern yields has the value "false" |
| Sections.GetSectionType | godot_project_files_parser.py:223-233 | Node iff the text starts with "[node " and a ']' follows; ExtResource likewise with "[ext_resource "; Connection iff it starts with "[connection " and ends in ']' before at most one newline; the single-file copy at godot_verify.py:201-211 is the same logic |
| Sections.MatchIff | godot_project_files_parser.py:226-230 | each of the three regular expressions matches exactly under the prefix-and-bracket rule stated for it |
| Sections.BareNodeIsUnknown | godot_project_files_parser.py:226 | "[node]" without the space is Unknown |
| Sections.ConnectionWithBody | godot_project_files_parser.py:228 | a connection section with body lines is Connection when it ends in ']' (with or without one newline), and Unknown when it does not |
| Sections.SectionCount | godot_project_files_parser.py:80-83 | after CRLF is turned into LF there are one more sections than occurrences of "\n[" |
| Sections.SectionsShape | godot_project_files_parser.py:80-87 | the fragments joined with "\n[" are the normalised text; each later section is '[' plus its fragment trimmed at the end; the first is its fragment trimmed at the end; the single-file copy at godot_verify.py:219-226 is the same logic |
| Sections.SectionsUnbroken | godot_project_files_parser.py:81-87 | no section contains "\n[", and every section after the first starts with '[' |
| Sections.StripBracket | godot_project_files_parser.py:82 | stripping "[" + fragment only trims the fragment's end |
| SectionValues.HeadingMatch | godot_project_files_parser.py:19 | on a single line, `^\[\w+\]$` matches exactly a '[' then one or more word characters then ']' |
| SectionValues.EqualsLineNotHeading | godot_project_files_parser.py:19-21 | a line with '=' is never a heading, so heading lines and pair lines are disjoint |
| SectionValues.ParseAllSectionKeyValues | godot_project_files_parser.py:13-27 | the method's nested dictionary is SectionKeyValues(section), the fold over the section's lines |
| SectionValues.StoreUnder | godot_project_files_parser.py:22-25 | copying a line's pairs under the heading creates the inner dictionary only for a non-empty line, overwrites old keys with new ones and touches no other heading |
| SectionValues.AddPairsFacts | godot_project_files_parser.py:22-25 | a line without pairs changes nothing; otherwise only the current heading changes, and it gets the old pairs overwritten by the line's |
| SectionValues.SectionKeyValuesFacts | godot_project_files_parser.py:16-27 | every heading in the result is a `[word]` line and holds at least one pair |
| SectionValues.NoHeadingNoPairs | godot_project_files_parser.py:19-21 | lines before any heading contribute nothing |
| SectionValues.HeadingThenLine | godot_project_files_parser.py:16-27 | a heading followed by one pair line gives that heading the line's pairs, or nothing when the line has none |
| Entities.ExtResourceRef | godot_project_files_parser.py:127 | a value without "ExtResource(" raises on int("") |
| Entities.ExtResourceRefReads | godot_project_files_parser.py:127 | a value ...ExtResource( n )... decodes to the id n, whatever whitespace surrounds n |
| Entities.NewHeadingNode | godot_project_files_parser.py:102-141 | the method's node is HeadingNodeOf(section), the latch fold over the section's lines; the single-file copy at godot_verify.py:84-121 is the same logic |
| Entities.ReadNodeHeading | godot_project_files_parser.py:116-130 | the heading line sets name, type, parent and instance from its pairs and leaves script alone |
| Entities.ReadNodeScript | godot_project_files_parser.py:134-139 | a line with script sets script to its decoded id and changes nothing else |
| Entities.HeadingFields | godot_project_files_parser.py:118-130 | the heading line sets name, type and parent to its values when it has them and keeps them otherwise; instance is the ExtResourceRef of its value; it fails exactly when that decoding fails, with its error; script is kept |
| Entities.ScriptField | godot_project_files_parser.py:135-139 | script is the only field a later line changes; a line without script changes nothing; a set script is the decoded ExtResource id; it fails exactly when the script value does not decode, with ExtResourceRef's error |
| Entities.NodeWalkFacts | godot_project_files_parser.py:112-139 | name, type, parent and instance come from the first Node line only, and script from the last line at or after it that has one |
| Entities.NodeValidIff | godot_project_files_parser.py:143-146 | the node is valid iff there is a Node line and it has both name and type (an empty string counts as set) |
| Entities.NoHeadingEmptyNode | godot_project_files_parser.py:112-116 | a section with no Node line gives a node with every field unset |
| Entities.NodeInstanceRaises | godot_project_files_parser.py:126-127 | an instance value without an ExtResource id on the heading line makes the builder raise |
| Entities.NodeScriptRaises | godot_project_files_parser.py:134-139 | a script value without an ExtResource id (such as `SubResource( 1 )`) on the heading line or any later line makes the builder raise |
| Entities.NodeLinesSucceedIff | godot_project_files_parser.py:112-139 | the node is built exactly when the heading's instance, if present, and every script at or after the heading decode as ExtResource ids |
| Entities.NewHeadingConnection | godot_project_files_parser.py:148-172 | the method's connection is HeadingConnectionOf(section), the latch fold over the lines |
| Entities.ConnectionReadsHeading | godot_project_files_parser.py:155-172 | only the first Connection line is read; with none, every field stays unset |
| Entities.ConnectionValidIff | godot_project_files_parser.py:174-179 | the connection is valid iff its first Connection line has signal, from, to and method |
| Entities.NewHeadingExtResource | godot_project_files_parser.py:185-208 | the method's resource is HeadingExtResourceOf(section), the latch fold over the lines; the single-file copy at godot_verify.py:165-186 is the same logic |
| Entities.ExtResourceFields | godot_project_files_parser.py:199-208 | id is int() of its value, and the read fails exactly when int() fails, with its error; without an id pair the id is kept; path is after(value, "res://"), which is "" when the prefix is missing; type is copied; a field without a pair is kept |
| Entities.ExtResourceReadsHeading | godot_project_files_parser.py:193-208 | only the first ExtResource line is read; with none, the resource keeps its defaults |
| Entities.ExtResourceDefaults | godot_project_files_parser.py:191-213 | the id stays -1 unless the heading has an id; the resource is valid iff the heading has path and type |
| ProjectFiles.MissingFileError | godot_project_files.py:46 | the message is "Failed to find " + file name + " file ..." |
| ProjectFiles.Build | godot_project_files.py:53-70 | Unknown sections are skipped, each other kind goes to its own builder, and only the Node and ExtResource builders can raise |
| ProjectFiles.BuildNode | godot_project_files.py:57-58 | a Node section builds the node HeadingNode gives, or its error |
| ProjectFiles.BuildConnection | godot_project_files.py:62-63 | a Connection section builds the connection HeadingConnection gives |
| ProjectFiles.BuildExtResource | godot_project_files.py:67-68 | an ExtResource section builds the resource HeadingExtResource gives, or its error |
| ProjectFiles.SceneFile.Empty | godot_project_files.py:39-43 | a new record has the given path, no error and three empty lists |
| ProjectFiles.SceneFile.AddSection | godot_project_files.py:53-70 | one turn of the section loop builds the section and, on success, appends the entity to its list if it is valid; the path is unchanged |
| ProjectFiles.SceneFile.AddSections | godot_project_files.py:50-70 | the loop leaves the record equal to Collect of the sections' builds, or fails with the first builder error |
| ProjectFiles.SceneFile.Open | godot_project_files.py:36-70 | SceneFile(file_name) succeeds exactly when SceneFileOf does; its path is the file name and its contents are SceneFileOf's; the single-file copy at godot_verify.py:242-276 is the same logic |
| ProjectFiles.MissingSceneFile | godot_project_files.py:45-47 | a missing scene file gets the "Failed to find" error and three empty lists |
| ProjectFiles.CollectLists | godot_project_files.py:58-70 | the lists are the valid entities of each kind in section order, no error is set, and together they are no longer than the number of sections |
| ProjectFiles.CollectValid | godot_project_files.py:59-70 | every kept node, connection and resource is valid |
| ProjectFiles.CollectFails | godot_project_files.py:50-70 | loading fails iff some section's builder raises, and with the first such error |
| ProjectFiles.UnknownSectionsSkipped | godot_project_files.py:54-55 | a file of Unknown sections only gives three empty lists |
| ProjectFiles.MainSceneEntry | godot_project_files.py:29-32 | a section yields a main scene only from a non-empty run/main_scene under exactly "[application]" |
| ProjectFiles.LastEntry | godot_project_files.py:25-33 | names the last section that yields a main scene, or none when no section does |
| ProjectFiles.LastEntryWins | godot_project_files.py:25-33 | the main scene path is after(value, "res://") of the last section that sets it, and stays None when none does |
| ProjectFiles.ApplicationTruthy | godot_project_files.py:29-32 | a non-empty run/main_scene under "[application]" is always taken |
| ProjectFiles.ProjectFileOf | godot_project_files.py:16-33 | a missing file leaves the main scene None and sets the error "Failed to find <file name> file ..."; an existing file never sets the error |
| ProjectFiles.ProjectFile.constructor | godot_project_files.py:12-33 | the path is the file name and the main scene and error are those ProjectFileOf gives |
| ProjectFiles.ProjectFile.ReadMainScene | godot_project_files.py:25-33 | the loop over the sections leaves the main scene path equal to the MainScene fold and changes nothing else |
| GodotVerify.ProjectFile.constructor | godot_verify.py:237-239 | the single-file copy's ProjectFile only records the path |
| TestCases.TotalKeyValues | test.py:27-39 | in `total=8.45` the integer scan stores "8" for total and the later decimal scan overwrites it, so the dictionary is exactly {total: "8.45"} |
| TestCases.TotalIntegerLayer | godot_project_files_parser.py:48-52 | the integer scan of `total=8.45` matches `total=8` and stores exactly {total: "8"} |
| TestCases.TotalDecimalLayer | godot_project_files_parser.py:54-58 | the decimal scan of `total=8.45` matches it whole and stores exactly {total: "8.45"} |
| TestCases.LevelNodeBuilt | test.py:43-54 | the heading dictionary of the Level node and the script line build name Level, type Spatial, parent ".", instance 27 and script 2 |
| TestCases.PressedConnection | test.py:58-65 | the heading dictionary of the pressed connection gives signal pressed, from Button, to "." and method on_button_pressed, whatever lines surround it |
| TestCases.ClothHolderResource | test.py:69-74 | the heading dictionary of the ClothHolder resource gives path src/ClothHolder/ClothHolder.tscn, type PackedScene and id 21, whatever lines surround it |
| TestCases.ClothTypeLayer | godot_project_files_parser.py:34-38 | on the ext_resource test line the quoted-string scan matches only `type="PackedScene"` and stores exactly {type: "PackedScene"}; it finds no match in the path, whose ':' and '/' are outside its character class |
| TestCases.ClothIdLayer | godot_project_files_parser.py:48-52 | on the same line the integer scan matches only `id=21` and stores exactly {id: "21"} |
| TestCases.ClothPathLayer | godot_project_files_parser.py:66-70 | on the same line the res:// scan matches only the path and stores it with its `res://`, stripped of its quotes |
| TestCases.ClothKeyValues | godot_project_files_parser.py:29-72 | parseKeyValues of the ext_resource test line is exactly {path: "res://src/ClothHolder/ClothHolder.tscn", type: "PackedScene", id: "21"} |
| TestCases.ClothHeading | test.py:67-74 | HeadingExtResource of the test's ext_resource line, parsed from its text, has path src/ClothHolder/ClothHolder.tscn, type PackedScene and id 21 |
| TestCases.MissingProjectFile | test.py:131-137 | a missing XXX.godot has no main scene and the error "Failed to find XXX.godot file ..." |

## Left out

- `GDScriptFile` (godot_project_files.py:73-95, godot_verify.py:279-301) and `main.py`: they wrap the external gdtoolkit parser, whose behaviour is not part of this model.
- File I/O: `open`/`read`, `os.path.exists` and `print(file_name)` are not modelled. The file's text is a `text` parameter and its existence a `found` flag. `text` stands for what `f.read()` returns in text mode: universal newlines have already turned "\r\n" and a lone "\r" into "\n", so the CRLF replace in readFileSections (godot_project_files_parser.py:80) acts on text that is already normalised. The model keeps the replace, and it leaves such text unchanged.
- The Python `re` engine in general: only the patterns the parser uses are modelled, each as a dedicated scanner.
- The commented-out debug block in `readFileSections` is not modelled.
- Text.IsWordChar: `\w` and `\d` are ASCII only, where Python's also accept other Unicode letters and digits.
- Text.ParseInt: reads surrounding whitespace, an optional sign and ASCII digits with single underscores between them. Python's `int()` also accepts other Unicode digits, and the model fails on those.
- SectionValues.StoreUnder: Python walks the pairs in dictionary order, and the model picks them in an unspecified order. The result is the same either way, because the keys are distinct.
- The `Heading*` objects are values returned by methods, not classes: their fields are set only while they are built. A raised exception becomes a `Failure` result.
- ProjectFiles.SceneFile.Open: `SceneFile(file_name)` is a static method returning `Result`, because the Python constructor can raise through a builder. On failure no record is returned.
- test.py as a whole is not modelled. `TestCases` restates five of its cases: the `total=8.45` item of the parseKeyValues line, and the node, connection, ext_resource and missing project file cases. The ext_resource case is proved from the line's text (`ClothHeading`). The node and connection cases start from the dictionary of their heading line: parsing those two lines into their dictionaries is not proved. The scene-file cases read files of a sample project and are not restated.
