# Architectum extraction pipeline, modelled in Dafny

Architectum turns source trees into XML "structure" files and merges them into
per-group indexes. This project models that pipeline, together with the
blueprint data model and the command-line configuration records of the
`arch_blueprint_generator` package:

- the four extractors turn one source file into one `Component` and wrap it in
  an `Application` document:
  - `extract_python.py` reads the module's top-level statements;
  - `extract_typescript.js` walks the whole syntax tree in pre-order;
  - `extract_flutter.py` and `extract_kotlin.py` scan lines with two regular
    expressions each;
- `build_xml_indexes.py` gathers the `.xml` files of each plan group and
  concatenates their `Component` children into `{group}_index.xml`;
- `arch_diff_index.py` compares two index files line by line;
- `models/base.py` holds detail levels, the error, file, relationship and
  code-element records with their `to_dict` forms, and the blueprint base class
  whose error list only grows;
- `cli.py` parses comma lists and builds the configuration record of its three
  placeholder commands.

All XML is one tree datatype, `Schema.Element(tag, attrs, text, children)`.
Attributes keep their insertion order, and an empty `text` stands for a
missing one. Parsers, serializers and the filesystem are inputs:

- an abstract Python statement list and an abstract TypeScript node tree;
- file contents as strings;
- the `os.walk` steps and directory listings as sequences, in whatever order
  the filesystem gives;
- the parsed roots of XML files as a map;
- XML serialization as a function parameter;
- the four `pathlib` queries as answers or raised exceptions.

Code that changes state step by step is modelled the same way:

- `ExtractApi`, `ExtractFlutterApi`, `ExtractKotlinApi`, `CollectSources`,
  `CollectFiles`, `MergeIndex`, each extractor's per-file `ExtractAll` and the
  index builder's `Run` are methods with loops;
- the TypeScript `visit` and `walk` append to a `Sink` object in place;
- `BlueprintBase` is a class whose `AddError` appends to its `errors` field.

Each of these methods is proved equal to a specification function, and the
properties are proved about those functions.

Where the repository's description and its code disagree, the model follows
the code:

- A file that fails to parse or read stops the whole extraction run. Files
  already written stay written, and nothing after the failure is written.
  There is no per-file error collection.
- `os.walk` order is taken as given, not sorted.
- Outputs are written directly, with no temporary files.
- The Python extractor always writes `Returns type="unknown"`.
- The Kotlin patterns are double-escaped inside raw strings (`r"class (\\w+)"`).
  They therefore match only where the line holds a literal backslash, so
  ordinary Kotlin produces an empty component. They are modelled as written.
- The Kotlin scanner has no comment-line exclusion.
- An unparsable file in an index group aborts the remaining groups.
- `FileInfo.from_path` records an error only when a filesystem query raises.
  A missing path answers False everywhere, so its record has no error.

## Model

| member | source | states |
|---|---|---|
| Text.TrimStart | arch_blueprint_generator/cli.py:150 | the result is a suffix of the input; every dropped character is whitespace and the result does not start with whitespace |
| Text.TrimEnd | arch_blueprint_generator/cli.py:150 | the result is a prefix of the input; every dropped character is whitespace and the result does not end with whitespace |
| Text.SplitCount | arch_blueprint_generator/cli.py:150 | `str.split(",")` gives one more piece than there are commas |
| Text.SplitPiecesHaveNoSeparator | arch_blueprint_generator/cli.py:150 | no piece of a split contains the separator |
| Text.JoinSplit | arch_blueprint_generator/cli.py:223 | joining the pieces with the separator gives back the original string |
| Text.PathName | scripts/extract_python.py:54 | `Path.name` contains no '/' and ends the path |
| Text.PathNameIsLastComponent | scripts/extract_python.py:54 | `Path.name` is the whole path or is preceded by a '/', so it is the entire last component |
| Text.StemSuffix | scripts/extract_python.py:12 | stem followed by suffix is the name; the suffix is empty or a dot followed by a non-empty dot-free tail, shorter than the name |
| Text.NoDotNoSuffix | arch_blueprint_generator/models/base.py:96 | a name without a dot has an empty suffix and is its own stem |
| Text.SuffixFromLastDot | arch_blueprint_generator/models/base.py:96 | the suffix runs from the last dot to the end and the stem precedes it, unless that dot is the first or last character, when there is no suffix |
| Text.PathNameOfJoin | scripts/extract_python.py:48 | the name of `root / file` is `file` |
| Text.XmlOutputNameShape | scripts/extract_python.py:54 | `with_suffix(".xml").name` ends in ".xml", and its stem followed by the original suffix is the original name |
| Text.NodeBasename | scripts/extract_typescript.js:13 | `path.basename(p, ext)` contains no '/' |
| Text.NodeBasenameStripsExtension | scripts/extract_typescript.js:13 | `path.basename(dir/stem + ext, ext)` is `stem` for a non-empty stem |
| Text.NodeBasenameKeepsOtherNames | scripts/extract_typescript.js:13 | `path.basename(dir/name, ext)` is `name` when the name does not end in `ext` |
| Schema.FunctionElementWellFormed | scripts/extract_python.py:16-21 | a Function carries its name, method and path "N/A", then Description with the given text, Returns with the given attributes, empty Calls and CalledBy |
| Schema.Tagged | scripts/build_xml_indexes.py:32 | `findall(tag)` keeps at most the children it is given, all with that tag |
| Schema.TaggedMembership | scripts/build_xml_indexes.py:32 | an element is found exactly when it is a direct child with that tag |
| Schema.TaggedAppend | scripts/build_xml_indexes.py:32 | finding over two child lists in turn is finding over their concatenation |
| SourceDiscovery.StepSources | scripts/extract_python.py:46-48 | one walk step contributes exactly `root / f` for its file names f ending in the extension |
| SourceDiscovery.NamesWithExtension | scripts/extract_flutter.py:45-47 | a listing contributes exactly the joined paths of the names ending in the extension |
| SourceDiscovery.CollectSources | scripts/extract_python.py:42-50 | the nested loops build exactly the filtered walk list for a directory, or the single path otherwise |
| SourceDiscovery.WalkSourcesMembership | scripts/extract_python.py:44-48 | a path is collected iff some walk step holds a file name ending in the extension that joins to it |
| SourceDiscovery.FileTargetKeptWhateverItsName | scripts/extract_python.py:49-50 | a non-directory input is processed whatever its extension |
| SourceDiscovery.Document | scripts/extract_python.py:33-35 | `write_xml` wraps the component as the only child of Application name="auto_extracted" with the script's domain |
| SourceDiscovery.BatchAbortedStays | scripts/extract_python.py:52-55 | once a file fails, later files change nothing: the run is aborted with the writes made so far |
| SourceDiscovery.BatchStep | scripts/extract_python.py:52-55 | a successful file appends its write, and a failing one aborts the run with the writes before it |
| SourceDiscovery.BatchWritesEveryFile | scripts/extract_python.py:52-55 | when every file succeeds the run completes with one write per file, in file order, to its output name |
| SourceDiscovery.BatchStopsAtFailure | scripts/extract_python.py:52-53 | a failing file k aborts the run with at most k writes |
| SourceDiscovery.BatchLength | scripts/extract_python.py:52-55 | a run never writes more files than it was given |
| SourceDiscovery.DiskLastWriteWins | scripts/extract_python.py:54-55 | the file on disk under a name holds the last document written to that name |
| SourceDiscovery.SameStemSameOutput | scripts/extract_python.py:54 | two inputs with the same file name in different directories get the same output name, stem + ".xml" |
| PythonExtractor.ExtractApi | scripts/extract_python.py:7-31 | the loops over the module body and class bodies build exactly the specified component |
| PythonExtractor.Run | scripts/extract_python.py:39-56 | `main` is the batch over the collected ".py" files, with their output names and documents |
| PythonExtractor.ExtractAll | scripts/extract_python.py:52-55 | the per-file loop writes each file's document to its output name, in order, and stops at the first file that cannot be read or parsed |
| PythonExtractor.MembersMatchDeclarations | scripts/extract_python.py:14-24 | the Function names are the top-level `def` names and the Type names the top-level `class` names, each in order, and nothing else is emitted |
| PythonExtractor.PropertiesAreRequired | scripts/extract_python.py:26-29 | every Property has required="true" |
| PythonExtractor.MembersAreWellFormed | scripts/extract_python.py:15-29 | every member is a well-formed Function (method/path "N/A", Description "Function {name} extracted from {file_path}", Returns type="unknown" reference="", Calls, CalledBy) or a Type of kind "object" whose children are Properties |
| PythonExtractor.PropertiesMatchFields | scripts/extract_python.py:25-29 | the Properties are, in order, the annotated assignments to bare names, typed by the annotation's identifier or "unknown" |
| PythonExtractor.DocumentShape | scripts/extract_python.py:34-35 | the Component, named by the file stem and described "Extracted from Python module", is the only child of an Application with domain "python" |
| TypeScriptExtractor.Sink.constructor | scripts/extract_typescript.js:61 | a new array is empty |
| TypeScriptExtractor.Sink.Append | scripts/extract_typescript.js:70 | `push` adds one item at the end and keeps the others |
| TypeScriptExtractor.ClassProperties | scripts/extract_typescript.js:37-45 | the member loop builds exactly the Properties of the property declarations, in member order |
| TypeScriptExtractor.AppendOwn | scripts/extract_typescript.js:17-47 | a node appends its own Function or Type, if it is a named declaration, and nothing else |
| TypeScriptExtractor.Visit | scripts/extract_typescript.js:16-50 | `visit` appends exactly what the node and its descendants emit, keeping what was there |
| TypeScriptExtractor.ExtractFromFile | scripts/extract_typescript.js:6-56 | `extractFromFile` builds exactly the specified document |
| TypeScriptExtractor.VisitIsPreOrder | scripts/extract_typescript.js:16-52 | the emitted elements are the own elements of the nodes in pre-order, so a declaration precedes everything nested in it |
| TypeScriptExtractor.VisitAllIsPreOrder | scripts/extract_typescript.js:49 | visiting children in turn emits the own elements of their concatenated pre-orders |
| TypeScriptExtractor.OwnAllNamesDeclarations | scripts/extract_typescript.js:17-33 | one element per named function or class declaration, named after it, in order; unnamed ones give nothing |
| TypeScriptExtractor.ComponentNamesAllDeclarations | scripts/extract_typescript.js:52 | the component holds one element per named declaration anywhere in the file, in pre-order |
| TypeScriptExtractor.PropertiesOfShape | scripts/extract_typescript.js:38-43 | every Property has type "unknown" and required "true" |
| TypeScriptExtractor.PropertiesOfNames | scripts/extract_typescript.js:37-45 | the Property names are the property declarations' names, in member order |
| TypeScriptExtractor.OwnAllWellFormed | scripts/extract_typescript.js:18-46 | every element is a Function with method/path "N/A", its Description and attribute-less Returns, Calls, CalledBy, or a Type of kind "object" |
| TypeScriptExtractor.ComponentElementsWellFormed | scripts/extract_typescript.js:16-53 | every child of the component is such a Function or Type |
| TypeScriptExtractor.WalkFilesMembership | scripts/extract_typescript.js:64-73 | a path is collected iff some entry of the directory holds, at any depth, a file whose name ends in ".ts" at that path |
| TypeScriptExtractor.EntryFilesMembership | scripts/extract_typescript.js:65-71 | an entry contributes a path iff it is, or holds at any depth, a ".ts" file at that path |
| TypeScriptExtractor.Walk | scripts/extract_typescript.js:64-73 | `walk` appends exactly the ".ts" file paths below the directory, recursing into subdirectories in listing order |
| TypeScriptExtractor.CollectInput | scripts/extract_typescript.js:60-77 | the file list is built exactly from the directory walk, the single ".ts" file, or nothing; a missing path stops `main` |
| TypeScriptExtractor.Run | scripts/extract_typescript.js:58-85 | `main` is the batch over the collected files, or stops when the path cannot be examined |
| TypeScriptExtractor.ExtractAll | scripts/extract_typescript.js:79-84 | the `forEach` loop writes each file's document to its basename without ".ts" plus ".xml", in order, and stops at the first file that cannot be read |
| TypeScriptExtractor.WalkFilesAreTypeScript | scripts/extract_typescript.js:69-70 | every walked path ends in ".ts" |
| TypeScriptExtractor.SingleFileNeedsTsSuffix | scripts/extract_typescript.js:75-77 | a single file is processed iff its name ends in ".ts" |
| TypeScriptExtractor.WalkedFileNaming | scripts/extract_typescript.js:81 | a file `dir/stem.ts` is the component `stem` written to `stem.xml`; a name without ".ts" is kept whole before ".xml" |
| TypeScriptExtractor.ComponentNaming | scripts/extract_typescript.js:10-14 | the component is named by the basename without ".ts" and described "Extracted from TypeScript module", and the document's domain is "typescript" |
| RegexRuns.RunEnd | scripts/extract_flutter.py:12 | a greedy run stops at the first character outside the class |
| RegexRuns.LeftmostSpec | scripts/extract_flutter.py:16 | `search` returns the first position's match, and no match exactly when no position matches |
| DartPatterns.ClassAtCorrect | scripts/extract_flutter.py:12 | `class (\w+)` matches at a position iff some match ends there, and the greedy group is the longest one |
| DartPatterns.ClassSearchSpec | scripts/extract_flutter.py:12 | the search succeeds iff the line matches somewhere, and returns the longest group of the leftmost match |
| DartPatterns.NoClassWithoutC | scripts/extract_flutter.py:12 | a line without 'c' has no class match |
| DartPatterns.LazyClose | scripts/extract_flutter.py:13 | the lazy `(.*?)\)` closes at the first ')' before any newline |
| DartPatterns.MethodAtSound | scripts/extract_flutter.py:13 | a method match found at a position is the shortest match of the pattern there |
| DartPatterns.MethodAtComplete | scripts/extract_flutter.py:13 | if the pattern matches at a position, the matcher finds it, with the same return type and name groups and a parameter group that is a prefix of that match's |
| DartPatterns.MethodSearchSpec | scripts/extract_flutter.py:13-21 | the method search succeeds iff the line matches somewhere, and returns the leftmost match |
| Lines.SplitKeepEndsConcat | scripts/arch_diff_index.py:9 | `splitlines(keepends=True)` drops and adds nothing: the lines join to the text |
| Lines.SplitKeepEndsShape | scripts/arch_diff_index.py:9 | each line is boundary-free up to at most one terminator, and every line but the last ends in one |
| Lines.SplitKeepEndsInjective | scripts/arch_diff_index.py:9 | two texts have the same lines iff they are equal |
| Lines.Translate | scripts/extract_flutter.py:8 | universal newlines leave no '\r' and change nothing in text without one |
| Lines.TranslateChars | scripts/extract_flutter.py:8 | translation only introduces '\n' |
| Lines.ReadLinesConcat | scripts/extract_flutter.py:9 | `readlines()` lines join to the translated text |
| Lines.ReadLinesHaveNoReturn | scripts/extract_flutter.py:9 | no line holds '\r' |
| Lines.ReadLinesNewlineAtEnd | scripts/extract_flutter.py:9 | '\n' occurs in a line only as its last character |
| FlutterExtractor.ExtractFlutterApi | scripts/extract_flutter.py:7-30 | the line loop with `continue` builds exactly the specified component |
| FlutterExtractor.Run | scripts/extract_flutter.py:38-55 | `main` is the batch over the collected ".dart" files |
| FlutterExtractor.ExtractAll | scripts/extract_flutter.py:51-54 | the per-file loop writes each file's document to its output name, in order, and stops at the first file that cannot be read |
| FlutterExtractor.LineMembersAtMostOne | scripts/extract_flutter.py:15-28 | a line contributes at most one element |
| FlutterExtractor.MembersInLineOrder | scripts/extract_flutter.py:15-28 | the members are the lines' contributions concatenated in line order |
| FlutterExtractor.MembersAtMostOnePerLine | scripts/extract_flutter.py:15 | there are no more members than lines |
| FlutterExtractor.ClassLineGivesType | scripts/extract_flutter.py:16-19 | a line matching the class pattern gives exactly a Type named by the match, and nothing else |
| FlutterExtractor.MethodLineGivesFunction | scripts/extract_flutter.py:21-26 | without a class match, a line gives one element iff it matches the method pattern and is not a comment, and that element is the leftmost match's Function |
| FlutterExtractor.CommentLineGivesNoFunction | scripts/extract_flutter.py:22 | a comment line never gives a Function |
| FlutterExtractor.CommentedClassStillGivesType | scripts/extract_flutter.py:16-22 | "// class Foo" is a comment and still gives Type "Foo" |
| FlutterExtractor.CommentIsLeadingSlashes | scripts/extract_flutter.py:22 | a line is a comment iff its left-stripped text starts with "//" |
| FlutterExtractor.LineMembersWellFormed | scripts/extract_flutter.py:18-28 | each element is a Function with method/path "N/A", Description "Method {name} extracted from {file_path}", Returns with a type and reference "", Calls, CalledBy, or a property-less Type of kind "object" |
| FlutterExtractor.MembersWellFormed | scripts/extract_flutter.py:15-28 | every member of the component is such a Function or Type |
| FlutterExtractor.ComponentShape | scripts/extract_flutter.py:11-33 | the component is named by the stem and described "Extracted from Flutter (Dart) module", the domain is "flutter", and every child is well formed |
| KotlinPatterns.ClassAtCorrect | scripts/extract_kotlin.py:12 | `class (\\w+)` matches at a position iff some match ends there, and the group, which starts at the backslash after "class ", is the longest one there |
| KotlinPatterns.ClassSearchSpec | scripts/extract_kotlin.py:12 | the class search succeeds iff the line matches somewhere, and returns the longest group of the leftmost match |
| KotlinPatterns.LazyEnd | scripts/extract_kotlin.py:13 | the lazy group ends at the first backslash that lets the pattern's tail match, before any newline |
| KotlinPatterns.FunAtSound | scripts/extract_kotlin.py:13 | a function match found at a position is the shortest match there |
| KotlinPatterns.FunAtComplete | scripts/extract_kotlin.py:13 | if the pattern matches at a position, the matcher finds it with the same name group |
| KotlinPatterns.FunSearchSpec | scripts/extract_kotlin.py:13 | the function search succeeds iff the line matches somewhere, and returns the match at the leftmost matching position |
| KotlinPatterns.FunSearchGroups | scripts/extract_kotlin.py:13 | the search reports groups 1 and 3 of the leftmost match, taken with the shortest lazy group |
| KotlinPatterns.NoBackslashNoMatch | scripts/extract_kotlin.py:12-13 | a line without a backslash matches neither pattern |
| KotlinExtractor.ExtractKotlinApi | scripts/extract_kotlin.py:7-30 | the line loop with `continue` builds exactly the specified component |
| KotlinExtractor.Run | scripts/extract_kotlin.py:38-55 | `main` is the batch over the collected ".kt" files |
| KotlinExtractor.ExtractAll | scripts/extract_kotlin.py:51-54 | the per-file loop writes each file's document to its output name, in order, and stops at the first file that cannot be read |
| KotlinExtractor.LineMembersAtMostOne | scripts/extract_kotlin.py:16-22 | a line contributes at most one element |
| KotlinExtractor.MembersInLineOrder | scripts/extract_kotlin.py:15-28 | the members are the lines' contributions in line order, no more than there are lines |
| KotlinExtractor.LineClassification | scripts/extract_kotlin.py:16-23 | a class match gives its Type; otherwise a line gives one element iff the function pattern matches, and it is that match's Function, with no comment check |
| KotlinExtractor.FunctionLineReturnsGroupThree | scripts/extract_kotlin.py:21-26 | a line matching only the function pattern gives one Function named by group 1 of the leftmost, shortest match, with Returns type its group 3, or "unknown" when that group is empty |
| KotlinExtractor.PlainLineGivesNothing | scripts/extract_kotlin.py:12-13 | a line without a backslash contributes nothing |
| KotlinExtractor.PlainLinesGiveNothing | scripts/extract_kotlin.py:15-28 | lines without backslashes give no members |
| KotlinExtractor.OrdinaryKotlinGivesEmptyComponent | scripts/extract_kotlin.py:11-30 | a file without a backslash yields an empty Component |
| KotlinExtractor.TypicalDeclarationGivesNothing | scripts/extract_kotlin.py:12-13 | "fun greet(name: String): String {" and "class Greeter(val name: String) {" give nothing |
| KotlinExtractor.LineMembersWellFormed | scripts/extract_kotlin.py:18-28 | each element is a Function with method/path "N/A", Description "Function {name} extracted from {file_path}", Returns reference "", Calls, CalledBy, or a Type of kind "object" |
| KotlinExtractor.MembersWellFormed | scripts/extract_kotlin.py:15-28 | every member of the component is such a Function or Type |
| KotlinExtractor.ComponentShape | scripts/extract_kotlin.py:11-33 | the component is named by the stem and described "Extracted from Kotlin module", the domain is "kotlin", and every child is well formed |
| IndexBuilder.CollectFiles | scripts/build_xml_indexes.py:16-25 | the nested loops build exactly the specified list of ".xml" paths |
| IndexBuilder.CollectedFilesMembership | scripts/build_xml_indexes.py:18-24 | a path is collected iff some listed folder exists and its walk turns it up among the ".xml" names; missing folders are skipped |
| IndexBuilder.CollectedFilesAreXml | scripts/build_xml_indexes.py:23-24 | every collected path ends in ".xml" |
| IndexBuilder.MergeIndex | scripts/build_xml_indexes.py:28-35 | the per-file loop gives the index document over the merged components, or fails when a file does not parse |
| IndexBuilder.NoRootNoMerge | scripts/build_xml_indexes.py:31 | one unparsable file makes the merge fail |
| IndexBuilder.MergedIsConcatenation | scripts/build_xml_indexes.py:30-33 | the index components are the per-file Component lists concatenated in file order, and their count is the sum of the per-file counts |
| IndexBuilder.MergedComeFromRoots | scripts/build_xml_indexes.py:30-33 | every merged element is a Component taken directly from one of the files' roots |
| IndexBuilder.EmptyGroupGivesEmptyIndex | scripts/build_xml_indexes.py:29-34 | a group with no files still yields an empty Application named "index_{group}" with domain "composite" |
| IndexBuilder.Run | scripts/build_xml_indexes.py:38-42 | `main` is the batch over the plan's groups |
| IndexBuilder.NoGroupsNoWrites | scripts/build_xml_indexes.py:40 | a plan without `xml_groups` writes nothing |
| IndexBuilder.EveryGroupWritten | scripts/build_xml_indexes.py:34-42 | when every file parses, each group is written once, in plan order, to its path, with a root named "index_{group}" |
| IndexDiff.UsageBeforeAnyRead | scripts/arch_diff_index.py:18-20 | with other than two arguments the outcome is usage and exit 1, whatever the files |
| IndexDiff.MissingFileStops | scripts/arch_diff_index.py:25-27 | a missing file prints "Both XML files must exist." and exits 1 without diffing |
| IndexDiff.NormalizeKeepsText | scripts/arch_diff_index.py:9 | the normalized lines join to the serialized text |
| IndexDiff.NoDifferencesIffSameText | scripts/arch_diff_index.py:29-33 | "No differences found." iff the serialized texts are equal; otherwise the diff goes from previous to current; both exit 0 |
| IndexDiff.SelfDiffIsEmpty | scripts/arch_diff_index.py:11-15 | a file diffed against itself has no differences |
| IndexDiff.ParseFailureExits | scripts/arch_diff_index.py:7 | a file that does not parse ends the run with exit 1, the current file checked first |
| BlueprintModels.FromStringSpec | arch_blueprint_generator/models/base.py:35-38 | a level is returned iff the uppercased input is its member name; otherwise ValueError with the message naming the input |
| BlueprintModels.AnyCaseAccepted | arch_blueprint_generator/models/base.py:35-37 | any ASCII capitalisation of a member name selects that member |
| BlueprintModels.FromStringRoundTrip | arch_blueprint_generator/models/base.py:16-37 | each level's name, and its lowercase spelling, parse back to the level |
| BlueprintModels.LowerName | arch_blueprint_generator/cli.py:56 | the option spellings are the member names up to ASCII case |
| BlueprintModels.RejectsEmptyAndInvalid | arch_blueprint_generator/models/base.py:38 | "" and "invalid" are rejected with the ValueError message |
| BlueprintModels.DotlessIAccepted | arch_blueprint_generator/models/base.py:35 | "detaıled", with a dotless i, uppercases to "DETAILED" and is accepted |
| BlueprintModels.ErrorToDictFields | arch_blueprint_generator/models/base.py:60-67 | the four keys in order; message, path and element_name copied; exception_type is the exception's class name or null |
| BlueprintModels.ExtensionExamples | arch_blueprint_generator/models/base.py:96 | the extension of "src/file.py" is "py", of "dist/archive.tar.gz" "gz", and of "home/.bashrc" empty |
| BlueprintModels.ExtensionIsSuffixWithoutDot | arch_blueprint_generator/models/base.py:95-96 | name is the last path component and extension its last suffix without the dot, in every branch |
| BlueprintModels.FromPathErrors | arch_blueprint_generator/models/base.py:91-112 | an error is recorded iff a query raises; then exists is false, there is no size, and the one error names the path and exception; otherwise the flags are the answers, and the size is given iff the path is an existing regular file |
| BlueprintModels.MissingPathHasNoError | arch_blueprint_generator/models/base.py:97-99 | a path whose queries all answer False gets no error, exists false and no size |
| BlueprintModels.FileInfoToDictFields | arch_blueprint_generator/models/base.py:114-122 | the seven keys in order; path, name, extension, flags and size copied, a missing size as null |
| BlueprintModels.FileInfoErrorsField | arch_blueprint_generator/models/base.py:123 | errors is null iff the list is empty, else the error dicts in order |
| BlueprintModels.CodeElementToDictFields | arch_blueprint_generator/models/base.py:155-162 | name copied, kind as the member name, file_path null iff absent, relationships in order and `[]` when there are none |
| BlueprintModels.RelationshipToDictFields | arch_blueprint_generator/models/base.py:136-144 | the five keys in order, each field copied, missing locations as null |
| BlueprintModels.BlueprintBase.constructor | arch_blueprint_generator/models/base.py:168-175 | a new blueprint keeps its detail level and has no errors |
| BlueprintModels.BlueprintBase.AddError | arch_blueprint_generator/models/base.py:177-183 | one error is appended at the end, earlier errors and the level unchanged |
| BlueprintModels.RecordErrors | arch_blueprint_generator/models/base.py:168-183 | a new blueprint that has each error added in turn holds exactly those errors, in order |
| BlueprintCli.ParseCommaListSpec | arch_blueprint_generator/cli.py:150 | one entry per comma-separated piece (commas + 1), each the piece stripped of surrounding whitespace, none containing a comma |
| BlueprintCli.ParseCommaListDropsSpaces | arch_blueprint_generator/cli.py:150 | "a, b" gives ["a", "b"] |
| BlueprintCli.ParseCommaListKeepsEmptyPieces | arch_blueprint_generator/cli.py:223 | "a,,b" gives ["a", "", "b"] |
| BlueprintCli.EmptyOptionGivesOneEntry | arch_blueprint_generator/cli.py:150 | an empty option gives one empty entry |
| BlueprintCli.ResultShape | arch_blueprint_generator/cli.py:154-160 | the result holds the command's pending message and its configuration, whose keys are distinct |
| BlueprintCli.ConfigKeysDistinct | arch_blueprint_generator/cli.py:89-93 | the configuration keys of every command are distinct |
| BlueprintCli.RunCommandSpec | arch_blueprint_generator/cli.py:148-177 | called directly with any level text, a command fails with exit 1 and the logged "Error generating ...: " message iff its level does not parse; otherwise its configuration's detail_level is the parsed level's name |
| BlueprintCli.DetailLevelEntry | arch_blueprint_generator/cli.py:92 | detail_level is the resolved level's uppercase member name |
| BlueprintCli.ChoiceLevelsSucceed | arch_blueprint_generator/cli.py:56 | every capitalisation that the level choice accepts runs the command with that level |
| BlueprintCli.FilesetFiles | arch_blueprint_generator/cli.py:150-158 | the fileset configuration lists the parsed file entries |
| BlueprintCli.CodeElementConfiguration | arch_blueprint_generator/cli.py:223-233 | the code-element configuration echoes the file and lists the parsed element entries |
| BlueprintCli.DirectoryConfiguration | arch_blueprint_generator/cli.py:87-94 | the directory configuration echoes path and depth unchanged |

## Left out

- Python's `ast.parse` and the TypeScript compiler API are not modelled. Their results are given as abstract statement lists and node trees. For Python, a missing entry is a file that cannot be read or parsed, which stops the run as described above. `ts.createSourceFile` does not raise on a syntax error, so for TypeScript a missing entry is a file that `readFileSync` cannot read, which also stops the run.
- XML serialization by ElementTree and by JSDOM's `XMLSerializer` (byte output, escaping, the XML declaration) is not modelled. The differ takes the serializer as a parameter. JSDOM's HTML document would also lowercase the TypeScript tag names; the model keeps the tag names the code asks for.
- `yaml.safe_load` is not modelled; the plan is given as data.
- The hunk contents and headers of `difflib.unified_diff` are not modelled. A non-empty diff is represented by the two file names and line sequences it compares.
- Filesystem enumeration order, `stat`, existence checks and file writes are inputs: walk steps, listings, parsed roots, query answers. Writes are the ordered list a run produces, and `Disk` replays it. Unreadable files, encoding errors and exceptions other than the modelled query failures are not modelled.
- Console output (`print`, `console.log`) and logging are not modelled, except the fixed messages and exit statuses of the differ and the CLI error path.
- The click option machinery, `json.dumps` indentation and the CLI's output-file writing are not modelled.
- `scripts/arch_extract.py`, `architectum-agents/project_init.py`, `architectum-agents/project_init.js`, `arch_blueprint_generator/logging_config.py`, `setup.py` and the package `__init__` files are not part of this model.
- `\w` is modelled as the ASCII word characters and `\s` as Python's whitespace set. Python's `re` also counts non-ASCII letters and digits as word characters.
- `str.upper` is modelled for ASCII letters and the few characters whose uppercase is ASCII (dotless ı, long s, ß, the Latin ligatures). Other characters stay as they are. This is enough for the detail-level check, whose member names are ASCII.
- `Path.with_suffix` raises for an empty name; the model gives ".xml".
- Paths are plain strings split at their last '/'. Trailing slashes, `.` and `..` components are not normalised as `pathlib` and Node's `path` do.
- BlueprintCli.RunCommand: models the command body as if it were called directly. Through the command line, `click.Choice(..., case_sensitive=False)` rejects any other level with a usage error before the body runs, so exit 1 from the body is reached only by exceptions the model leaves out (such as a failing output write).
- IndexBuilder.Run: every group's walk reads one fixed snapshot of the structure directory. In the source the indexes are written into that same directory, so a later group whose folders include it can also collect the `{group}_index.xml` files written by earlier groups; the model does not capture this.
- `BlueprintBase.generate` and `to_json` are abstract or output-only in the source and are left out.
- KotlinPatterns.FunAtComplete: states the name group of the match it finds and bounds the third group's length, but does not pin the third group's exact extent; FunAtSound states that the match found is the shortest one.
- DartPatterns.MethodAtComplete: states the type and name groups exactly, and the parameter group only as a prefix of the given match's; MethodAtSound states that the match found is the shortest one.
