/**
 * `arch_blueprint_generator/models/base.py`: the detail levels and element
 * kinds, the serializable records (`to_dict` into a JSON-like `Value`),
 * `FileInfo.from_path` over abstract filesystem answers, and the error list
 * of `BlueprintBase`.
 */
module BlueprintModels {
  import opened Wrappers
  import opened Text
  import Schema

  /** The values `to_dict` produces: what `json.dumps` accepts. Dict entries keep insertion order. */
  datatype Value =
    | Null
    | Str(s: string)
    | Bool(b: bool)
    | Int(i: int)
    | List(items: seq<Value>)
    | Dict(entries: seq<(string, Value)>)

  /** `d[key]` on a dict value, `None` when the key is absent or `d` is not a dict. */
  function Get(d: Value, key: string): Option<Value>
  {
    if d.Dict? then Schema.Lookup(d.entries, key) else None
  }

  /** The keys of a dict value, in insertion order. */
  function Keys(d: Value): seq<string>
  {
    if d.Dict? then EntryKeys(d.entries) else []
  }

  function EntryKeys(entries: seq<(string, Value)>): (r: seq<string>)
    ensures |r| == |entries| && forall i :: 0 <= i < |entries| ==> r[i] == entries[i].0
  {
    seq(|entries|, i requires 0 <= i < |entries| => entries[i].0)
  }

  /** No key occurs twice, as in every dict literal of the source. */
  predicate Distinct(keys: seq<string>)
  {
    forall i, j :: 0 <= i < j < |keys| ==> keys[i] != keys[j]
  }

  /** With distinct keys, each entry is what its key looks up. */
  lemma {:induction false} LookupEntry(entries: seq<(string, Value)>, i: nat)
    requires Distinct(EntryKeys(entries)) && i < |entries|
    ensures Schema.Lookup(entries, entries[i].0) == Some(entries[i].1)
  {
    if i > 0 {
      var keys := EntryKeys(entries);
      assert entries[0].0 != entries[i].0 by {
        assert keys[0] != keys[i];
      }
      assert Distinct(EntryKeys(entries[1..])) by {
        forall a, b | 0 <= a < b < |entries[1..]|
          ensures EntryKeys(entries[1..])[a] != EntryKeys(entries[1..])[b]
        {
          assert EntryKeys(entries[1..])[a] == keys[a + 1];
          assert EntryKeys(entries[1..])[b] == keys[b + 1];
        }
      }
      assert entries[1..][i - 1] == entries[i];
      LookupEntry(entries[1..], i - 1);
    }
  }

  /** An optional string as JSON: the string, or `null`. */
  function OptionalStr(o: Option<string>): Value
  {
    match o
    case Some(s) => Str(s)
    case None => Null
  }

  // ---------------------------------------------------------------------------
  // DetailLevel

  datatype DetailLevel = Minimal | Standard | Detailed

  /** The enum member name. */
  function Name(level: DetailLevel): string
  {
    match level
    case Minimal => "MINIMAL"
    case Standard => "STANDARD"
    case Detailed => "DETAILED"
  }

  /**
   * One character of `str.upper`. It is exact on ASCII and on every
   * character whose uppercase form is made of ASCII letters (dotless i, long
   * s, sharp s and the Latin ligatures); any other character is kept as it
   * is, which, like its real uppercase form, is not ASCII.
   */
  function UpperChar(c: char): string
  {
    if 'a' <= c <= 'z' then [(c as int - 32) as char]
    else if c == '\U{131}' then "I"
    else if c == '\U{17F}' then "S"
    else if c == '\U{DF}' then "SS"
    else if c == '\U{FB00}' then "FF"
    else if c == '\U{FB01}' then "FI"
    else if c == '\U{FB02}' then "FL"
    else if c == '\U{FB03}' then "FFI"
    else if c == '\U{FB04}' then "FFL"
    else if c == '\U{FB05}' || c == '\U{FB06}' then "ST"
    else [c]
  }

  /** `value.upper()`, as far as the member lookup can tell. */
  function Upper(s: string): string
  {
    if |s| == 0 then "" else UpperChar(s[0]) + Upper(s[1..])
  }

  function InvalidLevelMessage(value: string): string
  {
    "Invalid detail level: " + value + ". Must be one of: minimal, standard, detailed"
  }

  /** `DetailLevel.from_string`: `Err` carries the `ValueError` message. */
  function FromString(value: string): Result<DetailLevel, string>
  {
    var normalized := Upper(value);
    if normalized == "MINIMAL" then Ok(Minimal)
    else if normalized == "STANDARD" then Ok(Standard)
    else if normalized == "DETAILED" then Ok(Detailed)
    else Err(InvalidLevelMessage(value))
  }

  /** A level is returned exactly when the uppercased input is its member name; anything else is a ValueError. */
  lemma FromStringSpec(value: string)
    ensures forall level :: FromString(value) == Ok(level) <==> Upper(value) == Name(level)
    ensures FromString(value).Err? <==> forall level :: Upper(value) != Name(level)
    ensures FromString(value).Err? ==> FromString(value).error == InvalidLevelMessage(value)
  {
    if FromString(value).Err? {
      forall level
        ensures Upper(value) != Name(level)
      {
        match level
        case Minimal =>
        case Standard =>
        case Detailed =>
      }
    }
  }

  function AsciiUpper(c: char): char
  {
    if 'a' <= c <= 'z' then (c as int - 32) as char else c
  }

  /** `value` spells `name` up to the case of its ASCII letters. */
  predicate SameUpToAsciiCase(value: string, name: string)
  {
    |value| == |name| && forall i :: 0 <= i < |value| ==> AsciiUpper(value[i]) == name[i]
  }

  predicate IsUpperAsciiWord(name: string)
  {
    forall i :: 0 <= i < |name| ==> 'A' <= name[i] <= 'Z'
  }

  lemma {:induction false} UpperOfAsciiCaseVariant(value: string, name: string)
    requires IsUpperAsciiWord(name) && SameUpToAsciiCase(value, name)
    ensures Upper(value) == name
  {
    if |value| > 0 {
      assert 'A' <= name[0] <= 'Z';
      assert UpperChar(value[0]) == [name[0]];
      assert SameUpToAsciiCase(value[1..], name[1..]) by {
        forall i | 0 <= i < |value[1..]|
          ensures AsciiUpper(value[1..][i]) == name[1..][i]
        {
          assert value[1..][i] == value[i + 1];
        }
      }
      UpperOfAsciiCaseVariant(value[1..], name[1..]);
      assert name == [name[0]] + name[1..];
    }
  }

  /** Any ASCII capitalisation of a member name selects that member. */
  lemma AnyCaseAccepted(value: string, level: DetailLevel)
    requires SameUpToAsciiCase(value, Name(level))
    ensures FromString(value) == Ok(level)
  {
    UpperOfAsciiCaseVariant(value, Name(level));
    FromStringSpec(value);
  }

  /** Round trip: the member name, and its lowercase spelling, select the member. */
  lemma FromStringRoundTrip(level: DetailLevel)
    ensures FromString(Name(level)) == Ok(level)
    ensures FromString(LowerName(level)) == Ok(level)
  {
    assert SameUpToAsciiCase(Name(level), Name(level));
    AnyCaseAccepted(Name(level), level);
    AnyCaseAccepted(LowerName(level), level);
  }

  /** The spelling the CLI options use. */
  function LowerName(level: DetailLevel): (r: string)
    ensures SameUpToAsciiCase(r, Name(level))
  {
    match level
    case Minimal => "minimal"
    case Standard => "standard"
    case Detailed => "detailed"
  }

  /** The empty string and "invalid" are rejected with the ValueError message. */
  lemma RejectsEmptyAndInvalid()
    ensures FromString("") == Err(InvalidLevelMessage(""))
    ensures FromString("invalid") == Err(InvalidLevelMessage("invalid"))
  {
    assert SameUpToAsciiCase("invalid", "INVALID");
    UpperOfAsciiCaseVariant("invalid", "INVALID");
  }

  /** `str.upper` is not ASCII-only: a dotless i also spells "DETAILED". */
  lemma DotlessIAccepted()
    ensures FromString("deta\U{131}led") == Ok(Detailed)
  {
    DotlessIUpper();
  }

  lemma DotlessIUpper()
    ensures Upper("deta\U{131}led") == "DETAILED"
  {
    assert UpperChar('\U{131}') == "I";
  }

  // ---------------------------------------------------------------------------
  // ElementKind, BlueprintError, FileInfo, RelationshipInfo, CodeElement

  datatype ElementKind = Function | Class | Method | Property | Module | File | Directory

  function KindName(kind: ElementKind): string
  {
    match kind
    case Function => "FUNCTION"
    case Class => "CLASS"
    case Method => "METHOD"
    case Property => "PROPERTY"
    case Module => "MODULE"
    case File => "FILE"
    case Directory => "DIRECTORY"
  }

  /** An exception as the records see it: its class name and `str(e)`. */
  datatype ExceptionInfo = ExceptionInfo(typeName: string, text: string)

  datatype BlueprintError = BlueprintError(
    message: string,
    path: Option<string>,
    elementName: Option<string>,
    exception: Option<ExceptionInfo>)

  /** `BlueprintError.to_dict`. */
  function ErrorToDict(e: BlueprintError): Value
  {
    Dict([
      ("message", Str(e.message)),
      ("path", OptionalStr(e.path)),
      ("element_name", OptionalStr(e.elementName)),
      ("exception_type", if e.exception.Some? then Str(e.exception.value.typeName) else Null)
    ])
  }

  const ErrorKeys: seq<string> := ["message", "path", "element_name", "exception_type"]

  lemma ErrorKeysDistinct()
    ensures Distinct(ErrorKeys)
  {
  }

  /** The fields are copied; exception_type is the exception's class name, or null without one. */
  lemma ErrorToDictFields(e: BlueprintError)
    ensures Keys(ErrorToDict(e)) == ErrorKeys
    ensures Get(ErrorToDict(e), "message") == Some(Str(e.message))
    ensures Get(ErrorToDict(e), "path") == Some(OptionalStr(e.path))
    ensures Get(ErrorToDict(e), "element_name") == Some(OptionalStr(e.elementName))
    ensures e.exception.None? ==> Get(ErrorToDict(e), "exception_type") == Some(Null)
    ensures e.exception.Some? ==> Get(ErrorToDict(e), "exception_type") == Some(Str(e.exception.value.typeName))
  {
    var es := ErrorToDict(e).entries;
    assert EntryKeys(es) == ErrorKeys;
    ErrorKeysDistinct();
    LookupEntry(es, 0);
    LookupEntry(es, 1);
    LookupEntry(es, 2);
    LookupEntry(es, 3);
  }

  datatype FileInfo = FileInfo(
    path: string,
    name: string,
    extension: string,
    isDirectory: bool,
    pathExists: bool,
    size: Option<int>,
    errors: seq<BlueprintError>)

  /** What a filesystem query returns: an answer, or the exception it raises. */
  datatype Query<T> = Answer(value: T) | Raises(exception: ExceptionInfo)

  /** The answers the filesystem gives for one path to `is_dir`, `exists`, `is_file` and `stat().st_size`. */
  datatype PathQueries = PathQueries(isDir: Query<bool>, present: Query<bool>, isFile: Query<bool>, size: Query<int>)

  /** `str.lstrip('.')`. */
  function LStripDots(s: string): (r: string)
    ensures r == [] || r[0] != '.'
  {
    if |s| > 0 && s[0] == '.' then LStripDots(s[1..]) else s
  }

  function ExtensionOf(path: string): string
  {
    LStripDots(Suffix(PathName(path)))
  }

  /** The record built when one of the queries raises. */
  function FailedFileInfo(path: string, e: ExceptionInfo): FileInfo
  {
    Record(path, false, false, None,
           [BlueprintError("Error accessing file " + path + ": " + e.text, Some(path), None, Some(e))])
  }

  /** Both constructor calls of `from_path` take the name and extension from the path. */
  function Record(path: string, isDirectory: bool, pathExists: bool, size: Option<int>, errors: seq<BlueprintError>): FileInfo
  {
    FileInfo(path, PathName(path), ExtensionOf(path), isDirectory, pathExists, size, errors)
  }

  /**
   * `FileInfo.from_path`. The queries are made in the order the constructor
   * call evaluates them: `is_dir()`, `exists()`, then `is_file()`, a second
   * `exists()` and `stat()` as far as the size expression gets; the first
   * one that raises decides the result.
   */
  function FromPath(path: string, q: PathQueries): FileInfo
  {
    match q.isDir
    case Raises(e) => FailedFileInfo(path, e)
    case Answer(isDir) =>
      match q.present
      case Raises(e) => FailedFileInfo(path, e)
      case Answer(present) =>
        match q.isFile
        case Raises(e) => FailedFileInfo(path, e)
        case Answer(isFile) =>
          if isFile && present then
            match q.size
            case Raises(e) => FailedFileInfo(path, e)
            case Answer(size) => Record(path, isDir, present, Some(size), [])
          else Record(path, isDir, present, None, [])
  }

  /** The query that raises first, if any. */
  function FirstRaised(q: PathQueries): Option<ExceptionInfo>
  {
    if q.isDir.Raises? then Some(q.isDir.exception)
    else if q.present.Raises? then Some(q.present.exception)
    else if q.isFile.Raises? then Some(q.isFile.exception)
    else if q.isFile.value && q.present.value && q.size.Raises? then Some(q.size.exception)
    else None
  }

  /**
   * The extension is the last suffix without its dot ("py" for "file.py",
   * "" for a name without one); the name is the last path component.
   */
  lemma ExtensionIsSuffixWithoutDot(path: string, q: PathQueries)
    ensures FromPath(path, q).name == PathName(path)
    ensures FromPath(path, q).extension == if Suffix(PathName(path)) == "" then "" else Suffix(PathName(path))[1..]
  {
    FromPathNaming(path, q);
    SuffixWithoutDot(PathName(path));
  }

  lemma ExtensionExamples()
    ensures ExtensionOf(JoinPath("src", "file.py")) == "py"
    ensures ExtensionOf(JoinPath("dist", "archive.tar.gz")) == "gz"
    ensures ExtensionOf(JoinPath("home", ".bashrc")) == ""
  {
    PathNameOfJoin("src", "file.py");
    PathNameOfJoin("dist", "archive.tar.gz");
    PathNameOfJoin("home", ".bashrc");
    SuffixExamples();
    SuffixWithoutDot("file.py");
    SuffixWithoutDot("archive.tar.gz");
  }

  /** Whichever branch `from_path` takes, name and extension come from the path alone. */
  lemma FromPathNaming(path: string, q: PathQueries)
    ensures FromPath(path, q).name == PathName(path) && FromPath(path, q).extension == ExtensionOf(path)
  {
    var r := FromPath(path, q);
    assert exists d, e, s, es :: r == Record(path, d, e, s, es);
  }

  lemma SuffixWithoutDot(name: string)
    ensures LStripDots(Suffix(name)) == if Suffix(name) == "" then "" else Suffix(name)[1..]
  {
    StemSuffix(name);
    var suffix := Suffix(name);
    if suffix != "" {
      assert suffix[1..][0] == suffix[1];
      assert LStripDots(suffix) == LStripDots(suffix[1..]);
    }
  }

  /**
   * An error is recorded exactly when a query raises: then the record says
   * the path does not exist, has no size and carries one error naming the
   * path. Otherwise the size is known exactly when the path is an existing
   * regular file.
   */
  lemma FromPathErrors(path: string, q: PathQueries)
    ensures |FromPath(path, q).errors| <= 1
    ensures FromPath(path, q).errors != [] <==> FirstRaised(q).Some?
    ensures FirstRaised(q).Some? ==>
      && !FromPath(path, q).pathExists && !FromPath(path, q).isDirectory && FromPath(path, q).size.None?
      && FromPath(path, q).errors[0] ==
           BlueprintError("Error accessing file " + path + ": " + FirstRaised(q).value.text, Some(path), None, FirstRaised(q))
    ensures FirstRaised(q).None? ==>
      && FromPath(path, q).isDirectory == q.isDir.value && FromPath(path, q).pathExists == q.present.value
      && (FromPath(path, q).size.Some? <==> q.isFile.value && q.present.value)
      && (FromPath(path, q).size.Some? ==> FromPath(path, q).size.value == q.size.value)
  {
  }

  /** A missing path whose queries all answer False is recorded without error: exists is false and there is no size. */
  lemma MissingPathHasNoError(path: string, size: Query<int>)
    ensures FromPath(path, PathQueries(Answer(false), Answer(false), Answer(false), size)).errors == []
    ensures !FromPath(path, PathQueries(Answer(false), Answer(false), Answer(false), size)).pathExists
    ensures FromPath(path, PathQueries(Answer(false), Answer(false), Answer(false), size)).size.None?
  {
  }

  /** `FileInfo.to_dict`. */
  function FileInfoToDict(f: FileInfo): Value
  {
    Dict([
      ("path", Str(f.path)),
      ("name", Str(f.name)),
      ("extension", Str(f.extension)),
      ("is_directory", Bool(f.isDirectory)),
      ("exists", Bool(f.pathExists)),
      ("size", if f.size.Some? then Int(f.size.value) else Null),
      ("errors", if f.errors != [] then List(ErrorDicts(f.errors)) else Null)
    ])
  }

  function ErrorDicts(errors: seq<BlueprintError>): (r: seq<Value>)
    ensures |r| == |errors| && forall i :: 0 <= i < |errors| ==> r[i] == ErrorToDict(errors[i])
  {
    seq(|errors|, i requires 0 <= i < |errors| => ErrorToDict(errors[i]))
  }

  const FileInfoKeys: seq<string> := ["path", "name", "extension", "is_directory", "exists", "size", "errors"]

  lemma FileInfoKeysDistinct()
    ensures Distinct(FileInfoKeys)
  {
  }

  /** The fields are copied under their snake_case keys. */
  lemma FileInfoToDictFields(f: FileInfo)
    ensures Keys(FileInfoToDict(f)) == FileInfoKeys
    ensures Get(FileInfoToDict(f), "path") == Some(Str(f.path))
    ensures Get(FileInfoToDict(f), "name") == Some(Str(f.name))
    ensures Get(FileInfoToDict(f), "extension") == Some(Str(f.extension))
    ensures Get(FileInfoToDict(f), "is_directory") == Some(Bool(f.isDirectory))
    ensures Get(FileInfoToDict(f), "exists") == Some(Bool(f.pathExists))
    ensures Get(FileInfoToDict(f), "size") == Some(if f.size.Some? then Int(f.size.value) else Null)
  {
    var es := FileInfoToDict(f).entries;
    assert EntryKeys(es) == FileInfoKeys;
    FileInfoKeysDistinct();
    LookupEntry(es, 0);
    LookupEntry(es, 1);
    LookupEntry(es, 2);
    LookupEntry(es, 3);
    LookupEntry(es, 4);
    LookupEntry(es, 5);
  }

  /** errors is null for an empty list, else the error dicts in order. */
  lemma FileInfoErrorsField(f: FileInfo)
    ensures f.errors == [] <==> Get(FileInfoToDict(f), "errors") == Some(Null)
    ensures f.errors != [] ==>
      && Get(FileInfoToDict(f), "errors").Some?
      && Get(FileInfoToDict(f), "errors").value.List?
      && |Get(FileInfoToDict(f), "errors").value.items| == |f.errors|
      && forall i :: 0 <= i < |f.errors| ==> Get(FileInfoToDict(f), "errors").value.items[i] == ErrorToDict(f.errors[i])
  {
    var es := FileInfoToDict(f).entries;
    assert EntryKeys(es) == FileInfoKeys;
    FileInfoKeysDistinct();
    LookupEntry(es, 6);
  }

  datatype RelationshipInfo = RelationshipInfo(
    source: string,
    target: string,
    relationshipType: string,
    sourceLocation: Option<string>,
    targetLocation: Option<string>)

  /** `RelationshipInfo.to_dict`. */
  function RelationshipToDict(r: RelationshipInfo): Value
  {
    Dict([
      ("source", Str(r.source)),
      ("target", Str(r.target)),
      ("relationship_type", Str(r.relationshipType)),
      ("source_location", OptionalStr(r.sourceLocation)),
      ("target_location", OptionalStr(r.targetLocation))
    ])
  }

  datatype CodeElement = CodeElement(
    name: string,
    kind: ElementKind,
    filePath: Option<string>,
    relationships: seq<RelationshipInfo>)

  function RelationshipDicts(rs: seq<RelationshipInfo>): (r: seq<Value>)
    ensures |r| == |rs| && forall i :: 0 <= i < |rs| ==> r[i] == RelationshipToDict(rs[i])
  {
    seq(|rs|, i requires 0 <= i < |rs| => RelationshipToDict(rs[i]))
  }

  /** `CodeElement.to_dict` (a `Path` is always true, so any file path is kept). */
  function CodeElementToDict(c: CodeElement): Value
  {
    Dict([
      ("name", Str(c.name)),
      ("kind", Str(KindName(c.kind))),
      ("file_path", OptionalStr(c.filePath)),
      ("relationships", List(if c.relationships != [] then RelationshipDicts(c.relationships) else []))
    ])
  }

  const CodeElementKeys: seq<string> := ["name", "kind", "file_path", "relationships"]

  lemma CodeElementKeysDistinct()
    ensures Distinct(CodeElementKeys)
  {
  }

  /**
   * kind is the member name, file_path is null when absent, and the
   * relationships are serialized in order, `[]` when there are none.
   */
  lemma CodeElementToDictFields(c: CodeElement)
    ensures Keys(CodeElementToDict(c)) == CodeElementKeys
    ensures Get(CodeElementToDict(c), "name") == Some(Str(c.name))
    ensures Get(CodeElementToDict(c), "kind") == Some(Str(KindName(c.kind)))
    ensures c.filePath.None? <==> Get(CodeElementToDict(c), "file_path") == Some(Null)
    ensures Get(CodeElementToDict(c), "relationships") == Some(List(RelationshipDicts(c.relationships)))
    ensures c.relationships == [] ==> Get(CodeElementToDict(c), "relationships") == Some(List([]))
  {
    var es := CodeElementToDict(c).entries;
    assert EntryKeys(es) == CodeElementKeys;
    CodeElementKeysDistinct();
    LookupEntry(es, 0);
    LookupEntry(es, 1);
    LookupEntry(es, 2);
    LookupEntry(es, 3);
  }

  const RelationshipKeys: seq<string> := ["source", "target", "relationship_type", "source_location", "target_location"]

  lemma RelationshipKeysDistinct()
    ensures Distinct(RelationshipKeys)
  {
  }

  /** The relationship fields are copied under their snake_case keys. */
  lemma RelationshipToDictFields(r: RelationshipInfo)
    ensures Keys(RelationshipToDict(r)) == RelationshipKeys
    ensures Get(RelationshipToDict(r), "source") == Some(Str(r.source))
    ensures Get(RelationshipToDict(r), "target") == Some(Str(r.target))
    ensures Get(RelationshipToDict(r), "relationship_type") == Some(Str(r.relationshipType))
    ensures Get(RelationshipToDict(r), "source_location") == Some(OptionalStr(r.sourceLocation))
    ensures Get(RelationshipToDict(r), "target_location") == Some(OptionalStr(r.targetLocation))
  {
    var es := RelationshipToDict(r).entries;
    assert EntryKeys(es) == RelationshipKeys;
    RelationshipKeysDistinct();
    LookupEntry(es, 0);
    LookupEntry(es, 1);
    LookupEntry(es, 2);
    LookupEntry(es, 3);
    LookupEntry(es, 4);
  }

  // ---------------------------------------------------------------------------
  // BlueprintBase

  /** The state every blueprint shares: its detail level and the errors met so far. */
  class BlueprintBase {
    var detailLevel: DetailLevel
    var errors: seq<BlueprintError>

    /** `__init__`; the source's default level is `Minimal`. */
    constructor (detailLevel: DetailLevel)
      ensures this.detailLevel == detailLevel && errors == []
    {
      this.detailLevel := detailLevel;
      errors := [];
    }

    /** `add_error`: one error at the end, the earlier ones and the level unchanged. */
    method AddError(error: BlueprintError)
      modifies this
      ensures errors == old(errors) + [error]
      ensures detailLevel == old(detailLevel)
    {
      errors := errors + [error];
    }
  }

  /** The errors of a new blueprint after a sequence of `add_error` calls: exactly those, in call order. */
  method RecordErrors(detailLevel: DetailLevel, reported: seq<BlueprintError>) returns (blueprint: BlueprintBase)
    ensures fresh(blueprint)
    ensures blueprint.errors == reported && blueprint.detailLevel == detailLevel
  {
    blueprint := new BlueprintBase(detailLevel);
    for i := 0 to |reported|
      invariant blueprint.errors == reported[..i] && blueprint.detailLevel == detailLevel
    {
      blueprint.AddError(reported[i]);
      assert reported[..i + 1] == reported[..i] + [reported[i]];
    }
    assert reported[..|reported|] == reported;
  }
}
