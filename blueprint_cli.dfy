/**
 * `arch_blueprint_generator/cli.py`: the three blueprint commands. Each
 * resolves its `--level` with `DetailLevel.from_string`, splits its
 * comma-separated options, and emits a placeholder result holding its
 * configuration; any exception is logged and exits with status 1.
 */
module BlueprintCli {
  import opened Wrappers
  import opened Text
  import opened BlueprintModels

  // ---------------------------------------------------------------------------
  // Comma-separated lists

  /** `[f.strip() for f in s.split(",")]`. */
  function ParseCommaList(s: string): (r: seq<string>)
    ensures |r| == |Split(s, ',')|
  {
    var pieces := Split(s, ',');
    seq(|pieces|, i requires 0 <= i < |pieces| => Strip(pieces[i]))
  }

  /** `core` is `piece` without its leading and trailing whitespace, which starts at offset `k`. */
  predicate StripsAt(piece: string, core: string, k: nat)
  {
    && k + |core| <= |piece|
    && piece[k..k + |core|] == core
    && (forall i :: 0 <= i < k ==> IsSpace(piece[i]))
    && (forall i :: k + |core| <= i < |piece| ==> IsSpace(piece[i]))
    && (core == [] || (!IsSpace(core[0]) && !IsSpace(core[|core| - 1])))
  }

  ghost predicate StripsTo(piece: string, core: string)
  {
    exists k: nat :: StripsAt(piece, core, k)
  }

  /** `str.strip()` removes exactly the surrounding whitespace. */
  lemma StripShape(piece: string)
    ensures StripsAt(piece, Strip(piece), |piece| - |TrimStart(piece)|)
  {
    var t := TrimStart(piece);
    var k := |piece| - |t|;
    assert piece[k..] == t;
    TrimEndWithin(piece, k, t);
  }

  /** The trailing-whitespace half of `StripShape`, for `t == piece[k..]` with no leading whitespace. */
  lemma TrimEndWithin(piece: string, k: nat, t: string)
    requires k <= |piece| && piece[k..] == t
    requires forall i :: 0 <= i < k ==> IsSpace(piece[i])
    requires t == [] || !IsSpace(t[0])
    ensures StripsAt(piece, TrimEnd(t), k)
  {
    var r := TrimEnd(t);
    assert piece[k..k + |r|] == r by {
      assert piece[k..k + |r|] == t[..|r|];
    }
    forall i | k + |r| <= i < |piece|
      ensures IsSpace(piece[i])
    {
      assert piece[i] == t[i - k];
    }
    if r != [] {
      assert r[0] == t[0];
    }
  }

  /**
   * The list has one entry per comma-separated piece (one more than there are
   * commas, empty pieces included); each entry is its piece with the
   * surrounding whitespace removed, and holds no comma; the pieces joined
   * with commas give back the option's text.
   */
  lemma ParseCommaListSpec(s: string)
    ensures |ParseCommaList(s)| == Count(s, ',') + 1
    ensures forall i :: 0 <= i < |ParseCommaList(s)| ==>
      StripsTo(Split(s, ',')[i], ParseCommaList(s)[i]) && ',' !in ParseCommaList(s)[i]
    ensures Join(Split(s, ','), ',') == s
  {
    SplitCount(s, ',');
    SplitPiecesHaveNoSeparator(s, ',');
    JoinSplit(s, ',');
    var pieces := Split(s, ',');
    forall i | 0 <= i < |pieces|
      ensures StripsTo(pieces[i], ParseCommaList(s)[i]) && ',' !in ParseCommaList(s)[i]
    {
      EntryOfPiece(pieces[i]);
    }
  }

  /** One entry: its piece stripped, without a comma when the piece has none. */
  lemma EntryOfPiece(piece: string)
    requires ',' !in piece
    ensures StripsTo(piece, Strip(piece)) && ',' !in Strip(piece)
  {
    StripShape(piece);
    var k := |piece| - |TrimStart(piece)|;
    var e := Strip(piece);
    assert StripsAt(piece, e, k);
    NotInSlice(piece, ',', k, k + |e|);
  }

  lemma NotInSlice(s: string, c: char, lo: nat, hi: nat)
    requires lo <= hi <= |s| && c !in s
    ensures c !in s[lo..hi]
  {
    forall j | 0 <= j < hi - lo
      ensures s[lo..hi][j] != c
    {
      assert s[lo..hi][j] == s[lo + j];
    }
  }

  /** A name without whitespace is kept as it is. */
  lemma StripWithoutSpace(s: string)
    requires forall i :: 0 <= i < |s| ==> !IsSpace(s[i])
    ensures Strip(s) == s
  {
    assert TrimStart(s) == s;
  }

  /** A space after a comma is dropped: "a, b" gives ["a", "b"]. */
  lemma ParseCommaListDropsSpaces(x: string, y: string)
    requires ',' !in x && ',' !in y
    requires forall i :: 0 <= i < |x| ==> !IsSpace(x[i])
    requires forall i :: 0 <= i < |y| ==> !IsSpace(y[i])
    ensures ParseCommaList(x + ", " + y) == [x, y]
  {
    assert x + ", " + y == x + "," + (" " + y);
    SplitAfterComma(x, " " + y);
    SplitWithoutComma(" " + y);
    StripWithoutSpace(x);
    StripWithoutSpace(y);
    assert (" " + y)[1..] == y;
    assert TrimStart(" " + y) == TrimStart(y);
  }

  /** An empty piece between two commas stays as an empty entry. */
  lemma ParseCommaListKeepsEmptyPieces(x: string, y: string)
    requires ',' !in x && ',' !in y
    requires forall i :: 0 <= i < |x| ==> !IsSpace(x[i])
    requires forall i :: 0 <= i < |y| ==> !IsSpace(y[i])
    ensures ParseCommaList(x + ",," + y) == [x, "", y]
  {
    SplitEmptyPiece(x, y);
    StripWithoutSpace(x);
    StripWithoutSpace(y);
    StripWithoutSpace("");
  }

  /** An empty option gives one empty entry, not an empty list. */
  lemma EmptyOptionGivesOneEntry()
    ensures ParseCommaList("") == [""]
  {
    var pieces := Split("", ',');
    assert pieces == [""];
    assert TrimStart("") == "" && TrimEnd("") == "";
    assert ParseCommaList("")[0] == Strip(pieces[0]);
  }

  lemma SplitEmptyPiece(x: string, y: string)
    requires ',' !in x && ',' !in y
    ensures Split(x + ",," + y, ',') == [x, "", y]
  {
    SplitAfterComma(x, "," + y);
    SplitAfterComma("", y);
    SplitWithoutComma(y);
    assert "" + "," + y == "," + y;
    assert x + "," + ("," + y) == x + ",," + y;
  }

  /** The first piece is what comes before the first comma. */
  lemma {:induction false} SplitAfterComma(x: string, z: string)
    requires ',' !in x
    ensures Split(x + "," + z, ',') == [x] + Split(z, ',')
  {
    if |x| == 0 {
      assert x + "," + z == "," + z;
      assert ("," + z)[1..] == z;
    } else {
      var s := x + "," + z;
      assert s[1..] == x[1..] + "," + z;
      assert ',' !in x[1..];
      SplitAfterComma(x[1..], z);
      assert [x[0]] + x[1..] == x;
    }
  }

  /** A text without a comma is one piece. */
  lemma {:induction false} SplitWithoutComma(y: string)
    requires ',' !in y
    ensures Split(y, ',') == [y]
  {
    if |y| > 0 {
      assert ',' !in y[1..];
      SplitWithoutComma(y[1..]);
      assert [y[0]] + y[1..] == y;
    }
  }

  // ---------------------------------------------------------------------------
  // Commands

  datatype Command =
    | DirectoryBlueprint(path: string, depth: int, level: string)
    | FilesetBlueprint(files: string, level: string)
    | CodeElementBlueprint(file: string, elements: string, level: string)

  /** What a command does: emit a JSON result, or log the exception and exit with a status. */
  datatype CommandOutcome = Emitted(result: Value) | Failed(status: int, log: string)

  function LevelOf(cmd: Command): string
  {
    cmd.level
  }

  function Placeholder(message: string, configuration: seq<(string, Value)>): Value
  {
    Dict([("message", Str(message)), ("configuration", Dict(configuration))])
  }

  function Strings(xs: seq<string>): (r: seq<Value>)
    ensures |r| == |xs| && forall i :: 0 <= i < |xs| ==> r[i] == Str(xs[i])
  {
    seq(|xs|, i requires 0 <= i < |xs| => Str(xs[i]))
  }

  /** The name used in the command's error log line. */
  function Subject(cmd: Command): string
  {
    match cmd
    case DirectoryBlueprint(_, _, _) => "directory blueprint"
    case FilesetBlueprint(_, _) => "fileset blueprint"
    case CodeElementBlueprint(_, _, _) => "code element blueprint"
  }

  /** The message of a command's placeholder result. */
  function PendingMessage(cmd: Command): string
  {
    match cmd
    case DirectoryBlueprint(_, _, _) => "Directory blueprint generation is not yet implemented."
    case FilesetBlueprint(_, _) => "FileSet blueprint generation is not yet implemented."
    case CodeElementBlueprint(_, _, _) => "CodeElement blueprint generation is not yet implemented."
  }

  /** The `configuration` entries of a command once its level is known. */
  function ConfigEntries(cmd: Command, level: DetailLevel): seq<(string, Value)>
  {
    match cmd
    case DirectoryBlueprint(path, depth, _) =>
      [("path", Str(path)), ("depth", Int(depth)), ("detail_level", Str(Name(level)))]
    case FilesetBlueprint(files, _) =>
      [("files", List(Strings(ParseCommaList(files)))), ("detail_level", Str(Name(level)))]
    case CodeElementBlueprint(file, elements, _) =>
      [("file", Str(file)), ("elements", List(Strings(ParseCommaList(elements)))), ("detail_level", Str(Name(level)))]
  }

  /** The result dictionary of a command once its level is known. */
  function Result(cmd: Command, level: DetailLevel): Value
  {
    Placeholder(PendingMessage(cmd), ConfigEntries(cmd, level))
  }

  /** The result holds the message and the configuration. */
  lemma ResultShape(cmd: Command, level: DetailLevel)
    ensures Get(Result(cmd, level), "message") == Some(Str(PendingMessage(cmd)))
    ensures Get(Result(cmd, level), "configuration") == Some(Dict(ConfigEntries(cmd, level)))
    ensures Distinct(EntryKeys(ConfigEntries(cmd, level)))
  {
    PlaceholderFields(PendingMessage(cmd), ConfigEntries(cmd, level));
    ConfigKeysDistinct(cmd, level);
  }

  lemma PlaceholderFields(message: string, configuration: seq<(string, Value)>)
    ensures Get(Placeholder(message, configuration), "message") == Some(Str(message))
    ensures Get(Placeholder(message, configuration), "configuration") == Some(Dict(configuration))
  {
    var es := Placeholder(message, configuration).entries;
    assert EntryKeys(es) == ["message", "configuration"];
    LookupEntry(es, 0);
    LookupEntry(es, 1);
  }

  lemma ConfigKeysDistinct(cmd: Command, level: DetailLevel)
    ensures Distinct(EntryKeys(ConfigEntries(cmd, level)))
  {
    var keys := EntryKeys(ConfigEntries(cmd, level));
    if cmd.DirectoryBlueprint? {
      assert keys == ["path", "depth", "detail_level"];
    } else if cmd.FilesetBlueprint? {
      assert keys == ["files", "detail_level"];
    } else {
      assert keys == ["file", "elements", "detail_level"];
    }
  }

  /** The body of a command, up to the JSON text it prints or writes. */
  function RunCommand(cmd: Command): CommandOutcome
  {
    match FromString(LevelOf(cmd))
    case Err(message) => Failed(1, "Error generating " + Subject(cmd) + ": " + message)
    case Ok(level) => Emitted(Result(cmd, level))
  }

  /** The `configuration` entry of a result (null when there is none). */
  function Configuration(v: Value): Value
  {
    match Get(v, "configuration")
    case Some(c) => c
    case None => Null
  }

  /**
   * A command fails, with status 1 and the ValueError in its log line,
   * exactly when its level is not a member name; otherwise its configuration
   * names the level the text selects.
   */
  lemma RunCommandSpec(cmd: Command)
    ensures RunCommand(cmd).Failed? <==> FromString(cmd.level).Err?
    ensures RunCommand(cmd).Failed? ==>
      RunCommand(cmd).status == 1 &&
      RunCommand(cmd).log == "Error generating " + Subject(cmd) + ": " + InvalidLevelMessage(cmd.level)
    ensures RunCommand(cmd).Emitted? ==>
      && Get(RunCommand(cmd).result, "configuration").Some?
      && Get(Configuration(RunCommand(cmd).result), "detail_level") == Some(Str(Name(FromString(cmd.level).value)))
  {
    match FromString(cmd.level) {
      case Ok(level) => DetailLevelEntry(cmd, level);
      case Err(_) =>
    }
  }

  /** The configuration's detail_level is the member name of the resolved level. */
  lemma DetailLevelEntry(cmd: Command, level: DetailLevel)
    ensures Get(Configuration(Result(cmd, level)), "detail_level") == Some(Str(Name(level)))
  {
    ResultShape(cmd, level);
    var c := ConfigEntries(cmd, level);
    LookupEntry(c, |c| - 1);
  }

  /** Every spelling the `--level` choice admits selects its level, so the command succeeds. */
  lemma ChoiceLevelsSucceed(cmd: Command, level: DetailLevel)
    requires SameUpToAsciiCase(cmd.level, Name(level))
    ensures RunCommand(cmd).Emitted?
    ensures Get(Configuration(RunCommand(cmd).result), "detail_level") == Some(Str(Name(level)))
  {
    AnyCaseAccepted(cmd.level, level);
    RunCommandSpec(cmd);
  }

  /** The file list of `fileset-blueprint` is the stripped comma-separated pieces of `--files`. */
  lemma FilesetFiles(files: string, level: string)
    requires FromString(level).Ok?
    ensures Get(Configuration(RunCommand(FilesetBlueprint(files, level)).result), "files")
              == Some(List(Strings(ParseCommaList(files))))
  {
    ResultShape(FilesetBlueprint(files, level), FromString(level).value);
    LookupEntry(ConfigEntries(FilesetBlueprint(files, level), FromString(level).value), 0);
  }

  /** The element list of `codeelement-blueprint` is the stripped comma-separated pieces of `--elements`; the file is kept. */
  lemma CodeElementConfiguration(file: string, elements: string, level: string)
    requires FromString(level).Ok?
    ensures Get(Configuration(RunCommand(CodeElementBlueprint(file, elements, level)).result), "file")
              == Some(Str(file))
    ensures Get(Configuration(RunCommand(CodeElementBlueprint(file, elements, level)).result), "elements")
              == Some(List(Strings(ParseCommaList(elements))))
  {
    var c := ConfigEntries(CodeElementBlueprint(file, elements, level), FromString(level).value);
    ResultShape(CodeElementBlueprint(file, elements, level), FromString(level).value);
    LookupEntry(c, 0);
    LookupEntry(c, 1);
  }

  /** `directory-blueprint` reports its path and depth unchanged. */
  lemma DirectoryConfiguration(path: string, depth: int, level: string)
    requires FromString(level).Ok?
    ensures Get(Configuration(RunCommand(DirectoryBlueprint(path, depth, level)).result), "path") == Some(Str(path))
    ensures Get(Configuration(RunCommand(DirectoryBlueprint(path, depth, level)).result), "depth") == Some(Int(depth))
  {
    var c := ConfigEntries(DirectoryBlueprint(path, depth, level), FromString(level).value);
    ResultShape(DirectoryBlueprint(path, depth, level), FromString(level).value);
    LookupEntry(c, 0);
    LookupEntry(c, 1);
  }
}
