/**
 * `scripts/arch_diff_index.py`: compares two index files. Each is parsed,
 * serialized again and split into lines that keep their terminators; the
 * unified diff of the previous file's lines against the current file's is
 * printed, or "No differences found." when it is empty. The XML parser and
 * serializer are not modelled (the parsed roots are given, the serializer is
 * a parameter), and neither are the hunks `difflib.unified_diff` prints: a
 * non-empty diff is represented by the two line sequences it compares.
 */
module IndexDiff {
  import opened Wrappers
  import opened Schema
  import opened Lines

  /** The files on disk: a path is present when it exists; `None` when `ET.parse` raises on it. */
  type Files = map<string, Option<Element>>

  /** `unified_diff(previous, current, fromfile=..., tofile=...)`: empty, or the sides it compares. */
  datatype Diff =
    | NoDiff
    | UnifiedDiff(fromFile: string, fromLines: seq<string>, toFile: string, toLines: seq<string>)

  /** How `main` ends: what it reports, and with which exit status. */
  datatype Outcome =
    | Usage
    | MissingFile
    | ParseFailure(path: string)
    | NoDifferences
    | Differences(diff: Diff)

  function ExitCode(o: Outcome): int
  {
    match o
    case Usage => 1
    case MissingFile => 1
    case ParseFailure(_) => 1
    case NoDifferences => 0
    case Differences(_) => 0
  }

  /** The line printed on standard output, for the outcomes that print a fixed one. */
  function Message(o: Outcome): Option<string>
  {
    match o
    case Usage => Some("Usage: arch_extract.py diff-index <current.xml> <previous.xml>")
    case MissingFile => Some("Both XML files must exist.")
    case NoDifferences => Some("No differences found.")
    case _ => None
  }

  /** `normalize_xml` on a parsed root: the serialized text, split with `splitlines(keepends=True)`. */
  function Normalize(root: Element, serialize: Element -> string): seq<string>
  {
    SplitKeepEnds(serialize(root), AllBoundaries)
  }

  /** The decision `unified_diff` makes: no output for equal sequences, hunks otherwise. */
  function LineDiff(fromFile: string, fromLines: seq<string>, toFile: string, toLines: seq<string>): (d: Diff)
    ensures d.NoDiff? <==> fromLines == toLines
  {
    if fromLines == toLines then NoDiff else UnifiedDiff(fromFile, fromLines, toFile, toLines)
  }

  /** `diff_xml_files(current_path, previous_path)`, both paths readable. */
  function DiffFiles(currentPath: string, current: Element, previousPath: string, previous: Element,
                     serialize: Element -> string): Diff
  {
    LineDiff(previousPath, Normalize(previous, serialize), currentPath, Normalize(current, serialize))
  }

  /** `main`, with `argv` including the program name. */
  function DiffMain(argv: seq<string>, files: Files, serialize: Element -> string): Outcome
  {
    if |argv| != 3 then Usage
    else
      var currentPath, previousPath := argv[1], argv[2];
      if currentPath !in files || previousPath !in files then MissingFile
      else if files[currentPath].None? then ParseFailure(currentPath)
      else if files[previousPath].None? then ParseFailure(previousPath)
      else
        match DiffFiles(currentPath, files[currentPath].value, previousPath, files[previousPath].value, serialize)
        case NoDiff => NoDifferences
        case d => Differences(d)
  }

  // ---------------------------------------------------------------------------
  // Properties.

  /** Anything but two arguments prints the usage line and exits 1, whatever is on disk. */
  lemma UsageBeforeAnyRead(argv: seq<string>, files1: Files, files2: Files, serialize: Element -> string)
    requires |argv| != 3
    ensures DiffMain(argv, files1, serialize) == DiffMain(argv, files2, serialize) == Usage
    ensures ExitCode(Usage) == 1
  {
  }

  /** A missing file prints "Both XML files must exist." and exits 1 before anything is parsed. */
  lemma MissingFileStops(argv: seq<string>, files: Files, serialize: Element -> string)
    requires |argv| == 3 && (argv[1] !in files || argv[2] !in files)
    ensures DiffMain(argv, files, serialize) == MissingFile
    ensures Message(MissingFile) == Some("Both XML files must exist.") && ExitCode(MissingFile) == 1
  {
  }

  /** The normalized lines join up to the serialized text. */
  lemma NormalizeKeepsText(root: Element, serialize: Element -> string)
    ensures Flatten(Normalize(root, serialize)) == serialize(root)
  {
    SplitKeepEndsConcat(serialize(root), AllBoundaries);
  }

  /**
   * With both files readable, "No differences found." is reported exactly when
   * the two documents serialize to the same text; otherwise the diff goes from
   * the previous file to the current one. Every such run exits 0.
   */
  lemma NoDifferencesIffSameText(argv: seq<string>, files: Files, serialize: Element -> string)
    requires |argv| == 3 && argv[1] in files && argv[2] in files
    requires files[argv[1]].Some? && files[argv[2]].Some?
    ensures DiffMain(argv, files, serialize) == NoDifferences <==>
      serialize(files[argv[1]].value) == serialize(files[argv[2]].value)
    ensures DiffMain(argv, files, serialize) != NoDifferences ==>
      DiffMain(argv, files, serialize) == Differences(UnifiedDiff(
        argv[2], Normalize(files[argv[2]].value, serialize), argv[1], Normalize(files[argv[1]].value, serialize)))
    ensures ExitCode(DiffMain(argv, files, serialize)) == 0
  {
    SplitKeepEndsInjective(serialize(files[argv[1]].value), serialize(files[argv[2]].value), AllBoundaries);
  }

  /** Diffing a file against itself finds no differences. */
  lemma SelfDiffIsEmpty(path: string, files: Files, serialize: Element -> string)
    requires path in files && files[path].Some?
    ensures DiffMain(["arch_diff_index.py", path, path], files, serialize) == NoDifferences
  {
  }

  /** A file that cannot be parsed ends the run with status 1; the current file is parsed first. */
  lemma ParseFailureExits(argv: seq<string>, files: Files, serialize: Element -> string)
    requires |argv| == 3 && argv[1] in files && argv[2] in files
    requires files[argv[1]].None? || files[argv[2]].None?
    ensures DiffMain(argv, files, serialize) == ParseFailure(if files[argv[1]].None? then argv[1] else argv[2])
    ensures ExitCode(DiffMain(argv, files, serialize)) == 1
  {
  }
}
