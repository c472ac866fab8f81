/**
 * Character classes and string operations of the Python and Node standard
 * libraries that the scripts rely on: `str.isspace`, the `\w` class of `re`,
 * `str.startswith`/`endswith`, `str.strip`, `str.split`, and the pieces of
 * `pathlib`/`path` used to name files.
 */
module Text {

  /** Python's `str.isspace` (also what `\s` and `str.strip()` use for `str`). */
  predicate IsSpace(c: char)
  {
    c == ' ' || ('\U{09}' <= c <= '\U{0D}') || ('\U{1C}' <= c <= '\U{1F}')
    || c == '\U{85}' || c == '\U{A0}' || c == '\U{1680}' || ('\U{2000}' <= c <= '\U{200A}')
    || c == '\U{2028}' || c == '\U{2029}' || c == '\U{202F}' || c == '\U{205F}' || c == '\U{3000}'
  }

  /** The `\w` class, restricted to ASCII letters, digits and underscore. */
  predicate IsWordChar(c: char)
  {
    ('a' <= c <= 'z') || ('A' <= c <= 'Z') || ('0' <= c <= '9') || c == '_'
  }

  predicate StartsWith(s: string, prefix: string)
  {
    |prefix| <= |s| && s[..|prefix|] == prefix
  }

  predicate EndsWith(s: string, suffix: string)
  {
    |suffix| <= |s| && s[|s| - |suffix|..] == suffix
  }

  /** `str.lstrip()`: drops the leading whitespace and nothing else. */
  function TrimStart(s: string): (r: string)
    ensures |r| <= |s| && r == s[|s| - |r|..]
    ensures forall i :: 0 <= i < |s| - |r| ==> IsSpace(s[i])
    ensures r == [] || !IsSpace(r[0])
  {
    if |s| > 0 && IsSpace(s[0]) then TrimStart(s[1..]) else s
  }

  /** `str.rstrip()`: drops the trailing whitespace and nothing else. */
  function TrimEnd(s: string): (r: string)
    ensures |r| <= |s| && r == s[..|r|]
    ensures forall i :: |r| <= i < |s| ==> IsSpace(s[i])
    ensures r == [] || !IsSpace(r[|r| - 1])
  {
    if |s| > 0 && IsSpace(s[|s| - 1]) then TrimEnd(s[..|s| - 1]) else s
  }

  /** `str.strip()` with no argument. */
  function Strip(s: string): string
  {
    TrimEnd(TrimStart(s))
  }

  /** The number of occurrences of `c` in `s`. */
  function Count(s: string, c: char): nat
  {
    if |s| == 0 then 0 else (if s[0] == c then 1 else 0) + Count(s[1..], c)
  }

  /** `s.split(sep)` for a one-character separator: empty pieces are kept. */
  function Split(s: string, sep: char): (r: seq<string>)
    ensures |r| >= 1
  {
    if |s| == 0 then [""]
    else
      var rest := Split(s[1..], sep);
      if s[0] == sep then [""] + rest else [[s[0]] + rest[0]] + rest[1..]
  }

  /** `sep.join(parts)`. */
  function Join(parts: seq<string>, sep: char): string
  {
    if |parts| == 0 then ""
    else if |parts| == 1 then parts[0]
    else parts[0] + [sep] + Join(parts[1..], sep)
  }

  /** `str.split` produces one piece more than there are separators. */
  lemma {:induction false} SplitCount(s: string, sep: char)
    ensures |Split(s, sep)| == Count(s, sep) + 1
  {
    if |s| > 0 {
      SplitCount(s[1..], sep);
    }
  }

  /** No piece contains the separator. */
  lemma {:induction false} SplitPiecesHaveNoSeparator(s: string, sep: char)
    ensures forall i :: 0 <= i < |Split(s, sep)| ==> sep !in Split(s, sep)[i]
  {
    if |s| > 0 {
      SplitPiecesHaveNoSeparator(s[1..], sep);
      var rest := Split(s[1..], sep);
      if s[0] != sep {
        assert sep !in rest[0];
      }
    }
  }

  /** Joining the pieces with the separator gives back the string. */
  lemma {:induction false} JoinSplit(s: string, sep: char)
    ensures Join(Split(s, sep), sep) == s
  {
    if |s| > 0 {
      JoinSplit(s[1..], sep);
      var rest := Split(s[1..], sep);
      if s[0] == sep {
        assert Split(s, sep) == [""] + rest;
      } else {
        var r := Split(s, sep);
        assert r == [[s[0]] + rest[0]] + rest[1..];
        if |rest| == 1 {
          assert Join(r, sep) == [s[0]] + rest[0];
        } else {
          assert r[1..] == rest[1..];
          assert Join(rest, sep) == rest[0] + [sep] + Join(rest[1..], sep);
        }
      }
    }
  }

  /** The index of the last occurrence of `c` in `s`, -1 when there is none (`str.rfind`). */
  function RFind(s: string, c: char): (i: int)
    ensures -1 <= i < |s|
    ensures i >= 0 ==> s[i] == c && forall j :: i < j < |s| ==> s[j] != c
    ensures i == -1 ==> c !in s
  {
    if |s| == 0 then -1
    else if s[|s| - 1] == c then |s| - 1
    else RFind(s[..|s| - 1], c)
  }

  /** The last path component: what follows the last '/'. */
  function PathName(p: string): (n: string)
    ensures '/' !in n && EndsWith(p, n)
  {
    var i := RFind(p, '/');
    p[i + 1..]
  }

  /** The name is the whole path, or a '/' stands right before it: it is the whole last component. */
  lemma PathNameIsLastComponent(p: string)
    ensures |PathName(p)| == |p| || p[|p| - |PathName(p)| - 1] == '/'
  {
  }

  /** `PurePath.suffix`: the last dot and what follows it, unless the dot is first or last. */
  function Suffix(name: string): string
  {
    var i := RFind(name, '.');
    if 0 < i < |name| - 1 then name[i..] else ""
  }

  /** `PurePath.stem`: the name without its suffix. */
  function Stem(name: string): string
  {
    var i := RFind(name, '.');
    if 0 < i < |name| - 1 then name[..i] else name
  }

  /**
   * The suffix is empty, or a dot that is neither the first nor the last
   * character of the name followed by the rest of the name, which holds no
   * dot; the stem is what comes before it.
   */
  lemma StemSuffix(name: string)
    ensures Stem(name) + Suffix(name) == name
    ensures Suffix(name) == [] || (Suffix(name)[0] == '.' && '.' !in Suffix(name)[1..]
                                    && 2 <= |Suffix(name)| < |name| && EndsWith(name, Suffix(name)))
  {
  }

  /** A name without a dot has no suffix: the stem is the whole name. */
  lemma NoDotNoSuffix(name: string)
    requires '.' !in name
    ensures Suffix(name) == "" && Stem(name) == name
  {
  }

  /**
   * When the last dot of the name is at `i`, the suffix runs from `i` to the
   * end and the stem is what precedes it, unless that dot is the first or
   * the last character: then there is no suffix.
   */
  lemma SuffixFromLastDot(name: string, i: nat)
    requires i < |name| && name[i] == '.' && forall j :: i < j < |name| ==> name[j] != '.'
    ensures Suffix(name) == if 0 < i < |name| - 1 then name[i..] else ""
    ensures Stem(name) == if 0 < i < |name| - 1 then name[..i] else name
  {
    assert RFind(name, '.') == i;
  }

  lemma SuffixExamples()
    ensures Suffix("file.py") == ".py" && Stem("file.py") == "file"
    ensures Suffix("archive.tar.gz") == ".gz" && Stem("archive.tar.gz") == "archive.tar"
    ensures Suffix(".bashrc") == "" && Suffix("notes.") == "" && Suffix("README") == ""
  {
    SuffixFromLastDot("file.py", 4);
    SuffixFromLastDot("archive.tar.gz", 11);
    SuffixFromLastDot(".bashrc", 0);
    SuffixFromLastDot("notes.", 5);
    NoDotNoSuffix("README");
  }

  /** `Path(root) / file` for a relative file name. */
  function JoinPath(dir: string, name: string): string
  {
    dir + "/" + name
  }

  lemma PathNameOfJoin(dir: string, name: string)
    requires '/' !in name
    ensures PathName(JoinPath(dir, name)) == name
  {
    var p := JoinPath(dir, name);
    var i := RFind(p, '/');
    assert p[|dir|] == '/';
    assert i >= |dir|;
  }

  /** `path.with_suffix(".xml").name`: the name of the file an extractor writes. */
  function XmlOutputName(path: string): string
  {
    Stem(PathName(path)) + ".xml"
  }

  /** The output file keeps the input's name up to its last suffix, and ends in ".xml". */
  lemma XmlOutputNameShape(path: string)
    ensures EndsWith(XmlOutputName(path), ".xml")
    ensures XmlOutputName(path)[..|XmlOutputName(path)| - 4] + Suffix(PathName(path)) == PathName(path)
  {
    var out := XmlOutputName(path);
    assert out[..|out| - 4] == Stem(PathName(path));
    StemSuffix(PathName(path));
  }

  /** Node's `path.basename(p, ext)`: the suffix `ext` is removed unless it is the whole name. */
  function NodeBasename(p: string, ext: string): (b: string)
    ensures '/' !in b
  {
    if p == ext && ext != "" then ""
    else
      var n := PathName(p);
      if EndsWith(n, ext) && |n| > |ext| then n[..|n| - |ext|] else n
  }

  /** `path.basename(dir + "/" + stem + ext, ext)` is `stem` for a non-empty stem. */
  lemma NodeBasenameStripsExtension(dir: string, stem: string, ext: string)
    requires stem != "" && '/' !in stem && '/' !in ext
    ensures NodeBasename(JoinPath(dir, stem + ext), ext) == stem
  {
    PathNameOfJoin(dir, stem + ext);
    var n := stem + ext;
    assert n[|n| - |ext|..] == ext;
    assert n[..|n| - |ext|] == stem;
  }

  /** A name that does not end in `ext` is returned whole. */
  lemma NodeBasenameKeepsOtherNames(dir: string, name: string, ext: string)
    requires '/' !in name && '/' !in ext && !EndsWith(name, ext)
    ensures NodeBasename(JoinPath(dir, name), ext) == name
  {
    PathNameOfJoin(dir, name);
    assert JoinPath(dir, name)[|dir|] == '/';
  }
}
