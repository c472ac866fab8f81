/**
 * `scripts/extract_flutter.py`: a line scanner over a Dart source file. A
 * line matching the class pattern gives a `Type` and the scanner moves on to
 * the next line; otherwise a line matching the method pattern gives a
 * `Function`, unless the stripped line starts with "//".
 */
module FlutterExtractor {
  import opened Wrappers
  import opened Text
  import opened Schema
  import opened Lines
  import opened RegexRuns
  import opened DartPatterns
  import opened SourceDiscovery

  const Domain := "flutter"
  const ComponentDescription := "Extracted from Flutter (Dart) module"

  /** A Dart function: named by group 2, its Returns type taken from group 1. */
  function FunctionOf(m: MethodGroups, filePath: string): Element
  {
    FunctionElement(m.name, "Method " + m.name + " extracted from " + filePath,
                    [("type", m.returnType), ("reference", "")])
  }

  predicate IsComment(line: string)
  {
    StartsWith(Strip(line), "//")
  }

  /** What one line contributes to the component. */
  function LineMembers(line: string, filePath: string): seq<Element>
  {
    match ClassSearch(line)
    case Some(name) => [TypeElement(name, [])]
    case None =>
      match MethodSearch(line)
      case Some(m) => if !IsComment(line) then [FunctionOf(m, filePath)] else []
      case None => []
  }

  function Members(lines: seq<string>, filePath: string): seq<Element>
  {
    if |lines| == 0 then [] else Members(lines[..|lines| - 1], filePath) + LineMembers(lines[|lines| - 1], filePath)
  }

  /** One more line appends its contribution. */
  lemma MembersSnoc(lines: seq<string>, i: nat, filePath: string)
    requires i < |lines|
    ensures Members(lines[..i + 1], filePath) == Members(lines[..i], filePath) + LineMembers(lines[i], filePath)
  {
    assert lines[..i + 1][..i] == lines[..i];
  }

  /** The component for a file with the given text. */
  function Component(filePath: string, text: string): Element
  {
    ComponentElement(Stem(PathName(filePath)), ComponentDescription, Members(ReadLines(text), filePath))
  }

  /** `extract_flutter_api`: the line loop with its `continue`. */
  method ExtractFlutterApi(filePath: string, text: string) returns (component: Element)
    ensures component == Component(filePath, text)
  {
    var lines := ReadLines(text);
    var members: seq<Element> := [];
    for i := 0 to |lines|
      invariant members == Members(lines[..i], filePath)
    {
      var line := lines[i];
      MembersSnoc(lines, i, filePath);
      var classMatch := ClassSearch(line);
      if classMatch.Some? {
        members := members + [TypeElement(classMatch.value, [])];
        continue;
      }
      var methodMatch := MethodSearch(line);
      if methodMatch.Some? && !IsComment(line) {
        members := members + [FunctionOf(methodMatch.value, filePath)];
      }
    }
    assert lines[..|lines|] == lines;
    component := ComponentElement(Stem(PathName(filePath)), ComponentDescription, members);
  }

  /** The document for each file: `None` when the file cannot be opened or decoded. */
  function Results(files: seq<string>, contents: map<string, string>): seq<Option<Element>>
  {
    Documents(files, contents, Domain, Component)
  }

  /** `main` (renamed `Run`): the `.dart` files of a directory walk, or the one file given, each extracted and written. */
  method Run(target: Target, contents: map<string, string>) returns (outcome: RunOutcome)
    ensures outcome == Batch(OutputNames(Sources(target, ".dart")), Results(Sources(target, ".dart"), contents))
  {
    var files := CollectSources(target, ".dart");
    outcome := ExtractAll(files, contents);
  }

  /** The per-file loop of `main`: each file extracted and written, until one cannot be read. */
  method ExtractAll(files: seq<string>, contents: map<string, string>) returns (outcome: RunOutcome)
    ensures outcome == Batch(OutputNames(files), Results(files, contents))
  {
    ghost var names := OutputNames(files);
    ghost var results := Results(files, contents);
    var writes: seq<Write> := [];
    var i := 0;
    while i < |files|
      invariant 0 <= i <= |files|
      invariant Batch(names[..i], results[..i]) == RunOutcome(writes, false)
    {
      var file := files[i];
      BatchStep(names, results, i, writes);
      if file !in contents {
        return RunOutcome(writes, true);
      }
      var component := ExtractFlutterApi(file, contents[file]);
      assert Write(names[i], results[i].value) == Write(XmlOutputName(file), Document(Domain, component));
      writes := writes + [Write(XmlOutputName(file), Document(Domain, component))];
      i := i + 1;
    }
    assert names[..i] == names && results[..i] == results;
    outcome := RunOutcome(writes, false);
  }

  // ---------------------------------------------------------------------------
  // Properties of the scanner.

  lemma LineMembersAtMostOne(line: string, filePath: string)
    ensures |LineMembers(line, filePath)| <= 1
  {
  }

  /** The component follows line order: it is the lines' contributions, concatenated. */
  lemma {:induction false} MembersInLineOrder(lines: seq<string>, filePath: string)
    ensures Members(lines, filePath) == Flatten(MapItems(lines, line => LineMembers(line, filePath)))
  {
    if |lines| > 0 {
      var n := |lines| - 1;
      MembersInLineOrder(lines[..n], filePath);
      var last := LineMembers(lines[n], filePath);
      FlattenAppend(MapItems(lines[..n], line => LineMembers(line, filePath)), [last]);
      assert Flatten([last]) == last + Flatten([last][1..]);
      assert [last][1..] == [];
    }
  }

  /** Each line contributes at most one element. */
  lemma {:induction false} MembersAtMostOnePerLine(lines: seq<string>, filePath: string)
    ensures |Members(lines, filePath)| <= |lines|
  {
    if |lines| > 0 {
      var n := |lines| - 1;
      MembersAtMostOnePerLine(lines[..n], filePath);
      LineMembersAtMostOne(lines[n], filePath);
    }
  }

  /**
   * A line in which "class " is followed by a word character anywhere gives
   * exactly one Type, named by the word run after the leftmost occurrence,
   * with no properties, and the method pattern is never tried on it, commented or not.
   */
  lemma ClassLineGivesType(line: string, filePath: string)
    requires ClassMatchesSomewhere(line)
    ensures ClassSearch(line).Some? && exists q: nat :: IsClassMatch(line, q, ClassSearch(line).value)
    ensures LineMembers(line, filePath) == [TypeElement(ClassSearch(line).value, [])]
  {
    ClassSearchSpec(line);
  }

  lemma LineMembersWithoutClass(line: string, filePath: string)
    requires ClassSearch(line).None?
    ensures LineMembers(line, filePath) ==
      if MethodSearch(line).Some? && !IsComment(line) then [FunctionOf(MethodSearch(line).value, filePath)] else []
  {
  }

  /**
   * A line with no class match gives a Function exactly when the method
   * pattern matches somewhere and the line is not a "//" comment; the name
   * and Returns type are groups 2 and 1 of the leftmost match.
   */
  lemma MethodLineGivesFunction(line: string, filePath: string)
    requires !ClassMatchesSomewhere(line)
    ensures |LineMembers(line, filePath)| == 1 <==> MethodMatchesSomewhere(line) && !IsComment(line)
    ensures |LineMembers(line, filePath)| == 1 ==>
      && MethodSearch(line).Some?
      && LineMembers(line, filePath) == [FunctionOf(MethodSearch(line).value, filePath)]
      && exists q: nat :: IsMethodMatch(line, q, MethodSearch(line).value)
  {
    ClassSearchSpec(line);
    MethodSearchSpec(line);
    LineMembersWithoutClass(line, filePath);
  }

  /** A "//" comment line never gives a Function. */
  lemma CommentLineGivesNoFunction(line: string, filePath: string)
    requires IsComment(line)
    ensures forall x :: x in LineMembers(line, filePath) ==> x.tag == "Type"
  {
  }

  /** The class check comes first: a commented-out class declaration still gives a Type. */
  lemma CommentedClassStillGivesType(filePath: string)
    ensures IsComment("// class Foo\n")
    ensures LineMembers("// class Foo\n", filePath) == [TypeElement("Foo", [])]
  {
    var line := "// class Foo\n";
    CommentedClassSearch(line);
    assert line[0] == '/';
    TrimStartOfNonBlank(line);
    CommentIsLeadingSlashes(line);
  }

  /** The leftmost class match of the commented line is at offset 3, with group "Foo". */
  lemma CommentedClassSearch(line: string)
    requires line == "// class Foo\n"
    ensures ClassSearch(line) == Some("Foo")
  {
    var attempts := seq(|line| + 1, p requires 0 <= p <= |line| => ClassAt(line, p));
    assert ClassAt(line, 3) == Some("Foo") by {
      assert line[3..9] == "class ";
      assert AllIn(line, 9, 12, Word);
      RunEndUnique(line, 9, 12, Word);
      assert line[9..12] == "Foo";
    }
    forall r | 0 <= r < 3
      ensures attempts[r].None?
    {
      assert line[r..r + 6][0] == line[r];
    }
    LeftmostSpec(attempts);
    assert attempts[3].Some?;
    var q :| 0 <= q < |attempts| && attempts[q] == Leftmost(attempts) && forall r :: 0 <= r < q ==> attempts[r].None?;
    assert q == 3;
  }

  lemma TrimStartOfNonBlank(s: string)
    requires |s| > 0 && !IsSpace(s[0])
    ensures TrimStart(s) == s
  {
  }

  /** `line.strip().startswith("//")` holds exactly when the first non-blank characters are "//". */
  lemma CommentIsLeadingSlashes(line: string)
    ensures IsComment(line) <==> StartsWith(TrimStart(line), "//")
  {
    var x := TrimStart(line);
    var r := TrimEnd(x);
    if StartsWith(x, "//") {
      assert !IsSpace(x[1]);
      assert |r| >= 2;
      assert r[..2] == x[..2];
    }
    if StartsWith(r, "//") {
      assert x[..2] == r[..2];
    }
  }

  /** Every Dart Function: method/path "N/A", "Method {name} extracted from {path}", Returns with type and empty reference. */
  predicate IsDartFunction(x: Element, filePath: string)
  {
    && WellFormedFunction(x)
    && x.children[0].text == "Method " + NameOf(x) + " extracted from " + filePath
    && Attr(x.children[1], "reference") == Some("")
    && Attr(x.children[1], "type").Some?
  }

  /** Every Dart Type: kind "object", and never any Property. */
  predicate IsDartType(x: Element)
  {
    x.tag == "Type" && Attr(x, "kind") == Some("object") && x.children == []
  }

  lemma LineMembersWellFormed(line: string, filePath: string)
    ensures forall x :: x in LineMembers(line, filePath) ==> IsDartFunction(x, filePath) || IsDartType(x)
  {
    match ClassSearch(line)
    case Some(name) =>
      var t := TypeElement(name, []);
      assert Lookup(t.attrs[1..], "kind") == Some("object");
    case None =>
      if MethodSearch(line).Some? && !IsComment(line) {
        var m := MethodSearch(line).value;
        var x := FunctionOf(m, filePath);
        FunctionElementWellFormed(m.name, "Method " + m.name + " extracted from " + filePath,
                                  [("type", m.returnType), ("reference", "")]);
        assert Lookup(x.children[1].attrs[1..], "reference") == Some("");
      }
  }

  lemma {:induction false} MembersWellFormed(lines: seq<string>, filePath: string)
    ensures forall x :: x in Members(lines, filePath) ==> IsDartFunction(x, filePath) || IsDartType(x)
  {
    if |lines| > 0 {
      MembersWellFormed(lines[..|lines| - 1], filePath);
      LineMembersWellFormed(lines[|lines| - 1], filePath);
    }
  }

  /** The component: named by the file stem, described as a Dart module, and only Dart Functions and Types inside. */
  lemma ComponentShape(filePath: string, text: string)
    ensures Attr(Component(filePath, text), "name") == Some(Stem(PathName(filePath)))
    ensures Attr(Component(filePath, text), "description") == Some("Extracted from Flutter (Dart) module")
    ensures Attr(Document(Domain, Component(filePath, text)), "domain") == Some("flutter")
    ensures forall x :: x in Component(filePath, text).children ==> IsDartFunction(x, filePath) || IsDartType(x)
  {
    var c := Component(filePath, text);
    assert Lookup(c.attrs[1..], "description") == Some(ComponentDescription);
    MembersWellFormed(ReadLines(text), filePath);
  }
}
