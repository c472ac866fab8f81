/**
 * `scripts/extract_kotlin.py`: the same line loop as the Dart scanner, with
 * the patterns of the `KotlinPatterns` module and no comment check. Since
 * every match needs a literal backslash, ordinary Kotlin gives an empty
 * component.
 */
module KotlinExtractor {
  import opened Wrappers
  import opened Text
  import opened Schema
  import opened Lines
  import opened KotlinPatterns
  import opened SourceDiscovery

  const Domain := "kotlin"
  const ComponentDescription := "Extracted from Kotlin module"

  /** `fun_match.group(3) or "unknown"`. */
  function ReturnsType(g: FunGroups): string
  {
    if g.returnType == "" then "unknown" else g.returnType
  }

  function FunctionOf(g: FunGroups, filePath: string): Element
  {
    FunctionElement(g.name, "Function " + g.name + " extracted from " + filePath,
                    [("type", ReturnsType(g)), ("reference", "")])
  }

  /** What one line contributes to the component. */
  function LineMembers(line: string, filePath: string): seq<Element>
  {
    match ClassSearch(line)
    case Some(name) => [TypeElement(name, [])]
    case None =>
      match FunSearch(line)
      case Some(g) => [FunctionOf(g, filePath)]
      case None => []
  }

  function Members(lines: seq<string>, filePath: string): seq<Element>
  {
    if |lines| == 0 then [] else Members(lines[..|lines| - 1], filePath) + LineMembers(lines[|lines| - 1], filePath)
  }

  function Component(filePath: string, text: string): Element
  {
    ComponentElement(Stem(PathName(filePath)), ComponentDescription, Members(ReadLines(text), filePath))
  }

  /** `extract_kotlin_api`: the line loop with its `continue`. */
  method ExtractKotlinApi(filePath: string, text: string) returns (component: Element)
    ensures component == Component(filePath, text)
  {
    var lines := ReadLines(text);
    var members: seq<Element> := [];
    for i := 0 to |lines|
      invariant members == Members(lines[..i], filePath)
    {
      var line := lines[i];
      assert lines[..i + 1][..i] == lines[..i];
      var classMatch := ClassSearch(line);
      if classMatch.Some? {
        members := members + [TypeElement(classMatch.value, [])];
        continue;
      }
      var funMatch := FunSearch(line);
      if funMatch.Some? {
        members := members + [FunctionOf(funMatch.value, filePath)];
      }
    }
    assert lines[..|lines|] == lines;
    component := ComponentElement(Stem(PathName(filePath)), ComponentDescription, members);
  }

  /** The document for each file: `None` when the file cannot be opened or decoded. */
  function Results(files: seq<string>, contents: map<string, string>): seq<Option<Element>>
  {
    Documents(files, contents, Domain, Component)
  }

  /** `main` (renamed `Run`): the `.kt` files of a directory walk, or the one file given, each extracted and written. */
  method Run(target: Target, contents: map<string, string>) returns (outcome: RunOutcome)
    ensures outcome == Batch(OutputNames(Sources(target, ".kt")), Results(Sources(target, ".kt"), contents))
  {
    var files := CollectSources(target, ".kt");
    outcome := ExtractAll(files, contents);
  }

  /** The per-file loop of `main`: each file extracted and written, until one cannot be read. */
  method ExtractAll(files: seq<string>, contents: map<string, string>) returns (outcome: RunOutcome)
    ensures outcome == Batch(OutputNames(files), Results(files, contents))
  {
    ghost var names := OutputNames(files);
    ghost var results := Results(files, contents);
    var writes: seq<Write> := [];
    var i := 0;
    while i < |files|
      invariant 0 <= i <= |files|
      invariant Batch(names[..i], results[..i]) == RunOutcome(writes, false)
    {
      var file := files[i];
      BatchStep(names, results, i, writes);
      if file !in contents {
        return RunOutcome(writes, true);
      }
      var component := ExtractKotlinApi(file, contents[file]);
      assert Write(names[i], results[i].value) == Write(XmlOutputName(file), Document(Domain, component));
      writes := writes + [Write(XmlOutputName(file), Document(Domain, component))];
      i := i + 1;
    }
    assert names[..i] == names && results[..i] == results;
    outcome := RunOutcome(writes, false);
  }

  // ---------------------------------------------------------------------------
  // Properties of the scanner.

  lemma LineMembersAtMostOne(line: string, filePath: string)
    ensures |LineMembers(line, filePath)| <= 1
  {
  }

  /** Each line contributes at most one element, and the component follows line order. */
  lemma {:induction false} MembersInLineOrder(lines: seq<string>, filePath: string)
    ensures Members(lines, filePath) == Flatten(MapItems(lines, line => LineMembers(line, filePath)))
    ensures |Members(lines, filePath)| <= |lines|
  {
    if |lines| > 0 {
      var n := |lines| - 1;
      MembersInLineOrder(lines[..n], filePath);
      LineMembersAtMostOne(lines[n], filePath);
      var last := LineMembers(lines[n], filePath);
      FlattenAppend(MapItems(lines[..n], line => LineMembers(line, filePath)), [last]);
      assert Flatten([last]) == last + Flatten([last][1..]);
    }
  }

  /**
   * The class check comes first: a class match gives one Type and nothing
   * else; otherwise a fun match gives a Function whatever the line looks
   * like, comments included.
   */
  lemma LineClassification(line: string, filePath: string)
    ensures ClassMatchesSomewhere(line) ==>
      ClassSearch(line).Some? && LineMembers(line, filePath) == [TypeElement(ClassSearch(line).value, [])]
    ensures !ClassMatchesSomewhere(line) ==>
      (|LineMembers(line, filePath)| == 1 <==> FunMatchesSomewhere(line))
    ensures !ClassMatchesSomewhere(line) && FunMatchesSomewhere(line) ==>
      FunSearch(line).Some? && LineMembers(line, filePath) == [FunctionOf(FunSearch(line).value, filePath)]
  {
    ClassSearchSpec(line);
    FunSearchSpec(line);
  }

  /**
   * A line on which only the fun pattern matches gives one Function, read
   * from the leftmost match with the shortest lazy group: its name is
   * group 1 and its Returns type is group 3, or "unknown" when group 3 is
   * empty.
   */
  lemma FunctionLineReturnsGroupThree(line: string, filePath: string)
    requires !ClassMatchesSomewhere(line) && FunMatchesSomewhere(line)
    ensures exists p: nat, a: nat, b: nat, j: nat ::
      && IsFunMatch(line, p, a, b, j)
      && LineMembers(line, filePath) ==
         [FunctionElement(line[p + 4..a], "Function " + line[p + 4..a] + " extracted from " + filePath,
                          [("type", if b + 1 == j then "unknown" else line[b + 1..j]), ("reference", "")])]
  {
    LineClassification(line, filePath);
    FunSearchGroups(line);
    var p: nat, a: nat, b: nat, j: nat :|
      IsFunMatch(line, p, a, b, j) && FunSearch(line) == Some(FunGroups(line[p + 4..a], line[b + 1..j]));
    var g := FunSearch(line).value;
    assert LineMembers(line, filePath) == [FunctionOf(g, filePath)];
    assert |g.returnType| == j - b - 1;
  }

  /** A line without a backslash gives nothing. */
  lemma PlainLineGivesNothing(line: string, filePath: string)
    requires Backslash !in line
    ensures LineMembers(line, filePath) == []
  {
    NoBackslashNoMatch(line);
  }

  lemma {:induction false} PlainLinesGiveNothing(lines: seq<string>, filePath: string)
    requires forall k :: 0 <= k < |lines| ==> Backslash !in lines[k]
    ensures Members(lines, filePath) == []
  {
    if |lines| > 0 {
      PlainLinesGiveNothing(lines[..|lines| - 1], filePath);
      PlainLineGivesNothing(lines[|lines| - 1], filePath);
    }
  }

  /** Ordinary Kotlin, which has no backslash outside string and character literals, gives an empty component. */
  lemma OrdinaryKotlinGivesEmptyComponent(filePath: string, text: string)
    requires Backslash !in text
    ensures Component(filePath, text).children == []
  {
    TranslateChars(text);
    var lines := ReadLines(text);
    SplitKeepEndsChars(Translate(text), NewlineOnly);
    PlainLinesGiveNothing(lines, filePath);
  }

  /** A typical Kotlin declaration line matches neither pattern. */
  lemma TypicalDeclarationGivesNothing(filePath: string)
    ensures LineMembers("fun greet(name: String): String {\n", filePath) == []
    ensures LineMembers("class Greeter(val name: String) {\n", filePath) == []
  {
    PlainLineGivesNothing("fun greet(name: String): String {\n", filePath);
    PlainLineGivesNothing("class Greeter(val name: String) {\n", filePath);
  }

  /** Every Kotlin Function: method/path "N/A", "Function {name} extracted from {path}", Returns with a non-empty type and empty reference. */
  predicate IsKotlinFunction(x: Element, filePath: string)
  {
    && WellFormedFunction(x)
    && x.children[0].text == "Function " + NameOf(x) + " extracted from " + filePath
    && Attr(x.children[1], "reference") == Some("")
    && Attr(x.children[1], "type").Some? && Attr(x.children[1], "type").value != ""
  }

  predicate IsKotlinType(x: Element)
  {
    x.tag == "Type" && Attr(x, "kind") == Some("object") && x.children == []
  }

  lemma LineMembersWellFormed(line: string, filePath: string)
    ensures forall x :: x in LineMembers(line, filePath) ==> IsKotlinFunction(x, filePath) || IsKotlinType(x)
  {
    match ClassSearch(line)
    case Some(name) =>
      var t := TypeElement(name, []);
      assert Lookup(t.attrs[1..], "kind") == Some("object");
    case None =>
      if FunSearch(line).Some? {
        var g := FunSearch(line).value;
        var x := FunctionOf(g, filePath);
        FunctionElementWellFormed(g.name, "Function " + g.name + " extracted from " + filePath,
                                  [("type", ReturnsType(g)), ("reference", "")]);
        assert Lookup(x.children[1].attrs[1..], "reference") == Some("");
      }
  }

  lemma {:induction false} MembersWellFormed(lines: seq<string>, filePath: string)
    ensures forall x :: x in Members(lines, filePath) ==> IsKotlinFunction(x, filePath) || IsKotlinType(x)
  {
    if |lines| > 0 {
      MembersWellFormed(lines[..|lines| - 1], filePath);
      LineMembersWellFormed(lines[|lines| - 1], filePath);
    }
  }

  lemma ComponentShape(filePath: string, text: string)
    ensures Attr(Component(filePath, text), "name") == Some(Stem(PathName(filePath)))
    ensures Attr(Component(filePath, text), "description") == Some("Extracted from Kotlin module")
    ensures Attr(Document(Domain, Component(filePath, text)), "domain") == Some("kotlin")
    ensures forall x :: x in Component(filePath, text).children ==> IsKotlinFunction(x, filePath) || IsKotlinType(x)
  {
    var c := Component(filePath, text);
    assert Lookup(c.attrs[1..], "description") == Some(ComponentDescription);
    MembersWellFormed(ReadLines(text), filePath);
  }
}
