/**
 * `scripts/extract_python.py`: the top-level statements of a parsed Python
 * module become one `Component`. A top-level `def` gives a `Function`, a
 * top-level `class` gives a `Type` whose properties are the annotated
 * assignments to bare names in its body; everything else, nested
 * declarations included, gives nothing. The parser is not modelled: its
 * result is the datatype `Stmt` below.
 */
module PythonExtractor {
  import opened Wrappers
  import opened Text
  import opened Schema
  import opened SourceDiscovery

  /** The expressions the extractor looks at: a bare name, or anything else. */
  datatype Expr = Name(id: string) | OtherExpr

  /** The statement kinds of the `ast` module that matter here. */
  datatype Stmt =
    | FunctionDef(name: string, body: seq<Stmt>)
    | AsyncFunctionDef(name: string, body: seq<Stmt>)
    | ClassDef(name: string, body: seq<Stmt>)
    | AnnAssign(target: Expr, annotation: Expr)
    | OtherStmt(body: seq<Stmt>)

  const Domain := "python"
  const ComponentDescription := "Extracted from Python module"

  /** `getattr(annotation, "id", "unknown")`: only a bare name has an `id`. */
  function AnnotationType(annotation: Expr): string
  {
    match annotation
    case Name(id) => id
    case OtherExpr => "unknown"
  }

  /** The `Property` one class-body statement contributes, if any. */
  function PropertyOf(stmt: Stmt): seq<Element>
  {
    match stmt
    case AnnAssign(Name(id), annotation) => [PropertyElement(id, AnnotationType(annotation))]
    case _ => []
  }

  function Properties(body: seq<Stmt>): seq<Element>
  {
    if |body| == 0 then [] else Properties(body[..|body| - 1]) + PropertyOf(body[|body| - 1])
  }

  function FunctionOf(name: string, filePath: string): Element
  {
    FunctionElement(name, "Function " + name + " extracted from " + filePath, [("type", "unknown"), ("reference", "")])
  }

  /** The element one top-level statement contributes, if any. */
  function MemberOf(node: Stmt, filePath: string): seq<Element>
  {
    match node
    case FunctionDef(name, _) => [FunctionOf(name, filePath)]
    case ClassDef(name, body) => [TypeElement(name, Properties(body))]
    case _ => []
  }

  function Members(tree: seq<Stmt>, filePath: string): seq<Element>
  {
    if |tree| == 0 then [] else Members(tree[..|tree| - 1], filePath) + MemberOf(tree[|tree| - 1], filePath)
  }

  /** The component `extract_api` builds for the module `tree` read from `filePath`. */
  function Component(filePath: string, tree: seq<Stmt>): Element
  {
    ComponentElement(Stem(PathName(filePath)), ComponentDescription, Members(tree, filePath))
  }

  /** `extract_api`: one pass over the module body, appending to the component as it goes. */
  method ExtractApi(filePath: string, tree: seq<Stmt>) returns (component: Element)
    ensures component == Component(filePath, tree)
  {
    var members: seq<Element> := [];
    var i := 0;
    while i < |tree|
      invariant 0 <= i <= |tree|
      invariant members == Members(tree[..i], filePath)
    {
      var node := tree[i];
      match node {
        case FunctionDef(name, _) =>
          members := members + [FunctionOf(name, filePath)];
        case ClassDef(name, body) =>
          var properties: seq<Element> := [];
          var j := 0;
          while j < |body|
            invariant 0 <= j <= |body|
            invariant properties == Properties(body[..j])
          {
            match body[j] {
              case AnnAssign(Name(id), annotation) =>
                properties := properties + [PropertyElement(id, AnnotationType(annotation))];
              case _ =>
            }
            assert body[..j + 1][..j] == body[..j];
            j := j + 1;
          }
          assert body[..j] == body;
          members := members + [TypeElement(name, properties)];
        case _ =>
      }
      assert tree[..i + 1][..i] == tree[..i];
      i := i + 1;
    }
    assert tree[..i] == tree;
    component := ComponentElement(Stem(PathName(filePath)), ComponentDescription, members);
  }

  /** `main`: the `.py` files of a directory walk, or the one file given, each extracted and written. */
  method Run(target: Target, trees: map<string, seq<Stmt>>) returns (outcome: RunOutcome)
    ensures outcome == Batch(OutputNames(Sources(target, ".py")), Results(Sources(target, ".py"), trees))
  {
    var files := CollectSources(target, ".py");
    outcome := ExtractAll(files, trees);
  }

  /** The per-file loop of `main`: each file extracted and written, until one cannot be read. */
  method ExtractAll(files: seq<string>, trees: map<string, seq<Stmt>>) returns (outcome: RunOutcome)
    ensures outcome == Batch(OutputNames(files), Results(files, trees))
  {
    ghost var names := OutputNames(files);
    ghost var results := Results(files, trees);
    var writes: seq<Write> := [];
    var i := 0;
    while i < |files|
      invariant 0 <= i <= |files|
      invariant Batch(names[..i], results[..i]) == RunOutcome(writes, false)
    {
      var file := files[i];
      BatchStep(names, results, i, writes);
      if file !in trees {
        return RunOutcome(writes, true);
      }
      var component := ExtractApi(file, trees[file]);
      assert Write(names[i], results[i].value) == Write(XmlOutputName(file), Document(Domain, component));
      writes := writes + [Write(XmlOutputName(file), Document(Domain, component))];
      i := i + 1;
    }
    assert names[..i] == names && results[..i] == results;
    outcome := RunOutcome(writes, false);
  }

  /** The written document for each path: `None` when the file cannot be read or parsed. */
  function Results(files: seq<string>, trees: map<string, seq<Stmt>>): seq<Option<Element>>
  {
    Documents(files, trees, Domain, Component)
  }

  // ---------------------------------------------------------------------------
  // What the component holds, stated without the fold.

  /** The names of the top-level `def`s, in order. */
  function DefNames(tree: seq<Stmt>): seq<string>
  {
    if |tree| == 0 then []
    else (if tree[0].FunctionDef? then [tree[0].name] else []) + DefNames(tree[1..])
  }

  /** The names of the top-level `class`es, in order. */
  function ClassNames(tree: seq<Stmt>): seq<string>
  {
    if |tree| == 0 then []
    else (if tree[0].ClassDef? then [tree[0].name] else []) + ClassNames(tree[1..])
  }

  lemma {:induction false} MembersAppend(a: seq<Stmt>, b: seq<Stmt>, filePath: string)
    ensures Members(a + b, filePath) == Members(a, filePath) + Members(b, filePath)
  {
    if |b| == 0 {
      assert a + b == a;
    } else {
      var n := |b| - 1;
      assert (a + b)[..|a + b| - 1] == a + b[..n];
      MembersAppend(a, b[..n], filePath);
    }
  }

  lemma {:induction false} PropertiesAppend(a: seq<Stmt>, b: seq<Stmt>)
    ensures Properties(a + b) == Properties(a) + Properties(b)
  {
    if |b| == 0 {
      assert a + b == a;
    } else {
      var n := |b| - 1;
      assert (a + b)[..|a + b| - 1] == a + b[..n];
      PropertiesAppend(a, b[..n]);
    }
  }

  /** The first statement's contribution comes first. */
  lemma MembersCons(tree: seq<Stmt>, filePath: string)
    requires |tree| > 0
    ensures Members(tree, filePath) == MemberOf(tree[0], filePath) + Members(tree[1..], filePath)
  {
    assert tree == [tree[0]] + tree[1..];
    MembersAppend([tree[0]], tree[1..], filePath);
    assert Members([tree[0]], filePath) == MemberOf(tree[0], filePath);
  }

  /**
   * N top-level `def`s and M top-level `class`es give exactly N Functions and
   * M Types, named as declared and in declaration order; nothing else is emitted.
   */
  lemma {:induction false} MembersMatchDeclarations(tree: seq<Stmt>, filePath: string)
    ensures Names(Tagged(Members(tree, filePath), "Function")) == DefNames(tree)
    ensures Names(Tagged(Members(tree, filePath), "Type")) == ClassNames(tree)
    ensures |Members(tree, filePath)| == |DefNames(tree)| + |ClassNames(tree)|
  {
    if |tree| > 0 {
      var ms := Members(tree, filePath);
      var head := MemberOf(tree[0], filePath);
      var rest := Members(tree[1..], filePath);
      MembersCons(tree, filePath);
      MembersMatchDeclarations(tree[1..], filePath);
      TaggedAppend(head, rest, "Function");
      TaggedAppend(head, rest, "Type");
      NamesAppend(Tagged(head, "Function"), Tagged(rest, "Function"));
      NamesAppend(Tagged(head, "Type"), Tagged(rest, "Type"));
      match tree[0]
      case FunctionDef(name, _) =>
        FunctionElementWellFormed(name, "Function " + name + " extracted from " + filePath, [("type", "unknown"), ("reference", "")]);
        assert Names(Tagged(head, "Function")) == [name];
      case ClassDef(name, body) =>
        assert Names(Tagged(head, "Type")) == [name];
      case _ =>
    }
  }

  /** Every emitted Function has the fixed shape, description and `Returns` of the script. */
  predicate IsPythonFunction(e: Element, filePath: string)
  {
    && WellFormedFunction(e)
    && e.children[0].text == "Function " + NameOf(e) + " extracted from " + filePath
    && e.children[1].attrs == [("type", "unknown"), ("reference", "")]
  }

  /** Every emitted Type has kind "object" and only `required="true"` Property children. */
  predicate IsPythonType(e: Element)
  {
    && e.tag == "Type"
    && Attr(e, "kind") == Some("object")
    && forall p :: p in e.children ==> p.tag == "Property" && Attr(p, "required") == Some("true")
  }

  lemma {:induction false} PropertiesAreRequired(body: seq<Stmt>)
    ensures forall p :: p in Properties(body) ==> p.tag == "Property" && Attr(p, "required") == Some("true")
  {
    if |body| > 0 {
      PropertiesAreRequired(body[..|body| - 1]);
      match body[|body| - 1]
      case AnnAssign(Name(id), annotation) =>
        var p := PropertyElement(id, AnnotationType(annotation));
        assert Lookup(p.attrs[1..][1..], "required") == Some("true");
        assert Lookup(p.attrs[1..], "required") == Some("true");
      case _ =>
    }
  }

  lemma {:induction false} MembersAreWellFormed(tree: seq<Stmt>, filePath: string)
    ensures forall e :: e in Members(tree, filePath) ==> IsPythonFunction(e, filePath) || IsPythonType(e)
  {
    if |tree| > 0 {
      var n := |tree| - 1;
      MembersAreWellFormed(tree[..n], filePath);
      match tree[n]
      case FunctionDef(name, _) =>
        var d := "Function " + name + " extracted from " + filePath;
        FunctionElementWellFormed(name, d, [("type", "unknown"), ("reference", "")]);
        assert IsPythonFunction(FunctionOf(name, filePath), filePath);
      case ClassDef(name, body) =>
        PropertiesAreRequired(body);
        var t := TypeElement(name, Properties(body));
        assert Lookup(t.attrs[1..], "kind") == Some("object");
        assert IsPythonType(t);
      case _ =>
    }
  }

  /** The annotated assignments to bare names in a class body: their names and annotation types. */
  function AnnotatedFields(body: seq<Stmt>): seq<(string, string)>
  {
    if |body| == 0 then []
    else
      (match body[0]
       case AnnAssign(Name(id), annotation) => [(id, AnnotationType(annotation))]
       case _ => []) + AnnotatedFields(body[1..])
  }

  /** The `(name, type)` attributes of a sequence of Property elements. */
  function PropertyPairs(ps: seq<Element>): seq<(string, string)>
  {
    if |ps| == 0 then [] else [(NameOf(ps[0]), TypeOf(ps[0]))] + PropertyPairs(ps[1..])
  }

  function TypeOf(e: Element): string
  {
    match Attr(e, "type")
    case Some(t) => t
    case None => ""
  }

  lemma {:induction false} PropertyPairsAppend(a: seq<Element>, b: seq<Element>)
    ensures PropertyPairs(a + b) == PropertyPairs(a) + PropertyPairs(b)
  {
    if |a| == 0 {
      assert a + b == b;
    } else {
      assert (a + b)[1..] == a[1..] + b;
      PropertyPairsAppend(a[1..], b);
    }
  }

  /**
   * One Property per annotated assignment to a bare name, in body order, named
   * by the target and typed by the annotation's identifier or "unknown";
   * methods, plain assignments and attribute targets give none.
   */
  lemma {:induction false} PropertiesMatchFields(body: seq<Stmt>)
    ensures PropertyPairs(Properties(body)) == AnnotatedFields(body)
  {
    if |body| > 0 {
      assert body == [body[0]] + body[1..];
      PropertiesAppend([body[0]], body[1..]);
      assert Properties([body[0]]) == PropertyOf(body[0]);
      PropertiesMatchFields(body[1..]);
      PropertyPairsAppend(PropertyOf(body[0]), Properties(body[1..]));
      match body[0]
      case AnnAssign(Name(id), annotation) =>
        var p := PropertyElement(id, AnnotationType(annotation));
        assert Lookup(p.attrs[1..], "type") == Some(AnnotationType(annotation));
        assert PropertyPairs([p]) == [(id, AnnotationType(annotation))];
      case _ =>
    }
  }

  /** The written document: the component is the only child of Application "auto_extracted", domain "python". */
  lemma DocumentShape(filePath: string, tree: seq<Stmt>)
    ensures Document(Domain, Component(filePath, tree)).children == [Component(filePath, tree)]
    ensures Attr(Document(Domain, Component(filePath, tree)), "domain") == Some("python")
    ensures Attr(Component(filePath, tree), "name") == Some(Stem(PathName(filePath)))
    ensures Attr(Component(filePath, tree), "description") == Some("Extracted from Python module")
  {
    var c := Component(filePath, tree);
    assert Lookup(c.attrs[1..], "description") == Some(ComponentDescription);
  }
}
