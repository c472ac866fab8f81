/**
 * `scripts/extract_typescript.js`: a recursive pre-order visit over the
 * TypeScript syntax tree appends a `Function` for every named function
 * declaration and a `Type` for every named class declaration, nested ones
 * included, to one shared component. The compiler API is not modelled: its
 * tree is the datatype `Node` below.
 */
module TypeScriptExtractor {
  import opened Wrappers
  import opened Text
  import opened Schema
  import opened SourceDiscovery

  /**
   * The node kinds the visit tests. A class's property declarations are among
   * its children (`ts.forEachChild` visits a class's members after its name,
   * modifiers and heritage clauses, none of which is a property declaration).
   */
  datatype Kind =
    | FunctionDeclaration(name: Option<string>)
    | ClassDeclaration(name: Option<string>)
    | PropertyDeclaration(propertyName: string)
    | OtherKind

  datatype Node = Node(kind: Kind, children: seq<Node>)

  const Domain := "typescript"
  const ComponentDescription := "Extracted from TypeScript module"

  /** A shared, growing list: the DOM component, or the `files` array of the walk. */
  class Sink<T> {
    var items: seq<T>

    constructor ()
      ensures items == []
    {
      items := [];
    }

    method Append(x: T)
      modifies this
      ensures items == old(items) + [x]
    {
      items := items + [x];
    }
  }

  function FunctionOf(name: string, filePath: string): Element
  {
    FunctionElement(name, "Function " + name + " extracted from " + filePath, [])
  }

  /** The `Property` children of a class: one per property-declaration member, in member order. */
  function PropertiesOf(members: seq<Node>): seq<Element>
  {
    if |members| == 0 then []
    else
      var n := |members| - 1;
      PropertiesOf(members[..n])
      + (if members[n].kind.PropertyDeclaration? then [PropertyElement(members[n].kind.propertyName, "unknown")] else [])
  }

  /** What the visit appends for `node` itself, before turning to its children. */
  function Own(node: Node, filePath: string): seq<Element>
  {
    match node.kind
    case FunctionDeclaration(Some(name)) => [FunctionOf(name, filePath)]
    case ClassDeclaration(Some(name)) => [TypeElement(name, PropertiesOf(node.children))]
    case _ => []
  }

  /** Everything `visit(node)` appends to the component, in order. */
  function Emitted(node: Node, filePath: string): seq<Element>
    decreases node, 1
  {
    Own(node, filePath) + EmittedAll(node.children, filePath)
  }

  function EmittedAll(nodes: seq<Node>, filePath: string): seq<Element>
    decreases nodes, 0
  {
    if |nodes| == 0 then []
    else EmittedAll(nodes[..|nodes| - 1], filePath) + Emitted(nodes[|nodes| - 1], filePath)
  }

  /** The `node.members.forEach` loop of a class declaration. */
  method ClassProperties(members: seq<Node>) returns (properties: seq<Element>)
    ensures properties == PropertiesOf(members)
  {
    properties := [];
    var j := 0;
    while j < |members|
      invariant 0 <= j <= |members|
      invariant properties == PropertiesOf(members[..j])
    {
      var member := members[j];
      if member.kind.PropertyDeclaration? {
        properties := properties + [PropertyElement(member.kind.propertyName, "unknown")];
      }
      assert members[..j + 1][..j] == members[..j];
      j := j + 1;
    }
    assert members[..j] == members;
  }

  /** The two tests at the top of `visit`: a named function, then a named class. */
  method AppendOwn(node: Node, filePath: string, component: Sink<Element>)
    modifies component
    ensures component.items == old(component.items) + Own(node, filePath)
  {
    if node.kind.FunctionDeclaration? && node.kind.name.Some? {
      component.Append(FunctionOf(node.kind.name.value, filePath));
    }
    if node.kind.ClassDeclaration? && node.kind.name.Some? {
      var properties := ClassProperties(node.children);
      component.Append(TypeElement(node.kind.name.value, properties));
    }
  }

  /** `visit`: appends to the shared component, then recurses into every child. */
  method Visit(node: Node, filePath: string, component: Sink<Element>)
    modifies component
    ensures component.items == old(component.items) + Emitted(node, filePath)
    decreases node
  {
    AppendOwn(node, filePath, component);
    ghost var afterOwn := component.items;
    var i := 0;
    while i < |node.children|
      invariant 0 <= i <= |node.children|
      invariant component.items == afterOwn + EmittedAll(node.children[..i], filePath)
    {
      assert node.children[..i + 1][..i] == node.children[..i];
      assert EmittedAll(node.children[..i + 1], filePath)
          == EmittedAll(node.children[..i], filePath) + Emitted(node.children[i], filePath);
      Visit(node.children[i], filePath, component);
      i := i + 1;
    }
    assert node.children[..i] == node.children;
  }

  /** The component name: the file's basename with ".ts" removed. */
  function Component(filePath: string, sourceFile: Node): Element
  {
    ComponentElement(NodeBasename(filePath, ".ts"), ComponentDescription, Emitted(sourceFile, filePath))
  }

  /** `extractFromFile`: the document for one parsed source file. */
  method ExtractFromFile(filePath: string, sourceFile: Node) returns (document: Element)
    ensures document == Document(Domain, Component(filePath, sourceFile))
  {
    var component := new Sink<Element>();
    Visit(sourceFile, filePath, component);
    assert component.items == Emitted(sourceFile, filePath);
    document := Document(Domain, ComponentElement(NodeBasename(filePath, ".ts"), ComponentDescription, component.items));
  }

  // ---------------------------------------------------------------------------
  // The visit as a pre-order enumeration.

  /** All nodes of the tree in pre-order: a node, then its children's subtrees in order. */
  function PreOrder(node: Node): seq<Node>
    decreases node, 1
  {
    [node] + PreOrderAll(node.children)
  }

  function PreOrderAll(nodes: seq<Node>): seq<Node>
    decreases nodes, 0
  {
    if |nodes| == 0 then [] else PreOrder(nodes[0]) + PreOrderAll(nodes[1..])
  }

  /** The elements the nodes of `nodes` contribute themselves, in order. */
  function OwnAll(nodes: seq<Node>, filePath: string): seq<Element>
  {
    if |nodes| == 0 then [] else Own(nodes[0], filePath) + OwnAll(nodes[1..], filePath)
  }

  lemma {:induction false} OwnAllAppend(a: seq<Node>, b: seq<Node>, filePath: string)
    ensures OwnAll(a + b, filePath) == OwnAll(a, filePath) + OwnAll(b, filePath)
  {
    if |a| == 0 {
      assert a + b == b;
    } else {
      assert (a + b)[1..] == a[1..] + b;
      OwnAllAppend(a[1..], b, filePath);
    }
  }

  lemma {:induction false} PreOrderAllSnoc(nodes: seq<Node>)
    requires |nodes| > 0
    ensures PreOrderAll(nodes) == PreOrderAll(nodes[..|nodes| - 1]) + PreOrder(nodes[|nodes| - 1])
  {
    if |nodes| == 1 {
      assert nodes[..0] == [];
    } else {
      PreOrderAllSnoc(nodes[1..]);
      assert nodes[1..][..|nodes[1..]| - 1] == nodes[..|nodes| - 1][1..];
    }
  }

  /**
   * The visit emits, for the nodes of the tree taken in pre-order, what each
   * named function or class declaration contributes: every declaration is
   * appended before anything found among its descendants.
   */
  lemma {:induction false} VisitIsPreOrder(node: Node, filePath: string)
    ensures Emitted(node, filePath) == OwnAll(PreOrder(node), filePath)
    decreases node, 1
  {
    VisitAllIsPreOrder(node.children, filePath);
    assert OwnAll(PreOrder(node), filePath) == Own(node, filePath) + OwnAll(PreOrderAll(node.children), filePath) by {
      assert PreOrder(node)[1..] == PreOrderAll(node.children);
    }
  }

  lemma {:induction false} VisitAllIsPreOrder(nodes: seq<Node>, filePath: string)
    ensures EmittedAll(nodes, filePath) == OwnAll(PreOrderAll(nodes), filePath)
    decreases nodes, 0
  {
    if |nodes| > 0 {
      var n := |nodes| - 1;
      VisitAllIsPreOrder(nodes[..n], filePath);
      VisitIsPreOrder(nodes[n], filePath);
      PreOrderAllSnoc(nodes);
      OwnAllAppend(PreOrderAll(nodes[..n]), PreOrder(nodes[n]), filePath);
    }
  }

  /** A node the visit emits an element for: a function or class declaration with a name. */
  predicate IsNamedDeclaration(node: Node)
  {
    (node.kind.FunctionDeclaration? || node.kind.ClassDeclaration?) && node.kind.name.Some?
  }

  function CountNamed(nodes: seq<Node>): nat
  {
    if |nodes| == 0 then 0 else (if IsNamedDeclaration(nodes[0]) then 1 else 0) + CountNamed(nodes[1..])
  }

  /** The names the declarations carry, in the order of `nodes`. */
  function DeclarationNames(nodes: seq<Node>): seq<string>
  {
    if |nodes| == 0 then []
    else (if IsNamedDeclaration(nodes[0]) then [nodes[0].kind.name.value] else []) + DeclarationNames(nodes[1..])
  }

  /**
   * One element per named declaration anywhere in the tree, carrying its name,
   * in pre-order; anonymous declarations are skipped.
   */
  lemma {:induction false} OwnAllNamesDeclarations(nodes: seq<Node>, filePath: string)
    ensures |OwnAll(nodes, filePath)| == CountNamed(nodes)
    ensures Names(OwnAll(nodes, filePath)) == DeclarationNames(nodes)
  {
    if |nodes| > 0 {
      OwnAllNamesDeclarations(nodes[1..], filePath);
      var own := Own(nodes[0], filePath);
      NamesAppend(own, OwnAll(nodes[1..], filePath));
      match nodes[0].kind
      case FunctionDeclaration(Some(name)) =>
        FunctionElementWellFormed(name, "Function " + name + " extracted from " + filePath, []);
        assert Names(own) == [name];
      case ClassDeclaration(Some(name)) =>
        assert Names(own) == [name];
      case _ =>
    }
  }

  lemma ComponentNamesAllDeclarations(filePath: string, sourceFile: Node)
    ensures |Component(filePath, sourceFile).children| == CountNamed(PreOrder(sourceFile))
    ensures Names(Component(filePath, sourceFile).children) == DeclarationNames(PreOrder(sourceFile))
  {
    VisitIsPreOrder(sourceFile, filePath);
    OwnAllNamesDeclarations(PreOrder(sourceFile), filePath);
  }

  /** Every emitted Function: method/path "N/A", the description naming the file, then an attribute-less Returns. */
  predicate IsTypeScriptFunction(e: Element, filePath: string)
  {
    && WellFormedFunction(e)
    && e.children[0].text == "Function " + NameOf(e) + " extracted from " + filePath
    && e.children[1] == Leaf("Returns", [])
  }

  /** Every emitted Type: kind "object", only Property children of type "unknown", required "true". */
  predicate IsTypeScriptType(e: Element)
  {
    && e.tag == "Type"
    && Attr(e, "kind") == Some("object")
    && forall p :: p in e.children ==>
         p.tag == "Property" && Attr(p, "type") == Some("unknown") && Attr(p, "required") == Some("true")
  }

  lemma {:induction false} PropertiesOfShape(members: seq<Node>)
    ensures forall p :: p in PropertiesOf(members) ==>
      p.tag == "Property" && Attr(p, "type") == Some("unknown") && Attr(p, "required") == Some("true")
  {
    if |members| > 0 {
      var n := |members| - 1;
      PropertiesOfShape(members[..n]);
      if members[n].kind.PropertyDeclaration? {
        var p := PropertyElement(members[n].kind.propertyName, "unknown");
        assert Lookup(p.attrs[1..], "type") == Some("unknown");
        assert Lookup(p.attrs[1..][1..], "required") == Some("true");
        assert Lookup(p.attrs[1..], "required") == Some("true");
      }
    }
  }

  /** The names of the property declarations among `members`, in member order. */
  function PropertyNames(members: seq<Node>): seq<string>
  {
    if |members| == 0 then []
    else (if members[0].kind.PropertyDeclaration? then [members[0].kind.propertyName] else []) + PropertyNames(members[1..])
  }

  lemma {:induction false} PropertiesOfNames(members: seq<Node>)
    ensures Names(PropertiesOf(members)) == PropertyNames(members)
  {
    if |members| > 0 {
      var n := |members| - 1;
      PropertiesOfNames(members[..n]);
      PropertyNamesSnoc(members);
      var last := if members[n].kind.PropertyDeclaration? then [PropertyElement(members[n].kind.propertyName, "unknown")] else [];
      NamesAppend(PropertiesOf(members[..n]), last);
    }
  }

  lemma {:induction false} PropertyNamesSnoc(members: seq<Node>)
    requires |members| > 0
    ensures PropertyNames(members) == PropertyNames(members[..|members| - 1])
      + (if members[|members| - 1].kind.PropertyDeclaration? then [members[|members| - 1].kind.propertyName] else [])
  {
    if |members| == 1 {
      assert members[..0] == [];
    } else {
      PropertyNamesSnoc(members[1..]);
      assert members[1..][..|members[1..]| - 1] == members[..|members| - 1][1..];
    }
  }

  lemma {:induction false} OwnAllWellFormed(nodes: seq<Node>, filePath: string)
    ensures forall e :: e in OwnAll(nodes, filePath) ==> IsTypeScriptFunction(e, filePath) || IsTypeScriptType(e)
  {
    if |nodes| > 0 {
      OwnAllWellFormed(nodes[1..], filePath);
      match nodes[0].kind
      case FunctionDeclaration(Some(name)) =>
        FunctionElementWellFormed(name, "Function " + name + " extracted from " + filePath, []);
        assert IsTypeScriptFunction(FunctionOf(name, filePath), filePath);
      case ClassDeclaration(Some(name)) =>
        PropertiesOfShape(nodes[0].children);
        var t := TypeElement(name, PropertiesOf(nodes[0].children));
        assert Lookup(t.attrs[1..], "kind") == Some("object");
        assert IsTypeScriptType(t);
      case _ =>
    }
  }

  lemma ComponentElementsWellFormed(filePath: string, sourceFile: Node)
    ensures forall e :: e in Component(filePath, sourceFile).children ==>
      IsTypeScriptFunction(e, filePath) || IsTypeScriptType(e)
  {
    VisitIsPreOrder(sourceFile, filePath);
    OwnAllWellFormed(PreOrder(sourceFile), filePath);
  }

  // ---------------------------------------------------------------------------
  // `main`: the recursive directory walk and the per-file loop.

  /** A directory entry as `fs.statSync` sees it. */
  datatype Entry = DirEntry(name: string, entries: seq<Entry>) | FileEntry(name: string)

  /** The command-line input as `fs.statSync` sees it; `Missing` makes `statSync` throw. */
  datatype Input = Missing | DirectoryInput(entries: seq<Entry>) | FileInput

  /** The `.ts` files `walk(dir)` pushes, in `readdirSync` order, descending into sub-directories first-come. */
  function WalkFiles(dir: string, entries: seq<Entry>): seq<string>
    decreases entries, 0
  {
    if |entries| == 0 then []
    else WalkFiles(dir, entries[..|entries| - 1]) + EntryFiles(dir, entries[|entries| - 1])
  }

  function EntryFiles(dir: string, entry: Entry): seq<string>
    decreases entry, 1
  {
    match entry
    case DirEntry(name, sub) => WalkFiles(JoinPath(dir, name), sub)
    case FileEntry(name) => if EndsWith(name, ".ts") then [JoinPath(dir, name)] else []
  }

  method Walk(dir: string, entries: seq<Entry>, files: Sink<string>)
    modifies files
    ensures files.items == old(files.items) + WalkFiles(dir, entries)
    decreases entries
  {
    var i := 0;
    while i < |entries|
      invariant 0 <= i <= |entries|
      invariant files.items == old(files.items) + WalkFiles(dir, entries[..i])
    {
      var entry := entries[i];
      var fullPath := JoinPath(dir, entry.name);
      match entry {
        case DirEntry(_, sub) =>
          Walk(fullPath, sub, files);
        case FileEntry(name) =>
          if EndsWith(name, ".ts") {
            files.Append(fullPath);
          }
      }
      assert entries[..i + 1][..i] == entries[..i];
      i := i + 1;
    }
    assert entries[..i] == entries;
  }

  /** The files `main` processes; `None` when `statSync` of the input throws. */
  function InputFiles(inputPath: string, input: Input): Option<seq<string>>
  {
    match input
    case Missing => None
    case DirectoryInput(entries) => Some(WalkFiles(inputPath, entries))
    case FileInput => Some(if EndsWith(inputPath, ".ts") then [inputPath] else [])
  }

  /** The output name: basename minus ".ts", plus ".xml". */
  function OutputName(file: string): string
  {
    NodeBasename(file, ".ts") + ".xml"
  }

  function OutputNames(files: seq<string>): (r: seq<string>)
    ensures |r| == |files| && forall i :: 0 <= i < |files| ==> r[i] == OutputName(files[i])
  {
    seq(|files|, i requires 0 <= i < |files| => OutputName(files[i]))
  }

  /** The document for each file: `None` when `readFileSync` throws. */
  function Results(files: seq<string>, sources: map<string, Node>): seq<Option<Element>>
  {
    Documents(files, sources, Domain, Component)
  }

  /** The first half of `main`: `statSync` of the input, then the walk or the single-file check. */
  method CollectInput(inputPath: string, input: Input) returns (files: Option<seq<string>>)
    ensures files == InputFiles(inputPath, input)
  {
    var list := new Sink<string>();
    match input {
      case Missing =>
        return None;
      case DirectoryInput(entries) =>
        Walk(inputPath, entries, list);
        assert list.items == WalkFiles(inputPath, entries);
      case FileInput =>
        if EndsWith(inputPath, ".ts") {
          list.Append(inputPath);
        }
        assert list.items == InputFiles(inputPath, input).value;
    }
    files := Some(list.items);
  }

  /** `main` (renamed `Run`). `None` when the input does not exist and `statSync` throws before anything is written. */
  method Run(inputPath: string, input: Input, sources: map<string, Node>) returns (outcome: Option<RunOutcome>)
    ensures InputFiles(inputPath, input).None? ==> outcome.None?
    ensures InputFiles(inputPath, input).Some? ==>
              outcome == Some(Batch(OutputNames(InputFiles(inputPath, input).value),
                                    Results(InputFiles(inputPath, input).value, sources)))
  {
    var found := CollectInput(inputPath, input);
    if found.None? {
      return None;
    }
    var files := found.value;
    var written := ExtractAll(files, sources);
    outcome := Some(written);
  }

  /** The `files.forEach` loop of `main`: each file extracted and written, until one cannot be read. */
  method ExtractAll(files: seq<string>, sources: map<string, Node>) returns (outcome: RunOutcome)
    ensures outcome == Batch(OutputNames(files), Results(files, sources))
  {
    ghost var names := OutputNames(files);
    ghost var results := Results(files, sources);
    var writes: seq<Write> := [];
    var i := 0;
    while i < |files|
      invariant 0 <= i <= |files|
      invariant Batch(names[..i], results[..i]) == RunOutcome(writes, false)
    {
      var file := files[i];
      BatchStep(names, results, i, writes);
      if file !in sources {
        return RunOutcome(writes, true);
      }
      var xml := ExtractFromFile(file, sources[file]);
      assert Write(names[i], results[i].value) == Write(OutputName(file), xml);
      writes := writes + [Write(OutputName(file), xml)];
      i := i + 1;
    }
    assert names[..i] == names && results[..i] == results;
    outcome := RunOutcome(writes, false);
  }

  /** A directory walk keeps exactly the ".ts" files found at any depth. */
  lemma {:induction false} WalkFilesAreTypeScript(dir: string, entries: seq<Entry>)
    ensures forall p :: p in WalkFiles(dir, entries) ==> EndsWith(p, ".ts")
    decreases entries, 0
  {
    if |entries| > 0 {
      var n := |entries| - 1;
      WalkFilesAreTypeScript(dir, entries[..n]);
      match entries[n]
      case DirEntry(name, sub) =>
        WalkFilesAreTypeScript(JoinPath(dir, name), sub);
      case FileEntry(name) =>
        if EndsWith(name, ".ts") {
          var p := JoinPath(dir, name);
          assert p[|p| - 3..] == name[|name| - 3..];
        }
    }
  }

  /** `entry`, listed in `dir`, is or holds at some depth a ".ts" file whose path is `p`. */
  ghost predicate TsFileIn(dir: string, entry: Entry, p: string)
    decreases entry
  {
    match entry
    case FileEntry(name) => EndsWith(name, ".ts") && p == JoinPath(dir, name)
    case DirEntry(name, sub) => exists k :: 0 <= k < |sub| && TsFileIn(JoinPath(dir, name), sub[k], p)
  }

  /** A directory walk collects a path exactly when some entry holds a ".ts" file at that path, at any depth. */
  lemma {:induction false} WalkFilesMembership(dir: string, entries: seq<Entry>, p: string)
    ensures p in WalkFiles(dir, entries) <==> exists k :: 0 <= k < |entries| && TsFileIn(dir, entries[k], p)
    decreases entries, 0
  {
    if |entries| > 0 {
      var n := |entries| - 1;
      var init := entries[..n];
      WalkFilesMembership(dir, init, p);
      EntryFilesMembership(dir, entries[n], p);
      assert WalkFiles(dir, entries) == WalkFiles(dir, init) + EntryFiles(dir, entries[n]);
      if p in WalkFiles(dir, init) {
        var k :| 0 <= k < |init| && TsFileIn(dir, init[k], p);
        assert entries[k] == init[k];
      } else if p in EntryFiles(dir, entries[n]) {
        assert TsFileIn(dir, entries[n], p);
      } else {
        forall k | 0 <= k < |entries|
          ensures !TsFileIn(dir, entries[k], p)
        {
          if k < n {
            assert entries[k] == init[k];
          }
        }
      }
    }
  }

  lemma {:induction false} EntryFilesMembership(dir: string, entry: Entry, p: string)
    ensures p in EntryFiles(dir, entry) <==> TsFileIn(dir, entry, p)
    decreases entry, 1
  {
    match entry
    case DirEntry(name, sub) =>
      WalkFilesMembership(JoinPath(dir, name), sub, p);
    case FileEntry(name) =>
  }

  /**
   * A walked file `dir/stem.ts` gets the component name `stem` and is
   * written to `stem.xml`; a file without the ".ts" ending keeps its whole
   * name.
   */
  lemma WalkedFileNaming(dir: string, stem: string, sourceFile: Node)
    requires stem != "" && '/' !in stem
    ensures Attr(Component(JoinPath(dir, stem + ".ts"), sourceFile), "name") == Some(stem)
    ensures OutputName(JoinPath(dir, stem + ".ts")) == stem + ".xml"
    ensures !EndsWith(stem, ".ts") ==> OutputName(JoinPath(dir, stem)) == stem + ".xml"
  {
    NodeBasenameStripsExtension(dir, stem, ".ts");
    if !EndsWith(stem, ".ts") {
      NodeBasenameKeepsOtherNames(dir, stem, ".ts");
    }
    ComponentNaming(JoinPath(dir, stem + ".ts"), sourceFile);
  }

  /** A single file is taken only when its name ends in ".ts"; otherwise nothing is written. */
  lemma SingleFileNeedsTsSuffix(inputPath: string, sources: map<string, Node>)
    ensures !EndsWith(inputPath, ".ts") ==> InputFiles(inputPath, FileInput) == Some([])
    ensures EndsWith(inputPath, ".ts") ==> InputFiles(inputPath, FileInput) == Some([inputPath])
  {
  }

  /** The component is named by the basename without ".ts" and described as a TypeScript module. */
  lemma ComponentNaming(filePath: string, sourceFile: Node)
    ensures Attr(Component(filePath, sourceFile), "name") == Some(NodeBasename(filePath, ".ts"))
    ensures Attr(Component(filePath, sourceFile), "description") == Some("Extracted from TypeScript module")
    ensures Attr(Document(Domain, Component(filePath, sourceFile)), "domain") == Some("typescript")
  {
    var c := Component(filePath, sourceFile);
    assert Lookup(c.attrs[1..], "description") == Some(ComponentDescription);
  }
}
