/**
 * `scripts/build_xml_indexes.py`: for every group under `xml_groups` in the
 * plan, the `.xml` files found under the group's folders are merged into one
 * `Application` holding the `Component` children of their roots, written to
 * `{group}_index.xml` in the structure directory. The filesystem and the
 * YAML loader are not modelled: the folders' walks, the parsed roots and the
 * plan are given as data.
 */
module IndexBuilder {
  import opened Wrappers
  import opened Text
  import opened Schema
  import opened SourceDiscovery

  const StructureDir := "architectum/structure"

  /**
   * The structure directory as the script sees it: for each folder name that
   * exists under it, the `os.walk` of that folder (in walk order, which is
   * not sorted), and for each path `ET.parse` can read, its root element.
   */
  datatype Structure = Structure(walks: map<string, seq<WalkStep>>, roots: map<string, Element>)

  /** The paths `collect_files` returns: the ".xml" names of each existing folder's walk, folder by folder. */
  function CollectedFiles(s: Structure, folders: seq<string>): seq<string>
  {
    if |folders| == 0 then []
    else
      var n := |folders| - 1;
      CollectedFiles(s, folders[..n])
      + (if folders[n] in s.walks then WalkSources(s.walks[folders[n]], ".xml") else [])
  }

  /** `collect_files`: nested loops over the folders, their walks and the names in each step. */
  method CollectFiles(s: Structure, folders: seq<string>) returns (xmlFiles: seq<string>)
    ensures xmlFiles == CollectedFiles(s, folders)
  {
    xmlFiles := [];
    for i := 0 to |folders|
      invariant xmlFiles == CollectedFiles(s, folders[..i])
    {
      var folder := folders[i];
      assert folders[..i + 1][..i] == folders[..i];
      if folder in s.walks {
        var found := CollectSources(Directory(s.walks[folder]), ".xml");
        xmlFiles := xmlFiles + found;
      }
    }
    assert folders[..|folders|] == folders;
  }

  /** The components merged from `files`: `None` when some file cannot be parsed. */
  function MergedComponents(s: Structure, files: seq<string>): Option<seq<Element>>
  {
    if |files| == 0 then Some([])
    else
      var n := |files| - 1;
      match MergedComponents(s, files[..n])
      case None => None
      case Some(before) =>
        if files[n] in s.roots then Some(before + Tagged(s.roots[files[n]].children, "Component")) else None
  }

  /** The merged root: `Application name="index_{group}" domain="composite"`. */
  function IndexDocument(group: string, components: seq<Element>): Element
  {
    ApplicationElement("index_" + group, "composite", components)
  }

  function OutputPath(group: string): string
  {
    JoinPath(StructureDir, group + "_index.xml")
  }

  /** `merge_index`: `None` when `ET.parse` raises on one of the files. */
  method MergeIndex(s: Structure, group: string, xmlFiles: seq<string>) returns (document: Option<Element>)
    ensures MergedComponents(s, xmlFiles).None? ==> document.None?
    ensures MergedComponents(s, xmlFiles).Some? ==>
      document == Some(IndexDocument(group, MergedComponents(s, xmlFiles).value))
  {
    var components: seq<Element> := [];
    for i := 0 to |xmlFiles|
      invariant MergedComponents(s, xmlFiles[..i]) == Some(components)
    {
      var file := xmlFiles[i];
      assert xmlFiles[..i + 1][..i] == xmlFiles[..i];
      if file !in s.roots {
        NoRootNoMerge(s, xmlFiles, i);
        return None;
      }
      var rootChildren := s.roots[file].children;
      ghost var before := components;
      for k := 0 to |rootChildren|
        invariant components == before + Tagged(rootChildren[..k], "Component")
      {
        var child := rootChildren[k];
        TaggedAppend(rootChildren[..k], [child], "Component");
        assert rootChildren[..k + 1] == rootChildren[..k] + [child];
        if child.tag == "Component" {
          components := components + [child];
        }
      }
      assert rootChildren[..|rootChildren|] == rootChildren;
      assert MergedComponents(s, xmlFiles[..i + 1]) == Some(before + Tagged(rootChildren, "Component"));
    }
    assert xmlFiles[..|xmlFiles|] == xmlFiles;
    document := Some(IndexDocument(group, components));
  }

  /** A file that cannot be parsed makes every longer merge fail. */
  lemma {:induction false} NoRootNoMerge(s: Structure, files: seq<string>, i: nat)
    requires i < |files| && files[i] !in s.roots
    ensures MergedComponents(s, files).None?
  {
    var n := |files| - 1;
    if i < n {
      assert files[..n][i] == files[i];
      NoRootNoMerge(s, files[..n], i);
    }
  }

  /** The xml_groups of the plan, in plan order; `None` when the plan has no `xml_groups` key. */
  type Plan = Option<seq<(string, seq<string>)>>

  function Groups(plan: Plan): seq<(string, seq<string>)>
  {
    match plan
    case None => []
    case Some(groups) => groups
  }

  /** The output path of every group, in plan order. */
  function IndexNames(plan: Plan): (r: seq<string>)
    ensures |r| == |Groups(plan)|
    ensures forall i :: 0 <= i < |r| ==> r[i] == OutputPath(Groups(plan)[i].0)
  {
    seq(|Groups(plan)|, i requires 0 <= i < |Groups(plan)| => OutputPath(Groups(plan)[i].0))
  }

  /** The document of every group, in plan order: `None` where merging raises. */
  function IndexDocuments(s: Structure, plan: Plan): (r: seq<Option<Element>>)
    ensures |r| == |Groups(plan)|
    ensures forall i :: 0 <= i < |r| ==> r[i] == GroupDocument(s, Groups(plan)[i])
  {
    seq(|Groups(plan)|, i requires 0 <= i < |Groups(plan)| => GroupDocument(s, Groups(plan)[i]))
  }

  function GroupDocument(s: Structure, group: (string, seq<string>)): Option<Element>
  {
    match MergedComponents(s, CollectedFiles(s, group.1))
    case None => None
    case Some(components) => Some(IndexDocument(group.0, components))
  }

  /** `main` (renamed `Run`): one merge and one write per group, in plan order; an exception ends the run. */
  method Run(s: Structure, plan: Plan) returns (outcome: RunOutcome)
    ensures outcome == Batch(IndexNames(plan), IndexDocuments(s, plan))
  {
    var groups := Groups(plan);
    ghost var names := IndexNames(plan);
    ghost var documents := IndexDocuments(s, plan);
    var writes: seq<Write> := [];
    var i := 0;
    while i < |groups|
      invariant 0 <= i <= |groups|
      invariant Batch(names[..i], documents[..i]) == RunOutcome(writes, false)
    {
      var (group, folders) := groups[i];
      BatchStep(names, documents, i, writes);
      var files := CollectFiles(s, folders);
      var document := MergeIndex(s, group, files);
      if document.None? {
        return RunOutcome(writes, true);
      }
      writes := writes + [Write(OutputPath(group), document.value)];
      i := i + 1;
    }
    assert names[..i] == names && documents[..i] == documents;
    outcome := RunOutcome(writes, false);
  }

  // ---------------------------------------------------------------------------
  // Properties.

  /** `folder` exists under the structure directory and its walk turns up `p`. */
  predicate FolderHolds(s: Structure, folder: string, p: string)
  {
    folder in s.walks && p in WalkSources(s.walks[folder], ".xml")
  }

  /**
   * `collect_files` keeps exactly the ".xml" names of the walks of the
   * listed folders that exist; a missing folder contributes nothing.
   */
  lemma {:induction false} CollectedFilesMembership(s: Structure, folders: seq<string>, p: string)
    ensures p in CollectedFiles(s, folders) <==> exists i :: 0 <= i < |folders| && FolderHolds(s, folders[i], p)
  {
    if |folders| > 0 {
      var n := |folders| - 1;
      var init := folders[..n];
      CollectedFilesMembership(s, init, p);
      assert p in CollectedFiles(s, folders) <==> p in CollectedFiles(s, init) || FolderHolds(s, folders[n], p);
      if p in CollectedFiles(s, init) {
        var i :| 0 <= i < n && FolderHolds(s, init[i], p);
        assert folders[i] == init[i];
      }
      if exists i :: 0 <= i < |folders| && FolderHolds(s, folders[i], p) {
        var i :| 0 <= i < |folders| && FolderHolds(s, folders[i], p);
        if i < n {
          assert init[i] == folders[i];
        }
      }
    }
  }

  /** Every collected path ends in ".xml". */
  lemma CollectedFilesAreXml(s: Structure, folders: seq<string>, p: string)
    requires p in CollectedFiles(s, folders)
    ensures EndsWith(p, ".xml")
  {
    CollectedFilesMembership(s, folders, p);
    var i :| 0 <= i < |folders| && FolderHolds(s, folders[i], p);
    WalkSourcesMembership(s.walks[folders[i]], ".xml", p);
    var k, f :| 0 <= k < |s.walks[folders[i]]| && f in s.walks[folders[i]][k].files && EndsWith(f, ".xml")
                && p == JoinPath(s.walks[folders[i]][k].root, f);
    var root := s.walks[folders[i]][k].root;
    assert p[|p| - 4..] == f[|f| - 4..];
  }

  /** The direct `Component` children of each file's root, in file order. */
  function FileComponents(s: Structure, files: seq<string>): (r: seq<seq<Element>>)
    requires forall f :: f in files ==> f in s.roots
    ensures |r| == |files| && forall i :: 0 <= i < |files| ==> r[i] == Tagged(s.roots[files[i]].children, "Component")
  {
    seq(|files|, i requires 0 <= i < |files| => Tagged(s.roots[files[i]].children, "Component"))
  }

  function SumLengths(xss: seq<seq<Element>>): nat
  {
    if |xss| == 0 then 0 else SumLengths(xss[..|xss| - 1]) + |xss[|xss| - 1]|
  }

  /**
   * When every file parses, the index holds the concatenation, in file
   * order, of each root's direct Component children, and their number is the
   * sum of the per-file counts.
   */
  lemma {:induction false} MergedIsConcatenation(s: Structure, files: seq<string>)
    requires forall f :: f in files ==> f in s.roots
    ensures MergedComponents(s, files) == Some(Flatten(FileComponents(s, files)))
    ensures |MergedComponents(s, files).value| == SumLengths(FileComponents(s, files))
  {
    if |files| > 0 {
      var n := |files| - 1;
      MergedIsConcatenation(s, files[..n]);
      var last := Tagged(s.roots[files[n]].children, "Component");
      assert files[n] in files;
      assert MergedComponents(s, files) == Some(Flatten(FileComponents(s, files[..n])) + last);
      assert FileComponents(s, files) == FileComponents(s, files[..n]) + [last];
      FlattenAppend(FileComponents(s, files[..n]), [last]);
      assert [last][1..] == [];
      assert Flatten([last]) == last;
      assert Flatten(FileComponents(s, files)) == Flatten(FileComponents(s, files[..n])) + last;
      FlattenLength(FileComponents(s, files[..n]));
      assert FileComponents(s, files)[..n] == FileComponents(s, files[..n]);
    } else {
      assert FileComponents(s, files) == [];
    }
  }

  lemma {:induction false} FlattenLength(xss: seq<seq<Element>>)
    ensures |Flatten(xss)| == SumLengths(xss)
  {
    if |xss| > 0 {
      var n := |xss| - 1;
      FlattenLength(xss[..n]);
      assert xss == xss[..n] + [xss[n]];
      FlattenAppend(xss[..n], [xss[n]]);
      assert Flatten([xss[n]]) == xss[n] + Flatten([xss[n]][1..]);
    }
  }

  /** Only direct Component children of a file's root reach the index: other children and deeper Components are dropped. */
  lemma {:induction false} MergedComeFromRoots(s: Structure, files: seq<string>, x: Element)
    requires MergedComponents(s, files).Some? && x in MergedComponents(s, files).value
    ensures x.tag == "Component"
    ensures exists f :: f in files && f in s.roots && x in s.roots[f].children
  {
    var n := |files| - 1;
    var before := MergedComponents(s, files[..n]).value;
    var last := Tagged(s.roots[files[n]].children, "Component");
    if x in before {
      MergedComeFromRoots(s, files[..n], x);
      var f :| f in files[..n] && f in s.roots && x in s.roots[f].children;
      assert f in files;
    } else {
      TaggedMembership(s.roots[files[n]].children, "Component", x);
      assert files[n] in files;
    }
  }

  /** A group whose folders hold no ".xml" file still gets an index: an empty Application. */
  lemma EmptyGroupGivesEmptyIndex(s: Structure, group: string, folders: seq<string>)
    requires CollectedFiles(s, folders) == []
    ensures GroupDocument(s, (group, folders)) == Some(IndexDocument(group, []))
    ensures Attr(IndexDocument(group, []), "name") == Some("index_" + group)
    ensures Attr(IndexDocument(group, []), "domain") == Some("composite")
    ensures IndexDocument(group, []).children == []
  {
    var d := IndexDocument(group, []);
    assert Lookup(d.attrs[1..], "domain") == Some("composite");
  }

  /** Without an `xml_groups` key nothing is written. */
  lemma NoGroupsNoWrites(s: Structure)
    ensures Batch(IndexNames(None), IndexDocuments(s, None)) == RunOutcome([], false)
  {
  }

  /** When every file parses, every group is written once, to `{group}_index.xml`, in plan order. */
  lemma EveryGroupWritten(s: Structure, plan: Plan)
    requires forall i :: 0 <= i < |Groups(plan)| ==> forall f :: f in CollectedFiles(s, Groups(plan)[i].1) ==> f in s.roots
    ensures !Batch(IndexNames(plan), IndexDocuments(s, plan)).aborted
    ensures |Batch(IndexNames(plan), IndexDocuments(s, plan)).writes| == |Groups(plan)|
    ensures forall i :: 0 <= i < |Groups(plan)| ==>
      && Batch(IndexNames(plan), IndexDocuments(s, plan)).writes[i].name == OutputPath(Groups(plan)[i].0)
      && Attr(Batch(IndexNames(plan), IndexDocuments(s, plan)).writes[i].document, "name") == Some("index_" + Groups(plan)[i].0)
  {
    var names := IndexNames(plan);
    var documents := IndexDocuments(s, plan);
    forall i | 0 <= i < |documents|
      ensures documents[i].Some?
    {
      MergedIsConcatenation(s, CollectedFiles(s, Groups(plan)[i].1));
    }
    BatchWritesEveryFile(names, documents);
  }
}
