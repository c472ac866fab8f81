/**
 * The `main` shared by the Python, Dart and Kotlin extractors: the input is a
 * directory (walked with `os.walk`, keeping names with the language's
 * extension) or a single file (kept whatever its name), and every kept file
 * is extracted in turn and written to `stem + ".xml"` in the current
 * directory. An exception while reading or parsing a file ends the run.
 */
module SourceDiscovery {
  import opened Wrappers
  import opened Text
  import opened Schema

  /** One `(root, dirs, files)` triple produced by `os.walk`, in walk order. */
  datatype WalkStep = WalkStep(root: string, files: seq<string>)

  /** The command-line input: a directory with its walk, or anything else. */
  datatype Target = Directory(walk: seq<WalkStep>) | File(path: string)

  /** One file written by an extractor: its name and the document in it. */
  datatype Write = Write(name: string, document: Element)

  /** The files written, and whether an exception ended the run early. */
  datatype RunOutcome = RunOutcome(writes: seq<Write>, aborted: bool)

  /** The paths one walk step contributes: `Path(root) / file` for its names ending in `ext`. */
  function StepSources(step: WalkStep, ext: string): (r: seq<string>)
    ensures forall p :: p in r <==> exists f :: f in step.files && EndsWith(f, ext) && p == JoinPath(step.root, f)
  {
    NamesWithExtension(step.root, step.files, ext)
  }

  function NamesWithExtension(root: string, files: seq<string>, ext: string): (r: seq<string>)
    ensures forall p :: p in r <==> exists f :: f in files && EndsWith(f, ext) && p == JoinPath(root, f)
  {
    if |files| == 0 then []
    else
      var n := |files| - 1;
      var before := NamesWithExtension(root, files[..n], ext);
      assert forall g :: g in files <==> g == files[n] || g in files[..n];
      before + (if EndsWith(files[n], ext) then [JoinPath(root, files[n])] else [])
  }

  /** The list of files `main` processes, in walk order. */
  function Sources(target: Target, ext: string): seq<string>
  {
    match target
    case File(p) => [p]
    case Directory(walk) => WalkSources(walk, ext)
  }

  function WalkSources(walk: seq<WalkStep>, ext: string): seq<string>
  {
    if |walk| == 0 then [] else WalkSources(walk[..|walk| - 1], ext) + StepSources(walk[|walk| - 1], ext)
  }

  /** The `main` loops that build the file list: nested loops over the walk, appending as they go. */
  method CollectSources(target: Target, ext: string) returns (files: seq<string>)
    ensures files == Sources(target, ext)
  {
    match target
    case File(p) =>
      files := [p];
    case Directory(walk) =>
      files := [];
      var k := 0;
      while k < |walk|
        invariant 0 <= k <= |walk|
        invariant files == WalkSources(walk[..k], ext)
      {
        var step := walk[k];
        var before := files;
        var j := 0;
        while j < |step.files|
          invariant 0 <= j <= |step.files|
          invariant files == before + NamesWithExtension(step.root, step.files[..j], ext)
        {
          var file := step.files[j];
          assert step.files[..j + 1][..j] == step.files[..j];
          if EndsWith(file, ext) {
            files := files + [JoinPath(step.root, file)];
          }
          j := j + 1;
        }
        assert step.files[..j] == step.files;
        assert walk[..k + 1][..k] == walk[..k];
        k := k + 1;
      }
      assert walk[..k] == walk;
  }

  /** A directory input keeps exactly the walked names that end in `ext`. */
  lemma {:induction false} WalkSourcesMembership(walk: seq<WalkStep>, ext: string, p: string)
    ensures p in WalkSources(walk, ext) <==>
      exists k, f :: 0 <= k < |walk| && f in walk[k].files && EndsWith(f, ext) && p == JoinPath(walk[k].root, f)
  {
    if |walk| > 0 {
      var init := walk[..|walk| - 1];
      WalkSourcesMembership(init, ext, p);
      if p in WalkSources(walk, ext) {
        if p !in WalkSources(init, ext) {
          var f :| f in walk[|walk| - 1].files && EndsWith(f, ext) && p == JoinPath(walk[|walk| - 1].root, f);
          assert 0 <= |walk| - 1 < |walk|;
        } else {
          var k, f :| 0 <= k < |init| && f in init[k].files && EndsWith(f, ext) && p == JoinPath(init[k].root, f);
          assert walk[k] == init[k];
        }
      } else {
        forall k, f | 0 <= k < |walk| && f in walk[k].files && EndsWith(f, ext)
          ensures p != JoinPath(walk[k].root, f)
        {
          if k < |init| {
            assert walk[k] == init[k];
          }
        }
      }
    }
  }

  /** A single-file input is processed whatever its extension. */
  lemma FileTargetKeptWhateverItsName(p: string, ext: string)
    ensures Sources(File(p), ext) == [p]
  {
  }

  /** The `write_xml` wrapping: the component as the only child of an `Application`. */
  function Document(domain: string, component: Element): (d: Element)
    ensures d.tag == "Application" && d.children == [component]
    ensures Attr(d, "name") == Some("auto_extracted") && Attr(d, "domain") == Some(domain)
  {
    var d := ApplicationElement("auto_extracted", domain, [component]);
    assert Lookup(d.attrs[1..], "domain") == Some(domain);
    d
  }
  /**
   * What each file of a run yields: its component, extracted by the script's
   * extractor and wrapped by `write_xml`, when the file can be read and
   * parsed; `None`, which stops the run there, when it cannot.
   */
  function Documents<S>(files: seq<string>, inputs: map<string, S>, domain: string,
                        extract: (string, S) -> Element): (r: seq<Option<Element>>)
    ensures |r| == |files|
    ensures forall i :: 0 <= i < |files| ==>
      r[i] == if files[i] in inputs then Some(Document(domain, extract(files[i], inputs[files[i]]))) else None
  {
    seq(|files|, i requires 0 <= i < |files| =>
      if files[i] in inputs then Some(Document(domain, extract(files[i], inputs[files[i]]))) else None)
  }


  /**
   * The effect of the per-file loop of an extractor's `main`: file `i` is
   * written to `names[i]` with the document `documents[i]`, which is `None`
   * when reading or parsing the file raises. Files are handled in order and
   * the first failure ends the run.
   */
  function Batch(names: seq<string>, documents: seq<Option<Element>>): RunOutcome
    requires |documents| == |names|
  {
    if |names| == 0 then RunOutcome([], false)
    else
      var n := |names| - 1;
      var before := Batch(names[..n], documents[..n]);
      if before.aborted then before
      else match documents[n]
        case None => RunOutcome(before.writes, true)
        case Some(d) => RunOutcome(before.writes + [Write(names[n], d)], false)
  }

  /** Once the run has aborted, the remaining files change nothing. */
  lemma {:induction false} BatchAbortedStays(names: seq<string>, documents: seq<Option<Element>>, k: nat)
    requires |documents| == |names| && k <= |names|
    requires Batch(names[..k], documents[..k]).aborted
    ensures Batch(names, documents) == Batch(names[..k], documents[..k])
  {
    if k < |names| {
      var n := |names| - 1;
      assert names[..n][..k] == names[..k];
      assert documents[..n][..k] == documents[..k];
      BatchAbortedStays(names[..n], documents[..n], k);
    } else {
      assert names[..k] == names;
      assert documents[..k] == documents;
    }
  }

  /** One iteration of the per-file loop of `main`. */
  lemma BatchStep(names: seq<string>, documents: seq<Option<Element>>, i: nat, writes: seq<Write>)
    requires |documents| == |names| && i < |names|
    requires Batch(names[..i], documents[..i]) == RunOutcome(writes, false)
    ensures documents[i].Some? ==>
              Batch(names[..i + 1], documents[..i + 1]) == RunOutcome(writes + [Write(names[i], documents[i].value)], false)
    ensures documents[i].None? ==> Batch(names, documents) == RunOutcome(writes, true)
  {
    assert names[..i + 1][..i] == names[..i];
    assert documents[..i + 1][..i] == documents[..i];
    if documents[i].None? {
      BatchAbortedStays(names, documents, i + 1);
    }
  }

  /** Without a failure, the run writes one file per input, in order. */
  lemma {:induction false} BatchWritesEveryFile(names: seq<string>, documents: seq<Option<Element>>)
    requires |documents| == |names|
    requires forall i :: 0 <= i < |documents| ==> documents[i].Some?
    ensures !Batch(names, documents).aborted
    ensures |Batch(names, documents).writes| == |names|
    ensures forall i :: 0 <= i < |names| ==> Batch(names, documents).writes[i] == Write(names[i], documents[i].value)
  {
    if |names| > 0 {
      var n := |names| - 1;
      var ns, ds := names[..n], documents[..n];
      assert forall i :: 0 <= i < n ==> ds[i] == documents[i];
      BatchWritesEveryFile(ns, ds);
      BatchStep(names, documents, n, Batch(ns, ds).writes);
      assert names[..n + 1] == names && documents[..n + 1] == documents;
      forall i | 0 <= i < n
        ensures Batch(names, documents).writes[i] == Write(names[i], documents[i].value)
      {
        assert Batch(names, documents).writes[i] == Batch(ns, ds).writes[i];
        assert ns[i] == names[i];
      }
    }
  }

  /** A failure stops the run: nothing from the first failing file on is written. */
  lemma {:induction false} BatchStopsAtFailure(names: seq<string>, documents: seq<Option<Element>>, k: nat)
    requires |documents| == |names|
    requires k < |names| && documents[k].None?
    ensures Batch(names, documents).aborted
    ensures |Batch(names, documents).writes| <= k
  {
    var n := |names| - 1;
    var ns, ds := names[..n], documents[..n];
    var before := Batch(ns, ds);
    if k < n {
      assert ds[k] == documents[k];
      BatchStopsAtFailure(ns, ds, k);
      assert before.aborted;
    } else {
      BatchLength(ns, ds);
      if !before.aborted {
        assert Batch(names, documents) == RunOutcome(before.writes, true);
      }
    }
  }

  lemma {:induction false} BatchLength(names: seq<string>, documents: seq<Option<Element>>)
    requires |documents| == |names|
    ensures |Batch(names, documents).writes| <= |names|
  {
    if |names| > 0 {
      var n := |names| - 1;
      BatchLength(names[..n], documents[..n]);
    }
  }

  /** The output names of the Python, Dart and Kotlin extractors: `stem + ".xml"`. */
  function OutputNames(files: seq<string>): (r: seq<string>)
    ensures |r| == |files| && forall i :: 0 <= i < |files| ==> r[i] == XmlOutputName(files[i])
  {
    seq(|files|, i requires 0 <= i < |files| => XmlOutputName(files[i]))
  }

  /** The current directory after a sequence of writes: a later write replaces an earlier one of the same name. */
  function Disk(writes: seq<Write>): map<string, Element>
  {
    if |writes| == 0 then map[]
    else Disk(writes[..|writes| - 1])[writes[|writes| - 1].name := writes[|writes| - 1].document]
  }

  /** Last write wins: the file named like `writes[k]`, and like no later write, holds `writes[k]`'s document. */
  lemma {:induction false} DiskLastWriteWins(writes: seq<Write>, k: nat)
    requires k < |writes|
    requires forall j :: k < j < |writes| ==> writes[j].name != writes[k].name
    ensures writes[k].name in Disk(writes) && Disk(writes)[writes[k].name] == writes[k].document
  {
    var n := |writes| - 1;
    if k < n {
      DiskLastWriteWins(writes[..n], k);
    }
  }

  /** Two files with the same stem map to the same output name, whatever directory they are in. */
  lemma SameStemSameOutput(dir1: string, dir2: string, name: string)
    requires '/' !in name
    ensures XmlOutputName(JoinPath(dir1, name)) == XmlOutputName(JoinPath(dir2, name)) == Stem(name) + ".xml"
  {
    PathNameOfJoin(dir1, name);
    PathNameOfJoin(dir2, name);
  }
}
