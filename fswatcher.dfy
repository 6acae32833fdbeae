/** Template files (`*.md.erb`): their watched/unwatched state, the derived output location, the
    compile-and-write step, and the registry that tracks them. */
module FsWatcher {
  import opened Wrappers
  import opened Seqs
  import opened Strings
  import opened Preprocessor

  const TemplateSuffix: string := ".md.erb"
  const OutputSuffix: string := ".md"

  /** A workspace location. Two locations are the same only when they are the same object (`===`);
      their paths are compared as strings where the source compares `.path`. */
  class Uri {
    const path: string

    constructor (path: string)
      ensures this.path == path
    {
      this.path := path;
    }
  }

  /** The tree-item context of a file: a group heading, a watched file or an unwatched file. */
  datatype ErbFileContext = Title | ErbWatched | ErbUnwatched

  /** The observable, changeable part of a template file. */
  datatype ErbState = ErbState(watched: bool, context: ErbFileContext, mdPath: Option<string>)

  /** The state of a file just discovered in the workspace. */
  const Discovered: ErbState := ErbState(false, ErbUnwatched, None)

  /** The state after `watch`: watched, shown as watched, the cached output location kept. */
  function WatchedState(s: ErbState): (r: ErbState)
    ensures r.watched && r.context == ErbWatched && r.mdPath == s.mdPath
  {
    s.(watched := true, context := ErbWatched)
  }

  /** The state after `unwatch`: unwatched, shown as unwatched, the cached output location kept. */
  function UnwatchedState(s: ErbState): (r: ErbState)
    ensures !r.watched && r.context == ErbUnwatched && r.mdPath == s.mdPath
  {
    s.(watched := false, context := ErbUnwatched)
  }

  /** Watching and then unwatching a file that is unwatched brings back exactly its earlier state,
      a freshly discovered file's in particular. */
  lemma WatchUnwatchRestores(s: ErbState)
    requires !s.watched && s.context == ErbUnwatched
    ensures UnwatchedState(WatchedState(s)) == s
    ensures UnwatchedState(WatchedState(Discovered)) == Discovered
  {
  }

  /** Both transitions are idempotent, and the later of two decides the state. */
  lemma TransitionsIdempotent(s: ErbState)
    ensures WatchedState(WatchedState(s)) == WatchedState(s)
    ensures UnwatchedState(UnwatchedState(s)) == UnwatchedState(s)
    ensures WatchedState(UnwatchedState(s)) == WatchedState(s)
    ensures UnwatchedState(WatchedState(s)) == UnwatchedState(s)
  {
  }

  /** The output location of a template: the first `.md.erb` in its path becomes `.md`
      (`path.replace('.md.erb', '.md')`, which inserts `.md` literally). */
  function OutputPath(p: string): (r: string)
    ensures IndexOf(p, TemplateSuffix).None? ==> r == p
    ensures IndexOf(p, TemplateSuffix).Some? ==>
      var i := IndexOf(p, TemplateSuffix).value;
      r == p[..i] + OutputSuffix + p[i + |TemplateSuffix|..]
  {
    ReplaceFirstLiteral(p, TemplateSuffix, OutputSuffix);
    Replace(p, TemplateSuffix, OutputSuffix)
  }

  /** Where `stem` holds no `.md.erb`, the suffix right after it is the first occurrence in the
      path: `.md.erb` cannot start inside `stem` and end inside the suffix, since no proper tail of
      `.md.erb` is also its head. */
  lemma {:induction false} SuffixFirstAfterStem(stem: string, rest: string)
    requires IndexOf(stem, TemplateSuffix).None?
    ensures IndexOf(stem + TemplateSuffix + rest, TemplateSuffix) == Some(|stem|)
  {
    var p := stem + TemplateSuffix + rest;
    var n := |TemplateSuffix|;
    assert p[|stem|..|stem| + n] == TemplateSuffix;
    assert MatchAt(p, TemplateSuffix, |stem|);
    forall i: nat | i < |stem| ensures !MatchAt(p, TemplateSuffix, i) {
      if i + n <= |stem| {
        assert p[i..i + n] == stem[i..i + n];
        assert !MatchAt(stem, TemplateSuffix, i);
      } else if i + n <= |p| {
        var d := |stem| - i;
        assert p[i..i + n][d] == p[|stem|] == '.';
        if d == 3 {
          assert p[i..i + n][4] == p[|stem| + 1] == 'm';
        } else {
          assert TemplateSuffix[d] != '.';
        }
      }
    }
  }

  /** The output location of `stem.md.erb` followed by anything: only that first suffix becomes
      `.md`, so `a.md.erb/b.md.erb` maps to `a.md/b.md.erb`. */
  lemma OutputPathFirstSuffix(stem: string, rest: string)
    requires IndexOf(stem, TemplateSuffix).None?
    ensures OutputPath(stem + TemplateSuffix + rest) == stem + OutputSuffix + rest
  {
    var p := stem + TemplateSuffix + rest;
    SuffixFirstAfterStem(stem, rest);
    assert p[..|stem|] == stem;
    assert p[|stem| + |TemplateSuffix|..] == rest;
  }

  /** A template path `stem.md.erb` whose stem holds no `.md.erb` maps to `stem.md`. */
  lemma OutputPathOfTemplate(stem: string)
    requires IndexOf(stem, TemplateSuffix).None?
    ensures OutputPath(stem + TemplateSuffix) == stem + OutputSuffix
  {
    OutputPathFirstSuffix(stem, "");
    assert stem + TemplateSuffix + "" == stem + TemplateSuffix;
    assert stem + OutputSuffix + "" == stem + OutputSuffix;
  }

  /** A directory named like a template keeps the file's own suffix. */
  lemma OutputPathNestedExample()
    ensures OutputPath("a.md.erb" + "/b.md.erb") == "a.md" + "/b.md.erb"
  {
    assert IndexOf("a", TemplateSuffix).None?;
    OutputPathFirstSuffix("a", "/b.md.erb");
    assert "a" + TemplateSuffix == "a.md.erb";
    assert "a" + OutputSuffix == "a.md";
  }

  /** A file write the model hands to the file system: the whole new content of one file. */
  datatype Write = Write(path: string, content: string)

  /** `ErbFile`: a template file, or (with no location) a heading of the watched/unwatched tree. */
  class ErbFile {
    const uri: Uri?
    const caption: string
    var watched: bool
    var context: ErbFileContext
    var mdPath: Option<string>

    /** A heading is labelled `WATCHED` or `UNWATCHED` after the flag and has the title context; a
        file is labelled with its base name and starts as shown unwatched, whatever the flag. */
    constructor (uri: Uri?, watched: bool, mdPath: Option<string>)
      ensures this.uri == uri && this.watched == watched && this.mdPath == mdPath
      ensures uri == null ==> caption == (if watched then "WATCHED" else "UNWATCHED") && context == Title
      ensures uri != null ==> caption == Basename(uri.path) && context == ErbUnwatched
    {
      this.uri := uri;
      this.watched := watched;
      this.mdPath := mdPath;
      if uri == null {
        caption := if watched then "WATCHED" else "UNWATCHED";
        context := Title;
      } else {
        caption := Basename(uri.path);
        context := ErbUnwatched;
      }
    }

    function State(): ErbState
      reads this
    {
      ErbState(watched, context, mdPath)
    }

    /** `watch`: the file becomes watched and shown as watched. */
    method Watch()
      modifies this
      ensures State() == WatchedState(old(State()))
    {
      watched := true;
      context := ErbWatched;
    }

    /** `unwatch`: the file becomes unwatched and shown as unwatched. */
    method Unwatch()
      modifies this
      ensures State() == UnwatchedState(old(State()))
    {
      watched := false;
      context := ErbUnwatched;
    }

    /** Where the compiled Markdown goes: the cached location, else the one derived from the path. */
    function OutputTarget(): string
      reads this
      requires uri != null || mdPath.Some?
    {
      if mdPath.Some? then mdPath.value else OutputPath(uri.path)
    }

    /** `writeMd`: fixes the output location on first use, then overwrites that file. */
    method WriteMd(content: string) returns (w: Write)
      requires uri != null || mdPath.Some?
      modifies this
      ensures w == Write(old(OutputTarget()), content)
      ensures mdPath == Some(old(OutputTarget()))
      ensures old(mdPath).Some? ==> mdPath == old(mdPath)
      ensures watched == old(watched) && context == old(context)
    {
      if mdPath.None? {
        mdPath := Some(OutputPath(uri.path));
      }
      w := Write(mdPath.value, content);
    }

    /** `compileWrite`: renders the content; writes the result only when rendering succeeds, and on
        failure leaves the file, and the output location, as they were. */
    method CompileWrite(content: string, render: string -> Option<string>) returns (w: Option<Write>)
      requires render(content).Some? ==> uri != null || mdPath.Some?
      modifies this
      ensures render(content).None? ==> w.None? && State() == old(State())
      ensures render(content).Some? ==>
        w == Some(Write(old(OutputTarget()), render(content).value)) &&
        State() == old(State()).(mdPath := Some(old(OutputTarget())))
    {
      var compiled := render(content);
      if compiled.None? {
        return None;
      }
      var written := WriteMd(compiled.value);
      w := Some(written);
    }
  }

  /** `getAllErb`: one new, unwatched file with no output location per discovered template. */
  method GetAllErb(found: seq<Uri>) returns (files: seq<ErbFile>)
    ensures |files| == |found|
    ensures forall i :: 0 <= i < |files| ==>
      fresh(files[i]) && files[i].uri == found[i] && files[i].State() == Discovered &&
      files[i].caption == Basename(found[i].path)
    ensures forall i, j :: 0 <= i < j < |files| ==> files[i] != files[j]
  {
    files := [];
    for i := 0 to |found|
      invariant |files| == i
      invariant forall k :: 0 <= k < i ==>
        fresh(files[k]) && files[k].uri == found[k] && files[k].State() == Discovered &&
        files[k].caption == Basename(found[k].path)
      invariant forall k, l :: 0 <= k < l < i ==> files[k] != files[l]
    {
      var f := new ErbFile(found[i], false, None);
      files := files + [f];
    }
  }

  /** The files among `fs` whose watched flag is `w`, in their order in `fs`. */
  function FilterWatched(fs: seq<ErbFile>, w: bool): (r: seq<ErbFile>)
    reads fs
    ensures |r| <= |fs|
    ensures forall i :: 0 <= i < |r| ==> r[i] in fs && r[i].watched == w
    ensures forall i :: 0 <= i < |fs| && fs[i].watched == w ==> fs[i] in r
  {
    if fs == [] then []
    else (if fs[0].watched == w then [fs[0]] else []) + FilterWatched(fs[1..], w)
  }

  /** Filtering keeps order: the files from a first batch come before those of a second. */
  lemma {:induction false} FilterWatchedAppend(a: seq<ErbFile>, b: seq<ErbFile>, w: bool)
    ensures FilterWatched(a + b, w) == FilterWatched(a, w) + FilterWatched(b, w)
  {
    if a == [] {
      assert a + b == b;
    } else {
      assert (a + b)[1..] == a[1..] + b;
      FilterWatchedAppend(a[1..], b, w);
    }
  }

  /** Filtering a non-empty registry: its first file, if it has the flag, then the filtered rest. */
  lemma FilterWatchedCons(fs: seq<ErbFile>, w: bool)
    requires fs != []
    ensures FilterWatched(fs, w) == (if fs[0].watched == w then [fs[0]] else []) + FilterWatched(fs[1..], w)
  {
  }

  /** Putting one element in front of one of two parts of a split puts it in front of the whole. */
  lemma SplitCons<T>(x: T, ht: seq<T>, hu: seq<T>, t: seq<T>, u: seq<T>, rest: seq<T>)
    requires (ht == [x] && hu == []) || (ht == [] && hu == [x])
    requires multiset(t) + multiset(u) == multiset(rest) && |t| + |u| == |rest|
    ensures multiset(ht + t) + multiset(hu + u) == multiset([x] + rest)
    ensures |ht + t| + |hu + u| == |[x] + rest|
  {
  }

  /** The watched and the unwatched files together are all the files, each once. */
  lemma {:induction false} FilterWatchedPartition(fs: seq<ErbFile>)
    ensures multiset(FilterWatched(fs, true)) + multiset(FilterWatched(fs, false)) == multiset(fs)
    ensures |FilterWatched(fs, true)| + |FilterWatched(fs, false)| == |fs|
  {
    if fs != [] {
      FilterWatchedPartition(fs[1..]);
      FilterWatchedCons(fs, true);
      FilterWatchedCons(fs, false);
      var ht: seq<ErbFile> := if fs[0].watched then [fs[0]] else [];
      var hu: seq<ErbFile> := if fs[0].watched then [] else [fs[0]];
      SplitCons(fs[0], ht, hu, FilterWatched(fs[1..], true), FilterWatched(fs[1..], false), fs[1..]);
      assert [fs[0]] + fs[1..] == fs;
    }
  }

  /** The locations of files that all have one, in order. */
  function PathsOf(fs: seq<ErbFile>): (r: seq<string>)
    requires forall f :: f in fs ==> f.uri != null
    ensures |r| == |fs| && forall i :: 0 <= i < |fs| ==> r[i] == fs[i].uri.path
  {
    seq(|fs|, i requires 0 <= i < |fs| => fs[i].uri.path)
  }

  /** The location objects of the files, in order. */
  function UrisOf(fs: seq<ErbFile>): (r: seq<Uri?>)
    ensures |r| == |fs| && forall i :: 0 <= i < |fs| ==> r[i] == fs[i].uri
  {
    seq(|fs|, i requires 0 <= i < |fs| => fs[i].uri)
  }

  /** Removing one occurrence of a value leaves one fewer of it and as many of every other. */
  lemma RemoveAtCount<T>(xs: seq<T>, i: nat)
    requires i < |xs|
    ensures multiset(RemoveAt(xs, i)) == multiset(xs) - multiset{xs[i]}
  {
    assert xs == xs[..i] + [xs[i]] + xs[i + 1..];
  }

  /** The two ways `ErbFileManager` refuses a call: before `init`, or with a heading among the files. */
  datatype ManagerError = Uninited | InvalidFile

  /** `ErbFileManager`: the tracked template files, usable once `init` has run. */
  class ErbFileManager {
    var erbFiles: seq<ErbFile>
    var inited: bool

    /** Only files with a location are tracked. */
    ghost predicate Valid()
      reads this
    {
      forall f :: f in erbFiles ==> f.uri != null
    }

    constructor ()
      ensures Valid() && erbFiles == [] && !inited
    {
      erbFiles := [];
      inited := false;
    }

    /** `allWatchedErb`: the uninited error before `init`, else the watched files in order. */
    function AllWatchedErb(): (r: Result<seq<ErbFile>, ManagerError>)
      reads this, erbFiles
      ensures r.Failure? <==> !inited
      ensures r.Failure? ==> r.error == Uninited
      ensures r.Success? ==> forall i :: 0 <= i < |r.value| ==> r.value[i] in erbFiles && r.value[i].watched
      ensures r.Success? ==> forall i :: 0 <= i < |erbFiles| && erbFiles[i].watched ==> erbFiles[i] in r.value
      ensures r.Success? ==> r.value == FilterWatched(erbFiles, true)
    {
      if !inited then Failure(Uninited) else Success(FilterWatched(erbFiles, true))
    }

    /** `allUnwatchedErb`: the uninited error before `init`, else the unwatched files in order. */
    function AllUnwatchedErb(): (r: Result<seq<ErbFile>, ManagerError>)
      reads this, erbFiles
      ensures r.Failure? <==> !inited
      ensures r.Failure? ==> r.error == Uninited
      ensures r.Success? ==> forall i :: 0 <= i < |r.value| ==> r.value[i] in erbFiles && !r.value[i].watched
      ensures r.Success? ==> forall i :: 0 <= i < |erbFiles| && !erbFiles[i].watched ==> erbFiles[i] in r.value
      ensures r.Success? ==> r.value == FilterWatched(erbFiles, false)
    {
      if !inited then Failure(Uninited) else Success(FilterWatched(erbFiles, false))
    }

    /** `init`: tracks one new, unwatched file per discovered template and becomes usable. */
    method Init(found: seq<Uri>)
      modifies this
      ensures Valid() && inited
      ensures |erbFiles| == |found|
      ensures forall i :: 0 <= i < |erbFiles| ==>
        fresh(erbFiles[i]) && erbFiles[i].uri == found[i] && erbFiles[i].State() == Discovered
    {
      erbFiles := GetAllErb(found);
      inited := true;
    }

    /** `addErb`: refuses a batch holding a heading first, even before `init`; then refuses before
        `init`; otherwise appends the batch, in order, after the tracked files. */
    method AddErb(erbs: seq<ErbFile>) returns (err: Option<ManagerError>)
      requires Valid()
      modifies this
      ensures Valid() && inited == old(inited)
      ensures null in UrisOf(erbs) ==> err == Some(InvalidFile) && erbFiles == old(erbFiles)
      ensures null !in UrisOf(erbs) && !inited ==> err == Some(Uninited) && erbFiles == old(erbFiles)
      ensures null !in UrisOf(erbs) && inited ==> err.None? && erbFiles == old(erbFiles) + erbs
    {
      if null in UrisOf(erbs) {
        return Some(InvalidFile);
      }
      if !inited {
        return Some(Uninited);
      }
      forall f | f in erbs ensures f.uri != null {
        var i :| 0 <= i < |erbs| && erbs[i] == f;
        assert UrisOf(erbs)[i] == f.uri;
      }
      erbFiles := erbFiles + erbs;
      err := None;
    }

    /** `removeErb`: drops the first file at that path, keeping the others in order; no-op when
        none is there. It works before `init` too. */
    method RemoveErb(uri: Uri)
      requires Valid()
      modifies this
      ensures Valid() && inited == old(inited)
      ensures match FirstIndex(PathsOf(old(erbFiles)), uri.path)
        case None => erbFiles == old(erbFiles)
        case Some(i) => erbFiles == RemoveAt(old(erbFiles), i)
    {
      var t := FirstIndex(PathsOf(erbFiles), uri.path);
      if t.None? {
        return;
      }
      erbFiles := RemoveAt(erbFiles, t.value);
    }

    /** `watchErb`: finds the file by location identity and watches it; reports `false` and changes
        nothing when it is not tracked. */
    method WatchErb(erb: ErbFile) returns (found: bool)
      requires Valid() && erb.uri != null
      modifies erbFiles
      ensures erbFiles == old(erbFiles)
      ensures found <==> FirstIndex(UrisOf(erbFiles), erb.uri).Some?
      ensures found ==>
        var t := erbFiles[FirstIndex(UrisOf(erbFiles), erb.uri).value];
        t.State() == WatchedState(old(t.State())) &&
        forall f :: f in erbFiles && f != t ==> f.State() == old(f.State())
      ensures !found ==> forall f :: f in erbFiles ==> f.State() == old(f.State())
    {
      var t := FirstIndex(UrisOf(erbFiles), erb.uri);
      if t.None? {
        return false;
      }
      erbFiles[t.value].Watch();
      found := true;
    }

    /** `unwatchErb`: finds the file by location identity and unwatches it; reports `false` and
        changes nothing when it is not tracked. */
    method UnwatchErb(erb: ErbFile) returns (found: bool)
      requires Valid() && erb.uri != null
      modifies erbFiles
      ensures erbFiles == old(erbFiles)
      ensures found <==> FirstIndex(UrisOf(erbFiles), erb.uri).Some?
      ensures found ==>
        var t := erbFiles[FirstIndex(UrisOf(erbFiles), erb.uri).value];
        t.State() == UnwatchedState(old(t.State())) &&
        forall f :: f in erbFiles && f != t ==> f.State() == old(f.State())
      ensures !found ==> forall f :: f in erbFiles ==> f.State() == old(f.State())
    {
      var t := FirstIndex(UrisOf(erbFiles), erb.uri);
      if t.None? {
        return false;
      }
      erbFiles[t.value].Unwatch();
      found := true;
    }

    /** `onChangeTextDocument`: with an active document and a watched file at the changed path,
        preprocesses the active document's text against that file and compile-writes it; with no
        active document, no file at the path, or an unwatched one, does nothing. */
    method OnChangeTextDocument(uri: Uri, preprocessor: ErbmdPreprocessor, active: Option<string>,
                                render: string -> Option<string>)
      returns (w: Option<Write>)
      requires Valid()
      modifies erbFiles
      ensures erbFiles == old(erbFiles)
      ensures var t := FirstIndex(PathsOf(erbFiles), uri.path);
        (active.None? || t.None? || !erbFiles[t.value].watched) ==>
          w.None? && forall f :: f in erbFiles ==> f.State() == old(f.State())
      ensures var t := FirstIndex(PathsOf(erbFiles), uri.path);
        (active.Some? && t.Some? && erbFiles[t.value].watched) ==>
          var target := erbFiles[t.value];
          var md := render(PreprocessResult(preprocessor.Views(), active.value, uri.path));
          (md.None? ==> w.None? && target.State() == old(target.State())) &&
          (md.Some? ==> w == Some(Write(old(target.OutputTarget()), md.value)) &&
                        target.State() == old(target.State()).(mdPath := Some(old(target.OutputTarget())))) &&
          forall f :: f in erbFiles && f != target ==> f.State() == old(f.State())
    {
      if active.None? {
        return None;
      }
      var t := FirstIndex(PathsOf(erbFiles), uri.path);
      if t.None? || !erbFiles[t.value].watched {
        return None;
      }
      var target := erbFiles[t.value];
      var content := preprocessor.Preprocess(active.value, target.uri.path);
      w := target.CompileWrite(content, render);
    }
  }

  /** After the only tracked file at a path is removed, no file is at that path, so a later change
      notification for it finds nothing. */
  lemma RemovedPathGone(fs: seq<ErbFile>, p: string)
    requires forall f :: f in fs ==> f.uri != null
    requires multiset(PathsOf(fs))[p] == 1
    ensures FirstIndex(PathsOf(fs), p).Some?
    ensures var i := FirstIndex(PathsOf(fs), p).value;
      FirstIndex(PathsOf(RemoveAt(fs, i)), p).None?
  {
    var ps := PathsOf(fs);
    assert p in ps;
    var i := FirstIndex(ps, p).value;
    var rest := RemoveAt(fs, i);
    assert PathsOf(rest) == RemoveAt(ps, i);
    RemoveAtCount(ps, i);
  }
}
