/** The reference preprocessor: reference datasets (`refs.mderb.json` files), the registry that keeps
    them in step with file events, and the expansion of `$INCLUDEREFS$` and `[&alias]` markers in a
    template, plus the alias completion and hover lookups that read the same registry. */
module Preprocessor {
  import opened Wrappers
  import opened Seqs
  import opened Strings

  /** The bulk placeholder that expands to the numbered reference list. */
  const RefsPlaceholder: string := "$INCLUDEREFS$"

  /** One citable item of a dataset. */
  datatype RefEntry = RefEntry(text: string, ref: string, alias: string)

  /** A JavaScript error value, as far as its `toString()` shows it. */
  datatype JsError = JsError(name: string, message: string)

  /** What `readFileSync` and `JSON.parse` throw: `Error` and `SyntaxError` instances, whose name
      is never empty. */
  type ThrownError = e: JsError | e.name != "" witness JsError("Error", "")

  /** What reading a dataset file and `JSON.parse` on its text produced. */
  datatype Decoded = Entries(refs: seq<RefEntry>) | DecodeError(error: ThrownError)

  /** `Error.prototype.toString`: name and message joined by `: `, either one alone when the other is empty. */
  function ErrorText(e: JsError): (r: string)
    ensures r == "" <==> e.name == "" && e.message == ""
    ensures |e.name| <= |r| && r[..|e.name|] == e.name
  {
    if e.name == "" then e.message
    else if e.message == "" then e.name
    else e.name + ": " + e.message
  }

  // ---------------------------------------------------------------------------------------------
  // Rendering the reference list

  /** `refent2md`: one numbered Markdown list item, a link to the entry's reference carrying an
      anchor named by its alias. */
  function EntryLine(e: RefEntry, index: nat): string {
    Digits(index) + ". [" + e.text + "](" + e.ref + ")<span id=\"" + e.alias + "\"></span>"
  }

  /** The lines of the reference list, entry k (0-based) numbered k + 1. */
  function RefLines(refs: seq<RefEntry>): seq<string> {
    seq(|refs|, k requires 0 <= k < |refs| => EntryLine(refs[k], k + 1))
  }

  /** The whole reference list that replaces the placeholder. */
  function RefsMarkdown(refs: seq<RefEntry>): string {
    Join(RefLines(refs), "\n")
  }

  /** `refs2md`: pushes one line per entry, then joins them with newlines. */
  method Refs2Md(refs: seq<RefEntry>) returns (md: string)
    ensures md == RefsMarkdown(refs)
    ensures refs == [] ==> md == ""
  {
    var reflines: seq<string> := [];
    for ix := 0 to |refs|
      invariant |reflines| == ix
      invariant forall k :: 0 <= k < ix ==> reflines[k] == EntryLine(refs[k], k + 1)
    {
      reflines := reflines + [EntryLine(refs[ix], ix + 1)];
    }
    assert reflines == RefLines(refs);
    md := Join(reflines, "\n");
  }

  /** No character of a decimal number is a newline or a dollar sign. */
  lemma DigitsExclude(n: nat)
    ensures '\n' !in Digits(n) && '$' !in Digits(n)
  {
    var d := Digits(n);
    forall k | 0 <= k < |d| ensures d[k] != '\n' && d[k] != '$' {
      assert IsDigit(d[k]);
    }
  }

  /** Each line of the rendered list is read back by splitting at newlines: line k (1-based) is
      exactly `k. [text](ref)<span id="alias"></span>` of the k-th entry, provided no entry field
      holds a newline. */
  lemma RefsMarkdownLines(refs: seq<RefEntry>)
    requires |refs| > 0
    requires forall e :: e in refs ==> '\n' !in e.text && '\n' !in e.ref && '\n' !in e.alias
    ensures |Split(RefsMarkdown(refs), "\n")| == |refs|
    ensures forall k :: 0 <= k < |refs| ==> Split(RefsMarkdown(refs), "\n")[k] == EntryLine(refs[k], k + 1)
  {
    var lines := RefLines(refs);
    forall k | 0 <= k < |lines| ensures '\n' !in lines[k] {
      DigitsExclude(k + 1);
      assert refs[k] in refs;
    }
    SplitJoin(lines, '\n');
  }

  /** An entry none of whose fields holds a `$`, so that `String.replace` inserts its text literally. */
  predicate DollarFree(e: RefEntry) {
    '$' !in e.text && '$' !in e.ref && '$' !in e.alias
  }

  /** The rendered list of dollar-free entries holds no `$`. */
  lemma RefsMarkdownDollarFree(refs: seq<RefEntry>)
    requires forall e :: e in refs ==> DollarFree(e)
    ensures '$' !in RefsMarkdown(refs)
  {
    var lines := RefLines(refs);
    forall k | 0 <= k < |lines| ensures '$' !in lines[k] {
      DigitsExclude(k + 1);
      assert refs[k] in refs;
    }
    JoinExcludes(lines, "\n", '$');
  }

  // ---------------------------------------------------------------------------------------------
  // Expanding a template

  /** The inline citation marker of an alias. */
  function Marker(alias: string): string {
    "[&" + alias + "]"
  }

  /** A list line of an entry without `&` holds no citation marker, nor does one start inside it:
      searching past it for a marker starts after it. */
  lemma EntryLineNoMarker(e: RefEntry, index: nat, rest: string, alias: string)
    requires '&' !in e.text && '&' !in e.ref && '&' !in e.alias
    ensures IndexOf(EntryLine(e, index) + rest, Marker(alias))
      == Shift(IndexOf(rest, Marker(alias)), |EntryLine(e, index)|)
  {
    var d := Digits(index);
    forall k | 0 <= k < |d| ensures d[k] != '&' {
      assert IsDigit(d[k]);
    }
    var head := d + ". [" + e.text + "](" + e.ref + ")<span id=\"" + e.alias;
    var line := head + "\"></span>";
    assert line == EntryLine(e, index);
    assert line[|line| - 1] == '>';
    assert '&' !in ". [" && '&' !in "](" && '&' !in ")<span id=\"" && '&' !in "\"></span>";
    IndexOfSkipPair(line, rest, Marker(alias));
  }

  /** The back-link that replaces a marker, showing the entry's 1-based position. */
  function Anchor(alias: string, index: nat): string {
    "<a href=\"#" + alias + "\">(" + Digits(index) + ").</a>"
  }

  /** The text after the marker replacements for the first n entries, in dataset order. */
  function MarkersReplaced(s: string, refs: seq<RefEntry>, n: nat): string
    requires n <= |refs|
  {
    if n == 0 then s
    else Replace(MarkersReplaced(s, refs, n - 1), Marker(refs[n - 1].alias), Anchor(refs[n - 1].alias, n))
  }

  /** The expansion of a template against a valid dataset: the placeholder first, then one marker
      replacement per entry. */
  function ExpandRefs(content: string, refs: seq<RefEntry>): string {
    MarkersReplaced(Replace(content, RefsPlaceholder, RefsMarkdown(refs)), refs, |refs|)
  }

  /** Replacing the placeholder puts the rendered list in place of its first occurrence only;
      later occurrences stay literal, and a template without it is unchanged. */
  lemma PlaceholderFirstOnly(content: string, refs: seq<RefEntry>)
    requires forall e :: e in refs ==> DollarFree(e)
    ensures IndexOf(content, RefsPlaceholder).None? ==>
      Replace(content, RefsPlaceholder, RefsMarkdown(refs)) == content
    ensures IndexOf(content, RefsPlaceholder).Some? ==>
      var i := IndexOf(content, RefsPlaceholder).value;
      Replace(content, RefsPlaceholder, RefsMarkdown(refs)) == content[..i] + RefsMarkdown(refs) + content[i + |RefsPlaceholder|..]
  {
    RefsMarkdownDollarFree(refs);
    ReplaceFirstLiteral(content, RefsPlaceholder, RefsMarkdown(refs));
  }

  /** The n-th entry (1-based) turns the first remaining occurrence of its marker into a back-link
      numbered n, and leaves every later occurrence alone. */
  lemma MarkerStep(s: string, refs: seq<RefEntry>, n: nat)
    requires 0 < n <= |refs|
    requires '$' !in refs[n - 1].alias
    ensures var before := MarkersReplaced(s, refs, n - 1);
      var m := Marker(refs[n - 1].alias);
      MarkersReplaced(s, refs, n) ==
        match IndexOf(before, m)
        case None => before
        case Some(i) => before[..i] + Anchor(refs[n - 1].alias, n) + before[i + |m|..]
  {
    DigitsExclude(n);
    var a := Anchor(refs[n - 1].alias, n);
    assert '$' !in "<a href=\"#" && '$' !in "\">(" && '$' !in ").</a>";
    assert '$' !in a;
    var before := MarkersReplaced(s, refs, n - 1);
    var m := Marker(refs[n - 1].alias);
    assert MarkersReplaced(s, refs, n) == Replace(before, m, a);
    ReplaceFirstLiteral(before, m, a);
  }

  /** A template with neither the placeholder nor any entry's marker passes through unchanged. */
  lemma {:induction false} ExpandWithoutMarkers(content: string, refs: seq<RefEntry>)
    requires IndexOf(content, RefsPlaceholder).None?
    requires forall e :: e in refs ==> IndexOf(content, Marker(e.alias)).None?
    ensures ExpandRefs(content, refs) == content
  {
    assert Replace(content, RefsPlaceholder, RefsMarkdown(refs)) == content;
    MarkersUnchanged(content, refs, |refs|);
  }

  lemma {:induction false} MarkersUnchanged(content: string, refs: seq<RefEntry>, n: nat)
    requires n <= |refs|
    requires forall e :: e in refs ==> IndexOf(content, Marker(e.alias)).None?
    ensures MarkersReplaced(content, refs, n) == content
  {
    if n > 0 {
      MarkersUnchanged(content, refs, n - 1);
      assert refs[n - 1] in refs;
    }
  }

  // ---------------------------------------------------------------------------------------------
  // Registry views and lookups

  /** What a dataset holds at one moment: its file path, its entries and whether it parsed. */
  datatype RefFileView = RefFileView(path: string, refs: seq<RefEntry>, valid: bool)

  /** The state `parse()` leaves: the decoded entries and valid, or no entries and invalid. */
  function ParsedView(path: string, decoded: Decoded): RefFileView {
    match decoded
    case Entries(rs) => RefFileView(path, rs, true)
    case DecodeError(_) => RefFileView(path, [], false)
  }

  /** The message `parse()` returns: empty on success, the error's text on failure. */
  function ParseError(decoded: Decoded): (r: string)
    ensures r == "" <==> decoded.Entries?
  {
    match decoded
    case Entries(_) => ""
    case DecodeError(e) => ErrorText(e)
  }

  /** The warning shown for a dataset that failed to parse. */
  function FailMessage(err: string): string {
    "Failed to parse ref file: " + err
  }

  function Paths(vs: seq<RefFileView>): seq<string> {
    seq(|vs|, i requires 0 <= i < |vs| => vs[i].path)
  }

  function Dirs(vs: seq<RefFileView>): seq<string> {
    seq(|vs|, i requires 0 <= i < |vs| => Dirname(vs[i].path))
  }

  function Aliases(refs: seq<RefEntry>): seq<string> {
    seq(|refs|, i requires 0 <= i < |refs| => refs[i].alias)
  }

  /** `getCorrespondingRefFile`: the first dataset whose directory equals the file's directory. */
  function CorrespondingRefFile(vs: seq<RefFileView>, filePath: string): (r: Option<nat>)
    ensures r.Some? ==> r.value < |vs| && Dirname(vs[r.value].path) == Dirname(filePath)
    ensures r.Some? ==> forall j :: 0 <= j < r.value ==> Dirname(vs[j].path) != Dirname(filePath)
    ensures r.None? ==> forall j :: 0 <= j < |vs| ==> Dirname(vs[j].path) != Dirname(filePath)
  {
    var r := FirstIndex(Dirs(vs), Dirname(filePath));
    var bound := if r.Some? then r.value else |vs|;
    assert forall j :: 0 <= j < bound ==> Dirname(vs[j].path) != Dirname(filePath) by {
      forall j | 0 <= j < bound ensures Dirname(vs[j].path) != Dirname(filePath) {
        assert Dirs(vs)[j] == Dirname(vs[j].path);
      }
    }
    r
  }

  /** What `preprocess` returns for a template at `erbPath`: the content unchanged when no dataset
      shares its directory or that dataset is invalid, and its expansion otherwise. */
  function PreprocessResult(vs: seq<RefFileView>, content: string, erbPath: string): string {
    match CorrespondingRefFile(vs, erbPath)
    case None => content
    case Some(i) => if vs[i].valid then ExpandRefs(content, vs[i].refs) else content
  }

  /** The aliases that start with `key`, in dataset order (`filter` then `map`). */
  function AliasesStartingWith(refs: seq<RefEntry>, key: string): (r: seq<string>)
    ensures |r| <= |refs|
    ensures forall k :: 0 <= k < |r| ==> StartsWith(r[k], key) && r[k] in Aliases(refs)
    ensures forall e :: e in refs && StartsWith(e.alias, key) ==> e.alias in r
  {
    if refs == [] then []
    else
      var rest := AliasesStartingWith(refs[1..], key);
      assert forall a :: a in Aliases(refs[1..]) ==> a in Aliases(refs) by {
        forall a | a in Aliases(refs[1..]) ensures a in Aliases(refs) {
          var j :| 0 <= j < |refs| - 1 && Aliases(refs[1..])[j] == a;
          assert Aliases(refs)[j + 1] == a;
        }
      }
      assert forall e :: e in refs && e != refs[0] ==> e in refs[1..];
      assert refs[0].alias == Aliases(refs)[0];
      if StartsWith(refs[0].alias, key) then [refs[0].alias] + rest else rest
  }

  /** Filtering respects order: filtering a concatenation concatenates the filtered parts. */
  lemma {:induction false} AliasesStartingWithAppend(a: seq<RefEntry>, b: seq<RefEntry>, key: string)
    ensures AliasesStartingWith(a + b, key) == AliasesStartingWith(a, key) + AliasesStartingWith(b, key)
  {
    if a == [] {
      assert a + b == b;
    } else {
      assert (a + b)[1..] == a[1..] + b;
      AliasesStartingWithAppend(a[1..], b, key);
    }
  }

  /** `findNickStartsWith`: the completions for `key` in a file at `filePath`, taken from the first
      dataset in the same directory, valid or not; none when there is no such dataset. */
  function FindNickStartsWith(vs: seq<RefFileView>, key: string, filePath: string): (r: seq<string>)
    ensures CorrespondingRefFile(vs, filePath).None? ==> r == []
    ensures CorrespondingRefFile(vs, filePath).Some? ==>
      var refs := vs[CorrespondingRefFile(vs, filePath).value].refs;
      && (forall k :: 0 <= k < |r| ==> StartsWith(r[k], key) && r[k] in Aliases(refs))
      && (forall e :: e in refs && StartsWith(e.alias, key) ==> e.alias in r)
      && r == AliasesStartingWith(refs, key)
  {
    match CorrespondingRefFile(vs, filePath)
    case None => []
    case Some(i) => AliasesStartingWith(vs[i].refs, key)
  }

  /** Cursor columns past the end of the line clamp to its end, as `substring` does. */
  function Clamp(line: string, character: nat): (c: nat)
    ensures c <= |line| && c <= character
    ensures c == character || c == |line|
  {
    if character <= |line| then character else |line|
  }

  /** The part of the keyword before the cursor: the last piece of splitting at `[&`. */
  function KeywordBefore(line: string, character: nat): string {
    LastPiece(line[..Clamp(line, character)], "[&")
  }

  /** The part of the keyword at and after the cursor: the first piece of splitting at `]`. */
  function KeywordAfter(line: string, character: nat): string {
    Split(line[Clamp(line, character)..], "]")[0]
  }

  /** The alias under the cursor in `provideMderbHover`. Splitting never yields an empty array, so
      the guard against one there never fires. */
  function HoverKeyword(line: string, character: nat): string {
    KeywordBefore(line, character) + KeywordAfter(line, character)
  }

  /** The keyword is the text after the last `[&` before the cursor (all of it when there is none)
      followed by the text before the first `]` at or after the cursor (the rest of the line when
      there is none). */
  lemma HoverKeywordParts(line: string, character: nat)
    requires character <= |line|
    ensures var a := KeywordBefore(line, character);
      && |a| <= character && a == line[character - |a|..character]
      && IndexOf(a, "[&").None?
      && (|a| == character || (|a| + 2 <= character && MatchAt(line, "[&", character - |a| - 2)))
    ensures var b := KeywordAfter(line, character);
      && character + |b| <= |line| && b == line[character..character + |b|]
      && ']' !in b
      && (character + |b| == |line| || line[character + |b|] == ']')
  {
    var pre := line[..character];
    var post := line[character..];
    SplitLast(pre, "[&");
    SplitFirstChar(post, ']');
    var a := LastPiece(pre, "[&");
    var b := Split(post, "]")[0];
    assert pre[|pre| - |a|..] == line[character - |a|..character];
    assert post[..|b|] == line[character..character + |b|];
    if |a| < character {
      assert line[character - |a| - 2..character - |a|] == pre[character - |a| - 2..character - |a|];
    }
  }

  /** `provideMderbHover`: `text: ref` of the first entry whose alias is the keyword under the
      cursor; nothing without a valid dataset in the document's directory or without such an entry. */
  function HoverContents(vs: seq<RefFileView>, docPath: string, line: string, character: nat): (r: seq<string>)
    ensures |r| <= 1
    ensures r != [] <==>
      && CorrespondingRefFile(vs, docPath).Some?
      && vs[CorrespondingRefFile(vs, docPath).value].valid
      && HoverKeyword(line, character) in Aliases(vs[CorrespondingRefFile(vs, docPath).value].refs)
    ensures r != [] ==>
      var refs := vs[CorrespondingRefFile(vs, docPath).value].refs;
      var k := FirstIndex(Aliases(refs), HoverKeyword(line, character)).value;
      r == [refs[k].text + ": " + refs[k].ref] && refs[k].alias == HoverKeyword(line, character)
  {
    match CorrespondingRefFile(vs, docPath)
    case None => []
    case Some(i) =>
      if !vs[i].valid then []
      else
        match FirstIndex(Aliases(vs[i].refs), HoverKeyword(line, character))
        case None => []
        case Some(k) => [vs[i].refs[k].text + ": " + vs[i].refs[k].ref]
  }

  // ---------------------------------------------------------------------------------------------
  // Registry updates on views

  /** The registry after `onRefFileChanged`: the first dataset at that path re-parsed. */
  function ChangedViews(vs: seq<RefFileView>, path: string, decode: string -> Decoded): seq<RefFileView> {
    match FirstIndex(Paths(vs), path)
    case None => vs
    case Some(i) => vs[i := ParsedView(path, decode(path))]
  }

  /** The registry after `onRefFileDeleted`: the first dataset at that path removed. */
  function DeletedViews(vs: seq<RefFileView>, path: string): seq<RefFileView> {
    match FirstIndex(Paths(vs), path)
    case None => vs
    case Some(i) => RemoveAt(vs, i)
  }

  /** The registry `init` builds: one parsed dataset per discovered file, in discovery order. */
  function InitViews(found: seq<string>, decode: string -> Decoded): seq<RefFileView> {
    seq(|found|, i requires 0 <= i < |found| => ParsedView(found[i], decode(found[i])))
  }

  /** The warnings `init` shows, one per dataset whose parse returned a message, in order. */
  function InitReports(found: seq<string>, decode: string -> Decoded): seq<string>
    decreases |found|
  {
    if found == [] then []
    else
      var last := found[|found| - 1];
      var err := ParseError(decode(last));
      InitReports(found[..|found| - 1], decode) + (if |err| != 0 then [FailMessage(err)] else [])
  }

  /** The number of datasets that failed to parse. */
  function CountInvalid(vs: seq<RefFileView>): nat
    decreases |vs|
  {
    if vs == [] then 0
    else CountInvalid(vs[..|vs| - 1]) + (if vs[|vs| - 1].valid then 0 else 1)
  }

  /** `init` shows exactly one warning per dataset it leaves invalid. */
  lemma {:induction false} InitReportsInvalid(found: seq<string>, decode: string -> Decoded)
    ensures |InitReports(found, decode)| == CountInvalid(InitViews(found, decode))
  {
    if found != [] {
      var n := |found| - 1;
      InitReportsInvalid(found[..n], decode);
      assert InitViews(found, decode)[..n] == InitViews(found[..n], decode);
    }
  }

  /** `init` reports the files of a longer discovery list as those of its prefix, then the new one's. */
  lemma InitReportsStep(found: seq<string>, i: nat, decode: string -> Decoded)
    requires i < |found|
    ensures var err := ParseError(decode(found[i]));
      InitReports(found[..i + 1], decode)
        == InitReports(found[..i], decode) + (if |err| != 0 then [FailMessage(err)] else [])
  {
    assert found[..i + 1][..i] == found[..i];
  }

  /** A dataset created in a template's directory, when no other dataset is there, makes the
      placeholder expand to the empty list: its first occurrence is cut out. */
  lemma CreatedDatasetExpandsEmpty(vs: seq<RefFileView>, path: string, content: string, erbPath: string)
    requires CorrespondingRefFile(vs, erbPath).None?
    requires Dirname(path) == Dirname(erbPath)
    ensures var after := PreprocessResult(vs + [RefFileView(path, [], true)], content, erbPath);
      match IndexOf(content, RefsPlaceholder)
      case None => after == content
      case Some(i) => after == content[..i] + content[i + |RefsPlaceholder|..]
  {
    var ws := vs + [RefFileView(path, [], true)];
    forall j | 0 <= j < |vs| ensures Dirname(ws[j].path) != Dirname(erbPath) {
      assert ws[j] == vs[j];
    }
    assert ws[|vs|].path == path;
    assert CorrespondingRefFile(ws, erbPath) == Some(|vs|);
    assert ExpandRefs(content, []) == Replace(content, RefsPlaceholder, "") by {
      assert RefsMarkdown([]) == "";
    }
    ReplaceFirstLiteral(content, RefsPlaceholder, "");
  }

  /** `onRefFileCreated` does not check for a dataset already at the path, so a later change there
      re-parses the older dataset and leaves the new one empty and valid; only a path not yet
      registered has the new dataset re-parsed. */
  lemma CreatedThenChanged(vs: seq<RefFileView>, path: string, decode: string -> Decoded)
    ensures var created := RefFileView(path, [], true);
      && (path in Paths(vs) ==> ChangedViews(vs + [created], path, decode) == ChangedViews(vs, path, decode) + [created])
      && (path !in Paths(vs) ==> ChangedViews(vs + [created], path, decode) == vs + [ParsedView(path, decode(path))])
  {
    var created := RefFileView(path, [], true);
    assert Paths(vs + [created]) == Paths(vs) + [path];
    FirstIndexAppend(Paths(vs), [path], path);
    assert FirstIndex([path], path) == Some(0);
    match FirstIndex(Paths(vs), path)
    case Some(i) =>
      assert (vs + [created])[i := ParsedView(path, decode(path))] == vs[i := ParsedView(path, decode(path))] + [created];
    case None =>
      assert (vs + [created])[|vs| := ParsedView(path, decode(path))] == vs + [ParsedView(path, decode(path))];
  }

  /** Deleting a dataset keeps every other dataset, in order; deleting an unknown path changes nothing. */
  lemma DeletedViewsKeepsOthers(vs: seq<RefFileView>, path: string)
    ensures FirstIndex(Paths(vs), path).None? ==> DeletedViews(vs, path) == vs
    ensures FirstIndex(Paths(vs), path).Some? ==>
      var i := FirstIndex(Paths(vs), path).value;
      && vs[i].path == path
      && (forall j :: 0 <= j < i ==> vs[j].path != path)
      && DeletedViews(vs, path) == vs[..i] + vs[i + 1..]
  {
    var t := FirstIndex(Paths(vs), path);
    var bound := if t.Some? then t.value else |vs|;
    forall j | 0 <= j < bound ensures vs[j].path != path {
      assert Paths(vs)[j] == vs[j].path;
    }
  }

  // ---------------------------------------------------------------------------------------------
  // The mutable state

  /** A dataset file: the path is fixed; `parse` rewrites the entries and the validity flag in place,
      so every holder of the object sees the new content. */
  class RefFile {
    const path: string
    var refs: seq<RefEntry>
    var valid: bool

    /** A new dataset is valid and empty until it is parsed. */
    constructor (path: string)
      ensures this.path == path && refs == [] && valid
    {
      this.path := path;
      refs := [];
      valid := true;
    }

    function View(): RefFileView
      reads this
    {
      RefFileView(path, refs, valid)
    }

    /** `parse`: clears the entries, then takes the decoded ones and becomes valid, or becomes
        invalid with no entries; returns the error's text, empty on success. */
    method Parse(decoded: Decoded) returns (errMsg: string)
      modifies this
      ensures View() == ParsedView(path, decoded)
      ensures errMsg == ParseError(decoded)
      ensures decoded.Entries? ==> valid && refs == decoded.refs && errMsg == ""
      ensures decoded.DecodeError? ==> !valid && refs == [] && errMsg == ErrorText(decoded.error)
      ensures errMsg != "" <==> decoded.DecodeError?
    {
      refs := [];
      errMsg := "";
      match decoded
      case Entries(rs) =>
        valid := true;
        refs := rs;
      case DecodeError(e) =>
        valid := false;
        errMsg := ErrorText(e);
    }
  }

  /** The views of a sequence of datasets, one per dataset, in order. */
  function ViewsOf(fs: seq<RefFile>): (r: seq<RefFileView>)
    reads fs
    ensures |r| == |fs|
    ensures forall i :: 0 <= i < |fs| ==> r[i] == fs[i].View()
  {
    if fs == [] then [] else [fs[0].View()] + ViewsOf(fs[1..])
  }

  /** Datasets each holding the parse of the matching discovered file have the views `init` builds. */
  lemma ViewsOfParsed(fs: seq<RefFile>, found: seq<string>, decode: string -> Decoded)
    requires |fs| == |found|
    requires forall k :: 0 <= k < |fs| ==> fs[k].View() == ParsedView(found[k], decode(found[k]))
    ensures ViewsOf(fs) == InitViews(found, decode)
  {
  }

  /** `getAllRefs`: one new, unparsed dataset per discovered path. */
  method GetAllRefs(found: seq<string>) returns (files: seq<RefFile>)
    ensures |files| == |found|
    ensures forall i :: 0 <= i < |files| ==> fresh(files[i]) && files[i].View() == RefFileView(found[i], [], true)
    ensures forall i, j :: 0 <= i < j < |files| ==> files[i] != files[j]
  {
    files := [];
    for i := 0 to |found|
      invariant |files| == i
      invariant forall k :: 0 <= k < i ==> fresh(files[k]) && files[k].View() == RefFileView(found[k], [], true)
      invariant forall k, l :: 0 <= k < l < i ==> files[k] != files[l]
    {
      var f := new RefFile(found[i]);
      files := files + [f];
    }
  }

  /** `ErbmdPreprocessor`: the registry of datasets and the operations on templates that use it. */
  class ErbmdPreprocessor {
    var refFiles: seq<RefFile>

    /** Every dataset object is registered once. */
    ghost predicate Valid()
      reads this
    {
      forall i, j :: 0 <= i < j < |refFiles| ==> refFiles[i] != refFiles[j]
    }

    /** The registry's contents: path, entries and validity of each dataset, in registry order. */
    function Views(): seq<RefFileView>
      reads this, refFiles
    {
      ViewsOf(refFiles)
    }

    constructor ()
      ensures Valid() && refFiles == []
    {
      refFiles := [];
    }

    /** `init`: registers one dataset per discovered file and parses each; a failed parse is
        reported and does not stop the others. */
    method Init(found: seq<string>, decode: string -> Decoded) returns (reported: seq<string>)
      modifies this
      ensures Valid()
      ensures forall i :: 0 <= i < |refFiles| ==> fresh(refFiles[i])
      ensures Views() == InitViews(found, decode)
      ensures reported == InitReports(found, decode)
    {
      var files := GetAllRefs(found);
      refFiles := files;
      reported := [];
      for i := 0 to |files|
        invariant refFiles == files
        invariant forall k, l :: 0 <= k < l < |files| ==> files[k] != files[l]
        invariant forall k :: 0 <= k < |files| ==>
          files[k].View() == if k < i then ParsedView(found[k], decode(found[k])) else RefFileView(found[k], [], true)
        invariant reported == InitReports(found[..i], decode)
      {
        InitReportsStep(found, i, decode);
        var err := files[i].Parse(decode(found[i]));
        if |err| != 0 {
          reported := reported + [FailMessage(err)];
        }
      }
      assert found[..|files|] == found;
      ViewsOfParsed(files, found, decode);
    }

    /** `onRefFileChanged`: re-parses the first dataset at that path; no-op when none is there. */
    method OnRefFileChanged(path: string, decode: string -> Decoded) returns (reported: Option<string>)
      requires Valid()
      modifies refFiles
      ensures Valid() && refFiles == old(refFiles)
      ensures Views() == ChangedViews(old(Views()), path, decode)
      ensures reported.Some? <==>
        FirstIndex(Paths(old(Views())), path).Some? && ParseError(decode(path)) != ""
      ensures reported.Some? ==> reported.value == FailMessage(ParseError(decode(path)))
    {
      reported := None;
      ghost var before := Views();
      var t := FirstIndex(Paths(Views()), path);
      if t.None? {
        return;
      }
      var target := refFiles[t.value];
      var errMsg := target.Parse(decode(path));
      if |errMsg| != 0 {
        reported := Some(FailMessage(errMsg));
      }
      forall k | 0 <= k < |refFiles| && k != t.value ensures refFiles[k].View() == before[k] {
        assert refFiles[k] != target;
      }
      assert Views() == before[t.value := ParsedView(path, decode(path))];
    }

    /** `onRefFileDeleted`: unregisters the first dataset at that path, keeping the others in order. */
    method OnRefFileDeleted(path: string)
      requires Valid()
      modifies this
      ensures Valid()
      ensures match FirstIndex(Paths(old(Views())), path)
        case None => refFiles == old(refFiles)
        case Some(i) => refFiles == RemoveAt(old(refFiles), i)
      ensures Views() == DeletedViews(old(Views()), path)
    {
      var t := FirstIndex(Paths(Views()), path);
      if t.None? {
        return;
      }
      refFiles := RemoveAt(refFiles, t.value);
      assert Views() == RemoveAt(old(Views()), t.value);
    }

    /** `onRefFileCreated`: registers a new, unparsed dataset at the end, without a duplicate check. */
    method OnRefFileCreated(path: string)
      requires Valid()
      modifies this
      ensures Valid()
      ensures |refFiles| == |old(refFiles)| + 1 && refFiles[..|old(refFiles)|] == old(refFiles)
      ensures fresh(refFiles[|refFiles| - 1])
      ensures Views() == old(Views()) + [RefFileView(path, [], true)]
    {
      var created := new RefFile(path);
      refFiles := refFiles + [created];
      assert refFiles[..|old(refFiles)|] == old(refFiles);
    }

    /** `preprocess`: replaces the placeholder, then each entry's marker in dataset order; leaves the
        content alone without a valid dataset in the template's directory. Changes no state. */
    method Preprocess(content: string, erbPath: string) returns (r: string)
      ensures r == PreprocessResult(Views(), content, erbPath)
      ensures CorrespondingRefFile(Views(), erbPath).None? ==> r == content
      ensures (CorrespondingRefFile(Views(), erbPath).Some? &&
               !refFiles[CorrespondingRefFile(Views(), erbPath).value].valid) ==> r == content
    {
      var t := CorrespondingRefFile(Views(), erbPath);
      if t.None? {
        return content;
      }
      var refFile := refFiles[t.value];
      if !refFile.valid {
        return content;
      }
      var refs := refFile.refs;
      var list := Refs2Md(refs);
      var newContent := Replace(content, RefsPlaceholder, list);
      ghost var start := newContent;
      for ix := 0 to |refs|
        invariant newContent == MarkersReplaced(start, refs, ix)
      {
        newContent := Replace(newContent, Marker(refs[ix].alias), Anchor(refs[ix].alias, ix + 1));
      }
      r := newContent;
    }
  }
}
