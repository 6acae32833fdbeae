# Markdown.erb core, modelled in Dafny

Markdown.erb is a VS Code extension for Markdown templates written in ERB (`*.md.erb`). This
project models its core:

- **Reference preprocessing** (`src/preprocessor.ts`). Each directory may hold a reference
  dataset, `refs.mderb.json`, which is a list of `{text, ref, alias}` entries.
  - Before a template is rendered, the first `$INCLUDEREFS$` in it becomes a numbered Markdown list
    of the entries.
  - For each entry in dataset order, the first `[&alias]` marker becomes a back-link showing the
    entry's 1-based position.
  - A registry of datasets follows file creation, change and deletion events.
  - The same registry answers alias completion (`findNickStartsWith`) and hover lookups.
- **Template files and their registry** (`src/fswatcher.ts`).
  - Each template is watched or unwatched, and has a tree context label.
  - Its output location is derived once and then cached.
  - The compile-and-write step writes only when rendering succeeds.
  - The manager tracks the templates behind an `inited` flag. It offers the partition getters,
    `addErb`, `removeErb`, `watchErb`, `unwatchErb` and the change dispatch.
- **Error diagnostics** (`src/diagnostic.ts`). The line number in the first line of the `erb`
  command's error output (`path:LINE:in ...`) becomes one diagnostic over that whole line.
  `refreshDiagnostics` clears the diagnostics or sets that one.

Modules:
- `Wrappers`: `Option`, `Result`.
- `Seqs`: `find`/`findIndex` as `FirstIndex`, and `splice(i, 1)` as `RemoveAt`.
- `Strings`: the JavaScript string operations the core relies on, over sequences of code points
  (see "Left out" for UTF-16).
  - `String.prototype.replace` with a string pattern replaces only the first occurrence. It also
    interprets `$$`, `$&`, `` $` `` and `$'` in the replacement text.
  - `split` and `join`.
  - Decimal rendering and `Number()` on digit strings.
  - `path.parse(...).dir` and `.base`.
- `Preprocessor`, `FsWatcher` and `Diagnostic`: one module per source file.
- `PreprocessorExamples`: worked expansions.

Objects the source updates in place are classes:
- `RefFile` (its `refs` and `valid` fields);
- `ErbmdPreprocessor` (its `refFiles` array);
- `ErbFile` (`watched`, the context label, the cached `mdPath`);
- `ErbFileManager` (`erbFiles`, `inited`).

Each method is proved against a pure function of the registry's contents. For example,
`Views()` lists the datasets' paths, entries and validity. `Preprocess` returns
`PreprocessResult(Views(), content, erbPath)`, and the lemmas about `ExpandRefs` say what that
expansion does.

The outside world is passed in:
- file contents, and the outcome of reading a dataset plus `JSON.parse`, are a `decode` function;
- the ERB renderer is `render: string -> Option<string>`, where `None` covers its errors and
  timeouts;
- the `erb` command's outcome is an `Option<string>`;
- the active editor's text is an `Option<string>`;
- workspace scans are sequences of found paths or locations;
- a file write is returned as a `Write(path, content)` value.

Behaviour of the source that the proofs make explicit:
- **`$` patterns in entries.** `preprocess` inserts the reference list with
  `String.replace`, so `$&`, `$$` and the others in an entry's text are interpreted, not
  inserted. `DollarPatternInEntryText` proves that an entry whose text is `$&` renders as
  if its text were `$INCLUDEREFS$`, i.e. as `1. [$INCLUDEREFS$](u)...`. The properties of the expansion are therefore proved for entries
  without `$`.
- **Output path.** The output location replaces the first `.md.erb` in the whole path, not the
  suffix. So `a.md.erb/b.md.erb` is written to `a.md/b.md.erb` (`OutputPathNestedExample`).
  A general description of this step would say "strip the suffix"; the model follows the code.
- **Dead guard in `analyzeErbError`.** `split` never returns an empty array, so the
  `lines.length < 1` guard never fires (`AnalyzeErbError` never yields `NoDiagnostic`).
- **Duplicated hover check.** The hover's guard tests `preParts.length === 0` twice and never
  tests `postParts`. Neither can be empty, so this changes nothing.
- **Change dispatch uses the active editor.** `onChangeTextDocument` compiles the active
  editor's text, not the changed document's, and looks the file up by the changed path. The model
  keeps both inputs apart.
- **Duplicate paths.** A dataset created at a path already registered is added again. Deleting
  and changing only ever reach the first one (`CreatedThenChanged`).

## Model

| member | source | states |
|---|---|---|
| Seqs.FirstIndex | src/preprocessor.ts:81 | `find`/`findIndex` on equality: the first matching index, no match before it, and `None` exactly when the value is absent |
| Seqs.FirstIndexAppend | src/preprocessor.ts:81 | a search over a sequence with elements appended finds the first match of the old part, and only without one looks at the appended part (used by `CreatedThenChanged`) |
| Seqs.RemoveAt | src/preprocessor.ts:92 | `splice(i, 1)`: one element shorter; elements before `i` are kept and later ones move down by one |
| Strings.IndexOf | src/preprocessor.ts:107 | the first index where the pattern matches, with no match before it; `None` when it matches nowhere |
| Strings.ReplaceFirstLiteral | src/preprocessor.ts:107 | with a `$`-free replacement, `replace` swaps the first occurrence for the replacement and keeps everything else, later occurrences included; no occurrence means no change |
| Strings.SubstituteLiteral | src/preprocessor.ts:111 | a replacement text without `$` is inserted as it is |
| Strings.Split | src/diagnostic.ts:37 | `split` with a non-empty separator always yields at least one piece |
| Strings.SplitJoin | src/preprocessor.ts:23 | joining pieces free of a one-character separator and splitting at it gives the pieces back |
| Strings.IndexOfShifted | src/preprocessor.ts:111 | with no occurrence starting inside a prefix, `indexOf` on the whole text is `indexOf` on the rest, shifted by the prefix's length |
| Strings.SplitLast | src/preprocessor.ts:129 | the last piece of `split` is a suffix of the text, holds no separator, and is preceded by the separator unless it is the whole text |
| Strings.Digits | src/preprocessor.ts:15 | `${n}` is a non-empty string of decimal digits with no leading zero |
| Strings.DecimalDigits | src/diagnostic.ts:42 | `Number` of the decimal text of `n` is `n` |
| Strings.Dirname | src/preprocessor.ts:75 | `path.parse(p).dir`: the prefix before the last `/`, which `/` then follows in `p`; empty without a `/` |
| Strings.Basename | src/fswatcher.ts:43 | `path.parse(p).base`: the text after the last `/`, holds no `/`; dir + `/` + base rebuilds a path that has one |
| Preprocessor.ParseError | src/preprocessor.ts:38-52 | the message `parse()` returns is empty exactly when decoding succeeded, since what `readFileSync` and `JSON.parse` throw always has a name |
| Preprocessor.ErrorText | src/preprocessor.ts:50 | `e.toString()` starts with the error's name and is empty only when name and message both are |
| Preprocessor.Refs2Md | src/preprocessor.ts:18-24 | the loop that pushes one line per entry and joins them computes `RefsMarkdown(refs)`; no entries give `''` |
| Preprocessor.RefsMarkdownLines | src/preprocessor.ts:14-24 | splitting the list at newlines gives one line per entry, and line k is exactly `k. [text](ref)<span id="alias"></span>` of the k-th entry |
| Preprocessor.EntryLineNoMarker | src/preprocessor.ts:14-16 | a list line of an entry without `&` holds no citation marker: a marker search over the line followed by more text finds what a search of that text finds, shifted by the line's length |
| Preprocessor.RefsMarkdownDollarFree | src/preprocessor.ts:14-24 | the list of entries without `$` holds no `$`, so it is inserted literally |
| Preprocessor.PlaceholderFirstOnly | src/preprocessor.ts:107 | only the first `$INCLUDEREFS$` becomes the list; later ones stay literal; a template without one is unchanged |
| Preprocessor.MarkerStep | src/preprocessor.ts:109-112 | the n-th entry turns the first remaining `[&alias]` into `<a href="#alias">(n).</a>` and leaves the rest of the text, later markers included, as it was |
| Preprocessor.ExpandWithoutMarkers | src/preprocessor.ts:101-115 | a template with neither the placeholder nor any entry's marker expands to itself |
| Preprocessor.MarkersUnchanged | src/preprocessor.ts:109-112 | marker replacement leaves a text holding none of the markers unchanged, after any number of entries |
| Preprocessor.CorrespondingRefFile | src/preprocessor.ts:74-78 | the first dataset whose directory equals the template's; none before it matches; `None` when none matches at all |
| Preprocessor.AliasesStartingWith | src/preprocessor.ts:120 | every result is an alias of the dataset starting with the key, and every such alias is a result |
| Preprocessor.AliasesStartingWithAppend | src/preprocessor.ts:120 | filtering keeps dataset order: the matches of a concatenation are the matches of each part, in order |
| Preprocessor.FindNickStartsWith | src/preprocessor.ts:117-121 | completions come from the first dataset in the file's directory (valid or not), are exactly its aliases starting with the key, in dataset order, and are empty without such a dataset |
| Preprocessor.Clamp | src/preprocessor.ts:129-130 | a cursor column within the line is kept, and one past the line's end counts as its end, as `substring` does |
| Preprocessor.HoverKeywordParts | src/preprocessor.ts:128-134 | the keyword is the text after the last `[&` before the cursor (or all of it) followed by the text up to the first `]` from the cursor (or the rest of the line) |
| Preprocessor.HoverContents | src/preprocessor.ts:124-140 | at most one line, `text: ref` of the first entry whose alias is the keyword; non-empty exactly when a valid dataset in the document's directory has that alias |
| Preprocessor.CreatedDatasetExpandsEmpty | src/preprocessor.ts:95-99 | a new dataset in a template's directory with no other dataset there makes the first placeholder expand to nothing, i.e. be cut out |
| Preprocessor.CreatedThenChanged | src/preprocessor.ts:80-99 | with no duplicate check on creation, a change at a path already registered re-parses the older dataset and leaves the new one empty and valid; at a new path it re-parses the new one |
| Preprocessor.DeletedViewsKeepsOthers | src/preprocessor.ts:89-93 | deletion removes the first dataset at that path and keeps the others in order; an unknown path changes nothing |
| Preprocessor.RefFile.constructor | src/preprocessor.ts:31-37 | a new dataset has the given path, no entries and is valid |
| Preprocessor.RefFile.Parse | src/preprocessor.ts:39-52 | after decoding: the decoded entries, valid and `''`; after an error: no entries, invalid and the error's text, which is never empty |
| Preprocessor.GetAllRefs | src/preprocessor.ts:143-148 | one new, distinct, unparsed, valid dataset per discovered path, in order |
| Preprocessor.ErbmdPreprocessor.constructor | src/preprocessor.ts:60-62 | an empty registry |
| Preprocessor.InitReportsInvalid | src/preprocessor.ts:64-72 | `init` shows exactly as many warnings as it leaves datasets invalid |
| Preprocessor.ErbmdPreprocessor.Init | src/preprocessor.ts:64-72 | the registry holds each discovered dataset parsed, in order; one warning per failed parse, in order, none for the others |
| Preprocessor.ErbmdPreprocessor.OnRefFileChanged | src/preprocessor.ts:80-87 | only the first dataset at that path is re-parsed, the same objects stay registered, and a warning is shown exactly when that parse fails; no-op for an unknown path |
| Preprocessor.ErbmdPreprocessor.OnRefFileDeleted | src/preprocessor.ts:89-93 | the first dataset at that path is spliced out, the others keep their order; no-op for an unknown path |
| Preprocessor.ErbmdPreprocessor.OnRefFileCreated | src/preprocessor.ts:95-99 | a new unparsed, valid, empty dataset is appended after the existing ones, with no duplicate check |
| Preprocessor.ErbmdPreprocessor.Preprocess | src/preprocessor.ts:101-115 | returns the expansion against the template directory's dataset; the content unchanged when there is none or it is invalid; no state changes |
| PreprocessorExamples.TwoEntryList | src/preprocessor.ts:18-24 | two entries render as lines numbered 1 and 2, in dataset order |
| PreprocessorExamples.TwoEntryExample | src/preprocessor.ts:101-115 | `See [&a2] and $INCLUDEREFS$` with entries `a1`, `a2` becomes a back-link showing 2 followed by the two-item list |
| PreprocessorExamples.UnknownMarkerExample | src/preprocessor.ts:109-112 | a marker naming no entry, `[&zzz]`, stays literal text |
| PreprocessorExamples.DollarTextSubstituted | src/preprocessor.ts:107 | read as a replacement, the list line of an entry whose text is `$&` becomes the line of that entry with the matched text as its text |
| PreprocessorExamples.DollarPatternInEntryText | src/preprocessor.ts:101-115 | the template `$INCLUDEREFS$` with one entry whose text is `$&` expands to the list of an entry whose text is `$INCLUDEREFS$`, since `replace` reads `$&` as the matched text |
| FsWatcher.WatchedState | src/fswatcher.ts:55-59 | after `watch` the file is watched, labelled `erb-watched`, and keeps its cached output path |
| FsWatcher.UnwatchedState | src/fswatcher.ts:61-65 | after `unwatch` the file is unwatched, labelled `erb-unwatched`, and keeps its cached output path |
| FsWatcher.WatchUnwatchRestores | src/fswatcher.ts:55-65 | watch then unwatch restores an unwatched file's state exactly, a freshly discovered file's included |
| FsWatcher.TransitionsIdempotent | src/fswatcher.ts:55-65 | repeating a transition changes nothing, and of two transitions the later decides the state |
| FsWatcher.OutputPath | src/fswatcher.ts:80 | the output location is the path with its first `.md.erb` replaced by `.md`; a path without one is kept |
| FsWatcher.SuffixFirstAfterStem | src/fswatcher.ts:80 | with no `.md.erb` in the stem, the first `.md.erb` of `stem.md.erb...` is the one right after the stem |
| FsWatcher.OutputPathFirstSuffix | src/fswatcher.ts:80 | `stem.md.erb` followed by anything maps to `stem.md` followed by the same text |
| FsWatcher.OutputPathOfTemplate | src/fswatcher.ts:80 | `stem.md.erb` maps to `stem.md` |
| FsWatcher.OutputPathNestedExample | src/fswatcher.ts:80 | `a.md.erb/b.md.erb` maps to `a.md/b.md.erb` |
| FsWatcher.ErbFile.constructor | src/fswatcher.ts:30-53 | a heading is labelled `WATCHED`/`UNWATCHED` with context `title`; a file is labelled with its base name and has context `erb-unwatched` whatever the flag |
| FsWatcher.ErbFile.Watch | src/fswatcher.ts:55-59 | the new state is `WatchedState` of the old |
| FsWatcher.ErbFile.Unwatch | src/fswatcher.ts:61-65 | the new state is `UnwatchedState` of the old |
| FsWatcher.ErbFile.WriteMd | src/fswatcher.ts:78-83 | writes to the cached location, or derives it from the path on first use and caches it; the watched state is untouched |
| FsWatcher.ErbFile.CompileWrite | src/fswatcher.ts:67-89 | writes exactly the rendered text to the output location when rendering succeeds; on failure there is no write and no state change |
| FsWatcher.GetAllErb | src/fswatcher.ts:176-181 | one new, distinct file per discovered location, unwatched, context `erb-unwatched`, no cached output |
| FsWatcher.FilterWatched | src/fswatcher.ts:94-101 | exactly the files whose flag is the given one |
| FsWatcher.FilterWatchedAppend | src/fswatcher.ts:94-101 | filtering keeps the registry's order |
| FsWatcher.FilterWatchedPartition | src/fswatcher.ts:94-101 | the watched and the unwatched files together are all the files, each once |
| FsWatcher.RemoveAtCount | src/fswatcher.ts:126 | splicing out one element removes one occurrence of it and nothing else |
| FsWatcher.ErbFileManager.constructor | src/fswatcher.ts:104-107 | no files and not inited |
| FsWatcher.ErbFileManager.AllWatchedErb | src/fswatcher.ts:94-97 | the uninited error before `init`; afterwards exactly the watched files, in registry order (`FilterWatched(erbFiles, true)`) |
| FsWatcher.ErbFileManager.AllUnwatchedErb | src/fswatcher.ts:98-101 | the uninited error before `init`; afterwards exactly the unwatched files, in registry order (`FilterWatched(erbFiles, false)`) |
| FsWatcher.ErbFileManager.Init | src/fswatcher.ts:109-112 | inited, holding one new, freshly discovered file per found location, in order |
| FsWatcher.ErbFileManager.AddErb | src/fswatcher.ts:114-121 | a heading in the batch is refused first, even before `init`; then the uninited error; otherwise the batch is appended in order; refusals change nothing |
| FsWatcher.ErbFileManager.RemoveErb | src/fswatcher.ts:123-128 | the first file at that path is spliced out, the others keep their order; no-op when none matches; works before `init` |
| FsWatcher.ErbFileManager.WatchErb | src/fswatcher.ts:130-137 | the first file with the same location object is watched and no other changes; reports failure and changes nothing when it is not tracked |
| FsWatcher.ErbFileManager.UnwatchErb | src/fswatcher.ts:139-146 | the first file with the same location object is unwatched and no other changes; reports failure and changes nothing when it is not tracked |
| FsWatcher.ErbFileManager.OnChangeTextDocument | src/fswatcher.ts:148-157 | does nothing without an active document, without a file at the path, or for an unwatched file; otherwise compile-writes the preprocessed active text for that file only |
| FsWatcher.RemovedPathGone | src/fswatcher.ts:123-128 | after removing the only file at a path, no file is at that path, so a later change there is a no-op |
| Diagnostic.LineIndex | src/diagnostic.ts:41-42 | the named line is at least -1 (the field minus one) |
| Diagnostic.AnalyzeErbError | src/diagnostic.ts:36-47 | never the `null` of the empty-split guard; a diagnostic exactly when the named line exists, spanning column 0 to that line's length, message `ERROR`, error severity |
| Diagnostic.FirstLineOnly | src/diagnostic.ts:37-39 | whatever follows the first newline of the message leaves the analysis unchanged |
| Diagnostic.LocationEnd | src/diagnostic.ts:41 | in `path:digits:in...` with no `:` in the path, the first `:in` follows the digits |
| Diagnostic.LocationOf | src/diagnostic.ts:41 | the part before the first `:in` is `path:digits` |
| Diagnostic.FieldsOf | src/diagnostic.ts:42 | `path:digits` splits at `:` into exactly the path and the digits |
| Diagnostic.LineIndexRoundTrip | src/diagnostic.ts:41-42 | a first line `path:N:in...` names line N - 1 |
| Diagnostic.SampleMainLine | src/diagnostic.ts:27 | the example's first line is `./DOG.md.erb:5:in` followed by the cause |
| Diagnostic.SampleNamesLineFour | src/diagnostic.ts:26-47 | the example message names line 4 and yields the diagnostic over that line |
| Diagnostic.RefreshDiagnostics | src/diagnostic.ts:49-61 | the diagnostics are cleared exactly when `erb` is missing or the template compiles; otherwise at most one diagnostic, the analysis's, is set; nothing is updated when the analysis finds no line |

## Left out

- File I/O is not modelled; its results are parameters and its effects are returned values.
  - `readFileSync` and `JSON.parse` are the `decode` parameter.
  - `fs.writeFileSync` is the returned `Write`.
  - `findFiles` is the list of found paths or locations.
- The JSON shape is not checked: a JSON value that is not an array of entries is not modelled, only a list of entries or a decode error.
- The `erb` npm renderer and its 500 ms timeout are the `render` parameter.
- The native `erb` and `which` processes are the `compiled` parameter.
- Asynchrony is not modelled; each operation runs as one atomic step.
  - `init` awaits a scan.
  - `compileWrite` is fire-and-forget, and overlapping compiles race, last write winning.
- Messages shown with `showErrorMessage` become returned values: the warnings of `Init` and `OnRefFileChanged`, and the `found` flag of `WatchErb`/`UnwatchErb`.
- `treeProvider.refresh()`, an `ErbFile`'s `description`, `tooltip` and `refpath` (always null), and `rootPath` are presentation only.
- `src/tree.ts`, `src/completion.ts`, `src/configuration.ts` and `src/extension.ts` are not part of this model.
- `vscode.Uri` is reduced to its path and object identity; schemes and `fsPath` are not modelled.
- `path.parse` is modelled as the text before and after the last `/`; root paths, trailing slashes and Windows separators are not.
- `Number()` is modelled for strings of decimal digits only, the empty string being 0. Whitespace, signs, hex, decimals and exponents, which JavaScript would convert, lead to no diagnostic in the model.
- The hover provider takes the line's text and the cursor column as inputs; `document.lineAt` and the cancellation token are not modelled.
- JavaScript numbers are doubles; here indices and line numbers are unbounded integers.
- JavaScript strings are UTF-16 code units; here they are sequences of Unicode code points. A character outside the Basic Multilingual Plane counts 2 in the source and 1 here. On lines holding such characters, the diagnostic's end column (`doc.lineAt(n).text.length`, `src/diagnostic.ts:43`) and the hover's cursor column (`position.character`, `src/preprocessor.ts:129-130`) differ from the source's.
- A thrown value without a name (anything but an `Error` instance) is not modelled. `readFileSync` and `JSON.parse` throw only `Error` and `SyntaxError` instances.
- Preprocessor.PlaceholderFirstOnly: stated for entries without `$`, because `replace` interprets `$` patterns in the list; `DollarPatternInEntryText` shows the other case.
- Preprocessor.MarkerStep: stated for aliases without `$`, for the same reason.
- Preprocessor.RefsMarkdownLines: stated for entries without newlines, since a newline inside a field splits its line.
- FsWatcher.ErbFileManager.WatchErb: requires a file with a location; for a heading the source's own error message dereferences the null location and throws.
- FsWatcher.ErbFileManager.UnwatchErb: requires a file with a location, for the same reason.
- FsWatcher.ErbFile.WriteMd: requires a location or a cached output path; without either the source's `uri!!.path` throws.
- FsWatcher.ErbFileManager.OnChangeTextDocument: "no render call" for an unwatched file shows as no write and no state change, since the renderer is a pure function here.
