/** Error diagnostics for a template: the line named by the `erb` command's error message, and the
    update of the document's diagnostics after a check. */
module Diagnostic {
  import opened Wrappers
  import opened Strings

  /** A span of a document: start line and column, end line and column (all 0-based). */
  datatype Range = Range(startLine: nat, startCharacter: nat, endLine: nat, endCharacter: nat)

  datatype DiagnosticSeverity = Error | Warning | Information | Hint

  datatype Diagnostic = Diagnostic(range: Range, message: string, severity: DiagnosticSeverity)

  /** What `analyzeErbError` comes to: no diagnostic (its `null` for an empty split, which never
      happens), no readable line (the line field is not a number, or names no line of the document,
      and `lineAt` throws), or the diagnostic for the named line. */
  datatype Analysis = NoDiagnostic | NoLine | Found(diagnostic: Diagnostic)

  const ErrorMessage: string := "ERROR"

  /** The first line of the message; the stack lines after it are never read. */
  function MainLine(emsg: string): string {
    Split(emsg, "\n")[0]
  }

  /** The part of a line before its first `:in`, then the second of its `:`-separated fields. */
  function LineField(mainline: string): Option<string> {
    var location := Split(mainline, ":in")[0];
    var fields := Split(location, ":");
    if |fields| < 2 then None else Some(fields[1])
  }

  /** The 0-based line a message's first line names: its line field as a decimal number, minus one.
      `None` when the field is missing or is not a string of decimal digits. */
  function LineIndex(mainline: string): (r: Option<int>)
    ensures r.Some? ==> r.value >= -1
  {
    match LineField(mainline)
    case None => None
    case Some(f) => if AllDigits(f) then Some(DecimalValue(f) - 1) else None
  }

  /** `analyzeErbError`: a diagnostic over the whole named line, with message `ERROR` and error
      severity, when that line exists in the document (given as its lines). */
  function AnalyzeErbError(emsg: string, docLines: seq<string>): (r: Analysis)
    ensures !r.NoDiagnostic?
    ensures r.Found? <==>
      LineIndex(MainLine(emsg)).Some? && 0 <= LineIndex(MainLine(emsg)).value < |docLines|
    ensures r.Found? ==>
      var n := LineIndex(MainLine(emsg)).value;
      r.diagnostic.range == Range(n, 0, n, |docLines[n]|) &&
      r.diagnostic.message == ErrorMessage && r.diagnostic.severity == Error
  {
    var lines := Split(emsg, "\n");
    if |lines| < 1 then NoDiagnostic
    else
      match LineIndex(lines[0])
      case None => NoLine
      case Some(n) =>
        if 0 <= n < |docLines| then
          Found(Diagnostic(Range(n, 0, n, |docLines[n]|), ErrorMessage, Error))
        else NoLine
  }

  /** Only the first line of the message matters: whatever follows the first newline leaves the
      analysis unchanged. */
  lemma FirstLineOnly(first: string, rest: string, docLines: seq<string>)
    requires '\n' !in first
    ensures MainLine(first + "\n" + rest) == first
    ensures AnalyzeErbError(first + "\n" + rest, docLines) == AnalyzeErbError(first, docLines)
  {
    var s := first + "\n" + rest;
    IndexOfChar(first, '\n', rest);
    assert s[..|first|] == first;
    IndexOfCharAbsent(first, '\n');
  }

  /** In `path:digits:in...` the first `:in` is the one after the digits, when the path has no `:`. */
  lemma LocationEnd(path: string, digits: string, rest: string)
    requires ':' !in path && |digits| >= 1 && AllDigits(digits)
    ensures IndexOf(path + ":" + digits + ":in" + rest, ":in") == Some(|path| + 1 + |digits|)
  {
    var s := path + ":" + digits + ":in" + rest;
    var k := |path| + 1 + |digits|;
    assert s[k..k + 3] == ":in";
    assert MatchAt(s, ":in", k);
    forall j: nat | j < k ensures !MatchAt(s, ":in", j) {
      if j + 3 <= |s| {
        assert s[j..j + 3][0] == s[j];
        assert s[j..j + 3][1] == s[j + 1];
        if j < |path| {
          assert s[j] == path[j];
        } else if j > |path| {
          assert s[j] == digits[j - |path| - 1];
        } else {
          assert s[j + 1] == digits[0];
        }
      }
    }
  }

  /** The part before the first `:in` of `path:digits:in...` is `path:digits`. */
  lemma LocationOf(path: string, digits: string, rest: string)
    requires ':' !in path && |digits| >= 1 && AllDigits(digits)
    ensures Split(path + ":" + digits + ":in" + rest, ":in")[0] == path + ":" + digits
  {
    var s := path + ":" + digits + ":in" + rest;
    LocationEnd(path, digits, rest);
    assert s[..|path| + 1 + |digits|] == path + ":" + digits;
  }

  /** `path:digits`, with no `:` in the path, splits at `:` into the path and the digits. */
  lemma FieldsOf(path: string, digits: string)
    requires ':' !in path && AllDigits(digits)
    ensures Split(path + ":" + digits, ":") == [path, digits]
  {
    var location := path + ":" + digits;
    IndexOfChar(path, ':', digits);
    assert location[|path| + 1..] == digits;
    assert ':' !in digits by {
      forall k | 0 <= k < |digits| ensures digits[k] != ':' {
        assert IsDigit(digits[k]);
      }
    }
    IndexOfCharAbsent(digits, ':');
    assert location[..|path|] == path;
    assert Split(digits, ":") == [digits];
  }

  /** A line `path:N:in...`, with no `:` in the path and N written in decimal, names line N - 1. */
  lemma LineIndexRoundTrip(path: string, n: nat, rest: string)
    requires ':' !in path
    ensures LineIndex(path + ":" + Digits(n + 1) + ":in" + rest) == Some(n)
  {
    var digits := Digits(n + 1);
    LocationOf(path, digits, rest);
    FieldsOf(path, digits);
    DecimalDigits(n + 1);
  }

  /** The `erb` message the source shows as an example: a failure on line 5 of `./DOG.md.erb`,
      followed by the Ruby stack. */
  const SamplePath: string := "./DOG.md.erb"
  const SampleCause: string :=
    " `<main>': " + "undefined " + "local variable" + " or method " + "`hoge' for " + "main:Object " + "(NameError)"
  const SampleStack: string :=
    "        from /usr/lib/ruby/3.0.0/erb.rb:905:in `eval'\n" +
    "        from /usr/lib/ruby/3.0.0/erb.rb:905:in `result'\n" +
    "        from /usr/lib/ruby/3.0.0/erb.rb:890:in `run'\n" +
    "        from /usr/lib/ruby/gems/3.0.0/gems/erb-2.2.0/libexec/erb:154:in `run'\n" +
    "        from /usr/lib/ruby/gems/3.0.0/gems/erb-2.2.0/libexec/erb:174:in `<top (required)>'\n" +
    "        from /usr/bin/erb:23:in `load'\n" +
    "        from /usr/bin/erb:23:in `<main>'"
  const SampleMain: string := SamplePath + ":5:in" + SampleCause

  lemma SampleMainLine()
    ensures SampleMain == SamplePath + ":" + Digits(4 + 1) + ":in" + SampleCause
  {
    assert Digits(5) == "5";
  }

  lemma SampleMainSingleLine()
    ensures '\n' !in SampleMain
  {
    assert '\n' !in SamplePath && '\n' !in ":5:in";
    assert '\n' !in " `<main>': " && '\n' !in "undefined " && '\n' !in "local variable";
    assert '\n' !in " or method " && '\n' !in "`hoge' for ";
    assert '\n' !in "main:Object " && '\n' !in "(NameError)";
  }

  /** The example message names line 4 (0-based): a document with at least five lines gets one
      diagnostic spanning its fifth line. */
  lemma SampleNamesLineFour(docLines: seq<string>)
    requires |docLines| >= 5
    ensures LineIndex(MainLine(SampleMain + "\n" + SampleStack)) == Some(4)
    ensures AnalyzeErbError(SampleMain + "\n" + SampleStack, docLines)
      == Found(Diagnostic(Range(4, 0, 4, |docLines[4]|), "ERROR", Error))
  {
    SampleMainLine();
    SampleMainSingleLine();
    assert ':' !in SamplePath;
    LineIndexRoundTrip(SamplePath, 4, SampleCause);
    FirstLineOnly(SampleMain, SampleStack, docLines);
  }

  /** What a check does to the document's diagnostics: replace them, or leave them as they were
      (the analysis threw before anything was set). */
  datatype Update = SetDiagnostics(diagnostics: seq<Diagnostic>) | NoUpdate

  /** `refreshDiagnostics`: `compiled` is the `erb` check's outcome, `None` when the command is
      missing, `""` when the template compiles, and the error text otherwise. */
  function RefreshDiagnostics(docLines: seq<string>, compiled: Option<string>): (r: Update)
    ensures r == SetDiagnostics([]) <==> compiled.None? || compiled.value == ""
    ensures r.SetDiagnostics? ==> |r.diagnostics| <= 1
    ensures r.SetDiagnostics? && |r.diagnostics| == 1 ==>
      compiled.Some? && AnalyzeErbError(compiled.value, docLines) == Found(r.diagnostics[0])
    ensures r.NoUpdate? <==>
      compiled.Some? && compiled.value != "" && !AnalyzeErbError(compiled.value, docLines).Found?
  {
    if compiled.None? || compiled.value == "" then SetDiagnostics([])
    else
      match AnalyzeErbError(compiled.value, docLines)
      case Found(d) => SetDiagnostics([d])
      case _ => NoUpdate
  }
}
