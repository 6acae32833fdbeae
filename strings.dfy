/** The JavaScript string operations the extension relies on, with their ECMAScript semantics:
    `indexOf`, `replace` with a string pattern, `split` and `join` with a string separator,
    `startsWith`, number-to-decimal conversion, and the `dir`/`base` parts of `path.parse`. */
module Strings {
  import opened Wrappers

  /** `pat` occurs in `s` starting at index `i`. */
  predicate MatchAt(s: string, pat: string, i: nat) {
    i + |pat| <= |s| && s[i..i + |pat|] == pat
  }

  /** `s.indexOf(pat, from)`: the first index at or after `from` where `pat` occurs. */
  function IndexFrom(s: string, pat: string, from: nat): (r: Option<nat>)
    requires from <= |s|
    decreases |s| - from
    ensures r.Some? ==> from <= r.value && MatchAt(s, pat, r.value)
    ensures r.Some? ==> forall j :: from <= j < r.value ==> !MatchAt(s, pat, j)
    ensures r.None? ==> forall j :: from <= j ==> !MatchAt(s, pat, j)
  {
    if from + |pat| > |s| then None
    else if s[from..from + |pat|] == pat then Some(from)
    else IndexFrom(s, pat, from + 1)
  }

  /** `s.indexOf(pat)`, None standing for -1. */
  function IndexOf(s: string, pat: string): (r: Option<nat>)
    ensures r.Some? ==> MatchAt(s, pat, r.value) && forall j :: 0 <= j < r.value ==> !MatchAt(s, pat, j)
    ensures r.None? ==> forall j :: 0 <= j ==> !MatchAt(s, pat, j)
  {
    IndexFrom(s, pat, 0)
  }

  /** A one-character pattern occurs exactly where that character stands. */
  lemma MatchAtChar(s: string, c: char, j: nat)
    ensures MatchAt(s, [c], j) <==> j < |s| && s[j] == c
  {
    if j < |s| && s[j] == c {
      assert s[j..j + 1] == [c];
    }
  }

  /** The first occurrence of a one-character pattern is the first position holding that character. */
  lemma IndexOfChar(a: string, c: char, b: string)
    requires c !in a
    ensures IndexOf(a + [c] + b, [c]) == Some(|a|)
  {
    var s := a + [c] + b;
    MatchAtChar(s, c, |a|);
    forall j | 0 <= j < |a| ensures !MatchAt(s, [c], j) {
      MatchAtChar(s, c, j);
      assert s[j] == a[j];
    }
    match IndexOf(s, [c])
    case None =>
    case Some(i) =>
      MatchAtChar(s, c, i);
      if i > |a| {
        assert MatchAt(s, [c], |a|);
      }
  }

  /** A one-character pattern absent from `s` is not found. */
  lemma IndexOfCharAbsent(s: string, c: char)
    requires c !in s
    ensures IndexOf(s, [c]) == None
  {
    match IndexOf(s, [c])
    case None =>
    case Some(i) =>
      MatchAtChar(s, c, i);
  }

  /** The replacement string after ECMAScript's GetSubstitution for a string pattern: `$$` is a
      dollar sign, `$&` the matched text, `` $` `` the text before the match, `$'` the text after it;
      every other character, and every other `$`, stands for itself. */
  function Substitute(rep: string, matched: string, before: string, after: string): (r: string)
    decreases |rep|
  {
    if rep == [] then []
    else if |rep| >= 2 && rep[0] == '$' && rep[1] == '$' then "$" + Substitute(rep[2..], matched, before, after)
    else if |rep| >= 2 && rep[0] == '$' && rep[1] == '&' then matched + Substitute(rep[2..], matched, before, after)
    else if |rep| >= 2 && rep[0] == '$' && rep[1] == '`' then before + Substitute(rep[2..], matched, before, after)
    else if |rep| >= 2 && rep[0] == '$' && rep[1] == '\'' then after + Substitute(rep[2..], matched, before, after)
    else [rep[0]] + Substitute(rep[1..], matched, before, after)
  }

  /** A replacement without `$` is inserted as it is. */
  lemma {:induction false} SubstituteLiteral(rep: string, matched: string, before: string, after: string)
    requires '$' !in rep
    ensures Substitute(rep, matched, before, after) == rep
  {
    if rep != [] {
      assert rep == [rep[0]] + rep[1..];
      SubstituteLiteral(rep[1..], matched, before, after);
    }
  }

  /** A `$`-free head of the replacement is inserted as it is, whatever follows it. */
  lemma {:induction false} SubstituteLiteralHead(x: string, y: string, matched: string, before: string, after: string)
    requires '$' !in x
    ensures Substitute(x + y, matched, before, after) == x + Substitute(y, matched, before, after)
  {
    if x == [] {
      assert x + y == y;
    } else {
      assert (x + y)[0] == x[0] && (x + y)[1..] == x[1..] + y;
      SubstituteLiteralHead(x[1..], y, matched, before, after);
    }
  }

  /** `s.replace(pat, rep)` with a string pattern: only the first occurrence is replaced. */
  function Replace(s: string, pat: string, rep: string): (r: string)
  {
    match IndexOf(s, pat)
    case None => s
    case Some(i) => s[..i] + Substitute(rep, pat, s[..i], s[i + |pat|..]) + s[i + |pat|..]
  }

  /** With a `$`-free replacement, `replace` cuts out the first occurrence of `pat`, puts `rep` in its
      place and keeps everything after it, later occurrences included, verbatim; without an
      occurrence it changes nothing. */
  lemma ReplaceFirstLiteral(s: string, pat: string, rep: string)
    requires '$' !in rep
    ensures IndexOf(s, pat).None? ==> Replace(s, pat, rep) == s
    ensures IndexOf(s, pat).Some? ==>
      var i := IndexOf(s, pat).value;
      Replace(s, pat, rep) == s[..i] + rep + s[i + |pat|..]
  {
    if IndexOf(s, pat).Some? {
      var i := IndexOf(s, pat).value;
      SubstituteLiteral(rep, pat, s[..i], s[i + |pat|..]);
    }
  }

  /** A search result moved `k` positions to the right. */
  function Shift(r: Option<nat>, k: nat): Option<nat> {
    match r
    case None => None
    case Some(i) => Some(i + k)
  }

  /** A pattern one of whose characters is absent from `s` does not occur in it. */
  lemma IndexOfMissingChar(s: string, pat: string, q: nat)
    requires q < |pat| && pat[q] !in s
    ensures IndexOf(s, pat) == None
  {
    forall i: nat | i + |pat| <= |s| ensures !MatchAt(s, pat, i) {
      assert s[i..i + |pat|][q] == s[i + q];
    }
  }

  /** `indexOf` is determined by where the pattern occurs: a match with none before it is the
      first, and no match at all is `None`. */
  lemma IndexOfUnique(s: string, pat: string, r: Option<nat>)
    requires r.Some? ==> MatchAt(s, pat, r.value) && forall j :: 0 <= j < r.value ==> !MatchAt(s, pat, j)
    requires r.None? ==> forall j :: 0 <= j ==> !MatchAt(s, pat, j)
    ensures IndexOf(s, pat) == r
  {
    var t := IndexOf(s, pat);
    if t.Some? {
      assert MatchAt(s, pat, t.value);
    }
  }

  /** Searching `a + b` with no occurrence starting inside `a` searches `b`. */
  lemma IndexOfShifted(a: string, b: string, pat: string)
    requires forall j :: 0 <= j < |a| ==> !MatchAt(a + b, pat, j)
    ensures IndexOf(a + b, pat) == Shift(IndexOf(b, pat), |a|)
  {
    var s := a + b;
    assert s[|a|..] == b;
    forall j: nat ensures MatchAt(b, pat, j) <==> MatchAt(s, pat, j + |a|) {
      MatchAtSuffix(s, |a|, pat, j);
    }
    match IndexOf(b, pat)
    case None =>
      forall j | 0 <= j ensures !MatchAt(s, pat, j) {
        if j >= |a| {
          assert !MatchAt(b, pat, j - |a|);
        }
      }
      IndexOfUnique(s, pat, None);
    case Some(k) =>
      forall j | 0 <= j < k + |a| ensures !MatchAt(s, pat, j) {
        if j >= |a| {
          assert !MatchAt(b, pat, j - |a|);
        }
      }
      IndexOfUnique(s, pat, Some(k + |a|));
  }

  /** Searching `a + b` where `a` lacks the pattern's first character searches `b`. */
  lemma IndexOfSkip(a: string, b: string, pat: string)
    requires |pat| > 0 && pat[0] !in a
    ensures IndexOf(a + b, pat) == Shift(IndexOf(b, pat), |a|)
  {
    var s := a + b;
    forall j | 0 <= j < |a| ensures !MatchAt(s, pat, j) {
      if j + |pat| <= |s| {
        assert s[j..j + |pat|][0] == a[j];
      }
    }
    IndexOfShifted(a, b, pat);
  }

  /** Searching `a + b` where `a` lacks the pattern's second character and does not end with its
      first searches `b`. */
  lemma IndexOfSkipPair(a: string, b: string, pat: string)
    requires |pat| >= 2 && |a| > 0 && pat[1] !in a && a[|a| - 1] != pat[0]
    ensures IndexOf(a + b, pat) == Shift(IndexOf(b, pat), |a|)
  {
    var s := a + b;
    forall j | 0 <= j < |a| ensures !MatchAt(s, pat, j) {
      if j + |pat| <= |s| {
        assert s[j..j + |pat|][0] == s[j];
        assert s[j..j + |pat|][1] == s[j + 1];
        if j + 1 < |a| {
          assert s[j + 1] == a[j + 1];
        } else {
          assert s[j] == a[|a| - 1];
        }
      }
    }
    IndexOfShifted(a, b, pat);
  }

  /** Without a match at the first position, searching continues from the second. */
  lemma IndexOfSkipOne(s: string, pat: string)
    requires |s| > 0 && !MatchAt(s, pat, 0)
    ensures IndexOf(s, pat) == Shift(IndexOf(s[1..], pat), 1)
  {
    assert s == s[..1] + s[1..];
    IndexOfShifted(s[..1], s[1..], pat);
  }

  /** `s.split(sep)` with a non-empty string separator: the pieces between non-overlapping
      occurrences found left to right. */
  function Split(s: string, sep: string): (r: seq<string>)
    requires |sep| > 0
    decreases |s|
    ensures |r| >= 1
  {
    match IndexOf(s, sep)
    case None => [s]
    case Some(i) => [s[..i]] + Split(s[i + |sep|..], sep)
  }

  /** `parts.join(sep)`; the empty array joins to the empty string. */
  function Join(parts: seq<string>, sep: string): (r: string)
    decreases |parts|
  {
    if |parts| == 0 then ""
    else if |parts| == 1 then parts[0]
    else parts[0] + sep + Join(parts[1..], sep)
  }

  /** A character found neither in the parts nor in the separator is not in their join. */
  lemma {:induction false} JoinExcludes(parts: seq<string>, sep: string, c: char)
    requires c !in sep
    requires forall k :: 0 <= k < |parts| ==> c !in parts[k]
    ensures c !in Join(parts, sep)
    decreases |parts|
  {
    if |parts| > 1 {
      JoinExcludes(parts[1..], sep, c);
    }
  }

  /** Splitting at a character that no part contains gives the joined parts back. */
  lemma {:induction false} SplitJoin(parts: seq<string>, c: char)
    requires |parts| >= 1
    requires forall k :: 0 <= k < |parts| ==> c !in parts[k]
    ensures Split(Join(parts, [c]), [c]) == parts
  {
    if |parts| == 1 {
      IndexOfCharAbsent(parts[0], c);
    } else {
      var rest := Join(parts[1..], [c]);
      IndexOfChar(parts[0], c, rest);
      var s := parts[0] + [c] + rest;
      assert s[..|parts[0]|] == parts[0];
      assert s[|parts[0]| + 1..] == rest;
      SplitJoin(parts[1..], c);
      assert parts == [parts[0]] + parts[1..];
    }
  }

  /** The first piece of a split at one character is the longest prefix free of that character. */
  lemma SplitFirstChar(s: string, c: char)
    ensures var p := Split(s, [c])[0];
      |p| <= |s| && p == s[..|p|] && c !in p && (|p| == |s| || s[|p|] == c)
  {
    match IndexOf(s, [c])
    case None =>
      forall j | 0 <= j < |s| ensures s[j] != c {
        MatchAtChar(s, c, j);
      }
    case Some(i) =>
      MatchAtChar(s, c, i);
      forall j | 0 <= j < i ensures s[j] != c {
        MatchAtChar(s, c, j);
      }
  }

  /** An occurrence in a suffix of `s` is an occurrence in `s`, shifted by where the suffix starts. */
  lemma MatchAtSuffix(s: string, d: nat, pat: string, j: nat)
    requires d <= |s|
    ensures MatchAt(s[d..], pat, j) <==> MatchAt(s, pat, d + j)
  {
    if d + j + |pat| <= |s| {
      assert s[d..][j..j + |pat|] == s[d + j..d + j + |pat|];
    }
  }

  /** The last piece of `s.split(sep)`. */
  function LastPiece(s: string, sep: string): string
    requires |sep| > 0
  {
    var r := Split(s, sep);
    r[|r| - 1]
  }

  /** After a separator is found, the last piece is the last piece of the text after it. */
  lemma LastPieceStep(s: string, sep: string)
    requires |sep| > 0 && IndexOf(s, sep).Some?
    ensures LastPiece(s, sep) == LastPiece(s[IndexOf(s, sep).value + |sep|..], sep)
  {
    var i := IndexOf(s, sep).value;
    assert Split(s, sep) == [s[..i]] + Split(s[i + |sep|..], sep);
  }

  /** The last piece of a split is the text after the last separator: a suffix of `s` holding no
      separator, which is either all of `s` or immediately preceded by the separator. */
  lemma {:induction false} SplitLast(s: string, sep: string)
    requires |sep| > 0
    ensures |LastPiece(s, sep)| <= |s|
    ensures LastPiece(s, sep) == s[|s| - |LastPiece(s, sep)|..]
    ensures IndexOf(LastPiece(s, sep), sep).None?
    ensures |LastPiece(s, sep)| == |s| ||
      (|LastPiece(s, sep)| + |sep| <= |s| && MatchAt(s, sep, |s| - |LastPiece(s, sep)| - |sep|))
  {
    LastPieceSuffix(s, sep);
    LastPieceNoSep(s, sep);
  }

  lemma {:induction false} LastPieceNoSep(s: string, sep: string)
    requires |sep| > 0
    ensures IndexOf(LastPiece(s, sep), sep).None?
    decreases |s|
  {
    match IndexOf(s, sep)
    case None =>
      assert LastPiece(s, sep) == s;
    case Some(i) =>
      LastPieceStep(s, sep);
      LastPieceNoSep(s[i + |sep|..], sep);
  }

  /** The last piece starts at some k: at the start of `s`, or right after a separator. */
  lemma {:induction false} LastPieceStart(s: string, sep: string) returns (k: nat)
    requires |sep| > 0
    ensures k <= |s| && LastPiece(s, sep) == s[k..]
    ensures k == 0 || (k >= |sep| && MatchAt(s, sep, k - |sep|))
    decreases |s|
  {
    var r := IndexOf(s, sep);
    if r.None? {
      assert LastPiece(s, sep) == s == s[0..];
      k := 0;
    } else {
      var d := r.value + |sep|;
      var k' := LastPieceStart(s[d..], sep);
      k := LastPieceStartStep(s, sep, k');
    }
  }

  /** Where the last piece of the text after the first separator starts, shifted into `s`. */
  lemma LastPieceStartStep(s: string, sep: string, k': nat) returns (k: nat)
    requires |sep| > 0 && IndexOf(s, sep).Some?
    requires var tail := s[IndexOf(s, sep).value + |sep|..];
      k' <= |tail| && LastPiece(tail, sep) == tail[k'..] &&
      (k' == 0 || (k' >= |sep| && MatchAt(tail, sep, k' - |sep|)))
    ensures k <= |s| && LastPiece(s, sep) == s[k..]
    ensures k == 0 || (k >= |sep| && MatchAt(s, sep, k - |sep|))
  {
    var i := IndexOf(s, sep).value;
    var d := i + |sep|;
    var tail := s[d..];
    LastPieceStep(s, sep);
    k := d + k';
    assert tail[k'..] == s[k..];
    if k' > 0 {
      MatchAtSuffix(s, d, sep, k' - |sep|);
    } else {
      assert MatchAt(s, sep, i);
    }
  }

  lemma LastPieceSuffix(s: string, sep: string)
    requires |sep| > 0
    ensures |LastPiece(s, sep)| <= |s|
    ensures LastPiece(s, sep) == s[|s| - |LastPiece(s, sep)|..]
    ensures |LastPiece(s, sep)| == |s| ||
      (|LastPiece(s, sep)| + |sep| <= |s| && MatchAt(s, sep, |s| - |LastPiece(s, sep)| - |sep|))
  {
    var k := LastPieceStart(s, sep);
    assert |s| - |LastPiece(s, sep)| == k;
  }

  /** `s.startsWith(prefix)`. */
  predicate StartsWith(s: string, prefix: string) {
    |prefix| <= |s| && s[..|prefix|] == prefix
  }

  predicate IsDigit(c: char) {
    '0' <= c <= '9'
  }

  predicate AllDigits(s: string) {
    forall k :: 0 <= k < |s| ==> IsDigit(s[k])
  }

  /** The decimal text JavaScript gives a non-negative integer (`${n}`). */
  function Digits(n: nat): (r: string)
    ensures |r| >= 1 && AllDigits(r)
    ensures r[0] == '0' ==> n == 0
  {
    if n < 10 then [(n + '0' as int) as char]
    else Digits(n / 10) + [(n % 10 + '0' as int) as char]
  }

  /** The value of a string of decimal digits; the empty string counts as 0, as `Number('')` does. */
  function DecimalValue(s: string): (r: nat)
    requires AllDigits(s)
  {
    if s == [] then 0
    else DecimalValue(s[..|s| - 1]) * 10 + (s[|s| - 1] as int - '0' as int)
  }

  /** Reading back the decimal text of a number gives that number. */
  lemma {:induction false} DecimalDigits(n: nat)
    ensures DecimalValue(Digits(n)) == n
  {
    if n >= 10 {
      var d := Digits(n);
      assert d[..|d| - 1] == Digits(n / 10);
      DecimalDigits(n / 10);
    }
  }

  /** The index of the last occurrence of `c` in `s`. */
  function LastIndexOf(s: string, c: char): (r: Option<nat>)
    ensures r.Some? ==> r.value < |s| && s[r.value] == c && forall j :: r.value < j < |s| ==> s[j] != c
    ensures r.None? <==> c !in s
  {
    if s == [] then None
    else if s[|s| - 1] == c then Some(|s| - 1)
    else LastIndexOf(s[..|s| - 1], c)
  }

  /** `path.parse(p).dir`, simplified to everything before the last `/` (empty without one). */
  function Dirname(p: string): (r: string)
    ensures '/' !in p ==> r == ""
    ensures '/' in p ==> |r| < |p| && p[..|r|] == r && p[|r|] == '/' && '/' !in p[|r| + 1..]
  {
    match LastIndexOf(p, '/')
    case None => ""
    case Some(i) => p[..i]
  }

  /** `path.parse(p).base`, simplified to everything after the last `/`. */
  function Basename(p: string): (r: string)
    ensures '/' !in r
    ensures '/' in p ==> p == Dirname(p) + "/" + r
    ensures '/' !in p ==> r == p
  {
    match LastIndexOf(p, '/')
    case None => p
    case Some(i) => p[i + 1..]
  }
}
