/** Worked instances of the template expansion, each proved from the general lemmas. */
module PreprocessorExamples {
  import opened Wrappers
  import opened Strings
  import opened Preprocessor

  /** A text that opens with a head the pattern does not start with (they differ at k), and whose
      head holds the pattern's first character at most at its start, is searched from the end of
      that head. */
  lemma SkipMismatch(head: string, b: string, pat: string, k: nat)
    requires k < |head| <= |pat| && head[k] != pat[k] && pat[0] !in head[1..]
    ensures IndexOf(head + b, pat) == Shift(IndexOf(b, pat), |head|)
  {
    var s := head + b;
    assert s[k] == head[k];
    assert s[1..] == head[1..] + b;
    IndexOfSkipOne(s, pat);
    IndexOfSkip(head[1..], b, pat);
  }

  /** Two lines joined by a newline. */
  lemma JoinTwo(l1: string, l2: string)
    ensures Join([l1, l2], "\n") == l1 + "\n" + l2
  {
    assert [l1, l2][1..] == [l2];
  }

  // ---------------------------------------------------------------------------------------------
  // The two-entry dataset

  const Refs2: seq<RefEntry> := [RefEntry("A", "u1", "a1"), RefEntry("B", "u2", "a2")]
  /** `1. [A](u1)<span id="a1"></span>` and `2. [B](u2)<span id="a2"></span>`, in the pieces
      `refent2md` assembles them from. */
  const Line1: string := "1" + ". [" + "A" + "](" + "u1" + ")<span id=\"" + "a1" + "\"></span>"
  const Line2: string := "2" + ". [" + "B" + "](" + "u2" + ")<span id=\"" + "a2" + "\"></span>"
  const Before: string := "See [&a2] and "
  /** The list for any two entries: two lines numbered 1 and 2. */
  lemma ListOfTwo(a: RefEntry, b: RefEntry)
    ensures RefsMarkdown([a, b]) == EntryLine(a, 1) + "\n" + EntryLine(b, 2)
  {
    assert RefLines([a, b]) == [EntryLine(a, 1), EntryLine(b, 2)];
    JoinTwo(EntryLine(a, 1), EntryLine(b, 2));
  }

  lemma DigitOne()
    ensures Digits(1) == "1"
  {
  }

  lemma DigitTwo()
    ensures Digits(2) == "2"
  {
  }

  lemma FirstLine()
    ensures EntryLine(Refs2[0], 1) == Line1
  {
    DigitOne();
  }

  lemma SecondLine()
    ensures EntryLine(Refs2[1], 2) == Line2
  {
    DigitTwo();
  }

  const Listed: string := Line1 + "\n" + Line2

  lemma TwoEntryList()
    ensures RefsMarkdown(Refs2) == Listed
  {
    ListOfTwo(Refs2[0], Refs2[1]);
    FirstLine();
    SecondLine();
  }

  lemma TwoEntryPlaceholder()
    ensures Replace(Before + RefsPlaceholder, RefsPlaceholder, RefsMarkdown(Refs2)) == Before + Listed
  {
    TwoEntryList();
    assert MatchAt(RefsPlaceholder, RefsPlaceholder, 0);
    IndexOfSkip(Before, RefsPlaceholder, RefsPlaceholder);
    PlaceholderFirstOnly(Before + RefsPlaceholder, Refs2);
    assert (Before + RefsPlaceholder)[..|Before|] == Before;
    assert (Before + RefsPlaceholder)[|Before| + |RefsPlaceholder|..] == "";
  }

  /** The template text before the placeholder holds `[&a2]` at 4 and no `[&a1]`. */
  lemma BeforeSearch(x: string)
    ensures IndexOf(Before + x, Marker("a1")) == Shift(IndexOf(x, Marker("a1")), |Before|)
    ensures IndexOf(Before + x, Marker("a2")) == Some(4)
  {
    var m := Marker("a1");
    assert Before + x == "See " + ("[&a2" + ("] and " + x));
    IndexOfSkip("] and ", x, m);
    SkipMismatch("[&a2", "] and " + x, m, 3);
    IndexOfSkip("See ", "[&a2" + ("] and " + x), m);
    assert MatchAt("[&a2" + ("] and " + x), Marker("a2"), 0);
    IndexOfSkip("See ", "[&a2" + ("] and " + x), Marker("a2"));
  }

  lemma FirstLineSearch(y: string)
    ensures IndexOf(Line1 + y, Marker("a1")) == Shift(IndexOf(y, Marker("a1")), |Line1|)
  {
    FirstLine();
    EntryLineNoMarker(Refs2[0], 1, y, "a1");
  }

  lemma SecondLineSearch(y: string)
    ensures IndexOf(Line2 + y, Marker("a1")) == Shift(IndexOf(y, Marker("a1")), |Line2|)
  {
    SecondLine();
    EntryLineNoMarker(Refs2[1], 2, y, "a1");
  }

  lemma ListedNoFirstMarker()
    ensures IndexOf(Listed, Marker("a1")) == None
  {
    SecondLineSearch("");
    IndexOfSkip("\n", Line2 + "", Marker("a1"));
    FirstLineSearch("\n" + (Line2 + ""));
    assert Listed == Line1 + ("\n" + (Line2 + ""));
  }

  /** After the placeholder is replaced, `[&a1]` occurs nowhere and `[&a2]` first at 4. */
  lemma ListedSearch()
    ensures IndexOf(Before + Listed, Marker("a1")) == None
    ensures IndexOf(Before + Listed, Marker("a2")) == Some(4)
  {
    BeforeSearch(Listed);
    ListedNoFirstMarker();
  }

  lemma AnchorTwo()
    ensures Anchor("a2", 2) == "<a href=\"#a2\">(2).</a>"
  {
    DigitTwo();
  }

  lemma AroundMarker(p: string, m: string, q: string)
    ensures (p + m + q)[..|p|] == p && (p + m + q)[|p| + |m|..] == q
  {
  }

  lemma BeforeSplit(x: string)
    ensures Before + x == "See " + Marker("a2") + (" and " + x)
  {
  }

  lemma FirstMarkerAbsent()
    ensures MarkersReplaced(Before + Listed, Refs2, 1) == Before + Listed
  {
    ListedSearch();
    MarkerStep(Before + Listed, Refs2, 1);
  }

  lemma SecondMarkerReplaced()
    ensures var e := Before + Listed;
      MarkersReplaced(e, Refs2, 2) == e[..4] + Anchor("a2", 2) + e[4 + |Marker("a2")|..]
  {
    FirstMarkerAbsent();
    ListedSearch();
    MarkerStep(Before + Listed, Refs2, 2);
  }

  lemma TwoEntryMarkers()
    ensures MarkersReplaced(Before + Listed, Refs2, 2) == "See " + "<a href=\"#a2\">(2).</a>" + (" and " + Listed)
  {
    SecondMarkerReplaced();
    BeforeSplit(Listed);
    AroundMarker("See ", Marker("a2"), " and " + Listed);
    AnchorTwo();
  }

  lemma TwoEntryTemplate()
    ensures "See [&a2] and $INCLUDEREFS$" == Before + RefsPlaceholder
  {
  }

  /** The dataset `[{A, u1, a1}, {B, u2, a2}]` with `See [&a2] and $INCLUDEREFS$`: the placeholder
      becomes a two-item list numbered 1 and 2, and `[&a2]` becomes a back-link showing 2. */
  lemma TwoEntryExample()
    ensures ExpandRefs("See [&a2] and $INCLUDEREFS$", Refs2)
      == "See " + "<a href=\"#a2\">(2).</a>" + (" and " + (Line1 + "\n" + Line2))
  {
    TwoEntryTemplate();
    TwoEntryPlaceholder();
    TwoEntryMarkers();
  }

  /** A marker whose alias names no entry stays literal text. */
  lemma UnknownMarkerExample()
    ensures ExpandRefs("See [&zzz].", Refs2) == "See [&zzz]."
  {
    IndexOfMissingChar("See [&zzz].", RefsPlaceholder, 0);
    forall e | e in Refs2 ensures IndexOf("See [&zzz].", Marker(e.alias)).None? {
      IndexOfMissingChar("See [&zzz].", Marker(e.alias), 2);
    }
    ExpandWithoutMarkers("See [&zzz].", Refs2);
  }

  // ---------------------------------------------------------------------------------------------
  // A `$&` in an entry's text

  const DollarRefs: seq<RefEntry> := [RefEntry("$&", "u", "a")]

  /** A one-entry list is that entry's line. */
  lemma SingleList(e: RefEntry)
    ensures RefsMarkdown([e]) == EntryLine(e, 1)
  {
    assert RefLines([e]) == [EntryLine(e, 1)];
  }

  /** `$&` at the head of a replacement stands for the matched text. */
  lemma SubstituteMatched(t: string, matched: string, before: string, after: string)
    ensures Substitute("$&" + t, matched, before, after) == matched + Substitute(t, matched, before, after)
  {
    assert ("$&" + t)[2..] == t;
  }

  /** The line of an entry whose text is `$&`, read as a replacement, is the line of the same entry
      with the matched text as its text. */
  lemma DollarTextSubstituted(e: RefEntry, index: nat, matched: string)
    requires e.text == "$&" && '$' !in e.ref && '$' !in e.alias
    ensures Substitute(EntryLine(e, index), matched, "", "") == EntryLine(e.(text := matched), index)
  {
    var head := Digits(index) + ". [";
    var rest := "](" + e.ref + ")<span id=\"" + e.alias + "\"></span>";
    assert EntryLine(e, index) == head + ("$&" + rest);
    assert EntryLine(e.(text := matched), index) == head + (matched + rest);
    DigitsExclude(index);
    assert '$' !in head;
    assert '$' !in "](" && '$' !in ")<span id=\"" && '$' !in "\"></span>";
    assert '$' !in rest;
    SubstituteLiteralHead(head, "$&" + rest, matched, "", "");
    SubstituteMatched(rest, matched, "", "");
    SubstituteLiteral(rest, matched, "", "");
  }

  /** A text replaced as a whole: the replacement is read with empty surroundings. */
  lemma ReplaceWhole(p: string, rep: string)
    ensures Replace(p, p, rep) == Substitute(rep, p, "", "")
  {
    assert MatchAt(p, p, 0);
    assert IndexOf(p, p) == Some(0);
    var before, after := p[..0], p[|p|..];
    assert before == [] && after == [];
    var sub := Substitute(rep, p, before, after);
    assert Replace(p, p, rep) == before + sub + after;
  }

  /** Replacing the placeholder by the list of an entry whose text is `$&` puts the placeholder back
      in that entry's place. */
  lemma DollarListSubstituted()
    ensures Replace(RefsPlaceholder, RefsPlaceholder, RefsMarkdown(DollarRefs))
      == EntryLine(RefEntry(RefsPlaceholder, "u", "a"), 1)
  {
    SingleList(DollarRefs[0]);
    ReplaceWhole(RefsPlaceholder, EntryLine(DollarRefs[0], 1));
    DollarTextSubstituted(DollarRefs[0], 1, RefsPlaceholder);
  }

  /** `String.replace` reads `$&` in the replacement as "the matched text": the template
      `$INCLUDEREFS$` with one entry whose text is `$&` renders as if that entry's text were
      `$INCLUDEREFS$` itself, where a literal insertion would have shown `1. [$&](u)...`. */
  lemma DollarPatternInEntryText()
    ensures ExpandRefs(RefsPlaceholder, DollarRefs) == RefsMarkdown([RefEntry(RefsPlaceholder, "u", "a")])
  {
    var e := DollarRefs[0];
    var e' := RefEntry(RefsPlaceholder, "u", "a");
    var line := EntryLine(e', 1);
    SingleList(e');
    DollarListSubstituted();
    assert '&' !in RefsPlaceholder;
    EntryLineNoMarker(e', 1, "", "a");
    IndexOfMissingChar("", Marker("a"), 0);
    assert line + "" == line;
    MarkerStep(line, DollarRefs, 1);
  }
}
