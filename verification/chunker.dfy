/** The text chunker of the ingestion script: the whitespace normalisation of
    `chunkText`, its walk of fixed-size overlapping windows, and the per-page
    text cleanup done while extracting a page. */
module Chunker {
  import opened Text

  /** Default window size and overlap of `chunkText`, in characters. */
  const ChunkSize: int := 1200
  const Overlap: int := 200

  /** The character class `[ \t]`. */
  predicate IsBlank(c: char) {
    c == ' ' || c == '\t'
  }

  predicate IsNewline(c: char) {
    c == '\n'
  }

  predicate IsReturn(c: char) {
    c == '\r'
  }

  // ---------------------------------------------------------------------------
  // What normalised text looks like

  /** `c` does not occur in `s`. */
  predicate Lacks(s: String, c: char) {
    forall i :: 0 <= i < |s| ==> s[i] != c
  }

  predicate NoDoubleSpace(s: String) {
    forall i :: 0 <= i < |s| - 1 ==> !(s[i] == ' ' && s[i + 1] == ' ')
  }

  predicate NoTripleNewline(s: String) {
    forall i :: 0 <= i < |s| - 2 ==> !(s[i] == '\n' && s[i + 1] == '\n' && s[i + 2] == '\n')
  }

  /** No carriage return, no tab, no two consecutive spaces, no run of three
      or more newlines, and no whitespace at either end. */
  predicate IsClean(s: String) {
    && Lacks(s, '\r') && Lacks(s, '\t') && NoDoubleSpace(s) && NoTripleNewline(s)
    && Trimmed(s)
  }

  // ---------------------------------------------------------------------------
  // The four rewrites and the trim of `chunkText`

  /** Removes every carriage return; the other characters keep their order. */
  function RemoveCarriageReturns(s: String): (r: String)
    ensures r == Without(s, IsReturn)
    ensures Lacks(r, '\r')
    ensures forall i :: 0 <= i < |r| ==> r[i] in s
    ensures Lacks(s, '\r') ==> r == s
  {
    if |s| == 0 then []
    else (if s[0] == '\r' then [] else [s[0]]) + RemoveCarriageReturns(s[1..])
  }

  /** Replaces every maximal run of characters of the class `inRun` by a
      single space. When the space belongs to the class, the characters
      outside it are kept, in order. */
  function CollapseRuns(s: String, inRun: char -> bool): (r: String)
    ensures forall i :: 0 <= i < |r| ==> (inRun(r[i]) ==> r[i] == ' ')
    ensures forall i :: 0 <= i < |r| - 1 ==> !(inRun(r[i]) && inRun(r[i + 1]))
    ensures forall i :: 0 <= i < |r| ==> r[i] == ' ' || r[i] in s
    ensures |s| > 0 ==> |r| > 0 && r[0] == (if inRun(s[0]) then ' ' else s[0])
    ensures (forall i :: 0 <= i < |s| ==> (inRun(s[i]) ==> s[i] == ' '))
            && (forall i :: 0 <= i < |s| - 1 ==> !(inRun(s[i]) && inRun(s[i + 1])))
            ==> r == s
    decreases |s|
  {
    if |s| == 0 then []
    else if inRun(s[0]) then
      var rest := DropWhile(s, inRun);
      assert |s| > 1 && !inRun(s[1]) ==> rest == s[1..];
      [' '] + CollapseRuns(rest, inRun)
    else
      [s[0]] + CollapseRuns(s[1..], inRun)
  }

  /** When the space belongs to the class, collapsing its runs keeps every
      character outside the class, in order. */
  lemma {:induction false} CollapseRunsKeepsOthers(s: String, inRun: char -> bool)
    requires inRun(' ')
    ensures Without(CollapseRuns(s, inRun), inRun) == Without(s, inRun)
    decreases |s|
  {
    if |s| > 0 {
      if inRun(s[0]) {
        var rest := DropWhile(s, inRun);
        CollapseRunsKeepsOthers(rest, inRun);
        DroppedRunKept(s, [' '], CollapseRuns(rest, inRun), inRun);
      } else {
        CollapseRunsKeepsOthers(s[1..], inRun);
        OtherCharKeptBy(s, CollapseRuns(s[1..], inRun), inRun);
      }
    }
  }

  /** Replacing a leading run of dropped characters by more dropped
      characters keeps what is left after the drop. */
  lemma DroppedRunKept(s: String, head: String, tail: String, drop: char -> bool)
    requires forall i :: 0 <= i < |head| ==> drop(head[i])
    requires Without(tail, drop) == Without(DropWhile(s, drop), drop)
    ensures Without(head + tail, drop) == Without(s, drop)
  {
    var rest := DropWhile(s, drop);
    var n := |s| - |rest|;
    SkipDropped(s, n, drop);
    assert s[n..] == rest;
    WithoutOfDropped(head, drop);
    WithoutAppend(head, tail, drop);
    assert Without(head + tail, drop) == Without(tail, drop);
  }

  /** Dropped characters at the front of `s` leave nothing behind. */
  lemma {:induction false} SkipDropped(s: String, n: nat, drop: char -> bool)
    requires n <= |s| && forall i :: 0 <= i < n ==> drop(s[i])
    ensures Without(s, drop) == Without(s[n..], drop)
    decreases n
  {
    if n > 0 {
      assert drop(s[0]);
      assert Without(s, drop) == Without(s[1..], drop);
      SkipDropped(s[1..], n - 1, drop);
      assert s[1..][n - 1..] == s[n..];
    }
  }

  /** A kept first character followed by text that keeps the rest keeps all. */
  lemma OtherCharKeptBy(s: String, tail: String, drop: char -> bool)
    requires |s| > 0 && !drop(s[0])
    requires Without(tail, drop) == Without(s[1..], drop)
    ensures Without([s[0]] + tail, drop) == Without(s, drop)
  {
    assert ([s[0]] + tail)[1..] == tail;
  }

  /** What collapsing the newline runs of `s` into `r` guarantees: `r` has
      no run of three newlines, takes its characters from `s`, starts with the
      same character, keeps `s` free of double spaces if it was, and is `s`
      itself when `s` had no run to collapse. */
  predicate NewlinesCollapsed(s: String, r: String) {
    && NoTripleNewline(r)
    && (forall i :: 0 <= i < |r| ==> r[i] in s)
    && (|s| > 0 ==> |r| > 0 && r[0] == s[0])
    && (NoDoubleSpace(s) ==> NoDoubleSpace(r))
    && (NoTripleNewline(s) ==> r == s)
  }

  /** Shortens every run of three or more newlines to exactly two; every
      character other than a newline is kept, in order. */
  function CollapseNewlines(s: String): (r: String)
    ensures NewlinesCollapsed(s, r)
    ensures Without(r, IsNewline) == Without(s, IsNewline)
    decreases |s|
  {
    if |s| == 0 then []
    else if s[0] == '\n' then
      var tail := CollapseNewlines(NewlineRest(s));
      NewlineRunStep(s, tail);
      DroppedRunKept(s, NewlineRun(s), tail, IsNewline);
      NewlineRun(s) + tail
    else
      var tail := CollapseNewlines(s[1..]);
      OtherCharKept(s, tail);
      OtherCharKeptBy(s, tail, IsNewline);
      [s[0]] + tail
  }

  /** What the leading run of newlines of `s` becomes: two newlines when it
      has three or more, the run itself otherwise. */
  function NewlineRun(s: String): (head: String)
    ensures forall i :: 0 <= i < |head| ==> head[i] == '\n'
    ensures var n := |s| - |NewlineRest(s)|; |head| == if n >= 3 then 2 else n
  {
    var n := |s| - |NewlineRest(s)|;
    if n >= 3 then "\n\n" else s[..n]
  }

  lemma NewlineRunStep(s: String, tail: String)
    requires |s| > 0 && s[0] == '\n'
    requires NewlinesCollapsed(NewlineRest(s), tail)
    ensures NewlinesCollapsed(s, NewlineRun(s) + tail)
  {
    var rest := NewlineRest(s);
    RunThenRest(s, |s| - |rest|, rest, NewlineRun(s), tail);
  }

  /** A run of n newlines, shortened to `head`, followed by the collapsed
      rest of the text. */
  lemma RunThenRest(s: String, n: nat, rest: String, head: String, tail: String)
    requires 0 < n <= |s| && rest == s[n..]
    requires forall i :: 0 <= i < n ==> s[i] == '\n'
    requires rest == [] || rest[0] != '\n'
    requires forall i :: 0 <= i < |head| ==> head[i] == '\n'
    requires |head| == if n >= 3 then 2 else n
    requires NewlinesCollapsed(rest, tail)
    ensures NewlinesCollapsed(s, head + tail)
  {
    assert tail == [] || tail[0] != '\n';
    NewlinesThenText(head, tail);
    CharsAfterRun(s, n, head, tail);
    if NoDoubleSpace(s) {
      SuffixNoDoubleSpace(s, n);
    }
    if NoTripleNewline(s) {
      ShortRunKept(s, n, head, tail);
    }
  }

  /** What is left of `s` after its leading newlines. */
  function NewlineRest(s: String): (r: String)
    ensures |r| <= |s| && r == s[|s| - |r|..]
    ensures forall i :: 0 <= i < |s| - |r| ==> s[i] == '\n'
    ensures r == [] || r[0] != '\n'
    ensures |s| > 0 && s[0] == '\n' ==> |r| < |s|
  {
    DropWhile(s, IsNewline)
  }

  lemma ShortRunKept(s: String, n: nat, head: String, tail: String)
    requires n <= |s| && forall i :: 0 <= i < n ==> s[i] == '\n'
    requires forall i :: 0 <= i < |head| ==> head[i] == '\n'
    requires |head| == if n >= 3 then 2 else n
    requires NoTripleNewline(s[n..]) ==> tail == s[n..]
    requires NoTripleNewline(s)
    ensures head + tail == s
  {
    RunOfAtMostTwo(s, n);
    SuffixNoTripleNewline(s, n);
    assert head == s[..n];
    assert s == s[..n] + s[n..];
  }

  lemma CharsAfterRun(s: String, n: nat, head: String, tail: String)
    requires 0 < n <= |s| && s[0] == '\n'
    requires forall i :: 0 <= i < |head| ==> head[i] == '\n'
    requires forall i :: 0 <= i < |tail| ==> tail[i] in s[n..]
    ensures forall i :: 0 <= i < |head + tail| ==> (head + tail)[i] in s
  {
    var r := head + tail;
    forall i | 0 <= i < |r|
      ensures r[i] in s
    {
      if i < |head| {
        assert r[i] == s[0];
      } else {
        assert r[i] == tail[i - |head|];
        var j :| 0 <= j < |s[n..]| && s[n..][j] == tail[i - |head|];
        assert s[n + j] == s[n..][j];
      }
    }
  }

  lemma SuffixNoDoubleSpace(s: String, n: nat)
    requires n <= |s| && NoDoubleSpace(s)
    ensures NoDoubleSpace(s[n..])
  {
    assert forall i :: 0 <= i < |s| - n ==> s[n..][i] == s[n + i];
  }

  lemma SuffixNoTripleNewline(s: String, n: nat)
    requires n <= |s| && NoTripleNewline(s)
    ensures NoTripleNewline(s[n..])
  {
    assert forall i :: 0 <= i < |s| - n ==> s[n..][i] == s[n + i];
  }

  lemma RunOfAtMostTwo(s: String, n: nat)
    requires n <= |s| && forall i :: 0 <= i < n ==> s[i] == '\n'
    ensures n >= 3 ==> !NoTripleNewline(s)
  {
    if n >= 3 {
      assert s[0] == '\n' && s[1] == '\n' && s[2] == '\n';
    }
  }

  lemma OtherCharKept(s: String, tail: String)
    requires |s| > 0 && s[0] != '\n'
    requires NewlinesCollapsed(s[1..], tail)
    ensures NewlinesCollapsed(s, [s[0]] + tail)
  {
    OneThenText(s[0], tail);
    CharsAfterFirst(s, tail);
    if NoDoubleSpace(s) {
      SuffixNoDoubleSpace(s, 1);
      OneThenTextSpaces(s[0], tail);
    }
    if NoTripleNewline(s) {
      SuffixNoTripleNewline(s, 1);
      assert s == [s[0]] + s[1..];
    }
  }

  lemma OneThenText(c: char, tail: String)
    requires c != '\n' && NoTripleNewline(tail)
    ensures NoTripleNewline([c] + tail)
  {
    var r := [c] + tail;
    assert forall i :: 1 <= i < |r| ==> r[i] == tail[i - 1];
  }

  lemma OneThenTextSpaces(c: char, tail: String)
    requires NoDoubleSpace(tail)
    requires c == ' ' ==> tail == [] || tail[0] != ' '
    ensures NoDoubleSpace([c] + tail)
  {
    var r := [c] + tail;
    assert forall i :: 1 <= i < |r| ==> r[i] == tail[i - 1];
  }

  lemma CharsAfterFirst(s: String, tail: String)
    requires |s| > 0
    requires forall i :: 0 <= i < |tail| ==> tail[i] in s[1..]
    ensures forall i :: 0 <= i < |[s[0]] + tail| ==> ([s[0]] + tail)[i] in s
  {
    var r := [s[0]] + tail;
    forall i | 0 <= i < |r|
      ensures r[i] in s
    {
      if i > 0 {
        assert r[i] == tail[i - 1];
        var j :| 0 <= j < |s[1..]| && s[1..][j] == tail[i - 1];
        assert s[j + 1] == s[1..][j];
      }
    }
  }

  lemma NewlinesThenText(head: String, tail: String)
    requires 0 < |head| <= 2 && forall i :: 0 <= i < |head| ==> head[i] == '\n'
    requires tail == [] || tail[0] != '\n'
    requires NoTripleNewline(tail)
    ensures NoTripleNewline(head + tail)
    ensures NoDoubleSpace(tail) ==> NoDoubleSpace(head + tail)
  {
    var s := head + tail;
    forall i | 0 <= i < |s| - 2
      ensures !(s[i] == '\n' && s[i + 1] == '\n' && s[i + 2] == '\n')
    {
      if i >= |head| {
        assert s[i] == tail[i - |head|] && s[i + 1] == tail[i - |head| + 1] && s[i + 2] == tail[i - |head| + 2];
      } else if i + 1 == |head| {
        assert s[i + 1] == tail[0];
      } else {
        assert s[i + 2] == tail[0];
      }
    }
    if NoDoubleSpace(tail) {
      forall i | 0 <= i < |s| - 1
        ensures !(s[i] == ' ' && s[i + 1] == ' ')
      {
        if i >= |head| {
          assert s[i] == tail[i - |head|] && s[i + 1] == tail[i - |head| + 1];
        }
      }
    }
  }

  /** A character other than a space that `a` lacks is absent from `b` when
      every character of `b` is a space or one of `a`'s. */
  lemma LacksKept(a: String, b: String, c: char)
    requires c != ' ' && Lacks(a, c)
    requires forall i :: 0 <= i < |b| ==> b[i] == ' ' || b[i] in a
    ensures Lacks(b, c)
  {
    forall i | 0 <= i < |b|
      ensures b[i] != c
    {
      if b[i] != ' ' {
        var j :| 0 <= j < |a| && a[j] == b[i];
      }
    }
  }

  /** The normalisation of `chunkText`: drop carriage returns, turn each run
      of spaces and tabs into one space, shorten runs of three or more
      newlines to two, and trim. Only whitespace changes: the other
      characters are kept, in order. */
  function Clean(text: String): (r: String)
    ensures IsClean(r)
    ensures Without(r, IsWhitespace) == Without(text, IsWhitespace)
  {
    CleanStepsGiveCleanText(text);
    CleanKeepsContent(text);
    Trim(CollapseNewlines(CollapseRuns(RemoveCarriageReturns(text), IsBlank)))
  }

  lemma CleanKeepsContent(text: String)
    ensures Without(Trim(CollapseNewlines(CollapseRuns(RemoveCarriageReturns(text), IsBlank))), IsWhitespace)
            == Without(text, IsWhitespace)
  {
    var a := RemoveCarriageReturns(text);
    WithoutWider(text, IsReturn, IsWhitespace);
    var b := CollapseRuns(a, IsBlank);
    CollapseRunsKeepsOthers(a, IsBlank);
    SameContent(a, b, IsBlank);
    var c := CollapseNewlines(b);
    SameContent(b, c, IsNewline);
    TrimKeepsContent(c);
  }

  lemma CleanStepsGiveCleanText(text: String)
    ensures IsClean(Trim(CollapseNewlines(CollapseRuns(RemoveCarriageReturns(text), IsBlank))))
  {
    var a := RemoveCarriageReturns(text);
    var b := CollapseRuns(a, IsBlank);
    BlanksCollapsed(a, b);
    var c := CollapseNewlines(b);
    LacksKept(b, c, '\r');
    LacksKept(b, c, '\t');
    var r := Trim(c);
    var k :| StrippedAt(c, r, k);
    InfixKeepsClean(c, r, k);
  }

  lemma BlanksCollapsed(a: String, b: String)
    requires Lacks(a, '\r')
    requires forall i :: 0 <= i < |b| ==> (IsBlank(b[i]) ==> b[i] == ' ')
    requires forall i :: 0 <= i < |b| - 1 ==> !(IsBlank(b[i]) && IsBlank(b[i + 1]))
    requires forall i :: 0 <= i < |b| ==> b[i] == ' ' || b[i] in a
    ensures Lacks(b, '\r') && Lacks(b, '\t') && NoDoubleSpace(b)
  {
    LacksKept(a, b, '\r');
  }

  /** Cutting the whitespace off both ends of text free of carriage returns,
      tabs, double spaces and newline triples leaves clean text. */
  lemma InfixKeepsClean(s: String, r: String, k: int)
    requires StrippedAt(s, r, k) && Trimmed(r)
    requires Lacks(s, '\r') && Lacks(s, '\t') && NoDoubleSpace(s) && NoTripleNewline(s)
    ensures IsClean(r)
  {
    assert forall i :: 0 <= i < |r| ==> r[i] == s[k + i];
  }

  /** Normalising text that is already clean changes nothing. */
  lemma CleanFixesClean(s: String)
    requires IsClean(s)
    ensures Clean(s) == s
  {
    assert RemoveCarriageReturns(s) == s;
    BlanksAlreadyCollapsed(s);
    NewlinesAlreadyCollapsed(s);
    TrimOfTrimmed(s);
  }

  lemma BlanksAlreadyCollapsed(s: String)
    requires Lacks(s, '\t') && NoDoubleSpace(s)
    ensures CollapseRuns(s, IsBlank) == s
  {
    assert forall i :: 0 <= i < |s| ==> (IsBlank(s[i]) ==> s[i] == ' ');
    assert forall i :: 0 <= i < |s| - 1 ==> !(IsBlank(s[i]) && IsBlank(s[i + 1]));
  }

  lemma NewlinesAlreadyCollapsed(s: String)
    requires NoTripleNewline(s)
    ensures CollapseNewlines(s) == s
  {
  }

  /** Normalisation is idempotent. */
  lemma CleanIdempotent(text: String)
    ensures Clean(Clean(text)) == Clean(text)
  {
    CleanFixesClean(Clean(text));
  }

  // ---------------------------------------------------------------------------
  // Page text as the extractor hands it over

  /** The text of one page: its text items joined with spaces, every
      whitespace run turned into one space, and the ends trimmed. The
      characters other than whitespace are those of the joined items, in order. */
  function PageText(items: seq<String>): (r: String)
    ensures IsClean(r)
    ensures forall i :: 0 <= i < |r| ==> (IsWhitespace(r[i]) ==> r[i] == ' ')
    ensures Without(r, IsWhitespace) == Without(Join(items, " "), IsWhitespace)
  {
    var c := CollapseRuns(Join(items, " "), IsWhitespace);
    SpacesOnly(c);
    TrimKeepsSpacesOnly(c);
    CollapseRunsKeepsOthers(Join(items, " "), IsWhitespace);
    TrimKeepsContent(c);
    Trim(c)
  }

  /** Trimming single-spaced text without tabs, carriage returns or newlines
      leaves clean text whose only whitespace is the space. */
  lemma TrimKeepsSpacesOnly(c: String)
    requires Lacks(c, '\r') && Lacks(c, '\t') && NoDoubleSpace(c) && NoTripleNewline(c)
    requires forall i :: 0 <= i < |c| ==> (IsWhitespace(c[i]) ==> c[i] == ' ')
    ensures IsClean(Trim(c))
    ensures forall i :: 0 <= i < |Trim(c)| ==> (IsWhitespace(Trim(c)[i]) ==> Trim(c)[i] == ' ')
  {
    var r := Trim(c);
    var k :| StrippedAt(c, r, k);
    InfixKeepsClean(c, r, k);
    InfixKeepsSpacesOnly(c, r, k);
  }

  lemma InfixKeepsSpacesOnly(c: String, r: String, k: int)
    requires StrippedAt(c, r, k)
    requires forall i :: 0 <= i < |c| ==> (IsWhitespace(c[i]) ==> c[i] == ' ')
    ensures forall i :: 0 <= i < |r| ==> (IsWhitespace(r[i]) ==> r[i] == ' ')
  {
    assert forall i :: 0 <= i < |r| ==> r[i] == c[k + i];
  }

  lemma SpacesOnly(c: String)
    requires forall i :: 0 <= i < |c| ==> (IsWhitespace(c[i]) ==> c[i] == ' ')
    requires forall i :: 0 <= i < |c| - 1 ==> !(IsWhitespace(c[i]) && IsWhitespace(c[i + 1]))
    ensures Lacks(c, '\r') && Lacks(c, '\t') && NoDoubleSpace(c) && NoTripleNewline(c)
    ensures forall i :: 0 <= i < |c| ==> (IsWhitespace(c[i]) ==> c[i] == ' ')
  {
    assert Lacks(c, '\n');
  }

  /** `chunkText` leaves extracted page text as it is before windowing it. */
  lemma CleanKeepsPageText(items: seq<String>)
    ensures Clean(PageText(items)) == PageText(items)
  {
    CleanFixesClean(PageText(items));
  }

  // ---------------------------------------------------------------------------
  // What the rewrites make of a run
  //
  // Together with the contracts above, these laws fix each rewrite: a text
  // cut where no run is split is rewritten piece by piece, and a run on its
  // own becomes one space (for `[ \t]+` and for whitespace) or at most two
  // newlines (for `\n{3,}`).

  /** One step of `CollapseRuns`, on a character outside the class. */
  lemma CollapseRunsOther(s: String, inRun: char -> bool)
    requires |s| > 0 && !inRun(s[0])
    ensures CollapseRuns(s, inRun) == [s[0]] + CollapseRuns(s[1..], inRun)
  {
  }

  /** One step of `CollapseRuns`, on a run. */
  lemma CollapseRunsRun(s: String, inRun: char -> bool)
    requires |s| > 0 && inRun(s[0])
    ensures CollapseRuns(s, inRun) == " " + CollapseRuns(DropWhile(s, inRun), inRun)
  {
  }

  /** A non-empty run of class characters collapses to one space. */
  lemma CollapseRunsOfRun(run: String, inRun: char -> bool)
    requires |run| > 0 && forall i :: 0 <= i < |run| ==> inRun(run[i])
    ensures CollapseRuns(run, inRun) == " "
  {
    assert DropWhile(run, inRun) == [];
    CollapseRunsRun(run, inRun);
    ConcatUnits(" ", []);
  }

  /** Collapsing runs works piece by piece when the cut splits no run. */
  lemma {:induction false} CollapseRunsSplit(a: String, b: String, inRun: char -> bool)
    requires a == [] || b == [] || !inRun(a[|a| - 1]) || !inRun(b[0])
    ensures CollapseRuns(a + b, inRun) == CollapseRuns(a, inRun) + CollapseRuns(b, inRun)
    decreases |a|
  {
    ConcatUnits(a, b);
    if a == [] || b == [] {
      ConcatUnits(CollapseRuns(a, inRun), CollapseRuns(b, inRun));
    } else if !inRun(a[0]) {
      assert |a| > 1 ==> a[1..][|a| - 2] == a[|a| - 1];
      CollapseRunsSplit(a[1..], b, inRun);
      SplitAfterOther(a, b, inRun);
    } else {
      var ra := DropWhile(a, inRun);
      DropWhileAppend(a, b, inRun);
      if ra == [] {
        SplitAfterWholeRun(a, b, inRun);
      } else {
        assert ra[|ra| - 1] == a[|a| - 1];
        CollapseRunsSplit(ra, b, inRun);
        SplitAfterRun(a, b, inRun);
      }
    }
  }

  lemma SplitAfterOther(a: String, b: String, inRun: char -> bool)
    requires |a| > 0 && !inRun(a[0])
    requires CollapseRuns(a[1..] + b, inRun) == CollapseRuns(a[1..], inRun) + CollapseRuns(b, inRun)
    ensures CollapseRuns(a + b, inRun) == CollapseRuns(a, inRun) + CollapseRuns(b, inRun)
  {
    ConcatUnits(a, b);
    CollapseRunsOther(a + b, inRun);
    CollapseRunsOther(a, inRun);
    ConcatAssoc([a[0]], CollapseRuns(a[1..], inRun), CollapseRuns(b, inRun));
  }

  lemma SplitAfterWholeRun(a: String, b: String, inRun: char -> bool)
    requires |a| > 0 && inRun(a[0]) && DropWhile(a, inRun) == []
    requires b == [] || !inRun(b[0])
    requires DropWhile(a + b, inRun) == DropWhile(b, inRun)
    ensures CollapseRuns(a + b, inRun) == CollapseRuns(a, inRun) + CollapseRuns(b, inRun)
  {
    assert DropWhile(b, inRun) == b;
    CollapseRunsRun(a + b, inRun);
    CollapseRunsRun(a, inRun);
    assert CollapseRuns([], inRun) == [];
    ConcatUnits(" ", []);
  }

  lemma SplitAfterRun(a: String, b: String, inRun: char -> bool)
    requires |a| > 0 && inRun(a[0]) && DropWhile(a, inRun) != []
    requires DropWhile(a + b, inRun) == DropWhile(a, inRun) + b
    requires CollapseRuns(DropWhile(a, inRun) + b, inRun)
             == CollapseRuns(DropWhile(a, inRun), inRun) + CollapseRuns(b, inRun)
    ensures CollapseRuns(a + b, inRun) == CollapseRuns(a, inRun) + CollapseRuns(b, inRun)
  {
    CollapseRunsRun(a + b, inRun);
    CollapseRunsRun(a, inRun);
    ConcatAssoc(" ", CollapseRuns(DropWhile(a, inRun), inRun), CollapseRuns(b, inRun));
  }

  /** A run between two characters outside the class becomes one space. */
  lemma CollapseRunBetween(a: String, run: String, b: String, inRun: char -> bool)
    requires a == [] || !inRun(a[|a| - 1])
    requires |run| > 0 && forall i :: 0 <= i < |run| ==> inRun(run[i])
    requires b == [] || !inRun(b[0])
    ensures CollapseRuns(a + run + b, inRun) == CollapseRuns(a, inRun) + " " + CollapseRuns(b, inRun)
  {
    ConcatAssoc(a, run, b);
    CollapseRunsSplit(a, run + b, inRun);
    CollapseRunsSplit(run, b, inRun);
    CollapseRunsOfRun(run, inRun);
    ConcatAssoc(CollapseRuns(a, inRun), " ", CollapseRuns(b, inRun));
  }

  /** One step of `CollapseNewlines`, on a character other than a newline. */
  lemma CollapseNewlinesOther(s: String)
    requires |s| > 0 && s[0] != '\n'
    ensures CollapseNewlines(s) == [s[0]] + CollapseNewlines(s[1..])
  {
  }

  /** One step of `CollapseNewlines`, on a run of newlines. */
  lemma CollapseNewlinesRun(s: String)
    requires |s| > 0 && s[0] == '\n'
    ensures CollapseNewlines(s) == NewlineRun(s) + CollapseNewlines(NewlineRest(s))
  {
  }

  /** A run of newlines on its own is kept when it has one or two newlines
      and becomes two newlines otherwise. */
  lemma CollapseNewlinesOfRun(run: String)
    requires |run| > 0 && forall i :: 0 <= i < |run| ==> run[i] == '\n'
    ensures CollapseNewlines(run) == if |run| >= 3 then "\n\n" else run
  {
    assert NewlineRest(run) == [];
    CollapseNewlinesRun(run);
    ConcatUnits(NewlineRun(run), []);
    ConcatPrefix(run, [], 0);
  }

  /** Collapsing newline runs works piece by piece when the cut splits no run. */
  lemma {:induction false} CollapseNewlinesSplit(a: String, b: String)
    requires a == [] || b == [] || a[|a| - 1] != '\n' || b[0] != '\n'
    ensures CollapseNewlines(a + b) == CollapseNewlines(a) + CollapseNewlines(b)
    decreases |a|
  {
    ConcatUnits(a, b);
    if a == [] || b == [] {
      ConcatUnits(CollapseNewlines(a), CollapseNewlines(b));
    } else if a[0] != '\n' {
      assert |a| > 1 ==> a[1..][|a| - 2] == a[|a| - 1];
      CollapseNewlinesSplit(a[1..], b);
      NewlinesAfterOther(a, b);
    } else {
      var ra := NewlineRest(a);
      DropWhileAppend(a, b, IsNewline);
      if ra == [] {
        NewlinesAfterWholeRun(a, b);
      } else {
        assert ra[|ra| - 1] == a[|a| - 1];
        CollapseNewlinesSplit(ra, b);
        NewlinesAfterRun(a, b);
      }
    }
  }

  lemma NewlinesAfterOther(a: String, b: String)
    requires |a| > 0 && a[0] != '\n'
    requires CollapseNewlines(a[1..] + b) == CollapseNewlines(a[1..]) + CollapseNewlines(b)
    ensures CollapseNewlines(a + b) == CollapseNewlines(a) + CollapseNewlines(b)
  {
    ConcatUnits(a, b);
    CollapseNewlinesOther(a + b);
    CollapseNewlinesOther(a);
    ConcatAssoc([a[0]], CollapseNewlines(a[1..]), CollapseNewlines(b));
  }

  lemma NewlinesAfterWholeRun(a: String, b: String)
    requires |a| > 0 && a[0] == '\n' && NewlineRest(a) == []
    requires b == [] || b[0] != '\n'
    requires NewlineRest(a + b) == NewlineRest(b)
    ensures CollapseNewlines(a + b) == CollapseNewlines(a) + CollapseNewlines(b)
  {
    assert NewlineRest(b) == b;
    NewlineRunOfConcat(a, b);
    CollapseNewlinesRun(a + b);
    CollapseNewlinesRun(a);
    assert CollapseNewlines([]) == [];
    ConcatUnits(NewlineRun(a), []);
  }

  lemma NewlinesAfterRun(a: String, b: String)
    requires |a| > 0 && a[0] == '\n' && NewlineRest(a) != []
    requires NewlineRest(a + b) == NewlineRest(a) + b
    requires CollapseNewlines(NewlineRest(a) + b) == CollapseNewlines(NewlineRest(a)) + CollapseNewlines(b)
    ensures CollapseNewlines(a + b) == CollapseNewlines(a) + CollapseNewlines(b)
  {
    NewlineRunOfConcat(a, b);
    CollapseNewlinesRun(a + b);
    CollapseNewlinesRun(a);
    ConcatAssoc(NewlineRun(a), CollapseNewlines(NewlineRest(a)), CollapseNewlines(b));
  }

  /** The leading run of `a + b` is that of `a` when it ends inside `a`. */
  lemma NewlineRunOfConcat(a: String, b: String)
    requires |a| - |NewlineRest(a)| == |a + b| - |NewlineRest(a + b)|
    ensures NewlineRun(a + b) == NewlineRun(a)
  {
    ConcatPrefix(a, b, |a| - |NewlineRest(a)|);
  }

  /** A run of newlines between two other characters keeps at most two. */
  lemma CollapseNewlineRunBetween(a: String, run: String, b: String)
    requires a == [] || a[|a| - 1] != '\n'
    requires |run| > 0 && forall i :: 0 <= i < |run| ==> run[i] == '\n'
    requires b == [] || b[0] != '\n'
    ensures CollapseNewlines(a + run + b)
            == CollapseNewlines(a) + (if |run| >= 3 then "\n\n" else run) + CollapseNewlines(b)
  {
    ConcatAssoc(a, run, b);
    CollapseNewlinesSplit(a, run + b);
    CollapseNewlinesSplit(run, b);
    CollapseNewlinesOfRun(run);
    ConcatAssoc(CollapseNewlines(a), CollapseNewlines(run), CollapseNewlines(b));
  }

  /** A non-empty piece of text without whitespace. */
  predicate IsWord(w: String) {
    |w| > 0 && forall i :: 0 <= i < |w| ==> !IsWhitespace(w[i])
  }

  /** Collapsing leaves text without class characters unchanged. */
  lemma WordUnchanged(w: String, inRun: char -> bool)
    requires forall i :: 0 <= i < |w| ==> !inRun(w[i])
    ensures CollapseRuns(w, inRun) == w
  {
  }

  lemma AllOfConcat(x: String, y: String, z: String, p: char -> bool)
    requires forall i :: 0 <= i < |x| ==> p(x[i])
    requires forall i :: 0 <= i < |y| ==> p(y[i])
    requires forall i :: 0 <= i < |z| ==> p(z[i])
    ensures forall i :: 0 <= i < |x + y + z| ==> p((x + y + z)[i])
  {
    forall i | 0 <= i < |x + y + z|
      ensures p((x + y + z)[i])
    {
      if i < |x| {
        assert (x + y + z)[i] == x[i];
      } else if i < |x| + |y| {
        assert (x + y + z)[i] == y[i - |x|];
      } else {
        assert (x + y + z)[i] == z[i - |x| - |y|];
      }
    }
  }

  lemma TrimmedAround(x: String, y: String, z: String)
    requires |x| > 0 && !IsWhitespace(x[0]) && |z| > 0 && !IsWhitespace(z[|z| - 1])
    ensures Trimmed(x + y + z)
  {
    assert (x + y + z)[0] == x[0];
    assert (x + y + z)[|x + y + z| - 1] == z[|z| - 1];
  }

  /** Two words separated by spaces and tabs normalise to the words with one
      space between them. */
  lemma CleanSeparatesWords(w1: String, blanks: String, w2: String)
    requires IsWord(w1) && IsWord(w2)
    requires |blanks| > 0 && forall i :: 0 <= i < |blanks| ==> IsBlank(blanks[i])
    ensures Clean(w1 + blanks + w2) == w1 + " " + w2
  {
    BlanksBetweenWords(w1, blanks, w2);
    SpacedWordsClean(w1, w2);
  }

  lemma BlanksBetweenWords(w1: String, blanks: String, w2: String)
    requires IsWord(w1) && IsWord(w2)
    requires |blanks| > 0 && forall i :: 0 <= i < |blanks| ==> IsBlank(blanks[i])
    ensures CollapseRuns(RemoveCarriageReturns(w1 + blanks + w2), IsBlank) == w1 + " " + w2
  {
    AllOfConcat(w1, blanks, w2, c => c != '\r');
    assert RemoveCarriageReturns(w1 + blanks + w2) == w1 + blanks + w2;
    WordUnchanged(w1, IsBlank);
    WordUnchanged(w2, IsBlank);
    CollapseRunBetween(w1, blanks, w2, IsBlank);
  }

  lemma SpacedWordsLackNewline(w1: String, w2: String)
    requires IsWord(w1) && IsWord(w2)
    ensures NoTripleNewline(w1 + " " + w2)
  {
    var t := w1 + " " + w2;
    forall i | 0 <= i < |t|
      ensures t[i] != '\n'
    {
      if i < |w1| {
        assert t[i] == w1[i];
      } else if i > |w1| {
        assert t[i] == w2[i - |w1| - 1];
      }
    }
  }

  lemma SpacedWordsClean(w1: String, w2: String)
    requires IsWord(w1) && IsWord(w2)
    ensures Trim(CollapseNewlines(w1 + " " + w2)) == w1 + " " + w2
  {
    var t := w1 + " " + w2;
    SpacedWordsLackNewline(w1, w2);
    NewlinesAlreadyCollapsed(t);
    TrimmedAround(w1, " ", w2);
    TrimOfTrimmed(t);
  }

  /** Two words separated by newlines normalise to the words with the same
      newlines between them, or two when there were three or more. */
  lemma CleanKeepsParagraphBreak(w1: String, newlines: String, w2: String)
    requires IsWord(w1) && IsWord(w2)
    requires |newlines| > 0 && forall i :: 0 <= i < |newlines| ==> newlines[i] == '\n'
    ensures Clean(w1 + newlines + w2) == w1 + (if |newlines| >= 3 then "\n\n" else newlines) + w2
  {
    NewlinesBetweenWords(w1, newlines, w2);
    var kept := if |newlines| >= 3 then "\n\n" else newlines;
    TrimmedAround(w1, kept, w2);
    TrimOfTrimmed(w1 + kept + w2);
  }

  lemma NewlineSeparatedPlain(w1: String, newlines: String, w2: String)
    requires IsWord(w1) && IsWord(w2)
    requires forall i :: 0 <= i < |newlines| ==> newlines[i] == '\n'
    ensures forall i :: 0 <= i < |w1 + newlines + w2| ==>
              (w1 + newlines + w2)[i] != '\r' && !IsBlank((w1 + newlines + w2)[i])
  {
    var s := w1 + newlines + w2;
    forall i | 0 <= i < |s|
      ensures s[i] != '\r' && !IsBlank(s[i])
    {
      if i < |w1| {
        assert s[i] == w1[i];
      } else if i < |w1| + |newlines| {
        assert s[i] == newlines[i - |w1|];
      } else {
        assert s[i] == w2[i - |w1| - |newlines|];
      }
    }
  }

  lemma NewlinesBetweenWords(w1: String, newlines: String, w2: String)
    requires IsWord(w1) && IsWord(w2)
    requires |newlines| > 0 && forall i :: 0 <= i < |newlines| ==> newlines[i] == '\n'
    ensures CollapseNewlines(CollapseRuns(RemoveCarriageReturns(w1 + newlines + w2), IsBlank))
            == w1 + (if |newlines| >= 3 then "\n\n" else newlines) + w2
  {
    var s := w1 + newlines + w2;
    NewlineSeparatedPlain(w1, newlines, w2);
    assert RemoveCarriageReturns(s) == s;
    WordUnchanged(s, IsBlank);
    CollapseNewlineRunBetween(w1, newlines, w2);
    NewlinesAlreadyCollapsed(w1);
    NewlinesAlreadyCollapsed(w2);
  }

  /** Joining words with single spaces gives text that collapsing whitespace
      runs leaves alone, with no whitespace at either end. */
  lemma {:induction false} JoinOfWords(items: seq<String>)
    requires forall k :: 0 <= k < |items| ==> IsWord(items[k])
    ensures CollapseRuns(Join(items, " "), IsWhitespace) == Join(items, " ")
    ensures Trimmed(Join(items, " "))
    decreases |items|
  {
    if |items| == 1 {
      WordUnchanged(items[0], IsWhitespace);
    } else if |items| > 1 {
      var rest := Join(items[1..], " ");
      JoinOfWords(items[1..]);
      assert IsWord(items[1..][0]);
      assert rest[0] == items[1][0];
      WordThenWords(items[0], rest);
    }
  }

  lemma WordThenWords(w: String, rest: String)
    requires IsWord(w) && |rest| > 0 && !IsWhitespace(rest[0])
    requires CollapseRuns(rest, IsWhitespace) == rest && Trimmed(rest)
    ensures CollapseRuns(w + " " + rest, IsWhitespace) == w + " " + rest
    ensures Trimmed(w + " " + rest)
  {
    WordUnchanged(w, IsWhitespace);
    CollapseRunBetween(w, " ", rest, IsWhitespace);
    TrimmedAround(w, " ", rest);
  }

  /** Items that are words give page text that is the words joined with
      single spaces. */
  lemma PageTextOfWords(items: seq<String>)
    requires forall k :: 0 <= k < |items| ==> IsWord(items[k])
    ensures PageText(items) == Join(items, " ")
  {
    JoinOfWords(items);
    TrimOfTrimmed(Join(items, " "));
  }

  // ---------------------------------------------------------------------------
  // The window walk of `chunkText`

  /** The window of `size` characters from `start`, cut at the end of the
      text. As with JavaScript's `slice`, a negative end counts back from the
      end of the text (stopping at its start), and an end that does not lie
      after the start gives the empty string. */
  function Window(s: String, start: nat, size: int): (w: String)
  {
    var cut := if start + size < |s| then start + size else |s|;
    var end := if cut >= 0 then cut else if |s| + cut > 0 then |s| + cut else 0;
    if end <= start then [] else s[start..end]
  }

  /** For a positive size, a window inside the text is the plain slice. */
  lemma WindowSlice(s: String, start: nat, size: int)
    requires 0 < size && start < |s|
    ensures Window(s, start, size) == s[start..if start + size < |s| then start + size else |s|]
  {
  }

  /** Where window `k` starts when windows advance by `step` characters:
      `k * step` (see `OffsetIsProduct`). */
  function Offset(k: nat, step: int): (r: int)
    ensures step >= 0 ==> r >= 0
  {
    if k == 0 then 0 else Offset(k - 1, step) + step
  }

  lemma {:induction false} OffsetIsProduct(k: nat, step: int)
    ensures Offset(k, step) == k * step
  {
    if k > 0 {
      OffsetIsProduct(k - 1, step);
      assert (k - 1) * step + step == k * step;
    }
  }

  /** The window loop of `chunkText` from position `start`, advancing by
      `step` while the position lies inside the text; the number of windows is the least count of steps that reaches
      the end of the text (see `WalkWindow` for what each window holds). */
  function Walk(s: String, start: nat, size: int, step: int): (r: seq<String>)
    requires step > 0
    ensures start >= |s| ==> r == []
    ensures start < |s| ==> |r| > 0 && Offset(|r| - 1, step) < |s| - start <= Offset(|r|, step)
    decreases |s| - start
  {
    if start < |s| then
      var rest := Walk(s, start + step, size, step);
      WalkCountStep(|s|, start, step, |rest|);
      [Window(s, start, size)] + rest
    else []
  }

  lemma WalkCountStep(n: nat, start: nat, step: int, m: nat)
    requires step > 0 && start < n
    requires start + step >= n ==> m == 0
    requires start + step < n ==> m > 0 && Offset(m - 1, step) < n - (start + step) <= Offset(m, step)
    ensures Offset(m, step) < n - start <= Offset(m + 1, step)
  {
    assert Offset(m + 1, step) == Offset(m, step) + step;
    if m > 0 {
      assert Offset(m, step) == Offset(m - 1, step) + step;
    }
  }

  /** Window k of the walk starts `k` steps after `start`, inside the text. */
  lemma {:induction false} WalkWindow(s: String, start: nat, size: int, step: int, k: nat)
    requires step > 0 && k < |Walk(s, start, size, step)|
    ensures start + Offset(k, step) < |s|
    ensures Walk(s, start, size, step)[k] == Window(s, start + Offset(k, step), size)
    decreases k
  {
    var r := Walk(s, start, size, step);
    assert r == [Window(s, start, size)] + Walk(s, start + step, size, step);
    if k > 0 {
      WalkWindow(s, start + step, size, step, k - 1);
      assert r[k] == Walk(s, start + step, size, step)[k - 1];
      assert Offset(k, step) == Offset(k - 1, step) + step;
    }
  }

  /** The window loop of `chunkText(text, size, overlap)` over the normalised
      text `s`. It advances by `size - overlap`, so it only terminates when the
      overlap is smaller than the size. Chunk k is the window of `size`
      characters (cut at the end of the text) starting `k` steps into `s`, and
      there are just enough chunks for the steps to reach the end of `s`. */
  function Windows(s: String, size: int, overlap: int): (r: seq<String>)
    requires overlap < size
    ensures r == [] <==> s == []
    ensures s != [] ==> Offset(|r| - 1, size - overlap) < |s| <= Offset(|r|, size - overlap)
    ensures forall k {:trigger r[k]} :: 0 <= k < |r| ==> r[k] == Window(s, Offset(k, size - overlap), size)
    ensures 0 < size ==> forall k {:trigger r[k]} :: 0 <= k < |r| ==> 0 < |r[k]| <= size
  {
    WalkFromStart(s, size, size - overlap);
    Walk(s, 0, size, size - overlap)
  }

  lemma WalkFromStart(s: String, size: int, step: int)
    requires step > 0
    ensures forall k :: 0 <= k < |Walk(s, 0, size, step)| ==>
              Walk(s, 0, size, step)[k] == Window(s, Offset(k, step), size)
    ensures 0 < size ==> forall k :: 0 <= k < |Walk(s, 0, size, step)| ==>
              0 < |Walk(s, 0, size, step)[k]| <= size
  {
    var r := Walk(s, 0, size, step);
    forall k | 0 <= k < |r|
      ensures r[k] == Window(s, Offset(k, step), size)
      ensures 0 < size ==> 0 < |r[k]| <= size
    {
      WalkWindow(s, 0, size, step, k);
    }
  }

  /** What `chunkText` computes: normalise, then cut into windows.
      Empty normalised text gives no chunks whatever the overlap; otherwise
      the loop ends only when the overlap is smaller than the size. Every
      chunk is non-empty and at most `size` long, and for a non-negative
      overlap the chunks stitched back together are the normalised text. */
  function ChunkText(text: String, size: int, overlap: int): (r: seq<String>)
    requires overlap < size || Clean(text) == []
    ensures r == [] <==> Clean(text) == []
    ensures 0 < size ==> forall k :: 0 <= k < |r| ==> 0 < |r[k]| <= size
    ensures 0 <= overlap ==> Stitch(r, overlap) == Clean(text)
  {
    var s := Clean(text);
    if s == [] then []
    else if overlap >= 0 then
      StitchReconstructs(s, size, overlap);
      Windows(s, size, overlap)
    else
      Windows(s, size, overlap)
  }

  /** Chunk k is the window starting k steps into the text. */
  lemma ChunkIsWindow(s: String, size: int, overlap: int, k: nat)
    requires overlap < size && k < |Windows(s, size, overlap)|
    ensures 0 <= k * (size - overlap) < |s|
    ensures Windows(s, size, overlap)[k] == Window(s, k * (size - overlap), size)
  {
    WalkWindow(s, 0, size, size - overlap, k);
    OffsetIsProduct(k, size - overlap);
  }

  /** The number of chunks is the length of the normalised text divided by
      the step, rounded up. */
  lemma ChunkCount(s: String, size: int, overlap: int)
    requires overlap < size
    ensures |Windows(s, size, overlap)| == (|s| + (size - overlap) - 1) / (size - overlap)
  {
    var c := |Windows(s, size, overlap)|;
    if |s| > 0 {
      CountFromOffsets(|s|, size - overlap, c);
    }
  }

  lemma CountFromOffsets(n: nat, step: int, c: nat)
    requires step > 0 && c > 0 && Offset(c - 1, step) < n <= Offset(c, step)
    ensures c == (n + step - 1) / step
  {
    OffsetIsProduct(c - 1, step);
    OffsetIsProduct(c, step);
    CeilingDivision(n, step, c);
  }

  lemma CeilingDivision(n: nat, step: int, c: int)
    requires step > 0 && (c - 1) * step < n <= c * step
    ensures c == (n + step - 1) / step
  {
    var q := (n + step - 1) / step;
    var m := (n + step - 1) % step;
    assert n + step - 1 == q * step + m && 0 <= m < step;
    assert c * step < (q + 1) * step;
    assert q * step < (c + 1) * step;
    MultiplyCancels(c, q + 1, step);
    MultiplyCancels(q, c + 1, step);
  }

  lemma MultiplyCancels(a: int, b: int, step: int)
    requires step > 0 && a * step < b * step
    ensures a < b
  {
    assert a * step - b * step == (a - b) * step;
  }

  // ---------------------------------------------------------------------------
  // Reassembling the text from its overlapping windows

  /** `c` without its first `n` characters (empty when it is shorter). */
  function DropPrefix(c: String, n: nat): String {
    if n <= |c| then c[n..] else []
  }

  /** The first chunk followed by every later chunk without the `overlap`
      characters it repeats from its predecessor. */
  function Stitch(chunks: seq<String>, overlap: nat): String {
    if |chunks| == 0 then []
    else if |chunks| == 1 then chunks[0]
    else Stitch(chunks[..|chunks| - 1], overlap) + DropPrefix(chunks[|chunks| - 1], overlap)
  }

  /** For a non-negative overlap smaller than the size, stitching the chunks
      back together gives the normalised text exactly. */
  lemma {:induction false} StitchReconstructs(s: String, size: int, overlap: nat)
    requires overlap < size
    ensures Stitch(Windows(s, size, overlap), overlap) == s
  {
    var cs := Windows(s, size, overlap);
    var step := size - overlap;
    if |cs| > 0 {
      WalkWindowed(s, size, step);
      StitchPrefix(s, cs, size, overlap, |cs|);
      assert cs[..|cs|] == cs;
      assert Offset(|cs|, step) == Offset(|cs| - 1, step) + step;
    }
  }

  /** The end of window `k`. */
  function WindowEnd(n: nat, k: nat, size: int, step: int): (e: int)
    ensures e <= n
    ensures 0 <= step && 0 <= size ==> 0 <= e
  {
    if Offset(k, step) + size < n then Offset(k, step) + size else n
  }

  /** Each of `cs` is the slice of the text from its offset to the end of
      its window, and every offset lies inside the text. */
  predicate Windowed(s: String, cs: seq<String>, size: int, step: int) {
    forall k {:trigger cs[k]} :: 0 <= k < |cs| ==>
      && 0 <= Offset(k, step) <= WindowEnd(|s|, k, size, step) && Offset(k, step) < |s|
      && cs[k] == s[Offset(k, step)..WindowEnd(|s|, k, size, step)]
  }

  lemma WalkWindowed(s: String, size: int, step: int)
    requires 0 < size && step > 0
    ensures Windowed(s, Walk(s, 0, size, step), size, step)
  {
    var r := Walk(s, 0, size, step);
    forall k | 0 <= k < |r|
      ensures 0 <= Offset(k, step) < |s| && r[k] == s[Offset(k, step)..WindowEnd(|s|, k, size, step)]
    {
      WalkWindow(s, 0, size, step, k);
      WindowSlice(s, Offset(k, step), size);
    }
  }

  lemma {:induction false} StitchPrefix(s: String, cs: seq<String>, size: int, overlap: nat, j: nat)
    requires overlap < size
    requires Windowed(s, cs, size, size - overlap) && 1 <= j <= |cs|
    ensures Stitch(cs[..j], overlap) == s[..WindowEnd(|s|, j - 1, size, size - overlap)]
  {
    if j == 1 {
      StitchFirst(s, cs, size, overlap);
    } else {
      StitchPrefix(s, cs, size, overlap, j - 1);
      var last := cs[j - 1];
      StitchStep(s, cs, size, overlap, j);
    }
  }

  /** The first window alone reaches the end of the first window. */
  lemma StitchFirst(s: String, cs: seq<String>, size: int, overlap: nat)
    requires overlap < size
    requires Windowed(s, cs, size, size - overlap) && 1 <= |cs|
    ensures Stitch(cs[..1], overlap) == s[..WindowEnd(|s|, 0, size, size - overlap)]
  {
    assert cs[..1] == [cs[0]];
  }

  /** One more window extends the stitched text to that window's end. */
  lemma StitchStep(s: String, cs: seq<String>, size: int, overlap: nat, j: nat)
    requires overlap < size && 2 <= j <= |cs|
    requires 0 <= Offset(j - 1, size - overlap) < |s|
    requires cs[j - 1] == s[Offset(j - 1, size - overlap)..WindowEnd(|s|, j - 1, size, size - overlap)]
    requires Stitch(cs[..j - 1], overlap) == s[..WindowEnd(|s|, j - 2, size, size - overlap)]
    ensures Stitch(cs[..j], overlap) == s[..WindowEnd(|s|, j - 1, size, size - overlap)]
  {
    var step := size - overlap;
    StitchSnoc(cs, j, overlap);
    var a, b := Offset(j - 2, step), Offset(j - 1, step);
    assert b == a + step;
    var prevEnd, end := WindowEnd(|s|, j - 2, size, step), WindowEnd(|s|, j - 1, size, step);
    StitchOneMore(s, size, overlap, a, b, prevEnd, end, cs[j - 1]);
  }

  lemma StitchSnoc(cs: seq<String>, j: nat, overlap: nat)
    requires 2 <= j <= |cs|
    ensures Stitch(cs[..j], overlap) == Stitch(cs[..j - 1], overlap) + DropPrefix(cs[j - 1], overlap)
  {
    var prefix := cs[..j];
    assert prefix[..j - 1] == cs[..j - 1];
  }

  /** Appending the next window, less the overlap it repeats, to the text up
      to the end of the previous window gives the text up to the end of the
      next one. */
  lemma StitchOneMore(s: String, size: int, overlap: nat, a: nat, b: nat, prevEnd: nat, end: nat, chunk: String)
    requires overlap < size && b == a + (size - overlap) && b < |s|
    requires prevEnd == if a + size < |s| then a + size else |s|
    requires end == if b + size < |s| then b + size else |s|
    requires chunk == s[b..end]
    ensures s[..prevEnd] + DropPrefix(chunk, overlap) == s[..end]
  {
    if b + overlap <= end {
      assert prevEnd == b + overlap;
      assert DropPrefix(chunk, overlap) == s[prevEnd..end];
      assert s[..prevEnd] + s[prevEnd..end] == s[..end];
    } else {
      assert DropPrefix(chunk, overlap) == [];
    }
  }

  /** Not only the last chunk can be short: with the default size and overlap,
      normalised text of 1001 to 1200 characters gives two chunks, the first of
      them the whole text and the second its tail from position 1000, which
      lies wholly inside the first. */
  lemma TrailingChunkInsideOverlap(s: String)
    requires ChunkSize - Overlap < |s| <= ChunkSize
    ensures var cs := Windows(s, ChunkSize, Overlap);
            |cs| == 2 && cs[0] == s && cs[1] == s[ChunkSize - Overlap..]
  {
    var cs := Windows(s, ChunkSize, Overlap);
    assert Offset(1, 1000) == 1000;
    assert Offset(2, 1000) == 2000;
    if |cs| > 2 {
      OffsetIsProduct(|cs| - 1, 1000);
    }
  }

  /** A negative size gives a negative window end, which counts back from the
      end of the text: ten characters with size -5 and overlap -10 advance by
      5, and give the first five characters, then an empty window whose end
      (5 - 5 = 0) does not lie after its start. */
  lemma NegativeSizeCountsFromEnd()
    ensures Windows("abcdefghij", -5, -10) == ["abcde", ""]
  {
    var s := "abcdefghij";
    var r := Windows(s, -5, -10);
    OffsetIsProduct(|r| - 1, 5);
    OffsetIsProduct(|r|, 5);
    assert |r| == 2;
    assert Offset(1, 5) == 5;
    assert r[0] == s[..5] == "abcde";
    assert r[1] == [];
    assert r == [r[0], r[1]];
  }
}
