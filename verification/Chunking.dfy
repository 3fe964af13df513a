/** Multi-level chunking of a markdown document (`hierarchical_chunking.py`). */
module Chunking {
  import opened Text
  import opened Paths

  const PARAGRAPH_SEP := "\n\n"
  const DOCUMENT_LEVEL_CHARS := 8192
  const SECTION_LEVEL_CHARS := 3072
  const LEAF_LEVEL_CHARS := 768
  const SECTION_OVERLAP_CHARS := 460
  const LEAF_OVERLAP_CHARS := 115

  // ---------------------------------------------------------------- sections

  /** `s.split("\n")` */
  function SplitNewlines(s: string): (lines: seq<string>)
    ensures lines != []
  {
    if s == "" then [""]
    else
      var rest := SplitNewlines(s[1..]);
      if s[0] == '\n' then [""] + rest else [[s[0]] + rest[0]] + rest[1..]
  }

  lemma {:induction false} JoinSplitNewlines(s: string)
    ensures Join("\n", SplitNewlines(s)) == s
  {
    if s != "" {
      var rest := SplitNewlines(s[1..]);
      JoinSplitNewlines(s[1..]);
      if s[0] == '\n' {
        assert ([""] + rest)[1..] == rest;
        assert Join("\n", [""] + rest) == "" + "\n" + Join("\n", rest);
      } else {
        JoinHead("\n", s[0], rest);
      }
    }
  }

  lemma JoinHead(sep: string, c: char, parts: seq<string>)
    requires parts != []
    ensures Join(sep, [[c] + parts[0]] + parts[1..]) == [c] + Join(sep, parts)
  {
    var longer := [[c] + parts[0]] + parts[1..];
    assert longer[1..] == parts[1..];
    if |parts| > 1 {
      assert ([c] + parts[0]) + sep + Join(sep, parts[1..]) == [c] + (parts[0] + sep + Join(sep, parts[1..]));
    }
  }

  /** Lines are cut at every newline. */
  lemma {:induction false} SplitNewlinesSound(s: string, k: nat)
    requires k < |SplitNewlines(s)|
    ensures '\n' !in SplitNewlines(s)[k] && Join("\n", SplitNewlines(s)) == s
  {
    JoinSplitNewlines(s);
    if s != "" {
      var rest := SplitNewlines(s[1..]);
      if s[0] == '\n' {
        if k > 0 {
          SplitNewlinesSound(s[1..], k - 1);
        }
      } else {
        SplitNewlinesSound(s[1..], k);
      }
    }
  }

  function LeadingHashes(s: string): (n: nat)
    ensures n <= |s|
  {
    if s == "" || s[0] != '#' then 0 else 1 + LeadingHashes(s[1..])
  }

  /** One to six hashes, whitespace, and something after it. */
  predicate IsHeading(line: string) {
    var n := LeadingHashes(line);
    1 <= n <= 6 && n + 2 <= |line| && IsSpace(line[n])
  }

  lemma {:induction false} LeadingHashesExact(s: string, n: nat)
    requires n <= |s|
    ensures forall i :: 0 <= i < LeadingHashes(s) ==> s[i] == '#'
    ensures (forall i :: 0 <= i < n ==> s[i] == '#') && (n < |s| ==> s[n] != '#') ==> LeadingHashes(s) == n
  {
    if s != "" && s[0] == '#' {
      LeadingHashesExact(s[1..], if n > 0 then n - 1 else 0);
      assert forall i :: 0 < i < |s| ==> s[i] == s[1..][i - 1];
    }
  }

  /** A heading begins with one to six hashes and a whitespace character, and something comes after. */
  lemma HeadingIff(line: string)
    ensures IsHeading(line)
       <==> exists n :: 1 <= n <= 6 && n + 2 <= |line| && (forall i :: 0 <= i < n ==> line[i] == '#')
                        && IsSpace(line[n])
  {
    var hashes := LeadingHashes(line);
    LeadingHashesExact(line, hashes);
    if n :| 1 <= n <= 6 && n + 2 <= |line| && (forall i :: 0 <= i < n ==> line[i] == '#') && IsSpace(line[n]) {
      LeadingHashesExact(line, n);
    }
  }

  /** The lines of each section: a heading opens a new one, any other line joins the last one. */
  function SectionGroups(lines: seq<string>): seq<seq<string>> {
    if lines == [] then [] else
      var before, line := SectionGroups(lines[..|lines| - 1]), lines[|lines| - 1];
      if before == [] || IsHeading(line) then before + [[line]]
      else before[..|before| - 1] + [before[|before| - 1] + [line]]
  }

  function JoinAll(sep: string, groups: seq<seq<string>>): seq<string> {
    seq(|groups|, i requires 0 <= i < |groups| => Join(sep, groups[i]))
  }

  function Sections(content: string): seq<string> {
    JoinAll("\n", SectionGroups(SplitNewlines(content)))
  }

  /** Headings stand only at the start of a section, and every section but the first starts with one. */
  ghost predicate SectionShape(groups: seq<seq<string>>) {
    forall j :: 0 <= j < |groups| ==>
      && groups[j] != []
      && (j > 0 ==> IsHeading(groups[j][0]))
      && (forall k :: 0 < k < |groups[j]| ==> !IsHeading(groups[j][k]))
  }

  lemma {:induction false} SectionGroupsShape(lines: seq<string>)
    ensures SectionShape(SectionGroups(lines))
    ensures Flatten(SectionGroups(lines)) == lines
    ensures lines != [] ==> SectionGroups(lines) != []
  {
    if lines != [] {
      var before, line := SectionGroups(lines[..|lines| - 1]), lines[|lines| - 1];
      SectionGroupsShape(lines[..|lines| - 1]);
      TakeSnoc(lines, |lines| - 1);
      TakeAll(lines);
      if before == [] || IsHeading(line) {
        FlattenSnoc(before, [line]);
      } else {
        var init, last := before[..|before| - 1], before[|before| - 1];
        TakeSnoc(before, |before| - 1);
        TakeAll(before);
        FlattenSnoc(init, last);
        FlattenSnoc(init, last + [line]);
        ConcatAssoc(Flatten(init), last, [line]);
        SectionShapeExtend(before, line);
      }
    }
  }

  lemma SectionShapeExtend(before: seq<seq<string>>, line: string)
    requires SectionShape(before) && before != [] && !IsHeading(line)
    ensures SectionShape(before[..|before| - 1] + [before[|before| - 1] + [line]])
  {
    var last := before[|before| - 1];
    var after := before[..|before| - 1] + [last + [line]];
    forall j | 0 <= j < |after|
      ensures after[j] != [] && (j > 0 ==> IsHeading(after[j][0]))
      ensures forall k :: 0 < k < |after[j]| ==> !IsHeading(after[j][k])
    {
      if j < |before| - 1 {
        assert after[j] == before[j];
      } else {
        assert after[j] == last + [line];
      }
    }
  }

  lemma {:induction false} JoinFlatten(sep: string, groups: seq<seq<string>>)
    requires groups != [] && forall j :: 0 <= j < |groups| ==> groups[j] != []
    ensures Join(sep, JoinAll(sep, groups)) == Join(sep, Flatten(groups))
  {
    var joined := JoinAll(sep, groups);
    if |groups| == 1 {
      assert Flatten(groups) == groups[0] + Flatten(groups[1..]);
      AppendEmpty(groups[0]);
    } else {
      JoinFlatten(sep, groups[1..]);
      assert joined[1..] == JoinAll(sep, groups[1..]);
      assert Flatten(groups[1..]) == groups[1] + Flatten(groups[1..][1..]);
      JoinAppend(sep, groups[0], Flatten(groups[1..]));
    }
  }

  /** The sections are the content, cut in front of its headings: joining them gives it back. */
  lemma SectionsLossless(content: string)
    ensures Join("\n", Sections(content)) == content
    ensures SectionShape(SectionGroups(SplitNewlines(content)))
    ensures Sections(content) != []
  {
    var lines := SplitNewlines(content);
    SectionGroupsShape(lines);
    JoinFlatten("\n", SectionGroups(lines));
    JoinSplitNewlines(content);
  }

  lemma JoinAllSnoc(sep: string, groups: seq<seq<string>>, group: seq<string>)
    ensures JoinAll(sep, groups + [group]) == JoinAll(sep, groups) + [Join(sep, group)]
  {
  }

  method SplitIntoSections(content: string) returns (sections: seq<string>)
    ensures sections == Sections(content)
  {
    var lines := SplitNewlines(content);
    sections := [];
    var current := [];
    ghost var done: seq<seq<string>> := [];
    for i := 0 to |lines|
      invariant sections == JoinAll("\n", done)
      invariant SectionGroups(lines[..i]) == if current == [] then done else done + [current]
      invariant current == [] ==> i == 0
    {
      var line := lines[i];
      TakeSnoc(lines, i);
      SnocInit(lines[..i], line);
      if current != [] {
        SnocInit(done, current);
      }
      if IsHeading(line) {
        if current != [] {
          sections := sections + [Join("\n", current)];
          JoinAllSnoc("\n", done, current);
          done := done + [current];
        }
        current := [line];
      } else {
        current := current + [line];
      }
    }
    TakeAll(lines);
    if current != [] {
      sections := sections + [Join("\n", current)];
      JoinAllSnoc("\n", done, current);
    }
  }

  // ---------------------------------------------------------------- paragraphs

  /** Position after the last newline of a blank text, or 0 when it has none. */
  function PastLastNewline(s: string): (n: nat)
    ensures n <= |s| && (n > 0 ==> s[n - 1] == '\n')
    ensures forall i :: n <= i < |s| ==> s[i] != '\n'
  {
    if s == "" then 0
    else if s[|s| - 1] == '\n' then |s|
    else PastLastNewline(s[..|s| - 1])
  }

  /** Length of the match of `\n\s*\n` at the start of a text, 0 when there is none: the whitespace is
      matched greedily, so the match runs to the last newline of the leading whitespace. */
  function GapLength(s: string): (n: nat)
    ensures n <= |s|
    ensures n > 0 ==> n >= 2 && Blank(s[..n]) && s[0] == '\n' && s[n - 1] == '\n'
  {
    if s == "" || s[0] != '\n' then 0
    else
      var run := s[1..][..LeadingSpaces(s[1..])];
      var past := PastLastNewline(run);
      assert forall i :: 0 < i < 1 + past ==> s[i] == run[i - 1];
      if past == 0 then 0 else 1 + past
  }

  /** What `\n\s*\n` matches. */
  ghost predicate IsGap(s: string) {
    |s| >= 2 && s[0] == '\n' && s[|s| - 1] == '\n' && Blank(s)
  }

  lemma {:induction false} LastNewlineFound(s: string, i: nat)
    requires i < |s| && s[i] == '\n'
    ensures PastLastNewline(s) > i
  {
    if s[|s| - 1] != '\n' {
      LastNewlineFound(s[..|s| - 1], i);
    }
  }

  /** The match at the start of a text is the longest gap there is. */
  lemma GapLengthExact(s: string, n: nat)
    requires n <= |s|
    ensures GapLength(s) > 0 ==> IsGap(s[..GapLength(s)])
    ensures IsGap(s[..n]) ==> n <= GapLength(s)
  {
    if IsGap(s[..n]) {
      assert forall i :: 0 <= i < n ==> s[i] == s[..n][i];
      assert Blank(s[1..][..n - 1]) by {
        assert forall i :: 0 <= i < n - 1 ==> s[1..][i] == s[..n][i + 1];
      }
      LeadingSpacesAtLeast(s[1..], n - 1);
      var run := s[1..][..LeadingSpaces(s[1..])];
      assert run[n - 2] == s[n - 1] == '\n';
      LastNewlineFound(run, n - 2);
    }
  }

  /** `re.split(r"\n\s*\n", s)` */
  function SplitGaps(s: string): (pieces: seq<string>)
    ensures pieces != []
  {
    if s == "" then [""]
    else if GapLength(s) > 0 then [""] + SplitGaps(s[GapLength(s)..])
    else
      var rest := SplitGaps(s[1..]);
      [[s[0]] + rest[0]] + rest[1..]
  }

  function StripAll(pieces: seq<string>): seq<string> {
    if pieces == [] then []
    else (if Strip(pieces[0]) != "" then [Strip(pieces[0])] else []) + StripAll(pieces[1..])
  }

  function Paragraphs(s: string): seq<string> {
    StripAll(SplitGaps(s))
  }

  /** The visible characters of a text. */
  function Visible(s: string): string {
    if s == "" then "" else (if IsSpace(s[0]) then "" else [s[0]]) + Visible(s[1..])
  }

  lemma {:induction false} VisibleConcat(a: string, b: string)
    ensures Visible(a + b) == Visible(a) + Visible(b)
  {
    if a == "" {
      assert a + b == b;
    } else {
      VisibleConcat(a[1..], b);
      ConcatTail(a, b);
    }
  }

  lemma {:induction false} VisibleBlank(s: string)
    requires Blank(s)
    ensures Visible(s) == ""
  {
    if s != "" {
      assert IsSpace(s[0]) && Blank(s[1..]);
      VisibleBlank(s[1..]);
    }
  }

  lemma VisibleStrip(s: string)
    ensures Visible(Strip(s)) == Visible(s)
  {
    var before, after := StripShape(s);
    VisibleConcat(before + Strip(s), after);
    VisibleConcat(before, Strip(s));
    VisibleBlank(before);
    VisibleBlank(after);
  }

  lemma {:induction false} StripAllVisible(pieces: seq<string>)
    ensures Visible(Flatten(StripAll(pieces))) == Visible(Flatten(pieces))
  {
    if pieces != [] {
      var head, rest := pieces[0], pieces[1..];
      StripAllVisible(rest);
      VisibleConcat(head, Flatten(rest));
      VisibleStrip(head);
      if Strip(head) != "" {
        ConcatTail([Strip(head)], StripAll(rest));
        assert StripAll(pieces) == [Strip(head)] + StripAll(rest);
        VisibleConcat(Strip(head), Flatten(StripAll(rest)));
      } else {
        assert StripAll(pieces) == [] + StripAll(rest) == StripAll(rest);
        assert Visible(head) == "";
      }
    }
  }

  lemma FlattenHead(c: char, parts: seq<string>)
    requires parts != []
    ensures Flatten([[c] + parts[0]] + parts[1..]) == [c] + Flatten(parts)
  {
    ConcatTail([[c] + parts[0]], parts[1..]);
    ConcatAssoc([c], parts[0], Flatten(parts[1..]));
  }

  lemma FlattenEmptyHead(parts: seq<string>)
    ensures Flatten([""] + parts) == Flatten(parts)
  {
    ConcatTail([""], parts);
    assert "" + Flatten(parts) == Flatten(parts);
  }

  lemma VisibleAfterBlank(s: string, n: nat)
    requires n <= |s| && Blank(s[..n])
    ensures Visible(s) == Visible(s[n..])
  {
    VisibleConcat(s[..n], s[n..]);
    SplitAt(s, n);
    VisibleBlank(s[..n]);
  }

  lemma VisibleHead(s: string)
    requires s != ""
    ensures Visible(s) == Visible([s[0]]) + Visible(s[1..])
  {
    VisibleConcat([s[0]], s[1..]);
    assert [s[0]] + s[1..] == s;
  }

  lemma {:induction false} SplitGapsVisible(s: string)
    ensures Visible(Flatten(SplitGaps(s))) == Visible(s)
    decreases |s|
  {
    if s == "" {
      FlattenEmptyHead([]);
      assert [""] + [] == [""];
    } else if GapLength(s) > 0 {
      var n := GapLength(s);
      SplitGapsVisible(s[n..]);
      FlattenEmptyHead(SplitGaps(s[n..]));
      VisibleAfterBlank(s, n);
    } else {
      SplitGapsVisible(s[1..]);
      FlattenHead(s[0], SplitGaps(s[1..]));
      VisibleConcat([s[0]], Flatten(SplitGaps(s[1..])));
      VisibleHead(s);
    }
  }

  lemma {:induction false} LeadingSpacesAtLeast(s: string, n: nat)
    requires n <= |s| && Blank(s[..n])
    ensures LeadingSpaces(s) >= n
  {
    if n > 0 {
      assert IsSpace(s[..n][0]);
      assert s[1..][..n - 1] == s[..n][1..];
      LeadingSpacesAtLeast(s[1..], n - 1);
    }
  }

  /** A gap inside the start of a text is a gap of the text. */
  lemma GapExtends(s: string, t: string)
    requires s <= t && GapLength(s) > 0
    ensures GapLength(t) > 0
  {
    var n := GapLength(s);
    assert forall i :: 0 <= i < n ==> t[i] == s[..n][i];
    LeadingSpacesAtLeast(t[1..], n - 1);
    var run := t[1..][..LeadingSpaces(t[1..])];
    assert run[n - 2] == t[n - 1] == '\n';
  }

  ghost predicate GapFree(s: string) {
    forall i :: 0 <= i <= |s| ==> GapLength(s[i..]) == 0
  }

  /** No part of the text is a gap. */
  lemma GapFreeExact(s: string, i: nat, j: nat)
    requires GapFree(s) && i <= j <= |s|
    ensures !IsGap(s[i..j])
  {
    assert s[i..j] == s[i..][..j - i];
    GapLengthExact(s[i..], j - i);
    assert GapLength(s[i..]) == 0;
  }

  lemma {:induction false} FirstPieceIsPrefix(s: string)
    ensures SplitGaps(s)[0] <= s
  {
    if s != "" && GapLength(s) == 0 {
      FirstPieceIsPrefix(s[1..]);
      assert s == [s[0]] + s[1..];
    }
  }

  lemma GapFreeCons(c: char, piece: string, s: string)
    requires s != "" && s[0] == c && piece <= s[1..] && GapFree(piece) && GapLength(s) == 0
    ensures GapFree([c] + piece)
  {
    var longer := [c] + piece;
    forall i | 0 <= i <= |longer| ensures GapLength(longer[i..]) == 0 {
      if i > 0 {
        assert longer[i..] == piece[i - 1..];
      } else {
        assert longer[0..] == longer;
        assert s == [c] + s[1..];
        if GapLength(longer) > 0 {
          GapExtends(longer, s);
        }
      }
    }
  }

  /** No piece contains a separator. */
  lemma {:induction false} PiecesGapFree(s: string, k: nat)
    requires k < |SplitGaps(s)|
    ensures GapFree(SplitGaps(s)[k])
    decreases |s|
  {
    if s == "" {
      assert GapLength("") == 0;
    } else if GapLength(s) > 0 {
      if k > 0 {
        PiecesGapFree(s[GapLength(s)..], k - 1);
      } else {
        assert GapLength("") == 0;
      }
    } else {
      PiecesGapFree(s[1..], k);
      if k == 0 {
        FirstPieceIsPrefix(s[1..]);
        GapFreeCons(s[0], SplitGaps(s[1..])[0], s);
      }
    }
  }

  lemma GapFreeStrip(s: string)
    requires GapFree(s)
    ensures GapFree(Strip(s))
  {
    var before, after := StripShape(s);
    GapFreeInfix(before, Strip(s), after);
  }

  lemma GapFreeInfix(before: string, core: string, after: string)
    requires GapFree(before + core + after)
    ensures GapFree(core)
  {
    forall i | 0 <= i <= |core| ensures GapLength(core[i..]) == 0 {
      DropInfix(before, core, after, i);
      if GapLength(core[i..]) > 0 {
        GapExtends(core[i..], (before + core + after)[|before| + i..]);
      }
    }
  }

  lemma DropInfix<T>(before: seq<T>, core: seq<T>, after: seq<T>, i: nat)
    requires i <= |core|
    ensures core[i..] <= (before + core + after)[|before| + i..]
  {
  }

  /** Visible text without surrounding whitespace and without a gap in it. */
  ghost predicate IsParagraph(s: string) {
    && s != "" && !IsSpace(s[0]) && !IsSpace(s[|s| - 1])
    && forall i, j :: 0 <= i <= j <= |s| ==> !IsGap(s[i..j])
  }

  lemma StripIsParagraph(piece: string)
    requires GapFree(piece) && Strip(piece) != ""
    ensures IsParagraph(Strip(piece))
  {
    var before, after := StripShape(piece);
    GapFreeStrip(piece);
    forall i, j | 0 <= i <= j <= |Strip(piece)| ensures !IsGap(Strip(piece)[i..j]) {
      GapFreeExact(Strip(piece), i, j);
    }
  }

  lemma {:induction false} StripAllParagraphs(pieces: seq<string>)
    requires forall k :: 0 <= k < |pieces| ==> GapFree(pieces[k])
    ensures forall k :: 0 <= k < |StripAll(pieces)| ==> IsParagraph(StripAll(pieces)[k])
  {
    if pieces != [] {
      StripAllParagraphs(pieces[1..]);
      if Strip(pieces[0]) != "" {
        StripIsParagraph(pieces[0]);
      } else {
        AppendEmpty(StripAll(pieces[1..]));
      }
    }
  }

  /** Paragraphs are not blank, are trimmed, contain no blank line, and together hold every visible
      character of the text in order. */
  lemma ParagraphsSound(s: string)
    ensures Visible(Flatten(Paragraphs(s))) == Visible(s)
    ensures forall k :: 0 <= k < |Paragraphs(s)| ==> IsParagraph(Paragraphs(s)[k])
  {
    SplitGapsVisible(s);
    StripAllVisible(SplitGaps(s));
    forall k | 0 <= k < |SplitGaps(s)| ensures GapFree(SplitGaps(s)[k]) {
      PiecesGapFree(s, k);
    }
    StripAllParagraphs(SplitGaps(s));
  }

  /** Pieces with separators between them. */
  function Alternate(pieces: seq<string>, separators: seq<string>): string
    requires |pieces| == |separators| + 1
  {
    if separators == [] then pieces[0]
    else pieces[0] + separators[0] + Alternate(pieces[1..], separators[1..])
  }

  lemma AlternateHead(c: char, pieces: seq<string>, separators: seq<string>)
    requires |pieces| == |separators| + 1
    ensures Alternate([[c] + pieces[0]] + pieces[1..], separators) == [c] + Alternate(pieces, separators)
  {
    var longer := [[c] + pieces[0]] + pieces[1..];
    assert longer[1..] == pieces[1..];
    if separators != [] {
      var rest := Alternate(pieces[1..], separators[1..]);
      assert ([c] + pieces[0]) + separators[0] + rest == [c] + (pieces[0] + separators[0] + rest);
    }
  }

  lemma AlternateCons(piece: string, separator: string, pieces: seq<string>, separators: seq<string>)
    requires |pieces| == |separators| + 1
    ensures Alternate([piece] + pieces, [separator] + separators) == piece + separator + Alternate(pieces, separators)
  {
    assert ([piece] + pieces)[1..] == pieces && ([separator] + separators)[1..] == separators;
  }

  ghost predicate AllGaps(separators: seq<string>) {
    forall k :: 0 <= k < |separators| ==> IsGap(separators[k])
  }

  /** A gap in front of a text that is cut. */
  lemma CutBefore(s: string, n: nat, pieces: seq<string>, separators: seq<string>)
    requires n <= |s| && IsGap(s[..n]) && |pieces| == |separators| + 1 && AllGaps(separators)
    requires Alternate(pieces, separators) == s[n..]
    ensures AllGaps([s[..n]] + separators) && Alternate([""] + pieces, [s[..n]] + separators) == s
  {
    AlternateCons("", s[..n], pieces, separators);
    AppendEmpty(s[..n]);
    SplitAt(s, n);
    GapsCons(s[..n], separators);
  }

  lemma GapsCons(gap: string, separators: seq<string>)
    requires IsGap(gap) && AllGaps(separators)
    ensures AllGaps([gap] + separators)
  {
  }

  /** A character in front of it. */
  lemma GrowBefore(s: string, pieces: seq<string>, separators: seq<string>)
    requires s != "" && |pieces| == |separators| + 1 && Alternate(pieces, separators) == s[1..]
    ensures Alternate([[s[0]] + pieces[0]] + pieces[1..], separators) == s
  {
    AlternateHead(s[0], pieces, separators);
    assert [s[0]] + s[1..] == s;
  }

  /** The pieces are cut at gaps and nowhere else: with the gaps between them they are the text. */
  lemma {:induction false} SplitGapsExact(s: string) returns (separators: seq<string>)
    ensures |SplitGaps(s)| == |separators| + 1 && AllGaps(separators)
    ensures Alternate(SplitGaps(s), separators) == s
    decreases |s|
  {
    separators := [];
    if GapLength(s) > 0 {
      var n := GapLength(s);
      var rest := SplitGapsExact(s[n..]);
      GapLengthExact(s, n);
      CutBefore(s, n, SplitGaps(s[n..]), rest);
      separators := [s[..n]] + rest;
    } else if s != "" {
      separators := SplitGapsExact(s[1..]);
      GrowBefore(s, SplitGaps(s[1..]), separators);
    }
  }

  /** What stands around the paragraphs of a text: blanks, and between two paragraphs one with a gap in it. */
  ghost predicate Around(blanks: seq<string>) {
    && (forall k :: 0 <= k < |blanks| ==> Blank(blanks[k]))
    && (forall k :: 0 < k < |blanks| - 1 ==> HoldsGap(blanks[k]))
  }

  ghost predicate HoldsGap(s: string) {
    exists i, j :: 0 <= i <= j <= |s| && IsGap(s[i..j])
  }

  lemma GapWithin(before: string, gap: string, after: string)
    requires Blank(before) && IsGap(gap) && Blank(after)
    ensures Blank(before + gap + after) && HoldsGap(before + gap + after)
  {
    assert (before + gap + after)[|before|..|before| + |gap|] == gap;
  }

  /** A blank piece and the gap after it go to what stands in front of the later paragraphs. */
  lemma DropPiece(piece: string, gap: string, rest: seq<string>, later: seq<string>) returns (blanks: seq<string>)
    requires Blank(piece) && IsGap(gap) && |rest| == |later| + 1 && Around(rest)
    ensures |blanks| == |later| + 1 && Around(blanks)
    ensures Alternate(blanks, later) == piece + gap + Alternate(rest, later)
  {
    GapWithin(piece, gap, rest[0]);
    blanks := [piece + gap + rest[0]] + rest[1..];
    AlternatePrepend(piece + gap, rest, later);
  }

  /** A piece with a core: the gap after it stands between its paragraph and the later ones. */
  lemma KeepPiece(before: string, core: string, after: string, gap: string, rest: seq<string>, later: seq<string>)
    returns (blanks: seq<string>)
    requires Blank(before) && Blank(after) && IsGap(gap) && |rest| == |later| + 1 && Around(rest)
    ensures |blanks| == |later| + 2 && Around(blanks)
    ensures Alternate(blanks, [core] + later) == (before + core + after) + gap + Alternate(rest, later)
  {
    var second := [after + gap + rest[0]] + rest[1..];
    GapWithin(after, gap, rest[0]);
    blanks := [before] + second;
    AlternatePrepend(after + gap, rest, later);
    AlternateCons(before, core, second, later);
    KeptText(before, core, after, gap, Alternate(rest, later));
  }

  lemma KeptText(before: string, core: string, after: string, gap: string, rest: string)
    ensures before + core + (after + gap + rest) == (before + core + after) + gap + rest
  {
  }

  lemma StripAllCons(pieces: seq<string>)
    requires pieces != []
    ensures StripAll(pieces)
         == if Strip(pieces[0]) == "" then StripAll(pieces[1..]) else [Strip(pieces[0])] + StripAll(pieces[1..])
  {
    AppendEmpty(StripAll(pieces[1..]));
  }

  lemma StripAllOne(piece: string)
    ensures StripAll([piece]) == if Strip(piece) == "" then [] else [Strip(piece)]
  {
    AppendEmpty([Strip(piece)]);
  }

  lemma AlternateTwo(before: string, core: string, after: string)
    ensures Alternate([before, after], [core]) == before + core + after
    ensures Alternate([before], []) == before
  {
    assert [before, after][1..] == [after] && [core][1..] == [];
  }

  lemma OnePiece(piece: string, before: string, core: string, after: string) returns (blanks: seq<string>)
    requires piece == before + core + after && Blank(before) && Blank(after) && (core == "" ==> Blank(piece))
    ensures core == "" ==> |blanks| == 1 && Around(blanks) && Alternate(blanks, []) == piece
    ensures core != "" ==> |blanks| == 2 && Around(blanks) && Alternate(blanks, [core]) == piece
  {
    if core == "" {
      AlternateTwo(piece, core, after);
      blanks := [piece];
    } else {
      AlternateTwo(before, core, after);
      blanks := [before, after];
    }
  }

  /** The stripped pieces, blank ones dropped, with all that was around them. */
  lemma {:induction false} StripAllExact(pieces: seq<string>, separators: seq<string>) returns (blanks: seq<string>)
    requires |pieces| == |separators| + 1 && AllGaps(separators)
    ensures |blanks| == |StripAll(pieces)| + 1 && Around(blanks)
    ensures Alternate(blanks, StripAll(pieces)) == Alternate(pieces, separators)
  {
    var before, after := StripShape(pieces[0]);
    StripBlank(pieces[0]);
    if separators == [] {
      assert pieces == [pieces[0]];
      StripAllOne(pieces[0]);
      blanks := OnePiece(pieces[0], before, Strip(pieces[0]), after);
    } else {
      var rest := StripAllExact(pieces[1..], separators[1..]);
      StripAllCons(pieces);
      if Strip(pieces[0]) == "" {
        blanks := DropPiece(pieces[0], separators[0], rest, StripAll(pieces[1..]));
      } else {
        blanks := KeepPiece(before, Strip(pieces[0]), after, separators[0], rest, StripAll(pieces[1..]));
      }
    }
  }

  lemma AlternatePrepend(before: string, pieces: seq<string>, separators: seq<string>)
    requires |pieces| == |separators| + 1
    ensures Alternate([before + pieces[0]] + pieces[1..], separators) == before + Alternate(pieces, separators)
  {
    var longer := [before + pieces[0]] + pieces[1..];
    assert longer[1..] == pieces[1..];
    if separators != [] {
      var rest := Alternate(pieces[1..], separators[1..]);
      assert (before + pieces[0]) + separators[0] + rest == before + (pieces[0] + separators[0] + rest);
    }
  }

  /** A text is its paragraphs with blanks around them, and a gap stands between two of them; as no paragraph
      holds a gap or has blank ends, they are the only ones. */
  lemma ParagraphsExact(s: string) returns (blanks: seq<string>)
    ensures |blanks| == |Paragraphs(s)| + 1 && Around(blanks)
    ensures Alternate(blanks, Paragraphs(s)) == s
    ensures forall k :: 0 <= k < |Paragraphs(s)| ==> IsParagraph(Paragraphs(s)[k])
  {
    var separators := SplitGapsExact(s);
    blanks := StripAllExact(SplitGaps(s), separators);
    ParagraphsSound(s);
  }

  // ---------------------------------------------------------------- chunks with overlap

  /** The end of a full chunk that the next one repeats: at most its last `overlapSize` characters, and
      of those only what follows the first paragraph boundary. */
  function Overlap(chunk: string, overlapSize: int): string {
    if |chunk| > overlapSize then
      var tail := Slice(chunk, -overlapSize, |chunk|);
      var boundary := Find(tail, PARAGRAPH_SEP);
      if boundary > 0 then tail[boundary + 2..] else tail
    else chunk
  }

  /** A chunk as it is put together: what it repeats of its predecessor, then whole items. */
  datatype Group = Group(overlap: string, items: seq<string>) {
    function Pieces(): seq<string> {
      (if overlap != "" then [overlap] else []) + items
    }

    function Text(): string {
      Join(PARAGRAPH_SEP, Pieces())
    }

    /** The size the packer counts: separators are free. */
    function Size(): nat {
      |overlap| + |Flatten(items)|
    }
  }

  function Texts(groups: seq<Group>): seq<string> {
    seq(|groups|, i requires 0 <= i < |groups| => groups[i].Text())
  }

  /** Greedy grouping: an item that would exceed the target opens a new group, which starts with the
      overlap of the group before. */
  function GroupItems(items: seq<string>, targetSize: int, overlapSize: int): seq<Group> {
    if items == [] then [] else
      var before, item := GroupItems(items[..|items| - 1], targetSize, overlapSize), items[|items| - 1];
      if before == [] then [Group("", [item])]
      else
        var last := before[|before| - 1];
        if last.Size() + |item| > targetSize then
          before + [Group(Overlap(last.Text(), overlapSize), [item])]
        else
          before[..|before| - 1] + [Group(last.overlap, last.items + [item])]
  }

  function Pack(items: seq<string>, targetSize: int, overlapSize: int): seq<string> {
    Texts(GroupItems(items, targetSize, overlapSize))
  }

  function GroupedItems(groups: seq<Group>): seq<string> {
    if groups == [] then [] else GroupedItems(groups[..|groups| - 1]) + groups[|groups| - 1].items
  }

  ghost predicate GroupLink(groups: seq<Group>, j: nat, targetSize: int, overlapSize: int)
    requires j < |groups|
  {
    && groups[j].items != []
    && groups[j].overlap == (if j == 0 then "" else Overlap(groups[j - 1].Text(), overlapSize))
    && (|groups[j].items| > 1 ==> |groups[j].overlap| + |Flatten(groups[j].items)| <= targetSize)
    && (j > 0 ==>
          |groups[j - 1].overlap| + |Flatten(groups[j - 1].items)| + |groups[j].items[0]| > targetSize)
  }

  ghost predicate AllLinked(groups: seq<Group>, targetSize: int, overlapSize: int) {
    forall j :: 0 <= j < |groups| ==> GroupLink(groups, j, targetSize, overlapSize)
  }

  /** One more item either joins the last group or opens a new one. */
  lemma GroupItemsSnoc(items: seq<string>, item: string, targetSize: int, overlapSize: int,
                       before: seq<Group>, last: Group)
    requires items != [] ==> GroupItems(items, targetSize, overlapSize) == before + [last]
    ensures GroupItems(items + [item], targetSize, overlapSize)
         == if items == [] then [Group("", [item])]
            else if last.Size() + |item| > targetSize then
              (before + [last]) + [Group(Overlap(last.Text(), overlapSize), [item])]
            else before + [Group(last.overlap, last.items + [item])]
  {
    SnocInit(items, item);
    SnocInit(before, last);
  }

  /** The groups partition the items in order; each repeats the overlap of the one before it, holds at
      least one item, stays within the target unless it holds a single item, and ends where the next item
      would not have fitted. */
  lemma {:induction false} GroupItemsSound(items: seq<string>, targetSize: int, overlapSize: int)
    ensures GroupedItems(GroupItems(items, targetSize, overlapSize)) == items
    ensures items != [] ==> GroupItems(items, targetSize, overlapSize) != []
    ensures AllLinked(GroupItems(items, targetSize, overlapSize), targetSize, overlapSize)
  {
    if items != [] {
      var shorter, item := items[..|items| - 1], items[|items| - 1];
      GroupItemsSound(shorter, targetSize, overlapSize);
      TakeSnoc(items, |items| - 1);
      TakeAll(items);
      var before := GroupItems(shorter, targetSize, overlapSize);
      if before == [] {
        OnlyGroup(item, targetSize, overlapSize);
      } else {
        TakeSnoc(before, |before| - 1);
        TakeAll(before);
        GroupItemsSnoc(shorter, item, targetSize, overlapSize, before[..|before| - 1], before[|before| - 1]);
        if before[|before| - 1].Size() + |item| > targetSize {
          NewGroup(before, item, targetSize, overlapSize);
        } else {
          GrowGroup(before, item, targetSize, overlapSize);
        }
      }
    }
  }

  lemma OnlyGroup(item: string, targetSize: int, overlapSize: int)
    ensures GroupedItems([Group("", [item])]) == [item]
    ensures AllLinked([Group("", [item])], targetSize, overlapSize)
  {
    var groups := [Group("", [item])];
    assert groups[..0] == [];
  }

  /** The link of a group depends only on the group and the one before it. */
  lemma LinkKept(before: seq<Group>, after: seq<Group>, j: nat, targetSize: int, overlapSize: int)
    requires j < |before| && j < |after| && after[j] == before[j] && (j > 0 ==> after[j - 1] == before[j - 1])
    requires GroupLink(before, j, targetSize, overlapSize)
    ensures GroupLink(after, j, targetSize, overlapSize)
  {
  }

  lemma NewGroup(before: seq<Group>, item: string, targetSize: int, overlapSize: int)
    requires before != [] && before[|before| - 1].Size() + |item| > targetSize
    requires AllLinked(before, targetSize, overlapSize)
    ensures var after := before + [Group(Overlap(before[|before| - 1].Text(), overlapSize), [item])];
            && GroupedItems(after) == GroupedItems(before) + [item]
            && AllLinked(after, targetSize, overlapSize)
  {
    var group := Group(Overlap(before[|before| - 1].Text(), overlapSize), [item]);
    var after := before + [group];
    SnocInit(before, group);
    forall j | 0 <= j < |after| ensures GroupLink(after, j, targetSize, overlapSize) {
      if j < |before| {
        LinkKept(before, after, j, targetSize, overlapSize);
      } else {
        NewLink(after, j, item, targetSize, overlapSize);
      }
    }
  }

  lemma NewLink(after: seq<Group>, j: nat, item: string, targetSize: int, overlapSize: int)
    requires 0 < j < |after| && after[j] == Group(Overlap(after[j - 1].Text(), overlapSize), [item])
    requires after[j - 1].Size() + |item| > targetSize
    ensures GroupLink(after, j, targetSize, overlapSize)
  {
  }

  lemma LinkGrows(before: seq<Group>, after: seq<Group>, j: nat, item: string, targetSize: int, overlapSize: int)
    requires j < |before| && j < |after| && (j > 0 ==> after[j - 1] == before[j - 1])
    requires after[j] == Group(before[j].overlap, before[j].items + [item])
    requires before[j].Size() + |item| <= targetSize && GroupLink(before, j, targetSize, overlapSize)
    ensures GroupLink(after, j, targetSize, overlapSize)
  {
    FlattenSnoc(before[j].items, item);
    ConcatTail(before[j].items, [item]);
  }

  lemma GrowGroup(before: seq<Group>, item: string, targetSize: int, overlapSize: int)
    requires before != [] && before[|before| - 1].Size() + |item| <= targetSize
    requires AllLinked(before, targetSize, overlapSize)
    ensures var last := before[|before| - 1];
            var after := before[..|before| - 1] + [Group(last.overlap, last.items + [item])];
            && GroupedItems(after) == GroupedItems(before) + [item]
            && AllLinked(after, targetSize, overlapSize)
  {
    var init, last := before[..|before| - 1], before[|before| - 1];
    var group := Group(last.overlap, last.items + [item]);
    var after := init + [group];
    SnocInit(init, group);
    ConcatAssoc(GroupedItems(init), last.items, [item]);
    forall j | 0 <= j < |after| ensures GroupLink(after, j, targetSize, overlapSize) {
      if j < |before| - 1 {
        LinkKept(before, after, j, targetSize, overlapSize);
      } else {
        LinkGrows(before, after, j, item, targetSize, overlapSize);
      }
    }
  }

  lemma FirstFound(s: string, pat: string, b: nat)
    ensures OccursAt(s, pat, b) && (forall j: nat :: j < b ==> !OccursAt(s, pat, j)) ==> Find(s, pat) == b
    ensures (forall j: nat :: !OccursAt(s, pat, j)) ==> Find(s, pat) == -1
  {
    var i := Find(s, pat);
    assert OccursAt(s, pat, b) ==> 0 <= i <= b;
  }

  lemma OverlapTail(chunk: string, overlapSize: int, at: nat)
    requires at == if overlapSize > 0 then |chunk| - overlapSize else if -overlapSize < |chunk| then -overlapSize
                   else |chunk|
    requires |chunk| > overlapSize
    ensures Slice(chunk, -overlapSize, |chunk|) == chunk[at..]
  {
  }

  /** A chunk within the overlap size is repeated whole.  Of a longer one its last `overlapSize` characters are
      taken (all of it for zero; for a negative size what follows as many characters), and of these only what
      follows their first paragraph boundary, unless that is at their very beginning. */
  lemma OverlapExact(chunk: string, overlapSize: int, at: nat, tail: string, b: nat)
    requires |chunk| > overlapSize
    requires at == if overlapSize > 0 then |chunk| - overlapSize else if -overlapSize < |chunk| then -overlapSize
                   else |chunk|
    requires tail == chunk[at..]
    ensures OccursAt(tail, "\n\n", b) && (forall j: nat :: j < b ==> !OccursAt(tail, "\n\n", j)) ==>
              Overlap(chunk, overlapSize) == if b > 0 then tail[b + 2..] else tail
    ensures (forall j: nat :: !OccursAt(tail, "\n\n", j)) ==> Overlap(chunk, overlapSize) == tail
  {
    OverlapTail(chunk, overlapSize, at);
    FirstFound(tail, "\n\n", b);
  }

  lemma ShortOverlap(chunk: string, overlapSize: int)
    requires |chunk| <= overlapSize
    ensures Overlap(chunk, overlapSize) == chunk
  {
  }

  /** A positive overlap size bounds what is repeated, always an end of the chunk before.  Any other
      overlap size does not: then the overlap can be the whole chunk. */
  lemma OverlapSound(chunk: string, overlapSize: int)
    requires overlapSize >= 1
    ensures |Overlap(chunk, overlapSize)| <= overlapSize
    ensures IsSuffix(Overlap(chunk, overlapSize), chunk)
  {
    if |chunk| > overlapSize {
      var tail := Slice(chunk, -overlapSize, |chunk|);
      assert tail == chunk[|chunk| - overlapSize..];
      var boundary := Find(tail, PARAGRAPH_SEP);
      if boundary > 0 {
        DropTwice(chunk, |chunk| - overlapSize, boundary + 2);
      }
    }
  }

  lemma DropTwice<T>(xs: seq<T>, a: nat, b: nat)
    requires a + b <= |xs|
    ensures xs[a..][b..] == xs[a + b..]
  {
  }

  lemma OverlapBoundedIff(overlapSize: int)
    ensures (forall chunk :: |Overlap(chunk, overlapSize)| <= overlapSize) <==> overlapSize >= 1
  {
    if overlapSize >= 1 {
      forall chunk ensures |Overlap(chunk, overlapSize)| <= overlapSize {
        OverlapSound(chunk, overlapSize);
      }
    } else {
      assert |Overlap("a", overlapSize)| > overlapSize by {
        if overlapSize == 0 {
          assert Slice("a", 0, 1) == "a";
        }
      }
    }
  }

  function Longest(items: seq<string>): nat {
    if items == [] then 0 else
      var rest := Longest(items[..|items| - 1]);
      if |items[|items| - 1]| > rest then |items[|items| - 1]| else rest
  }

  lemma {:induction false} LongestBounds(items: seq<string>, k: nat)
    requires k < |items|
    ensures |items[k]| <= Longest(items)
  {
    if k < |items| - 1 {
      LongestBounds(items[..|items| - 1], k);
    }
  }

  lemma {:induction false} GroupAt(groups: seq<Group>, j: nat) returns (at: nat)
    requires j < |groups|
    ensures at + |groups[j].items| <= |GroupedItems(groups)|
    ensures groups[j].items == GroupedItems(groups)[at..at + |groups[j].items|]
  {
    if j == |groups| - 1 {
      at := |GroupedItems(groups[..j])|;
    } else {
      at := GroupAt(groups[..|groups| - 1], j);
    }
  }

  /** What one chunk is, in terms of its group and the chunk before it. */
  ghost predicate ChunkSound(groups: seq<Group>, chunks: seq<string>, j: nat, targetSize: int,
                             overlapSize: int, longest: nat)
    requires j < |groups| == |chunks|
  {
    && groups[j].items != []
    && chunks[j] == Join("\n\n", (if groups[j].overlap != "" then [groups[j].overlap] else []) + groups[j].items)
    && groups[j].overlap == (if j == 0 then "" else Overlap(chunks[j - 1], overlapSize))
    && (|groups[j].items| > 1 ==> |groups[j].overlap| + |Flatten(groups[j].items)| <= targetSize)
    && (j > 0 ==>
          |groups[j - 1].overlap| + |Flatten(groups[j - 1].items)| + |groups[j].items[0]| > targetSize)
    && (overlapSize >= 1 ==> ChunkBounded(groups, chunks, j, targetSize, overlapSize, longest))
  }

  ghost predicate ChunkBounded(groups: seq<Group>, chunks: seq<string>, j: nat, targetSize: int,
                               overlapSize: int, longest: nat)
    requires j < |groups| == |chunks|
  {
    && |groups[j].overlap| <= overlapSize
    && (j > 0 ==> IsSuffix(groups[j].overlap, chunks[j - 1]))
    && (groups[j].Size() <= targetSize || groups[j].Size() <= overlapSize + longest)
  }

  lemma TextAt(groups: seq<Group>, j: nat)
    requires j < |groups|
    ensures Texts(groups)[j]
         == Join("\n\n", (if groups[j].overlap != "" then [groups[j].overlap] else []) + groups[j].items)
    ensures Texts(groups)[j] == groups[j].Text()
  {
  }

  lemma LinkAt(groups: seq<Group>, j: nat, targetSize: int, overlapSize: int)
    requires j < |groups| && GroupLink(groups, j, targetSize, overlapSize)
    ensures groups[j].overlap == if j == 0 then "" else Overlap(Texts(groups)[j - 1], overlapSize)
  {
    if j > 0 {
      TextAt(groups, j - 1);
    }
  }

  /** The bounds that a positive overlap size gives. */
  lemma ChunkBounds(groups: seq<Group>, j: nat, targetSize: int, overlapSize: int)
    requires j < |groups| && GroupLink(groups, j, targetSize, overlapSize) && overlapSize >= 1
    ensures ChunkBounded(groups, Texts(groups), j, targetSize, overlapSize, Longest(GroupedItems(groups)))
  {
    SizeBound(groups, j, targetSize, overlapSize);
    OverlapPart(groups, j, targetSize, overlapSize);
  }

  lemma ChunkSoundAt(groups: seq<Group>, j: nat, targetSize: int, overlapSize: int)
    requires j < |groups| && AllLinked(groups, targetSize, overlapSize)
    ensures ChunkSound(groups, Texts(groups), j, targetSize, overlapSize, Longest(GroupedItems(groups)))
  {
    assert GroupLink(groups, j, targetSize, overlapSize);
    TextAt(groups, j);
    LinkAt(groups, j, targetSize, overlapSize);
    if overlapSize >= 1 {
      ChunkBounds(groups, j, targetSize, overlapSize);
    }
  }

  lemma OverlapPart(groups: seq<Group>, j: nat, targetSize: int, overlapSize: int)
    requires j < |groups| && GroupLink(groups, j, targetSize, overlapSize)
    requires overlapSize >= 1
    ensures |groups[j].overlap| <= overlapSize
    ensures j > 0 ==> IsSuffix(groups[j].overlap, Texts(groups)[j - 1])
  {
    if j > 0 {
      OverlapSound(groups[j - 1].Text(), overlapSize);
    }
  }

  lemma SizeBound(groups: seq<Group>, j: nat, targetSize: int, overlapSize: int)
    requires j < |groups| && GroupLink(groups, j, targetSize, overlapSize)
    requires overlapSize >= 1
    ensures groups[j].Size() <= targetSize || groups[j].Size() <= overlapSize + Longest(GroupedItems(groups))
  {
    if |groups[j].items| == 1 {
      FirstItemBound(groups, j);
      SingleSize(groups[j]);
      if j > 0 {
        OverlapSound(groups[j - 1].Text(), overlapSize);
      }
    }
  }

  lemma FirstItemBound(groups: seq<Group>, j: nat)
    requires j < |groups| && groups[j].items != []
    ensures |groups[j].items[0]| <= Longest(GroupedItems(groups))
  {
    var at := GroupAt(groups, j);
    assert groups[j].items[0] == GroupedItems(groups)[at];
    LongestBounds(GroupedItems(groups), at);
  }

  /** Chunks reconstruct their input.  Chunk j is the join of an overlap and of group j; the groups
      concatenate to the items; and, when the overlap size is positive, the overlap is an end of chunk
      j - 1 of at most that length and the counted size is within the larger of the target and one
      overlap plus one item. */
  lemma PackSound(items: seq<string>, targetSize: int, overlapSize: int)
    ensures |Pack(items, targetSize, overlapSize)| == |GroupItems(items, targetSize, overlapSize)|
    ensures GroupedItems(GroupItems(items, targetSize, overlapSize)) == items
    ensures forall j :: 0 <= j < |GroupItems(items, targetSize, overlapSize)| ==>
              ChunkSound(GroupItems(items, targetSize, overlapSize), Pack(items, targetSize, overlapSize),
                         j, targetSize, overlapSize, Longest(items))
  {
    GroupItemsSound(items, targetSize, overlapSize);
    var groups := GroupItems(items, targetSize, overlapSize);
    forall j | 0 <= j < |groups|
      ensures ChunkSound(groups, Pack(items, targetSize, overlapSize), j, targetSize, overlapSize, Longest(items))
    {
      ChunkSoundAt(groups, j, targetSize, overlapSize);
    }
  }

  lemma SingleSize(group: Group)
    requires |group.items| == 1
    ensures group.Size() == |group.overlap| + |group.items[0]|
  {
    assert Flatten(group.items) == group.items[0] + Flatten(group.items[1..]);
  }

  /** What one more item does to the finished groups and to the running one. */
  lemma PackStep(items: seq<string>, i: nat, targetSize: int, overlapSize: int, full: seq<Group>, group: Group)
    returns (full': seq<Group>, group': Group)
    requires i < |items|
    requires if i == 0 then full == [] && group == Group("", [])
             else GroupItems(items[..i], targetSize, overlapSize) == full + [group]
    ensures GroupItems(items[..i + 1], targetSize, overlapSize) == full' + [group']
    ensures if i > 0 && group.Size() + |items[i]| > targetSize then
              var overlap := Overlap(group.Text(), overlapSize);
              && Texts(full') == Texts(full) + [group.Text()]
              && group'.Pieces() == (if overlap != "" then [overlap] else []) + [items[i]]
              && group'.Size() == |overlap| + |items[i]|
            else
              && full' == full
              && group'.Pieces() == group.Pieces() + [items[i]]
              && group'.Size() == group.Size() + |items[i]|
  {
    GroupItemsSnoc(items[..i], items[i], targetSize, overlapSize, full, group);
    TakeSnoc(items, i);
    if i > 0 && group.Size() + |items[i]| > targetSize {
      full', group' := full + [group], Group(Overlap(group.Text(), overlapSize), [items[i]]);
      TextsSnoc(full, group);
      SingleSize(group');
    } else {
      full', group' := full, Group(group.overlap, group.items + [items[i]]);
      GrowPieces(group, items[i]);
      AppendEmpty([group']);
    }
  }

  method ChunkWithOverlap(items: seq<string>, targetSize: int, overlapSize: int) returns (chunks: seq<string>)
    ensures chunks == Pack(items, targetSize, overlapSize)
  {
    chunks := [];
    var current: seq<string>, size := [], 0;
    ghost var full: seq<Group>, group := [], Group("", []);
    for i := 0 to |items|
      invariant chunks == Texts(full)
      invariant current == group.Pieces() && size == group.Size()
      invariant i == 0 ==> full == [] && group == Group("", [])
      invariant current == [] <==> i == 0
      invariant i > 0 ==> GroupItems(items[..i], targetSize, overlapSize) == full + [group]
    {
      var item := items[i];
      ghost var full', group' := PackStep(items, i, targetSize, overlapSize, full, group);
      if size + |item| > targetSize && current != [] {
        chunks := chunks + [Join(PARAGRAPH_SEP, current)];
        var overlapText := Overlap(Join(PARAGRAPH_SEP, current), overlapSize);
        current := if overlapText != "" then [overlapText] else [];
        size := |overlapText|;
      }
      current := current + [item];
      size := size + |item|;
      full, group := full', group';
    }
    TakeAll(items);
    TextsSnoc(full, group);
    if current != [] {
      chunks := chunks + [Join(PARAGRAPH_SEP, current)];
    }
  }

  lemma TextsSnoc(groups: seq<Group>, group: Group)
    ensures Texts(groups + [group]) == Texts(groups) + [group.Text()]
  {
  }

  lemma GrowPieces(group: Group, item: string)
    ensures Group(group.overlap, group.items + [item]).Pieces() == group.Pieces() + [item]
    ensures Group(group.overlap, group.items + [item]).Size() == group.Size() + |item|
    ensures group.items == [] ==> group.items + [item] == [item]
  {
    FlattenSnoc(group.items, item);
    ConcatAssoc(if group.overlap != "" then [group.overlap] else [], group.items, [item]);
  }

  // ---------------------------------------------------------------- the hierarchy

  datatype Level = Document | Section | Leaf

  datatype Chunk = Chunk(
    content: string,
    level: Level,
    path: DocPath,
    fileId: string,
    category: string,
    parentChunkId: Option<nat>,
    parentSectionIdx: nat,
    siblingCount: nat,
    siblingPosition: nat)

  /** `s.rfind(pat)` */
  function FindLast(s: string, pat: string): (i: int)
    ensures i == -1 || (0 <= i && OccursAt(s, pat, i))
    ensures forall j: nat :: OccursAt(s, pat, j) ==> j <= i
  {
    if |s| < |pat| then -1
    else if OccursAt(s, pat, |s| - |pat|) then |s| - |pat|
    else if s == "" then -1
    else
      var i := FindLast(s[..|s| - 1], pat);
      assert i >= 0 ==> s[..|s| - 1][i..i + |pat|] == s[i..i + |pat|];
      assert forall j: nat | OccursAt(s, pat, j) :: j <= i by {
        forall j: nat | OccursAt(s, pat, j) ensures j <= i {
          assert j < |s| - |pat|;
          assert s[..|s| - 1][j..j + |pat|] == s[j..j + |pat|];
          assert OccursAt(s[..|s| - 1], pat, j);
        }
      }
      i
  }

  /** The document-level text: the beginning of the content, cut back to a paragraph boundary when there
      is one in its last fifth. */
  function Summary(content: string, maxChars: nat): string {
    if |content| <= maxChars then content
    else
      var start := content[..maxChars];
      var boundary := FindLast(start, PARAGRAPH_SEP);
      (if 10 * boundary > 8 * maxChars then start[..boundary] else start)
        + "\n\n[Document continues...]"
  }

  function SectionParts(section: string): seq<string> {
    if |section| > SECTION_LEVEL_CHARS then
      Pack(Paragraphs(section), SECTION_LEVEL_CHARS, SECTION_OVERLAP_CHARS)
    else [section]
  }

  function AllSectionParts(sections: seq<string>): seq<string> {
    if sections == [] then []
    else AllSectionParts(sections[..|sections| - 1]) + SectionParts(sections[|sections| - 1])
  }

  function SectionTexts(content: string): seq<string> {
    AllSectionParts(Sections(content))
  }

  function LeafTexts(section: string): seq<string> {
    Pack(Paragraphs(section), LEAF_LEVEL_CHARS, LEAF_OVERLAP_CHARS)
  }

  function DocumentChunk(content: string, path: DocPath, fileId: string): Chunk {
    Chunk(Summary(content, DOCUMENT_LEVEL_CHARS), Document, path, fileId, Category(path), None, 0, 0, 0)
  }

  function SectionChunks(texts: seq<string>, path: DocPath, fileId: string): seq<Chunk> {
    seq(|texts|, i requires 0 <= i < |texts| =>
      Chunk(texts[i], Section, path, fileId, Category(path), None, 0, |texts|, i))
  }

  function LeafChunks(texts: seq<string>, sectionIdx: nat, path: DocPath, fileId: string): seq<Chunk> {
    seq(|texts|, i requires 0 <= i < |texts| =>
      Chunk(texts[i], Leaf, path, fileId, Category(path), None, sectionIdx, |texts|, i))
  }

  function AllLeafTexts(sections: seq<string>): seq<seq<string>> {
    seq(|sections|, i requires 0 <= i < |sections| => LeafTexts(sections[i]))
  }

  function AllLeafChunks(leafTexts: seq<seq<string>>, path: DocPath, fileId: string): seq<Chunk> {
    if leafTexts == [] then [] else
      AllLeafChunks(leafTexts[..|leafTexts| - 1], path, fileId)
        + LeafChunks(leafTexts[|leafTexts| - 1], |leafTexts| - 1, path, fileId)
  }

  /** One document chunk, then the sections, then the leaves of each section. */
  function Hierarchy(content: string, path: DocPath, fileId: string): seq<Chunk> {
    var sections := SectionTexts(content);
    [DocumentChunk(content, path, fileId)]
      + SectionChunks(sections, path, fileId)
      + AllLeafChunks(AllLeafTexts(sections), path, fileId)
  }

  lemma {:induction false} LeafLists(leafTexts: seq<seq<string>>, path: DocPath, fileId: string)
    returns (leaves: seq<seq<Chunk>>)
    ensures |leaves| == |leafTexts| && AllLeafChunks(leafTexts, path, fileId) == Flatten(leaves)
    ensures forall s :: 0 <= s < |leaves| ==> leaves[s] == LeafChunks(leafTexts[s], s, path, fileId)
  {
    leaves := [];
    if leafTexts != [] {
      var init := LeafLists(leafTexts[..|leafTexts| - 1], path, fileId);
      var last := LeafChunks(leafTexts[|leafTexts| - 1], |leafTexts| - 1, path, fileId);
      FlattenSnoc(init, last);
      leaves := init + [last];
    }
  }

  /** What the chunks of a document are: the summary cut at 8192 characters, the section texts, and for each
      of these its leaves of 768 characters with overlaps of 115, each with its place among its siblings and the
      directory of the document as category. */
  lemma HierarchyExact(content: string, path: DocPath, fileId: string) returns (leaves: seq<seq<Chunk>>)
    ensures var sections, category := SectionTexts(content), Join("/", path.dir);
            && |leaves| == |sections|
            && Hierarchy(content, path, fileId)
               == [Chunk(Summary(content, 8192), Document, path, fileId, category, None, 0, 0, 0)]
                  + seq(|sections|, i requires 0 <= i < |sections| =>
                      Chunk(sections[i], Section, path, fileId, category, None, 0, |sections|, i))
                  + Flatten(leaves)
            && forall s :: 0 <= s < |sections| ==>
                 var texts := Pack(Paragraphs(sections[s]), 768, 115);
                 leaves[s] == seq(|texts|, i requires 0 <= i < |texts| =>
                                Chunk(texts[i], Leaf, path, fileId, category, None, s, |texts|, i))
  {
    leaves := LeafLists(AllLeafTexts(SectionTexts(content)), path, fileId);
  }

  /** A section of at most 3072 characters is one chunk; a longer one is packed from its paragraphs, with
      overlaps of 460. */
  lemma SectionPartsExact(section: string, sections: seq<string>)
    ensures SectionParts(section) == if |section| <= 3072 then [section] else Pack(Paragraphs(section), 3072, 460)
    ensures AllSectionParts([]) == []
    ensures AllSectionParts(sections + [section]) == AllSectionParts(sections) + SectionParts(section)
  {
    SnocInit(sections, section);
  }

  method ChunkDocumentHierarchical(content: string, path: DocPath, fileId: string) returns (chunks: seq<Chunk>)
    ensures chunks == Hierarchy(content, path, fileId)
  {
    var category := Category(path);
    chunks := [Chunk(Summary(content, DOCUMENT_LEVEL_CHARS), Document, path, fileId, category, None, 0, 0, 0)];
    var sections := SplitIntoSections(content);
    var sectionTexts := [];
    for i := 0 to |sections|
      invariant sectionTexts == AllSectionParts(sections[..i])
    {
      TakeSnoc(sections, i);
      SnocInit(sections[..i], sections[i]);
      if |sections[i]| > SECTION_LEVEL_CHARS {
        var parts := ChunkWithOverlap(Paragraphs(sections[i]), SECTION_LEVEL_CHARS, SECTION_OVERLAP_CHARS);
        sectionTexts := sectionTexts + parts;
      } else {
        sectionTexts := sectionTexts + [sections[i]];
      }
    }
    TakeAll(sections);
    ghost var head := chunks;
    for i := 0 to |sectionTexts|
      invariant chunks == head + SectionChunks(sectionTexts, path, fileId)[..i]
    {
      var chunk :=
        Chunk(sectionTexts[i], Section, path, fileId, category, None, 0, |sectionTexts|, i);
      TakeSnoc(SectionChunks(sectionTexts, path, fileId), i);
      ConcatAssoc(head, SectionChunks(sectionTexts, path, fileId)[..i], [chunk]);
      chunks := chunks + [chunk];
    }
    TakeAll(SectionChunks(sectionTexts, path, fileId));
    head := chunks;
    AppendEmpty(head);
    ghost var leafTexts := AllLeafTexts(sectionTexts);
    for sectionIdx := 0 to |sectionTexts|
      invariant chunks == head + AllLeafChunks(leafTexts[..sectionIdx], path, fileId)
    {
      TakeSnoc(leafTexts, sectionIdx);
      SnocInit(leafTexts[..sectionIdx], leafTexts[sectionIdx]);
      ghost var before := chunks;
      var texts := ChunkWithOverlap(Paragraphs(sectionTexts[sectionIdx]), LEAF_LEVEL_CHARS, LEAF_OVERLAP_CHARS);
      ghost var leaves := LeafChunks(texts, sectionIdx, path, fileId);
      AppendEmpty(before);
      for i := 0 to |texts|
        invariant chunks == before + leaves[..i]
      {
        var chunk := Chunk(texts[i], Leaf, path, fileId, category, None, sectionIdx, |texts|, i);
        TakeSnoc(leaves, i);
        ConcatAssoc(before, leaves[..i], [chunk]);
        chunks := chunks + [chunk];
      }
      TakeAll(leaves);
      ConcatAssoc(head, AllLeafChunks(leafTexts[..sectionIdx], path, fileId), leaves);
    }
    TakeAll(leafTexts);
  }
}
