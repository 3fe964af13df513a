/** What the three levels of the hierarchical chunker together keep of a document. */
module Coverage {
  import opened Text
  import opened Chunking

  const CONTINUES := "\n\n[Document continues...]"

  /** The document-level text is the content, or a beginning of it with a notice: cut at the last paragraph
      boundary when that lies in the last fifth of the allowed length, and at that length otherwise. */
  lemma SummarySound(content: string, maxChars: nat) returns (n: nat)
    ensures |content| <= maxChars ==> Summary(content, maxChars) == content
    ensures |content| > maxChars ==> n <= maxChars && Summary(content, maxChars) == content[..n] + CONTINUES
    ensures |content| > maxChars && n == maxChars ==>
              forall j: nat :: OccursAt(content[..maxChars], PARAGRAPH_SEP, j) ==> 10 * j <= 8 * maxChars
    ensures |content| > maxChars && n < maxChars ==>
              forall j: nat :: OccursAt(content[..maxChars], PARAGRAPH_SEP, j) ==> j <= n
    ensures |content| > maxChars && n < maxChars ==>
              OccursAt(content, PARAGRAPH_SEP, n) && 10 * n > 8 * maxChars
  {
    n := maxChars;
    if |content| > maxChars {
      var start := content[..maxChars];
      var boundary := FindLast(start, PARAGRAPH_SEP);
      if 10 * boundary > 8 * maxChars {
        n := boundary;
        assert start[..n] == content[..n];
        assert start[n..n + 2] == content[n..n + 2];
      }
    }
  }

  /** The section chunks of one section as groups: a short section is one chunk. */
  function PartGroups(section: string): seq<Group> {
    if |section| > SECTION_LEVEL_CHARS then
      GroupItems(Paragraphs(section), SECTION_LEVEL_CHARS, SECTION_OVERLAP_CHARS)
    else [Group("", [section])]
  }

  function AllPartGroups(sections: seq<string>): seq<Group> {
    if sections == [] then []
    else AllPartGroups(sections[..|sections| - 1]) + PartGroups(sections[|sections| - 1])
  }

  lemma TextsAppend(xs: seq<Group>, ys: seq<Group>)
    ensures Texts(xs + ys) == Texts(xs) + Texts(ys)
  {
  }

  lemma {:induction false} PartsAreGroups(sections: seq<string>)
    ensures Texts(AllPartGroups(sections)) == AllSectionParts(sections)
  {
    if sections != [] {
      var init, last := sections[..|sections| - 1], sections[|sections| - 1];
      PartsAreGroups(init);
      TextsAppend(AllPartGroups(init), PartGroups(last));
    }
  }

  lemma {:induction false} GroupedItemsAppend(xs: seq<Group>, ys: seq<Group>)
    ensures GroupedItems(xs + ys) == GroupedItems(xs) + GroupedItems(ys)
  {
    if ys == [] {
      AppendEmpty(xs);
      AppendEmpty(GroupedItems(xs));
    } else {
      var init, last := ys[..|ys| - 1], ys[|ys| - 1];
      GroupedItemsAppend(xs, init);
      SnocInit(xs + init, last);
      TakeSnoc(ys, |ys| - 1);
      TakeAll(ys);
      ConcatAssoc(xs, init, [last]);
      ConcatAssoc(GroupedItems(xs), GroupedItems(init), last.items);
    }
  }

  /** The visible characters of what the groups hold, repeated text left out. */
  function VisibleItems(groups: seq<Group>): string {
    Visible(Flatten(GroupedItems(groups)))
  }

  lemma VisibleItemsAppend(xs: seq<Group>, ys: seq<Group>)
    ensures VisibleItems(xs + ys) == VisibleItems(xs) + VisibleItems(ys)
  {
    GroupedItemsAppend(xs, ys);
    FlattenAppend(GroupedItems(xs), GroupedItems(ys));
    VisibleConcat(Flatten(GroupedItems(xs)), Flatten(GroupedItems(ys)));
  }

  lemma PartGroupsVisible(section: string)
    ensures VisibleItems(PartGroups(section)) == Visible(section)
  {
    if |section| > SECTION_LEVEL_CHARS {
      GroupItemsSound(Paragraphs(section), SECTION_LEVEL_CHARS, SECTION_OVERLAP_CHARS);
      ParagraphsSound(section);
    } else {
      OnlyGroup(section, 0, 0);
      FlattenSnoc([], section);
      AppendEmpty(section);
      AppendEmpty([section]);
    }
  }

  lemma {:induction false} AllPartGroupsVisible(sections: seq<string>)
    ensures VisibleItems(AllPartGroups(sections)) == Visible(Flatten(sections))
  {
    if sections != [] {
      var init, last := sections[..|sections| - 1], sections[|sections| - 1];
      AllPartGroupsVisible(init);
      PartGroupsVisible(last);
      VisibleItemsAppend(AllPartGroups(init), PartGroups(last));
      FlattenSnoc(init, last);
      VisibleConcat(Flatten(init), last);
      TakeSnoc(sections, |sections| - 1);
      TakeAll(sections);
    }
  }

  lemma {:induction false} VisibleJoin(sep: string, parts: seq<string>)
    requires Blank(sep)
    ensures Visible(Join(sep, parts)) == Visible(Flatten(parts))
  {
    if |parts| == 1 {
      AppendEmpty(parts[0]);
    } else if |parts| > 1 {
      VisibleJoin(sep, parts[1..]);
      VisibleBlank(sep);
      VisibleConcat(parts[0] + sep, Join(sep, parts[1..]));
      VisibleConcat(parts[0], sep);
      VisibleConcat(parts[0], Flatten(parts[1..]));
      AppendEmpty(Visible(parts[0]));
    }
  }

  lemma PartsComplete(sections: seq<string>, content: string)
    requires Join("\n", sections) == content
    ensures Texts(AllPartGroups(sections)) == AllSectionParts(sections)
    ensures VisibleItems(AllPartGroups(sections)) == Visible(content)
  {
    PartsAreGroups(sections);
    AllPartGroupsVisible(sections);
    VisibleJoin("\n", sections);
  }

  /** The section chunks of a document, without the text they repeat, hold every visible character of the
      document in order. */
  lemma SectionLevelComplete(content: string)
    ensures var groups := AllPartGroups(Sections(content));
            Texts(groups) == SectionTexts(content) && VisibleItems(groups) == Visible(content)
  {
    SectionsLossless(content);
    PartsComplete(Sections(content), content);
  }

  /** So do the leaf chunks of each section chunk. */
  lemma LeafLevelComplete(section: string)
    ensures var groups := GroupItems(Paragraphs(section), LEAF_LEVEL_CHARS, LEAF_OVERLAP_CHARS);
            Texts(groups) == LeafTexts(section) && VisibleItems(groups) == Visible(section)
  {
    GroupItemsSound(Paragraphs(section), LEAF_LEVEL_CHARS, LEAF_OVERLAP_CHARS);
    ParagraphsSound(section);
  }

  // ---------------------------------------------------------------- documents without sections

  lemma PackNothingIff(items: seq<string>, targetSize: int, overlapSize: int)
    ensures Pack(items, targetSize, overlapSize) == [] <==> items == []
  {
  }

  lemma NoParagraphsIff(section: string)
    ensures Paragraphs(section) == [] <==> Visible(section) == ""
  {
    ParagraphsSound(section);
    if Paragraphs(section) != [] {
      var head, rest := Paragraphs(section)[0], Paragraphs(section)[1..];
      assert IsParagraph(head);
      VisibleConcat(head, Flatten(rest));
      VisibleHead(head);
    }
  }

  lemma NoPartsIff(section: string)
    ensures SectionParts(section) == [] <==> |section| > SECTION_LEVEL_CHARS && Visible(section) == ""
  {
    PackNothingIff(Paragraphs(section), SECTION_LEVEL_CHARS, SECTION_OVERLAP_CHARS);
    NoParagraphsIff(section);
  }

  lemma {:induction false} FlattenVisible(parts: seq<string>, k: nat)
    requires k < |parts| && Visible(Flatten(parts)) == ""
    ensures Visible(parts[k]) == ""
  {
    VisibleConcat(parts[0], Flatten(parts[1..]));
    if k > 0 {
      FlattenVisible(parts[1..], k - 1);
    }
  }

  lemma SectionHeadVisible(group: seq<string>)
    requires group != [] && IsHeading(group[0])
    ensures Visible(Join("\n", group)) != ""
  {
    assert group[0][0] == '#' == Join("\n", group)[0];
    VisibleHead(Join("\n", group));
  }

  /** A blank document is one section. */
  lemma BlankIsOneSection(content: string)
    requires Visible(content) == ""
    ensures Sections(content) == [content]
  {
    var sections, groups := Sections(content), SectionGroups(SplitNewlines(content));
    SectionsLossless(content);
    VisibleJoin("\n", sections);
    if |sections| > 1 {
      assert IsHeading(groups[1][0]) && sections[1] == Join("\n", groups[1]);
      SectionHeadVisible(groups[1]);
      FlattenVisible(sections, 1);
    }
  }

  lemma {:induction false} NoPartsOfAny(sections: seq<string>, k: nat)
    requires AllSectionParts(sections) == [] && k < |sections|
    ensures SectionParts(sections[k]) == []
  {
    if k < |sections| - 1 {
      NoPartsOfAny(sections[..|sections| - 1], k);
    }
  }

  /** A document has no section chunks, and so no leaves, exactly if it is blank and too long for one chunk. */
  lemma NoSectionsIff(content: string)
    ensures SectionTexts(content) == [] <==> Visible(content) == "" && |content| > SECTION_LEVEL_CHARS
  {
    SectionLevelComplete(content);
    if SectionTexts(content) == [] {
      assert AllPartGroups(Sections(content)) == [];
      assert GroupedItems([]) == [] && Flatten<char>([]) == [];
      BlankIsOneSection(content);
      NoPartsOfAny(Sections(content), 0);
      NoPartsIff(content);
    } else if Visible(content) == "" {
      BlankIsOneSection(content);
      assert Sections(content)[..0] == [];
      AppendEmpty(SectionParts(content));
      NoPartsIff(content);
    }
  }
}
