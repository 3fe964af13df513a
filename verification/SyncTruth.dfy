/** When the rows of a document are a chunking of what its file says: rows are made from the text an
    operation is given, and the file reads back without carriage returns. */
module SyncTruth {
  import opened Text
  import opened Paths
  import opened Chunking
  import opened Coverage
  import opened Embeddings
  import opened ChunkRows
  import opened SyncModel

  /** The rows are one full chunking of the text as it is now read from the file. */
  ghost predicate IsChunking(rows: seq<Row>, p: DocPath, stored: string, fileId: string, firstId: nat,
                             embed: string -> Embedding)
  {
    rows == FullRows(p, ReadText(stored), stored, fileId, firstId, embed)
  }

  /** The rows of the document include, next to each other, one full chunking of what the file now says. */
  ghost predicate HoldsChunking(rows: seq<Row>, p: DocPath, stored: string, embed: string -> Embedding) {
    exists from: nat, to: nat, fileId: string, firstId: nat ::
      from <= to <= |rows| && IsChunking(rows[from..to], p, stored, fileId, firstId, embed)
  }

  /** Chunking this content and chunking what is read back from the file give the same texts.  A large file
      is always chunked from what is read; for any other, the summary and the section texts decide. */
  predicate Alike(content: string, stored: string) {
    IsLarge(stored)
    || (Summary(content, DOCUMENT_LEVEL_CHARS) == Summary(ReadText(stored), DOCUMENT_LEVEL_CHARS)
        && SectionTexts(content) == SectionTexts(ReadText(stored)))
  }

  lemma {:induction false} ReadTextShorter(s: string)
    ensures |ReadText(s)| <= |s|
    decreases |s|
  {
    if s != "" {
      ReadTextShorter(if s[0] == '\r' && |s| > 1 && s[1] == '\n' then s[2..] else s[1..]);
    }
  }

  /** A text without carriage returns, a large one, and one that was read from the file are alike. */
  lemma AlikeWhen(content: string)
    ensures '\r' !in content || IsLarge(content) ==> Alike(content, content)
    ensures Alike(ReadText(content), content)
  {
    if '\r' !in content {
      ReadTextIdentityIff(content);
    }
  }

  lemma OwnSummary(content: string)
    requires |content| <= DOCUMENT_LEVEL_CHARS
    ensures Summary(content, DOCUMENT_LEVEL_CHARS) == content
    ensures Summary(ReadText(content), DOCUMENT_LEVEL_CHARS) == ReadText(content)
    ensures !IsLarge(content)
  {
    ReadTextShorter(content);
  }

  /** For a text that is its own summary the carriage returns decide. */
  lemma ShortAlikeIff(content: string)
    requires |content| <= DOCUMENT_LEVEL_CHARS
    ensures Alike(content, content) <==> '\r' !in content
  {
    OwnSummary(content);
    ReadTextIdentityIff(content);
  }

  // ---------------------------------------------------------------- the shape of a chunking

  /** The first row, and only it, is a document row. */
  ghost predicate RootFirst(rows: seq<Row>) {
    rows != [] && forall k :: 0 <= k < |rows| ==> (rows[k].level == Document <==> k == 0)
  }

  lemma RootOfBatch(b: Batch, firstId: nat, embed: string -> Embedding)
    requires Rooted(b)
    ensures RootFirst(OwnRows(b, firstId, embed))
  {
    var rows := OwnRows(b, firstId, embed);
    assert b.Inserted()[0] == b.documents[0];
    forall k | 0 <= k < |rows| ensures rows[k].level == Document <==> k == 0 {
      ParentComesFirst(b, k, firstId);
      RowAt(b, firstId, EmbedAll(embed, Contents(b.Inserted())), k);
    }
  }

  lemma FullRowsRootFirst(p: DocPath, content: string, stored: string, fileId: string, firstId: nat,
                          embed: string -> Embedding)
    ensures RootFirst(FullRows(p, content, stored, fileId, firstId, embed))
  {
    ChunkBatchRooted(p, content, stored, fileId);
    RootOfBatch(ChunkBatch(p, content, stored, fileId), firstId, embed);
  }

  /** A chunking within rows that end in a chunking is a part of the rows before it or of that chunking, from
      its first row on. */
  lemma ChunkingWithin(before: seq<Row>, own: seq<Row>, from: nat, to: nat, other: seq<Row>)
    requires RootFirst(own) && RootFirst(other)
    requires from <= to <= |before + own| && (before + own)[from..to] == other
    ensures to <= |before| ==> before[from..to] == other
    ensures to > |before| ==> from == |before| && own[..to - |before|] == other
  {
    if to > |before| {
      HeadWithin(before, own, from, to);
      SliceTail(before, own, to);
    }
  }

  lemma HeadWithin<T>(before: seq<T>, own: seq<T>, from: nat, to: nat)
    requires from <= to <= |before + own| && to > |before|
    ensures from <= |before| ==> (before + own)[from..to][|before| - from] == own[0]
    ensures |before| < from < to ==> (before + own)[from..to][0] == own[from - |before|]
  {
  }

  lemma SliceTail<T>(before: seq<T>, own: seq<T>, to: nat)
    requires |before| <= to <= |before + own|
    ensures (before + own)[|before|..to] == own[..to - |before|]
  {
  }

  // ---------------------------------------------------------------- equal chunkings

  /** The rows of a batch with one document chunk, by level. */
  lemma RowsOfLevels(b: Batch, firstId: nat, embed: string -> Embedding, k: nat)
    requires Rooted(b) && |b.documents| == 1 && k < |OwnRows(b, firstId, embed)|
    ensures var n := |b.sections|;
            && |OwnRows(b, firstId, embed)| == 1 + n + |b.leaves|
            && var row := OwnRows(b, firstId, embed)[k];
               && (row.level == Section <==> 1 <= k <= n)
               && (k == 0 ==> row.content == b.documents[0].content)
               && (1 <= k <= n ==> row.content == b.sections[k - 1].content)
               && (1 <= k <= n ==> row.siblingCount == b.sections[k - 1].siblingCount)
  {
    assert b.Heads() == b.documents;
    RowAt(b, firstId, EmbedAll(embed, Contents(b.Inserted())), k);
    InsertedAt(b.documents, b.sections, b.leaves, k);
  }

  lemma InsertedAt(xs: seq<Chunk>, ys: seq<Chunk>, zs: seq<Chunk>, k: nat)
    requires k < |xs| + |ys| + |zs|
    ensures (xs + ys + zs)[k]
         == if k < |xs| then xs[k] else if k < |xs| + |ys| then ys[k - |xs|] else zs[k - |xs| - |ys|]
  {
  }

  /** Every section counts the sections. */
  ghost predicate SectionsCounted(b: Batch) {
    forall i :: 0 <= i < |b.sections| ==> b.sections[i].siblingCount == |b.sections|
  }

  /** If the rows of one batch begin those of another, the document and section texts are equal, unless the
      batch has no sections. */
  lemma RowsDetermineTexts(b: Batch, firstId: nat, b': Batch, firstId': nat, embed: string -> Embedding, m: nat)
    requires Rooted(b) && Rooted(b') && |b.documents| == |b'.documents| == 1
    requires SectionsCounted(b) && SectionsCounted(b')
    requires m <= |OwnRows(b, firstId, embed)| && OwnRows(b, firstId, embed)[..m] == OwnRows(b', firstId', embed)
    ensures b.documents[0].content == b'.documents[0].content
    ensures b'.sections != [] ==> Contents(b.sections) == Contents(b'.sections)
  {
    RootOfBatch(b', firstId', embed);
    SameRowLevels(b, firstId, b', firstId', embed, m, 0);
    if b'.sections != [] {
      RowsOfLevels(b', firstId', embed, 0);
      SameRowLevels(b, firstId, b', firstId', embed, m, 1);
      forall k | 0 <= k < |b.sections| ensures b.sections[k].content == b'.sections[k].content {
        SameRowLevels(b, firstId, b', firstId', embed, m, k + 1);
      }
    }
  }

  lemma SameRowLevels(b: Batch, firstId: nat, b': Batch, firstId': nat, embed: string -> Embedding, m: nat, k: nat)
    requires Rooted(b) && Rooted(b') && |b.documents| == |b'.documents| == 1
    requires SectionsCounted(b) && SectionsCounted(b')
    requires m <= |OwnRows(b, firstId, embed)| && OwnRows(b, firstId, embed)[..m] == OwnRows(b', firstId', embed)
    requires k < m
    ensures k == 0 ==> b.documents[0].content == b'.documents[0].content
    ensures 1 <= k <= |b.sections| <==> 1 <= k <= |b'.sections|
    ensures 1 <= k <= |b'.sections| ==>
              |b.sections| == |b'.sections| && b.sections[k - 1].content == b'.sections[k - 1].content
  {
    RowsOfLevels(b, firstId, embed, k);
    RowsOfLevels(b', firstId', embed, k);
    assert OwnRows(b', firstId', embed)[k] == OwnRows(b, firstId, embed)[k];
  }

  lemma SmallBatch(p: DocPath, content: string, stored: string, fileId: string) returns (b: Batch)
    requires !IsLarge(stored)
    ensures b == ChunkBatch(p, content, stored, fileId) && Rooted(b) && |b.documents| == 1
    ensures b.documents[0].content == Summary(content, DOCUMENT_LEVEL_CHARS)
    ensures Contents(b.sections) == SectionTexts(content) && SectionsCounted(b)
  {
    b := ChunkBatch(p, content, stored, fileId);
    ChunkBatchRooted(p, content, stored, fileId);
    SectionContents(SectionTexts(content), p, fileId);
  }

  lemma SectionContents(texts: seq<string>, p: DocPath, fileId: string)
    ensures Contents(SectionChunks(texts, p, fileId)) == texts
  {
  }

  lemma AlikeSameBatch(p: DocPath, content: string, stored: string, fileId: string)
    requires Alike(content, stored)
    ensures ChunkBatch(p, content, stored, fileId) == ChunkBatch(p, ReadText(stored), stored, fileId)
  {
  }

  lemma {:induction false} ReadTextVisible(s: string)
    ensures Visible(ReadText(s)) == Visible(s)
    decreases |s|
  {
    if s != "" {
      if s[0] == '\r' && |s| > 1 && s[1] == '\n' {
        ReadTextVisible(s[2..]);
        VisibleHead(s);
        VisibleHead(s[1..]);
        VisibleHead("\n" + ReadText(s[2..]));
        assert s[1..][1..] == s[2..];
      } else {
        ReadTextVisible(s[1..]);
        VisibleHead(s);
        VisibleHead(ReadText(s));
      }
    }
  }

  /** If what is read back has no section chunks, neither has what was written. */
  lemma NoSectionsWritten(stored: string)
    requires SectionTexts(ReadText(stored)) == []
    ensures SectionTexts(stored) == []
  {
    NoSectionsIff(stored);
    NoSectionsIff(ReadText(stored));
    ReadTextVisible(stored);
    ReadTextShorter(stored);
  }

  /** The content an operation chunks is what it writes or what it reads. */
  predicate WrittenOrRead(content: string, stored: string) {
    content == stored || content == ReadText(stored)
  }

  lemma SameRowsAlike(own: seq<Row>, part: seq<Row>, m: nat, p: DocPath, content: string, stored: string,
                      fileId: string, firstId: nat, fileId': string, firstId': nat, embed: string -> Embedding)
    requires WrittenOrRead(content, stored) && m <= |own| && own[..m] == part
    requires own == FullRows(p, content, stored, fileId, firstId, embed)
    requires part == FullRows(p, ReadText(stored), stored, fileId', firstId', embed)
    ensures Alike(content, stored)
  {
    if !IsLarge(stored) {
      var b := SmallBatch(p, content, stored, fileId);
      var b' := SmallBatch(p, ReadText(stored), stored, fileId');
      RowsDetermineTexts(b, firstId, b', firstId', embed, m);
      if b'.sections == [] {
        assert SectionTexts(ReadText(stored)) == [];
        NoSectionsWritten(stored);
      }
    }
  }

  // ---------------------------------------------------------------- the exact condition

  lemma Held(rows: seq<Row>, from: nat, to: nat, part: seq<Row>, p: DocPath, stored: string, fileId: string,
             firstId: nat, embed: string -> Embedding)
    requires from <= to <= |rows| && part == rows[from..to]
    requires IsChunking(part, p, stored, fileId, firstId, embed)
    ensures HoldsChunking(rows, p, stored, embed)
  {
  }

  lemma HeldBefore(before: seq<Row>, own: seq<Row>, p: DocPath, stored: string, embed: string -> Embedding)
    requires HoldsChunking(before, p, stored, embed)
    ensures HoldsChunking(before + own, p, stored, embed)
  {
    var from: nat, to: nat, fileId: string, firstId: nat :|
      from <= to <= |before| && IsChunking(before[from..to], p, stored, fileId, firstId, embed);
    SliceBefore(before, own, from, to);
    Held(before + own, from, to, before[from..to], p, stored, fileId, firstId, embed);
  }

  lemma SliceBefore<T>(before: seq<T>, own: seq<T>, from: nat, to: nat)
    requires from <= to <= |before|
    ensures (before + own)[from..to] == before[from..to]
  {
  }

  lemma HeldAfter(before: seq<Row>, own: seq<Row>, p: DocPath, stored: string, fileId: string, firstId: nat,
                  embed: string -> Embedding)
    requires IsChunking(own, p, stored, fileId, firstId, embed)
    ensures HoldsChunking(before + own, p, stored, embed)
  {
    SliceTail(before, own, |before + own|);
    TakeAll(own);
    Held(before + own, |before|, |before + own|, own, p, stored, fileId, firstId, embed);
  }

  /** Rows that end in a chunking of a content hold a chunking of the file exactly if the two are alike or the
      rows before it hold one already. */
  lemma HoldsChunkingIff(before: seq<Row>, own: seq<Row>, p: DocPath, content: string, stored: string,
                         fileId: string, firstId: nat, embed: string -> Embedding)
    requires own == FullRows(p, content, stored, fileId, firstId, embed) && WrittenOrRead(content, stored)
    ensures HoldsChunking(before + own, p, stored, embed)
       <==> Alike(content, stored) || HoldsChunking(before, p, stored, embed)
  {
    if Alike(content, stored) {
      AlikeSameBatch(p, content, stored, fileId);
      HeldAfter(before, own, p, stored, fileId, firstId, embed);
    }
    if HoldsChunking(before, p, stored, embed) {
      HeldBefore(before, own, p, stored, embed);
    }
    if HoldsChunking(before + own, p, stored, embed) {
      HeldWithin(before, own, p, content, stored, fileId, firstId, embed);
    }
  }

  lemma ChunkingRoot(rows: seq<Row>, p: DocPath, content: string, stored: string, fileId: string, firstId: nat,
                     embed: string -> Embedding)
    requires rows == FullRows(p, content, stored, fileId, firstId, embed)
    ensures RootFirst(rows)
  {
    FullRowsRootFirst(p, content, stored, fileId, firstId, embed);
  }

  lemma HeldWithin(before: seq<Row>, own: seq<Row>, p: DocPath, content: string, stored: string, fileId: string,
                   firstId: nat, embed: string -> Embedding)
    requires own == FullRows(p, content, stored, fileId, firstId, embed) && WrittenOrRead(content, stored)
    requires HoldsChunking(before + own, p, stored, embed)
    ensures Alike(content, stored) || HoldsChunking(before, p, stored, embed)
  {
    var from: nat, to: nat, fileId': string, firstId': nat :|
      from <= to <= |before + own| && IsChunking((before + own)[from..to], p, stored, fileId', firstId', embed);
    var part := (before + own)[from..to];
    ChunkingRoot(own, p, content, stored, fileId, firstId, embed);
    ChunkingRoot(part, p, ReadText(stored), stored, fileId', firstId', embed);
    HeldAt(before, own, from, to, part, p, content, stored, fileId, firstId, fileId', firstId', embed);
  }

  lemma HeldAt(before: seq<Row>, own: seq<Row>, from: nat, to: nat, part: seq<Row>, p: DocPath, content: string,
               stored: string, fileId: string, firstId: nat, fileId': string, firstId': nat,
               embed: string -> Embedding)
    requires from <= to <= |before + own| && part == (before + own)[from..to]
    requires RootFirst(own) && RootFirst(part) && WrittenOrRead(content, stored)
    requires own == FullRows(p, content, stored, fileId, firstId, embed)
    requires part == FullRows(p, ReadText(stored), stored, fileId', firstId', embed)
    ensures Alike(content, stored) || HoldsChunking(before, p, stored, embed)
  {
    ChunkingWithin(before, own, from, to, part);
    if to <= |before| {
      Held(before, from, to, part, p, stored, fileId', firstId', embed);
    } else {
      SameRowsAlike(own, part, to - |before|, p, content, stored, fileId, firstId, fileId', firstId', embed);
    }
  }

  lemma NoChunking(p: DocPath, stored: string, embed: string -> Embedding)
    ensures !HoldsChunking([], p, stored, embed)
  {
    if HoldsChunking([], p, stored, embed) {
      var from: nat, to: nat, fileId: string, firstId: nat :|
        from <= to <= 0 && IsChunking([][from..to], p, stored, fileId, firstId, embed);
      FullRowsRootFirst(p, ReadText(stored), stored, fileId, firstId, embed);
    }
  }
}
