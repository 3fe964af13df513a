/** Cutting a text into chunks (`text_processor.py`) and replacing a file's rows in the search index
    (`db_handler.py`). */
module Ingest {
  import opened Text
  import opened Embeddings

  // ---------------------------------------------------------------- chunk_text

  /** `text.replace('\r', '')`. */
  function Clean(text: string): (r: string)
    ensures '\r' !in r && |r| <= |text|
  {
    if text == "" then ""
    else (if text[0] == '\r' then "" else [text[0]]) + Clean(text[1..])
  }

  lemma {:induction false} CleanIdentityIff(text: string)
    ensures Clean(text) == text <==> '\r' !in text
  {
    if text != "" {
      CleanIdentityIff(text[1..]);
      assert text == [text[0]] + text[1..];
    }
  }

  /** Every carriage return goes and every other character stays, wherever it stands. */
  lemma {:induction false} CleanLaws(a: string, b: string, c: char)
    ensures Clean(a + b) == Clean(a) + Clean(b)
    ensures Clean([c]) == if c == '\r' then "" else [c]
  {
    if a == "" {
      AppendEmpty(b);
      AppendEmpty(Clean(b));
    } else {
      CleanLaws(a[1..], b, c);
      ConcatTail(a, b);
      ConcatAssoc(if a[0] == '\r' then "" else [a[0]], Clean(a[1..]), Clean(b));
    }
  }

  ghost predicate NoReturns(parts: seq<string>) {
    forall k :: 0 <= k < |parts| ==> '\r' !in parts[k]
  }

  /** A text that is cut at its carriage returns: what is left of it are its parts, one after the other. */
  lemma {:induction false} CleanParts(parts: seq<string>)
    requires NoReturns(parts)
    ensures Clean(Join("\r", parts)) == Flatten(parts)
  {
    if |parts| == 1 {
      CleanIdentityIff(parts[0]);
      AppendEmpty(parts[0]);
    } else if |parts| > 1 {
      CleanParts(parts[1..]);
      CleanIdentityIff(parts[0]);
      CleanLaws(parts[0], "\r", '\r');
      CleanLaws(parts[0] + "\r", Join("\r", parts[1..]), '\r');
      AppendEmpty(parts[0]);
    }
  }

  /** Every text is cut so. */
  lemma {:induction false} CutAtReturns(text: string) returns (parts: seq<string>)
    ensures parts != [] && NoReturns(parts) && Join("\r", parts) == text
  {
    if text == "" {
      parts := [""];
    } else {
      var rest := CutAtReturns(text[1..]);
      if text[0] == '\r' {
        parts := [""] + rest;
        assert parts[1..] == rest;
      } else {
        parts := [[text[0]] + rest[0]] + rest[1..];
        assert parts[1..] == rest[1..];
        if |rest| > 1 {
          assert ([text[0]] + rest[0]) + "\r" + Join("\r", rest[1..])
              == [text[0]] + (rest[0] + "\r" + Join("\r", rest[1..]));
        }
      }
    }
  }

  /** The non-empty chunks from position `i` on, one every `step` characters. */
  function Chunks(text: string, size: int, step: int, i: nat): seq<string>
    requires step > 0
    decreases |text| - i
  {
    if i >= |text| then []
    else
      var chunk := Slice(text, i, i + size);
      (if chunk != "" then [chunk] else []) + Chunks(text, size, step, i + step)
  }

  /** The chunk that the loop adds at position `i`, if it is not empty. */
  function Added(chunks: seq<string>, chunk: string): seq<string> {
    if chunk != "" then chunks + [chunk] else chunks
  }

  lemma ChunksStep(before: seq<string>, text: string, size: int, step: int, i: nat, all: seq<string>)
    requires step > 0 && i < |text| && before + Chunks(text, size, step, i) == all
    ensures Added(before, Slice(text, i, i + size)) + Chunks(text, size, step, i + step) == all
  {
    var chunk, rest := Slice(text, i, i + size), Chunks(text, size, step, i + step);
    AddedFirst(before, chunk, rest);
  }

  lemma ChunksEnd(before: seq<string>, text: string, size: int, step: int, i: nat, all: seq<string>)
    requires step > 0 && i >= |text| && before + Chunks(text, size, step, i) == all
    ensures before == all
  {
    AppendEmpty(before);
  }

  lemma AddedFirst(before: seq<string>, chunk: string, rest: seq<string>)
    ensures Added(before, chunk) + rest == before + ((if chunk != "" then [chunk] else []) + rest)
  {
    ConcatAssoc(before, [chunk], rest);
    AppendEmpty(rest);
  }

  datatype ChunkError = ZeroStep

  /** A step of zero is an error; `range` with a negative step is empty. */
  function ChunkText(text: string, size: int, overlap: int): Result<seq<string>, ChunkError> {
    var step := size - overlap;
    if text == "" then Ok([])
    else if step == 0 then Err(ZeroStep)
    else if step < 0 then Ok([])
    else Ok(Chunks(Clean(text), size, step, 0))
  }

  /** The stepping loop for a positive step. */
  method CollectChunks(clean: string, size: int, step: int) returns (chunks: seq<string>)
    requires step > 0
    ensures chunks == Chunks(clean, size, step, 0)
  {
    chunks := [];
    var i := 0;
    ghost var all := Chunks(clean, size, step, 0);
    while i < |clean|
      invariant chunks + Chunks(clean, size, step, i) == all
      decreases |clean| - i
    {
      ChunksStep(chunks, clean, size, step, i, all);
      chunks := Added(chunks, Slice(clean, i, i + size));
      i := i + step;
    }
    ChunksEnd(chunks, clean, size, step, i, all);
  }

  method ChunkTextLoop(text: string, size: int, overlap: int) returns (r: Result<seq<string>, ChunkError>)
    ensures r == ChunkText(text, size, overlap)
  {
    if text == "" {
      return Ok([]);
    }
    var clean, step := Clean(text), size - overlap;
    if step == 0 {
      return Err(ZeroStep);
    }
    if step < 0 {
      return Ok([]);
    }
    var chunks := CollectChunks(clean, size, step);
    return Ok(chunks);
  }

  /** The first `step` characters of each chunk, one after the other. */
  function Rebuild(chunks: seq<string>, step: int): string {
    if chunks == [] then "" else Slice(chunks[0], 0, step) + Rebuild(chunks[1..], step)
  }

  /** The chunk at `i` begins with the characters up to the next chunk. */
  lemma ChunkAt(text: string, size: int, step: int, i: nat)
    requires 0 < step <= size && i < |text|
    ensures var chunk := Slice(text, i, i + size);
            && 0 < |chunk| <= size
            && Slice(chunk, 0, step) == text[i..if i + step <= |text| then i + step else |text|]
  {
    var end := if i + size <= |text| then i + size else |text|;
    assert Slice(text, i, i + size) == text[i..end];
  }

  lemma RebuildCons(chunk: string, rest: seq<string>, step: int)
    ensures Rebuild([chunk] + rest, step) == Slice(chunk, 0, step) + Rebuild(rest, step)
  {
    ConcatTail([chunk], rest);
    AppendEmpty(rest);
  }

  lemma DropSplit<T>(s: seq<T>, i: nat, m: nat)
    requires i <= m <= |s|
    ensures s[i..m] + s[m..] == s[i..]
  {
  }

  lemma ChunksCons(text: string, size: int, step: int, i: nat)
    requires 0 < step <= size && i < |text|
    ensures Chunks(text, size, step, i) == [Slice(text, i, i + size)] + Chunks(text, size, step, i + step)
  {
    ChunkAt(text, size, step, i);
  }

  lemma {:induction false} ChunksRebuild(text: string, size: int, step: int, i: nat)
    requires 0 < step <= size && i <= |text|
    ensures Rebuild(Chunks(text, size, step, i), step) == text[i..]
    decreases |text| - i
  {
    if i < |text| {
      var chunk, rest := Slice(text, i, i + size), Chunks(text, size, step, i + step);
      var next := if i + step <= |text| then i + step else |text|;
      ChunksCons(text, size, step, i);
      ChunkAt(text, size, step, i);
      RebuildCons(chunk, rest, step);
      DropSplit(text, i, next);
      if i + step <= |text| {
        ChunksRebuild(text, size, step, next);
      }
      assert Rebuild(rest, step) == text[next..];
    }
  }

  function Steps(k: nat, step: nat): nat {
    if k == 0 then 0 else step + Steps(k - 1, step)
  }

  lemma {:induction false} StepsMultiply(k: nat, step: nat)
    ensures Steps(k, step) == k * step
  {
    if k > 0 {
      StepsMultiply(k - 1, step);
      assert step + (k - 1) * step == k * step;
    }
  }

  /** The characters of the text from one position on, at most `size` of them. */
  function Piece(text: string, size: nat, from: nat): string
    requires from <= |text|
  {
    text[from..if from + size < |text| then from + size else |text|]
  }

  lemma FirstChunk(text: string, size: nat, step: nat, i: nat)
    requires size > 0 && step > 0
    ensures Chunks(text, size, step, i)
         == if i < |text| then [Piece(text, size, i)] + Chunks(text, size, step, i + step) else []
  {
    if i < |text| {
      assert Slice(text, i, i + size) == Piece(text, size, i);
    }
  }

  /** One piece at every `step` characters from position `i` on. */
  ghost predicate InPieces(chunks: seq<string>, text: string, size: nat, step: nat, i: nat)
    requires step > 0
    decreases chunks
  {
    if i >= |text| then chunks == []
    else chunks != [] && chunks[0] == Piece(text, size, i) && InPieces(chunks[1..], text, size, step, i + step)
  }

  lemma {:induction false} ChunksInPieces(text: string, size: nat, step: nat, i: nat)
    requires size > 0 && step > 0
    ensures InPieces(Chunks(text, size, step, i), text, size, step, i)
    decreases |text| - i
  {
    FirstChunk(text, size, step, i);
    if i < |text| {
      ChunksInPieces(text, size, step, i + step);
      ConcatTail([Piece(text, size, i)], Chunks(text, size, step, i + step));
      AppendEmpty(Chunks(text, size, step, i + step));
    }
  }

  lemma {:induction false} PieceNth(chunks: seq<string>, text: string, size: nat, step: nat, i: nat, k: nat,
                                    from: nat)
    requires step > 0 && InPieces(chunks, text, size, step, i) && from == i + Steps(k, step)
    ensures k < |chunks| <==> from < |text|
    ensures from < |text| ==> chunks[k] == Piece(text, size, from)
    decreases k
  {
    if i < |text| && k > 0 {
      PieceNth(chunks[1..], text, size, step, i + step, k - 1, from);
    }
  }

  /** With such a step every chunk is non-empty and within the chunk size. */
  lemma ChunksBounded(text: string, size: int, step: int, i: nat, c: string)
    requires 0 < step <= size && c in Chunks(text, size, step, i)
    ensures 0 < |c| <= size
  {
    var chunks := Chunks(text, size, step, i);
    var k :| 0 <= k < |chunks| && chunks[k] == c;
    ChunksInPieces(text, size, step, i);
    PieceNth(chunks, text, size, step, i, k, i + Steps(k, step));
  }

  /** For every chunk size and every smaller overlap, negative ones too: chunk `k` holds the `size` characters
      from `k` times the step on, or what there is of them, and there is one for every such place in the text. */
  lemma ChunkTextExact(text: string, size: int, overlap: int, k: nat, from: nat)
    requires size > 0 && overlap < size && from == k * (size - overlap)
    ensures ChunkText(text, size, overlap).Ok?
    ensures var clean, chunks := Clean(text), ChunkText(text, size, overlap).value;
            && (k < |chunks| <==> from < |clean|)
            && (from < |clean| ==> chunks[k] == clean[from..if from + size < |clean| then from + size else |clean|])
  {
    StepsMultiply(k, size - overlap);
    var chunks := Chunks(Clean(text), size, size - overlap, 0);
    ChunksInPieces(Clean(text), size, size - overlap, 0);
    PieceNth(chunks, Clean(text), size, size - overlap, 0, k, from);
    assert Clean("") == "" && Chunks("", size, size - overlap, 0) == [];
  }

  /** Every text can be put together again from its chunks, except for its carriage returns: what stands between
      these is all there, in order. */
  ghost predicate Lossless(size: int, overlap: int) {
    forall parts | NoReturns(parts) :: Restored(parts, size, overlap)
  }

  ghost predicate Restored(parts: seq<string>, size: int, overlap: int) {
    var r := ChunkText(Join("\r", parts), size, overlap);
    r.Ok? && Rebuild(r.value, size - overlap) == Flatten(parts)
  }

  /** The chunks of every text give back the text without its carriage returns exactly when the overlap is
      not negative and less than the chunk size. */
  lemma LosslessIff(size: int, overlap: int)
    ensures Lossless(size, overlap) <==> 0 <= overlap < size
  {
    if 0 <= overlap < size {
      forall parts | NoReturns(parts) ensures Restored(parts, size, overlap) {
        CleanParts(parts);
        ChunksRebuild(Flatten(parts), size, size - overlap, 0);
      }
    } else {
      var step := size - overlap;
      var text := Repeat('a', if step > 0 then step else 1);
      CleanIdentityIff(text);
      AppendEmpty(text);
      if step > 0 {
        GapsLose(text, size, step);
      }
      assert NoReturns([text]) && !Restored([text], size, overlap);
    }
  }

  function Repeat(c: char, n: nat): (s: string)
    ensures |s| == n && forall i :: 0 <= i < n ==> s[i] == c
  {
    if n == 0 then "" else [c] + Repeat(c, n - 1)
  }

  /** With a step beyond the chunk size the characters in the gaps are lost. */
  lemma GapsLose(text: string, size: int, step: int)
    requires size < step == |text| && step > 0
    ensures |Rebuild(Chunks(text, size, step, 0), step)| < |text|
  {
    var chunk := Slice(text, 0, size);
    assert Chunks(text, size, step, step) == [];
    AppendEmpty<string>([chunk]);
    AppendEmpty<string>([]);
    if chunk != "" {
      assert Chunks(text, size, step, 0) == [chunk];
      assert Rebuild([chunk], step) == Slice(chunk, 0, step) + Rebuild([], step);
    }
  }

  // ---------------------------------------------------------------- the index

  datatype IndexRow = IndexRow(fileId: string, index: nat, content: string, embedding: Embedding)

  function RowsOf(rows: seq<IndexRow>, id: string): seq<IndexRow> {
    if rows == [] then []
    else
      var init, last := RowsOf(rows[..|rows| - 1], id), rows[|rows| - 1];
      if last.fileId == id then init + [last] else init
  }

  function WithoutFile(rows: seq<IndexRow>, id: string): seq<IndexRow> {
    if rows == [] then []
    else
      var init, last := WithoutFile(rows[..|rows| - 1], id), rows[|rows| - 1];
      if last.fileId == id then init else init + [last]
  }

  lemma RowsOfSnoc(rows: seq<IndexRow>, row: IndexRow, id: string)
    ensures RowsOf(rows + [row], id) == if row.fileId == id then RowsOf(rows, id) + [row] else RowsOf(rows, id)
  {
    SnocInit(rows, row);
  }

  lemma {:induction false} RowsOfWithout(rows: seq<IndexRow>, gone: string, id: string)
    ensures RowsOf(WithoutFile(rows, gone), id) == if id == gone then [] else RowsOf(rows, id)
  {
    if rows != [] {
      var init, last := rows[..|rows| - 1], rows[|rows| - 1];
      RowsOfWithout(init, gone, id);
      RowsOfSnoc(WithoutFile(init, gone), last, id);
    }
  }

  lemma {:induction false} RowsOfAppend(xs: seq<IndexRow>, ys: seq<IndexRow>, id: string)
    ensures RowsOf(xs + ys, id) == RowsOf(xs, id) + RowsOf(ys, id)
  {
    if ys == [] {
      AppendEmpty(xs);
      AppendEmpty(RowsOf(xs, id));
    } else {
      var init, last := ys[..|ys| - 1], ys[|ys| - 1];
      RowsOfAppend(xs, init, id);
      RowsOfSnoc(xs + init, last, id);
      ConcatAssoc(xs, init, [last]);
      TakeSnoc(ys, |ys| - 1);
      TakeAll(ys);
      ConcatAssoc(RowsOf(xs, id), RowsOf(init, id), [last]);
    }
  }

  /** The rows of the chunks whose inserts did not fail. */
  function Stored(chunks: seq<string>, id: string, embed: string -> Embedding, fails: nat -> bool): seq<IndexRow> {
    if chunks == [] then []
    else
      var n := |chunks| - 1;
      Stored(chunks[..n], id, embed, fails)
      + if fails(n) then [] else [IndexRow(id, n, chunks[n], embed(chunks[n]))]
  }

  ghost predicate IsStored(row: IndexRow, chunks: seq<string>, id: string, embed: string -> Embedding,
                           fails: nat -> bool)
  {
    && row.index < |chunks| && !fails(row.index)
    && row == IndexRow(id, row.index, chunks[row.index], embed(chunks[row.index]))
  }

  lemma {:induction false} StoredOwn(chunks: seq<string>, id: string, embed: string -> Embedding,
                                     fails: nat -> bool)
    ensures RowsOf(Stored(chunks, id, embed, fails), id) == Stored(chunks, id, embed, fails)
  {
    if chunks != [] {
      var n := |chunks| - 1;
      var init := Stored(chunks[..n], id, embed, fails);
      StoredOwn(chunks[..n], id, embed, fails);
      AppendEmpty(init);
      RowsOfSnoc(init, IndexRow(id, n, chunks[n], embed(chunks[n])), id);
    }
  }

  lemma {:induction false} StoredCount(chunks: seq<string>, id: string, embed: string -> Embedding,
                                       fails: nat -> bool)
    ensures |Stored(chunks, id, embed, fails)| <= |chunks|
    ensures |Stored(chunks, id, embed, fails)| == |chunks| <==> forall k: nat :: k < |chunks| ==> !fails(k)
  {
    if chunks != [] {
      StoredCount(chunks[..|chunks| - 1], id, embed, fails);
    }
  }

  lemma {:induction false} StoredRows(chunks: seq<string>, id: string, embed: string -> Embedding,
                                      fails: nat -> bool, k: nat)
    requires k < |Stored(chunks, id, embed, fails)|
    ensures IsStored(Stored(chunks, id, embed, fails)[k], chunks, id, embed, fails)
    ensures forall j :: 0 <= j < k ==>
              Stored(chunks, id, embed, fails)[j].index < Stored(chunks, id, embed, fails)[k].index
  {
    var n := |chunks| - 1;
    var init := Stored(chunks[..n], id, embed, fails);
    if k < |init| {
      StoredRows(chunks[..n], id, embed, fails, k);
    } else {
      forall j | 0 <= j < k ensures Stored(chunks, id, embed, fails)[j].index < n {
        StoredRows(chunks[..n], id, embed, fails, j);
      }
    }
  }

  /** Each stored row is the chunk of its index with that chunk's embedding, no index comes twice, and no
      chunk is missing exactly when no insert failed. */
  lemma StoredSound(chunks: seq<string>, id: string, embed: string -> Embedding, fails: nat -> bool)
    ensures var rows := Stored(chunks, id, embed, fails);
            && RowsOf(rows, id) == rows
            && (|rows| == |chunks| <==> forall k: nat :: k < |chunks| ==> !fails(k))
            && (forall k :: 0 <= k < |rows| ==> IsStored(rows[k], chunks, id, embed, fails))
            && (forall j, k :: 0 <= j < k < |rows| ==> rows[j].index < rows[k].index)
  {
    var rows := Stored(chunks, id, embed, fails);
    StoredOwn(chunks, id, embed, fails);
    StoredCount(chunks, id, embed, fails);
    forall k | 0 <= k < |rows|
      ensures IsStored(rows[k], chunks, id, embed, fails) && forall j :: 0 <= j < k ==> rows[j].index < rows[k].index
    {
      StoredRows(chunks, id, embed, fails, k);
    }
  }

  lemma {:induction false} StoredElsewhere(chunks: seq<string>, id: string, embed: string -> Embedding,
                                           fails: nat -> bool, other: string)
    requires other != id
    ensures RowsOf(Stored(chunks, id, embed, fails), other) == []
  {
    if chunks != [] {
      var n := |chunks| - 1;
      StoredElsewhere(chunks[..n], id, embed, fails, other);
      var init := Stored(chunks[..n], id, embed, fails);
      AppendEmpty(init);
      RowsOfSnoc(init, IndexRow(id, n, chunks[n], embed(chunks[n])), other);
    }
  }

  /** Deleting the rows of a file and storing chunks under its id touches no other file. */
  lemma Replaced(rows: seq<IndexRow>, chunks: seq<string>, id: string, embed: string -> Embedding,
                 fails: nat -> bool, other: string)
    ensures var stored := Stored(chunks, id, embed, fails);
            RowsOf(WithoutFile(rows, id) + stored, other) == if other == id then stored else RowsOf(rows, other)
  {
    var stored := Stored(chunks, id, embed, fails);
    RowsOfWithout(rows, id, other);
    RowsOfAppend(WithoutFile(rows, id), stored, other);
    if other == id {
      StoredSound(chunks, id, embed, fails);
      AppendEmpty(stored);
    } else {
      StoredElsewhere(chunks, id, embed, fails, other);
      AppendEmpty(RowsOf(rows, other));
    }
  }

  // ---------------------------------------------------------------- processing one file

  datatype Config = Config(chunkSize: int, overlap: int)

  /** What throws while one file is processed: the delete of its rows and single inserts are logged and
      passed over; reading the table in the file and embedding end the processing. */
  datatype Faults = Faults(delete: bool, extract: bool, embed: bool, insert: nat -> bool)

  /** Does processing reach the inserts? */
  predicate Reaches(text: string, tabular: bool, config: Config, faults: Faults) {
    && !(tabular && faults.extract)
    && var r := ChunkText(text, config.chunkSize, config.overlap);
       r.Ok? && (r.value == [] || !faults.embed)
  }

  class Database {
    var documents: seq<IndexRow>
    const embed: string -> Embedding

    constructor (embed: string -> Embedding)
      ensures documents == [] && this.embed == embed
    {
      documents := [];
      this.embed := embed;
    }

    method DeleteDocumentByFileId(id: string, fails: bool)
      modifies this
      ensures documents == if fails then old(documents) else WithoutFile(old(documents), id)
    {
      if !fails {
        documents := WithoutFile(documents, id);
      }
    }

    method InsertDocumentChunks(chunks: seq<string>, embeddings: seq<Embedding>, id: string, fails: nat -> bool)
      requires embeddings == EmbedAll(embed, chunks)
      modifies this
      ensures documents == old(documents) + Stored(chunks, id, embed, fails)
    {
      AppendEmpty(documents);
      ghost var before := documents;
      for i := 0 to |chunks|
        invariant documents == before + Stored(chunks[..i], id, embed, fails)
      {
        assert chunks[..i + 1][..i] == chunks[..i];
        AppendEmpty(Stored(chunks[..i], id, embed, fails));
        if !fails(i) {
          ConcatAssoc(before, Stored(chunks[..i], id, embed, fails),
                      [IndexRow(id, i, chunks[i], embed(chunks[i]))]);
          documents := documents + [IndexRow(id, i, chunks[i], embeddings[i])];
        }
      }
      TakeAll(chunks);
    }

    /** Replace the rows of one file.  True is also returned when inserts failed. */
    method ProcessFileForRag(text: string, id: string, tabular: bool, config: Config, faults: Faults)
      returns (ok: bool)
      modifies this
      ensures ok == Reaches(text, tabular, config, faults)
      ensures ok <==> && !(tabular && faults.extract) && (text == "" || config.chunkSize != config.overlap)
                      && (faults.embed ==> ChunkText(text, config.chunkSize, config.overlap) == Ok([]))
      ensures documents
           == (if faults.delete then old(documents) else WithoutFile(old(documents), id))
              + if ok then Stored(ChunkText(text, config.chunkSize, config.overlap).value, id, embed, faults.insert)
                else []
    {
      DeleteDocumentByFileId(id, faults.delete);
      AppendEmpty(documents);
      if tabular && faults.extract {
        return false;
      }
      var r := ChunkTextLoop(text, config.chunkSize, config.overlap);
      if r.Err? {
        return false;
      }
      if r.value == [] {
        return true;
      }
      if faults.embed {
        return false;
      }
      InsertDocumentChunks(r.value, EmbedAll(embed, r.value), id, faults.insert);
      return true;
    }
  }

  /** The rows of a text with nothing missing. */
  function FullRows(text: string, id: string, config: Config, embed: string -> Embedding): seq<IndexRow> {
    var r := ChunkText(text, config.chunkSize, config.overlap);
    if r.Ok? then Stored(r.value, id, embed, k => false) else []
  }

  /** When its delete succeeds, a re-ingest that reports success leaves rows of the current chunks only, at
      most one per chunk; it leaves them all exactly when no insert failed. */
  lemma ReingestReplaces(rows: seq<IndexRow>, text: string, id: string, tabular: bool, config: Config,
                         faults: Faults, embed: string -> Embedding, other: string)
    requires Reaches(text, tabular, config, faults) && !faults.delete
    ensures var chunks := ChunkText(text, config.chunkSize, config.overlap).value;
            var stored := Stored(chunks, id, embed, faults.insert);
            && RowsOf(WithoutFile(rows, id) + stored, other) == (if other == id then stored else RowsOf(rows, other))
            && (stored == FullRows(text, id, config, embed)
                <==> forall k: nat :: k < |chunks| ==> !faults.insert(k))
  {
    var chunks := ChunkText(text, config.chunkSize, config.overlap).value;
    Replaced(rows, chunks, id, embed, faults.insert, other);
    AllStoredIff(chunks, id, embed, faults.insert);
  }

  lemma AllStoredIff(chunks: seq<string>, id: string, embed: string -> Embedding, fails: nat -> bool)
    ensures Stored(chunks, id, embed, fails) == Stored(chunks, id, embed, k => false)
       <==> forall k: nat :: k < |chunks| ==> !fails(k)
  {
    StoredCount(chunks, id, embed, fails);
    StoredCount(chunks, id, embed, k => false);
    if forall k: nat :: k < |chunks| ==> !fails(k) {
      SameStored(chunks, id, embed, fails, k => false);
    }
  }

  lemma {:induction false} SameStored(chunks: seq<string>, id: string, embed: string -> Embedding,
                                      fails: nat -> bool, fails': nat -> bool)
    requires forall k: nat :: k < |chunks| ==> fails(k) == fails'(k)
    ensures Stored(chunks, id, embed, fails) == Stored(chunks, id, embed, fails')
  {
    if chunks != [] {
      SameStored(chunks[..|chunks| - 1], id, embed, fails, fails');
    }
  }

  /** When the delete fails, the old rows stay beside the new ones. */
  lemma FailedDeleteDuplicates(rows: seq<IndexRow>, text: string, id: string, config: Config,
                               embed: string -> Embedding)
    ensures var full := FullRows(text, id, config, embed);
            RowsOf(rows + full, id) == RowsOf(rows, id) + full
  {
    var r := ChunkText(text, config.chunkSize, config.overlap);
    RowsOfAppend(rows, FullRows(text, id, config, embed), id);
    if r.Ok? {
      StoredSound(r.value, id, embed, k => false);
    }
  }
}
