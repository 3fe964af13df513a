/** The two ways of inserting a chunked document: with embeddings computed in advance
    (`SyncManager._insert_chunks_with_embeddings`) and one by one
    (`documents_router.insert_chunks_with_embeddings`).  Oracles say which calls throw. */
module ChunkInsert {
  import opened Text
  import opened Paths
  import opened Chunking
  import opened Embeddings
  import opened ChunkRows

  /** The documents table.  Ids are handed out in increasing order. */
  class DocumentsTable {
    var rows: seq<Row>
    var nextId: nat

    constructor ()
      ensures rows == [] && nextId == 0
    {
      rows, nextId := [], 0;
    }

    /** `DELETE FROM documents WHERE file_path = p` */
    method Delete(p: DocPath)
      modifies this`rows
      ensures rows == Without(old(rows), p)
    {
      var kept: seq<Row> := [];
      for i := 0 to |rows|
        invariant rows == old(rows) && kept == Without(rows[..i], p)
      {
        TakeSnoc(rows, i);
        SnocInit(rows[..i], rows[i]);
        if rows[i].path != p {
          kept := kept + [rows[i]];
        }
      }
      TakeAll(rows);
      rows := kept;
    }

    method Insert(c: Chunk, embedding: Embedding, parent: Option<nat>) returns (id: nat)
      modifies this
      ensures id == old(nextId) && nextId == id + 1
      ensures rows == old(rows) + [RowOf(c, id, embedding, parent)]
    {
      id := nextId;
      rows := rows + [RowOf(c, id, embedding, parent)];
      nextId := nextId + 1;
    }
  }

  /** The first of `n` calls that throws, or `n`. */
  function FirstThrow(throws: nat -> bool, n: nat): (k: nat)
    ensures k <= n && (k < n ==> throws(k))
    ensures forall i :: 0 <= i < k ==> !throws(i)
  {
    if n == 0 then 0
    else if FirstThrow(throws, n - 1) < n - 1 || throws(n - 1) then FirstThrow(throws, n - 1)
    else n
  }

  /** Consecutive ids. */
  ghost predicate IdsFrom(ids: seq<nat>, first: nat) {
    forall i :: 0 <= i < |ids| ==> ids[i] == first + i
  }

  /** The parent of a leaf: its section's row, or the document row when it names no section. */
  function LeafParent(c: Chunk, sectionIds: seq<nat>, docId: Option<nat>): Option<nat> {
    if c.parentSectionIdx < |sectionIds| then Some(sectionIds[c.parentSectionIdx]) else docId
  }

  /** One more row of a planned sequence of rows. */
  method InsertNext(table: DocumentsTable, c: Chunk, embedding: Embedding, parent: Option<nat>,
                    ghost before: seq<Row>, ghost rows: seq<Row>, ghost firstId: nat, ghost k: nat) returns (id: nat)
    requires k < |rows| && rows[k] == RowOf(c, table.nextId, embedding, parent)
    requires Progress(table, before, rows, firstId, k)
    modifies table
    ensures id == firstId + k && Progress(table, before, rows, firstId, k + 1)
  {
    AppendSlice(before, rows, 0, k);
    id := table.Insert(c, embedding, parent);
  }

  /** `k` of the planned rows are stored behind those that were there before. */
  ghost predicate Progress(table: DocumentsTable, before: seq<Row>, rows: seq<Row>, firstId: nat, k: nat)
    reads table
  {
    k <= |rows| && table.rows == before + rows[0..k] && table.nextId == firstId + k
  }

  lemma NoProgress(table: DocumentsTable, rows: seq<Row>)
    ensures Progress(table, table.rows, rows, table.nextId, 0)
  {
    EmptySlice(rows, 0);
    AppendEmpty(table.rows);
  }

  /** The k-th insert, with the parent its level calls for. */
  method InsertPlanned(table: DocumentsTable, b: Batch, embeddings: seq<Embedding>, k: nat, docId: Option<nat>,
                       sectionIds: seq<nat>, ghost before: seq<Row>, ghost firstId: nat) returns (id: nat)
    requires k < |b.Inserted()| <= |embeddings|
    requires Progress(table, before, b.Rows(firstId, embeddings), firstId, k)
    requires k >= |b.Heads()| ==> docId == b.HeadId(firstId)
    requires k >= |b.Heads()| + |b.sections| ==>
               |sectionIds| == |b.sections| && IdsFrom(sectionIds, firstId + |b.Heads()|)
    modifies table
    ensures id == firstId + k && Progress(table, before, b.Rows(firstId, embeddings), firstId, k + 1)
  {
    var c := b.Inserted()[k];
    var parent :=
      if k < |b.Heads()| then c.parentChunkId
      else if k < |b.Heads()| + |b.sections| then docId
      else LeafParent(c, sectionIds, docId);
    PlannedRow(b, firstId, embeddings, k, c, table.nextId, parent);
    id := InsertNext(table, c, embeddings[k], parent, before, b.Rows(firstId, embeddings), firstId, k);
  }

  /** Inserting chunks first..last of the batch, all of one level; the first fault stops the loop. */
  method InsertRange(table: DocumentsTable, b: Batch, embeddings: seq<Embedding>, first: nat, last: nat,
                     docId: Option<nat>, sectionIds: seq<nat>, insertThrows: nat -> bool,
                     ghost before: seq<Row>, ghost firstId: nat)
    returns (ids: seq<nat>, ok: bool)
    requires first <= last <= |b.Inserted()| <= |embeddings|
    requires Progress(table, before, b.Rows(firstId, embeddings), firstId, first)
    requires FirstThrow(insertThrows, first) == first
    requires last > |b.Heads()| ==> docId == b.HeadId(firstId)
    requires last > |b.Heads()| + |b.sections| ==>
               |sectionIds| == |b.sections| && IdsFrom(sectionIds, firstId + |b.Heads()|)
    modifies table
    ensures Progress(table, before, b.Rows(firstId, embeddings), firstId, FirstThrow(insertThrows, last))
    ensures ok == (FirstThrow(insertThrows, last) == last)
    ensures ok ==> |ids| == last - first && IdsFrom(ids, firstId + first)
  {
    ids, ok := [], true;
    var k := first;
    while k < last
      invariant first <= k <= last
      invariant FirstThrow(insertThrows, k) == k
      invariant Progress(table, before, b.Rows(firstId, embeddings), firstId, k)
      invariant |ids| == k - first && IdsFrom(ids, firstId + first)
    {
      if insertThrows(k) {
        StopsAt(insertThrows, k, last);
        return ids, false;
      }
      Continues(insertThrows, k);
      var id := InsertPlanned(table, b, embeddings, k, docId, sectionIds, before, firstId);
      ids := ids + [id];
      k := k + 1;
    }
  }

  lemma Continues(throws: nat -> bool, k: nat)
    requires FirstThrow(throws, k) == k && !throws(k)
    ensures FirstThrow(throws, k + 1) == k + 1
  {
  }

  lemma {:induction false} StopsAt(throws: nat -> bool, k: nat, n: nat)
    requires k < n && FirstThrow(throws, k) == k && throws(k)
    ensures FirstThrow(throws, n) == k
  {
  }

  lemma PlannedRow(b: Batch, firstId: nat, embeddings: seq<Embedding>, k: nat, c: Chunk, id: nat,
                   parent: Option<nat>)
    requires k < |b.Inserted()| <= |embeddings|
    requires c == b.Inserted()[k] && id == firstId + k && parent == b.Parent(k, firstId)
    ensures b.Rows(firstId, embeddings)[k] == RowOf(c, id, embeddings[k], parent)
  {
    RowAt(b, firstId, embeddings, k);
  }

  /** All embeddings first, then the rows in the order document, sections, leaves.  A batch that cannot
      be embedded inserts nothing; otherwise the rows before the first failing insert are stored. */
  method InsertBatched(table: DocumentsTable, chunks: seq<Chunk>, batchSize: int, embed: string -> Embedding,
                       embedThrows: (nat, nat) -> bool, insertThrows: nat -> bool) returns (ok: bool)
    modifies table
    ensures var b := ByLevel(chunks);
            var n := |b.Inserted()|;
            var embedded := batchSize > 0 && AllServed(embedThrows, batchSize, 0, |b.AllTexts()|);
            var k := if embedded then FirstThrow(insertThrows, n) else 0;
            && table.rows == old(table.rows) + BatchedRows(b, old(table.nextId), embed)[..k]
            && table.nextId == old(table.nextId) + k
            && ok == if batchSize < 0 then n == 0 else embedded && k == n
  {
    var b := ByLevel(chunks);
    AppendEmpty(table.rows);
    var r := GetEmbeddingsBatch(b.AllTexts(), batchSize, embed, embedThrows);
    match r {
      case Err(_) =>
        return false;
      case Ok(embeddings) =>
        if |embeddings| < |b.Inserted()| {
          // indexing the empty result raises at the first chunk
          return false;
        }
        if |b.Inserted()| == 0 {
          return true;
        }
        ok := InsertLevels(table, b, embeddings, insertThrows);
    }
  }

  method InsertLevels(table: DocumentsTable, b: Batch, embeddings: seq<Embedding>, insertThrows: nat -> bool)
    returns (ok: bool)
    requires |b.Inserted()| <= |embeddings|
    modifies table
    ensures var k := FirstThrow(insertThrows, |b.Inserted()|);
            && table.rows == old(table.rows) + b.Rows(old(table.nextId), embeddings)[..k]
            && table.nextId == old(table.nextId) + k
            && ok == (k == |b.Inserted()|)
  {
    ghost var firstId, before := table.nextId, table.rows;
    NoProgress(table, b.Rows(firstId, embeddings));
    var d, s, n := |b.Heads()|, |b.Heads()| + |b.sections|, |b.Inserted()|;
    var docIds, sectionIds, leafIds;
    docIds, ok := InsertRange(table, b, embeddings, 0, d, None, [], insertThrows, before, firstId);
    if !ok {
      StopsAt(insertThrows, FirstThrow(insertThrows, d), n);
      return;
    }
    var docId := if docIds == [] then None else Some(docIds[0]);
    sectionIds, ok := InsertRange(table, b, embeddings, d, s, docId, [], insertThrows, before, firstId);
    if !ok {
      StopsAt(insertThrows, FirstThrow(insertThrows, s), n);
      return;
    }
    leafIds, ok := InsertRange(table, b, embeddings, s, n, docId, sectionIds, insertThrows, before, firstId);
  }

  /** The document chunk: embed it, then insert it. */
  method InsertOwnHead(table: DocumentsTable, b: Batch, embed: string -> Embedding, throws: nat -> bool,
                       ghost before: seq<Row>, ghost rows: seq<Row>) returns (docId: Option<nat>, ok: bool)
    requires rows == OwnRows(b, table.nextId, embed) && table.rows == before
    modifies table
    ensures Progress(table, before, rows, old(table.nextId), FirstThrow(throws, |b.Heads()|))
    ensures ok == (FirstThrow(throws, |b.Heads()|) == |b.Heads()|)
    ensures ok ==> docId == b.HeadId(old(table.nextId))
  {
    NoProgress(table, rows);
    if b.documents == [] {
      return None, true;
    }
    if throws(0) {
      return None, false;
    }
    var c := b.documents[0];
    OwnHeadRow(b, table.nextId, embed, c);
    var id := InsertNext(table, c, embed(c.content), c.parentChunkId, before, rows, table.nextId, 0);
    return Some(id), true;
  }

  method InsertOwnSection(table: DocumentsTable, b: Batch, embed: string -> Embedding, i: nat, docId: Option<nat>,
                          ghost before: seq<Row>, ghost firstId: nat) returns (id: nat)
    requires i < |b.sections| && docId == b.HeadId(firstId)
    requires Progress(table, before, OwnRows(b, firstId, embed), firstId, |b.Heads()| + i)
    modifies table
    ensures id == firstId + |b.Heads()| + i
    ensures Progress(table, before, OwnRows(b, firstId, embed), firstId, |b.Heads()| + i + 1)
  {
    var c := b.sections[i];
    ghost var k := |b.Heads()| + i;
    OwnSectionRow(b, firstId, embed, i, c, k, table.nextId, docId);
    id := InsertNext(table, c, embed(c.content), docId, before, OwnRows(b, firstId, embed), firstId, k);
  }

  method InsertOwnSections(table: DocumentsTable, b: Batch, embed: string -> Embedding, throws: nat -> bool,
                           docId: Option<nat>, ghost before: seq<Row>, ghost firstId: nat)
    returns (sectionIds: seq<nat>, ok: bool)
    requires docId == b.HeadId(firstId)
    requires Progress(table, before, OwnRows(b, firstId, embed), firstId, |b.Heads()|)
    requires FirstThrow(throws, |b.Heads()|) == |b.Heads()|
    modifies table
    ensures Progress(table, before, OwnRows(b, firstId, embed), firstId,
                     FirstThrow(throws, |b.Heads()| + |b.sections|))
    ensures ok == (FirstThrow(throws, |b.Heads()| + |b.sections|) == |b.Heads()| + |b.sections|)
    ensures ok ==> |sectionIds| == |b.sections| && IdsFrom(sectionIds, firstId + |b.Heads()|)
  {
    sectionIds := [];
    var k := |b.Heads()|;
    for i := 0 to |b.sections|
      invariant k == |b.Heads()| + i
      invariant Progress(table, before, OwnRows(b, firstId, embed), firstId, k)
      invariant FirstThrow(throws, k) == k
      invariant |sectionIds| == i && IdsFrom(sectionIds, firstId + |b.Heads()|)
    {
      if throws(k) {
        StopsAt(throws, k, |b.Heads()| + |b.sections|);
        return sectionIds, false;
      }
      Continues(throws, k);
      var id := InsertOwnSection(table, b, embed, i, docId, before, firstId);
      sectionIds := sectionIds + [id];
      k := k + 1;
    }
    ok := true;
  }

  method InsertOwnLeaf(table: DocumentsTable, b: Batch, embed: string -> Embedding, i: nat, docId: Option<nat>,
                       sectionIds: seq<nat>, ghost before: seq<Row>, ghost firstId: nat)
    requires i < |b.leaves| && docId == b.HeadId(firstId)
    requires |sectionIds| == |b.sections| && IdsFrom(sectionIds, firstId + |b.Heads()|)
    requires Progress(table, before, OwnRows(b, firstId, embed), firstId, |b.Heads()| + |b.sections| + i)
    modifies table
    ensures Progress(table, before, OwnRows(b, firstId, embed), firstId, |b.Heads()| + |b.sections| + i + 1)
  {
    var c := b.leaves[i];
    var parent := LeafParent(c, sectionIds, docId);
    ghost var k := |b.Heads()| + |b.sections| + i;
    OwnLeafRow(b, firstId, embed, i, sectionIds, c, k, table.nextId, parent);
    var id := InsertNext(table, c, embed(c.content), parent, before, OwnRows(b, firstId, embed), firstId, k);
  }

  method InsertOwnLeaves(table: DocumentsTable, b: Batch, embed: string -> Embedding, throws: nat -> bool,
                         docId: Option<nat>, sectionIds: seq<nat>, ghost before: seq<Row>, ghost firstId: nat)
    returns (ok: bool)
    requires docId == b.HeadId(firstId)
    requires |sectionIds| == |b.sections| && IdsFrom(sectionIds, firstId + |b.Heads()|)
    requires Progress(table, before, OwnRows(b, firstId, embed), firstId, |b.Heads()| + |b.sections|)
    requires FirstThrow(throws, |b.Heads()| + |b.sections|) == |b.Heads()| + |b.sections|
    modifies table
    ensures Progress(table, before, OwnRows(b, firstId, embed), firstId, FirstThrow(throws, |b.Inserted()|))
    ensures ok == (FirstThrow(throws, |b.Inserted()|) == |b.Inserted()|)
  {
    var k := |b.Heads()| + |b.sections|;
    for i := 0 to |b.leaves|
      invariant k == |b.Heads()| + |b.sections| + i
      invariant Progress(table, before, OwnRows(b, firstId, embed), firstId, k)
      invariant FirstThrow(throws, k) == k
    {
      if throws(k) {
        StopsAt(throws, k, |b.Inserted()|);
        return false;
      }
      Continues(throws, k);
      InsertOwnLeaf(table, b, embed, i, docId, sectionIds, before, firstId);
      k := k + 1;
    }
    ok := true;
  }

  /** Embedding and inserting chunk by chunk: the rows before the first failing step are stored, each
      with the embedding of its own content. */
  method InsertOneByOne(table: DocumentsTable, chunks: seq<Chunk>, embed: string -> Embedding,
                        throws: nat -> bool) returns (ok: bool)
    modifies table
    ensures var b := ByLevel(chunks);
            var k := FirstThrow(throws, |b.Inserted()|);
            && table.rows == old(table.rows) + OwnRows(b, old(table.nextId), embed)[..k]
            && table.nextId == old(table.nextId) + k
            && ok == (k == |b.Inserted()|)
  {
    var b := ByLevel(chunks);
    ghost var firstId, before := table.nextId, table.rows;
    ghost var rows := OwnRows(b, firstId, embed);
    ghost var n := |b.Inserted()|;
    var docId, sectionIds;
    docId, ok := InsertOwnHead(table, b, embed, throws, before, rows);
    if !ok {
      StopsAt(throws, FirstThrow(throws, |b.Heads()|), n);
      return;
    }
    sectionIds, ok := InsertOwnSections(table, b, embed, throws, docId, before, firstId);
    if !ok {
      StopsAt(throws, FirstThrow(throws, |b.Heads()| + |b.sections|), n);
      return;
    }
    ok := InsertOwnLeaves(table, b, embed, throws, docId, sectionIds, before, firstId);
  }

  // The rows of the three levels, in terms of the chunks of that level.

  lemma OwnRowAt(b: Batch, firstId: nat, embed: string -> Embedding, k: nat, c: Chunk)
    requires k < |b.Inserted()| && b.Inserted()[k] == c
    ensures OwnRows(b, firstId, embed)[k] == RowOf(c, firstId + k, embed(c.content), b.Parent(k, firstId))
  {
    RowAt(b, firstId, EmbedAll(embed, Contents(b.Inserted())), k);
  }

  lemma OwnHeadRow(b: Batch, firstId: nat, embed: string -> Embedding, c: Chunk)
    requires b.documents != [] && c == b.documents[0]
    ensures OwnRows(b, firstId, embed)[0] == RowOf(c, firstId, embed(c.content), c.parentChunkId)
  {
    OwnRowAt(b, firstId, embed, 0, c);
  }

  lemma OwnSectionRow(b: Batch, firstId: nat, embed: string -> Embedding, i: nat, c: Chunk, k: nat, id: nat,
                      parent: Option<nat>)
    requires i < |b.sections| && c == b.sections[i] && k == |b.Heads()| + i
    requires id == firstId + k && parent == b.HeadId(firstId)
    ensures OwnRows(b, firstId, embed)[k] == RowOf(c, id, embed(c.content), parent)
  {
    OwnRowAt(b, firstId, embed, k, c);
  }

  lemma OwnLeafRow(b: Batch, firstId: nat, embed: string -> Embedding, i: nat, sectionIds: seq<nat>, c: Chunk,
                   k: nat, id: nat, parent: Option<nat>)
    requires i < |b.leaves| && c == b.leaves[i] && k == |b.Heads()| + |b.sections| + i
    requires |sectionIds| == |b.sections| && IdsFrom(sectionIds, firstId + |b.Heads()|)
    requires id == firstId + k && parent == LeafParent(c, sectionIds, b.HeadId(firstId))
    ensures OwnRows(b, firstId, embed)[k] == RowOf(c, id, embed(c.content), parent)
  {
    OwnRowAt(b, firstId, embed, k, c);
  }
}
