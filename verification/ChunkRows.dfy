/** Rows of the documents table, and what inserting a list of chunks stores. */
module ChunkRows {
  import opened Text
  import opened Paths
  import opened Chunking
  import opened Embeddings

  datatype Row = Row(
    id: nat,
    path: DocPath,
    fileId: string,
    content: string,
    embedding: Embedding,
    level: Level,
    parent: Option<nat>,
    category: string,
    siblingCount: nat,
    siblingPosition: nat)

  /** The row an insert of chunk `c` writes. */
  function RowOf(c: Chunk, id: nat, embedding: Embedding, parent: Option<nat>): Row {
    Row(id, c.path, c.fileId, c.content, embedding, c.level, parent, c.category, c.siblingCount, c.siblingPosition)
  }

  // ---------------------------------------------------------------- what an insert stores

  function OfLevel(chunks: seq<Chunk>, level: Level): seq<Chunk> {
    if chunks == [] then [] else
      OfLevel(chunks[..|chunks| - 1], level)
        + if chunks[|chunks| - 1].level == level then [chunks[|chunks| - 1]] else []
  }

  /** The chunks of one document by level.  Only the first document chunk is ever inserted. */
  datatype Batch = Batch(documents: seq<Chunk>, sections: seq<Chunk>, leaves: seq<Chunk>) {
    /** The document chunks that get a row. */
    function Heads(): seq<Chunk> {
      if documents == [] then [] else documents[..1]
    }

    function Inserted(): seq<Chunk> {
      Heads() + sections + leaves
    }

    function HeadId(firstId: nat): Option<nat> {
      if documents == [] then None else Some(firstId)
    }

    /** The parent of the k-th inserted chunk when ids are handed out from `firstId` on. */
    function Parent(k: nat, firstId: nat): Option<nat>
      requires k < |Inserted()|
    {
      var d := |Heads()|;
      if k < d then Inserted()[k].parentChunkId
      else if k < d + |sections| then HeadId(firstId)
      else if Inserted()[k].parentSectionIdx < |sections| then
        Some(firstId + d + Inserted()[k].parentSectionIdx)
      else HeadId(firstId)
    }

    /** The rows of a complete insert, given one embedding per row. */
    function Rows(firstId: nat, embeddings: seq<Embedding>): (rows: seq<Row>)
      requires |embeddings| >= |Inserted()|
      ensures |rows| == |Inserted()|
    {
      seq(|Inserted()|, k requires 0 <= k < |Inserted()| =>
        RowOf(Inserted()[k], firstId + k, embeddings[k], Parent(k, firstId)))
    }

    /** The texts the batched form embeds in advance: all chunks, also those that get no row. */
    function AllTexts(): seq<string> {
      Contents(documents) + Contents(sections) + Contents(leaves)
    }
  }

  lemma RowAt(b: Batch, firstId: nat, embeddings: seq<Embedding>, k: nat)
    requires k < |b.Inserted()| <= |embeddings|
    ensures b.Rows(firstId, embeddings)[k]
         == RowOf(b.Inserted()[k], firstId + k, embeddings[k], b.Parent(k, firstId))
  {
  }

  function Contents(chunks: seq<Chunk>): (texts: seq<string>)
    ensures |texts| == |chunks|
  {
    seq(|chunks|, i requires 0 <= i < |chunks| => chunks[i].content)
  }

  function ByLevel(chunks: seq<Chunk>): Batch {
    Batch(OfLevel(chunks, Document), OfLevel(chunks, Section), OfLevel(chunks, Leaf))
  }

  /** The rows of the one-by-one form: each carries the embedding of its own content. */
  function OwnRows(b: Batch, firstId: nat, embed: string -> Embedding): seq<Row> {
    b.Rows(firstId, EmbedAll(embed, Contents(b.Inserted())))
  }

  /** The rows of the batched form: the k-th row takes the k-th embedding computed in advance. */
  function BatchedRows(b: Batch, firstId: nat, embed: string -> Embedding): seq<Row> {
    b.Rows(firstId, EmbedAll(embed, b.AllTexts()))
  }

  /** Filtering by level keeps the chunks of that level, in their order. */
  lemma OfLevelExact(chunks: seq<Chunk>, c: Chunk, level: Level)
    ensures OfLevel([], level) == []
    ensures OfLevel(chunks + [c], level) == OfLevel(chunks, level) + if c.level == level then [c] else []
  {
    SnocInit(chunks, c);
    AppendEmpty(OfLevel(chunks, level));
  }

  /** What the rows of a document are: the first document chunk, the sections and the leaves, with ids from
      `firstId` on, each with the vector of its own content and the fields of its chunk.  Sections hang below the
      document; a leaf below the section it names, or below the document if there is no such section. */
  lemma RowExact(b: Batch, firstId: nat, embed: string -> Embedding, k: nat)
    requires b.documents != [] && k < 1 + |b.sections| + |b.leaves|
    ensures |OwnRows(b, firstId, embed)| == 1 + |b.sections| + |b.leaves|
    ensures var n := |b.sections|;
            var c := if k == 0 then b.documents[0] else if k <= n then b.sections[k - 1] else b.leaves[k - 1 - n];
            var row := OwnRows(b, firstId, embed)[k];
            && row.id == firstId + k && row.path == c.path && row.fileId == c.fileId && row.content == c.content
            && row.embedding == embed(c.content) && row.level == c.level && row.category == c.category
            && row.siblingCount == c.siblingCount && row.siblingPosition == c.siblingPosition
            && row.parent == if k == 0 then c.parentChunkId
                             else if k > n && c.parentSectionIdx < n then Some(firstId + 1 + c.parentSectionIdx)
                             else Some(firstId)
  {
    InsertedBody(b);
    RowAt(b, firstId, EmbedAll(embed, Contents(b.Inserted())), k);
    assert k > 0 ==> b.Inserted()[k] == (b.sections + b.leaves)[k - 1];
  }

  lemma ContentsAppend(xs: seq<Chunk>, ys: seq<Chunk>)
    ensures Contents(xs + ys) == Contents(xs) + Contents(ys)
  {
  }

  /** One row of the two forms.  The two forms ask the embedding service in different calls, so each has a
      function of its own. */
  lemma SameRowIff(b: Batch, firstId: nat, batched: string -> Embedding, single: string -> Embedding, k: nat)
    requires k < |b.Inserted()|
    ensures |BatchedRows(b, firstId, batched)| == |OwnRows(b, firstId, single)| == |b.Inserted()| <= |b.AllTexts()|
    ensures BatchedRows(b, firstId, batched)[k] == OwnRows(b, firstId, single)[k]
       <==> batched(b.AllTexts()[k]) == single(b.Inserted()[k].content)
  {
    RowAt(b, firstId, EmbedAll(batched, b.AllTexts()), k);
    RowAt(b, firstId, EmbedAll(single, Contents(b.Inserted())), k);
  }

  /** The k-th row of the batched form gets the vector of the k-th text. */
  ghost predicate VectorsAgree(b: Batch, batched: string -> Embedding, single: string -> Embedding)
    requires |b.Inserted()| <= |b.AllTexts()|
  {
    forall k :: 0 <= k < |b.Inserted()| ==> batched(b.AllTexts()[k]) == single(b.Inserted()[k].content)
  }

  lemma SameRowsIff(b: Batch, firstId: nat, batched: string -> Embedding, single: string -> Embedding)
    ensures |b.Inserted()| <= |b.AllTexts()|
    ensures BatchedRows(b, firstId, batched) == OwnRows(b, firstId, single) <==> VectorsAgree(b, batched, single)
  {
    forall k | 0 <= k < |b.Inserted()|
      ensures BatchedRows(b, firstId, batched)[k] == OwnRows(b, firstId, single)[k]
         <==> batched(b.AllTexts()[k]) == single(b.Inserted()[k].content)
    {
      SameRowIff(b, firstId, batched, single, k);
    }
  }

  lemma OneDocumentTexts(b: Batch)
    requires |b.documents| <= 1
    ensures b.AllTexts() == Contents(b.Inserted())
  {
    assert b.Heads() == b.documents;
    ContentsAppend(b.Heads() + b.sections, b.leaves);
    ContentsAppend(b.Heads(), b.sections);
  }

  /** With at most one document chunk the two forms store the same rows exactly if their calls give the same
      vectors for the texts inserted. */
  lemma BatchedRefinesOneByOne(b: Batch, firstId: nat, batched: string -> Embedding, single: string -> Embedding)
    requires |b.documents| <= 1
    ensures BatchedRows(b, firstId, batched) == OwnRows(b, firstId, single)
       <==> forall c :: c in b.Inserted() ==> batched(c.content) == single(c.content)
  {
    SameRowsIff(b, firstId, batched, single);
    OneDocumentTexts(b);
    if forall c :: c in b.Inserted() ==> batched(c.content) == single(c.content) {
      assert forall k :: 0 <= k < |b.Inserted()| ==> b.Inserted()[k] in b.Inserted();
    } else {
      var c :| c in b.Inserted() && batched(c.content) != single(c.content);
      var k :| 0 <= k < |b.Inserted()| && b.Inserted()[k] == c;
      assert b.AllTexts()[k] == c.content;
    }
  }

  lemma InsertedBody(b: Batch)
    requires b.documents != []
    ensures b.Inserted() == [b.documents[0]] + (b.sections + b.leaves)
    ensures |b.AllTexts()| >= |b.Inserted()| && b.AllTexts()[0] == b.documents[0].content
  {
    ConcatAssoc(b.Heads(), b.sections, b.leaves);
  }

  /** The first document chunk and the chunks behind it agree after the extra document chunks have shifted the
      vectors: row 1 + k gets the vector of text 1 + k, not of its own content. */
  ghost predicate ShiftedAgree(b: Batch, batched: string -> Embedding, single: string -> Embedding)
    requires b.documents != []
  {
    && batched(b.documents[0].content) == single(b.documents[0].content)
    && forall k :: 0 <= k < |b.sections| + |b.leaves| ==>
         batched(b.AllTexts()[1 + k]) == single((b.sections + b.leaves)[k].content)
  }

  lemma AgreeAtBody(b: Batch, batched: string -> Embedding, single: string -> Embedding, k: nat)
    requires b.documents != [] && k < |b.sections| + |b.leaves| && |b.Inserted()| <= |b.AllTexts()|
    requires VectorsAgree(b, batched, single)
    ensures batched(b.AllTexts()[1 + k]) == single((b.sections + b.leaves)[k].content)
  {
    InsertedBody(b);
    assert b.Inserted()[1 + k] == (b.sections + b.leaves)[k];
  }

  lemma AgreeFromBody(b: Batch, batched: string -> Embedding, single: string -> Embedding, i: nat)
    requires b.documents != [] && i < |b.Inserted()| <= |b.AllTexts()|
    requires ShiftedAgree(b, batched, single)
    ensures batched(b.AllTexts()[i]) == single(b.Inserted()[i].content)
  {
    InsertedBody(b);
    if i > 0 {
      var k: nat := i - 1;
      assert b.Inserted()[1 + k] == (b.sections + b.leaves)[k];
    }
  }

  /** In general they store the same rows exactly when the vectors agree after that shift. */
  lemma BatchedEqualsOneByOneIff(b: Batch, firstId: nat, batched: string -> Embedding, single: string -> Embedding)
    requires b.documents != []
    ensures BatchedRows(b, firstId, batched) == OwnRows(b, firstId, single) <==> ShiftedAgree(b, batched, single)
  {
    SameRowsIff(b, firstId, batched, single);
    if VectorsAgree(b, batched, single) {
      InsertedBody(b);
      assert batched(b.AllTexts()[0]) == single(b.Inserted()[0].content);
      forall k | 0 <= k < |b.sections| + |b.leaves|
        ensures batched(b.AllTexts()[1 + k]) == single((b.sections + b.leaves)[k].content)
      {
        AgreeAtBody(b, batched, single, k);
      }
    }
    if ShiftedAgree(b, batched, single) {
      forall i | 0 <= i < |b.Inserted()| ensures batched(b.AllTexts()[i]) == single(b.Inserted()[i].content) {
        AgreeFromBody(b, batched, single, i);
      }
    }
  }

  /** Different texts have different vectors, also across the two calls. */
  ghost predicate Separates(batched: string -> Embedding, single: string -> Embedding) {
    forall x, y :: batched(x) == single(y) ==> x == y
  }

  /** Where different texts have different vectors, the texts decide: the section and leaf texts must begin
      the list that the surplus document texts and they make up together, and on the texts inserted the two
      calls must agree. */
  lemma BatchedEqualsOneByOneTexts(b: Batch, firstId: nat, batched: string -> Embedding, single: string -> Embedding)
    requires b.documents != [] && Separates(batched, single)
    ensures BatchedRows(b, firstId, batched) == OwnRows(b, firstId, single)
       <==> && Contents(b.sections + b.leaves) <= Contents(b.documents[1..]) + Contents(b.sections + b.leaves)
            && forall c :: c in b.Inserted() ==> batched(c.content) == single(c.content)
  {
    var body := b.sections + b.leaves;
    var own, shifted := Contents(body), Contents(b.documents[1..]) + Contents(body);
    BatchedEqualsOneByOneIff(b, firstId, batched, single);
    if ShiftedAgree(b, batched, single) {
      forall k | 0 <= k < |own| ensures shifted[k] == own[k] {
        ShiftedText(b, k);
      }
      forall c | c in b.Inserted() ensures batched(c.content) == single(c.content) {
        var i :| 0 <= i < |b.Inserted()| && b.Inserted()[i] == c;
        SameRowsIff(b, firstId, batched, single);
        assert batched(b.AllTexts()[i]) == single(b.Inserted()[i].content);
      }
    }
    if own <= shifted && forall c :: c in b.Inserted() ==> batched(c.content) == single(c.content) {
      InsertedBody(b);
      assert b.Inserted()[0] in b.Inserted();
      forall k | 0 <= k < |own| ensures batched(b.AllTexts()[1 + k]) == single(body[k].content) {
        ShiftedText(b, k);
        assert body[k] in b.Inserted();
      }
    }
  }

  lemma ShiftedText(b: Batch, k: nat)
    requires b.documents != [] && k < |b.sections| + |b.leaves|
    ensures 1 + k < |b.AllTexts()|
    ensures b.AllTexts()[1 + k] == (Contents(b.documents[1..]) + Contents(b.sections + b.leaves))[k]
    ensures Contents(b.sections + b.leaves)[k] == (b.sections + b.leaves)[k].content
  {
    ShiftedTexts(b);
    assert b.AllTexts()[1 + k] == b.AllTexts()[1..][k];
  }

  lemma ShiftedTexts(b: Batch)
    requires b.documents != []
    ensures b.AllTexts()[1..] == Contents(b.documents[1..]) + Contents(b.sections + b.leaves)
  {
    ContentsAppend(b.sections, b.leaves);
    ConcatAssoc(Contents(b.documents), Contents(b.sections), Contents(b.leaves));
    ConcatTail(Contents(b.documents), Contents(b.sections + b.leaves));
    assert Contents(b.documents)[1..] == Contents(b.documents[1..]);
  }

  // ---------------------------------------------------------------- rows of a path

  function RowsFor(rows: seq<Row>, p: DocPath): seq<Row> {
    if rows == [] then [] else
      RowsFor(rows[..|rows| - 1], p)
        + if rows[|rows| - 1].path == p then [rows[|rows| - 1]] else []
  }

  /** `DELETE FROM documents WHERE file_path = p` */
  function Without(rows: seq<Row>, p: DocPath): seq<Row> {
    if rows == [] then [] else
      Without(rows[..|rows| - 1], p)
        + if rows[|rows| - 1].path != p then [rows[|rows| - 1]] else []
  }

  lemma {:induction false} RowsForAppend(xs: seq<Row>, ys: seq<Row>, p: DocPath)
    ensures RowsFor(xs + ys, p) == RowsFor(xs, p) + RowsFor(ys, p)
  {
    if ys == [] {
      AppendEmpty(xs);
      AppendEmpty(RowsFor(xs, p));
    } else {
      var init, last := ys[..|ys| - 1], ys[|ys| - 1];
      RowsForAppend(xs, init, p);
      SnocInit(xs + init, last);
      TakeSnoc(ys, |ys| - 1);
      TakeAll(ys);
      ConcatAssoc(xs, init, [last]);
      ConcatAssoc(RowsFor(xs, p), RowsFor(init, p), if last.path == p then [last] else []);
    }
  }

  lemma {:induction false} RowsForUniform(rows: seq<Row>, p: DocPath, q: DocPath)
    requires forall k :: 0 <= k < |rows| ==> rows[k].path == p
    ensures RowsFor(rows, q) == if q == p then rows else []
  {
    if rows != [] {
      RowsForUniform(rows[..|rows| - 1], p, q);
      TakeSnoc(rows, |rows| - 1);
      TakeAll(rows);
    }
  }

  lemma {:induction false} RowsForWithout(rows: seq<Row>, p: DocPath, q: DocPath)
    ensures RowsFor(Without(rows, p), q) == if q == p then [] else RowsFor(rows, q)
  {
    if rows != [] {
      var init, last := rows[..|rows| - 1], rows[|rows| - 1];
      RowsForWithout(init, p, q);
      if last.path != p {
        RowsForAppend(Without(init, p), [last], q);
        RowsForUniform([last], last.path, q);
      } else {
        AppendEmpty(Without(init, p));
        AppendEmpty(RowsFor(init, q));
      }
    }
  }

  // ---------------------------------------------------------------- the forest

  datatype Issue = DocumentHasParent(id: nat) | ParentMissing(id: nat) | NoParent(id: nat)

  predicate HasId(rows: seq<Row>, id: nat) {
    exists j :: 0 <= j < |rows| && rows[j].id == id
  }

  /** A document row is a root; any other row hangs below a row of the same document. */
  predicate WellPlaced(rows: seq<Row>, row: Row) {
    if row.level == Document then row.parent == None
    else row.parent.Some? && HasId(rows, row.parent.value)
  }

  predicate Forest(rows: seq<Row>) {
    forall k :: 0 <= k < |rows| ==> WellPlaced(rows, rows[k])
  }

  /** The issue is about this row and says what is wrong with it. */
  ghost predicate Reports(rows: seq<Row>, row: Row, issue: Issue) {
    && issue.id == row.id
    && match issue
       case DocumentHasParent(_) => row.level == Document && row.parent.Some?
       case ParentMissing(_) => row.level != Document && row.parent.Some? && !HasId(rows, row.parent.value)
       case NoParent(_) => row.level != Document && row.parent == None
  }

  /** `validate_chunk_hierarchy` on the rows of one path. */
  method ValidateChunkHierarchy(rows: seq<Row>) returns (issues: seq<Issue>)
    ensures issues == [] <==> Forest(rows)
    ensures issues == []
       <==> forall k :: 0 <= k < |rows| ==>
              if rows[k].level == Document then rows[k].parent == None
              else rows[k].parent.Some? && exists j :: 0 <= j < |rows| && rows[j].id == rows[k].parent.value
    // every issue is about a row, and every misplaced row has its issue
    ensures forall n :: 0 <= n < |issues| ==> exists k :: 0 <= k < |rows| && Reports(rows, rows[k], issues[n])
    ensures forall k :: 0 <= k < |rows| && !WellPlaced(rows, rows[k]) ==>
              exists n :: 0 <= n < |issues| && Reports(rows, rows[k], issues[n])
  {
    issues := [];
    if rows == [] {
      return;
    }
    var ids := set k | 0 <= k < |rows| :: rows[k].id;
    for k := 0 to |rows|
      invariant issues == [] <==> forall j :: 0 <= j < k ==> WellPlaced(rows, rows[j])
      invariant forall n :: 0 <= n < |issues| ==> exists j :: 0 <= j < |rows| && Reports(rows, rows[j], issues[n])
      invariant forall j :: 0 <= j < k && !WellPlaced(rows, rows[j]) ==>
                  exists n :: 0 <= n < |issues| && Reports(rows, rows[j], issues[n])
    {
      var row := rows[k];
      ghost var found := issues;
      assert row.parent.Some? ==> (row.parent.value in ids <==> HasId(rows, row.parent.value));
      if row.level == Document && row.parent != None {
        issues := issues + [DocumentHasParent(row.id)];
      }
      if row.level in {Section, Leaf} && row.parent != None && row.parent.value !in ids {
        issues := issues + [ParentMissing(row.id)];
      }
      if row.level == Section && row.parent == None {
        issues := issues + [NoParent(row.id)];
      }
      if row.level == Leaf && row.parent == None {
        issues := issues + [NoParent(row.id)];
      }
      IssuesKept(rows, found, issues, k);
    }
  }

  /** A row adds one issue if it is misplaced and none if it is not. */
  lemma IssuesKept(rows: seq<Row>, before: seq<Issue>, after: seq<Issue>, k: nat)
    requires k < |rows| && (after == before || (|after| == |before| + 1 && before <= after))
    requires after == before <==> WellPlaced(rows, rows[k])
    requires after != before ==> Reports(rows, rows[k], after[|after| - 1])
    requires forall n :: 0 <= n < |before| ==> exists j :: 0 <= j < |rows| && Reports(rows, rows[j], before[n])
    requires forall j :: 0 <= j < k && !WellPlaced(rows, rows[j]) ==>
               exists n :: 0 <= n < |before| && Reports(rows, rows[j], before[n])
    ensures forall n :: 0 <= n < |after| ==> exists j :: 0 <= j < |rows| && Reports(rows, rows[j], after[n])
    ensures forall j :: 0 <= j < k + 1 && !WellPlaced(rows, rows[j]) ==>
              exists n :: 0 <= n < |after| && Reports(rows, rows[j], after[n])
  {
    forall n | 0 <= n < |after| ensures exists j :: 0 <= j < |rows| && Reports(rows, rows[j], after[n]) {
      if n < |before| {
        assert after[n] == before[n];
      } else {
        assert Reports(rows, rows[k], after[n]);
      }
    }
    forall j | 0 <= j < k + 1 && !WellPlaced(rows, rows[j])
      ensures exists n :: 0 <= n < |after| && Reports(rows, rows[j], after[n])
    {
      if j < k {
        var n :| 0 <= n < |before| && Reports(rows, rows[j], before[n]);
        assert after[n] == before[n];
      }
    }
  }

  /** Chunks as the chunkers produce them: a root first, everything else below it. */
  ghost predicate Rooted(b: Batch) {
    && b.documents != []
    && b.documents[0].parentChunkId == None
    && (forall k :: 0 <= k < |b.documents| ==> b.documents[k].level == Document)
    && (forall k :: 0 <= k < |b.sections| ==> b.sections[k].level == Section)
    && (forall k :: 0 <= k < |b.leaves| ==> b.leaves[k].level == Leaf)
  }

  /** The parent of an inserted row was inserted before it. */
  lemma ParentComesFirst(b: Batch, k: nat, firstId: nat)
    requires Rooted(b) && k < |b.Inserted()|
    ensures b.Inserted()[k].level == Document <==> k == 0
    ensures k == 0 ==> b.Parent(k, firstId) == None
    ensures k > 0 ==> b.Parent(k, firstId).Some? && firstId <= b.Parent(k, firstId).value < firstId + k
  {
    assert b.Heads() == [b.documents[0]];
    ConcatAssoc(b.Heads(), b.sections, b.leaves);
    if k > 0 {
      assert b.Inserted()[k] == (b.sections + b.leaves)[k - 1];
    }
  }

  lemma HasIdAt(rows: seq<Row>, k: nat)
    requires k < |rows|
    ensures HasId(rows, rows[k].id)
  {
  }

  lemma OldRowPlaced(prior: seq<Row>, more: seq<Row>, row: Row)
    requires WellPlaced(prior, row)
    ensures WellPlaced(prior + more, row)
  {
    if row.parent.Some? && HasId(prior, row.parent.value) {
      var j :| 0 <= j < |prior| && prior[j].id == row.parent.value;
      assert (prior + more)[j] == prior[j];
      HasIdAt(prior + more, j);
    }
  }

  lemma AppendedAt<T>(prior: seq<T>, all: seq<T>, n: nat, i: nat)
    requires i < n <= |all|
    ensures (prior + all[..n])[|prior| + i] == all[i]
  {
  }

  lemma NewRowPlaced(prior: seq<Row>, b: Batch, firstId: nat, embeddings: seq<Embedding>, n: nat, i: nat)
    requires Rooted(b) && |embeddings| >= |b.Inserted()| && i < n <= |b.Inserted()|
    ensures WellPlaced(prior + b.Rows(firstId, embeddings)[..n], b.Rows(firstId, embeddings)[i])
  {
    var all := b.Rows(firstId, embeddings);
    ParentComesFirst(b, i, firstId);
    RowAt(b, firstId, embeddings, i);
    if i > 0 {
      var q := b.Parent(i, firstId).value - firstId;
      RowAt(b, firstId, embeddings, q);
      AppendedAt(prior, all, n, q);
      HasIdAt(prior + all[..n], |prior| + q);
    }
  }

  /** Stopped after any number of rows, an insert leaves a forest a forest. */
  lemma ForestAtEveryPrefix(prior: seq<Row>, b: Batch, firstId: nat, embeddings: seq<Embedding>, n: nat)
    requires Rooted(b) && |embeddings| >= |b.Inserted()| && n <= |b.Inserted()|
    requires Forest(prior)
    ensures Forest(prior + b.Rows(firstId, embeddings)[..n])
  {
    var all := b.Rows(firstId, embeddings);
    var rows := prior + all[..n];
    forall k | 0 <= k < |rows| ensures WellPlaced(rows, rows[k]) {
      if k < |prior| {
        assert WellPlaced(prior, prior[k]);
        OldRowPlaced(prior, all[..n], prior[k]);
      } else {
        NewRowPlaced(prior, b, firstId, embeddings, n, k - |prior|);
        AppendedAt(prior, all, n, k - |prior|);
      }
    }
  }

  // ---------------------------------------------------------------- siblings

  function Children(rows: seq<Row>, id: nat): seq<Row> {
    if rows == [] then [] else
      Children(rows[..|rows| - 1], id)
        + if rows[|rows| - 1].parent == Some(id) then [rows[|rows| - 1]] else []
  }

  /** The children of every row know how many they are and stand at positions 0, 1, 2, ... */
  ghost predicate SiblingsConsistent(rows: seq<Row>) {
    forall id: nat :: Numbered(Children(rows, id))
  }

  predicate Numbered(rows: seq<Row>) {
    forall k :: 0 <= k < |rows| ==> rows[k].siblingCount == |rows| && rows[k].siblingPosition == k
  }

  lemma ChildrenSnoc(rows: seq<Row>, row: Row, id: nat)
    ensures Children(rows + [row], id) == Children(rows, id) + if row.parent == Some(id) then [row] else []
  {
    SnocInit(rows, row);
  }

  lemma {:induction false} ChildrenAppend(xs: seq<Row>, ys: seq<Row>, id: nat)
    ensures Children(xs + ys, id) == Children(xs, id) + Children(ys, id)
  {
    if ys == [] {
      AppendEmpty(xs);
      AppendEmpty(Children(xs, id));
    } else {
      var init, last := ys[..|ys| - 1], ys[|ys| - 1];
      ChildrenAppend(xs, init, id);
      LastSplit(xs, ys);
      ChildrenSnoc(xs + init, last, id);
      ConcatAssoc(Children(xs, id), Children(init, id), if last.parent == Some(id) then [last] else []);
    }
  }

  lemma LastSplit<T>(xs: seq<T>, ys: seq<T>)
    requires ys != []
    ensures xs + ys == (xs + ys[..|ys| - 1]) + [ys[|ys| - 1]]
  {
  }

  lemma {:induction false} ChildrenOfOne(rows: seq<Row>, parent: nat, id: nat)
    requires forall k :: 0 <= k < |rows| ==> rows[k].parent == Some(parent)
    ensures Children(rows, id) == if id == parent then rows else []
  {
    if rows != [] {
      ChildrenOfOne(rows[..|rows| - 1], parent, id);
      TakeSnoc(rows, |rows| - 1);
      TakeAll(rows);
    }
  }

  lemma {:induction false} NoChildren(rows: seq<Row>, id: nat)
    requires forall k :: 0 <= k < |rows| ==> rows[k].parent != Some(id)
    ensures Children(rows, id) == []
  {
    if rows != [] {
      NoChildren(rows[..|rows| - 1], id);
    }
  }

  /** Rows that carry the sibling fields of `chunks` and hang below row `base + parentSectionIdx`. */
  ghost predicate RowsOfLeaves(rows: seq<Row>, chunks: seq<Chunk>, base: nat) {
    && |rows| == |chunks|
    && forall k :: 0 <= k < |rows| ==>
         && rows[k].parent == Some(base + chunks[k].parentSectionIdx)
         && rows[k].siblingCount == chunks[k].siblingCount
         && rows[k].siblingPosition == chunks[k].siblingPosition
  }

  lemma {:induction false} LeafParentsInRange(leafTexts: seq<seq<string>>, path: DocPath, fileId: string)
    ensures forall k :: 0 <= k < |AllLeafChunks(leafTexts, path, fileId)| ==>
              AllLeafChunks(leafTexts, path, fileId)[k].parentSectionIdx < |leafTexts|
    ensures forall k :: 0 <= k < |AllLeafChunks(leafTexts, path, fileId)| ==>
              AllLeafChunks(leafTexts, path, fileId)[k].level == Leaf
  {
    if leafTexts != [] {
      LeafParentsInRange(leafTexts[..|leafTexts| - 1], path, fileId);
    }
  }

  lemma LeafRowsSplit(rows: seq<Row>, before: seq<Chunk>, block: seq<Chunk>, base: nat, parent: nat)
    requires RowsOfLeaves(rows, before + block, base)
    requires forall k :: 0 <= k < |block| ==>
               block[k].parentSectionIdx == parent && block[k].siblingCount == |block| && block[k].siblingPosition == k
    ensures RowsOfLeaves(rows[..|before|], before, base)
    ensures forall k :: 0 <= k < |rows| - |before| ==> rows[|before|..][k].parent == Some(base + parent)
    ensures Numbered(rows[|before|..])
  {
    var chunks := before + block;
    forall k | 0 <= k < |before|
      ensures rows[..|before|][k] == rows[k] && chunks[k] == before[k]
    {
    }
    forall k | 0 <= k < |block|
      ensures rows[|before|..][k] == rows[|before| + k] && chunks[|before| + k] == block[k]
    {
    }
  }

  /** Rows whose children are numbered, followed by the numbered children of one later row. */
  lemma BlockSiblings(rows: seq<Row>, n: nat, base: nat, last: nat, id: nat)
    requires n <= |rows| && Numbered(Children(rows[..n], id))
    requires id < base || base + last <= id ==> Children(rows[..n], id) == []
    requires forall k :: 0 <= k < |rows| - n ==> rows[n..][k].parent == Some(base + last)
    requires Numbered(rows[n..])
    ensures Numbered(Children(rows, id))
    ensures id < base || base + last + 1 <= id ==> Children(rows, id) == []
  {
    SplitAt(rows, n);
    ChildrenAppend(rows[..n], rows[n..], id);
    ChildrenOfOne(rows[n..], base + last, id);
    AppendEmpty(Children(rows[..n], id));
    AppendEmpty(rows[n..]);
  }

  lemma {:induction false} LeafSiblings(rows: seq<Row>, leafTexts: seq<seq<string>>, path: DocPath,
                                        fileId: string, base: nat, id: nat)
    requires RowsOfLeaves(rows, AllLeafChunks(leafTexts, path, fileId), base)
    ensures Numbered(Children(rows, id))
    ensures id < base || base + |leafTexts| <= id ==> Children(rows, id) == []
    decreases |leafTexts|
  {
    if leafTexts != [] {
      var init, last := leafTexts[..|leafTexts| - 1], |leafTexts| - 1;
      var before := AllLeafChunks(init, path, fileId);
      LeafRowsSplit(rows, before, LeafChunks(leafTexts[last], last, path, fileId), base, last);
      LeafSiblings(rows[..|before|], init, path, fileId, base, id);
      BlockSiblings(rows, |before|, base, last, id);
    }
  }

  /** A root, its sections, and the leaves of the sections. */
  lemma TreeSiblings(root: Row, middle: seq<Row>, leaves: seq<Row>, firstId: nat, leafTexts: seq<seq<string>>,
                     path: DocPath, fileId: string)
    requires root.parent == None
    requires (forall k :: 0 <= k < |middle| ==> middle[k].parent == Some(firstId)) && Numbered(middle)
    requires RowsOfLeaves(leaves, AllLeafChunks(leafTexts, path, fileId), firstId + 1)
    ensures SiblingsConsistent([root] + middle + leaves)
  {
    forall id: nat ensures Numbered(Children([root] + middle + leaves, id)) {
      LeafSiblings(leaves, leafTexts, path, fileId, firstId + 1, id);
      ChildrenOfThree(root, middle, leaves, firstId, id);
    }
  }

  lemma ChildrenOfThree(root: Row, middle: seq<Row>, leaves: seq<Row>, firstId: nat, id: nat)
    requires root.parent == None
    requires (forall k :: 0 <= k < |middle| ==> middle[k].parent == Some(firstId)) && Numbered(middle)
    requires Numbered(Children(leaves, id)) && (id == firstId ==> Children(leaves, id) == [])
    ensures Numbered(Children([root] + middle + leaves, id))
  {
    ChildrenAppend([root] + middle, leaves, id);
    ChildrenAppend([root], middle, id);
    NoChildren([root], id);
    ChildrenOfOne(middle, firstId, id);
    AppendEmpty(middle);
    AppendEmpty(Children(leaves, id));
  }

  // ---------------------------------------------------------------- the two chunkers

  function TreeBatch(root: Chunk, sections: seq<string>, leafTexts: seq<seq<string>>, path: DocPath,
                     fileId: string): Batch
  {
    Batch([root], SectionChunks(sections, path, fileId), AllLeafChunks(leafTexts, path, fileId))
  }

  function HierarchyBatch(content: string, path: DocPath, fileId: string): Batch {
    var sections := SectionTexts(content);
    TreeBatch(DocumentChunk(content, path, fileId), sections, AllLeafTexts(sections), path, fileId)
  }

  lemma OfLevelSnoc(chunks: seq<Chunk>, c: Chunk, level: Level)
    ensures OfLevel(chunks + [c], level) == OfLevel(chunks, level) + if c.level == level then [c] else []
  {
    SnocInit(chunks, c);
  }

  lemma {:induction false} OfLevelAppend(xs: seq<Chunk>, ys: seq<Chunk>, level: Level)
    ensures OfLevel(xs + ys, level) == OfLevel(xs, level) + OfLevel(ys, level)
  {
    if ys == [] {
      AppendEmpty(xs);
      AppendEmpty(OfLevel(xs, level));
    } else {
      var init, last := ys[..|ys| - 1], ys[|ys| - 1];
      OfLevelAppend(xs, init, level);
      LastSplit(xs, ys);
      OfLevelSnoc(xs + init, last, level);
      ConcatAssoc(OfLevel(xs, level), OfLevel(init, level), if last.level == level then [last] else []);
    }
  }

  lemma {:induction false} OfLevelUniform(chunks: seq<Chunk>, uniform: Level, level: Level)
    requires forall k :: 0 <= k < |chunks| ==> chunks[k].level == uniform
    ensures OfLevel(chunks, level) == if level == uniform then chunks else []
  {
    if chunks != [] {
      OfLevelUniform(chunks[..|chunks| - 1], uniform, level);
      TakeSnoc(chunks, |chunks| - 1);
      TakeAll(chunks);
    }
  }

  /** Sorting the output of the hierarchical chunker by level gives back its three stages. */
  lemma HierarchyByLevel(content: string, path: DocPath, fileId: string)
    ensures ByLevel(Hierarchy(content, path, fileId)) == HierarchyBatch(content, path, fileId)
    ensures Rooted(HierarchyBatch(content, path, fileId))
    ensures |HierarchyBatch(content, path, fileId).Inserted()| == |Hierarchy(content, path, fileId)|
  {
    var sections := SectionTexts(content);
    var d := [DocumentChunk(content, path, fileId)];
    var s, l := SectionChunks(sections, path, fileId), AllLeafChunks(AllLeafTexts(sections), path, fileId);
    LeafParentsInRange(AllLeafTexts(sections), path, fileId);
    assert HierarchyBatch(content, path, fileId).Heads() == d;
    LevelOf(d, s, l, Document);
    LevelOf(d, s, l, Section);
    LevelOf(d, s, l, Leaf);
  }

  lemma LevelOf(d: seq<Chunk>, s: seq<Chunk>, l: seq<Chunk>, level: Level)
    requires forall k :: 0 <= k < |d| ==> d[k].level == Document
    requires forall k :: 0 <= k < |s| ==> s[k].level == Section
    requires forall k :: 0 <= k < |l| ==> l[k].level == Leaf
    ensures OfLevel(d + s + l, level) == match level case Document => d case Section => s case Leaf => l
  {
    OfLevelAppend(d + s, l, level);
    OfLevelAppend(d, s, level);
    OfLevelUniform(d, Document, level);
    OfLevelUniform(s, Section, level);
    OfLevelUniform(l, Leaf, level);
    AppendEmpty(OfLevel(d, level));
    AppendEmpty(OfLevel(s, level));
    AppendEmpty(OfLevel(l, level));
  }

  /** A row of a tree batch in terms of its chunk. */
  lemma TreeRow(b: Batch, firstId: nat, embeddings: seq<Embedding>, k: nat)
    requires |b.documents| == 1 && b.documents[0].parentChunkId == None
    requires k < |b.Inserted()| <= |embeddings|
    ensures var n, row := |b.sections|, b.Rows(firstId, embeddings)[k];
            && |b.Inserted()| == 1 + n + |b.leaves|
            && (k == 0 ==> row.parent == None)
            && (1 <= k <= n ==>
                  row.parent == Some(firstId) && row.siblingCount == b.sections[k - 1].siblingCount
                  && row.siblingPosition == b.sections[k - 1].siblingPosition)
            && (k > n && b.leaves[k - 1 - n].parentSectionIdx < n ==>
                  row.parent == Some(firstId + 1 + b.leaves[k - 1 - n].parentSectionIdx)
                  && row.siblingCount == b.leaves[k - 1 - n].siblingCount
                  && row.siblingPosition == b.leaves[k - 1 - n].siblingPosition)
  {
    assert b.Heads() == b.documents;
    RowAt(b, firstId, embeddings, k);
  }

  lemma MiddleRows(b: Batch, firstId: nat, embeddings: seq<Embedding>)
    requires |b.documents| == 1 && b.documents[0].parentChunkId == None && |b.Inserted()| <= |embeddings|
    requires forall k :: 0 <= k < |b.sections| ==>
               b.sections[k].siblingCount == |b.sections| && b.sections[k].siblingPosition == k
    ensures |b.Inserted()| == 1 + |b.sections| + |b.leaves|
    ensures var middle := b.Rows(firstId, embeddings)[1..1 + |b.sections|];
            (forall k :: 0 <= k < |middle| ==> middle[k].parent == Some(firstId)) && Numbered(middle)
  {
    var rows := b.Rows(firstId, embeddings);
    TreeRow(b, firstId, embeddings, 0);
    var middle := rows[1..1 + |b.sections|];
    forall k | 0 <= k < |middle|
      ensures middle[k].parent == Some(firstId)
      ensures middle[k].siblingCount == |middle| && middle[k].siblingPosition == k
    {
      TreeRow(b, firstId, embeddings, 1 + k);
    }
  }

  lemma LeafRows(b: Batch, firstId: nat, embeddings: seq<Embedding>)
    requires |b.documents| == 1 && b.documents[0].parentChunkId == None && |b.Inserted()| <= |embeddings|
    requires forall k :: 0 <= k < |b.leaves| ==> b.leaves[k].parentSectionIdx < |b.sections|
    ensures |b.Inserted()| == 1 + |b.sections| + |b.leaves|
    ensures RowsOfLeaves(b.Rows(firstId, embeddings)[1 + |b.sections|..], b.leaves, firstId + 1)
  {
    var n := |b.sections|;
    TreeRow(b, firstId, embeddings, 0);
    var leaves := b.Rows(firstId, embeddings)[1 + n..];
    forall k | 0 <= k < |leaves|
      ensures leaves[k].parent == Some(firstId + 1 + b.leaves[k].parentSectionIdx)
      ensures leaves[k].siblingCount == b.leaves[k].siblingCount
      ensures leaves[k].siblingPosition == b.leaves[k].siblingPosition
    {
      TreeRow(b, firstId, embeddings, 1 + n + k);
    }
  }

  lemma BatchSiblings(root: Chunk, sections: seq<string>, leafTexts: seq<seq<string>>, path: DocPath,
                      fileId: string, firstId: nat, embeddings: seq<Embedding>)
    requires root.parentChunkId == None && |leafTexts| == |sections|
    requires |embeddings| >= |TreeBatch(root, sections, leafTexts, path, fileId).Inserted()|
    ensures SiblingsConsistent(TreeBatch(root, sections, leafTexts, path, fileId).Rows(firstId, embeddings))
  {
    var b := TreeBatch(root, sections, leafTexts, path, fileId);
    var rows, n := b.Rows(firstId, embeddings), |b.sections|;
    LeafParentsInRange(leafTexts, path, fileId);
    MiddleRows(b, firstId, embeddings);
    LeafRows(b, firstId, embeddings);
    TreeRow(b, firstId, embeddings, 0);
    TreeSiblings(rows[0], rows[1..1 + n], rows[1 + n..], firstId, leafTexts, path, fileId);
    InThree(rows, n);
  }

  lemma InThree<T>(xs: seq<T>, n: nat)
    requires 1 + n <= |xs|
    ensures [xs[0]] + xs[1..1 + n] + xs[1 + n..] == xs
  {
  }

  /** After a full insert of a chunked document, every row's children know their number and position. */
  lemma HierarchySiblings(content: string, path: DocPath, fileId: string, firstId: nat, embeddings: seq<Embedding>)
    requires |embeddings| >= |HierarchyBatch(content, path, fileId).Inserted()|
    ensures SiblingsConsistent(HierarchyBatch(content, path, fileId).Rows(firstId, embeddings))
  {
    var sections := SectionTexts(content);
    BatchSiblings(DocumentChunk(content, path, fileId), sections, AllLeafTexts(sections), path, fileId,
                  firstId, embeddings);
  }

  /** The streamed chunks of a large file: the first is the root, the others hang directly below it. */
  function StreamBatch(texts: seq<string>, path: DocPath, fileId: string): Batch {
    Batch(if texts == [] then [] else [StreamChunk(texts, 0, path, fileId)],
          [],
          if texts == [] then [] else
            seq(|texts| - 1, i requires 0 <= i < |texts| - 1 => StreamChunk(texts, i + 1, path, fileId)))
  }

  function StreamChunk(texts: seq<string>, i: nat, path: DocPath, fileId: string): Chunk
    requires i < |texts|
  {
    Chunk(texts[i], if i == 0 then Document else Leaf, path, fileId, Category(path), None, 0, |texts|, i)
  }

  lemma StreamBatchShape(texts: seq<string>, path: DocPath, fileId: string)
    ensures texts != [] ==> Rooted(StreamBatch(texts, path, fileId))
    ensures |StreamBatch(texts, path, fileId).Inserted()| == |texts|
    ensures Contents(StreamBatch(texts, path, fileId).Inserted()) == texts
    ensures forall i :: 0 <= i < |texts| ==>
              StreamBatch(texts, path, fileId).Inserted()[i]
              == Chunk(texts[i], if i == 0 then Document else Leaf, path, fileId, Join("/", path.dir), None, 0,
                       |texts|, i)
  {
    var b := StreamBatch(texts, path, fileId);
    if texts != [] {
      OneThenRest(b);
      forall i | 0 <= i < |texts| ensures b.Inserted()[i] == StreamChunk(texts, i, path, fileId) {
      }
    }
  }

  lemma OneThenRest(b: Batch)
    requires |b.documents| == 1 && b.sections == []
    ensures |b.Inserted()| == 1 + |b.leaves| && b.Inserted()[0] == b.documents[0]
    ensures forall i :: 0 < i < |b.Inserted()| ==> b.Inserted()[i] == b.leaves[i - 1]
  {
    AppendEmpty(b.Heads());
  }

  /** The streamed rows count the root among the siblings of its children, so their sibling fields are
      right only when there are no children. */
  lemma StreamSiblingsIff(texts: seq<string>, path: DocPath, fileId: string, firstId: nat, embeddings: seq<Embedding>)
    requires |embeddings| >= |StreamBatch(texts, path, fileId).Inserted()|
    ensures SiblingsConsistent(StreamBatch(texts, path, fileId).Rows(firstId, embeddings)) <==> |texts| <= 1
  {
    if |texts| <= 1 {
      var rows := StreamBatch(texts, path, fileId).Rows(firstId, embeddings);
      forall id: nat ensures Numbered(Children(rows, id)) {
        NoChildren(rows, id);
      }
    } else {
      StreamChildren(texts, path, fileId, firstId, embeddings);
    }
  }

  lemma StreamRow(texts: seq<string>, path: DocPath, fileId: string, firstId: nat, embeddings: seq<Embedding>, k: nat)
    requires k < |texts| && |embeddings| >= |StreamBatch(texts, path, fileId).Inserted()|
    ensures var rows := StreamBatch(texts, path, fileId).Rows(firstId, embeddings);
            && |rows| == |texts|
            && rows[k].parent == (if k == 0 then None else Some(firstId)) && rows[k].siblingCount == |texts|
  {
    var b := StreamBatch(texts, path, fileId);
    StreamBatchShape(texts, path, fileId);
    StreamParent(b, texts, path, fileId, firstId, k);
    RowAt(b, firstId, embeddings, k);
  }

  lemma StreamParent(b: Batch, texts: seq<string>, path: DocPath, fileId: string, firstId: nat, k: nat)
    requires b == StreamBatch(texts, path, fileId) && k < |texts| == |b.Inserted()|
    requires b.Inserted()[k] == StreamChunk(texts, k, path, fileId)
    ensures b.Parent(k, firstId) == if k == 0 then None else Some(firstId)
  {
  }

  lemma StreamChildren(texts: seq<string>, path: DocPath, fileId: string, firstId: nat, embeddings: seq<Embedding>)
    requires |texts| >= 2 && |embeddings| >= |StreamBatch(texts, path, fileId).Inserted()|
    ensures !Numbered(Children(StreamBatch(texts, path, fileId).Rows(firstId, embeddings), firstId))
  {
    var rows := StreamBatch(texts, path, fileId).Rows(firstId, embeddings);
    StreamRow(texts, path, fileId, firstId, embeddings, 0);
    forall k | 1 <= k < |rows| ensures rows[k].parent == Some(firstId) && rows[k].siblingCount == |rows| {
      StreamRow(texts, path, fileId, firstId, embeddings, k);
    }
    Miscounted(rows, firstId);
  }

  lemma Miscounted(rows: seq<Row>, id: nat)
    requires |rows| >= 2 && rows[0].parent == None
    requires forall k :: 1 <= k < |rows| ==> rows[k].parent == Some(id) && rows[k].siblingCount == |rows|
    ensures !Numbered(Children(rows, id))
  {
    SplitAt(rows, 1);
    ChildrenAppend(rows[..1], rows[1..], id);
    NoChildren(rows[..1], id);
    ChildrenOfOne(rows[1..], id, id);
    AppendEmpty(rows[1..]);
    assert Children(rows, id) == rows[1..];
    assert rows[1..][0] == rows[1];
  }
}
