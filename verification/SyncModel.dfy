/** Files, chunk rows and sync statuses, and what the four document operations do to them when any
    one of their steps may throw (`sync_manager.py`).

    An operation is a script of steps.  A fault at step k means that the first k steps took effect and
    that the operation's exception handler then restored the files and, unless that throws as well, wrote
    its status. */
module SyncModel {
  import opened Text
  import opened Paths
  import opened Chunking
  import opened Streaming
  import opened Embeddings
  import opened ChunkRows

  const LARGE_FILE_THRESHOLD := 10485760

  /** A file: the text written to it and its modification time. */
  datatype File = File(text: string, mtime: real)

  datatype Status = InSync | OutOfSync | Processing | Error | OrphanedChunks | PendingIndexing

  datatype Source = Filesystem | Browser

  datatype StatusRow = StatusRow(
    status: Status,
    failed: bool,
    chunkCount: nat,
    source: Source,
    filesystemMtime: Option<real>,
    databaseMtime: Option<real>)

  datatype StatusUpdate = StatusUpdate(
    status: Status,
    failed: bool,
    chunkCount: Option<nat>,
    source: Option<Source>,
    filesystemMtime: Option<real>,
    databaseMtime: Option<real>)

  datatype State = State(
    files: map<DocPath, File>,
    rows: seq<Row>,
    nextId: nat,
    statuses: map<DocPath, StatusRow>)

  // ---------------------------------------------------------------- texts in files

  /** Reading a file in text mode turns "\r\n" and "\r" into "\n". */
  function ReadText(stored: string): string {
    if stored == "" then ""
    else if stored[0] == '\r' then
      "\n" + ReadText(if |stored| > 1 && stored[1] == '\n' then stored[2..] else stored[1..])
    else [stored[0]] + ReadText(stored[1..])
  }

  /** A text is read back as written exactly when it has no carriage return. */
  lemma {:induction false} ReadTextIdentityIff(s: string)
    ensures ReadText(s) == s <==> '\r' !in s
    ensures |s| <= 2 * |ReadText(s)|
    ensures '\r' !in ReadText(s)
    decreases |s|
  {
    if s != "" {
      if s[0] == '\r' {
        ReadTextIdentityIff(if |s| > 1 && s[1] == '\n' then s[2..] else s[1..]);
        assert ReadText(s)[0] == '\n';
      } else {
        ReadTextIdentityIff(s[1..]);
        assert s == [s[0]] + s[1..];
        assert ReadText(s)[1..] == ReadText(s[1..]);
      }
    }
  }

  /** "\r\n" is one line end, "\r" alone is one, and every other character is read as it is. */
  lemma ReadTextLaws(c: char, s: string)
    ensures ReadText("") == ""
    ensures c != '\r' ==> ReadText([c] + s) == [c] + ReadText(s)
    ensures ReadText("\r\n" + s) == "\n" + ReadText(s)
    ensures s == "" || s[0] != '\n' ==> ReadText("\r" + s) == "\n" + ReadText(s)
  {
    ConcatTail([c], s);
    ConcatTail("\r", s);
    assert ("\r\n" + s)[2..] == s;
    assert [c] + s == [c] + ([c] + s)[1..] && "\r" + s == "\r" + ("\r" + s)[1..];
  }

  /** A text whose lines end in "\n", written with another line end. */
  function WithLineEnds(s: string, end: string): string {
    if s == "" then "" else (if s[0] == '\n' then end else [s[0]]) + WithLineEnds(s[1..], end)
  }

  /** Whichever of the three line ends a text was written with, it is read back the same. */
  lemma {:induction false} LineEndsRoundTrip(s: string, end: string)
    requires '\r' !in s && (end == "\n" || end == "\r" || end == "\r\n")
    ensures ReadText(WithLineEnds(s, end)) == s
  {
    if s != "" {
      var rest := WithLineEnds(s[1..], end);
      LineEndsRoundTrip(s[1..], end);
      ReadTextLaws(s[0], rest);
      assert end == "\n" ==> ReadText("\n" + rest) == "\n" + ReadText(rest);
      assert end == "\r" ==> rest == "" || rest[0] != '\n';
      assert s == [s[0]] + s[1..];
    }
  }

  function Utf8Length(c: char): nat {
    if c < '\U{0080}' then 1 else if c < '\U{0800}' then 2 else if c < '\U{10000}' then 3 else 4
  }

  /** `stat().st_size` of a file with this text. */
  function Utf8Size(s: string): (n: nat)
    ensures n <= 4 * |s|
  {
    if s == "" then 0 else Utf8Length(s[0]) + Utf8Size(s[1..])
  }

  /** Files above this size are streamed. */
  predicate IsLarge(stored: string) {
    Utf8Size(stored) > LARGE_FILE_THRESHOLD
  }

  /** The size is the sum over the characters: one byte each below U+0080, two below U+0800, three below
      U+10000 and four above; a document is streamed from ten megabytes on. */
  lemma {:induction false} LargeSize(a: string, b: string)
    ensures Utf8Size("") == 0 && Utf8Size(a + b) == Utf8Size(a) + Utf8Size(b)
    ensures |a| == 1 ==> Utf8Size(a) == if a[0] as int < 128 then 1 else if a[0] as int < 2048 then 2
                                        else if a[0] as int < 65536 then 3 else 4
    ensures IsLarge(a) <==> Utf8Size(a) > 10 * 1024 * 1024
  {
    if a == "" {
      AppendEmpty(b);
    } else {
      ConcatTail(a, b);
      LargeSize(a[1..], b);
    }
  }

  // ---------------------------------------------------------------- chunking a stored document

  /** The chunks of a document: a large file is streamed, any other is chunked hierarchically. */
  function ChunkBatch(p: DocPath, content: string, stored: string, fileId: string): Batch {
    if IsLarge(stored) then StreamBatch(OneShot(ReadText(stored)), p, fileId)
    else HierarchyBatch(content, p, fileId)
  }

  /** A large file has at least one full window, so every document has a root row. */
  lemma ChunkBatchRooted(p: DocPath, content: string, stored: string, fileId: string)
    ensures Rooted(ChunkBatch(p, content, stored, fileId))
  {
    if IsLarge(stored) {
      ReadTextIdentityIff(stored);
      StreamBatchShape(OneShot(ReadText(stored)), p, fileId);
    } else {
      HierarchyByLevel(content, p, fileId);
    }
  }

  ghost predicate AllAt(chunks: seq<Chunk>, p: DocPath) {
    forall k :: 0 <= k < |chunks| ==> chunks[k].path == p
  }

  lemma {:induction false} LeafPaths(leafTexts: seq<seq<string>>, p: DocPath, fileId: string)
    ensures AllAt(AllLeafChunks(leafTexts, p, fileId), p)
  {
    if leafTexts != [] {
      LeafPaths(leafTexts[..|leafTexts| - 1], p, fileId);
    }
  }

  lemma InsertedPaths(b: Batch, p: DocPath)
    requires AllAt(b.documents, p) && AllAt(b.sections, p) && AllAt(b.leaves, p)
    ensures AllAt(b.Inserted(), p)
  {
  }

  lemma StreamPaths(texts: seq<string>, p: DocPath, fileId: string)
    ensures AllAt(StreamBatch(texts, p, fileId).Inserted(), p)
  {
    InsertedPaths(StreamBatch(texts, p, fileId), p);
  }

  lemma TreePaths(root: Chunk, sections: seq<string>, leafTexts: seq<seq<string>>, p: DocPath, fileId: string)
    requires root.path == p
    ensures AllAt(TreeBatch(root, sections, leafTexts, p, fileId).Inserted(), p)
  {
    LeafPaths(leafTexts, p, fileId);
    InsertedPaths(TreeBatch(root, sections, leafTexts, p, fileId), p);
  }

  lemma ChunkBatchPaths(p: DocPath, content: string, stored: string, fileId: string)
    ensures AllAt(ChunkBatch(p, content, stored, fileId).Inserted(), p)
  {
    if IsLarge(stored) {
      StreamPaths(OneShot(ReadText(stored)), p, fileId);
    } else {
      var sections := SectionTexts(content);
      TreePaths(DocumentChunk(content, p, fileId), sections, AllLeafTexts(sections), p, fileId);
    }
  }

  /** The rows of one complete chunking, given ids from `firstId` on. */
  function FullRows(p: DocPath, content: string, stored: string, fileId: string, firstId: nat,
                    embed: string -> Embedding): seq<Row>
  {
    OwnRows(ChunkBatch(p, content, stored, fileId), firstId, embed)
  }

  /** Files above ten megabytes are read and cut into windows, whatever text the operation was given; the text
      of any other is chunked by headings and paragraphs. */
  lemma FullRowsExact(p: DocPath, content: string, stored: string, fileId: string, firstId: nat,
                      embed: string -> Embedding)
    ensures FullRows(p, content, stored, fileId, firstId, embed)
         == OwnRows(if Utf8Size(stored) > 10485760 then StreamBatch(OneShot(ReadText(stored)), p, fileId)
                    else HierarchyBatch(content, p, fileId), firstId, embed)
  {
  }

  // ---------------------------------------------------------------- steps and scripts

  datatype Action =
    | Query                                    // reads or embeds; changes nothing
    | Write(path: DocPath, file: File)
    | Rename(from: DocPath, onto: DocPath)
    | Unlink(path: DocPath)                    // if it exists
    | DropRows(path: DocPath)
    | Insert(row: Row)
    | SetStatus(path: DocPath, update: StatusUpdate)
    | DropStatus(path: DocPath)

  /** The upsert: a missing count or source is replaced by its default before the row is written, so only
      the two modification times survive an update that does not give them. */
  function Upsert(statuses: map<DocPath, StatusRow>, p: DocPath, u: StatusUpdate): map<DocPath, StatusRow> {
    var fs0 := if p in statuses then statuses[p].filesystemMtime else None;
    var db0 := if p in statuses then statuses[p].databaseMtime else None;
    statuses[p := StatusRow(
      u.status,
      u.failed,
      if u.chunkCount.Some? then u.chunkCount.value else 0,
      if u.source.Some? then u.source.value else Filesystem,
      if u.filesystemMtime.Some? then u.filesystemMtime else fs0,
      if u.databaseMtime.Some? then u.databaseMtime else db0)]
  }

  function Moved(files: map<DocPath, File>, src: DocPath, dst: DocPath): map<DocPath, File> {
    if src in files then files[dst := files[src]] - {src} else files
  }

  function Apply(s: State, a: Action): State {
    match a
    case Query => s
    case Write(p, file) => s.(files := s.files[p := file])
    case Rename(src, dst) => s.(files := Moved(s.files, src, dst))
    case Unlink(p) => s.(files := s.files - {p})
    case DropRows(p) => s.(rows := Without(s.rows, p))
    case Insert(row) => s.(rows := s.rows + [row], nextId := s.nextId + 1)
    case SetStatus(p, u) => s.(statuses := Upsert(s.statuses, p, u))
    case DropStatus(p) => s.(statuses := s.statuses - {p})
  }

  function Exec(s: State, script: seq<Action>): State {
    if script == [] then s else Apply(Exec(s, script[..|script| - 1]), script[|script| - 1])
  }

  lemma {:induction false} ExecAppend(s: State, xs: seq<Action>, ys: seq<Action>)
    ensures Exec(s, xs + ys) == Exec(Exec(s, xs), ys)
  {
    if ys == [] {
      AppendEmpty(xs);
    } else {
      ExecAppend(s, xs, ys[..|ys| - 1]);
      TakeSnoc(ys, |ys| - 1);
      TakeAll(ys);
      ConcatAssoc(xs, ys[..|ys| - 1], [ys[|ys| - 1]]);
      SnocInit(xs + ys[..|ys| - 1], ys[|ys| - 1]);
    }
  }

  function Inserts(rows: seq<Row>): seq<Action> {
    seq(|rows|, i requires 0 <= i < |rows| => Insert(rows[i]))
  }

  lemma {:induction false} ExecInserts(s: State, rows: seq<Row>)
    ensures Exec(s, Inserts(rows)) == s.(rows := s.rows + rows, nextId := s.nextId + |rows|)
  {
    if rows == [] {
      AppendEmpty(s.rows);
    } else {
      var init, last := rows[..|rows| - 1], rows[|rows| - 1];
      ExecInserts(s, init);
      assert Inserts(rows)[..|rows| - 1] == Inserts(init);
      TakeSnoc(rows, |rows| - 1);
      TakeAll(rows);
      ConcatAssoc(s.rows, init, [last]);
    }
  }

  // ---------------------------------------------------------------- the operations

  /** What an operation is given by its surroundings: a fresh file id, the times of the write and of the
      status update, the embedding service, and the configured size of its batches. */
  datatype Env = Env(fileId: string, mtime: real, now: real, embed: string -> Embedding, batchSize: int)

  datatype Op =
    | Create(path: DocPath, content: string)
    | Update(path: DocPath, content: string, expectedMtime: Option<real>)
    | Delete(path: DocPath)
    | Reindex(path: DocPath)

  /** The file changed on disk since the caller read it; times within a second count as equal. */
  predicate Conflict(file: File, expectedMtime: Option<real>) {
    expectedMtime.Some? && (file.mtime - expectedMtime.value > 1.0 || expectedMtime.value - file.mtime > 1.0)
  }

  /** The checks before the operation touches anything. */
  predicate Begins(s: State, op: Op) {
    match op
    case Create(p, _) => p !in s.files
    case Update(p, _, expected) => p in s.files && !Conflict(s.files[p], expected)
    case Delete(p) => p in s.files
    case Reindex(p) => p in s.files
  }

  function SourceOf(op: Op): Option<Source> {
    if op.Create? then Some(Browser) else None
  }

  function StartUpdate(op: Op): StatusUpdate {
    StatusUpdate(Processing, false, None, SourceOf(op), None, None)
  }

  function ErrorUpdate(op: Op): StatusUpdate {
    StatusUpdate(Error, true, None, SourceOf(op), None, None)
  }

  function DoneUpdate(op: Op, plan: Plan): StatusUpdate {
    StatusUpdate(InSync, false, Some(plan.count), SourceOf(op), Some(plan.file.mtime), Some(plan.now))
  }

  /** What an operation sets out to leave behind: the document's file, the rows to insert, and the number
      of chunks it records. */
  datatype Plan = Plan(file: File, rows: seq<Row>, count: nat, now: real)

  /** With a negative batch size the embedding call returns nothing.  A streamed document then inserts no
      row; a small one fails on the first missing embedding. */
  predicate InsertsAll(env: Env, stored: string) {
    env.batchSize >= 0 || !IsLarge(stored)
  }

  /** The plan for a document with this content, stored in this file. */
  function DocumentPlan(p: DocPath, content: string, file: File, firstId: nat, env: Env): Plan {
    var full := FullRows(p, content, file.text, env.fileId, firstId, env.embed);
    Plan(file, if InsertsAll(env, file.text) then full else [], |full|, env.now)
  }

  function PlanOf(s: State, op: Op, env: Env): Plan
    requires Begins(s, op)
  {
    match op
    case Create(p, content) => DocumentPlan(p, content, File(content, env.mtime), s.nextId, env)
    case Update(p, content, _) => DocumentPlan(p, content, File(content, env.mtime), s.nextId, env)
    case Delete(p) => Plan(s.files[p], [], 0, env.now)
    case Reindex(p) => DocumentPlan(p, ReadText(s.files[p].text), s.files[p], s.nextId, env)
  }

  function Head(op: Op, plan: Plan): seq<Action> {
    match op
    case Create(p, _) => [Query, Write(p, plan.file), Query, Query]
    case Update(p, _, _) => [Rename(p, BackupName(p)), Write(p, plan.file), DropRows(p), Query, Query]
    case Delete(p) => [Rename(p, DeletedName(p)), DropRows(p)]
    case Reindex(p) => [Query, DropRows(p), Query, Query]
  }

  function Last(op: Op, plan: Plan): seq<Action> {
    match op
    case Create(p, _) => [Query, SetStatus(p, DoneUpdate(op, plan)), Query]
    case Update(p, _, _) => [Unlink(BackupName(p)), Query, SetStatus(p, DoneUpdate(op, plan)), Query]
    case Delete(p) => [Unlink(DeletedName(p)), DropStatus(p)]
    case Reindex(p) => [Query, SetStatus(p, DoneUpdate(op, plan)), Query]
  }

  /** All steps of an operation: prepare, insert the rows one by one, finish. */
  function Script(op: Op, plan: Plan): seq<Action> {
    Head(op, plan) + Inserts(plan.rows) + Last(op, plan)
  }

  function Started(s: State, op: Op): State {
    Apply(s, SetStatus(op.path, StartUpdate(op)))
  }

  /** What the exception handler makes of the files. */
  function RollbackFiles(files: map<DocPath, File>, op: Op): map<DocPath, File> {
    match op
    case Create(p, _) => files - {p}
    case Update(p, _, _) => Moved(files - {p}, BackupName(p), p)
    case Delete(p) => Moved(files, DeletedName(p), p)
    case Reindex(_) => files
  }

  /** The exception handler before its status write, */
  function Restored(s: State, op: Op): State {
    s.(files := RollbackFiles(s.files, op))
  }

  /** and after it. */
  function Rollback(s: State, op: Op): State {
    Restored(s, op).(statuses := Upsert(s.statuses, op.path, ErrorUpdate(op)))
  }

  /** The operation ran all its steps. */
  ghost predicate Completed(s: State, op: Op, plan: Plan, s': State) {
    Begins(s, op) && s' == Exec(Started(s, op), Script(op, plan))
  }

  /** The operation threw at step `k` and was rolled back. */
  ghost predicate FailedAt(s: State, op: Op, plan: Plan, k: nat, s': State) {
    && Begins(s, op) && k < |Script(op, plan)|
    && s' == Rollback(Exec(Started(s, op), Script(op, plan)[..k]), op)
  }

  /** The operation threw at step `k`, and then the status write of its handler threw or was cancelled. */
  ghost predicate BrokenAt(s: State, op: Op, plan: Plan, k: nat, s': State) {
    && Begins(s, op) && k < |Script(op, plan)|
    && s' == Restored(Exec(Started(s, op), Script(op, plan)[..k]), op)
  }

  /** The handler restored the files, whatever became of its status write. */
  ghost predicate RolledBackAt(s: State, op: Op, plan: Plan, k: nat, s': State) {
    FailedAt(s, op, plan, k, s') || BrokenAt(s, op, plan, k, s')
  }

  /** Everything a call can do if its handler can write its status: run to the end, fail at some step, or be
      refused before it starts (by a check, or because the first status write throws). */
  ghost predicate Stepped(s: State, op: Op, plan: Plan, s': State) {
    || Completed(s, op, plan, s')
    || (exists k: nat :: FailedAt(s, op, plan, k, s'))
    || s' == s
  }

  /** Renaming, writing and removing files are not awaited. */
  predicate Awaited(a: Action) {
    !a.Rename? && !a.Write? && !a.Unlink?
  }

  /** The call was cancelled while it awaited something, with `k` steps done: in the first status write, or
      in an awaited step before or after its effect.  No handler runs. */
  ghost predicate CancelledAt(s: State, op: Op, plan: Plan, k: nat, s': State) {
    var script := Script(op, plan);
    && Begins(s, op) && k <= |script|
    && (k == 0 || Awaited(script[k - 1]) || (k < |script| && Awaited(script[k])))
    && s' == Exec(Started(s, op), script[..k])
  }

  ghost predicate Completes(s: State, op: Op, env: Env, s': State) {
    Begins(s, op) && Completed(s, op, PlanOf(s, op, env), s')
  }

  ghost predicate FailsAt(s: State, op: Op, env: Env, k: nat, s': State) {
    Begins(s, op) && FailedAt(s, op, PlanOf(s, op, env), k, s')
  }

  ghost predicate CancelsAt(s: State, op: Op, env: Env, k: nat, s': State) {
    Begins(s, op) && CancelledAt(s, op, PlanOf(s, op, env), k, s')
  }

  ghost predicate BreaksAt(s: State, op: Op, env: Env, k: nat, s': State) {
    Begins(s, op) && BrokenAt(s, op, PlanOf(s, op, env), k, s')
  }

  ghost predicate Cancels(s: State, op: Op, env: Env, s': State) {
    exists k: nat :: CancelsAt(s, op, env, k, s')
  }

  ghost predicate Step(s: State, op: Op, env: Env, s': State) {
    s' == s || (Begins(s, op) && Stepped(s, op, PlanOf(s, op, env), s'))
  }
}
