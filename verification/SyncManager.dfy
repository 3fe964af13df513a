/** The document operations as they run (`sync_manager.py`): every step may throw, and each operation
    either completes its script or is rolled back from the step that threw. */
module SyncManager {
  import opened Text
  import opened Paths
  import opened Chunking
  import opened Streaming
  import opened Embeddings
  import opened ChunkRows
  import opened ChunkInsert
  import opened SyncModel
  import opened SyncProofs

  /** What throws during one call: the first status write, the numbered steps of its script, embedding calls,
      row inserts, and the status write of its handler. */
  datatype Faults = Faults(
    first: bool,
    step: nat -> bool,
    embed: (nat, nat) -> bool,
    insert: nat -> bool,
    handler: bool)

  datatype Outcome = Done | Failed | Refused

  /** Do the embedding calls give the vectors that are asked for?  A zero batch size throws, a negative one
      gives none, and only the streamed form asks for no more than it gets. */
  predicate Embeds(f: Faults, batchSize: int, n: nat, large: bool) {
    if batchSize > 0 then AllServed(f.embed, batchSize, 0, n) else batchSize < 0 && large
  }

  /** Does step `k` of the script throw?  The last step of the head embeds, the next ones insert. */
  predicate StepThrows(op: Op, plan: Plan, f: Faults, batchSize: int, k: nat) {
    var h, n := |Head(op, plan)|, |plan.rows|;
    if !op.Delete? && k == h - 1 then !Embeds(f, batchSize, plan.count, IsLarge(plan.file.text))
    else if h <= k < h + n then f.insert(k - h)
    else f.step(k)
  }

  /** The first `k` steps do not throw. */
  ghost predicate Reaches(op: Op, plan: Plan, f: Faults, batchSize: int, k: nat) {
    forall i :: 0 <= i < k ==> !StepThrows(op, plan, f, batchSize, i)
  }

  /** Step `k` is the first that throws, or the end of the script. */
  ghost predicate Stops(op: Op, plan: Plan, f: Faults, batchSize: int, k: nat) {
    && k <= |Script(op, plan)| && Reaches(op, plan, f, batchSize, k)
    && (k < |Script(op, plan)| ==> StepThrows(op, plan, f, batchSize, k))
  }

  class Manager {
    const table: DocumentsTable
    const embed: string -> Embedding
    const batchSize: int
    var files: map<DocPath, File>
    var statuses: map<DocPath, StatusRow>

    constructor (embed: string -> Embedding, batchSize: int)
      ensures fresh(table) && this.embed == embed && this.batchSize == batchSize
      ensures View() == State(map[], [], 0, map[])
    {
      table := new DocumentsTable();
      this.embed, this.batchSize := embed, batchSize;
      files, statuses := map[], map[];
    }

    function View(): State
      reads this, table
    {
      State(files, table.rows, table.nextId, statuses)
    }

    /** The upsert: a missing count is stored as 0 and a missing source as the file system; a missing time
        keeps the one that was there. */
    method UpdateSyncStatus(p: DocPath, u: StatusUpdate)
      modifies this`statuses
      ensures statuses == Upsert(old(statuses), p, u)
      ensures p in statuses && statuses[p].status == u.status && statuses[p].failed == u.failed
      ensures u.chunkCount.None? ==> statuses[p].chunkCount == 0
      ensures u.chunkCount.Some? ==> statuses[p].chunkCount == u.chunkCount.value
      ensures u.source.None? ==> statuses[p].source == Filesystem
      ensures u.source.Some? ==> statuses[p].source == u.source.value
      ensures u.filesystemMtime.Some? || p !in old(statuses) ==> statuses[p].filesystemMtime == u.filesystemMtime
      ensures u.databaseMtime.Some? || p !in old(statuses) ==> statuses[p].databaseMtime == u.databaseMtime
      ensures p in old(statuses) && u.filesystemMtime.None? ==>
                statuses[p].filesystemMtime == old(statuses[p].filesystemMtime)
      ensures p in old(statuses) && u.databaseMtime.None? ==>
                statuses[p].databaseMtime == old(statuses[p].databaseMtime)
      ensures statuses - {p} == old(statuses) - {p}
    {
      var fs0, db0 := None, None;
      if p in statuses {
        fs0, db0 := statuses[p].filesystemMtime, statuses[p].databaseMtime;
      }
      statuses := statuses[p := StatusRow(
        u.status,
        u.failed,
        if u.chunkCount.Some? then u.chunkCount.value else 0,
        if u.source.Some? then u.source.value else Filesystem,
        if u.filesystemMtime.Some? then u.filesystemMtime else fs0,
        if u.databaseMtime.Some? then u.databaseMtime else db0)];
    }

    /** A write that throws may leave nothing, or any beginning of the text. */
    method WriteText(p: DocPath, text: string, mtime: real, throws: bool)
      modifies this`files
      ensures !throws ==> files == old(files)[p := File(text, mtime)]
      ensures throws ==> files - {p} == old(files) - {p}
    {
      if !throws {
        files := files[p := File(text, mtime)];
      } else {
        var created: bool := *;
        if created {
          var written: nat := *;
          files := files[p := File(Slice(text, 0, written), mtime)];
        }
      }
    }

    method RenameFile(src: DocPath, dst: DocPath)
      requires src in files
      modifies this`files
      ensures files == Moved(old(files), src, dst)
    {
      files := files[dst := files[src]] - {src};
    }

    method UnlinkIfExists(p: DocPath)
      modifies this`files
      ensures files == old(files) - {p}
    {
      if p in files {
        files := files - {p};
      }
    }

    /** The rows of one document, streamed or hierarchical, up to the first fault; `at` is the step that looks
        at the file's size. */
    method ChunkAndInsert(p: DocPath, content: string, env: Env, faults: Faults, at: nat, ghost firstId: nat,
                          ghost plan: Plan)
      returns (count: Option<nat>, n: nat)
      requires p in files && files[p] == plan.file && table.nextId == firstId
      requires env.embed == embed && env.batchSize == batchSize
      requires plan == DocumentPlan(p, content, plan.file, firstId, env)
      modifies table
      ensures var goes := !faults.step(at) && Embeds(faults, batchSize, plan.count, IsLarge(plan.file.text));
              && n == (if goes then FirstThrow(faults.insert, |plan.rows|) else 0)
              && count == (if goes && n == |plan.rows| then Some(plan.count) else None)
      ensures table.rows == old(table.rows) + plan.rows[..n] && table.nextId == old(table.nextId) + n
    {
      AppendEmpty(table.rows);
      if faults.step(at) {
        return None, 0;
      }
      if IsLarge(files[p].text) {
        count, n := ProcessLargeFile(p, env.fileId, faults);
      } else {
        count, n := InsertHierarchy(p, content, env.fileId, faults);
      }
    }

    method InsertHierarchy(p: DocPath, content: string, fileId: string, faults: Faults)
      returns (count: Option<nat>, n: nat)
      modifies table
      ensures var rows := OwnRows(HierarchyBatch(content, p, fileId), old(table.nextId), embed);
              var goes := Embeds(faults, batchSize, |rows|, false);
              && n == (if goes then FirstThrow(faults.insert, |rows|) else 0)
              && count == (if goes && n == |rows| then Some(|rows|) else None)
              && table.rows == old(table.rows) + rows[..n] && table.nextId == old(table.nextId) + n
    {
      AppendEmpty(table.rows);
      var chunks := ChunkDocumentHierarchical(content, p, fileId);
      HierarchyByLevel(content, p, fileId);
      ghost var b := ByLevel(chunks);
      BatchedRefinesOneByOne(b, table.nextId, embed, embed);
      AllTextsLength(b);
      var before := table.nextId;
      var ok := InsertBatched(table, chunks, batchSize, embed, faults.embed, faults.insert);
      n := table.nextId - before;
      count := if ok then Some(|chunks|) else None;
    }

    method ProcessLargeFile(p: DocPath, fileId: string, faults: Faults) returns (count: Option<nat>, n: nat)
      requires p in files
      modifies table
      ensures var full := OwnRows(StreamBatch(OneShot(ReadText(files[p].text)), p, fileId), old(table.nextId), embed);
              var rows := if batchSize < 0 then [] else full;
              var goes := Embeds(faults, batchSize, |full|, true);
              && n == (if goes then FirstThrow(faults.insert, |rows|) else 0)
              && count == (if goes && n == |rows| then Some(|full|) else None)
              && table.rows == old(table.rows) + rows[..n] && table.nextId == old(table.nextId) + n
    {
      var blocks := ReadBlocks(ReadText(files[p].text));
      var texts := ChunkBlocks(blocks);
      count, n := InsertTexts(texts, p, fileId, faults);
    }

    /** Embedding the streamed texts, then one row for each pair of a text and a vector. */
    method InsertTexts(texts: seq<string>, p: DocPath, fileId: string, faults: Faults)
      returns (count: Option<nat>, n: nat)
      modifies table
      ensures var full := OwnRows(StreamBatch(texts, p, fileId), old(table.nextId), embed);
              var rows := if batchSize < 0 then [] else full;
              var goes := Embeds(faults, batchSize, |full|, true);
              && n == (if goes then FirstThrow(faults.insert, |rows|) else 0)
              && count == (if goes && n == |rows| then Some(|full|) else None)
              && table.rows == old(table.rows) + rows[..n] && table.nextId == old(table.nextId) + n
    {
      AppendEmpty(table.rows);
      var b := StreamBatch(texts, p, fileId);
      StreamBatchShape(texts, p, fileId);
      var r := GetEmbeddingsBatch(texts, batchSize, embed, faults.embed);
      if r.Err? {
        return None, 0;
      }
      if batchSize < 0 {
        // zipped with no vectors, the loop inserts nothing
        return Some(|texts|), 0;
      }
      var before := table.nextId;
      var ok := InsertLevels(table, b, r.value, faults.insert);
      n := table.nextId - before;
      count := if ok then Some(|texts|) else None;
    }

    /** `f.read(chunk_size)` until it returns nothing. */
    method ReadBlocks(text: string) returns (blocks: seq<string>)
      ensures Flatten(blocks) == text
    {
      blocks := [];
      var at := 0;
      while at < |text|
        invariant at <= |text| && Flatten(blocks) == text[..at]
      {
        var end := if at + CHUNK_SIZE < |text| then at + CHUNK_SIZE else |text|;
        FlattenSnoc(blocks, text[at..end]);
        assert text[..at] + text[at..end] == text[..end];
        blocks, at := blocks + [text[at..end]], end;
      }
    }

    // ---------------------------------------------------------------- the four operations

    /** The status row an operation writes before its try block. */
    method WriteFirstStatus(op: Op)
      modifies this`statuses
      ensures View() == Started(old(View()), op)
    {
      UpdateSyncStatus(op.path, StartUpdate(op));
    }

    /** The exception handlers; their status write may throw, too. */
    method HandleFailure(op: Op, throws: bool)
      modifies this
      ensures View() == if throws then Restored(old(View()), op) else Rollback(old(View()), op)
    {
      match op {
        case Create(p, _) =>
          UnlinkIfExists(p);
        case Update(p, _, _) =>
          UnlinkIfExists(p);
          if BackupName(p) in files {
            RenameFile(BackupName(p), p);
          }
        case Delete(p) =>
          if DeletedName(p) in files {
            RenameFile(DeletedName(p), p);
          }
        case Reindex(_) =>
      }
      if !throws {
        UpdateSyncStatus(op.path, ErrorUpdate(op));
      }
    }

    /** The closing steps the operations share, from step `at` on: read the modification time, write IN_SYNC,
        read it back. */
    method Finish(op: Op, count: nat, env: Env, faults: Faults, at: nat, ghost plan: Plan)
      returns (ok: bool, ghost j: nat)
      requires op.path in files && files[op.path] == plan.file && count == plan.count && plan.now == env.now
      modifies this`statuses
      ensures j <= 3 && (ok <==> j == 3)
      ensures (forall i :: at <= i < at + j ==> !faults.step(i)) && (j < 3 ==> faults.step(at + j))
      ensures statuses == if j < 2 then old(statuses) else Upsert(old(statuses), op.path, DoneUpdate(op, plan))
    {
      if faults.step(at) { return false, 0; }
      var mtime := files[op.path].mtime;
      if faults.step(at + 1) { return false, 1; }
      UpdateSyncStatus(op.path, StatusUpdate(InSync, false, Some(count), SourceOf(op), Some(mtime), Some(env.now)));
      if faults.step(at + 2) { return false, 2; }
      return true, 3;
    }

    /** The rows of a prepared document; `h` is the length of the operation's head. */
    method InsertRows(op: Op, content: string, env: Env, faults: Faults, h: nat, ghost s0: State, ghost plan: Plan)
      returns (count: Option<nat>, n: nat, ghost k: nat)
      requires !op.Delete? && env.embed == embed && env.batchSize == batchSize && h == |Head(op, plan)|
      requires Prepared(s0, op, plan, View()) && Reaches(op, plan, faults, batchSize, h - 2)
      requires plan == DocumentPlan(op.path, content, plan.file, s0.nextId, env)
      modifies table
      ensures count.None? ==> Stopped(false, k, s0, op, plan, faults, batchSize, View())
      ensures count.Some? ==> RowsIn(s0, op, plan, View()) && n == |plan.rows| && count.value == plan.count
      ensures count.Some? ==> Reaches(op, plan, faults, batchSize, h + n)
    {
      ghost var before := table.rows;
      count, n := ChunkAndInsert(op.path, content, env, faults, h - 2, s0.nextId, plan);
      AddedView(files, statuses, before, s0.nextId, table.rows, table.nextId, plan, n);
      k := InsertsStop(s0, op, plan, faults, batchSize, count, n, State(files, before, s0.nextId, statuses), View());
    }

    /** Create and reindex from the end of their head on: the rows, then the closing steps. */
    method InsertAndFinish(op: Op, content: string, env: Env, faults: Faults, ghost s0: State, ghost plan: Plan)
      returns (ok: bool, ghost k: nat)
      requires (op.Create? || op.Reindex?) && env.embed == embed && env.batchSize == batchSize
      requires Prepared(s0, op, plan, View()) && plan.now == env.now && Reaches(op, plan, faults, batchSize, 2)
      requires plan == DocumentPlan(op.path, content, plan.file, s0.nextId, env)
      modifies this, table
      ensures Stopped(ok, k, s0, op, plan, faults, batchSize, View())
    {
      var count, n;
      count, n, k := InsertRows(op, content, env, faults, 4, s0, plan);
      ok := false;
      if count.Some? {
        ok, k := CloseOthers(op, count.value, env, faults, 4 + n, s0, plan);
      }
    }

    /** The closing steps of create and reindex. */
    method CloseOthers(op: Op, count: nat, env: Env, faults: Faults, at: nat, ghost s0: State, ghost plan: Plan)
      returns (ok: bool, ghost k: nat)
      requires (op.Create? || op.Reindex?) && RowsIn(s0, op, plan, View()) && count == plan.count && plan.now == env.now
      requires at == |Head(op, plan)| + |plan.rows| && Reaches(op, plan, faults, batchSize, at)
      modifies this`statuses
      ensures Stopped(ok, k, s0, op, plan, faults, batchSize, View())
    {
      ghost var j;
      ok, j := Finish(op, count, env, faults, at, plan);
      ClosingStop(op, plan, faults, batchSize, at, j);
      k := at + j;
      AtClosing(s0, op, plan, j, View());
    }

    method CreateDocumentAtomic(p: DocPath, content: string, env: Env, faults: Faults)
      returns (outcome: Outcome, ghost k: nat)
      requires env.embed == embed && env.batchSize == batchSize
      modifies this, table
      ensures Ran(old(View()), Create(p, content), env, faults, outcome, k, View())
      ensures outcome == Refused <==> p in old(files) || faults.first
      ensures outcome == Refused ==> View() == old(View())
    {
      var op := Create(p, content);
      outcome, k := Refused, 0;
      if p !in files && !faults.first {
        ghost var s := View();
        WriteFirstStatus(op);
        var ok;
        ok, k := TryCreate(op, env, faults, Started(s, op), PlanFor(s, op, env));
        outcome := Conclude(ok, k, s, op, env, faults);
      }
    }

    /** Creating the parent directory and writing the file. */
    method PrepareCreate(op: Op, env: Env, faults: Faults, ghost s0: State, ghost plan: Plan)
      returns (ok: bool, ghost k: nat)
      requires op.Create? && View() == s0 && plan.file == File(op.content, env.mtime)
      modifies this`files
      ensures ok ==> Prepared(s0, op, plan, View()) && Reaches(op, plan, faults, batchSize, 2)
      ensures !ok ==> Stopped(false, k, s0, op, plan, faults, batchSize, View())
    {
      EarlySteps(op, plan, faults, batchSize);
      if faults.step(0) { return false, 0; }
      WriteText(op.path, op.content, env.mtime, faults.step(1));
      return !faults.step(1), 1;
    }

    method TryCreate(op: Op, env: Env, faults: Faults, ghost s0: State, ghost plan: Plan)
      returns (ok: bool, ghost k: nat)
      requires op.Create? && env.embed == embed && env.batchSize == batchSize && View() == s0
      requires plan.file == File(op.content, env.mtime) && plan.now == env.now
      requires plan == DocumentPlan(op.path, op.content, plan.file, s0.nextId, env)
      modifies this, table
      ensures Stopped(ok, k, s0, op, plan, faults, batchSize, View())
    {
      ok, k := PrepareCreate(op, env, faults, s0, plan);
      if ok {
        ok, k := InsertAndFinish(op, op.content, env, faults, s0, plan);
      }
    }

    /** Success, or the exception handler. */
    method Conclude(ok: bool, ghost k: nat, ghost s: State, op: Op, ghost env: Env, faults: Faults)
      returns (outcome: Outcome)
      requires Begins(s, op) && !faults.first && env.batchSize == batchSize
      requires Stopped(ok, k, Started(s, op), op, PlanOf(s, op, env), faults, batchSize, View())
      modifies this
      ensures Ran(s, op, env, faults, outcome, k, View())
    {
      if ok {
        CompletesFrom(s, op, env, View());
        return Done;
      }
      HandleFailure(op, faults.handler);
      FailsFrom(s, op, env, k, faults.handler, View());
      return Failed;
    }

    /** Moving the document to its backup, writing the new text, dropping the old rows. */
    method PrepareUpdate(op: Op, env: Env, faults: Faults, ghost s0: State, ghost plan: Plan)
      returns (ok: bool, ghost k: nat)
      requires op.Update? && op.path in files && View() == s0 && plan.file == File(op.content, env.mtime)
      modifies this, table
      ensures ok ==> Prepared(s0, op, plan, View()) && Reaches(op, plan, faults, batchSize, 3)
      ensures !ok ==> Stopped(false, k, s0, op, plan, faults, batchSize, View())
    {
      EarlySteps(op, plan, faults, batchSize);
      var p := op.path;
      BackupNamesDiffer(p);
      if faults.step(0) { return false, 0; }
      RenameFile(p, BackupName(p));
      WriteText(p, op.content, env.mtime, faults.step(1));
      if faults.step(1) { return false, 1; }
      if faults.step(2) { return false, 2; }
      table.Delete(p);
      return true, 3;
    }

    method TryUpdate(op: Op, env: Env, faults: Faults, ghost s0: State, ghost plan: Plan)
      returns (ok: bool, ghost k: nat)
      requires op.Update? && op.path in files && env.embed == embed && env.batchSize == batchSize && View() == s0
      requires plan.file == File(op.content, env.mtime) && plan.now == env.now
      requires plan == DocumentPlan(op.path, op.content, plan.file, s0.nextId, env)
      modifies this, table
      ensures Stopped(ok, k, s0, op, plan, faults, batchSize, View())
    {
      ok, k := PrepareUpdate(op, env, faults, s0, plan);
      if ok {
        ok, k := InsertAndClose(op, env, faults, s0, plan);
      }
    }

    /** The rows of the updated document, then the removal of the backup and the closing steps. */
    method InsertAndClose(op: Op, env: Env, faults: Faults, ghost s0: State, ghost plan: Plan)
      returns (ok: bool, ghost k: nat)
      requires op.Update? && env.embed == embed && env.batchSize == batchSize
      requires Prepared(s0, op, plan, View()) && plan.now == env.now && Reaches(op, plan, faults, batchSize, 3)
      requires plan == DocumentPlan(op.path, op.content, plan.file, s0.nextId, env)
      modifies this, table
      ensures Stopped(ok, k, s0, op, plan, faults, batchSize, View())
    {
      var count, n;
      count, n, k := InsertRows(op, op.content, env, faults, 5, s0, plan);
      ok := false;
      if count.Some? {
        ok, k := CloseUpdate(op, count.value, env, faults, 5 + n, s0, plan);
      }
    }

    /** Removing the backup, then the shared closing steps. */
    method CloseUpdate(op: Op, count: nat, env: Env, faults: Faults, at: nat, ghost s0: State, ghost plan: Plan)
      returns (ok: bool, ghost k: nat)
      requires op.Update? && RowsIn(s0, op, plan, View()) && count == plan.count && plan.now == env.now
      requires at == |Head(op, plan)| + |plan.rows| && Reaches(op, plan, faults, batchSize, at)
      modifies this
      ensures Stopped(ok, k, s0, op, plan, faults, batchSize, View())
    {
      ok := false;
      ghost var j := 0;
      if !faults.step(at) {
        BackupNamesDiffer(op.path);
        UnlinkIfExists(BackupName(op.path));
        ok, j := Finish(op, count, env, faults, at + 1, plan);
        j := j + 1;
      }
      ClosingStop(op, plan, faults, batchSize, at, j);
      k := at + j;
      AtClosing(s0, op, plan, j, View());
    }

    method UpdateDocumentAtomic(p: DocPath, content: string, expectedMtime: Option<real>, env: Env, faults: Faults)
      returns (outcome: Outcome, ghost k: nat)
      requires env.embed == embed && env.batchSize == batchSize
      modifies this, table
      ensures Ran(old(View()), Update(p, content, expectedMtime), env, faults, outcome, k, View())
      ensures outcome == Refused
         <==> || p !in old(files) || faults.first
              || (expectedMtime.Some? && (|| old(files)[p].mtime - expectedMtime.value > 1.0
                                          || expectedMtime.value - old(files)[p].mtime > 1.0))
      ensures outcome == Refused ==> View() == old(View())
    {
      var op := Update(p, content, expectedMtime);
      outcome, k := Refused, 0;
      if p in files && !Conflict(files[p], expectedMtime) && !faults.first {
        ghost var s := View();
        WriteFirstStatus(op);
        var ok;
        ok, k := TryUpdate(op, env, faults, Started(s, op), PlanFor(s, op, env));
        outcome := Conclude(ok, k, s, op, env, faults);
      }
    }

    method TryDelete(p: DocPath, faults: Faults, ghost s0: State, ghost plan: Plan) returns (ok: bool, ghost k: nat)
      requires p in files && View() == s0 && plan.rows == []
      modifies this, table
      ensures Stopped(ok, k, s0, Delete(p), plan, faults, batchSize, View())
    {
      DeleteStates(s0, Delete(p), plan);
      DeleteSteps(Delete(p), plan, faults, batchSize);
      if faults.step(0) { return false, 0; }
      RenameFile(p, DeletedName(p));
      if faults.step(1) { return false, 1; }
      table.Delete(p);
      if faults.step(2) { return false, 2; }
      UnlinkIfExists(DeletedName(p));
      if faults.step(3) { return false, 3; }
      statuses := statuses - {p};
      return true, 4;
    }

    method DeleteDocumentAtomic(p: DocPath, env: Env, faults: Faults) returns (outcome: Outcome, ghost k: nat)
      requires env.batchSize == batchSize
      modifies this, table
      ensures Ran(old(View()), Delete(p), env, faults, outcome, k, View())
      ensures outcome == Refused <==> p !in old(files) || faults.first
      ensures outcome == Refused ==> View() == old(View())
    {
      outcome, k := Refused, 0;
      if p in files && !faults.first {
        ghost var s := View();
        WriteFirstStatus(Delete(p));
        var ok;
        ok, k := TryDelete(p, faults, Started(s, Delete(p)), PlanOf(s, Delete(p), env));
        outcome := Conclude(ok, k, s, Delete(p), env, faults);
      }
    }

    /** Reading the file and dropping its old rows. */
    method PrepareReindex(op: Op, faults: Faults, ghost s0: State, ghost plan: Plan)
      returns (ok: bool, content: string, ghost k: nat)
      requires op.Reindex? && op.path in files && View() == s0 && plan.file == files[op.path]
      modifies table
      ensures ok ==> Prepared(s0, op, plan, View()) && Reaches(op, plan, faults, batchSize, 2)
      ensures ok ==> content == ReadText(plan.file.text)
      ensures !ok ==> Stopped(false, k, s0, op, plan, faults, batchSize, View())
    {
      EarlySteps(op, plan, faults, batchSize);
      if faults.step(0) { return false, "", 0; }
      content := ReadText(files[op.path].text);
      if faults.step(1) { return false, content, 1; }
      table.Delete(op.path);
      return true, content, 2;
    }

    method TryReindex(op: Op, env: Env, faults: Faults, ghost s0: State, ghost plan: Plan)
      returns (ok: bool, ghost k: nat)
      requires op.Reindex? && op.path in files && env.embed == embed && env.batchSize == batchSize && View() == s0
      requires plan.file == files[op.path] && plan.now == env.now
      requires plan == DocumentPlan(op.path, ReadText(plan.file.text), plan.file, s0.nextId, env)
      modifies this, table
      ensures Stopped(ok, k, s0, op, plan, faults, batchSize, View())
    {
      var content;
      ok, content, k := PrepareReindex(op, faults, s0, plan);
      if ok {
        ok, k := InsertAndFinish(op, content, env, faults, s0, plan);
      }
    }

    method ReindexDocument(p: DocPath, env: Env, faults: Faults) returns (outcome: Outcome, ghost k: nat)
      requires env.embed == embed && env.batchSize == batchSize
      modifies this, table
      ensures Ran(old(View()), Reindex(p), env, faults, outcome, k, View())
      ensures outcome == Refused <==> p !in old(files) || faults.first
      ensures outcome == Refused ==> View() == old(View())
    {
      var op := Reindex(p);
      outcome, k := Refused, 0;
      if p in files && !faults.first {
        ghost var s := View();
        WriteFirstStatus(op);
        var ok;
        ok, k := TryReindex(op, env, faults, Started(s, op), PlanFor(s, op, env));
        outcome := Conclude(ok, k, s, op, env, faults);
      }
    }
  }

  /** Where a try block stopped: at the first step that throws, or at the end of the script; its handler
      restores the same state as from the state the script has there. */
  ghost predicate Stopped(ok: bool, k: nat, s0: State, op: Op, plan: Plan, f: Faults, batchSize: int, s': State) {
    && Stops(op, plan, f, batchSize, k) && (ok <==> k == |Script(op, plan)|)
    && (ok ==> s' == StateAt(s0, op, plan, k))
    && (!ok ==> Restored(s', op) == Restored(StateAt(s0, op, plan, k), op))
  }

  /** The head is done: the document's file is in place and its old rows are gone. */
  ghost predicate Prepared(s0: State, op: Op, plan: Plan, s': State) {
    && s' == HeadState(s0, op, plan, |Head(op, plan)|) && s'.nextId == s0.nextId
    && op.path in s'.files && s'.files[op.path] == plan.file
  }

  /** `n` more of the planned rows are in. */
  function Added(head: State, plan: Plan, n: nat): State
    requires n <= |plan.rows|
  {
    head.(rows := head.rows + plan.rows[..n], nextId := head.nextId + n)
  }

  lemma AddedView(files: map<DocPath, File>, statuses: map<DocPath, StatusRow>, rows: seq<Row>, nextId: nat,
                  rows': seq<Row>, nextId': nat, plan: Plan, n: nat)
    requires n <= |plan.rows| && rows' == rows + plan.rows[..n] && nextId' == nextId + n
    ensures State(files, rows', nextId', statuses) == Added(State(files, rows, nextId, statuses), plan, n)
  {
  }

  /** All planned rows are in. */
  ghost predicate RowsIn(s0: State, op: Op, plan: Plan, s': State) {
    && s' == MiddleState(s0, op, plan, |plan.rows|)
    && op.path in s'.files && s'.files[op.path] == plan.file
  }

  /** How a call ends, and what it leaves.  It is refused exactly if a check fails or its first status write
      throws; otherwise it runs its script to the end or to the first step that throws. */
  ghost predicate Ran(s: State, op: Op, env: Env, faults: Faults, outcome: Outcome, k: nat, s': State) {
    if !Begins(s, op) || faults.first then outcome == Refused && s' == s
    else
      var plan := PlanOf(s, op, env);
      && Stops(op, plan, faults, env.batchSize, k)
      && outcome == (if k == |Script(op, plan)| then Done else Failed)
      && (if k == |Script(op, plan)| then Completes(s, op, env, s')
          else if faults.handler then BreaksAt(s, op, env, k, s')
          else FailsAt(s, op, env, k, s'))
  }

  /** The plan of an operation on a document. */
  ghost function PlanFor(s: State, op: Op, env: Env): (plan: Plan)
    requires Begins(s, op) && !op.Delete?
    ensures plan == PlanOf(s, op, env) && plan.now == env.now
    ensures op.Reindex? ==>
              plan.file == s.files[op.path]
              && plan == DocumentPlan(op.path, ReadText(plan.file.text), plan.file, s.nextId, env)
    ensures !op.Reindex? ==>
              plan.file == File(op.content, env.mtime)
              && plan == DocumentPlan(op.path, op.content, plan.file, s.nextId, env)
  {
    PlanOf(s, op, env)
  }

  lemma AllTextsLength(b: Batch)
    ensures |b.documents| <= 1 ==> |b.AllTexts()| == |b.Inserted()|
  {
  }

  // ---------------------------------------------------------------- which step throws

  lemma ScriptLength(op: Op, plan: Plan)
    ensures |Script(op, plan)| == |Head(op, plan)| + |plan.rows| + |Last(op, plan)|
  {
  }

  /** The steps before the file's size is looked at throw as the oracle says. */
  lemma EarlySteps(op: Op, plan: Plan, f: Faults, batchSize: int)
    requires !op.Delete?
    ensures forall k :: 0 <= k < |Head(op, plan)| - 1 ==> StepThrows(op, plan, f, batchSize, k) == f.step(k)
    ensures |Script(op, plan)| >= |Head(op, plan)|
  {
    ScriptLength(op, plan);
  }

  lemma DeleteSteps(op: Op, plan: Plan, f: Faults, batchSize: int)
    requires op.Delete? && plan.rows == []
    ensures |Script(op, plan)| == 4
    ensures forall k :: 0 <= k < 4 ==> StepThrows(op, plan, f, batchSize, k) == f.step(k)
  {
    ScriptLength(op, plan);
  }

  /** Where embedding and inserting stop the script, if they do: `n` rows are in. */
  lemma InsertStop(op: Op, plan: Plan, f: Faults, batchSize: int, n: nat) returns (k: nat)
    requires !op.Delete? && Reaches(op, plan, f, batchSize, |Head(op, plan)| - 2)
    requires var goes := !f.step(|Head(op, plan)| - 2) && Embeds(f, batchSize, plan.count, IsLarge(plan.file.text));
             n == if goes then FirstThrow(f.insert, |plan.rows|) else 0
    ensures var h := |Head(op, plan)|;
            var goes := !f.step(h - 2) && Embeds(f, batchSize, plan.count, IsLarge(plan.file.text));
            && n <= |plan.rows|
            && (goes ==> k == h + n && Reaches(op, plan, f, batchSize, h + n))
            && (!goes || n < |plan.rows| ==> Stops(op, plan, f, batchSize, k))
            && (!goes ==> h - 2 <= k < h)
  {
    var h := |Head(op, plan)|;
    ScriptLength(op, plan);
    k := if f.step(h - 2) then h - 2
         else if !Embeds(f, batchSize, plan.count, IsLarge(plan.file.text)) then h - 1
         else h + n;
  }

  /** Where the closing steps stop the script: the last of them is step `at + j`. */
  lemma ClosingStop(op: Op, plan: Plan, f: Faults, batchSize: int, at: nat, j: nat)
    requires at == |Head(op, plan)| + |plan.rows| && j <= |Last(op, plan)|
    requires Reaches(op, plan, f, batchSize, at)
    requires (forall i :: at <= i < at + j ==> !f.step(i)) && (j < |Last(op, plan)| ==> f.step(at + j))
    ensures Stops(op, plan, f, batchSize, at + j)
  {
    ScriptLength(op, plan);
  }

  // ---------------------------------------------------------------- the state there

  lemma AtInsertStop(s0: State, op: Op, plan: Plan, n: nat, k: nat, s': State)
    requires !op.Delete? && n <= |plan.rows|
    requires var h := |Head(op, plan)|; (h - 2 <= k < h && n == 0) || k == h + n
    requires s' == MiddleState(s0, op, plan, n)
    ensures k < |Script(op, plan)| && s' == StateAt(s0, op, plan, k)
  {
    ScriptLength(op, plan);
    AppendEmpty(HeadState(s0, op, plan, |Head(op, plan)|).rows);
    HeadSettled(s0, op, plan);
  }

  lemma InsertsStop(s0: State, op: Op, plan: Plan, f: Faults, batchSize: int, count: Option<nat>, n: nat,
                    head: State, s': State)
    returns (k: nat)
    requires !op.Delete? && Reaches(op, plan, f, batchSize, |Head(op, plan)| - 2)
    requires var goes := !f.step(|Head(op, plan)| - 2) && Embeds(f, batchSize, plan.count, IsLarge(plan.file.text));
             && n == (if goes then FirstThrow(f.insert, |plan.rows|) else 0)
             && count == (if goes && n == |plan.rows| then Some(plan.count) else None)
    requires Prepared(s0, op, plan, head) && s' == Added(head, plan, n)
    ensures count.None? ==> Stopped(false, k, s0, op, plan, f, batchSize, s')
    ensures count.Some? ==> n == |plan.rows| && count.value == plan.count && RowsIn(s0, op, plan, s')
    ensures count.Some? ==> Reaches(op, plan, f, batchSize, |Head(op, plan)| + n)
  {
    k := InsertStop(op, plan, f, batchSize, n);
    AtInsertStop(s0, op, plan, n, k, s');
  }

  lemma AtClosing(s0: State, op: Op, plan: Plan, j: nat, s': State)
    requires !op.Delete? && j <= |Last(op, plan)|
    requires s' == LastState(MiddleState(s0, op, plan, |plan.rows|), op, plan, j)
    ensures var k := |Head(op, plan)| + |plan.rows| + j;
            && k <= |Script(op, plan)| && s' == StateAt(s0, op, plan, k)
            && (k == |Script(op, plan)| <==> j == |Last(op, plan)|)
  {
    ScriptLength(op, plan);
    AppendEmpty(HeadState(s0, op, plan, |Head(op, plan)|).rows);
  }

  /** The last two steps of a head change nothing. */
  lemma HeadSettled(s0: State, op: Op, plan: Plan)
    requires !op.Delete?
    ensures forall k :: |Head(op, plan)| - 2 <= k <= |Head(op, plan)| ==>
              HeadState(s0, op, plan, k) == HeadState(s0, op, plan, |Head(op, plan)|)
  {
  }

  lemma DeleteStates(s0: State, op: Op, plan: Plan)
    requires op.Delete? && plan.rows == []
    ensures |Script(op, plan)| == 4
    ensures StateAt(s0, op, plan, 0) == s0
    ensures StateAt(s0, op, plan, 1) == s0.(files := Moved(s0.files, op.path, DeletedName(op.path)))
    ensures StateAt(s0, op, plan, 2) == StateAt(s0, op, plan, 1).(rows := Without(s0.rows, op.path))
    ensures StateAt(s0, op, plan, 3)
         == StateAt(s0, op, plan, 2).(files := StateAt(s0, op, plan, 2).files - {DeletedName(op.path)})
    ensures StateAt(s0, op, plan, 4)
         == StateAt(s0, op, plan, 3).(statuses := s0.statuses - {op.path})
  {
    ScriptLength(op, plan);
    AppendEmpty(Without(s0.rows, op.path));
  }

  lemma FailsFrom(s: State, op: Op, env: Env, k: nat, broken: bool, s': State)
    requires Begins(s, op) && k < |Script(op, PlanOf(s, op, env))|
    requires var stopped := StateAt(Started(s, op), op, PlanOf(s, op, env), k);
             s' == if broken then Restored(stopped, op) else Rollback(stopped, op)
    ensures if broken then BreaksAt(s, op, env, k, s') else FailsAt(s, op, env, k, s')
  {
    ScriptAt(Started(s, op), op, PlanOf(s, op, env), k);
  }

  lemma CompletesFrom(s: State, op: Op, env: Env, s': State)
    requires Begins(s, op)
    requires var plan := PlanOf(s, op, env); s' == StateAt(Started(s, op), op, plan, |Script(op, plan)|)
    ensures Completes(s, op, env, s')
  {
    var plan := PlanOf(s, op, env);
    TakeAll(Script(op, plan));
    ScriptAt(Started(s, op), op, plan, |Script(op, plan)|);
  }
}
