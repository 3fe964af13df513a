/** Rows and statuses under the document operations, and what holds after every run of them. */
module SyncRuns {
  import opened Text
  import opened Paths
  import opened Chunking
  import opened Embeddings
  import opened ChunkRows
  import opened SyncModel
  import opened SyncProofs
  import opened SyncTruth

  // ---------------------------------------------------------------- rows

  ghost predicate RowsAllAt(rows: seq<Row>, p: DocPath) {
    forall k :: 0 <= k < |rows| ==> rows[k].path == p
  }

  lemma OwnRowsPath(b: Batch, firstId: nat, embed: string -> Embedding, p: DocPath)
    requires AllAt(b.Inserted(), p)
    ensures RowsAllAt(OwnRows(b, firstId, embed), p)
  {
    forall k | 0 <= k < |OwnRows(b, firstId, embed)| ensures OwnRows(b, firstId, embed)[k].path == p {
      RowAt(b, firstId, EmbedAll(embed, Contents(b.Inserted())), k);
    }
  }

  /** The rows of one document after `k` steps.  Other documents keep theirs; the operation's own has a
      beginning of the new rows, behind what it had before or behind nothing. */
  lemma RowsAt(s: State, op: Op, plan: Plan, k: nat, q: DocPath) returns (m: nat)
    requires k <= |Script(op, plan)| && RowsAllAt(plan.rows, op.path)
    ensures m <= |plan.rows| && (k == |Script(op, plan)| ==> m == |plan.rows|)
    ensures RowsFor(StateAt(s, op, plan, k).rows, q)
         == if q != op.path then RowsFor(s.rows, q)
            else (if Dropped(op, k) then [] else RowsFor(s.rows, q)) + plan.rows[..m]
  {
    var h, n := |Head(op, plan)|, |plan.rows|;
    m := if k <= h then 0 else if k <= h + n then k - h else n;
    var base := if Dropped(op, k) then Without(s.rows, op.path) else s.rows;
    AppendEmpty(base);
    StateRows(s, op, plan, k, base, m);
    TakeRows(base, plan.rows, m, op.path, q);
    RowsForWithout(s.rows, op.path, q);
  }

  lemma TakeRows(base: seq<Row>, rows: seq<Row>, m: nat, p: DocPath, q: DocPath)
    requires m <= |rows| && RowsAllAt(rows, p)
    ensures RowsFor(base + rows[..m], q) == if q == p then RowsFor(base, q) + rows[..m] else RowsFor(base, q)
  {
    RowsForAppend(base, rows[..m], q);
    RowsForUniform(rows[..m], p, q);
    AppendEmpty(RowsFor(base, q));
  }

  lemma StateRows(s: State, op: Op, plan: Plan, k: nat, base: seq<Row>, m: nat)
    requires k <= |Script(op, plan)| && m <= |plan.rows|
    requires m == if k <= |Head(op, plan)| then 0
                  else if k <= |Head(op, plan)| + |plan.rows| then k - |Head(op, plan)| else |plan.rows|
    requires base == (if Dropped(op, k) then Without(s.rows, op.path) else s.rows) && base + [] == base
    ensures StateAt(s, op, plan, k).rows == base + plan.rows[..m]
  {
    EmptySlice(plan.rows, 0);
  }

  lemma StatusesAt(s: State, op: Op, plan: Plan, k: nat)
    requires k <= |Script(op, plan)|
    ensures StateAt(s, op, plan, k).statuses - {op.path} == s.statuses - {op.path}
  {
    var n := |plan.rows|;
    var j := if k <= |Head(op, plan)| + n then 0 else k - |Head(op, plan)| - n;
    LastStatuses(MiddleState(s, op, plan, n), op, plan, j);
  }

  lemma LastStatuses(m: State, op: Op, plan: Plan, j: nat)
    ensures LastState(m, op, plan, j).statuses - {op.path} == m.statuses - {op.path}
  {
  }

  /** The call stopped with `k` steps done: its rows are those of that point, and no other document's status
      or file changed. */
  ghost predicate StoppedAt(s: State, op: Op, plan: Plan, k: nat, s': State) {
    && Begins(s, op) && k <= |Script(op, plan)|
    && s'.rows == StateAt(Started(s, op), op, plan, k).rows
    && s'.statuses - {op.path} == s.statuses - {op.path}
    && s'.files - Touched(op) == s.files - Touched(op)
  }

  lemma SteppedStopped(s: State, op: Op, plan: Plan, s': State) returns (k: nat)
    requires Stepped(s, op, plan, s') && s' != s
    ensures StoppedAt(s, op, plan, k, s')
  {
    if Completed(s, op, plan, s') {
      CompletedState(s, op, plan, s');
      k := |Script(op, plan)|;
    } else {
      k :| FailedAt(s, op, plan, k, s');
      FailedState(s, op, plan, k, s');
      RollbackStatuses(StateAt(Started(s, op), op, plan, k), op);
    }
    StartedStatuses(s, op);
    StatusesAt(Started(s, op), op, plan, k);
    FilesOutside(s, op, plan, s');
  }

  lemma CancelledStopped(s: State, op: Op, plan: Plan, k: nat, s': State)
    requires CancelledAt(s, op, plan, k, s')
    ensures StoppedAt(s, op, plan, k, s')
  {
    CancelledState(s, op, plan, k, s');
    StartedStatuses(s, op);
    StatusesAt(Started(s, op), op, plan, k);
    StateFilesOutside(s, op, plan, k);
  }

  lemma BrokenStopped(s: State, op: Op, plan: Plan, k: nat, s': State)
    requires BrokenAt(s, op, plan, k, s')
    ensures StoppedAt(s, op, plan, k, s')
  {
    BrokenState(s, op, plan, k, s');
    StartedStatuses(s, op);
    StatusesAt(Started(s, op), op, plan, k);
    BrokenFilesOutside(s, op, plan, k, s');
  }

  lemma StartedStatuses(s: State, op: Op)
    ensures Started(s, op).statuses - {op.path} == s.statuses - {op.path}
  {
  }

  lemma RollbackStatuses(s: State, op: Op)
    ensures Rollback(s, op).rows == s.rows
    ensures Rollback(s, op).statuses - {op.path} == s.statuses - {op.path}
  {
  }

  /** Every document's rows form a forest. */
  ghost predicate ForestEverywhere(s: State) {
    forall q :: Forest(RowsFor(s.rows, q))
  }

  /** Any beginning of these rows extends a forest to a forest. */
  ghost predicate ExtendsForests(rows: seq<Row>) {
    forall kept, m :: 0 <= m <= |rows| && Forest(kept) ==> Forest(kept + rows[..m])
  }

  lemma OwnRowsExtend(b: Batch, firstId: nat, embed: string -> Embedding)
    requires Rooted(b)
    ensures ExtendsForests(OwnRows(b, firstId, embed))
  {
    var rows := OwnRows(b, firstId, embed);
    forall kept, m | 0 <= m <= |rows| && Forest(kept) ensures Forest(kept + rows[..m]) {
      ForestAtEveryPrefix(kept, b, firstId, EmbedAll(embed, Contents(b.Inserted())), m);
    }
  }

  lemma NoRowsExtend()
    ensures ExtendsForests([])
  {
    var none: seq<Row> := [];
    forall kept, m | 0 <= m <= |none| && Forest(kept) ensures Forest(kept + none[..m]) {
      AppendEmpty(kept);
    }
  }

  /** What every plan's rows have: they are of the operation's document and extend forests. */
  ghost predicate PlanRows(rows: seq<Row>, p: DocPath) {
    RowsAllAt(rows, p) && ExtendsForests(rows)
  }

  lemma DocumentPlanRows(p: DocPath, content: string, file: File, firstId: nat, env: Env)
    ensures PlanRows(DocumentPlan(p, content, file, firstId, env).rows, p)
  {
    var b := ChunkBatch(p, content, file.text, env.fileId);
    ChunkBatchRooted(p, content, file.text, env.fileId);
    ChunkBatchPaths(p, content, file.text, env.fileId);
    OwnRowsPath(b, firstId, env.embed, p);
    OwnRowsExtend(b, firstId, env.embed);
    NoRowsExtend();
  }

  /** The content an operation chunks. */
  function ContentOf(s: State, op: Op): string
    requires Begins(s, op) && !op.Delete?
  {
    match op
    case Create(_, content) => content
    case Update(_, content, _) => content
    case Reindex(p) => ReadText(s.files[p].text)
  }

  lemma PlanParts(s: State, op: Op, env: Env, plan: Plan)
    requires Begins(s, op) && plan == PlanOf(s, op, env)
    ensures PlanRows(plan.rows, op.path)
    ensures op.Delete? ==> plan.rows == []
    ensures !op.Delete? ==> plan == DocumentPlan(op.path, ContentOf(s, op), plan.file, s.nextId, env)
    ensures op.Reindex? ==> plan.file == s.files[op.path]
    ensures op.Create? || op.Update? ==> plan.file == File(op.content, env.mtime)
    ensures plan.now == env.now
    ensures !op.Delete? ==> WrittenOrRead(ContentOf(s, op), plan.file.text)
  {
    if op.Delete? {
      NoRowsExtend();
    } else {
      DocumentPlanRows(op.path, ContentOf(s, op), plan.file, s.nextId, env);
    }
  }

  lemma StoppedKeepsForest(s: State, op: Op, plan: Plan, k: nat, s': State)
    requires StoppedAt(s, op, plan, k, s') && ForestEverywhere(s) && PlanRows(plan.rows, op.path)
    ensures ForestEverywhere(s')
  {
    forall q ensures Forest(RowsFor(s'.rows, q)) {
      var m := RowsAt(Started(s, op), op, plan, k, q);
      if q == op.path {
        var kept := if Dropped(op, k) then [] else RowsFor(s.rows, q);
        assert Forest(kept) && Forest(kept + plan.rows[..m]);
      }
    }
  }

  /** Whatever step fails, the rows of every document stay a forest. */
  lemma StepKeepsForest(s: State, op: Op, env: Env, s': State)
    requires Step(s, op, env, s') && ForestEverywhere(s)
    ensures ForestEverywhere(s')
  {
    if s' != s {
      var plan := PlanOf(s, op, env);
      PlanParts(s, op, env, plan);
      var k := SteppedStopped(s, op, plan, s');
      StoppedKeepsForest(s, op, plan, k, s');
    }
  }

  // ---------------------------------------------------------------- what success means

  /** A successful update or reindex replaces the document's rows by the planned ones, whatever rows earlier
      failures left; a successful create puts them behind whatever rows the path had.  The recorded number
      is that of one full chunking. */
  lemma Success(s: State, op: Op, env: Env, s': State)
    requires Completes(s, op, env, s') && !op.Delete?
    ensures SucceededAs(s, op, PlanOf(s, op, env), s')
    ensures s'.files[op.path] == if op.Reindex? then s.files[op.path] else File(op.content, env.mtime)
    // all rows are new ones of a fresh file id, behind what a create finds; no row is added where a negative
    // batch size gives no vectors for a large file
    ensures var text := s'.files[op.path].text;
            var content := if op.Reindex? then ReadText(text) else op.content;
            RowsFor(s'.rows, op.path)
            == (if op.Create? then RowsFor(s.rows, op.path) else [])
               + if env.batchSize >= 0 || !IsLarge(text) then
                   FullRows(op.path, content, text, env.fileId, s.nextId, env.embed)
                 else []
    ensures var status := s'.statuses[op.path];
            && !status.failed && status.source == (if op.Create? then Browser else Filesystem)
            && status.filesystemMtime == Some(s'.files[op.path].mtime) && status.databaseMtime == Some(env.now)
  {
    PlanParts(s, op, env, PlanOf(s, op, env));
    PlanSucceeds(s, op, PlanOf(s, op, env), s');
    DoneStatus(s, op, PlanOf(s, op, env), s');
  }

  /** The status row of a completed operation. */
  lemma DoneStatus(s: State, op: Op, plan: Plan, s': State)
    requires Completed(s, op, plan, s') && !op.Delete?
    ensures op.path in s'.statuses
    ensures s'.statuses[op.path]
         == StatusRow(InSync, false, plan.count, if op.Create? then Browser else Filesystem,
                      Some(plan.file.mtime), Some(plan.now))
  {
    CompletedState(s, op, plan, s');
  }

  /** The rows the document has besides the planned ones. */
  function Before(s: State, op: Op): seq<Row> {
    if op.Create? then RowsFor(s.rows, op.path) else []
  }

  ghost predicate SucceededAs(s: State, op: Op, plan: Plan, s': State) {
    var p := op.path;
    && p in s'.files && s'.files[p] == plan.file
    && p in s'.statuses && s'.statuses[p].status == InSync && s'.statuses[p].chunkCount == plan.count
    && RowsFor(s'.rows, p) == Before(s, op) + plan.rows
  }

  lemma PlanSucceeds(s: State, op: Op, plan: Plan, s': State)
    requires Completed(s, op, plan, s') && !op.Delete? && (op.Reindex? ==> plan.file == s.files[op.path])
    requires RowsAllAt(plan.rows, op.path)
    ensures SucceededAs(s, op, plan, s')
  {
    SuccessRows(s, op, plan, s');
    SuccessState(s, op, plan, s');
  }

  /** The recorded number is the number of the document's rows if the embedding calls gave all vectors, and
      for a create exactly if the path had no rows. */
  lemma CountIsRight(s: State, op: Op, env: Env, s': State)
    requires Completes(s, op, env, s') && !op.Delete? && InsertsAll(env, PlanOf(s, op, env).file.text)
    ensures op.path in s'.statuses
    ensures s'.statuses[op.path].chunkCount == |RowsFor(s'.rows, op.path)|
       <==> !op.Create? || RowsFor(s.rows, op.path) == []
  {
    Success(s, op, env, s');
    PlanParts(s, op, env, PlanOf(s, op, env));
  }

  lemma SuccessRows(s: State, op: Op, plan: Plan, s': State)
    requires Completed(s, op, plan, s') && !op.Delete? && RowsAllAt(plan.rows, op.path)
    ensures RowsFor(s'.rows, op.path) == Before(s, op) + plan.rows
  {
    CompletedState(s, op, plan, s');
    var m := RowsAt(Started(s, op), op, plan, |Script(op, plan)|, op.path);
    TakeAll(plan.rows);
    AllDropped(op, plan);
  }

  lemma AllDropped(op: Op, plan: Plan)
    ensures Dropped(op, |Script(op, plan)|) <==> !op.Create?
  {
  }

  lemma SuccessState(s: State, op: Op, plan: Plan, s': State)
    requires Completed(s, op, plan, s') && !op.Delete? && (op.Reindex? ==> plan.file == s.files[op.path])
    ensures op.path in s'.files && s'.files[op.path] == plan.file
    ensures op.path in s'.statuses
    ensures s'.statuses[op.path].status == InSync && s'.statuses[op.path].chunkCount == plan.count
  {
    BackupNamesDiffer(op.path);
    CompletedFiles(s, op, plan, s');
    CompletedState(s, op, plan, s');
  }

  /** A successful delete removes the document, its rows and its status. */
  lemma DeleteSuccess(s: State, op: Op, env: Env, s': State)
    requires Completes(s, op, env, s') && op.Delete?
    ensures op.path !in s'.files && DeletedName(op.path) !in s'.files && op.path !in s'.statuses
    ensures RowsFor(s'.rows, op.path) == []
  {
    DeletedState(s, op, PlanOf(s, op, env), s');
  }

  lemma DeletedState(s: State, op: Op, plan: Plan, s': State)
    requires Completed(s, op, plan, s') && op.Delete? && plan.rows == []
    ensures op.path !in s'.files && DeletedName(op.path) !in s'.files && op.path !in s'.statuses
    ensures RowsFor(s'.rows, op.path) == []
  {
    CompletedState(s, op, plan, s');
    CompletedFiles(s, op, plan, s');
    var m := RowsAt(Started(s, op), op, plan, |Script(op, plan)|, op.path);
    BackupNamesDiffer(op.path);
    AppendEmpty<Row>([]);
  }

  /** Other documents keep their rows and statuses, however the call ends. */
  lemma Outside(s: State, op: Op, plan: Plan, k: nat, s': State, q: DocPath)
    requires StoppedAt(s, op, plan, k, s') && RowsAllAt(plan.rows, op.path) && q != op.path
    ensures RowsFor(s'.rows, q) == RowsFor(s.rows, q)
    ensures q in s'.statuses <==> q in s.statuses
    ensures q in s.statuses ==> s'.statuses[q] == s.statuses[q]
  {
    SameOutside(s.statuses, s'.statuses, {op.path}, q);
    var m := RowsAt(Started(s, op), op, plan, k, q);
  }

  lemma SameOutside<K, V>(m: map<K, V>, m': map<K, V>, touched: set<K>, q: K)
    requires m' - touched == m - touched && q !in touched
    ensures q in m' <==> q in m
    ensures q in m ==> m'[q] == m[q]
  {
    assert q in m <==> q in m - touched;
    assert q in m' <==> q in m' - touched;
    assert q in m ==> (m - touched)[q] == m[q] && (m' - touched)[q] == m'[q];
  }

  /** A failed operation ends with the status ERROR and a count of zero. */
  lemma FailureStatus(s: State, op: Op, plan: Plan, k: nat, s': State)
    requires FailedAt(s, op, plan, k, s')
    ensures op.path in s'.statuses && s'.statuses[op.path].status == Error && s'.statuses[op.path].failed
    ensures s'.statuses[op.path].chunkCount == 0
    ensures s'.statuses[op.path].source == if op.Create? then Browser else Filesystem
  {
  }

  // ---------------------------------------------------------------- invariants of every run

  /** No document is left marked as being processed. */
  ghost predicate Settled(s: State) {
    forall q :: q in s.statuses ==> s.statuses[q].status != Processing
  }

  /** What the call does to the status of its own document. */
  lemma OwnStatus(s: State, op: Op, env: Env, s': State)
    requires Step(s, op, env, s') && s' != s
    ensures op.path in s'.statuses ==> s'.statuses[op.path].status in {InSync, Error}
    ensures !Completes(s, op, env, s') ==>
              && op.path in s'.statuses && s'.statuses[op.path].status == Error && s'.statuses[op.path].failed
              && s'.statuses[op.path].chunkCount == 0
              && s'.statuses[op.path].source == if op.Create? then Browser else Filesystem
  {
    if Completes(s, op, env, s') {
      if op.Delete? {
        DeleteSuccess(s, op, env, s');
      } else {
        Success(s, op, env, s');
      }
    } else {
      var k: nat :| FailedAt(s, op, PlanOf(s, op, env), k, s');
      FailureStatus(s, op, PlanOf(s, op, env), k, s');
    }
  }

  lemma StepKeepsSettled(s: State, op: Op, env: Env, s': State)
    requires Step(s, op, env, s') && Settled(s)
    ensures Settled(s')
  {
    if s' != s {
      var plan := PlanOf(s, op, env);
      PlanParts(s, op, env, plan);
      OwnStatus(s, op, env, s');
      var k := SteppedStopped(s, op, plan, s');
      forall q | q in s'.statuses ensures s'.statuses[q].status != Processing {
        if q != op.path {
          Outside(s, op, plan, k, s', q);
        }
      }
    }
  }

  /** A cancelled call leaves nothing PROCESSING exactly if it was cancelled after its last status write. */
  lemma CancelledSettledIff(s: State, op: Op, plan: Plan, k: nat, s': State)
    requires CancelledAt(s, op, plan, k, s') && Settled(s) && RowsAllAt(plan.rows, op.path)
    requires op.Reindex? ==> plan.file == s.files[op.path]
    requires op.Delete? ==> plan.rows == []
    ensures Settled(s') <==> k > StatusStep(op, plan)
  {
    CancelledStatus(s, op, plan, k, s');
    CancelledStopped(s, op, plan, k, s');
    if k > StatusStep(op, plan) {
      if op.Delete? {
        DeletedState(s, op, plan, s');
      } else {
        SuccessState(s, op, plan, s');
      }
      forall q | q in s'.statuses ensures s'.statuses[q].status != Processing {
        if q != op.path {
          Outside(s, op, plan, k, s', q);
        }
      }
    }
  }

  /** A call whose handler cannot write its status leaves nothing PROCESSING exactly if it failed in its last
      read, with the status IN_SYNC. */
  lemma BrokenSettledIff(s: State, op: Op, plan: Plan, k: nat, s': State)
    requires BrokenAt(s, op, plan, k, s') && Settled(s) && RowsAllAt(plan.rows, op.path)
    ensures Settled(s') <==> k > StatusStep(op, plan)
  {
    BrokenStatus(s, op, plan, k, s');
    BrokenStopped(s, op, plan, k, s');
    forall q | q in s'.statuses && q != op.path ensures s'.statuses[q].status != Processing {
      Outside(s, op, plan, k, s', q);
    }
  }

  /** A document marked IN_SYNC has its file, and its rows include a full chunking of the file's text. */
  ghost predicate Truthful(s: State, embed: string -> Embedding, q: DocPath) {
    q in s.statuses && s.statuses[q].status == InSync ==>
      q in s.files && HoldsChunking(RowsFor(s.rows, q), q, s.files[q].text, embed)
  }

  /** A completed operation leaves a truthful IN_SYNC exactly if all its rows are inserted and chunking the
      content it was given and chunking what the file says give the same texts, or the rows it leaves in place
      hold a chunking of the new text already. */
  lemma CompletedTruthfulIff(s: State, op: Op, env: Env, s': State)
    requires Completes(s, op, env, s') && !op.Delete?
    ensures var stored := PlanOf(s, op, env).file.text;
            Truthful(s', env.embed, op.path)
            <==> || (InsertsAll(env, stored) && Alike(ContentOf(s, op), stored))
                 || HoldsChunking(Before(s, op), op.path, stored, env.embed)
  {
    var plan := PlanOf(s, op, env);
    Success(s, op, env, s');
    PlanParts(s, op, env, plan);
    PlanTruthfulIff(s, op, env, plan, s');
  }

  lemma PlanTruthfulIff(s: State, op: Op, env: Env, plan: Plan, s': State)
    requires Begins(s, op) && !op.Delete? && SucceededAs(s, op, plan, s')
    requires plan == DocumentPlan(op.path, ContentOf(s, op), plan.file, s.nextId, env)
    requires WrittenOrRead(ContentOf(s, op), plan.file.text)
    ensures Truthful(s', env.embed, op.path)
       <==> || (InsertsAll(env, plan.file.text) && Alike(ContentOf(s, op), plan.file.text))
            || HoldsChunking(Before(s, op), op.path, plan.file.text, env.embed)
  {
    if InsertsAll(env, plan.file.text) {
      HoldsChunkingIff(Before(s, op), plan.rows, op.path, ContentOf(s, op), plan.file.text, env.fileId, s.nextId,
                       env.embed);
    } else {
      AppendEmpty(Before(s, op));
    }
  }

  /** The operation inserts all rows it counts, made from a content that reads back alike: a guard a caller
      can evaluate before the call.  A delete and a refused call are always faithful. */
  predicate Faithful(s: State, op: Op, env: Env) {
    Begins(s, op) && !op.Delete? ==>
      var stored := if op.Reindex? then s.files[op.path].text else ContentOf(s, op);
      InsertsAll(env, stored) && Alike(ContentOf(s, op), stored)
  }

  /** Contents without carriage returns, large ones, and reindexing are always faithful at a batch size that
      is not negative. */
  lemma FaithfulWhen(s: State, op: Op, env: Env)
    requires env.batchSize >= 0
    requires op.Create? || op.Update? ==> '\r' !in op.content || IsLarge(op.content)
    ensures Faithful(s, op, env)
  {
    if Begins(s, op) && !op.Delete? {
      AlikeWhen(if op.Reindex? then s.files[op.path].text else op.content);
    }
  }

  /** Update and reindex are truthful exactly if they are faithful. */
  lemma ReplacedTruthfulIff(s: State, op: Op, env: Env, s': State)
    requires Completes(s, op, env, s') && (op.Update? || op.Reindex?)
    ensures Truthful(s', env.embed, op.path) <==> Faithful(s, op, env)
  {
    CompletedTruthfulIff(s, op, env, s');
    PlanParts(s, op, env, PlanOf(s, op, env));
    NoChunking(op.path, PlanOf(s, op, env).file.text, env.embed);
  }

  /** For a text that is its own summary, whether it has carriage returns decides, unless a create finds rows
      that hold a chunking of it. */
  lemma ShortTruthfulIff(s: State, op: Op, env: Env, s': State)
    requires Completes(s, op, env, s') && (op.Create? || op.Update?) && |op.content| <= DOCUMENT_LEVEL_CHARS
    ensures Truthful(s', env.embed, op.path)
       <==> '\r' !in op.content || HoldsChunking(Before(s, op), op.path, op.content, env.embed)
  {
    CompletedTruthfulIff(s, op, env, s');
    PlanParts(s, op, env, PlanOf(s, op, env));
    ShortAlikeIff(op.content);
    OwnSummary(op.content);
  }

  lemma CompletedKeepsTruth(s: State, op: Op, env: Env, s': State)
    requires Completes(s, op, env, s') && Faithful(s, op, env)
    ensures Truthful(s', env.embed, op.path)
  {
    if op.Delete? {
      DeleteSuccess(s, op, env, s');
    } else {
      CompletedTruthfulIff(s, op, env, s');
      PlanParts(s, op, env, PlanOf(s, op, env));
    }
  }

  lemma StepKeepsOwnTruth(s: State, op: Op, env: Env, s': State)
    requires Step(s, op, env, s') && Faithful(s, op, env)
    requires Truthful(s, env.embed, op.path)
    ensures Truthful(s', env.embed, op.path)
  {
    if s' != s {
      OwnStatus(s, op, env, s');
      if Completes(s, op, env, s') {
        CompletedKeepsTruth(s, op, env, s');
      }
    }
  }

  lemma StoppedKeepsTruth(s: State, op: Op, plan: Plan, k: nat, s': State, q: DocPath, embed: string -> Embedding)
    requires StoppedAt(s, op, plan, k, s') && RowsAllAt(plan.rows, op.path)
    requires Truthful(s, embed, q) && q != op.path && q !in Touched(op)
    ensures Truthful(s', embed, q)
  {
    Outside(s, op, plan, k, s', q);
    SameOutside(s.files, s'.files, Touched(op), q);
  }

  /** An operation keeps the truth about every document whose file it does not use as a backup. */
  lemma StepKeepsTruth(s: State, op: Op, env: Env, s': State, q: DocPath)
    requires Step(s, op, env, s') && Faithful(s, op, env)
    requires Truthful(s, env.embed, q)
    requires q == op.path || q !in Touched(op)
    ensures Truthful(s', env.embed, q)
  {
    if q == op.path {
      StepKeepsOwnTruth(s, op, env, s');
    } else if s' != s {
      var plan := PlanOf(s, op, env);
      PlanParts(s, op, env, plan);
      var k := SteppedStopped(s, op, plan, s');
      StoppedKeepsTruth(s, op, plan, k, s', q, env.embed);
    }
  }

  /** Otherwise the truth is lost: a tracked document that has the name under which another one is kept while
      it is updated or deleted loses its file to that operation, and stays marked IN_SYNC. */
  lemma BackupNameBreaksTruth(s: State, op: Op, plan: Plan, s': State, q: DocPath, embed: string -> Embedding)
    requires Completed(s, op, plan, s') && RowsAllAt(plan.rows, op.path) && (op.Update? || op.Delete?)
    requires q == (if op.Update? then BackupName(op.path) else DeletedName(op.path))
    requires q in s.statuses && s.statuses[q].status == InSync
    ensures !Truthful(s', embed, q)
  {
    BackupNamesDiffer(op.path);
    CompletedFiles(s, op, plan, s');
    assert q !in s'.files;
    if s' != s {
      var k := SteppedStopped(s, op, plan, s');
      Outside(s, op, plan, k, s', q);
    }
  }

  /** A cancelled call keeps the truth about the same documents. */
  lemma CancelKeepsTruth(s: State, op: Op, env: Env, k: nat, s': State, q: DocPath)
    requires CancelsAt(s, op, env, k, s') && Faithful(s, op, env)
    requires Truthful(s, env.embed, q)
    requires q == op.path || q !in Touched(op)
    ensures Truthful(s', env.embed, q)
  {
    var plan := PlanOf(s, op, env);
    PlanParts(s, op, env, plan);
    if q == op.path {
      CancelledStatus(s, op, plan, k, s');
      if k > StatusStep(op, plan) {
        CompletedKeepsTruth(s, op, env, s');
      }
    } else {
      CancelledStopped(s, op, plan, k, s');
      StoppedKeepsTruth(s, op, plan, k, s', q, env.embed);
    }
  }

  /** The last read of a create or update fails, and then its handler, which removes the file of the document
      that is marked IN_SYNC already, cannot write its status. */
  predicate LosesSynced(op: Op, plan: Plan, k: nat) {
    (op.Create? || op.Update?) && k > StatusStep(op, plan)
  }

  /** A call whose handler cannot write its status leaves the truth about its own document exactly if it does
      not lose a file that way. */
  lemma BrokenTruthfulIff(s: State, op: Op, env: Env, k: nat, s': State)
    requires BreaksAt(s, op, env, k, s') && Faithful(s, op, env)
    ensures Truthful(s', env.embed, op.path) <==> !LosesSynced(op, PlanOf(s, op, env), k)
  {
    var plan := PlanOf(s, op, env);
    BrokenStatus(s, op, plan, k, s');
    PlanParts(s, op, env, plan);
    if LosesSynced(op, plan, k) {
      BrokenLosesFile(s, op, plan, k, s');
    } else if k > StatusStep(op, plan) {
      BrokenReindex(s, op, plan, k, s');
      CompletedKeepsTruth(s, op, env, s');
    }
  }

  lemma BrokenLosesFile(s: State, op: Op, plan: Plan, k: nat, s': State)
    requires BrokenAt(s, op, plan, k, s') && LosesSynced(op, plan, k)
    ensures op.path !in s'.files
  {
    RolledBackFiles(s, op, plan, k, s');
    BackupNamesDiffer(op.path);
  }

  /** After its last status write only a reindex is left in the state of a completed call. */
  lemma BrokenReindex(s: State, op: Op, plan: Plan, k: nat, s': State)
    requires BrokenAt(s, op, plan, k, s') && k > StatusStep(op, plan) && !LosesSynced(op, plan, k)
    requires op.Delete? ==> plan.rows == []
    ensures op.Reindex? && Completed(s, op, plan, s')
  {
    BrokenState(s, op, plan, k, s');
    TakeAll(Script(op, plan));
    ScriptAt(Started(s, op), op, plan, |Script(op, plan)|);
  }

  /** The truth about other documents is kept as by any call. */
  lemma BreakKeepsTruth(s: State, op: Op, env: Env, k: nat, s': State, q: DocPath)
    requires BreaksAt(s, op, env, k, s') && Faithful(s, op, env) && !LosesSynced(op, PlanOf(s, op, env), k)
    requires Truthful(s, env.embed, q)
    requires q == op.path || q !in Touched(op)
    ensures Truthful(s', env.embed, q)
  {
    var plan := PlanOf(s, op, env);
    if q == op.path {
      BrokenTruthfulIff(s, op, env, k, s');
    } else {
      PlanParts(s, op, env, plan);
      BrokenStopped(s, op, plan, k, s');
      StoppedKeepsTruth(s, op, plan, k, s', q, env.embed);
    }
  }

  // ---------------------------------------------------------------- runs

  /** Names under which update and delete keep a document; no other operation touches them. */
  predicate IsBackupName(q: DocPath) {
    q.suffix == ".bak" || q.suffix == ".deleted"
  }

  /** What holds between any two operations. */
  ghost predicate Sound(s: State, embed: string -> Embedding) {
    && ForestEverywhere(s)
    && forall q: DocPath :: !IsBackupName(q) ==> Truthful(s, embed, q)
  }

  /** The handler could not write its status, and no file of a document marked IN_SYNC was lost. */
  ghost predicate Breaks(s: State, op: Op, env: Env, s': State) {
    exists k: nat :: BreaksAt(s, op, env, k, s') && !LosesSynced(op, PlanOf(s, op, env), k)
  }

  /** One operation of a run: it completes, fails at any step, is refused, or is cancelled, in its handler
      too. */
  ghost predicate RunStep(states: seq<State>, ops: seq<Op>, envs: seq<Env>, embed: string -> Embedding, i: nat)
    requires i < |ops| && |states| == |ops| + 1 && |envs| == |ops|
  {
    && (|| Step(states[i], ops[i], envs[i], states[i + 1])
        || Cancels(states[i], ops[i], envs[i], states[i + 1])
        || Breaks(states[i], ops[i], envs[i], states[i + 1]))
    && envs[i].embed == embed && Faithful(states[i], ops[i], envs[i])
  }

  /** A sequential run of operations on any documents. */
  ghost predicate IsRun(states: seq<State>, ops: seq<Op>, envs: seq<Env>, embed: string -> Embedding) {
    && |states| == |ops| + 1 && |envs| == |ops|
    && forall i :: 0 <= i < |ops| ==> RunStep(states, ops, envs, embed, i)
  }

  /** Over every run, with faults and cancellations anywhere: an IN_SYNC document that does not have a
      backup's name has its file and a full chunking of its current text, and all rows form forests. */
  lemma {:induction false} RunsAreSound(states: seq<State>, ops: seq<Op>, envs: seq<Env>,
                                        embed: string -> Embedding, n: nat)
    requires IsRun(states, ops, envs, embed) && Sound(states[0], embed)
    requires n <= |ops|
    ensures Sound(states[n], embed)
  {
    if n > 0 {
      RunsAreSound(states, ops, envs, embed, n - 1);
      RunStepSound(states, ops, envs, embed, n);
    }
  }

  lemma RunStepSound(states: seq<State>, ops: seq<Op>, envs: seq<Env>, embed: string -> Embedding, i: nat)
    requires 0 < i <= |ops| && |states| == |ops| + 1 && |envs| == |ops|
    requires RunStep(states, ops, envs, embed, i - 1) && Sound(states[i - 1], embed)
    ensures Sound(states[i], embed)
  {
    if Step(states[i - 1], ops[i - 1], envs[i - 1], states[i]) {
      StepKeepsSound(states[i - 1], ops[i - 1], envs[i - 1], states[i]);
    } else if Cancels(states[i - 1], ops[i - 1], envs[i - 1], states[i]) {
      CancelKeepsSound(states[i - 1], ops[i - 1], envs[i - 1], states[i]);
    } else {
      BreakKeepsSound(states[i - 1], ops[i - 1], envs[i - 1], states[i]);
    }
  }

  lemma StepKeepsSound(s: State, op: Op, env: Env, s': State)
    requires Step(s, op, env, s') && Faithful(s, op, env)
    requires Sound(s, env.embed)
    ensures Sound(s', env.embed)
  {
    StepKeepsForest(s, op, env, s');
    forall q: DocPath | !IsBackupName(q) ensures Truthful(s', env.embed, q) {
      StepKeepsTruth(s, op, env, s', q);
    }
  }

  lemma CancelKeepsSound(s: State, op: Op, env: Env, s': State)
    requires Cancels(s, op, env, s') && Faithful(s, op, env)
    requires Sound(s, env.embed)
    ensures Sound(s', env.embed)
  {
    var k: nat :| CancelsAt(s, op, env, k, s');
    CancelKeepsForest(s, op, env, k, s');
    forall q: DocPath | !IsBackupName(q) ensures Truthful(s', env.embed, q) {
      CancelKeepsTruth(s, op, env, k, s', q);
    }
  }

  lemma CancelKeepsForest(s: State, op: Op, env: Env, k: nat, s': State)
    requires CancelsAt(s, op, env, k, s') && ForestEverywhere(s)
    ensures ForestEverywhere(s')
  {
    var plan := PlanOf(s, op, env);
    PlanParts(s, op, env, plan);
    CancelledStopped(s, op, plan, k, s');
    StoppedKeepsForest(s, op, plan, k, s');
  }

  lemma BreakKeepsSound(s: State, op: Op, env: Env, s': State)
    requires Breaks(s, op, env, s') && Faithful(s, op, env)
    requires Sound(s, env.embed)
    ensures Sound(s', env.embed)
  {
    var k: nat :| BreaksAt(s, op, env, k, s') && !LosesSynced(op, PlanOf(s, op, env), k);
    BreakKeepsForest(s, op, env, k, s');
    forall q: DocPath | !IsBackupName(q) ensures Truthful(s', env.embed, q) {
      BreakKeepsTruth(s, op, env, k, s', q);
    }
  }

  lemma BreakKeepsForest(s: State, op: Op, env: Env, k: nat, s': State)
    requires BreaksAt(s, op, env, k, s') && ForestEverywhere(s)
    ensures ForestEverywhere(s')
  {
    var plan := PlanOf(s, op, env);
    PlanParts(s, op, env, plan);
    BrokenStopped(s, op, plan, k, s');
    StoppedKeepsForest(s, op, plan, k, s');
  }

  /** Without cancellations, and as long as the handlers can write their status, no document is left
      PROCESSING, whatever the operations are given. */
  lemma {:induction false} RunsAreSettled(states: seq<State>, ops: seq<Op>, envs: seq<Env>, n: nat)
    requires |states| == |ops| + 1 && |envs| == |ops| && Settled(states[0]) && n <= |ops|
    requires forall i :: 0 <= i < |ops| ==> Step(states[i], ops[i], envs[i], states[i + 1])
    ensures Settled(states[n])
  {
    if n > 0 {
      RunsAreSettled(states, ops, envs, n - 1);
      assert Step(states[n - 1], ops[n - 1], envs[n - 1], states[n - 1 + 1]);
      StepKeepsSettled(states[n - 1], ops[n - 1], envs[n - 1], states[n]);
    }
  }

  /** The empty store is sound and settled. */
  lemma EmptyIsSound(embed: string -> Embedding)
    ensures Sound(State(map[], [], 0, map[]), embed) && Settled(State(map[], [], 0, map[]))
  {
  }
}
