/** What the document operations guarantee, at every point where they can fail and over every run. */
module SyncProofs {
  import opened Text
  import opened Paths
  import opened ChunkRows
  import opened SyncModel

  // ---------------------------------------------------------------- the state at each step

  lemma ExecTake(s: State, script: seq<Action>, k: nat)
    requires k < |script|
    ensures Exec(s, script[..k + 1]) == Apply(Exec(s, script[..k]), script[k])
  {
    TakeSnoc(script, k);
    SnocInit(script[..k], script[k]);
  }

  /** The files after the first `k` steps of the script's head. */
  function HeadFiles(files: map<DocPath, File>, op: Op, plan: Plan, k: nat): map<DocPath, File> {
    match op
    case Create(p, _) => if k >= 2 then files[p := plan.file] else files
    case Update(p, _, _) =>
      var moved := if k >= 1 then Moved(files, p, BackupName(p)) else files;
      if k >= 2 then moved[p := plan.file] else moved
    case Delete(p) => if k >= 1 then Moved(files, p, DeletedName(p)) else files
    case Reindex(_) => files
  }

  /** The step of the head after which the document's old rows are gone. */
  predicate Dropped(op: Op, k: nat) {
    match op
    case Create(_, _) => false
    case Update(_, _, _) => k >= 3
    case Delete(_) => k >= 2
    case Reindex(_) => k >= 2
  }

  function HeadState(s: State, op: Op, plan: Plan, k: nat): State {
    s.(files := HeadFiles(s.files, op, plan, k),
       rows := if Dropped(op, k) then Without(s.rows, op.path) else s.rows)
  }

  lemma HeadStep(s: State, op: Op, plan: Plan, k: nat)
    requires 0 < k <= |Head(op, plan)|
    ensures Apply(HeadState(s, op, plan, k - 1), Head(op, plan)[k - 1]) == HeadState(s, op, plan, k)
  {
  }

  lemma {:induction false} HeadAt(s: State, op: Op, plan: Plan, k: nat)
    requires k <= |Head(op, plan)|
    ensures Exec(s, Head(op, plan)[..k]) == HeadState(s, op, plan, k)
  {
    if k > 0 {
      HeadAt(s, op, plan, k - 1);
      HeadStep(s, op, plan, k);
      ExecTake(s, Head(op, plan), k - 1);
    }
  }

  /** The state when `m` rows have been inserted. */
  function MiddleState(s: State, op: Op, plan: Plan, m: nat): State
    requires m <= |plan.rows|
  {
    var h := HeadState(s, op, plan, |Head(op, plan)|);
    h.(rows := h.rows + plan.rows[..m], nextId := h.nextId + m)
  }

  lemma MiddleAt(s: State, op: Op, plan: Plan, m: nat)
    requires m <= |plan.rows|
    ensures Exec(s, Head(op, plan) + Inserts(plan.rows)[..m]) == MiddleState(s, op, plan, m)
  {
    var head := Head(op, plan);
    HeadAt(s, op, plan, |head|);
    TakeAll(head);
    ExecAppend(s, head, Inserts(plan.rows)[..m]);
    assert Inserts(plan.rows)[..m] == Inserts(plan.rows[..m]);
    ExecInserts(HeadState(s, op, plan, |head|), plan.rows[..m]);
  }

  /** The state after `j` of the closing steps. */
  function LastState(m: State, op: Op, plan: Plan, j: nat): State {
    match op
    case Delete(p) =>
      m.(files := if j >= 1 then m.files - {DeletedName(p)} else m.files,
         statuses := if j >= 2 then m.statuses - {p} else m.statuses)
    case Update(p, _, _) =>
      m.(files := if j >= 1 then m.files - {BackupName(p)} else m.files,
         statuses := if j >= 3 then Upsert(m.statuses, p, DoneUpdate(op, plan)) else m.statuses)
    case _ =>
      m.(statuses := if j >= 2 then Upsert(m.statuses, op.path, DoneUpdate(op, plan)) else m.statuses)
  }

  lemma LastOneMore(m: State, op: Op, plan: Plan, j: nat)
    requires 0 < j <= |Last(op, plan)|
    ensures Apply(LastState(m, op, plan, j - 1), Last(op, plan)[j - 1]) == LastState(m, op, plan, j)
  {
  }

  lemma {:induction false} LastAt(m: State, op: Op, plan: Plan, j: nat)
    requires j <= |Last(op, plan)|
    ensures Exec(m, Last(op, plan)[..j]) == LastState(m, op, plan, j)
  {
    if j > 0 {
      LastAt(m, op, plan, j - 1);
      LastOneMore(m, op, plan, j);
      ExecTake(m, Last(op, plan), j - 1);
    }
  }

  /** The state after the first `k` steps of the whole script. */
  function StateAt(s: State, op: Op, plan: Plan, k: nat): State
    requires k <= |Script(op, plan)|
  {
    var h, n := |Head(op, plan)|, |plan.rows|;
    if k <= h then HeadState(s, op, plan, k)
    else if k <= h + n then MiddleState(s, op, plan, k - h)
    else LastState(MiddleState(s, op, plan, n), op, plan, k - h - n)
  }

  lemma ScriptAt(s: State, op: Op, plan: Plan, k: nat)
    requires k <= |Script(op, plan)|
    ensures Exec(s, Script(op, plan)[..k]) == StateAt(s, op, plan, k)
  {
    var h, n := |Head(op, plan)|, |plan.rows|;
    if k <= h {
      InHead(s, op, plan, k);
    } else if k <= h + n {
      InMiddle(s, op, plan, k);
    } else {
      InLast(s, op, plan, k);
    }
  }

  lemma InHead(s: State, op: Op, plan: Plan, k: nat)
    requires k <= |Head(op, plan)|
    ensures k <= |Script(op, plan)| && Exec(s, Script(op, plan)[..k]) == HeadState(s, op, plan, k)
  {
    TakeFirst(Head(op, plan), Inserts(plan.rows), Last(op, plan), k);
    HeadAt(s, op, plan, k);
  }

  lemma InMiddle(s: State, op: Op, plan: Plan, k: nat)
    requires |Head(op, plan)| <= k <= |Head(op, plan)| + |plan.rows|
    ensures k <= |Script(op, plan)|
    ensures Exec(s, Script(op, plan)[..k]) == MiddleState(s, op, plan, k - |Head(op, plan)|)
  {
    TakeSecond(Head(op, plan), Inserts(plan.rows), Last(op, plan), k - |Head(op, plan)|);
    MiddleAt(s, op, plan, k - |Head(op, plan)|);
  }

  lemma InLast(s: State, op: Op, plan: Plan, k: nat)
    requires |Head(op, plan)| + |plan.rows| <= k <= |Head(op, plan)| + |plan.rows| + |Last(op, plan)|
    ensures k <= |Script(op, plan)|
    ensures Exec(s, Script(op, plan)[..k])
         == LastState(MiddleState(s, op, plan, |plan.rows|), op, plan, k - |Head(op, plan)| - |plan.rows|)
  {
    var j := k - |Head(op, plan)| - |plan.rows|;
    TakeThird(Head(op, plan), Inserts(plan.rows), Last(op, plan), j);
    ClosingAt(s, op, plan, j);
  }

  lemma TakeFirst<T>(xs: seq<T>, ys: seq<T>, zs: seq<T>, k: nat)
    requires k <= |xs|
    ensures (xs + ys + zs)[..k] == xs[..k]
  {
  }

  lemma TakeSecond<T>(xs: seq<T>, ys: seq<T>, zs: seq<T>, k: nat)
    requires k <= |ys|
    ensures (xs + ys + zs)[..|xs| + k] == xs + ys[..k]
  {
  }

  lemma TakeThird<T>(xs: seq<T>, ys: seq<T>, zs: seq<T>, k: nat)
    requires k <= |zs|
    ensures (xs + ys + zs)[..|xs| + |ys| + k] == xs + ys + zs[..k]
  {
  }

  lemma ClosingAt(s: State, op: Op, plan: Plan, j: nat)
    requires j <= |Last(op, plan)|
    ensures Exec(s, Head(op, plan) + Inserts(plan.rows) + Last(op, plan)[..j])
         == LastState(MiddleState(s, op, plan, |plan.rows|), op, plan, j)
  {
    ExecAppend(s, Head(op, plan) + Inserts(plan.rows), Last(op, plan)[..j]);
    TakeAll(Inserts(plan.rows));
    MiddleAt(s, op, plan, |plan.rows|);
    LastAt(MiddleState(s, op, plan, |plan.rows|), op, plan, j);
  }

  /** The state in which the handler of an operation that failed at step `k` runs. */
  lemma FailedState(s: State, op: Op, plan: Plan, k: nat, s': State)
    requires FailedAt(s, op, plan, k, s')
    ensures s' == Rollback(StateAt(Started(s, op), op, plan, k), op)
  {
    ScriptAt(Started(s, op), op, plan, k);
  }

  lemma CompletedState(s: State, op: Op, plan: Plan, s': State)
    requires Completed(s, op, plan, s')
    ensures s' == StateAt(Started(s, op), op, plan, |Script(op, plan)|)
  {
    TakeAll(Script(op, plan));
    ScriptAt(Started(s, op), op, plan, |Script(op, plan)|);
  }

  // ---------------------------------------------------------------- the files

  /** The step that removes the backup of an update or the renamed file of a delete. */
  function UnlinkStep(op: Op, plan: Plan): nat {
    |Head(op, plan)| + |plan.rows|
  }

  /** The files after `k` steps. */
  function FilesAt(files: map<DocPath, File>, op: Op, plan: Plan, k: nat): map<DocPath, File> {
    var head := HeadFiles(files, op, plan, k);
    match op
    case Update(p, _, _) => if k > UnlinkStep(op, plan) then head - {BackupName(p)} else head
    case Delete(p) => if k > UnlinkStep(op, plan) then head - {DeletedName(p)} else head
    case _ => head
  }

  lemma HeadFilesSettled(files: map<DocPath, File>, op: Op, plan: Plan, k: nat)
    requires k >= |Head(op, plan)|
    ensures HeadFiles(files, op, plan, k) == HeadFiles(files, op, plan, |Head(op, plan)|)
  {
  }

  lemma LastFiles(m: State, op: Op, plan: Plan, files: map<DocPath, File>, j: nat)
    requires j > 0 && m.files == HeadFiles(files, op, plan, |Head(op, plan)|)
    ensures LastState(m, op, plan, j).files == FilesAt(files, op, plan, |Head(op, plan)| + |plan.rows| + j)
  {
    HeadFilesSettled(files, op, plan, |Head(op, plan)| + |plan.rows| + j);
  }

  lemma StateFiles(s: State, op: Op, plan: Plan, k: nat)
    requires k <= |Script(op, plan)|
    ensures StateAt(s, op, plan, k).files == FilesAt(s.files, op, plan, k)
  {
    var h, n := |Head(op, plan)|, |plan.rows|;
    if k >= h {
      HeadFilesSettled(s.files, op, plan, k);
    }
    if k > h + n {
      LastFiles(MiddleState(s, op, plan, n), op, plan, s.files, k - h - n);
    }
  }

  lemma BrokenState(s: State, op: Op, plan: Plan, k: nat, s': State)
    requires BrokenAt(s, op, plan, k, s')
    ensures s' == Restored(StateAt(Started(s, op), op, plan, k), op)
  {
    ScriptAt(Started(s, op), op, plan, k);
  }

  lemma RolledBackFiles(s: State, op: Op, plan: Plan, k: nat, s': State)
    requires RolledBackAt(s, op, plan, k, s')
    ensures s'.files == RollbackFiles(FilesAt(s.files, op, plan, k), op)
  {
    if FailedAt(s, op, plan, k, s') {
      FailedState(s, op, plan, k, s');
    } else {
      BrokenState(s, op, plan, k, s');
    }
    StateFiles(Started(s, op), op, plan, k);
  }

  lemma CompletedFiles(s: State, op: Op, plan: Plan, s': State)
    requires Completed(s, op, plan, s')
    ensures s'.files == FilesAt(s.files, op, plan, |Script(op, plan)|)
  {
    CompletedState(s, op, plan, s');
    StateFiles(Started(s, op), op, plan, |Script(op, plan)|);
  }

  lemma UpdateFilesIff(files: map<DocPath, File>, op: Op, plan: Plan, k: nat)
    requires op.Update? && op.path in files
    ensures var p, b, unlink := op.path, BackupName(op.path), UnlinkStep(op, plan);
            var after := RollbackFiles(FilesAt(files, op, plan, k), op);
            && (after == files - {b} <==> 1 <= k <= unlink || (k == 0 && b in files && files[b] == files[p]))
            && (k == 0 && b !in files ==> after == files - {p})
            && (k > unlink ==> after == files - {p, b})
  {
    var p, b := op.path, BackupName(op.path);
    BackupNamesDiffer(p);
    var after := RollbackFiles(FilesAt(files, op, plan, k), op);
    if k == 0 {
      if b in files {
        assert after[p] == files[b];
        assert after == (files - {b})[p := files[b]];
      } else {
        assert p in files - {b} && p !in after;
      }
    } else if k <= UnlinkStep(op, plan) {
      assert after == files - {b};
    } else {
      assert p in files - {b} && p !in after;
      assert after == files - {p, b};
    }
  }

  lemma DeleteFilesIff(files: map<DocPath, File>, op: Op, plan: Plan, k: nat)
    requires op.Delete? && op.path in files
    ensures var p, d, unlink := op.path, DeletedName(op.path), UnlinkStep(op, plan);
            var after := RollbackFiles(FilesAt(files, op, plan, k), op);
            && (p in after && after[p] == files[p]
                <==> 1 <= k <= unlink || (k == 0 && (d !in files || files[d] == files[p])))
            && after - {p, d} == files - {p, d}
            && (k > unlink ==> p !in after)
  {
    BackupNamesDiffer(op.path);
  }

  // These hold whatever file and rows the operation set out to leave, and whether or not the handler could write
  // its status.

  /** A failed create leaves the files as they were, wherever it failed. */
  lemma CreateRollsBack(s: State, op: Op, plan: Plan, k: nat, s': State)
    requires op.Create? && RolledBackAt(s, op, plan, k, s')
    ensures s'.files == s.files
  {
    RolledBackFiles(s, op, plan, k, s');
  }

  /** A failed update leaves exactly the old files without a backup if and only if it failed after the
      rename to the backup and not after the removal of the backup - or in the rename itself while a
      leftover backup held the same file.  In the rename the handler deletes the document, and after the
      removal there is nothing to restore from. */
  lemma UpdateRollsBackIff(s: State, op: Op, plan: Plan, k: nat, s': State)
    requires op.Update? && RolledBackAt(s, op, plan, k, s')
    ensures var p, b, unlink := op.path, BackupName(op.path), UnlinkStep(op, plan);
            && (s'.files == s.files - {b}
                <==> 1 <= k <= unlink || (k == 0 && b in s.files && s.files[b] == s.files[p]))
            && (k == 0 && b !in s.files ==> s'.files == s.files - {p})
            && (k > unlink ==> s'.files == s.files - {p, b})
  {
    RolledBackFiles(s, op, plan, k, s');
    UpdateFilesIff(s.files, op, plan, k);
  }

  /** A failed delete leaves the document as it was if and only if it failed between the rename and the
      removal of the renamed file, or in the rename itself and no different leftover file of that name was
      there to be moved over the document. */
  lemma DeleteRollsBackIff(s: State, op: Op, plan: Plan, k: nat, s': State)
    requires op.Delete? && RolledBackAt(s, op, plan, k, s')
    ensures var p, d, unlink := op.path, DeletedName(op.path), UnlinkStep(op, plan);
            && (p in s'.files && s'.files[p] == s.files[p]
                <==> 1 <= k <= unlink || (k == 0 && (d !in s.files || s.files[d] == s.files[p])))
            && s'.files - {p, d} == s.files - {p, d}
            && (k > unlink ==> p !in s'.files)
  {
    RolledBackFiles(s, op, plan, k, s');
    DeleteFilesIff(s.files, op, plan, k);
  }

  /** The names whose files an operation may touch. */
  function Touched(op: Op): set<DocPath> {
    match op
    case Update(p, _, _) => {p, BackupName(p)}
    case Delete(p) => {p, DeletedName(p)}
    case _ => {op.path}
  }

  lemma StateFilesOutside(s: State, op: Op, plan: Plan, k: nat)
    requires k <= |Script(op, plan)|
    ensures StateAt(Started(s, op), op, plan, k).files - Touched(op) == s.files - Touched(op)
  {
    StateFiles(Started(s, op), op, plan, k);
    FilesAtOutside(s.files, op, plan, k);
  }

  lemma FilesOutside(s: State, op: Op, plan: Plan, s': State)
    requires Stepped(s, op, plan, s')
    ensures s'.files - Touched(op) == s.files - Touched(op)
  {
    if Completed(s, op, plan, s') {
      CompletedFiles(s, op, plan, s');
      FilesAtOutside(s.files, op, plan, |Script(op, plan)|);
    } else if exists k: nat :: FailedAt(s, op, plan, k, s') {
      var k: nat :| FailedAt(s, op, plan, k, s');
      RolledBackFiles(s, op, plan, k, s');
      FilesAtOutside(s.files, op, plan, k);
    }
  }

  lemma FilesAtOutside(files: map<DocPath, File>, op: Op, plan: Plan, k: nat)
    ensures FilesAt(files, op, plan, k) - Touched(op) == files - Touched(op)
    ensures RollbackFiles(FilesAt(files, op, plan, k), op) - Touched(op) == files - Touched(op)
  {
  }

  lemma BrokenFilesOutside(s: State, op: Op, plan: Plan, k: nat, s': State)
    requires BrokenAt(s, op, plan, k, s')
    ensures s'.files - Touched(op) == s.files - Touched(op)
  {
    RolledBackFiles(s, op, plan, k, s');
    FilesAtOutside(s.files, op, plan, k);
  }

  // ---------------------------------------------------------------- cancelled calls

  /** The step that writes IN_SYNC or drops the status. */
  function StatusStep(op: Op, plan: Plan): nat {
    |Head(op, plan)| + |plan.rows| + match op case Update(_, _, _) => 2 case _ => 1
  }

  lemma CancelledState(s: State, op: Op, plan: Plan, k: nat, s': State)
    requires CancelledAt(s, op, plan, k, s')
    ensures s' == StateAt(Started(s, op), op, plan, k)
  {
    ScriptAt(Started(s, op), op, plan, k);
  }

  /** A cancelled call leaves its document PROCESSING unless it was cancelled after the last status write;
      then it has done everything a completed call does. */
  lemma CancelledStatus(s: State, op: Op, plan: Plan, k: nat, s': State)
    requires CancelledAt(s, op, plan, k, s')
    ensures k <= StatusStep(op, plan) ==>
              && op.path in s'.statuses && s'.statuses[op.path].status == Processing
              && !s'.statuses[op.path].failed && s'.statuses[op.path].chunkCount == 0
              && s'.statuses[op.path].source == if op.Create? then Browser else Filesystem
    ensures k > StatusStep(op, plan) ==> Completed(s, op, plan, s')
  {
    CancelledState(s, op, plan, k, s');
    if k > StatusStep(op, plan) {
      ScriptAt(Started(s, op), op, plan, |Script(op, plan)|);
      TakeAll(Script(op, plan));
    }
  }

  /** So does a call whose handler could not write its status. */
  lemma BrokenStatus(s: State, op: Op, plan: Plan, k: nat, s': State)
    requires BrokenAt(s, op, plan, k, s')
    ensures op.path in s'.statuses
    ensures s'.statuses[op.path].status == if k <= StatusStep(op, plan) then Processing else InSync
  {
    BrokenState(s, op, plan, k, s');
  }

  lemma ScriptStep(op: Op, plan: Plan, k: nat)
    requires k < |Script(op, plan)|
    ensures Script(op, plan)[k].Rename? <==> k == 0 && (op.Update? || op.Delete?)
    ensures Script(op, plan)[k].Write? <==> k == 1 && (op.Create? || op.Update?)
    ensures Script(op, plan)[k].Unlink? <==> k == UnlinkStep(op, plan) && (op.Update? || op.Delete?)
  {
  }

  function With<K, V>(m: map<K, V>, k: K, v: V, present: bool): map<K, V> {
    if present then m[k := v] else m - {k}
  }

  /** The files after `k` steps, for the numbers of steps at which a call can be cancelled. */
  lemma AwaitedFiles(files: map<DocPath, File>, op: Op, plan: Plan, k: nat)
    requires op.Update? || op.Delete? ==> op.path in files
    requires op.Update? ==> k != 1
    ensures var p, kept, after := op.path, k <= UnlinkStep(op, plan), FilesAt(files, op, plan, k);
            match op
            case Create(_, _) => after == if k <= 1 then files else files[p := plan.file]
            case Update(_, _, _) =>
              after == if k == 0 then files else With(files, BackupName(p), files[p], kept)[p := plan.file]
            case Delete(_) => after == if k == 0 then files else With(files, DeletedName(p), files[p], kept) - {p}
            case Reindex(_) => after == files
  {
    BackupNamesDiffer(op.path);
  }

  /** What a cancelled call leaves of the files, unless it was cancelled in its first status write.  A create
      leaves its new file once it is written; an update the new file, with the old one under the backup name
      until that is removed; a delete the document under its backup name only, until that is removed. */
  lemma CancelledFiles(s: State, op: Op, plan: Plan, k: nat, s': State)
    requires CancelledAt(s, op, plan, k, s')
    ensures var p, kept := op.path, k <= UnlinkStep(op, plan);
            match op
            case Create(_, _) => s'.files == if k <= 1 then s.files else s.files[p := plan.file]
            case Update(_, _, _) =>
              s'.files == if k == 0 then s.files else With(s.files, BackupName(p), s.files[p], kept)[p := plan.file]
            case Delete(_) =>
              s'.files == if k == 0 then s.files else With(s.files, DeletedName(p), s.files[p], kept) - {p}
            case Reindex(_) => s'.files == s.files
  {
    CancelledState(s, op, plan, k, s');
    StateFiles(Started(s, op), op, plan, k);
    if op.Update? {
      NotBetween(s, op, plan, k, s');
    }
    AwaitedFiles(s.files, op, plan, k);
  }

  /** No update is cancelled between the rename to the backup and the write. */
  lemma NotBetween(s: State, op: Op, plan: Plan, k: nat, s': State)
    requires CancelledAt(s, op, plan, k, s') && op.Update?
    ensures k != 1
  {
    ScriptStep(op, plan, 0);
    ScriptStep(op, plan, 1);
  }
}
