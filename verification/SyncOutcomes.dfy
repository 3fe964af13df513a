/** How a document operation ends, in terms of what throws during it and of the configured batch size. */
module SyncOutcomes {
  import opened SyncModel
  import opened SyncTruth
  import opened SyncRuns
  import opened SyncManager

  /** A call is refused exactly if its first status write throws, a document to be created exists, one to be
      updated, deleted or reindexed is missing, or one to be updated has changed by more than a second either
      way since the caller read it.  It succeeds exactly if it is not refused and no step of its script
      throws. */
  lemma DoneIff(s: State, op: Op, env: Env, faults: Faults, outcome: Outcome, k: nat, s': State)
    requires Ran(s, op, env, faults, outcome, k, s')
    ensures outcome == Refused
       <==> || faults.first
            || (op.path in s.files <==> op.Create?)
            || (op.Update? && op.expectedMtime.Some?
                && (|| s.files[op.path].mtime - op.expectedMtime.value > 1.0
                    || op.expectedMtime.value - s.files[op.path].mtime > 1.0))
    ensures outcome == Refused ==> s' == s
    ensures outcome == Done
       <==> && Begins(s, op) && !faults.first
            && var plan := PlanOf(s, op, env);
               Reaches(op, plan, faults, env.batchSize, |Script(op, plan)|)
  {
    if Begins(s, op) && !faults.first {
      StopsOnce(op, PlanOf(s, op, env), faults, env.batchSize, k);
    }
  }

  lemma StopsOnce(op: Op, plan: Plan, f: Faults, batchSize: int, k: nat)
    requires Stops(op, plan, f, batchSize, k)
    ensures k == |Script(op, plan)| <==> Reaches(op, plan, f, batchSize, |Script(op, plan)|)
  {
    if k < |Script(op, plan)| {
      assert StepThrows(op, plan, f, batchSize, k);
    }
  }

  /** The embedding step of a document's script. */
  lemma EmbeddingStep(op: Op, plan: Plan, f: Faults, batchSize: int)
    requires !op.Delete?
    ensures var k := |Head(op, plan)| - 1;
            0 <= k < |Script(op, plan)|
            && (StepThrows(op, plan, f, batchSize, k)
                <==> !Embeds(f, batchSize, plan.count, IsLarge(plan.file.text)))
  {
  }

  /** No operation on a document succeeds with a batch size of zero, nor a small document with a negative
      one. */
  lemma DoneNeedsVectors(s: State, op: Op, env: Env, faults: Faults, k: nat, s': State)
    requires Ran(s, op, env, faults, Done, k, s') && !op.Delete?
    ensures Begins(s, op)
    ensures env.batchSize > 0 || (env.batchSize < 0 && IsLarge(PlanOf(s, op, env).file.text))
  {
    var plan := PlanOf(s, op, env);
    StopsOnce(op, plan, faults, env.batchSize, k);
    EmbeddingStep(op, plan, faults, env.batchSize);
    assert !StepThrows(op, plan, faults, env.batchSize, |Head(op, plan)| - 1);
  }

  /** The IN_SYNC a successful update or reindex of a large document writes is truthful exactly if the batch
      size is positive. */
  lemma LargeTruthfulIff(s: State, op: Op, env: Env, faults: Faults, k: nat, s': State)
    requires Ran(s, op, env, faults, Done, k, s') && (op.Update? || op.Reindex?)
    requires Begins(s, op) && IsLarge(PlanOf(s, op, env).file.text)
    ensures Truthful(s', env.embed, op.path) <==> env.batchSize > 0
  {
    DoneNeedsVectors(s, op, env, faults, k, s');
    CompletedTruthfulIff(s, op, env, s');
    NoChunking(op.path, PlanOf(s, op, env).file.text, env.embed);
  }
}
