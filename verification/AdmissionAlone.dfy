// The promotion transaction, left undisturbed, is the scheduler's PromoteQueued.
module AdmissionAlone {
  import opened Prelude
  import opened Jobs
  import opened Admission
  import Scheduler

  /** The statements of a promotion after its row is locked, with no other statement in between. */
  ghost function PromoteChecks(rows: Rows, tx: Tx): Tx
    requires tx.Active?
  {
    var a := CountInflight(rows, tx);
    if a.Finished? then a
    else
      var b := CheckOlder(rows, a);
      if b.Finished? then b
      else
        var d := CheckHash(rows, b);
        if d.Finished? || !tx.op.job.gated then d else CheckBudgetUsed(rows, d)
  }

  /** They pass exactly when the scheduler's method would promote, and then publish the same row. */
  lemma PromoteTransactionAgrees(c: Config, rows: Rows, tx: Tx)
    requires WellFormedRows(c, rows) && tx.Active? && TxInv(c, rows, tx)
    requires tx.stage.ReadInflight? && tx.op.kind.Promote?
    ensures var end := PromoteChecks(rows, tx);
            && (end.Active? <==>
                  Scheduler.VerdictOn(rows, tx.op.id, tx.op.maxConcurrent, tx.op.budget) == Scheduler.Promotable)
            && (end.Active? <==> Scheduler.MayPromote(rows, tx.op.id, tx.op.maxConcurrent, tx.op.budget))
            && (end.Finished? ==> end.outcome == NotPromoted)
            && (end.Active? ==> end.stage.Write? && end.view.row == Some(rows[tx.op.id]))
  {
    assert IdentOf(rows[tx.op.id]) == IdentOf(tx.op.job);
    Scheduler.VerdictInFields(rows, tx.op.id, tx.op.maxConcurrent, tx.op.budget);
  }

  /** The scheduler's conditional updates are among the writes every admission transaction tolerates. */
  lemma QueueEditsAreWorkerWrites(c: Config, job: Job, priority: int, reason: string)
    requires job.status == Queued
    ensures WorkerWrite(c, job, job.(priority := priority))
    ensures WorkerWrite(c, job, job.(status := Failed, error := reason))
  {
  }
}
