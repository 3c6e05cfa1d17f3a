// What the admission transactions answer and publish, in the rows' own fields: when Admit and Readmit
// let a job in, queue it or refuse it, and what each kind of transaction finds and writes.
module AdmissionAnswers {
  import opened Prelude
  import opened Jobs
  import opened Admission
  import opened AdmissionProofs
  import opened AdmissionSafety

  // ---------------------------------------------------------------- the decision

  /** A queued row that the call has to line up behind; Readmit does not count its own. */
  predicate QueuedAhead(rows: Rows, op: Op, q: string)
    requires q in rows
  {
    rows[q].status == Queued && (q != op.id || op.kind.Admit?)
  }

  /** The rows its user has queued. */
  function Ahead(rows: Rows, op: Op): set<string> {
    set q | q in rows && rows[q].user == op.job.user && QueuedAhead(rows, op, q)
  }

  /**
   The job may start at once: its user has nothing queued and fewer than its number of downloads in
   flight, nobody is fetching its content, and if it is gated no gated job waits and 1 GB is left.
   */
  ghost predicate MayStart(rows: Rows, op: Op) {
    && (forall q | q in rows && rows[q].user == op.job.user :: !QueuedAhead(rows, op, q))
    && |set r | r in rows && rows[r].user == op.job.user && !rows[r].seed
                && rows[r].status in {Pending, Downloading, Processing, Publishing}|
         < (if op.maxConcurrent < 1 then 1 else op.maxConcurrent)
    && (forall r | r in rows && r != op.id && Lower(rows[r].hash) == Lower(op.job.hash) && !rows[r].seed ::
          rows[r].status !in {Pending, Downloading, Processing, Publishing})
    && (op.job.gated ==>
          && (forall q | q in rows && rows[q].gated :: !QueuedAhead(rows, op, q))
          && op.budget - Used(rows) >= 1_000_000_000)
  }

  /** What it has read is what the table holds. */
  ghost predicate Fresh(rows: Rows, tx: Tx)
    requires tx.Active?
  {
    var op, v := tx.op, tx.view;
    && (v.queued.Some? ==> v.queued.value == |Ahead(rows, op)|)
    && (v.inflight.Some? ==> v.inflight.value == |InflightIds(rows, op.job.user)|)
    && (v.hashActive.Some? ==> v.hashActive.value == (ActiveTwins(rows, op.job.hash, op.id) != {}))
    && (v.budgetQueued.Some? ==> (v.budgetQueued.value <==>
          exists q :: q in rows && rows[q].gated && QueuedAhead(rows, op, q)))
    && (v.used.Some? ==> v.used.value == Used(rows))
  }

  lemma CountIsFresh(rows: Rows, tx: Tx)
    requires tx.Active? && Fresh(rows, tx) && Decides(tx.op.kind)
    ensures Fresh(rows, CountQueued(rows, tx))
  {
    assert Ahead(rows, tx.op) ==
           if tx.op.kind.Admit? then QueuedIds(rows, tx.op.job.user) else OtherQueued(rows, tx.op.job.user, tx.op.id);
  }

  lemma BudgetQueueIsFresh(rows: Rows, tx: Tx)
    requires tx.Active? && Fresh(rows, tx) && Decides(tx.op.kind)
    ensures Fresh(rows, CheckBudgetQueue(rows, tx))
  {
    var others := if tx.op.kind.Admit? then GatedQueued(rows) else OtherGatedQueued(rows, tx.op.id);
    assert forall q :: q in others <==> q in rows && rows[q].gated && QueuedAhead(rows, tx.op, q);
  }

  /** Its next read leaves what it has read as the table holds it. */
  lemma ReadStaysFresh(rows: Rows, tx: Tx)
    requires tx.Active? && StageConsistent(tx) && Decides(tx.op.kind) && Index(tx.stage) < 11 && Fresh(rows, tx)
    ensures Statement(rows, tx).Active? ==> Statement(rows, tx).op == tx.op && Fresh(rows, Statement(rows, tx))
  {
    if tx.stage.ReadQueued? {
      CountIsFresh(rows, tx);
    } else if tx.stage.ReadBudgetQueue? {
      BudgetQueueIsFresh(rows, tx);
    }
  }

  lemma NobodyAhead(rows: Rows, op: Op)
    ensures |Ahead(rows, op)| > 0 <==> exists q :: q in rows && rows[q].user == op.job.user && QueuedAhead(rows, op, q)
  {
    if q :| q in rows && rows[q].user == op.job.user && QueuedAhead(rows, op, q) {
      assert q in Ahead(rows, op);
    }
    if Ahead(rows, op) != {} {
      var q :| q in Ahead(rows, op);
      assert QueuedAhead(rows, op, q);
    }
  }

  lemma ContentFetched(rows: Rows, hash: string, id: string)
    ensures ActiveTwins(rows, hash, id) == {} <==>
            forall r | r in rows && r != id && Lower(rows[r].hash) == Lower(hash) && !rows[r].seed ::
              rows[r].status !in {Pending, Downloading, Processing, Publishing}
  {
    assert forall r :: r in ActiveTwins(rows, hash, id) <==>
                       r in rows && r != id && Lower(rows[r].hash) == Lower(hash) && UsesSlot(rows[r]);
  }

  lemma SlotsInFields(rows: Rows, user: string, maxConcurrent: int)
    ensures |InflightIds(rows, user)| >= Slots(maxConcurrent) <==>
            |set r | r in rows && rows[r].user == user && !rows[r].seed
                     && rows[r].status in {Pending, Downloading, Processing, Publishing}|
              >= (if maxConcurrent < 1 then 1 else maxConcurrent)
  {
    assert InflightIds(rows, user) ==
           set r | r in rows && rows[r].user == user && !rows[r].seed
                   && rows[r].status in {Pending, Downloading, Processing, Publishing};
  }

  /** The decision, on reads that are still true. */
  lemma FreshDecision(rows: Rows, tx: Tx)
    requires tx.Active? && StageConsistent(tx) && tx.stage.Decide? && Fresh(rows, tx)
    ensures MustWait(tx.op, tx.view) <==> !MayStart(rows, tx.op)
    ensures tx.view.queued.value == |Ahead(rows, tx.op)|
  {
    NobodyAhead(rows, tx.op);
    ContentFetched(rows, tx.op.job.hash, tx.op.id);
    SlotsInFields(rows, tx.op.job.user, tx.op.maxConcurrent);
  }

  // ---------------------------------------------------------------- undisturbed

  /** From step i to step j only transaction t moves. */
  ghost predicate Undisturbed(run: seq<State>, i: nat, j: nat, t: nat) {
    i <= j < |run| && forall k: nat | i <= k < j :: Enabled(run[k], t) && run[k + 1] == Advance(run[k], t)
  }

  /** It has read nothing yet that the decision is about. */
  ghost predicate Unread(s: State, t: nat) {
    && t in s.txs && s.txs[t].Active? && Decides(s.txs[t].op.kind) && Index(s.txs[t].stage) <= 5
  }

  lemma UnreadIsFresh(rows: Rows, tx: Tx)
    requires tx.Active? && StageConsistent(tx) && Index(tx.stage) <= 5
    ensures Fresh(rows, tx)
  {
  }

  ghost predicate FreshAt(s: State, t: nat, rows: Rows, op: Op) {
    && t in s.txs && s.txs[t].Active? && s.txs[t].op == op && Decides(op.kind)
    && StageConsistent(s.txs[t]) && s.rows == rows && Fresh(rows, s.txs[t])
  }

  /** It is still reading, or about to decide. */
  ghost predicate Reading(s: State, t: nat) { t in s.txs && s.txs[t].Active? && Index(s.txs[t].stage) <= 11 }

  lemma ReadOn(c: Config, s: State, t: nat, rows: Rows, op: Op)
    requires Inv(c, s) && Enabled(s, t) && (Reading(s, t) ==> FreshAt(s, t, rows, op))
    ensures Reading(Advance(s, t), t) ==> FreshAt(Advance(s, t), t, rows, op)
  {
    if Reading(Advance(s, t), t) {
      var tx := s.txs[t];
      StatementsProgress(s, t);
      ReadStaysFresh(rows, tx);
      StatementKeeps(c, rows, tx);
    }
  }

  lemma UndisturbedStep(c: Config, run: seq<State>, i: nat, j: nat, t: nat, k: nat, rows: Rows, op: Op)
    requires Run(c, run) && Undisturbed(run, i, j, t) && i <= k < j
    requires Reading(run[k], t) ==> FreshAt(run[k], t, rows, op)
    ensures Reading(run[k + 1], t) ==> FreshAt(run[k + 1], t, rows, op)
  {
    RunKeepsInv(c, run, k);
    ReadOn(c, run[k], t, rows, op);
  }

  lemma StaysFresh(c: Config, run: seq<State>, i: nat, j: nat, t: nat)
    requires Run(c, run) && Undisturbed(run, i, j, t) && Unread(run[i], t) && Reading(run[j], t)
    ensures FreshAt(run[j], t, run[i].rows, run[i].txs[t].op)
  {
    var rows, op := run[i].rows, run[i].txs[t].op;
    TxInvInRun(c, run, i, t);
    UnreadIsFresh(rows, run[i].txs[t]);
    var upToDate := seq(|run|, k requires 0 <= k < |run| => Reading(run[k], t) ==> FreshAt(run[k], t, rows, op));
    forall k | i <= k < j && upToDate[k]
      ensures upToDate[k + 1]
    {
      UndisturbedStep(c, run, i, j, t, k, rows, op);
    }
    HandedOn(upToDate, i, j);
  }

  /**
   Left undisturbed while it reads, an Admit or a Readmit makes its job pending exactly when it may
   start; otherwise it refuses exactly when there is a limit and the queue has reached it, and else
   queues the job.
   */
  lemma DecisionIsExact(c: Config, run: seq<State>, i: nat, j: nat, t: nat)
    requires Run(c, run) && Undisturbed(run, i, j, t) && Unread(run[i], t)
    requires t in run[j].txs && run[j].txs[t].Active? && run[j].txs[t].stage.Decide?
    ensures Enabled(run[j], t)
    ensures var rows, op, next := run[i].rows, run[i].txs[t].op, Advance(run[j], t).txs[t];
            && (next.Active? && next.view.write.Some? && next.view.write.value.status == Pending <==>
                  MayStart(rows, op))
            && (next == Finished(QueueFull) <==>
                  && !MayStart(rows, op) && op.maxQueued > 0
                  && |set q | q in rows && rows[q].user == op.job.user && QueuedAhead(rows, op, q)| >= op.maxQueued)
            && (next.Active? <==> next != Finished(QueueFull))
            && (next.Active? && !MayStart(rows, op) ==> next.view.write.value.status == Queued)
  {
    StaysFresh(c, run, i, j, t);
    FreshDecision(run[i].rows, run[j].txs[t]);
    DecidesOnce(run[j], t);
  }

  lemma DecidesOnce(s: State, t: nat)
    requires t in s.txs && s.txs[t].Active? && s.txs[t].stage.Decide? && StageConsistent(s.txs[t])
    ensures Enabled(s, t)
    ensures var tx, next := s.txs[t], Advance(s, t).txs[t];
            var wait, full := MustWait(tx.op, tx.view), tx.op.maxQueued > 0 && tx.view.queued.value >= tx.op.maxQueued;
            if wait && full then next == Finished(QueueFull)
            else
              && next.Active? && next.view.write.Some?
              && next.view.write.value.status == if wait then Queued else Pending
  {
  }

  // ---------------------------------------------------------------- where a transaction ends early

  /** Another live download of the same account and content; Readmit does not count its own row. */
  predicate Rival(rows: Rows, op: Op, a: string) {
    && a in rows && rows[a].user == op.job.user && Lower(rows[a].hash) == Lower(op.job.hash)
    && rows[a].user != "" && rows[a].user != "system" && rows[a].user != "prewarm" && rows[a].hash != ""
    && !rows[a].seed && rows[a].status != Failed && rows[a].status != Evicted
    && (a != op.id || op.kind.Admit?)
  }

  /** The row lock: Readmit goes on with a failed, evicted or complete row, PromoteQueued with a queued one. */
  lemma RowLockAnswers(rows: Rows, tx: Tx)
    requires tx.Active? && StageConsistent(tx) && tx.stage.WantRow?
    ensures var id, next := tx.op.id, Statement(rows, tx);
            && (next.Active? <==>
                  && id in rows
                  && rows[id].status in (if tx.op.kind.Readmit? then {Failed, Evicted, Complete} else {Queued}))
            && (next.Active? ==> next.view.row == Some(rows[id]))
            && (next.Finished? ==> next.outcome == if tx.op.kind.Promote? then NotPromoted
                                                   else if id in rows then Existing(id) else NotFound)
  {
  }

  /** The lookup ends a new download of an account exactly at its live row, whatever the queue holds. */
  lemma LookupAnswers(c: Config, rows: Rows, tx: Tx)
    requires RowsInv(c, rows) && tx.Active? && TxInv(c, rows, tx) && tx.stage.ReadLive? && AccountJob(tx.op.job)
    ensures Statement(rows, tx).Active? <==> !exists a :: Rival(rows, tx.op, a)
    ensures forall a | Rival(rows, tx.op, a) :: Statement(rows, tx) == Finished(Existing(a))
  {
    var twins := LiveTwins(rows, tx.op.job.user, tx.op.job.hash);
    assert Subject(tx).user == tx.op.job.user && Subject(tx).hash == tx.op.job.hash && AccountJob(Subject(tx));
    forall a
      ensures Rival(rows, tx.op, a) <==> a in twins && (a != tx.op.id || tx.op.kind.Admit?)
    {
      LiveInFields(rows, tx.op.job.user, tx.op.job.hash, a);
    }
    assert forall a, b | a in twins && b in twins :: a == b;
  }

  lemma LiveInFields(rows: Rows, user: string, hash: string, a: string)
    ensures a in LiveTwins(rows, user, hash) <==>
            && a in rows && rows[a].user == user && Lower(rows[a].hash) == Lower(hash)
            && rows[a].user != "" && rows[a].user != "system" && rows[a].user != "prewarm" && rows[a].hash != ""
            && !rows[a].seed && rows[a].status != Failed && rows[a].status != Evicted
  {
  }

  /** System, prewarm and seed work, and work without a hash, is never looked up. */
  lemma NobodyElseIsLookedUp(c: Config, rows: Rows, tx: Tx)
    requires WellFormedRows(c, rows) && tx.Active? && TxInv(c, rows, tx) && tx.stage.ReadLive?
    requires var j := tx.op.job; j.user in {"", "system", "prewarm"} || j.hash == "" || j.seed
    ensures Statement(rows, tx).Active?
  {
    assert IdentOf(Subject(tx)) == IdentOf(tx.op.job);
  }

  /** Locks, and the counts of Admit and Readmit, never end a transaction. */
  lemma ReadsGoOn(rows: Rows, tx: Tx)
    requires tx.Active? && StageConsistent(tx)
    requires || tx.stage in {WantGlobal, WantUser, WantHash, WantKey}
             || (Decides(tx.op.kind)
                 && tx.stage in {ReadQueued, ReadInflight, ReadHash, ReadBudgetQueue, ReadBudgetUsed})
    ensures Statement(rows, tx).Active?
  {
  }

  /** An insert ends at its own id, or at a live row of the same account and content, and at nothing else. */
  lemma InsertAnswers(c: Config, rows: Rows, tx: Tx)
    requires tx.Active? && TxInv(c, rows, tx) && tx.stage.Write? && Inserts(tx.op.kind)
    ensures var id, row, next := tx.op.id, (if tx.op.kind.Admit? then tx.view.write.value else tx.op.job),
                                 Statement(rows, tx);
            && (next == Finished(DuplicateKey) <==> id in rows)
            && (next.Active? ==> next.view.write == Some(row))
            && (id !in rows ==>
                  (next.Finished? <==> LiveIdentity(row) && exists a :: a in LiveTwins(rows, row.user, row.hash)))
            && (next.Finished? && id !in rows ==>
                  next.outcome.Existing? && next.outcome.id in LiveTwins(rows, row.user, row.hash))
  {
    var row := if tx.op.kind.Admit? then tx.view.write.value else tx.op.job;
    if LiveTwins(rows, row.user, row.hash) != {} {
      assert AnyOf(LiveTwins(rows, row.user, row.hash)) in LiveTwins(rows, row.user, row.hash);
    }
  }

  // ---------------------------------------------------------------- what is published

  /** The row it is going to publish: the new row with its status, or the locked row changed as the update does. */
  ghost predicate PublishesExactly(tx: Tx) {
    tx.Active? && tx.view.write.Some? ==>
      var w := tx.view.write.value;
      match tx.op.kind
      case Admit => w.status in {Pending, Queued} && w == tx.op.job.(status := w.status)
      case CreateOnce => w == tx.op.job
      case Readmit => tx.view.row.Some? && w.status in {Pending, Queued}
        && w == tx.view.row.value.(status := w.status, error := "", node := "", progress := 0, speed := 0,
                                   created := tx.op.now)
      case Promote => tx.view.row.Some? && w == tx.view.row.value.(status := Pending, node := "")
  }

  lemma StatementPublishes(rows: Rows, tx: Tx)
    requires tx.Active? && StageConsistent(tx) && !tx.stage.Commit? && PublishesExactly(tx)
    ensures PublishesExactly(Statement(rows, tx))
  {
    if tx.stage.Write? {
      assert Statement(rows, tx) == WriteRow(rows, tx);
    }
  }

  lemma PublishStep(c: Config, s: State, s': State, t: nat)
    requires Next(c, s, s') && t in s'.txs && (t in s.txs ==> PublishesExactly(s.txs[t]))
    ensures PublishesExactly(s'.txs[t])
  {
    if s'.txs[t].Active? {
      Moved(c, s, s', t);
      if t in s.txs && s'.txs[t] != s.txs[t] {
        StatementPublishes(s.rows, s.txs[t]);
      }
    }
  }

  lemma PublishStepInRun(c: Config, run: seq<State>, k: nat, t: nat)
    requires Run(c, run) && k + 1 < |run|
    requires t in run[k].txs ==> PublishesExactly(run[k].txs[t])
    ensures t in run[k + 1].txs ==> PublishesExactly(run[k + 1].txs[t])
  {
    assert Next(c, run[k], run[k + 1]);
    if t in run[k + 1].txs {
      PublishStep(c, run[k], run[k + 1], t);
    }
  }

  lemma AlwaysPublishesExactly(c: Config, run: seq<State>, i: nat, t: nat)
    requires Run(c, run) && i < |run| && t in run[i].txs
    ensures PublishesExactly(run[i].txs[t])
  {
    var flags := seq(|run|, k requires 0 <= k < |run| => t in run[k].txs ==> PublishesExactly(run[k].txs[t]));
    assert run[0].txs == map[];
    forall k | 0 <= k < i && flags[k]
      ensures flags[k + 1]
    {
      PublishStepInRun(c, run, k, t);
    }
    HandedOn(flags, 0, i);
  }

  /** A commit changes one row, and answers by it. */
  lemma CommitPublishes(c: Config, run: seq<State>, i: nat, t: nat) returns (w: Job)
    requires Run(c, run) && i < |run| && Enabled(run[i], t) && run[i].txs[t].stage.Commit?
    ensures var s, op := run[i], run[i].txs[t].op;
            && Advance(s, t).rows == s.rows[op.id := w]
            && (op.id in s.rows <==> op.kind in {Readmit, Promote})
            && (op.kind.Admit? ==> w == op.job.(status := w.status))
            && (op.kind.CreateOnce? ==> w == op.job && Advance(s, t).txs[t] == Finished(Created))
            && (op.kind.Readmit? ==> w == s.rows[op.id].(status := w.status, error := "", node := "", progress := 0,
                                                         speed := 0, created := op.now))
            && (op.kind.Promote? ==> w == s.rows[op.id].(status := Pending, node := "")
                                     && Advance(s, t).txs[t] == Finished(Promoted))
            && (Decides(op.kind) ==>
                  || (w.status == Pending && Advance(s, t).txs[t] == Finished(Admitted))
                  || (w.status == Queued && Advance(s, t).txs[t] == Finished(Enqueued)))
  {
    TxInvInRun(c, run, i, t);
    AlwaysPublishesExactly(c, run, i, t);
    w := run[i].txs[t].view.write.value;
  }
}
