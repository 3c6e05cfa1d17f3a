// What every interleaving of admission transactions and worker writes keeps.
module AdmissionProofs {
  import opened Prelude
  import opened Jobs
  import opened Admission

  // ---------------------------------------------------------------- a transaction's own statements

  lemma TakeLockKeeps(c: Config, rows: Rows, tx: Tx)
    requires tx.Active? && TxInv(c, rows, tx) && (tx.stage.WantGlobal? || tx.stage.WantUser? || tx.stage.WantHash?)
    ensures TxInv(c, rows, TakeLock(tx))
  {
  }

  lemma TakeKeyKeeps(c: Config, rows: Rows, tx: Tx)
    requires tx.Active? && TxInv(c, rows, tx) && tx.stage.WantKey?
    ensures TxInv(c, rows, TakeLock(tx))
  {
  }

  lemma TakeRowKeeps(c: Config, rows: Rows, tx: Tx)
    requires tx.Active? && TxInv(c, rows, tx) && tx.stage.WantRow?
    ensures TxInv(c, rows, TakeRow(rows, tx))
  {
  }

  lemma LookupFindsRivals(rows: Rows, tx: Tx)
    requires OneLiveRowPerAccount(rows) && tx.Active? && StageConsistent(tx) && tx.stage.ReadLive?
    requires tx.view.row.Some? ==> IdentOf(tx.view.row.value) == IdentOf(tx.op.job)
    ensures LookupLive(rows, tx).Active? ==> NoOtherAccountRow(rows, tx.op)
  {
    assert AccountJob(Subject(tx)) == AccountJob(tx.op.job);
    var twins := LiveTwins(rows, tx.op.job.user, tx.op.job.hash);
    assert forall a, b | a in twins && b in twins :: a == b;
  }

  lemma LookupLiveKeeps(c: Config, rows: Rows, tx: Tx)
    requires WellFormedRows(c, rows) && OneLiveRowPerAccount(rows) && tx.Active? && TxInv(c, rows, tx)
               && tx.stage.ReadLive?
    ensures TxInv(c, rows, LookupLive(rows, tx))
  {
    LookupFindsRivals(rows, tx);
  }

  lemma CountQueuedKeeps(c: Config, rows: Rows, tx: Tx)
    requires tx.Active? && TxInv(c, rows, tx) && tx.stage.ReadQueued?
    ensures TxInv(c, rows, CountQueued(rows, tx))
  {
    SubsetCardinality(OtherQueued(rows, tx.op.job.user, tx.op.id), QueuedIds(rows, tx.op.job.user));
  }

  lemma CountInflightKeeps(c: Config, rows: Rows, tx: Tx)
    requires tx.Active? && TxInv(c, rows, tx) && tx.stage.ReadInflight?
    ensures TxInv(c, rows, CountInflight(rows, tx))
  {
  }

  lemma CheckOlderKeeps(c: Config, rows: Rows, tx: Tx)
    requires tx.Active? && TxInv(c, rows, tx) && tx.stage.ReadOlder?
    ensures TxInv(c, rows, CheckOlder(rows, tx))
  {
  }

  lemma CheckHashKeeps(c: Config, rows: Rows, tx: Tx)
    requires tx.Active? && TxInv(c, rows, tx) && tx.stage.ReadHash? && Decides(tx.op.kind)
    ensures TxInv(c, rows, CheckHash(rows, tx))
  {
  }

  lemma CheckHashExactlyKeeps(c: Config, rows: Rows, tx: Tx)
    requires tx.Active? && TxInv(c, rows, tx) && tx.stage.ReadHash? && tx.op.kind.Promote?
    ensures TxInv(c, rows, CheckHash(rows, tx))
  {
  }

  lemma CheckBudgetQueueKeeps(c: Config, rows: Rows, tx: Tx)
    requires tx.Active? && TxInv(c, rows, tx) && tx.stage.ReadBudgetQueue?
    ensures TxInv(c, rows, CheckBudgetQueue(rows, tx))
  {
    assert OtherGatedQueued(rows, tx.op.id) <= GatedQueued(rows);
  }

  lemma CheckBudgetUsedKeeps(c: Config, rows: Rows, tx: Tx)
    requires tx.Active? && TxInv(c, rows, tx) && tx.stage.ReadBudgetUsed? && Decides(tx.op.kind)
    ensures TxInv(c, rows, CheckBudgetUsed(rows, tx))
  {
  }

  lemma CheckPromoteBudgetKeeps(c: Config, rows: Rows, tx: Tx)
    requires tx.Active? && TxInv(c, rows, tx) && tx.stage.ReadBudgetUsed? && tx.op.kind.Promote?
    ensures TxInv(c, rows, CheckBudgetUsed(rows, tx))
  {
  }

  lemma DecisionJustified(c: Config, rows: Rows, op: Op, v: View)
    requires WellFormedRows(c, rows) && OpOk(c, op) && FactsHold(c, rows, op, v) && Decides(op.kind)
               && ReadsMade(op, 11, v)
    requires !(MustWait(op, v) && op.maxQueued > 0 && v.queued.value >= op.maxQueued)
    ensures WriteJustified(c, op, v.(write := Some(DecidedRow(op, v, if MustWait(op, v) then Queued else Pending))))
  {
  }

  lemma WriteLeavesFacts(c: Config, rows: Rows, op: Op, v: View, write: Option<Job>)
    ensures FactsHold(c, rows, op, v) <==> FactsHold(c, rows, op, v.(write := write))
  {
  }

  lemma DecisionKeepsStage(tx: Tx)
    requires tx.Active? && StageConsistent(tx) && LocksOrdered(tx) && tx.stage.Decide?
    ensures var next := DecideStatus(tx); next.Active? ==> StageConsistent(next) && LocksOrdered(next)
  {
  }

  lemma DecideStatusKeeps(c: Config, rows: Rows, tx: Tx)
    requires WellFormedRows(c, rows) && tx.Active? && TxInv(c, rows, tx) && tx.stage.Decide?
    ensures TxInv(c, rows, DecideStatus(tx))
  {
    var next := DecideStatus(tx);
    DecisionKeepsStage(tx);
    if next.Active? {
      WriteLeavesFacts(c, rows, tx.op, tx.view, next.view.write);
      DecisionJustified(c, rows, tx.op, tx.view);
    }
  }

  lemma InsertNewKeeps(c: Config, rows: Rows, tx: Tx)
    requires tx.Active? && TxInv(c, rows, tx) && tx.stage.Write? && tx.op.kind.Admit?
    ensures TxInv(c, rows, WriteRow(rows, tx))
  {
    if WriteRow(rows, tx).Active? {
      assert WriteRow(rows, tx).view == tx.view;
    }
  }

  lemma CreateKeeps(c: Config, rows: Rows, tx: Tx)
    requires tx.Active? && TxInv(c, rows, tx) && tx.stage.Write? && tx.op.kind.CreateOnce?
    ensures TxInv(c, rows, WriteRow(rows, tx))
  {
  }

  lemma UpdateKeeps(c: Config, rows: Rows, tx: Tx)
    requires tx.Active? && TxInv(c, rows, tx) && tx.stage.Write? && tx.op.kind.Readmit?
    ensures TxInv(c, rows, WriteRow(rows, tx))
  {
  }

  lemma PromoteKeeps(c: Config, rows: Rows, tx: Tx)
    requires WellFormedRows(c, rows) && tx.Active? && TxInv(c, rows, tx) && tx.stage.Write? && tx.op.kind.Promote?
    ensures TxInv(c, rows, WriteRow(rows, tx))
  {
  }

  lemma WriteKeeps(c: Config, rows: Rows, tx: Tx)
    requires WellFormedRows(c, rows) && tx.Active? && TxInv(c, rows, tx) && tx.stage.Write?
    ensures TxInv(c, rows, WriteRow(rows, tx))
  {
    match tx.op.kind
    case Admit => InsertNewKeeps(c, rows, tx);
    case Readmit => UpdateKeeps(c, rows, tx);
    case Promote => PromoteKeeps(c, rows, tx);
    case CreateOnce => CreateKeeps(c, rows, tx);
  }

  lemma StatementKeeps(c: Config, rows: Rows, tx: Tx)
    requires WellFormedRows(c, rows) && OneLiveRowPerAccount(rows)
    requires tx.Active? && !tx.stage.Commit? && TxInv(c, rows, tx)
    ensures TxInv(c, rows, Statement(rows, tx))
  {
    match tx.stage
    case WantGlobal => TakeLockKeeps(c, rows, tx);
    case WantUser => TakeLockKeeps(c, rows, tx);
    case WantHash => TakeLockKeeps(c, rows, tx);
    case WantKey => TakeKeyKeeps(c, rows, tx);
    case WantRow => TakeRowKeeps(c, rows, tx);
    case ReadLive => LookupLiveKeeps(c, rows, tx);
    case ReadQueued => CountQueuedKeeps(c, rows, tx);
    case ReadInflight => CountInflightKeeps(c, rows, tx);
    case ReadOlder => CheckOlderKeeps(c, rows, tx);
    case ReadHash =>
      if tx.op.kind.Promote? { CheckHashExactlyKeeps(c, rows, tx); } else { CheckHashKeeps(c, rows, tx); }
    case ReadBudgetQueue => CheckBudgetQueueKeeps(c, rows, tx);
    case ReadBudgetUsed =>
      if tx.op.kind.Promote? { CheckPromoteBudgetKeeps(c, rows, tx); } else { CheckBudgetUsedKeeps(c, rows, tx); }
    case Decide => DecideStatusKeeps(c, rows, tx);
    case Write => WriteKeeps(c, rows, tx);
  }

  lemma StatementTakesOnlyWanted(rows: Rows, tx: Tx)
    requires tx.Active? && !tx.stage.Commit? && StageConsistent(tx)
    ensures var next := Statement(rows, tx);
            next.Active? ==> next.held == tx.held + (if Wanted(tx).Some? then {Wanted(tx).value} else {})
  {
  }

  // ---------------------------------------------------------------- what others' writes leave alone

  /** Nothing of this user became live. */
  ghost predicate QuietForAccount(before: Rows, after: Rows, user: string) {
    forall id | id in after && after[id].user == user && LiveIdentity(after[id]) ::
      id in before && before[id].user == user && before[id].hash == after[id].hash && LiveIdentity(before[id])
  }

  /** Nothing of this user came into flight. */
  ghost predicate QuietForSlots(before: Rows, after: Rows, user: string) {
    forall id | id in after && after[id].user == user && UsesSlot(after[id]) ::
      id in before && before[id].user == user && UsesSlot(before[id])
  }

  ghost predicate QuietForQueue(before: Rows, after: Rows, user: string) {
    forall id | id in after && after[id].user == user && after[id].status == Queued ::
      id in before && before[id].user == user && before[id].status == Queued
  }

  ghost predicate QuietForHash(before: Rows, after: Rows, hash: string) {
    forall id | id in after && Lower(after[id].hash) == Lower(hash) && UsesSlot(after[id]) ::
      id in before && before[id].hash == after[id].hash && UsesSlot(before[id])
  }

  ghost predicate QuietForGate(before: Rows, after: Rows) {
    forall id | id in after && after[id].gated && after[id].status == Queued ::
      id in before && before[id].gated && before[id].status == Queued
  }

  lemma QuietTwins(before: Rows, after: Rows, user: string, hash: string)
    requires QuietForAccount(before, after, user)
    ensures LiveTwins(after, user, hash) <= LiveTwins(before, user, hash)
  {
  }

  lemma QuietSlots(before: Rows, after: Rows, user: string)
    requires QuietForSlots(before, after, user)
    ensures |InflightIds(after, user)| <= |InflightIds(before, user)|
  {
    SubsetCardinality(InflightIds(after, user), InflightIds(before, user));
  }

  lemma QuietQueue(before: Rows, after: Rows, user: string, id: string)
    requires QuietForQueue(before, after, user)
    ensures |QueuedIds(after, user)| <= |QueuedIds(before, user)|
    ensures |OtherQueued(after, user, id)| <= |OtherQueued(before, user, id)|
  {
    SubsetCardinality(QueuedIds(after, user), QueuedIds(before, user));
    SubsetCardinality(OtherQueued(after, user, id), OtherQueued(before, user, id));
  }

  /** A change that is quiet for what a transaction's locks protect leaves everything it has read true. */
  lemma FactsSurvive(c: Config, before: Rows, after: Rows, op: Op, v: View)
    requires FactsHold(c, before, op, v)
    requires v.twinFree ==> QuietForAccount(before, after, op.job.user)
    requires v.queued.Some? && QueueUnderLock(c, op.job.user) ==> QuietForQueue(before, after, op.job.user)
    requires v.inflight.Some? && SlotsUnderLock(c, op.job.user) ==> QuietForSlots(before, after, op.job.user)
    requires v.budgetQueued.Some? && NeverGateQueued(c) ==> QuietForGate(before, after)
    requires v.used.Some? && NeverOnBudget(c) ==> Used(after) <= Used(before)
    requires v.row.Some? ==> op.id in after && after[op.id] == before[op.id]
    ensures FactsHold(c, after, op, v)
  {
    if v.twinFree {
      QuietTwins(before, after, op.job.user, op.job.hash);
    }
    if v.queued.Some? && QueueUnderLock(c, op.job.user) {
      QuietQueue(before, after, op.job.user, op.id);
    }
    if v.inflight.Some? && SlotsUnderLock(c, op.job.user) {
      QuietSlots(before, after, op.job.user);
    }
    if v.budgetQueued == Some(false) && NeverGateQueued(c) {
      assert OtherGatedQueued(after, op.id) <= OtherGatedQueued(before, op.id);
    }
  }

  // ---------------------------------------------------------------- commits

  ghost predicate Committing(c: Config, rows: Rows, tx: Tx) {
    tx.Active? && tx.stage.Commit? && TxInv(c, rows, tx)
  }

  function Published(rows: Rows, tx: Tx): Rows
    requires tx.Active? && tx.view.write.Some?
  {
    rows[tx.op.id := tx.view.write.value]
  }

  /** It is about to publish a row that fetches this content. */
  predicate StartsFetch(tx: Tx, hash: string) {
    && tx.Active? && tx.stage.Commit? && tx.view.write.Some?
    && UsesSlot(tx.view.write.value) && Lower(tx.view.write.value.hash) == Lower(hash)
  }

  /** It has looked whether somebody fetches this content, and nobody did. */
  predicate LooksFree(tx: Tx, hash: string) {
    tx.Active? && tx.view.hashActive == Some(false) && Lower(tx.op.job.hash) == Lower(hash)
  }

  lemma CommitKeepsWellFormed(c: Config, rows: Rows, tx: Tx)
    requires Committing(c, rows, tx) && WellFormedRows(c, rows)
    ensures WellFormedRows(c, Published(rows, tx))
  {
  }

  lemma CommitKeepsAccounts(c: Config, rows: Rows, tx: Tx)
    requires Committing(c, rows, tx) && WellFormedRows(c, rows) && OneLiveRowPerAccount(rows)
    ensures OneLiveRowPerAccount(Published(rows, tx))
  {
    var id, w := tx.op.id, tx.view.write.value;
    if LiveIdentity(w) {
      forall a | a in rows && a != id && LiveIdentity(rows[a])
        ensures rows[a].user != w.user || Lower(rows[a].hash) != Lower(w.hash)
      {
        assert rows[a].user == w.user && Lower(rows[a].hash) == Lower(w.hash) ==> a in LiveTwins(rows, w.user, w.hash);
        assert tx.op.kind.Promote? ==> LiveIdentity(rows[id]);
      }
    }
  }

  lemma CommitKeepsRows(c: Config, rows: Rows, tx: Tx)
    requires RowsInv(c, rows) && Committing(c, rows, tx)
    ensures RowsInv(c, Published(rows, tx))
  {
    CommitKeepsWellFormed(c, rows, tx);
    CommitKeepsAccounts(c, rows, tx);
  }

  // ---------------------------------------------------------------- commits and the bounds

  lemma InflightAfterWrite(rows: Rows, id: string, w: Job, user: string)
    requires id in rows ==> rows[id].user == w.user
    ensures var after := rows[id := w];
            |InflightIds(after, user)| == |InflightIds(rows, user)|
              + (if user == w.user && UsesSlot(w) then 1 else 0)
              - (if id in InflightIds(rows, user) then 1 else 0)
  {
    CardinalityAround(InflightIds(rows, user), InflightIds(rows[id := w], user), id);
  }

  lemma QueuedAfterWrite(rows: Rows, id: string, w: Job, user: string)
    requires id in rows ==> rows[id].user == w.user
    ensures var after := rows[id := w];
            |QueuedIds(after, user)| == |QueuedIds(rows, user)|
              + (if user == w.user && w.status == Queued then 1 else 0)
              - (if id in QueuedIds(rows, user) then 1 else 0)
  {
    CardinalityAround(QueuedIds(rows, user), QueuedIds(rows[id := w], user), id);
  }

  /** A commit keeps its user within the slots, if CreateOnce takes a slot only where one is free. */
  lemma CommitKeepsSlots(c: Config, rows: Rows, tx: Tx, user: string)
    requires Committing(c, rows, tx) && WellFormedRows(c, rows) && SlotsUnderLock(c, user) && WithinSlots(c, rows, user)
    requires tx.op.kind.CreateOnce? && tx.op.job.user == user && UsesSlot(tx.op.job) ==>
               |InflightIds(rows, user)| < Slots(c.slots(user))
    ensures WithinSlots(c, Published(rows, tx), user)
  {
    InflightAfterWrite(rows, tx.op.id, tx.view.write.value, user);
  }

  lemma OnlyFetch(rows: Rows, id: string, w: Job, hash: string)
    requires ActiveTwins(rows, hash, id) == {}
    ensures OneFetchOf(rows[id := w], hash)
  {
    var after := rows[id := w];
    forall a | a in after && UsesSlot(after[a]) && Lower(after[a].hash) == Lower(hash)
      ensures ActiveTwins(after, hash, a) == {}
    {
      assert a != id ==> a in ActiveTwins(rows, hash, id);
      assert forall b | b in ActiveTwins(after, hash, a) && b != id :: b in ActiveTwins(rows, hash, id);
    }
  }

  /** Content fetched once is fetched twice after a write exactly when the write starts a fetch beside another. */
  lemma FetchAfterWrite(rows: Rows, id: string, w: Job, hash: string)
    requires OneFetchOf(rows, hash)
    ensures OneFetchOf(rows[id := w], hash) <==>
            !(UsesSlot(w) && Lower(w.hash) == Lower(hash) && ActiveTwins(rows, hash, id) != {})
  {
    var after := rows[id := w];
    if !UsesSlot(w) || Lower(w.hash) != Lower(hash) {
      forall a | a in after && UsesSlot(after[a]) && Lower(after[a].hash) == Lower(hash)
        ensures ActiveTwins(after, hash, a) == {}
      {
        assert ActiveTwins(after, hash, a) <= ActiveTwins(rows, hash, a);
      }
    } else if ActiveTwins(rows, hash, id) == {} {
      OnlyFetch(rows, id, w, hash);
    } else {
      assert ActiveTwins(after, hash, id) == ActiveTwins(rows, hash, id);
    }
  }

  /** A commit makes a second fetch exactly when it publishes a row in flight of taken content. */
  lemma CommitKeepsFetch(c: Config, rows: Rows, tx: Tx, hash: string)
    requires Committing(c, rows, tx) && OneFetchOf(rows, hash)
    ensures OneFetchOf(Published(rows, tx), hash) <==>
            !(StartsFetch(tx, hash) && ActiveTwins(rows, hash, tx.op.id) != {})
    ensures StartsFetch(tx, hash) && !tx.op.kind.CreateOnce? ==> LooksFree(tx, hash)
  {
    FetchAfterWrite(rows, tx.op.id, tx.view.write.value, hash);
  }

  lemma CommitKeepsQueue(c: Config, rows: Rows, tx: Tx, user: string)
    requires Committing(c, rows, tx) && WellFormedRows(c, rows) && QueueUnderLock(c, user) && WithinQueue(c, rows, user)
    requires tx.op.kind.CreateOnce? && tx.op.job.user == user && tx.op.job.status == Queued
               && c.queueLimit(user).Some? ==>
               |QueuedIds(rows, user)| < c.queueLimit(user).value
    ensures WithinQueue(c, Published(rows, tx), user)
  {
    var id, w := tx.op.id, tx.view.write.value;
    QueuedAfterWrite(rows, id, w, user);
    if user == w.user && w.status == Queued && !tx.op.kind.CreateOnce? && c.queueLimit(user).Some? {
      OthersAndOwn(rows, user, id);
    }
  }

  lemma OthersAndOwn(rows: Rows, user: string, id: string)
    ensures |QueuedIds(rows, user)| == |OtherQueued(rows, user, id)| + (if id in QueuedIds(rows, user) then 1 else 0)
  {
    CardinalityAround(OtherQueued(rows, user, id), QueuedIds(rows, user), id);
  }

  lemma CommitKeepsBudget(c: Config, rows: Rows, tx: Tx)
    requires ValidConfig(c) && Committing(c, rows, tx) && WellFormedRows(c, rows) && NeverOnBudget(c)
               && WithinBudget(c, rows)
    ensures WithinBudget(c, Published(rows, tx))
  {
    UsedAfterWrite(rows, tx.op.id, tx.view.write.value);
  }

  // ---------------------------------------------------------------- commits and the other transactions

  /** What a commit writes, and the locks behind it. */
  lemma CommitHolds(c: Config, rows: Rows, tx: Tx)
    requires Committing(c, rows, tx)
    ensures tx.view.write.Some?
    ensures tx.view.write.value.user == tx.op.job.user && tx.view.write.value.hash == tx.op.job.hash
    ensures !tx.op.kind.CreateOnce? ==>
              UserLock(tx.op.job.user) in tx.held && HashLock(Lower(tx.op.job.hash)) in tx.held
    ensures tx.op.kind.CreateOnce? ==>
              && tx.view.write.value == tx.op.job && c.creates(tx.op.job)
              && (LiveIdentity(tx.op.job) ==> UserLock(tx.op.job.user) in tx.held)
  {
  }

  /** Only the holder of the user's lock makes a row of the account live. */
  lemma CommitQuietForAccount(c: Config, rows: Rows, tx: Tx, user: string)
    requires Committing(c, rows, tx) && UserLock(user) !in tx.held
    ensures QuietForAccount(rows, Published(rows, tx), user)
  {
    CommitHolds(c, rows, tx);
  }

  /** Nor does anyone else raise the rows in flight, or queued, of a user. */
  lemma CommitQuietForUser(c: Config, rows: Rows, tx: Tx, user: string)
    requires Committing(c, rows, tx) && UserLock(user) !in tx.held
    ensures SlotsUnderLock(c, user) ==> QuietForSlots(rows, Published(rows, tx), user)
    ensures QueueUnderLock(c, user) ==> QuietForQueue(rows, Published(rows, tx), user)
  {
    CommitHolds(c, rows, tx);
    var w := tx.view.write.value;
    assert SlotsUnderLock(c, user) && w.user == user ==> !UsesSlot(w);
    assert QueueUnderLock(c, user) && w.user == user ==> w.status != Queued;
  }

  /** Without the lock of a content only CreateOnce starts fetching it. */
  lemma CommitQuietForHash(c: Config, rows: Rows, tx: Tx, hash: string)
    requires Committing(c, rows, tx) && HashLock(Lower(hash)) !in tx.held
    ensures QuietForHash(rows, Published(rows, tx), hash) || (tx.op.kind.CreateOnce? && StartsFetch(tx, hash))
  {
    CommitHolds(c, rows, tx);
  }

  lemma CommitQuietForGate(c: Config, rows: Rows, tx: Tx)
    requires Committing(c, rows, tx) && WellFormedRows(c, rows) && GlobalLock !in tx.held
    ensures NeverGateQueued(c) ==> QuietForGate(rows, Published(rows, tx))
    ensures NeverOnBudget(c) ==> Used(Published(rows, tx)) <= Used(rows)
  {
    UsedAfterWrite(rows, tx.op.id, tx.view.write.value);
  }

  /** A commit is quiet for everything whose lock its transaction does not hold, and another one does. */
  lemma CommitIsQuiet(c: Config, rows: Rows, tx: Tx, other: Tx)
    requires Committing(c, rows, tx) && WellFormedRows(c, rows)
    requires other.Active? && StageConsistent(other) && tx.held !! other.held
    ensures var after, op, v := Published(rows, tx), other.op, other.view;
            && (UserLock(op.job.user) in other.held ==> QuietForAccount(rows, after, op.job.user))
            && (v.queued.Some? && QueueUnderLock(c, op.job.user) ==> QuietForQueue(rows, after, op.job.user))
            && (v.inflight.Some? && SlotsUnderLock(c, op.job.user) ==> QuietForSlots(rows, after, op.job.user))
            && (v.hashActive.Some? && !(tx.op.kind.CreateOnce? && StartsFetch(tx, op.job.hash)) ==>
                  QuietForHash(rows, after, op.job.hash))
            && (v.budgetQueued.Some? && NeverGateQueued(c) ==> QuietForGate(rows, after))
            && (v.used.Some? && NeverOnBudget(c) ==> Used(after) <= Used(rows))
  {
    if UserLock(other.op.job.user) in other.held {
      CommitQuietForAccount(c, rows, tx, other.op.job.user);
      CommitQuietForUser(c, rows, tx, other.op.job.user);
    }
    if HashLock(Lower(other.op.job.hash)) in other.held {
      CommitQuietForHash(c, rows, tx, other.op.job.hash);
    }
    if GlobalLock in other.held {
      CommitQuietForGate(c, rows, tx);
    }
  }

  lemma CommitSparesOther(c: Config, rows: Rows, tx: Tx, other: Tx)
    requires Committing(c, rows, tx) && WellFormedRows(c, rows)
    requires other.Active? && TxInv(c, rows, other) && tx.held !! other.held
    ensures TxInv(c, Published(rows, tx), other)
  {
    var after := Published(rows, tx);
    CommitIsQuiet(c, rows, tx, other);
    assert RowLock(tx.op.id) in tx.held;
    FactsSurvive(c, rows, after, other.op, other.view);
    if other.stage.Commit? && Inserts(other.op.kind) {
      var w := other.view.write.value;
      if LiveIdentity(w) {
        QuietTwins(rows, after, w.user, w.hash);
      }
    }
  }
}
