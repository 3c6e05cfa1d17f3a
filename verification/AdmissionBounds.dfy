// The bounds of the queue in runs where CreateOnce may insert any row: what keeps them, exactly
// which inserts break them, and runs in which that happens.
module AdmissionBounds {
  import opened Prelude
  import opened Jobs
  import opened Admission
  import opened AdmissionProofs
  import opened AdmissionSafety
  import opened AdmissionFetches

  // ---------------------------------------------------------------- slots

  /** A CreateOnce of a row in flight commits although its user's slots are taken. */
  ghost predicate TakesNoFreeSlot(c: Config, s: State, s': State, t: nat, user: string) {
    && Enabled(s, t) && s' == Advance(s, t)
    && var tx := s.txs[t];
       tx.stage.Commit? && tx.op.kind.CreateOnce? && tx.op.job.user == user && UsesSlot(tx.op.job)
       && |InflightIds(s.rows, user)| >= Slots(c.slots(user))
  }

  ghost predicate CreatesPastCap(c: Config, s: State, s': State, user: string) {
    exists t :: TakesNoFreeSlot(c, s, s', t, user)
  }

  lemma CreateCommits(c: Config, rows: Rows, tx: Tx)
    requires tx.Active? && tx.op.kind.CreateOnce? && tx.stage.Commit? && TxInv(c, rows, tx)
    ensures tx.view.write == Some(tx.op.job) && tx.op.id !in rows
  {
  }

  lemma CreateAddsOne(c: Config, s: State, s': State, t: nat, user: string)
    requires Inv(c, s) && TakesNoFreeSlot(c, s, s', t, user)
    ensures !WithinSlots(c, s'.rows, user)
  {
    CreateCommits(c, s.rows, s.txs[t]);
    InflightAfterWrite(s.rows, s.txs[t].op.id, s.txs[t].op.job, user);
  }

  lemma AdvanceKeepsSlots(c: Config, s: State, t: nat, user: string)
    requires Inv(c, s) && Enabled(s, t) && SlotsUnderLock(c, user) && WithinSlots(c, s.rows, user)
    requires !TakesNoFreeSlot(c, s, Advance(s, t), t, user)
    ensures WithinSlots(c, Advance(s, t).rows, user)
  {
    if s.txs[t].stage.Commit? {
      assert TxInv(c, s.rows, s.txs[t]);
      CommitKeepsSlots(c, s.rows, s.txs[t], user);
    }
  }

  lemma SlotsStep(c: Config, s: State, s': State, user: string)
    requires Inv(c, s) && Next(c, s, s') && SlotsUnderLock(c, user) && WithinSlots(c, s.rows, user)
    ensures WithinSlots(c, s'.rows, user) <==> !CreatesPastCap(c, s, s', user)
  {
    if CreatesPastCap(c, s, s', user) {
      var t :| TakesNoFreeSlot(c, s, s', t, user);
      CreateAddsOne(c, s, s', t, user);
    } else if WorkersMove(c, s, s') {
      WorkersAreQuiet(c, s.rows, s'.rows, user, "");
      QuietSlots(s.rows, s'.rows, user);
    } else if !Begins(c, s, s') {
      var t :| Enabled(s, t) && s' == Advance(s, t);
      assert !TakesNoFreeSlot(c, s, s', t, user);
      AdvanceKeepsSlots(c, s, t, user);
    }
  }

  /** If CreateOnce never passes the cap of a user before step i, the user is within it there. */
  lemma {:induction false} SlotsHoldUpTo(c: Config, run: seq<State>, user: string, i: nat)
    requires Run(c, run) && SlotsUnderLock(c, user) && i < |run| && WithinSlots(c, run[0].rows, user)
    requires forall k | 0 <= k < i :: !CreatesPastCap(c, run[k], run[k + 1], user)
    ensures WithinSlots(c, run[i].rows, user)
  {
    if i > 0 {
      SlotsHoldUpTo(c, run, user, i - 1);
      RunKeepsInv(c, run, i - 1);
      assert !CreatesPastCap(c, run[i - 1], run[i - 1 + 1], user);
      SlotsStep(c, run[i - 1], run[i], user);
    }
  }

  /**
   Over every run a user keeps to the slots if and only if no CreateOnce of one of its rows in
   flight commits while they are taken. It holds the user's lock, so it could look.
   */
  lemma SlotsHoldExactly(c: Config, run: seq<State>, user: string)
    requires Run(c, run) && SlotsUnderLock(c, user)
    ensures (forall i | 0 <= i < |run| :: WithinSlots(c, run[i].rows, user)) <==>
            && WithinSlots(c, run[0].rows, user)
            && forall k | 0 <= k < |run| - 1 :: !CreatesPastCap(c, run[k], run[k + 1], user)
  {
    if && WithinSlots(c, run[0].rows, user)
       && forall k | 0 <= k < |run| - 1 :: !CreatesPastCap(c, run[k], run[k + 1], user) {
      forall i | 0 <= i < |run|
        ensures WithinSlots(c, run[i].rows, user)
      {
        SlotsHoldUpTo(c, run, user, i);
      }
    }
    if forall i | 0 <= i < |run| :: WithinSlots(c, run[i].rows, user) {
      forall k | 0 <= k < |run| - 1
        ensures !CreatesPastCap(c, run[k], run[k + 1], user)
      {
        RunKeepsInv(c, run, k);
        assert WithinSlots(c, run[k].rows, user) && WithinSlots(c, run[k + 1].rows, user);
        assert Next(c, run[k], run[k + 1]);
        SlotsStep(c, run[k], run[k + 1], user);
      }
    }
  }

  /** Real accounts are such users, as long as what they download has a hash. */
  lemma AccountsAreUnderLock(c: Config, user: string)
    requires RealUser(user) && forall j | c.creates(j) && j.user == user && UsesSlot(j) :: j.hash != ""
    ensures SlotsUnderLock(c, user)
  {
    forall j | c.creates(j) && j.user == user && UsesSlot(j)
      ensures LiveIdentity(j)
    {
    }
  }

  // ---------------------------------------------------------------- queue limits

  ghost predicate QueuesInFullQueue(c: Config, s: State, s': State, t: nat, user: string) {
    && Enabled(s, t) && s' == Advance(s, t)
    && var tx := s.txs[t];
       tx.stage.Commit? && tx.op.kind.CreateOnce? && tx.op.job.user == user && tx.op.job.status == Queued
       && c.queueLimit(user).Some? && |QueuedIds(s.rows, user)| >= c.queueLimit(user).value
  }

  ghost predicate CreatesPastLimit(c: Config, s: State, s': State, user: string) {
    exists t :: QueuesInFullQueue(c, s, s', t, user)
  }

  lemma CreateQueuesOne(c: Config, s: State, s': State, t: nat, user: string)
    requires Inv(c, s) && QueuesInFullQueue(c, s, s', t, user)
    ensures !WithinQueue(c, s'.rows, user)
  {
    CreateCommits(c, s.rows, s.txs[t]);
    QueuedAfterWrite(s.rows, s.txs[t].op.id, s.txs[t].op.job, user);
  }

  lemma AdvanceKeepsQueue(c: Config, s: State, t: nat, user: string)
    requires Inv(c, s) && Enabled(s, t) && QueueUnderLock(c, user) && WithinQueue(c, s.rows, user)
    requires !QueuesInFullQueue(c, s, Advance(s, t), t, user)
    ensures WithinQueue(c, Advance(s, t).rows, user)
  {
    if s.txs[t].stage.Commit? {
      assert TxInv(c, s.rows, s.txs[t]);
      CommitKeepsQueue(c, s.rows, s.txs[t], user);
    }
  }

  lemma QueueStep(c: Config, s: State, s': State, user: string)
    requires Inv(c, s) && Next(c, s, s') && QueueUnderLock(c, user) && WithinQueue(c, s.rows, user)
    ensures WithinQueue(c, s'.rows, user) <==> !CreatesPastLimit(c, s, s', user)
  {
    if CreatesPastLimit(c, s, s', user) {
      var t :| QueuesInFullQueue(c, s, s', t, user);
      CreateQueuesOne(c, s, s', t, user);
    } else if WorkersMove(c, s, s') {
      WorkersAreQuiet(c, s.rows, s'.rows, user, "");
      QuietQueue(s.rows, s'.rows, user, "");
    } else if !Begins(c, s, s') {
      var t :| Enabled(s, t) && s' == Advance(s, t);
      assert !QueuesInFullQueue(c, s, s', t, user);
      AdvanceKeepsQueue(c, s, t, user);
    }
  }

  /** As long as CreateOnce queues nothing in a full queue, no user's queue passes the limit its calls carry. */
  lemma {:induction false} QueueLimitsHold(c: Config, run: seq<State>, user: string, i: nat)
    requires Run(c, run) && QueueUnderLock(c, user) && i < |run| && WithinQueue(c, run[0].rows, user)
    requires forall k | 0 <= k < i :: !CreatesPastLimit(c, run[k], run[k + 1], user)
    ensures WithinQueue(c, run[i].rows, user)
    ensures i < |run| - 1 ==>
                (WithinQueue(c, run[i + 1].rows, user) <==> !CreatesPastLimit(c, run[i], run[i + 1], user))
  {
    if i > 0 {
      QueueLimitsHold(c, run, user, i - 1);
    }
    RunKeepsInv(c, run, i);
    if i < |run| - 1 {
      QueueStep(c, run[i], run[i + 1], user);
    }
  }

  // ---------------------------------------------------------------- slots and fetches

  /**
   Admit, Readmit and PromoteQueued alone, whatever CreateOnce adds that holds no slot: each user
   keeps to the slots and no content is fetched twice.
   */
  lemma SlotsAndHashesHold(c: Config, run: seq<State>, i: nat, user: string)
    requires Run(c, run) && i < |run| && forall j | c.creates(j) :: !UsesSlot(j)
    requires WithinSlots(c, run[0].rows, user) && OneFetchPerHash(run[0].rows)
    ensures |InflightIds(run[i].rows, user)| <= Slots(c.slots(user))
    ensures OneFetchPerHash(run[i].rows)
  {
    forall k | 0 <= k < i
      ensures !CreatesPastCap(c, run[k], run[k + 1], user)
    {
      NoSlotNoHarm(c, run, user, k);
    }
    SlotsHoldUpTo(c, run, user, i);
    forall a, b | a in run[i].rows && b in run[i].rows && a != b && UsesSlot(run[i].rows[a]) && UsesSlot(run[i].rows[b])
      ensures run[i].rows[a].hash != run[i].rows[b].hash
    {
      var hash := run[i].rows[a].hash;
      StartsWithOneFetch(c, run[0].rows, hash);
      forall k | 0 <= k < i
        ensures !Careless(run[k], run[k + 1], hash)
      {
        NoSlotNoFetch(c, run, hash, k);
      }
      FetchesHold(c, run, hash, i);
      OneFetchTellsApart(run[i].rows, a, b);
    }
  }

  lemma NoSlotNoHarm(c: Config, run: seq<State>, user: string, k: nat)
    requires Run(c, run) && k < |run| - 1 && forall j | c.creates(j) :: !UsesSlot(j)
    ensures !CreatesPastCap(c, run[k], run[k + 1], user)
  {
    forall t | Enabled(run[k], t) && run[k].txs[t].op.kind.CreateOnce?
      ensures !UsesSlot(run[k].txs[t].op.job)
    {
      TxInvInRun(c, run, k, t);
    }
  }

  lemma NoSlotNoFetch(c: Config, run: seq<State>, hash: string, k: nat)
    requires Run(c, run) && k < |run| - 1 && forall j | c.creates(j) :: !UsesSlot(j)
    ensures !Careless(run[k], run[k + 1], hash)
  {
    if Careless(run[k], run[k + 1], hash) {
      var u, x :| CreatesFetch(run[k], run[k + 1], u, hash, x);
      TxInvInRun(c, run, k, u);
    }
  }

  lemma OneFetchTellsApart(rows: Rows, a: string, b: string)
    requires a in rows && b in rows && a != b && UsesSlot(rows[a]) && UsesSlot(rows[b])
               && OneFetchOf(rows, rows[a].hash)
    ensures rows[a].hash != rows[b].hash
  {
    assert b !in ActiveTwins(rows, rows[a].hash, a);
  }

  lemma StartsWithOneFetch(c: Config, rows: Rows, hash: string)
    requires WellFormedRows(c, rows) && OneFetchPerHash(rows)
    ensures OneFetchOf(rows, hash)
  {
    forall a, b | a in rows && b in rows && UsesSlot(rows[a]) && UsesSlot(rows[b])
           && Lower(rows[a].hash) == Lower(rows[b].hash)
      ensures a == b
    {
      assert Normalized(rows[a].hash) && Normalized(rows[b].hash);
    }
  }

  // ---------------------------------------------------------------- budget

  /**
   When every job is gated and CreateOnce adds none that holds budget, admission overshoots the
   headroom by at most one charge.
   */
  lemma {:induction false} BudgetHolds(c: Config, run: seq<State>, i: nat)
    requires Run(c, run) && i < |run| && NeverOnBudget(c) && WithinBudget(c, run[0].rows)
    ensures Used(run[i].rows) <= c.budget - INITIAL_BUDGET_HEADROOM + c.maxCharge
  {
    if i > 0 {
      BudgetHolds(c, run, i - 1);
      RunKeepsInv(c, run, i - 1);
      BudgetStep(c, run[i - 1], run[i]);
    }
  }

  lemma BudgetStep(c: Config, s: State, s': State)
    requires Inv(c, s) && Next(c, s, s') && NeverOnBudget(c) && WithinBudget(c, s.rows)
    ensures WithinBudget(c, s'.rows)
  {
    if WorkersMove(c, s, s') {
      WorkersKeepRows(c, s.rows, s'.rows);
    } else if !Begins(c, s, s') {
      var t :| Enabled(s, t) && s' == Advance(s, t);
      if s.txs[t].stage.Commit? {
        assert TxInv(c, s.rows, s.txs[t]);
        CommitKeepsBudget(c, s.rows, s.txs[t]);
      }
    }
  }

  lemma UnsizedPromotionFits(c: Config, run: seq<State>, i: nat, t: nat)
    requires Run(c, run) && i < |run| && NeverOnBudget(c) && Enabled(run[i], t)
    requires var tx := run[i].txs[t];
             tx.stage.Commit? && tx.op.kind.Promote? && tx.view.write.value.fileSize <= 0
    ensures Used(Advance(run[i], t).rows) <= run[i].txs[t].op.budget
  {
    RunKeepsInv(c, run, i);
    UnsizedCommitFits(c, run[i].rows, run[i].txs[t]);
  }

  lemma UnsizedCommitFits(c: Config, rows: Rows, tx: Tx)
    requires Committing(c, rows, tx) && WellFormedRows(c, rows) && NeverOnBudget(c)
    requires tx.op.kind.Promote? && tx.view.write.value.fileSize <= 0
    ensures Used(Published(rows, tx)) <= tx.op.budget
  {
    UsedAfterWrite(rows, tx.op.id, tx.view.write.value);
  }

  // ---------------------------------------------------------------- CreateOnce and the bounds

  /** Nobody else holds a lock this insert is going to ask for. */
  ghost predicate Unhindered(s: State, t: nat)
    requires t in s.txs && s.txs[t].Active?
  {
    forall u | u in s.txs && u != t && s.txs[u].Active? ::
      UserLock(s.txs[t].op.job.user) !in s.txs[u].held && RowLock(s.txs[t].op.id) !in s.txs[u].held
  }

  ghost predicate Creating(c: Config, run: seq<State>, t: nat, op: Op) {
    && Run(c, run) && op.kind.CreateOnce? && op.id !in run[|run| - 1].rows
    && (LiveIdentity(op.job) ==> LiveTwins(run[|run| - 1].rows, op.job.user, op.job.hash) == {})
    && var s := run[|run| - 1];
       t in s.txs && s.txs[t].Active? && s.txs[t].op == op && Unhindered(s, t)
  }

  lemma CreateStatementGoesOn(c: Config, rows: Rows, tx: Tx)
    requires tx.Active? && tx.op.kind.CreateOnce? && TxInv(c, rows, tx) && !tx.stage.Commit? && tx.op.id !in rows
    requires LiveIdentity(tx.op.job) ==> LiveTwins(rows, tx.op.job.user, tx.op.job.hash) == {}
    ensures var next := Statement(rows, tx); next.Active? && next.op == tx.op && Index(next.stage) > Index(tx.stage)
  {
  }

  /** What a statement of t leaves alone. */
  ghost predicate OthersSame(before: map<nat, Tx>, after: map<nat, Tx>, t: nat) {
    after.Keys == before.Keys && forall u | u in before && u != t :: after[u] == before[u]
  }

  lemma CreateStep(c: Config, run: seq<State>, t: nat, op: Op) returns (next: State)
    requires Creating(c, run, t, op)
    ensures Run(c, run + [next])
    ensures var s := run[|run| - 1];
            && OthersSame(s.txs, next.txs, t)
            && (if s.txs[t].stage.Commit? then next.txs[t].Finished? && next.rows == s.rows[op.id := op.job]
                else next.rows == s.rows && next.txs[t].Active? && next.txs[t].op == op
                     && Index(next.txs[t].stage) > Index(s.txs[t].stage))
  {
    var s := run[|run| - 1];
    TxInvInRun(c, run, |run| - 1, t);
    assert Enabled(s, t);
    next := Advance(s, t);
    RunMore(c, run, next);
    if !s.txs[t].stage.Commit? {
      CreateStatementGoesOn(c, s.rows, s.txs[t]);
    }
  }

  /** Undisturbed, an insert of a new row runs through to its commit. */
  lemma {:induction false} CreateRuns(c: Config, run: seq<State>, t: nat, op: Op) returns (more: seq<State>)
    requires Creating(c, run, t, op)
    ensures Run(c, more) && run <= more
    ensures var s, s' := run[|run| - 1], more[|more| - 1];
            s'.rows == s.rows[op.id := op.job] && OthersSame(s.txs, s'.txs, t) && s'.txs[t].Finished?
    decreases 15 - Index(run[|run| - 1].txs[t].stage)
  {
    var next := CreateStep(c, run, t, op);
    more := run + [next];
    if next.txs[t].Active? {
      more := CreateRuns(c, run + [next], t, op);
    }
  }

  lemma CreateBegins(c: Config, run: seq<State>, t: nat, op: Op)
    requires Run(c, run) && op.kind.CreateOnce? && OpOk(c, Prepared(op)) && t !in run[|run| - 1].txs
    ensures Run(c, run + [run[|run| - 1].(txs := run[|run| - 1].txs[t := Begin(Prepared(op))])])
  {
    var s := run[|run| - 1];
    assert BeginsAs(c, s, s.(txs := s.txs[t := Begin(Prepared(op))]), t, op);
    RunMore(c, run, s.(txs := s.txs[t := Begin(Prepared(op))]));
  }

  /** Where the insert of a new row leaves the bounds it could break. */
  lemma BoundsAfterCreate(c: Config, rows: Rows, id: string, j: Job)
    requires id !in rows
    requires WithinSlots(c, rows, j.user) && WithinQueue(c, rows, j.user) && OneFetchOf(rows, j.hash)
    ensures var after := rows[id := j];
            && (WithinSlots(c, after, j.user) <==> !UsesSlot(j) || |InflightIds(rows, j.user)| < Slots(c.slots(j.user)))
            && (WithinQueue(c, after, j.user) <==>
                  j.status != Queued || c.queueLimit(j.user).None?
                    || |QueuedIds(rows, j.user)| < c.queueLimit(j.user).value)
            && (OneFetchOf(after, j.hash) <==> !UsesSlot(j) || ActiveTwins(rows, j.hash, id) == {})
  {
    InflightAfterWrite(rows, id, j, j.user);
    QueuedAfterWrite(rows, id, j, j.user);
    FetchAfterWrite(rows, id, j, j.hash);
  }

  /**
   Whatever rows there are, CreateOnce can insert whatever new row it is given, and its commit keeps
   the bounds exactly when the row uses no slot, or its user has room and its content is free, and
   when it is not queued, or the queue has room.
   */
  lemma CreateOnceKeepsBounds(c: Config, rows: Rows, op: Op) returns (run: seq<State>)
    requires ValidConfig(c) && RowsInv(c, rows) && op.kind.CreateOnce? && OpOk(c, Prepared(op)) && op.id !in rows
    requires var j := Prepared(op).job;
             && (LiveIdentity(j) ==> LiveTwins(rows, j.user, j.hash) == {})
             && WithinSlots(c, rows, j.user) && WithinQueue(c, rows, j.user) && OneFetchOf(rows, j.hash)
    ensures Run(c, run) && run[0] == State(rows, map[]) && run[|run| - 1].rows == rows[op.id := Prepared(op).job]
    ensures var j, after := Prepared(op).job, run[|run| - 1].rows;
            && (WithinSlots(c, after, j.user) <==> !UsesSlot(j) || |InflightIds(rows, j.user)| < Slots(c.slots(j.user)))
            && (WithinQueue(c, after, j.user) <==>
                  j.status != Queued || c.queueLimit(j.user).None?
                    || |QueuedIds(rows, j.user)| < c.queueLimit(j.user).value)
            && (OneFetchOf(after, j.hash) <==> !UsesSlot(j) || ActiveTwins(rows, j.hash, op.id) == {})
  {
    var start := [State(rows, map[])];
    CreateBegins(c, start, 0, op);
    var begun := start + [State(rows, map[][0 := Begin(Prepared(op))])];
    run := CreateRuns(c, begun, 0, Prepared(op));
    BoundsAfterCreate(c, rows, op.id, Prepared(op).job);
  }

  // ---------------------------------------------------------------- inputs that break them

  lemma SingleLetterIsNormal(hash: string)
    requires |hash| == 1 && 'a' <= hash[0] <= 'z'
    ensures NormalHash(hash) == hash && Normalized(hash)
  {
    assert TrimSpace(hash) == hash;
    assert Lower(hash) == hash;
  }

  /** Callers with one slot per user, of whom CreateOnce is given any live row of an account. */
  function TwoJobs(first: Job, second: Job): Config {
    Config(id => IdentOf(if id == "a" then first else second), u => 1, u => None, false, 0, 0, j => LiveIdentity(j))
  }

  function Fetching(user: string, hash: string): Job {
    Job(user, hash, false, false, Downloading, 0, 0, 0, "", "", 0, 0)
  }

  lemma OneRow(first: Job, second: Job)
    requires Normalized(first.hash) && UsesSlot(first)
    ensures RowsInv(TwoJobs(first, second), map["a" := first]) && OneFetchOf(map["a" := first], second.hash)
    ensures forall user :: InflightIds(map["a" := first], user) == if user == first.user then {"a"} else {}
  {
  }

  /** With the row "a" there, CreateOnce inserts the row "b" of another account or content. */
  lemma SecondRow(first: Job, second: Job) returns (run: seq<State>)
    requires Normalized(first.hash) && NormalHash(second.hash) == second.hash && UsesSlot(first) && UsesSlot(second)
    requires LiveIdentity(second) && (first.user != second.user || Lower(first.hash) != Lower(second.hash))
    ensures Run(TwoJobs(first, second), run) && run[0].rows == map["a" := first]
    ensures run[|run| - 1].rows == map["a" := first, "b" := second]
  {
    OneRow(first, second);
    var rows: Rows := map["a" := first];
    assert LiveTwins(rows, second.user, second.hash) == {};
    assert |InflightIds(rows, second.user)| <= 1;
    run := CreateOnceKeepsBounds(TwoJobs(first, second), rows, Op(CreateOnce, "b", second, 0, 0, 0, 0));
  }

  lemma FillsSlot(first: Job, second: Job)
    requires UsesSlot(first) && UsesSlot(second) && first.user == second.user
    ensures |InflightIds(map["a" := first], first.user)| == 1
              && |InflightIds(map["a" := first, "b" := second], first.user)| == 2
  {
    assert InflightIds(map["a" := first], first.user) == {"a"};
    assert InflightIds(map["a" := first, "b" := second], first.user) == {"a", "b"};
  }

  /** A download of an account, inserted as the Telegram bot does, while its user's only slot is taken. */
  lemma CreateOnceCanPassTheCap() returns (c: Config, run: seq<State>)
    ensures Run(c, run) && SlotsUnderLock(c, "u")
    ensures WithinSlots(c, run[0].rows, "u") && !WithinSlots(c, run[|run| - 1].rows, "u")
  {
    SingleLetterIsNormal("x");
    SingleLetterIsNormal("y");
    var first, second := Fetching("u", "x"), Fetching("u", "y");
    c := TwoJobs(first, second);
    run := SecondRow(first, second);
    FillsSlot(first, second);
  }

  /** Two accounts sending the same document: the second row starts a second fetch. */
  lemma CreateOnceCanFetchTwice() returns (c: Config, run: seq<State>)
    ensures Run(c, run) && OneFetchOf(run[0].rows, "x") && !OneFetchOf(run[|run| - 1].rows, "x")
  {
    SingleLetterIsNormal("x");
    var first, second := Fetching("u", "x"), Fetching("v", "x");
    c := TwoJobs(first, second);
    OneRow(first, second);
    run := SecondRow(first, second);
    assert "a" in ActiveTwins(run[|run| - 1].rows, "x", "b");
  }

  /** Nothing was there when it looked. */
  predicate SawNothing(v: View) {
    && (v.queued.Some? ==> v.queued.value == 0) && (v.inflight.Some? ==> v.inflight.value == 0)
    && v.hashActive != Some(true) && (v.write.Some? ==> v.write.value.status == Pending)
  }

  ghost predicate AdmitsAlone(c: Config, run: seq<State>, op: Op) {
    && Run(c, run) && op.kind.Admit? && !op.job.gated
    && run[|run| - 1].rows == map[] && run[|run| - 1].txs.Keys == {0}
    && var tx := run[|run| - 1].txs[0];
       tx.Active? && tx.op == op && SawNothing(tx.view)
       && forall l | l in tx.held :: l in {UserLock(op.job.user), HashLock(Lower(op.job.hash)), RowLock(op.id)}
  }

  lemma AdmitStatementGoesOn(c: Config, tx: Tx)
    requires tx.Active? && tx.op.kind.Admit? && !tx.op.job.gated && TxInv(c, map[], tx) && !tx.stage.Commit?
               && SawNothing(tx.view)
    ensures var next := Statement(map[], tx);
            next.Active? && next.op == tx.op && Index(next.stage) > Index(tx.stage) && SawNothing(next.view)
  {
    assert InflightIds(map[], tx.op.job.user) == {} && QueuedIds(map[], tx.op.job.user) == {};
    assert ActiveTwins(map[], tx.op.job.hash, tx.op.id) == {};
    assert LiveTwins(map[], tx.op.job.user, tx.op.job.hash) == {};
  }

  lemma AdmitStep(c: Config, run: seq<State>, op: Op) returns (next: State)
    requires AdmitsAlone(c, run, op) && !run[|run| - 1].txs[0].stage.Commit?
    ensures AdmitsAlone(c, run + [next], op)
    ensures Index(next.txs[0].stage) > Index(run[|run| - 1].txs[0].stage)
  {
    var s := run[|run| - 1];
    TxInvInRun(c, run, |run| - 1, 0);
    assert Enabled(s, 0);
    AdmitStatementGoesOn(c, s.txs[0]);
    StatementTakesOnlyWanted(s.rows, s.txs[0]);
    next := Advance(s, 0);
    RunMore(c, run, next);
  }

  /** In an empty table an ungated Admit comes to its commit, about to publish a pending row. */
  lemma {:induction false} AdmitRuns(c: Config, run: seq<State>, op: Op) returns (more: seq<State>)
    requires AdmitsAlone(c, run, op)
    ensures AdmitsAlone(c, more, op) && run <= more && more[|more| - 1].txs[0].stage.Commit?
    decreases 15 - Index(run[|run| - 1].txs[0].stage)
  {
    more := run;
    if !run[|run| - 1].txs[0].stage.Commit? {
      var next := AdmitStep(c, run, op);
      more := AdmitRuns(c, run + [next], op);
    }
  }

  /**
   A CreateOnce that commits between the check and the commit of an Admit keeps the bound itself and
   makes the Admit break it: for any two accounts and any content, in a run from an empty table.
   */
  lemma LateAdmitFetchesTwice(c: Config, admit: Op, create: Op) returns (run: seq<State>)
    requires ValidConfig(c) && admit.kind.Admit? && create.kind.CreateOnce? && !admit.job.gated
    requires OpOk(c, Prepared(admit)) && OpOk(c, Prepared(create)) && admit.id != create.id
               && admit.job.user != create.job.user
    requires Prepared(admit).job.hash == Prepared(create).job.hash && !admit.job.seed && UsesSlot(create.job)
    ensures Run(c, run) && run[0].rows == map[] && run[|run| - 1].rows.Keys == {admit.id, create.id}
    ensures OneFetchOf(run[|run| - 2].rows, Prepared(admit).job.hash)
              && !OneFetchOf(run[|run| - 1].rows, Prepared(admit).job.hash)
  {
    var a, b := Prepared(admit), Prepared(create);
    var admitted := AdmitBegins(c, admit);
    var created := CreateMeanwhile(c, admitted, a, create);
    run := AdmitLast(c, created, a, b);
  }

  lemma AdmitBegins(c: Config, admit: Op) returns (run: seq<State>)
    requires ValidConfig(c) && admit.kind.Admit? && !admit.job.gated && OpOk(c, Prepared(admit))
    ensures AdmitsAlone(c, run, Prepared(admit)) && run[0] == State(map[], map[]) && run[|run| - 1].txs[0].stage.Commit?
  {
    var a, s := Prepared(admit), State(map[], map[]);
    var begun := s.(txs := map[][0 := Begin(a)]);
    assert Run(c, [s]);
    assert BeginsAs(c, s, begun, 0, admit);
    RunMore(c, [s], begun);
    run := AdmitRuns(c, [s] + [begun], a);
  }

  /** While the Admit of another account and id stands before its commit, the insert runs through. */
  lemma CreateMeanwhile(c: Config, run: seq<State>, a: Op, create: Op) returns (more: seq<State>)
    requires AdmitsAlone(c, run, a) && create.kind.CreateOnce? && OpOk(c, Prepared(create))
    requires a.id != create.id && a.job.user != create.job.user
    ensures Run(c, more) && run <= more && more[|more| - 1].rows == map[create.id := Prepared(create).job]
    ensures var txs := more[|more| - 1].txs;
            txs.Keys == {0, 1} && txs[1].Finished? && txs[0] == run[|run| - 1].txs[0]
  {
    var b, s := Prepared(create), run[|run| - 1];
    CreateBegins(c, run, 1, create);
    assert LiveTwins(map[], b.job.user, b.job.hash) == {};
    var begun := s.(txs := s.txs[1 := Begin(b)]);
    assert Unhindered(begun, 1);
    more := CreateRuns(c, run + [begun], 1, b);
  }

  /** The transactions after both calls: the Admit before its commit, having seen nothing, and the insert ended. */
  predicate AboutToAdmit(txs: map<nat, Tx>, a: Op) {
    && txs.Keys == {0, 1} && txs[1].Finished? && txs[0].Active? && txs[0].stage.Commit? && txs[0].op == a
    && a.kind.Admit? && SawNothing(txs[0].view)
  }

  /** The last commit publishes the row decided on when nothing else was there. */
  lemma AdmitCommits(c: Config, s: State, a: Op, b: Op)
    requires AboutToAdmit(s.txs, a) && TxInv(c, s.rows, s.txs[0]) && s.rows == map[b.id := b.job]
    requires a.id != b.id && UsesSlot(b.job) && !a.job.seed && a.job.hash == b.job.hash
    ensures Enabled(s, 0)
    ensures var after := Advance(s, 0).rows;
            after.Keys == {a.id, b.id} && OneFetchOf(s.rows, a.job.hash) && !OneFetchOf(after, a.job.hash)
  {
    PendingWrite(c, s.rows, s.txs[0]);
    TwoRowsFetch(s.rows, b.id, a.id, s.txs[0].view.write.value);
  }

  lemma AdmitLast(c: Config, run: seq<State>, a: Op, b: Op) returns (more: seq<State>)
    requires Run(c, run) && run[|run| - 1].rows == map[b.id := b.job] && AboutToAdmit(run[|run| - 1].txs, a)
    requires a.id != b.id && UsesSlot(b.job) && !a.job.seed && a.job.hash == b.job.hash
    ensures Run(c, more) && |more| == |run| + 1 && more[0] == run[0] && more[|more| - 1].rows.Keys == {a.id, b.id}
    ensures OneFetchOf(more[|more| - 2].rows, a.job.hash) && !OneFetchOf(more[|more| - 1].rows, a.job.hash)
  {
    TxInvInRun(c, run, |run| - 1, 0);
    AdmitCommits(c, run[|run| - 1], a, b);
    RunMore(c, run, Advance(run[|run| - 1], 0));
    more := run + [Advance(run[|run| - 1], 0)];
  }

  lemma PendingWrite(c: Config, rows: Rows, tx: Tx)
    requires tx.Active? && tx.stage.Commit? && tx.op.kind.Admit? && TxInv(c, rows, tx) && SawNothing(tx.view)
               && !tx.op.job.seed
    ensures StageConsistent(tx) && Wanted(tx).None?
    ensures UsesSlot(tx.view.write.value) && tx.view.write.value.hash == tx.op.job.hash
  {
  }

  lemma TwoRowsFetch(rows: Rows, b: string, a: string, w: Job)
    requires rows.Keys == {b} && UsesSlot(rows[b]) && a != b && UsesSlot(w) && w.hash == rows[b].hash
    ensures rows[a := w].Keys == {a, b} && OneFetchOf(rows, w.hash) && !OneFetchOf(rows[a := w], w.hash)
  {
    assert b in ActiveTwins(rows[a := w], w.hash, a);
    assert ActiveTwins(rows, w.hash, b) == {};
  }
}
