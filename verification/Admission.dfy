// Admit, Readmit, PromoteQueued and CreateOnce as concurrent transactions. Every SQL
// statement is one atomic step; statements of other transactions, and of workers, may
// run between any two of them. Advisory and row locks are held until the end.
module Admission {
  import opened Prelude
  import opened Jobs

  datatype Lock = GlobalLock | UserLock(user: string) | HashLock(hash: string) | RowLock(id: string)

  datatype Kind = Admit | Readmit | Promote | CreateOnce

  /**
   A call. `job` is the prepared new row for Admit and CreateOnce, and the row read
   before any lock was taken for Readmit and PromoteQueued.
   */
  datatype Op = Op(kind: Kind, id: string, job: Job, maxConcurrent: int, maxQueued: int, budget: int, now: int)

  /** Readmit and PromoteQueued lock their row before reading, inserts lock their key after deciding. */
  datatype Stage =
    | WantGlobal | WantUser | WantHash | WantRow
    | ReadLive | ReadQueued | ReadInflight | ReadOlder | ReadHash | ReadBudgetQueue | ReadBudgetUsed
    | Decide | WantKey | Write | Commit

  /** Every transaction goes through its stages in this order. */
  function Index(stage: Stage): nat {
    match stage
    case WantGlobal => 0
    case WantUser => 1
    case WantHash => 2
    case WantRow => 3
    case ReadLive => 4
    case ReadQueued => 5
    case ReadInflight => 6
    case ReadOlder => 7
    case ReadHash => 8
    case ReadBudgetQueue => 9
    case ReadBudgetUsed => 10
    case Decide => 11
    case WantKey => 12
    case Write => 13
    case Commit => 14
  }

  predicate Inserts(kind: Kind) { kind.Admit? || kind.CreateOnce? }

  predicate Decides(kind: Kind) { kind.Admit? || kind.Readmit? }

  predicate MayVisit(kind: Kind, stage: Stage) {
    match kind
    case Admit => stage != WantRow && stage != ReadOlder
    case Readmit => stage != ReadOlder && stage != WantKey
    case Promote => stage != ReadLive && stage != ReadQueued && stage != ReadBudgetQueue && stage != Decide
      && stage != WantKey
    case CreateOnce => stage == WantUser || stage == WantKey || stage == Write || stage == Commit
  }

  /** What the transaction has read so far, and the row it is going to publish. */
  datatype View = View(row: Option<Job>, twinFree: bool, queued: Option<nat>, inflight: Option<nat>,
                       hashActive: Option<bool>, budgetQueued: Option<bool>, used: Option<int>,
                       write: Option<Job>)

  datatype Outcome =
    | Admitted | Enqueued | Existing(id: string) | Promoted | NotPromoted | Created
    | QueueFull | NotFound | DuplicateKey

  datatype Tx = Active(op: Op, stage: Stage, held: set<Lock>, view: View) | Finished(outcome: Outcome)

  datatype State = State(rows: Rows, txs: map<nat, Tx>)

  /**
   Bounds on what callers pass: the identity behind each id, the largest number of slots
   and the queue limit ever passed for each user, when every job is budget gated the
   largest budget and the largest charge, and the rows CreateOnce is given, which may be any.
   */
  datatype Config = Config(ident: string -> Ident, slots: string -> int, queueLimit: string -> Option<nat>,
                           allGated: bool, budget: int, maxCharge: int, creates: Job -> bool)

  // ---------------------------------------------------------------- transactions

  const NOTHING := View(None, false, None, None, None, None, None, None)

  function Begin(op: Op): Tx {
    var first := if op.kind.CreateOnce? then (if LiveIdentity(op.job) then WantUser else WantKey)
                 else if op.job.gated then WantGlobal else WantUser;
    Active(op, first, {}, NOTHING)
  }

  function Wanted(tx: Tx): Option<Lock> {
    if tx.Finished? then None
    else match tx.stage
      case WantGlobal => Some(GlobalLock)
      case WantUser => Some(UserLock(tx.op.job.user))
      case WantHash => Some(HashLock(Lower(tx.op.job.hash)))
      case WantRow => Some(RowLock(tx.op.id))
      case WantKey => Some(RowLock(tx.op.id))
      case _ => None
  }

  function StageAfter(op: Op, stage: Stage): Stage {
    match stage
    case WantGlobal => WantUser
    case WantUser => if op.kind.CreateOnce? then WantKey else WantHash
    case WantHash => if op.kind.Admit? then ReadLive else WantRow
    case WantRow => if op.kind.Promote? then ReadInflight else ReadLive
    case ReadLive => ReadQueued
    case ReadQueued => ReadInflight
    case ReadInflight => if op.kind.Promote? then ReadOlder else ReadHash
    case ReadOlder => ReadHash
    case ReadHash =>
      if op.kind.Promote? then (if op.job.gated then ReadBudgetUsed else Write)
      else if op.job.gated then ReadBudgetQueue else Decide
    case ReadBudgetQueue => ReadBudgetUsed
    case ReadBudgetUsed => if op.kind.Promote? then Write else Decide
    case Decide => if op.kind.Admit? then WantKey else Write
    case WantKey => Write
    case Write => Commit
    case Commit => Commit
  }

  /** The locks a transaction holds at a stage. */
  predicate LocksTaken(op: Op, at: nat, held: set<Lock>) {
    && (op.kind.CreateOnce? && LiveIdentity(op.job) && at > 1 ==> UserLock(op.job.user) in held)
    && (!op.kind.CreateOnce? ==>
          && (op.job.gated && at > 0 ==> GlobalLock in held)
          && (at > 1 ==> UserLock(op.job.user) in held)
          && (at > 2 ==> HashLock(Lower(op.job.hash)) in held))
    && (at > (if Inserts(op.kind) then 12 else 3) ==> RowLock(op.id) in held)
  }

  /** The reads it has made. */
  predicate ReadsMade(op: Op, at: nat, v: View) {
    && (v.row.Some? <==> !Inserts(op.kind) && at > 3)
    && (v.twinFree <==> Decides(op.kind) && at > 4)
    && (v.queued.Some? <==> Decides(op.kind) && at > 5)
    && (v.inflight.Some? <==> !op.kind.CreateOnce? && at > 6)
    && (v.hashActive.Some? <==> !op.kind.CreateOnce? && at > 8)
    && (v.budgetQueued.Some? <==> Decides(op.kind) && op.job.gated && at > 9)
    && (v.used.Some? <==> !op.kind.CreateOnce? && op.job.gated && at > 10)
    && (v.write.Some? <==> at > (if Decides(op.kind) then 11 else 13))
  }

  /** The reads that would have ended it. */
  predicate ReadsPassed(op: Op, v: View) {
    && (op.kind.Readmit? && v.row.Some? ==> Readmissible(v.row.value.status))
    && (op.kind.Promote? ==>
          && (v.row.Some? ==> v.row.value.status == Queued)
          && (v.inflight.Some? ==> v.inflight.value < Slots(op.maxConcurrent))
          && (v.hashActive.Some? ==> !v.hashActive.value)
          && (v.used.Some? ==> op.budget - v.used.value >= PROMOTE_BUDGET_HEADROOM))
  }

  predicate StageConsistent(tx: Tx)
    requires tx.Active?
  {
    var at := Index(tx.stage);
    && MayVisit(tx.op.kind, tx.stage)
    && (at == 0 || at == 9 || at == 10 ==> tx.op.job.gated)
    && LocksTaken(tx.op, at, tx.held)
    && ReadsMade(tx.op, at, tx.view)
    && ReadsPassed(tx.op, tx.view)
  }

  function Continue(tx: Tx, view: View): (next: Tx)
    requires tx.Active?
    ensures next.Active?
  {
    tx.(stage := StageAfter(tx.op, tx.stage), view := view)
  }

  ghost function AnyOf(s: set<string>): (x: string)
    requires s != {}
    ensures x in s
  {
    var x :| x in s; x
  }

  /** The row a transaction asks about: the new row, or the one it locked. */
  function Subject(tx: Tx): Job
    requires tx.Active?
  {
    if tx.view.row.Some? then tx.view.row.value else tx.op.job
  }

  /** pg_advisory_xact_lock, and the key an insert is about to claim. */
  function TakeLock(tx: Tx): Tx
    requires tx.Active? && Wanted(tx).Some?
  {
    Active(tx.op, StageAfter(tx.op, tx.stage), tx.held + {Wanted(tx).value}, tx.view)
  }

  predicate Readmissible(status: Status) { status == Failed || status == Evicted || status == Complete }

  /** Taking the row lock; Readmit and PromoteQueued read the row in the same statement. */
  function TakeRow(rows: Rows, tx: Tx): Tx
    requires tx.Active? && tx.stage == WantRow
  {
    var op := tx.op;
    if op.id !in rows then Finished(if op.kind.Promote? then NotPromoted else NotFound)
    else if op.kind.Readmit? && !Readmissible(rows[op.id].status) then Finished(Existing(op.id))
    else if op.kind.Promote? && rows[op.id].status != Queued then Finished(NotPromoted)
    else Continue(tx, tx.view.(row := Some(rows[op.id]))).(held := tx.held + {RowLock(op.id)})
  }

  /** liveAccountJobTx: LIMIT 1 returns some live row of this user and hash. */
  ghost function LookupLive(rows: Rows, tx: Tx): Tx
    requires tx.Active? && tx.stage == ReadLive
  {
    var job := Subject(tx);
    var twins := if AccountJob(job) then LiveTwins(rows, job.user, job.hash) else {};
    if twins != {} && (tx.op.kind.Admit? || AnyOf(twins) != tx.op.id) then Finished(Existing(AnyOf(twins)))
    else Continue(tx, tx.view.(twinFree := true))
  }

  function CountQueued(rows: Rows, tx: Tx): Tx
    requires tx.Active?
  {
    var user := tx.op.job.user;
    var n := if tx.op.kind.Admit? then |QueuedIds(rows, user)| else |OtherQueued(rows, user, tx.op.id)|;
    Continue(tx, tx.view.(queued := Some(n)))
  }

  function CountInflight(rows: Rows, tx: Tx): Tx
    requires tx.Active?
  {
    var n := |InflightIds(rows, tx.op.job.user)|;
    if tx.op.kind.Promote? && n >= Slots(tx.op.maxConcurrent) then Finished(NotPromoted)
    else Continue(tx, tx.view.(inflight := Some(n)))
  }

  function CheckOlder(rows: Rows, tx: Tx): Tx
    requires tx.Active?
  {
    if tx.op.id in rows && OlderUnblocked(rows, tx.op.id) != {} then Finished(NotPromoted)
    else Continue(tx, tx.view)
  }

  /** PromoteQueued compares hashes exactly, the others fold case. */
  function CheckHash(rows: Rows, tx: Tx): Tx
    requires tx.Active?
  {
    if tx.op.kind.Promote? then
      if ExactTwins(rows, tx.op.job.hash, tx.op.id) != {} then Finished(NotPromoted)
      else Continue(tx, tx.view.(hashActive := Some(false)))
    else Continue(tx, tx.view.(hashActive := Some(ActiveTwins(rows, tx.op.job.hash, tx.op.id) != {})))
  }

  function CheckBudgetQueue(rows: Rows, tx: Tx): Tx
    requires tx.Active?
  {
    var others := if tx.op.kind.Admit? then GatedQueued(rows) else OtherGatedQueued(rows, tx.op.id);
    Continue(tx, tx.view.(budgetQueued := Some(others != {})))
  }

  ghost function CheckBudgetUsed(rows: Rows, tx: Tx): Tx
    requires tx.Active?
  {
    if tx.op.kind.Promote? && tx.op.budget - Used(rows) < PROMOTE_BUDGET_HEADROOM then Finished(NotPromoted)
    else Continue(tx, tx.view.(used := Some(Used(rows))))
  }

  /** Readmit starts the row over. */
  function Reset(job: Job, status: Status, now: int): Job {
    job.(status := status, error := "", node := "", progress := 0, speed := 0, created := now)
  }

  predicate MustWait(op: Op, v: View)
    requires v.queued.Some? && v.inflight.Some? && v.hashActive.Some?
    requires op.job.gated ==> v.budgetQueued.Some? && v.used.Some?
  {
    MustQueue(op.job.gated, op.maxConcurrent, op.budget, v.queued.value, v.inflight.value, v.hashActive.value,
              op.job.gated && v.budgetQueued.value, if op.job.gated then v.used.value else 0)
  }

  function DecidedRow(op: Op, v: View, status: Status): Job {
    if op.kind.Admit? || v.row.None? then op.job.(status := status) else Reset(v.row.value, status, op.now)
  }

  /** The pending/queued decision of Admit and Readmit, and the queue limit. */
  function DecideStatus(tx: Tx): Tx
    requires tx.Active? && tx.stage.Decide? && StageConsistent(tx)
  {
    var op, v := tx.op, tx.view;
    var wait := MustWait(op, v);
    if wait && op.maxQueued > 0 && v.queued.value >= op.maxQueued then Finished(QueueFull)
    else Continue(tx, v.(write := Some(DecidedRow(op, v, if wait then Queued else Pending))))
  }

  /** INSERT ... ON CONFLICT DO NOTHING, checked against committed rows only. */
  ghost function Insert(rows: Rows, tx: Tx, row: Job): Tx
    requires tx.Active? && tx.stage == Write
  {
    if tx.op.id in rows then Finished(DuplicateKey)
    else if LiveIdentity(row) && LiveTwins(rows, row.user, row.hash) != {} then
      Finished(Existing(AnyOf(LiveTwins(rows, row.user, row.hash))))
    else Continue(tx, tx.view.(write := Some(row)))
  }

  ghost function WriteRow(rows: Rows, tx: Tx): Tx
    requires tx.Active? && tx.stage == Write && StageConsistent(tx)
  {
    match tx.op.kind
    case Admit => Insert(rows, tx, tx.view.write.value)
    case CreateOnce => Insert(rows, tx, tx.op.job)
    case Readmit => Continue(tx, tx.view)
    case Promote => Continue(tx, tx.view.(write := Some(tx.view.row.value.(status := Pending, node := ""))))
  }

  function OutcomeOf(kind: Kind, status: Status): Outcome {
    if kind.CreateOnce? then Created
    else if kind.Promote? then Promoted
    else if status == Queued then Enqueued else Admitted
  }

  /** Every statement but the commit: the transaction after it. */
  ghost function Statement(rows: Rows, tx: Tx): Tx
    requires tx.Active? && StageConsistent(tx) && !tx.stage.Commit?
  {
    match tx.stage
    case WantGlobal => TakeLock(tx)
    case WantUser => TakeLock(tx)
    case WantHash => TakeLock(tx)
    case WantKey => TakeLock(tx)
    case WantRow => TakeRow(rows, tx)
    case ReadLive => LookupLive(rows, tx)
    case ReadQueued => CountQueued(rows, tx)
    case ReadInflight => CountInflight(rows, tx)
    case ReadOlder => CheckOlder(rows, tx)
    case ReadHash => CheckHash(rows, tx)
    case ReadBudgetQueue => CheckBudgetQueue(rows, tx)
    case ReadBudgetUsed => CheckBudgetUsed(rows, tx)
    case Decide => DecideStatus(tx)
    case Write => WriteRow(rows, tx)
  }

  // ---------------------------------------------------------------- runs

  ghost predicate LockFree(txs: map<nat, Tx>, t: nat, lock: Lock) {
    forall u | u in txs && u != t && txs[u].Active? :: lock !in txs[u].held
  }

  ghost predicate Enabled(s: State, t: nat) {
    && t in s.txs && s.txs[t].Active? && StageConsistent(s.txs[t])
    && (Wanted(s.txs[t]).Some? ==> LockFree(s.txs, t, Wanted(s.txs[t]).value))
  }

  ghost function Advance(s: State, t: nat): State
    requires Enabled(s, t)
  {
    var tx := s.txs[t];
    if tx.stage.Commit? then
      var row := tx.view.write.value;
      State(s.rows[tx.op.id := row], s.txs[t := Finished(OutcomeOf(tx.op.kind, row.status))])
    else State(s.rows, s.txs[t := Statement(s.rows, tx)])
  }

  /** What callers may pass. */
  predicate OpOk(c: Config, op: Op) {
    && IdentOf(op.job) == c.ident(op.id)
    && (op.kind.CreateOnce? ==> c.creates(op.job))
    && (!op.kind.CreateOnce? ==>
          && op.maxConcurrent <= c.slots(op.job.user)
          && (c.queueLimit(op.job.user).Some? ==> 0 < op.maxQueued <= c.queueLimit(op.job.user).value))
    && (c.allGated ==> op.job.gated && op.budget <= c.budget && Charge(op.job) <= c.maxCharge)
  }

  /** prepareCreate: new rows get their hash in normal form, whatever the caller passed. */
  function Prepared(op: Op): Op {
    if Inserts(op.kind) then op.(job := op.job.(hash := NormalHash(op.job.hash))) else op
  }

  /** A call starts; Readmit and PromoteQueued have looked the row up without a lock. */
  ghost predicate BeginsAs(c: Config, s: State, s': State, t: nat, op: Op) {
    && t !in s.txs && OpOk(c, Prepared(op)) && s' == s.(txs := s.txs[t := Begin(Prepared(op))])
    && (!Inserts(op.kind) ==> op.id in s.rows && s.rows[op.id] == op.job)
    && (op.kind.Promote? ==> op.job.status == Queued)
  }

  ghost predicate Begins(c: Config, s: State, s': State) {
    exists t: nat, op :: BeginsAs(c, s, s', t, op)
  }

  /** A worker's or the evictor's write: it never puts a row in flight, in the queue, or back to life. */
  predicate WorkerWrite(c: Config, before: Job, after: Job) {
    && IdentOf(after) == IdentOf(before)
    && (UsesSlot(after) ==> UsesSlot(before))
    && (after.status == Queued ==> before.status == Queued)
    && (LiveIdentity(after) ==> LiveIdentity(before))
    && (c.allGated ==> Charge(after) <= Charge(before) && Contribution(after) <= Contribution(before))
  }

  ghost predicate Locked(s: State, id: string) {
    exists t :: t in s.txs && s.txs[t].Active? && RowLock(id) in s.txs[t].held
  }

  ghost predicate WorkersMove(c: Config, s: State, s': State) {
    && s'.txs == s.txs
    && (forall id | id in s'.rows :: id in s.rows && WorkerWrite(c, s.rows[id], s'.rows[id]))
    && (forall id | id in s.rows && Locked(s, id) :: id in s'.rows && s'.rows[id] == s.rows[id])
  }

  ghost predicate Next(c: Config, s: State, s': State) {
    || Begins(c, s, s')
    || WorkersMove(c, s, s')
    || exists t :: Enabled(s, t) && s' == Advance(s, t)
  }

  ghost predicate ValidConfig(c: Config) {
    c.allGated ==> c.maxCharge >= UNSIZED_CHARGE
  }

  ghost predicate Init(c: Config, s: State) {
    ValidConfig(c) && s.txs == map[] && RowsInv(c, s.rows)
  }

  ghost predicate Run(c: Config, run: seq<State>) {
    && run != [] && Init(c, run[0])
    && forall i | 0 <= i < |run| - 1 :: Next(c, run[i], run[i + 1])
  }

  // ---------------------------------------------------------------- the invariant

  ghost predicate OneLiveRowPerAccount(rows: Rows) {
    forall a, b | a in rows && b in rows && a != b && LiveIdentity(rows[a]) && LiveIdentity(rows[b]) ::
      rows[a].user != rows[b].user || Lower(rows[a].hash) != Lower(rows[b].hash)
  }

  ghost predicate WellFormedRows(c: Config, rows: Rows) {
    forall id | id in rows ::
      && IdentOf(rows[id]) == c.ident(id) && Normalized(rows[id].hash)
      && (c.allGated ==> Charge(rows[id]) <= c.maxCharge)
  }

  ghost predicate RowsInv(c: Config, rows: Rows) {
    WellFormedRows(c, rows) && OneLiveRowPerAccount(rows)
  }

  // The bounds admission is for. CreateOnce looks at none of them.

  predicate WithinSlots(c: Config, rows: Rows, user: string) { |InflightIds(rows, user)| <= Slots(c.slots(user)) }

  predicate WithinQueue(c: Config, rows: Rows, user: string) {
    c.queueLimit(user).Some? ==> |QueuedIds(rows, user)| <= c.queueLimit(user).value
  }

  /** At most one row fetches this content. */
  ghost predicate OneFetchOf(rows: Rows, hash: string) {
    forall a | a in rows && UsesSlot(rows[a]) && Lower(rows[a].hash) == Lower(hash) :: ActiveTwins(rows, hash, a) == {}
  }

  ghost predicate WithinBudget(c: Config, rows: Rows) {
    Used(rows) <= c.budget - INITIAL_BUDGET_HEADROOM + c.maxCharge
  }

  // What CreateOnce is given, as far as the facts of other transactions depend on it: it holds
  // the user's lock for live account rows only, and never a hash's lock or the global one.

  ghost predicate SlotsUnderLock(c: Config, user: string) {
    forall j | c.creates(j) && j.user == user && UsesSlot(j) :: LiveIdentity(j)
  }

  ghost predicate QueueUnderLock(c: Config, user: string) {
    forall j | c.creates(j) && j.user == user && j.status == Queued :: LiveIdentity(j)
  }

  ghost predicate NeverGateQueued(c: Config) {
    forall j | c.creates(j) && j.gated :: j.status != Queued
  }

  ghost predicate NeverOnBudget(c: Config) {
    c.allGated && forall j | c.creates(j) :: !HoldsBudget(j)
  }

  /** Locks are taken in this order. */
  function Rank(lock: Lock): nat {
    match lock
    case GlobalLock => 0
    case UserLock(_) => 1
    case HashLock(_) => 2
    case RowLock(_) => 3
  }

  /**
   Every fact a transaction has read still bounds the committed rows, as far as CreateOnce respects its
   lock. It respects the lock of no content: what becomes of a look at one depends on the run.
   */
  ghost predicate FactsHold(c: Config, rows: Rows, op: Op, v: View) {
    var user := op.job.user;
    && (v.twinFree ==> NoOtherAccountRow(rows, op))
    && (v.queued.Some? && QueueUnderLock(c, user) ==> |OtherQueued(rows, user, op.id)| <= v.queued.value)
    && (v.inflight.Some? && SlotsUnderLock(c, user) ==> |InflightIds(rows, user)| <= v.inflight.value)
    && (v.budgetQueued == Some(false) && NeverGateQueued(c) ==> OtherGatedQueued(rows, op.id) == {})
    && (v.used.Some? && NeverOnBudget(c) ==> Used(rows) <= v.used.value)
    && (v.row.Some? ==> op.id in rows && rows[op.id] == v.row.value)
  }

  predicate NoOtherAccountRow(rows: Rows, op: Op) {
    AccountJob(op.job) ==>
      forall a | a in LiveTwins(rows, op.job.user, op.job.hash) :: a == op.id && !op.kind.Admit?
  }

  function Headroom(kind: Kind): int {
    if kind.Promote? then PROMOTE_BUDGET_HEADROOM else INITIAL_BUDGET_HEADROOM
  }

  /** Why the row a transaction is about to publish is allowed. */
  ghost predicate WriteJustified(c: Config, op: Op, v: View)
    requires v.write.Some?
  {
    var w := v.write.value;
    && IdentOf(w) == IdentOf(op.job)
    && (c.allGated ==> Charge(w) <= c.maxCharge)
    && (op.kind.CreateOnce? ==> w == op.job)
    && (!op.kind.CreateOnce? ==> w.status == Pending || (w.status == Queued && Decides(op.kind)))
    && (w.status == Pending && !op.kind.CreateOnce? ==> PendingJustified(op, v))
    && (w.status == Queued && !op.kind.CreateOnce? ==>
          v.queued.Some? && (op.maxQueued > 0 ==> v.queued.value < op.maxQueued))
  }

  predicate PendingJustified(op: Op, v: View) {
    && v.inflight.Some? && v.inflight.value < Slots(op.maxConcurrent) && v.hashActive == Some(false)
    && (op.job.gated ==> v.used.Some? && op.budget - v.used.value >= Headroom(op.kind))
    && (!op.kind.Promote? ==> v.queued == Some(0) && (op.job.gated ==> v.budgetQueued == Some(false)))
  }

  /** At commit an inserted id is still absent and its live identity still unclaimed. */
  ghost predicate InsertJustified(rows: Rows, op: Op, w: Job) {
    Inserts(op.kind) ==>
      op.id !in rows && (LiveIdentity(w) ==> LiveTwins(rows, w.user, w.hash) == {})
  }

  /** A transaction at this stage only holds locks of a lower rank. */
  function LockBound(kind: Kind, stage: Stage): nat {
    if Index(stage) <= 3 then Index(stage) else if Inserts(kind) && Index(stage) <= 12 then 3 else 4
  }

  predicate LocksOrdered(tx: Tx)
    requires tx.Active?
  {
    forall l | l in tx.held :: Rank(l) < LockBound(tx.op.kind, tx.stage)
  }

  ghost predicate TxInv(c: Config, rows: Rows, tx: Tx) {
    tx.Active? ==>
      && OpOk(c, tx.op) && Normalized(tx.op.job.hash)
      && StageConsistent(tx) && LocksOrdered(tx)
      && FactsHold(c, rows, tx.op, tx.view)
      && Justified(c, rows, tx)
  }

  ghost predicate Justified(c: Config, rows: Rows, tx: Tx)
    requires tx.Active? && StageConsistent(tx)
  {
    && (tx.view.write.Some? ==> WriteJustified(c, tx.op, tx.view))
    && (tx.stage.Commit? ==> InsertJustified(rows, tx.op, tx.view.write.value))
  }

  ghost predicate LocksExclusive(txs: map<nat, Tx>) {
    forall t, u | t in txs && u in txs && t != u && txs[t].Active? && txs[u].Active? :: txs[t].held !! txs[u].held
  }

  ghost predicate Inv(c: Config, s: State) {
    && ValidConfig(c)
    && RowsInv(c, s.rows)
    && LocksExclusive(s.txs)
    && forall t | t in s.txs :: TxInv(c, s.rows, s.txs[t])
  }
}
