// The properties of every run of the admission protocol.
module AdmissionSafety {
  import opened Prelude
  import opened Jobs
  import opened Admission
  import opened AdmissionProofs

  // ---------------------------------------------------------------- the invariant over steps and runs

  lemma StatementKeepsInv(c: Config, s: State, t: nat)
    requires Inv(c, s) && Enabled(s, t) && !s.txs[t].stage.Commit?
    ensures Inv(c, Advance(s, t))
  {
    var tx := s.txs[t];
    StatementKeeps(c, s.rows, tx);
    StatementTakesOnlyWanted(s.rows, tx);
    var next := Statement(s.rows, tx);
    var after := s.txs[t := next];
    forall u | u in after && u != t && after[u].Active? && next.Active?
      ensures next.held !! after[u].held
    {
      assert u in s.txs && tx.held !! s.txs[u].held;
    }
    assert LocksExclusive(after);
  }

  lemma CommitKeepsInv(c: Config, s: State, t: nat)
    requires Inv(c, s) && Enabled(s, t) && s.txs[t].stage.Commit?
    ensures Inv(c, Advance(s, t))
  {
    var tx := s.txs[t];
    var after := Advance(s, t);
    CommitKeepsRows(c, s.rows, tx);
    forall u | u in after.txs
      ensures TxInv(c, after.rows, after.txs[u])
    {
      if u != t && s.txs[u].Active? {
        CommitSparesOther(c, s.rows, tx, s.txs[u]);
      }
    }
  }

  lemma BeginKeepsInv(c: Config, s: State, s': State)
    requires Inv(c, s) && Begins(c, s, s')
    ensures Inv(c, s')
  {
    var t: nat, op :| BeginsAs(c, s, s', t, op);
    var i, j := PreparedHashIsNormalized(op.job.hash);
    BeginHolds(c, s.rows, Prepared(op));
  }

  lemma BeginHolds(c: Config, rows: Rows, op: Op)
    requires OpOk(c, op) && Normalized(op.job.hash)
    ensures TxInv(c, rows, Begin(op))
  {
  }

  lemma WorkersKeepRows(c: Config, before: Rows, after: Rows)
    requires RowsInv(c, before)
    requires forall id | id in after :: id in before && WorkerWrite(c, before[id], after[id])
    ensures RowsInv(c, after)
    ensures c.allGated ==> Used(after) <= Used(before)
  {
    if c.allGated {
      UsedShrinks(before, after);
    }
  }

  lemma WorkersAreQuiet(c: Config, before: Rows, after: Rows, user: string, hash: string)
    requires forall id | id in after :: id in before && WorkerWrite(c, before[id], after[id])
    ensures QuietForAccount(before, after, user) && QuietForSlots(before, after, user)
              && QuietForQueue(before, after, user)
    ensures QuietForHash(before, after, hash) && QuietForGate(before, after)
  {
  }

  lemma WorkersSpare(c: Config, s: State, s': State, t: nat)
    requires Inv(c, s) && WorkersMove(c, s, s') && t in s.txs && s.txs[t].Active?
    ensures TxInv(c, s'.rows, s.txs[t])
  {
    var tx := s.txs[t];
    WorkersKeepRows(c, s.rows, s'.rows);
    WorkersAreQuiet(c, s.rows, s'.rows, tx.op.job.user, tx.op.job.hash);
    assert TxInv(c, s.rows, tx);
    if tx.view.row.Some? {
      assert Locked(s, tx.op.id);
    }
    FactsSurvive(c, s.rows, s'.rows, tx.op, tx.view);
    if tx.stage.Commit? && Inserts(tx.op.kind) {
      QuietTwins(s.rows, s'.rows, tx.op.job.user, tx.view.write.value.hash);
    }
  }

  lemma WorkersKeepInv(c: Config, s: State, s': State)
    requires Inv(c, s) && WorkersMove(c, s, s')
    ensures Inv(c, s')
  {
    WorkersKeepRows(c, s.rows, s'.rows);
    forall t | t in s.txs && s.txs[t].Active?
      ensures TxInv(c, s'.rows, s.txs[t])
    {
      WorkersSpare(c, s, s', t);
    }
  }

  lemma NextKeepsInv(c: Config, s: State, s': State)
    requires Inv(c, s) && Next(c, s, s')
    ensures Inv(c, s')
  {
    if Begins(c, s, s') {
      BeginKeepsInv(c, s, s');
    } else if WorkersMove(c, s, s') {
      WorkersKeepInv(c, s, s');
    } else {
      var t :| Enabled(s, t) && s' == Advance(s, t);
      if s.txs[t].stage.Commit? { CommitKeepsInv(c, s, t); } else { StatementKeepsInv(c, s, t); }
    }
  }

  lemma {:induction false} RunKeepsInv(c: Config, run: seq<State>, i: nat)
    requires Run(c, run) && i < |run|
    ensures Inv(c, run[i])
  {
    if i > 0 {
      RunKeepsInv(c, run, i - 1);
      NextKeepsInv(c, run[i - 1], run[i]);
    }
  }

  lemma TxInvInRun(c: Config, run: seq<State>, i: nat, t: nat)
    requires Run(c, run) && i < |run| && t in run[i].txs
    ensures TxInv(c, run[i].rows, run[i].txs[t])
  {
    RunKeepsInv(c, run, i);
  }

  // ---------------------------------------------------------------- safety of every run

  /** Inserts here look at committed rows only: it is the user lock that keeps accounts free of duplicates. */
  lemma UserLockKeepsAccountsUnique(c: Config, run: seq<State>, i: nat, a: string, b: string)
    requires Run(c, run) && i < |run|
    requires a in run[i].rows && b in run[i].rows && LiveIdentity(run[i].rows[a]) && LiveIdentity(run[i].rows[b])
    requires run[i].rows[a].user == run[i].rows[b].user && Lower(run[i].rows[a].hash) == Lower(run[i].rows[b].hash)
    ensures a == b
  {
    RunKeepsInv(c, run, i);
  }

  /** So an insert made by Admit never finds a conflicting row. */
  lemma AdmitNeverConflicts(c: Config, run: seq<State>, i: nat, t: nat)
    requires Run(c, run) && i < |run| && Enabled(run[i], t)
    requires run[i].txs[t].stage.Write? && run[i].txs[t].op.kind.Admit?
    ensures !Advance(run[i], t).txs[t].Finished? || Advance(run[i], t).txs[t].outcome == DuplicateKey
  {
    TxInvInRun(c, run, i, t);
  }

  /** A replayed submission ends at the row that is already live, whatever the queue holds. */
  lemma ReplayFindsLiveRow(c: Config, run: seq<State>, i: nat, t: nat)
    requires Run(c, run) && i < |run| && Enabled(run[i], t)
    requires var tx := run[i].txs[t];
             tx.stage.ReadLive? && tx.op.kind.Admit? && AccountJob(tx.op.job)
             && LiveTwins(run[i].rows, tx.op.job.user, tx.op.job.hash) != {}
    ensures var tx, after := run[i].txs[t], Advance(run[i], t);
            after.rows == run[i].rows && after.txs[t].Finished?
            && exists x ::
                 after.txs[t].outcome == Existing(x) && LiveTwins(run[i].rows, tx.op.job.user, tx.op.job.hash) == {x}
  {
    RunKeepsInv(c, run, i);
    var tx := run[i].txs[t];
    assert TxInv(c, run[i].rows, tx);
    var twins := LiveTwins(run[i].rows, tx.op.job.user, tx.op.job.hash);
    var x := AnyOf(twins);
    assert forall y | y in twins :: y == x;
    assert twins == {x};
  }

  // ---------------------------------------------------------------- what becomes of a look

  /** An open transaction has just begun, or was there before, and has run a statement or has not. */
  lemma Moved(c: Config, s: State, s': State, t: nat)
    requires Next(c, s, s') && t in s'.txs && s'.txs[t].Active?
    ensures t !in s.txs ==> s'.txs[t].view == NOTHING && Index(s'.txs[t].stage) in {0, 1, 12}
    ensures t in s.txs ==> s'.txs[t] == s.txs[t] || (Enabled(s, t) && s' == Advance(s, t))
  {
    if Begins(c, s, s') {
      var u: nat, op :| BeginsAs(c, s, s', u, op);
    } else if !WorkersMove(c, s, s') {
      var u :| Enabled(s, u) && s' == Advance(s, u);
    }
  }

  /** A CreateOnce commits a row x that fetches this content. */
  ghost predicate CreatesFetch(s: State, s': State, u: nat, hash: string, x: string) {
    && Enabled(s, u) && s' == Advance(s, u)
    && s.txs[u].op.kind.CreateOnce? && s.txs[u].op.id == x && StartsFetch(s.txs[u], hash)
  }

  ghost predicate FetchCreated(s: State, s': State, hash: string, x: string) {
    exists u :: CreatesFetch(s, s', u, hash, x)
  }

  /** In step m a CreateOnce commits such a row while t has already looked. */
  ghost predicate InsertedBehind(run: seq<State>, m: nat, t: nat, hash: string, x: string) {
    && m + 1 < |run| && t in run[m].txs && LooksFree(run[m].txs[t], hash)
    && FetchCreated(run[m], run[m + 1], hash, x)
  }

  /** Before step k a CreateOnce has inserted x behind the look of t. */
  ghost predicate InsertedSince(run: seq<State>, k: nat, t: nat, hash: string, x: string) {
    exists m: nat :: m < k && InsertedBehind(run, m, t, hash, x)
  }

  lemma LookIsFree(c: Config, s: State, t: nat, hash: string)
    requires Inv(c, s) && Enabled(s, t) && !LooksFree(s.txs[t], hash) && LooksFree(Advance(s, t).txs[t], hash)
    ensures Advance(s, t).rows == s.rows && ActiveTwins(s.rows, hash, s.txs[t].op.id) == {}
  {
    assert TxInv(c, s.rows, s.txs[t]);
    ExactTwinsAreAllTwins(s.rows, s.txs[t].op.job.hash, s.txs[t].op.id);
    assert ActiveTwins(s.rows, hash, s.txs[t].op.id) == ActiveTwins(s.rows, s.txs[t].op.job.hash, s.txs[t].op.id);
  }

  lemma StatementKeepsOp(s: State, t: nat)
    requires Enabled(s, t) && Advance(s, t).txs[t].Active?
    ensures Advance(s, t).txs[t].op == s.txs[t].op && Advance(s, t).rows == s.rows
  {
  }

  /** A transaction that has looked had looked before, or found the content free just now. */
  lemma LookedBefore(c: Config, s: State, s': State, t: nat, hash: string)
    requires Inv(c, s) && Next(c, s, s') && t in s'.txs && LooksFree(s'.txs[t], hash)
    ensures t in s.txs && s.txs[t].Active? && s.txs[t].op == s'.txs[t].op
    ensures LooksFree(s.txs[t], hash) || ActiveTwins(s'.rows, hash, s'.txs[t].op.id) == {}
  {
    Moved(c, s, s', t);
    if s'.txs[t] != s.txs[t] {
      StatementKeepsOp(s, t);
      if !LooksFree(s.txs[t], hash) {
        LookIsFree(c, s, t, hash);
      }
    }
  }

  /** Its hash lock keeps out every commit that starts a fetch, except by CreateOnce. */
  lemma LookHoldsOut(c: Config, s: State, t: nat, u: nat, hash: string)
    requires Inv(c, s) && Enabled(s, u) && s.txs[u].stage.Commit? && t in s.txs && t != u && LooksFree(s.txs[t], hash)
    ensures || QuietForHash(s.rows, Advance(s, u).rows, hash)
            || CreatesFetch(s, Advance(s, u), u, hash, s.txs[u].op.id)
  {
    assert TxInv(c, s.rows, s.txs[t]) && TxInv(c, s.rows, s.txs[u]);
    assert HashLock(Lower(hash)) in s.txs[t].held;
    assert s.txs[t].held !! s.txs[u].held;
    CommitQuietForHash(c, s.rows, s.txs[u], hash);
  }

  lemma TwinBefore(c: Config, s: State, s': State, t: nat, hash: string, x: string)
    requires Inv(c, s) && Next(c, s, s') && t in s.txs && LooksFree(s.txs[t], hash)
    requires t in s'.txs && s'.txs[t].Active? && x in ActiveTwins(s'.rows, hash, s.txs[t].op.id)
    ensures x in ActiveTwins(s.rows, hash, s.txs[t].op.id) || FetchCreated(s, s', hash, x)
  {
    if WorkersMove(c, s, s') {
      WorkersAreQuiet(c, s.rows, s'.rows, "", hash);
    } else if !Begins(c, s, s') {
      var u :| Enabled(s, u) && s' == Advance(s, u);
      if s.txs[u].stage.Commit? {
        LookHoldsOut(c, s, t, u, hash);
      }
    }
  }

  /**
   Whoever fetches a content after a transaction has found it free is a row that CreateOnce has
   inserted behind the look: in every run, whatever CreateOnce is given.
   */
  lemma {:induction false} BehindTheLook(c: Config, run: seq<State>, i: nat, t: nat, hash: string, x: string)
    returns (m: nat)
    requires Run(c, run) && i < |run| && t in run[i].txs && LooksFree(run[i].txs[t], hash)
    requires x in ActiveTwins(run[i].rows, hash, run[i].txs[t].op.id)
    ensures m < i && InsertedBehind(run, m, t, hash, x) && run[m].txs[t].op == run[i].txs[t].op
  {
    assert i > 0;
    m := i - 1;
    RunKeepsInv(c, run, m);
    assert Next(c, run[m], run[m + 1]);
    LookedBefore(c, run[m], run[i], t, hash);
    TwinBefore(c, run[m], run[i], t, hash, x);
    if x in ActiveTwins(run[m].rows, hash, run[m].txs[t].op.id) {
      m := BehindTheLook(c, run, i - 1, t, hash, x);
    }
  }

  // ---------------------------------------------------------------- order

  lemma PendingCommitsPastEmptyQueues(c: Config, rows: Rows, tx: Tx)
    requires tx.Active? && tx.stage.Commit? && Decides(tx.op.kind) && TxInv(c, rows, tx)
               && tx.view.write.value.status == Pending
    ensures QueueUnderLock(c, tx.op.job.user) ==> OtherQueued(rows, tx.op.job.user, tx.op.id) == {}
    ensures NeverGateQueued(c) && tx.op.job.gated ==> OtherGatedQueued(rows, tx.op.id) == {}
  {
    assert PendingJustified(tx.op, tx.view);
    assert QueueUnderLock(c, tx.op.job.user) ==> |OtherQueued(rows, tx.op.job.user, tx.op.id)| == 0;
  }

  /**
   A job goes straight to pending only past an empty queue, at the moment it is published, as long
   as CreateOnce queues nothing without the user's lock, and nothing gated at all.
   */
  lemma AdmissionNeverOvertakes(c: Config, run: seq<State>, i: nat, t: nat)
    requires Run(c, run) && i < |run| && Enabled(run[i], t)
    requires var tx := run[i].txs[t]; tx.stage.Commit? && Decides(tx.op.kind) && tx.view.write.value.status == Pending
    ensures var tx := run[i].txs[t];
            && (QueueUnderLock(c, tx.op.job.user) ==> OtherQueued(run[i].rows, tx.op.job.user, tx.op.id) == {})
            && (NeverGateQueued(c) && tx.op.job.gated ==> OtherGatedQueued(run[i].rows, tx.op.id) == {})
  {
    TxInvInRun(c, run, i, t);
    PendingCommitsPastEmptyQueues(c, run[i].rows, run[i].txs[t]);
  }

  /** No queued row of the same owner goes before it, except those whose content somebody is fetching. */
  ghost predicate FirstInQueue(rows: Rows, id: string) {
    id in rows && rows[id].status == Queued
    && forall q | q in rows && GoesBefore(rows, q, id) :: !Unfetched(rows, q)
  }

  lemma CheckOlderFindsFirst(c: Config, s: State, t: nat)
    requires Inv(c, s) && Enabled(s, t) && s.txs[t].stage.ReadOlder? && Advance(s, t).txs[t].Active?
    ensures FirstInQueue(s.rows, s.txs[t].op.id)
  {
    assert TxInv(c, s.rows, s.txs[t]) && s.txs[t].op.kind.Promote?;
    NoneGoesBefore(s.rows, s.txs[t].op.id);
  }

  ghost predicate Promoting(s: State, t: nat) {
    t in s.txs && s.txs[t].Active? && s.txs[t].op.kind.Promote?
  }

  lemma PromoteStageBefore(s: State, t: nat)
    requires Enabled(s, t) && Advance(s, t).txs[t].Active? && s.txs[t].op.kind.Promote?
    ensures var next := Advance(s, t).txs[t];
            next.op == s.txs[t].op && (Index(next.stage) > 7 ==> Index(s.txs[t].stage) >= 7)
  {
  }

  ghost predicate ChecksOrder(s: State, t: nat, op: Op) {
    Enabled(s, t) && s.txs[t].stage.ReadOlder? && s.txs[t].op == op && Advance(s, t).txs[t].Active?
  }

  /** Past its order check. */
  ghost predicate PastOrder(s: State, t: nat, op: Op) {
    Promoting(s, t) && s.txs[t].op == op && Index(s.txs[t].stage) > 7
  }

  lemma PromoteCameFrom(c: Config, s: State, s': State, t: nat, op: Op)
    requires Next(c, s, s') && PastOrder(s', t, op)
    ensures ChecksOrder(s, t, op) || PastOrder(s, t, op)
  {
    Moved(c, s, s', t);
    if s.txs[t] != s'.txs[t] {
      PromoteStageBefore(s, t);
    }
  }

  lemma OrderCheckedBefore(c: Config, s: State, s': State, t: nat, op: Op)
    requires Inv(c, s) && Next(c, s, s') && PastOrder(s', t, op)
    ensures FirstInQueue(s.rows, op.id) || PastOrder(s, t, op)
  {
    PromoteCameFrom(c, s, s', t, op);
    if ChecksOrder(s, t, op) {
      CheckOlderFindsFirst(c, s, t);
    }
  }

  /** One step back it was first in the queue, or past that check already. */
  lemma OneStepBack(c: Config, run: seq<State>, i: nat, t: nat, op: Op)
    requires Run(c, run) && i < |run| && PastOrder(run[i], t, op)
    ensures i > 0 && (FirstInQueue(run[i - 1].rows, op.id) || PastOrder(run[i - 1], t, op))
  {
    assert i > 0;
    RunKeepsInv(c, run, i - 1);
    assert Next(c, run[i - 1], run[i - 1 + 1]);
    OrderCheckedBefore(c, run[i - 1], run[i], t, op);
  }

  /** The state in which a promotion's order check ran and passed. */
  lemma PassedOrderCheck(c: Config, run: seq<State>, i: nat, t: nat, op: Op) returns (j: nat)
    requires Run(c, run) && i < |run| && PastOrder(run[i], t, op)
    ensures j < i && FirstInQueue(run[j].rows, op.id)
  {
    var checked := seq(|run|, k requires 0 <= k < |run| => FirstInQueue(run[k].rows, op.id));
    var past := seq(|run|, k requires 0 <= k < |run| => PastOrder(run[k], t, op));
    forall k | 0 <= k < |past| && past[k]
      ensures k > 0 && (checked[k - 1] || past[k - 1])
    {
      OneStepBack(c, run, k, t, op);
    }
    j := CheckedBefore(checked, past, i);
  }

  /**
   Every promoted job was first in its owner's queue when its turn was checked. Who fetches its content
   at the commit has been inserted by CreateOnce since the promotion looked.
   */
  lemma PromotionsAreFirst(c: Config, run: seq<State>, i: nat, t: nat) returns (j: nat)
    requires Run(c, run) && i < |run| && Promoting(run[i], t) && run[i].txs[t].stage.Commit?
    ensures j < i && FirstInQueue(run[j].rows, run[i].txs[t].op.id)
    ensures var op := run[i].txs[t].op;
            forall x | x in ActiveTwins(run[i].rows, op.job.hash, op.id) :: InsertedSince(run, i, t, op.job.hash, x)
  {
    var op := run[i].txs[t].op;
    j := PassedOrderCheck(c, run, i, t, op);
    TxInvInRun(c, run, i, t);
    PromotionLooked(c, run[i].rows, run[i].txs[t]);
    forall x | x in ActiveTwins(run[i].rows, op.job.hash, op.id)
      ensures InsertedSince(run, i, t, op.job.hash, x)
    {
      var m := BehindTheLook(c, run, i, t, op.job.hash, x);
    }
  }

  lemma PromotionLooked(c: Config, rows: Rows, tx: Tx)
    requires tx.Active? && tx.op.kind.Promote? && tx.stage.Commit? && TxInv(c, rows, tx)
    ensures LooksFree(tx, tx.op.job.hash)
  {
  }

  // ---------------------------------------------------------------- no deadlock

  ghost predicate WaitsFor(s: State, a: nat, b: nat) {
    a in s.txs && b in s.txs && a != b && s.txs[a].Active? && s.txs[b].Active?
    && Wanted(s.txs[a]).Some? && Wanted(s.txs[a]).value in s.txs[b].held
  }

  ghost predicate WaitPath(s: State, path: seq<nat>) {
    |path| > 1 && forall k | 0 <= k < |path| - 1 :: WaitsFor(s, path[k], path[k + 1])
  }

  /** What a transaction waits for outranks everything it holds. */
  lemma WantedOutranksHeld(c: Config, s: State, t: nat, lock: Lock)
    requires Inv(c, s) && t in s.txs && s.txs[t].Active? && Wanted(s.txs[t]).Some? && lock in s.txs[t].held
    ensures Rank(lock) < Rank(Wanted(s.txs[t]).value)
  {
    assert TxInv(c, s.rows, s.txs[t]);
  }

  /** The rank of what t waits for, or 4 when it waits for nothing. */
  function WaitRank(s: State, t: nat): nat {
    if t in s.txs && Wanted(s.txs[t]).Some? then Rank(Wanted(s.txs[t]).value) else 4
  }

  lemma {:induction false} RanksRise(c: Config, s: State, path: seq<nat>, k: nat)
    requires Inv(c, s) && WaitPath(s, path) && k < |path|
    ensures WaitRank(s, path[0]) + k <= WaitRank(s, path[k])
  {
    if k > 0 {
      assert WaitsFor(s, path[k - 1], path[k]);
      if Wanted(s.txs[path[k]]).Some? {
        WantedOutranksHeld(c, s, path[k], Wanted(s.txs[path[k - 1]]).value);
      }
      RanksRise(c, s, path, k - 1);
    }
  }

  /** The wait-for graph has no cycle, and no chain of waiters is longer than the four lock classes. */
  lemma WaitForIsAcyclic(c: Config, run: seq<State>, i: nat, path: seq<nat>)
    requires Run(c, run) && i < |run| && WaitPath(run[i], path)
    ensures path[0] != path[|path| - 1] && |path| <= 5
  {
    RunKeepsInv(c, run, i);
    assert WaitsFor(run[i], path[0], path[1]);
    RanksRise(c, run[i], path, |path| - 1);
  }

  /** From any transaction, following what it waits for reaches one that can move. */
  lemma {:induction false} SomeoneMoves(c: Config, s: State, t: nat) returns (u: nat)
    requires Inv(c, s) && t in s.txs && s.txs[t].Active?
    ensures Enabled(s, u)
    decreases 4 - WaitRank(s, t)
  {
    assert TxInv(c, s.rows, s.txs[t]);
    if Enabled(s, t) {
      u := t;
    } else {
      var lock := Wanted(s.txs[t]).value;
      var b :| b in s.txs && b != t && s.txs[b].Active? && lock in s.txs[b].held;
      if Wanted(s.txs[b]).Some? {
        WantedOutranksHeld(c, s, b, lock);
      }
      u := SomeoneMoves(c, s, b);
    }
  }

  /** No reachable state is stuck: while a transaction is open, one of them can run its next statement. */
  lemma NeverStuck(c: Config, run: seq<State>, i: nat, t: nat)
    requires Run(c, run) && i < |run| && t in run[i].txs && run[i].txs[t].Active?
    ensures exists u :: Enabled(run[i], u)
  {
    RunKeepsInv(c, run, i);
    var u := SomeoneMoves(c, run[i], t);
  }

  /** And every statement brings its transaction nearer its end. */
  lemma StatementsProgress(s: State, t: nat)
    requires Enabled(s, t)
    ensures var next := Advance(s, t).txs[t]; next.Active? ==> Index(next.stage) > Index(s.txs[t].stage)
  {
    if !s.txs[t].stage.Commit? {
      assert Advance(s, t).txs[t] == Statement(s.rows, s.txs[t]);
    }
  }

  lemma RunMore(c: Config, run: seq<State>, s: State)
    requires Run(c, run) && Next(c, run[|run| - 1], s)
    ensures Run(c, run + [s])
  {
    var more := run + [s];
    forall i | 0 <= i < |more| - 1
      ensures Next(c, more[i], more[i + 1])
    {
      if i < |run| - 1 {
        assert Next(c, run[i], run[i + 1]);
      }
    }
  }

  /** Statements each open transaction still has before it, at most. */
  ghost function AllLeft(s: State): set<(nat, int)> {
    set t, k | t in s.txs && s.txs[t].Active? && Index(s.txs[t].stage) <= k <= 14 :: (t, k)
  }

  lemma AdvanceLeavesLess(s: State, t: nat)
    requires Enabled(s, t)
    ensures |AllLeft(Advance(s, t))| < |AllLeft(s)|
  {
    StatementsProgress(s, t);
    var now := (t, Index(s.txs[t].stage));
    assert now in AllLeft(s);
    SubsetCardinality(AllLeft(Advance(s, t)), AllLeft(s) - {now});
  }

  ghost predicate Quiet(s: State) { forall t | t in s.txs :: s.txs[t].Finished? }

  /** A run in which exactly these calls have been made. */
  ghost predicate RunOf(c: Config, calls: set<nat>, run: seq<State>) { Run(c, run) && run[|run| - 1].txs.Keys == calls }

  ghost function RunLeft(run: seq<State>): nat { if run == [] then 0 else |AllLeft(run[|run| - 1])| }

  lemma SomeoneGoesOn(c: Config, calls: set<nat>, run: seq<State>) returns (more: seq<State>)
    requires RunOf(c, calls, run) && RunLeft(run) > 0
    ensures run <= more && RunOf(c, calls, more) && RunLeft(more) < RunLeft(run)
  {
    var s := run[|run| - 1];
    var left :| left in AllLeft(s);
    NeverStuck(c, run, |run| - 1, left.0);
    var u :| Enabled(s, u);
    AdvanceLeavesLess(s, u);
    RunMore(c, run, Advance(s, u));
    more := run + [Advance(s, u)];
  }

  lemma NothingLeft(s: State)
    requires |AllLeft(s)| == 0
    ensures Quiet(s)
  {
    forall t | t in s.txs && s.txs[t].Active?
      ensures (t, 14) in AllLeft(s)
    {
    }
  }

  /** From every reachable state the open transactions can all be brought to their end. */
  lemma RunsCanFinish(c: Config, run: seq<State>) returns (longer: seq<State>)
    requires Run(c, run)
    ensures run <= longer && RunOf(c, run[|run| - 1].txs.Keys, longer) && Quiet(longer[|longer| - 1])
  {
    var calls := run[|run| - 1].txs.Keys;
    var good := r => RunOf(c, calls, r);
    forall r | good(r) && RunLeft(r) > 0
      ensures exists more :: GoesOn(good, RunLeft, r, more)
    {
      var more := SomeoneGoesOn(c, calls, r);
      assert GoesOn(good, RunLeft, r, more);
    }
    longer := GoodRunsEnd(good, RunLeft, run);
    NothingLeft(longer[|longer| - 1]);
  }
}
