// One fetch per content, in runs where CreateOnce may insert any row: exactly which commits make a
// second one, and what CreateOnce would have to look at.
module AdmissionFetches {
  import opened Prelude
  import opened Jobs
  import opened Admission
  import opened AdmissionProofs
  import opened AdmissionSafety

  /** A commit publishes a row that fetches content which another row is fetching. */
  ghost predicate FetchesTaken(s: State, s': State, t: nat, hash: string) {
    && Enabled(s, t) && s' == Advance(s, t)
    && StartsFetch(s.txs[t], hash) && ActiveTwins(s.rows, hash, s.txs[t].op.id) != {}
  }

  ghost predicate SecondFetch(s: State, s': State, hash: string) {
    exists t :: FetchesTaken(s, s', t, hash)
  }

  lemma QuietFetch(before: Rows, after: Rows, hash: string)
    requires QuietForHash(before, after, hash) && OneFetchOf(before, hash)
    ensures OneFetchOf(after, hash)
  {
    forall a | a in after && UsesSlot(after[a]) && Lower(after[a].hash) == Lower(hash)
      ensures ActiveTwins(after, hash, a) == {}
    {
      assert ActiveTwins(after, hash, a) <= ActiveTwins(before, hash, a);
    }
  }

  lemma AdvanceKeepsFetch(c: Config, s: State, t: nat, hash: string)
    requires Inv(c, s) && Enabled(s, t) && OneFetchOf(s.rows, hash)
    ensures OneFetchOf(Advance(s, t).rows, hash) <==> !FetchesTaken(s, Advance(s, t), t, hash)
  {
    if s.txs[t].stage.Commit? {
      assert TxInv(c, s.rows, s.txs[t]);
      CommitKeepsFetch(c, s.rows, s.txs[t], hash);
    }
  }

  lemma FetchStep(c: Config, s: State, s': State, hash: string)
    requires Inv(c, s) && Next(c, s, s') && OneFetchOf(s.rows, hash)
    ensures OneFetchOf(s'.rows, hash) <==> !SecondFetch(s, s', hash)
  {
    if SecondFetch(s, s', hash) {
      var t :| FetchesTaken(s, s', t, hash);
      AdvanceKeepsFetch(c, s, t, hash);
    } else if WorkersMove(c, s, s') {
      WorkersAreQuiet(c, s.rows, s'.rows, "", hash);
      QuietFetch(s.rows, s'.rows, hash);
    } else if !Begins(c, s, s') {
      var t :| Enabled(s, t) && s' == Advance(s, t);
      assert !FetchesTaken(s, s', t, hash);
      AdvanceKeepsFetch(c, s, t, hash);
    }
  }

  // ---------------------------------------------------------------- the two ways to a second fetch

  /** A CreateOnce starts fetching content that is being fetched. */
  ghost predicate CreatedOnTaken(s: State, s': State, hash: string) {
    exists t :: FetchesTaken(s, s', t, hash) && s.txs[t].op.kind.CreateOnce?
  }

  /**
   In step k another transaction starts fetching the content, which it has looked at, although a row x
   is in flight that CreateOnce has inserted behind the look.
   */
  ghost predicate CommitsOver(run: seq<State>, k: nat, t: nat, hash: string, x: string) {
    && k + 1 < |run| && Enabled(run[k], t) && run[k + 1] == Advance(run[k], t)
    && !run[k].txs[t].op.kind.CreateOnce? && StartsFetch(run[k].txs[t], hash)
    && x in ActiveTwins(run[k].rows, hash, run[k].txs[t].op.id)
    && InsertedSince(run, k, t, hash, x)
  }

  ghost predicate CommittedOver(run: seq<State>, k: nat, hash: string) {
    exists t: nat, x :: CommitsOver(run, k, t, hash, x)
  }

  /** Whoever is no CreateOnce and starts a second fetch does it over a row inserted behind its look. */
  lemma TakenBehindTheLook(c: Config, run: seq<State>, k: nat, t: nat, hash: string)
    requires Run(c, run) && k + 1 < |run| && FetchesTaken(run[k], run[k + 1], t, hash)
    requires !run[k].txs[t].op.kind.CreateOnce?
    ensures CommittedOver(run, k, hash)
  {
    var s := run[k];
    TxInvInRun(c, run, k, t);
    assert LooksFree(s.txs[t], hash) by { StartLooked(c, s.rows, s.txs[t], hash); }
    var x :| x in ActiveTwins(s.rows, hash, s.txs[t].op.id);
    var m := BehindTheLook(c, run, k, t, hash, x);
    assert CommitsOver(run, k, t, hash, x);
  }

  lemma StartLooked(c: Config, rows: Rows, tx: Tx, hash: string)
    requires tx.Active? && TxInv(c, rows, tx) && StartsFetch(tx, hash) && !tx.op.kind.CreateOnce?
    ensures LooksFree(tx, hash)
  {
  }

  lemma SecondFetchComesFrom(c: Config, run: seq<State>, k: nat, hash: string)
    requires Run(c, run) && k + 1 < |run|
    ensures SecondFetch(run[k], run[k + 1], hash) <==>
            CreatedOnTaken(run[k], run[k + 1], hash) || CommittedOver(run, k, hash)
  {
    if SecondFetch(run[k], run[k + 1], hash) {
      var t :| FetchesTaken(run[k], run[k + 1], t, hash);
      if !run[k].txs[t].op.kind.CreateOnce? {
        TakenBehindTheLook(c, run, k, t, hash);
      }
    }
    if CommittedOver(run, k, hash) {
      var t: nat, x :| CommitsOver(run, k, t, hash, x);
      assert FetchesTaken(run[k], run[k + 1], t, hash);
    }
  }

  lemma FetchStepInRun(c: Config, run: seq<State>, k: nat, hash: string)
    requires Run(c, run) && k + 1 < |run| && OneFetchOf(run[k].rows, hash)
    ensures OneFetchOf(run[k + 1].rows, hash) <==>
            !CreatedOnTaken(run[k], run[k + 1], hash) && !CommittedOver(run, k, hash)
  {
    RunKeepsInv(c, run, k);
    assert Next(c, run[k], run[k + 1]);
    FetchStep(c, run[k], run[k + 1], hash);
    SecondFetchComesFrom(c, run, k, hash);
  }

  lemma {:induction false} FetchesHoldUpTo(c: Config, run: seq<State>, hash: string, i: nat)
    requires Run(c, run) && i < |run| && OneFetchOf(run[0].rows, hash)
    requires forall k | 0 <= k < i :: !CreatedOnTaken(run[k], run[k + 1], hash) && !CommittedOver(run, k, hash)
    ensures OneFetchOf(run[i].rows, hash)
  {
    if i > 0 {
      FetchesHoldUpTo(c, run, hash, i - 1);
      assert !CommittedOver(run, i - 1, hash);
      FetchStepInRun(c, run, i - 1, hash);
    }
  }

  /**
   Over every run a content is fetched once at a time if and only if no CreateOnce starts a fetch of it
   while it is taken, and no other transaction starts one over a row that CreateOnce has inserted behind
   its look and that is still in flight.
   */
  lemma FetchesHoldExactly(c: Config, run: seq<State>, hash: string)
    requires Run(c, run)
    ensures (forall i | 0 <= i < |run| :: OneFetchOf(run[i].rows, hash)) <==>
            && OneFetchOf(run[0].rows, hash)
            && forall k | 0 <= k < |run| - 1 ::
                 !CreatedOnTaken(run[k], run[k + 1], hash) && !CommittedOver(run, k, hash)
  {
    if && OneFetchOf(run[0].rows, hash)
       && forall k | 0 <= k < |run| - 1 ::
            !CreatedOnTaken(run[k], run[k + 1], hash) && !CommittedOver(run, k, hash) {
      forall i | 0 <= i < |run|
        ensures OneFetchOf(run[i].rows, hash)
      {
        FetchesHoldUpTo(c, run, hash, i);
      }
    }
    if forall i | 0 <= i < |run| :: OneFetchOf(run[i].rows, hash) {
      forall k | 0 <= k < |run| - 1
        ensures !CreatedOnTaken(run[k], run[k + 1], hash) && !CommittedOver(run, k, hash)
      {
        assert OneFetchOf(run[k].rows, hash) && OneFetchOf(run[k + 1].rows, hash);
        FetchStepInRun(c, run, k, hash);
      }
    }
  }

  // ---------------------------------------------------------------- what an insert could look at

  /** A CreateOnce starts a fetch of content that is taken, or that an open transaction has found free. */
  ghost predicate Careless(s: State, s': State, hash: string) {
    exists u, x :: CreatesFetch(s, s', u, hash, x) && (ActiveTwins(s.rows, hash, x) != {} || Looked(s, hash))
  }

  ghost predicate Looked(s: State, hash: string) {
    exists t :: t in s.txs && LooksFree(s.txs[t], hash)
  }

  lemma BehindIsCareless(run: seq<State>, m: nat, t: nat, hash: string, x: string)
    requires InsertedBehind(run, m, t, hash, x)
    ensures Careless(run[m], run[m + 1], hash)
  {
    var u :| CreatesFetch(run[m], run[m + 1], u, hash, x);
    assert Looked(run[m], hash);
  }

  lemma SinceWasCareless(run: seq<State>, k: nat, t: nat, hash: string, x: string) returns (m: nat)
    requires k < |run| && InsertedSince(run, k, t, hash, x)
    ensures m < k && Careless(run[m], run[m + 1], hash)
  {
    m :| m < k && InsertedBehind(run, m, t, hash, x);
    BehindIsCareless(run, m, t, hash, x);
  }

  lemma OnTakenIsCareless(s: State, s': State, hash: string)
    requires CreatedOnTaken(s, s', hash)
    ensures Careless(s, s', hash)
  {
    var t :| FetchesTaken(s, s', t, hash) && s.txs[t].op.kind.CreateOnce?;
    assert CreatesFetch(s, s', t, hash, s.txs[t].op.id);
  }

  /** Behind every commit over an inserted row there is a careless insert. */
  lemma OverWasCareless(run: seq<State>, k: nat, hash: string) returns (m: nat)
    requires k < |run| && CommittedOver(run, k, hash)
    ensures m < k && Careless(run[m], run[m + 1], hash)
  {
    var t: nat, x :| CommitsOver(run, k, t, hash, x);
    m := SinceWasCareless(run, k, t, hash, x);
  }

  /**
   Where no CreateOnce is careless, a content is fetched once at a time, and what an open transaction
   has found free stays free until it ends.
   */
  lemma {:induction false} FetchesHold(c: Config, run: seq<State>, hash: string, i: nat)
    requires Run(c, run) && i < |run| && OneFetchOf(run[0].rows, hash)
    requires forall k | 0 <= k < i :: !Careless(run[k], run[k + 1], hash)
    ensures OneFetchOf(run[i].rows, hash)
    ensures forall t | t in run[i].txs && LooksFree(run[i].txs[t], hash) ::
              ActiveTwins(run[i].rows, hash, run[i].txs[t].op.id) == {}
  {
    forall k | 0 <= k < i
      ensures !CreatedOnTaken(run[k], run[k + 1], hash) && !CommittedOver(run, k, hash)
    {
      if CreatedOnTaken(run[k], run[k + 1], hash) {
        OnTakenIsCareless(run[k], run[k + 1], hash);
      }
      if CommittedOver(run, k, hash) {
        var m := OverWasCareless(run, k, hash);
      }
    }
    FetchesHoldUpTo(c, run, hash, i);
    forall t, x | t in run[i].txs && LooksFree(run[i].txs[t], hash)
      ensures x !in ActiveTwins(run[i].rows, hash, run[i].txs[t].op.id)
    {
      if x in ActiveTwins(run[i].rows, hash, run[i].txs[t].op.id) {
        var m := BehindTheLook(c, run, i, t, hash, x);
        BehindIsCareless(run, m, t, hash, x);
      }
    }
  }

  /** To be careful it would be enough to take the hash lock, and to look: who has looked holds it. */
  lemma HashLockIsCareful(c: Config, s: State, u: nat, hash: string)
    requires Inv(c, s) && Enabled(s, u) && StartsFetch(s.txs[u], hash)
    requires LockFree(s.txs, u, HashLock(Lower(hash))) && ActiveTwins(s.rows, hash, s.txs[u].op.id) == {}
    ensures !Careless(s, Advance(s, u), hash)
  {
    if Careless(s, Advance(s, u), hash) {
      var v, x :| CreatesFetch(s, Advance(s, u), v, hash, x)
                  && (ActiveTwins(s.rows, hash, x) != {} || Looked(s, hash));
      OneMove(s, u, v);
      NobodyLooked(c, s, u, hash);
    }
  }

  lemma NobodyLooked(c: Config, s: State, u: nat, hash: string)
    requires Inv(c, s) && u in s.txs && s.txs[u].Active? && s.txs[u].op.kind.CreateOnce?
    requires LockFree(s.txs, u, HashLock(Lower(hash)))
    ensures !Looked(s, hash)
  {
    forall t | t in s.txs
      ensures !LooksFree(s.txs[t], hash)
    {
      assert TxInv(c, s.rows, s.txs[t]);
    }
  }

  lemma OneMove(s: State, u: nat, v: nat)
    requires Enabled(s, u) && Enabled(s, v) && s.txs[u].stage.Commit? && s.txs[v].stage.Commit?
    requires Advance(s, u) == Advance(s, v)
    ensures u == v
  {
    assert Advance(s, u).txs[u].Finished?;
  }
}
