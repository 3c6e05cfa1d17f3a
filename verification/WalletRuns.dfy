// Concurrent wallet transactions. Each statement is one step; the wallet row stays locked from
// the first statement to the end, and an inserted ref blocks other inserts of the same ref.
module WalletRuns {
  import opened Prelude
  import opened Wallet

  datatype Stage = WantWallet | WantRef | Update | Commit

  datatype Tx = Active(op: Op, stage: Stage, balance: int, inserted: bool) | Finished(answer: Answer)

  datatype State = State(books: Books, txs: map<nat, Tx>)

  predicate HoldsWallet(tx: Tx, user: string) { tx.Active? && !tx.stage.WantWallet? && tx.op.user == user }

  predicate HoldsRef(tx: Tx, ref: string) { tx.Active? && tx.inserted && tx.op.ref == ref }

  /** A statement waits for the row or index entry another open transaction holds. */
  predicate Blocked(s: State, t: nat, u: nat) {
    && t in s.txs && u in s.txs && t != u && s.txs[t].Active?
    && ((s.txs[t].stage.WantWallet? && HoldsWallet(s.txs[u], s.txs[t].op.user))
        || (s.txs[t].stage.WantRef? && HoldsRef(s.txs[u], s.txs[t].op.ref)))
  }

  ghost predicate Enabled(s: State, t: nat) {
    t in s.txs && s.txs[t].Active? && forall u | u in s.txs :: !Blocked(s, t, u)
  }

  function Published(b: Books, tx: Tx): Books
    requires tx.Active?
  {
    if tx.inserted then Record(b, tx.op, tx.balance) else Ensure(b, tx.op.user)
  }

  /** The tables and the transaction after its next statement. */
  function Step(b: Books, tx: Tx): (Books, Tx)
    requires tx.Active?
  {
    match tx.stage
    case WantWallet =>
      var balance := Balance(b, tx.op.user);
      (b, if tx.op.guarded && Add64(balance, tx.op.delta) < 0 then Finished(Refused)
          else tx.(stage := WantRef, balance := balance))
    case WantRef =>
      (b, if Recorded(b.ledger, tx.op.ref) then tx.(stage := Commit) else tx.(stage := Update, inserted := true))
    case Update => (b, tx.(stage := Commit))
    case Commit => (Published(b, tx), Finished(if tx.inserted then Applied else Replayed))
  }

  ghost function Advance(s: State, t: nat): State
    requires Enabled(s, t)
  {
    State(Step(s.books, s.txs[t]).0, s.txs[t := Step(s.books, s.txs[t]).1])
  }

  ghost predicate Moves(s: State, s': State, t: nat) { Enabled(s, t) && s' == Advance(s, t) }

  ghost predicate Next(s: State, s': State) {
    || (exists t: nat, op: Op ::
          t !in s.txs && Int64(op.delta) && s' == s.(txs := s.txs[t := Active(op, WantWallet, 0, false)]))
    || (exists t :: Moves(s, s', t))
  }

  ghost predicate Run(run: seq<State>) {
    && run != [] && run[0].txs == map[]
    && forall i | 0 <= i < |run| - 1 :: Next(run[i], run[i + 1])
  }

  // ---------------------------------------------------------------- invariant

  ghost predicate TxInv(b: Books, tx: Tx) {
    tx.Active? ==>
      && Int64(tx.op.delta)
      && (tx.inserted ==> tx.stage.Update? || tx.stage.Commit?)
      && (tx.stage.Update? ==> tx.inserted)
      && (!tx.stage.WantWallet? ==> Balance(b, tx.op.user) == tx.balance && !Refuses(b, tx.op))
      && (tx.inserted ==> !Recorded(b.ledger, tx.op.ref))
      && (tx.stage.Commit? && !tx.inserted ==> Recorded(b.ledger, tx.op.ref))
  }

  ghost predicate LocksExclusive(txs: map<nat, Tx>) {
    forall t, u | t in txs && u in txs && t != u && txs[t].Active? ::
      && (!txs[t].stage.WantWallet? ==> !HoldsWallet(txs[u], txs[t].op.user))
      && (txs[t].inserted ==> !HoldsRef(txs[u], txs[t].op.ref))
  }

  ghost predicate Inv(s: State) {
    LocksExclusive(s.txs) && forall t | t in s.txs :: TxInv(s.books, s.txs[t])
  }

  /** A commit, and a refusal, do what the whole call would do undisturbed at that moment. */
  lemma StepIsSerial(b: Books, tx: Tx)
    requires tx.Active? && TxInv(b, tx)
    ensures var (b', next) := Step(b, tx);
            && (next.Finished? ==> (b', next.answer) == Apply(b, tx.op))
            && (next.Active? ==> b' == b)
  {
  }

  lemma RecordSparesOthers(b: Books, tx: Tx, other: Tx)
    requires tx.Active? && tx.stage.Commit? && TxInv(b, tx) && TxInv(b, other)
    requires !HoldsWallet(other, tx.op.user) && (tx.inserted ==> !HoldsRef(other, tx.op.ref))
    ensures TxInv(Published(b, tx), other)
  {
    var b' := Published(b, tx);
    if other.Active? {
      assert tx.op.user != other.op.user ==> Balance(b', other.op.user) == Balance(b, other.op.user);
      if Recorded(b.ledger, other.op.ref) {
        var i :| 0 <= i < |b.ledger| && b.ledger[i].ref == other.op.ref;
        assert b'.ledger[i].ref == other.op.ref;
      }
    }
  }

  lemma AdvanceKeeps(s: State, t: nat)
    requires Inv(s) && Enabled(s, t)
    ensures Inv(Advance(s, t))
  {
    var tx, s' := s.txs[t], Advance(s, t);
    StepIsSerial(s.books, tx);
    if tx.stage.Commit? {
      forall u | u in s.txs && u != t
        ensures TxInv(s'.books, s.txs[u])
      {
        RecordSparesOthers(s.books, tx, s.txs[u]);
      }
    }
    forall u | u in s.txs && u != t
      ensures !Blocked(s, t, u)
    {
    }
  }

  lemma {:induction false} RunKeeps(run: seq<State>, i: nat)
    requires Run(run) && i < |run|
    ensures Inv(run[i])
  {
    if i > 0 {
      RunKeeps(run, i - 1);
      var s, s' := run[i - 1], run[i];
      if t :| Moves(s, s', t) {
        AdvanceKeeps(s, t);
      }
    }
  }

  // ---------------------------------------------------------------- results

  /** An unguarded move commits whose new balance no int64 wallet may have. */
  ghost predicate Overflows(s: State, s': State, t: nat) {
    && Moves(s, s', t) && s.txs[t].stage.Commit? && s.txs[t].inserted
    && !s.txs[t].op.guarded && !Fits(s.books, s.txs[t].op)
  }

  ghost predicate BreaksBooks(s: State, s': State) { exists t :: Overflows(s, s', t) }

  lemma MoveKeepsSound(s: State, t: nat)
    requires Inv(s) && Enabled(s, t) && Sound(s.books)
    ensures Sound(Advance(s, t).books) <==> !Overflows(s, Advance(s, t), t)
  {
    assert TxInv(s.books, s.txs[t]);
    StepIsSerial(s.books, s.txs[t]);
    ApplyKeepsSound(s.books, s.txs[t].op);
    if s.txs[t].stage.Commit? && !s.txs[t].inserted {
      EnsureKeepsSound(s.books, s.txs[t].op.user);
    }
  }

  lemma NextKeepsSound(s: State, s': State)
    requires Inv(s) && Next(s, s') && Sound(s.books)
    ensures Sound(s'.books) <==> !BreaksBooks(s, s')
  {
    if t :| Overflows(s, s', t) {
      MoveKeepsSound(s, t);
    } else if t :| Moves(s, s', t) {
      MoveKeepsSound(s, t);
    }
  }

  /**
   Money is conserved and refs are unique over a run: as long as no unguarded move overflowed, and
   from the first one that does no longer.
   */
  lemma {:induction false} BooksStaySound(run: seq<State>, i: nat)
    requires Run(run) && i < |run| && Sound(run[0].books)
    requires forall k | 0 <= k < i :: !BreaksBooks(run[k], run[k + 1])
    ensures forall user :: Balance(run[i].books, user) == SumOf(run[i].books.ledger, user)
              && Balance(run[i].books, user) >= 0
    ensures forall k, l | 0 <= k < l < |run[i].books.ledger| :: run[i].books.ledger[k].ref != run[i].books.ledger[l].ref
    ensures forall k | 0 <= k < |run[i].books.ledger| ::
              run[i].books.ledger[k].after == SumOf(run[i].books.ledger[..k + 1], run[i].books.ledger[k].user)
    ensures Sound(run[i].books) && (i < |run| - 1 ==> (Sound(run[i + 1].books) <==> !BreaksBooks(run[i], run[i + 1])))
  {
    if i > 0 {
      BooksStaySound(run, i - 1);
      assert !BreaksBooks(run[i - 1], run[i - 1 + 1]);
    }
    RunKeeps(run, i);
    if i < |run| - 1 {
      assert Next(run[i], run[i + 1]);
      NextKeepsSound(run[i], run[i + 1]);
    }
  }

  /** Transaction t ended between two states. */
  ghost predicate Ends(s: State, s': State, t: nat) {
    t in s.txs && t in s'.txs && s.txs[t].Active? && s'.txs[t].Finished?
  }

  ghost function Ended(s: State, s': State): seq<(Op, Answer)> {
    if exists t :: Ends(s, s', t) then
      var t :| Ends(s, s', t);
      [(s.txs[t].op, s'.txs[t].answer)]
    else []
  }

  /** The calls of a run with their answers, in the order they ended. */
  ghost function History(run: seq<State>): seq<(Op, Answer)> {
    if |run| < 2 then [] else History(run[..|run| - 1]) + Ended(run[|run| - 2], run[|run| - 1])
  }

  /** Making these calls one after another: the books at the end, if each gives its answer. */
  function Replay(first: Books, calls: seq<(Op, Answer)>): Option<Books> {
    if calls == [] then Some(first)
    else
      match Replay(first, calls[..|calls| - 1])
      case None => None
      case Some(b) =>
        var (b', answer) := Apply(b, calls[|calls| - 1].0);
        if answer == calls[|calls| - 1].1 then Some(b') else None
  }

  lemma ReplayOneMore(first: Books, calls: seq<(Op, Answer)>, b: Books, op: Op)
    requires Replay(first, calls) == Some(b)
    ensures Replay(first, calls + [(op, Apply(b, op).1)]) == Some(Apply(b, op).0)
  {
    assert (calls + [(op, Apply(b, op).1)])[..|calls|] == calls;
  }

  lemma AdvanceEnds(s: State, t: nat)
    requires Inv(s) && Enabled(s, t)
    ensures var s', op := Advance(s, t), s.txs[t].op;
            if s'.txs[t].Finished? then Ended(s, s') == [(op, Apply(s.books, op).1)] && s'.books == Apply(s.books, op).0
            else Ended(s, s') == [] && s'.books == s.books
  {
    var s' := Advance(s, t);
    assert TxInv(s.books, s.txs[t]);
    StepIsSerial(s.books, s.txs[t]);
    forall u | Ends(s, s', u)
      ensures u == t
    {
    }
    if s'.txs[t].Finished? {
      assert Ends(s, s', t);
    }
  }

  lemma StepExtendsReplay(first: Books, calls: seq<(Op, Answer)>, s: State, s': State)
    requires Inv(s) && Next(s, s') && Replay(first, calls) == Some(s.books)
    ensures Replay(first, calls + Ended(s, s')) == Some(s'.books)
  {
    if t :| Moves(s, s', t) {
      AdvanceEnds(s, t);
      ReplayOneMore(first, calls, s.books, s.txs[t].op);
    } else {
      assert forall u :: !Ends(s, s', u);
    }
    assert calls + [] == calls;
  }

  /** Every concurrent run gives the answers and the books of a serial one. */
  lemma {:induction false} RunIsSerial(run: seq<State>)
    requires Run(run)
    ensures Replay(run[0].books, History(run)) == Some(run[|run| - 1].books)
  {
    if |run| > 1 {
      var n := |run| - 1;
      assert run[..n][n - 1] == run[n - 1];
      RunIsSerial(run[..n]);
      RunKeeps(run, n - 1);
      assert Next(run[n - 1], run[n]);
      StepExtendsReplay(run[0].books, History(run[..n]), run[n - 1], run[n]);
    }
  }

  /** Some open transaction can always move: whoever blocks a ref insert is past all waiting. */
  lemma NeverStuck(run: seq<State>, i: nat, t: nat)
    requires Run(run) && i < |run| && t in run[i].txs && run[i].txs[t].Active?
    ensures exists u :: Enabled(run[i], u)
  {
    RunKeeps(run, i);
    var s := run[i];
    if !Enabled(s, t) {
      var u :| u in s.txs && Blocked(s, t, u);
      if !Enabled(s, u) {
        var v :| v in s.txs && Blocked(s, u, v);
        assert Enabled(s, v);
      }
    }
  }

  // ---------------------------------------------------------------- every run goes on

  /** Statements a transaction still has before it, at most. */
  function Left(tx: Tx): nat {
    match tx
    case Finished(_) => 0
    case Active(_, stage, _, _) =>
      if stage.WantWallet? then 4 else if stage.WantRef? then 3 else if stage.Update? then 2 else 1
  }

  ghost function AllLeft(s: State): set<(nat, int)> {
    set t, k | t in s.txs && 0 <= k < Left(s.txs[t]) :: (t, k)
  }

  lemma AdvanceLeavesLess(s: State, t: nat)
    requires Enabled(s, t)
    ensures |AllLeft(Advance(s, t))| < |AllLeft(s)|
  {
    var s' := Advance(s, t);
    assert Left(s'.txs[t]) < Left(s.txs[t]);
    assert (t, Left(s.txs[t]) - 1) in AllLeft(s) - AllLeft(s');
    SubsetCardinality(AllLeft(s'), AllLeft(s) - {(t, Left(s.txs[t]) - 1)});
  }

  ghost predicate Quiet(s: State) { forall t | t in s.txs :: s.txs[t].Finished? }

  ghost predicate Alone(s: State, t: nat) {
    t in s.txs && s.txs[t].Active? && forall u | u in s.txs && u != t :: s.txs[u].Finished?
  }

  /** A run that goes on from this one to that state. */
  ghost predicate LeadsTo(run: seq<State>, longer: seq<State>, s: State) {
    Run(run) && Run(longer) && run <= longer && longer[|longer| - 1] == s
  }

  lemma MoveExtends(run: seq<State>, t: nat)
    requires Run(run) && Enabled(run[|run| - 1], t)
    ensures Run(run + [Advance(run[|run| - 1], t)])
  {
    var longer := run + [Advance(run[|run| - 1], t)];
    assert Moves(run[|run| - 1], longer[|run|], t);
    forall i | 0 <= i < |longer| - 1
      ensures Next(longer[i], longer[i + 1])
    {
      if i < |run| - 1 {
        assert Next(run[i], run[i + 1]);
      }
    }
  }

  /** From every reachable state the open transactions can all be brought to their end. */
  lemma {:induction false} RunsCanFinish(run: seq<State>) returns (longer: seq<State>)
    requires Run(run)
    ensures longer != [] && LeadsTo(run, longer, longer[|longer| - 1]) && Quiet(longer[|longer| - 1])
    ensures run[|run| - 1].txs.Keys == longer[|longer| - 1].txs.Keys
    decreases |AllLeft(run[|run| - 1])|
  {
    longer := run;
    var s := run[|run| - 1];
    if t :| t in s.txs && s.txs[t].Active? {
      NeverStuck(run, |run| - 1, t);
      var u :| Enabled(s, u);
      AdvanceLeavesLess(s, u);
      MoveExtends(run, u);
      longer := RunsCanFinish(run + [Advance(s, u)]);
      assert run <= run + [Advance(s, u)];
    }
  }

  /** A transaction alone goes through and ends as the undisturbed call does. */
  lemma {:induction false} AloneFinishes(run: seq<State>, t: nat) returns (longer: seq<State>)
    requires Run(run) && Alone(run[|run| - 1], t)
    ensures var s := run[|run| - 1];
            var (books, answer) := Apply(s.books, s.txs[t].op);
            LeadsTo(run, longer, State(books, s.txs[t := Finished(answer)]))
    decreases Left(run[|run| - 1].txs[t])
  {
    var s := run[|run| - 1];
    RunKeeps(run, |run| - 1);
    assert TxInv(s.books, s.txs[t]);
    StepIsSerial(s.books, s.txs[t]);
    MoveExtends(run, t);
    longer := run + [Advance(s, t)];
    if Advance(s, t).txs[t].Active? {
      longer := AloneFinishes(longer, t);
    }
  }

  /** So any call can be made next, and every serial run is a run: the converse of RunIsSerial. */
  lemma CallCompletes(run: seq<State>, t: nat, op: Op) returns (longer: seq<State>)
    requires Run(run) && t !in run[|run| - 1].txs && Int64(op.delta)
    requires Quiet(run[|run| - 1])
    ensures var s := run[|run| - 1];
            var (books, answer) := Apply(s.books, op);
            LeadsTo(run, longer, State(books, s.txs[t := Finished(answer)]))
  {
    var s := run[|run| - 1];
    longer := run + [s.(txs := s.txs[t := Active(op, WantWallet, 0, false)])];
    forall i | 0 <= i < |longer| - 1
      ensures Next(longer[i], longer[i + 1])
    {
      if i < |run| - 1 {
        assert Next(run[i], run[i + 1]);
      }
    }
    longer := AloneFinishes(longer, t);
  }
}
