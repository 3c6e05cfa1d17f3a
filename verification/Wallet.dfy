// The wallet ledger: balances, an append-only ledger with unique refs, and plan purchases.
module Wallet {
  import opened Prelude

  datatype Entry = Entry(user: string, delta: int, reason: string, ref: string, after: int)

  datatype Plan = Plan(id: string, subscription: string, license: string, recurrence: string, expires: int)

  /** The committed tables: wallets, wallet_ledger, and the plan columns of users. */
  datatype Books = Books(balances: map<string, int>, ledger: seq<Entry>, plans: map<string, Plan>)

  /** A call of move (Credit unguarded, Debit guarded), or of WalletBuyPlan when a plan comes with it. */
  datatype Op = Op(user: string, delta: int, reason: string, ref: string, guarded: bool, plan: Option<Plan>)

  datatype Answer = Refused | Replayed | Applied

  function Balance(b: Books, user: string): int {
    if user in b.balances then b.balances[user] else 0
  }

  predicate Recorded(ledger: seq<Entry>, ref: string) {
    exists i :: 0 <= i < |ledger| && ledger[i].ref == ref
  }

  function SumOf(ledger: seq<Entry>, user: string): int {
    if ledger == [] then 0
    else
      var last := ledger[|ledger| - 1];
      SumOf(ledger[..|ledger| - 1], user) + (if last.user == user then last.delta else 0)
  }

  // ---------------------------------------------------------------- one call, undisturbed

  predicate Refuses(b: Books, op: Op) { op.guarded && Add64(Balance(b, op.user), op.delta) < 0 }

  /** The upsert that takes the wallet's row lock also creates the row. */
  function Ensure(b: Books, user: string): Books {
    b.(balances := b.balances[user := Balance(b, user)])
  }

  function Record(b: Books, op: Op, balance: int): Books {
    var after := Add64(balance, op.delta);
    Books(b.balances[op.user := after],
          b.ledger + [Entry(op.user, op.delta, op.reason, op.ref, after)],
          if op.plan.Some? && op.user in b.plans then b.plans[op.user := op.plan.value] else b.plans)
  }

  function Apply(b: Books, op: Op): (Books, Answer) {
    if Refuses(b, op) then (b, Refused)
    else if Recorded(b.ledger, op.ref) then (Ensure(b, op.user), Replayed)
    else (Record(b, op, Balance(b, op.user)), Applied)
  }

  /** Balances are the sums of their deltas and never negative, running balances agree, refs are unique. */
  ghost predicate Sound(b: Books) {
    && (forall user :: Balance(b, user) == SumOf(b.ledger, user) && 0 <= Balance(b, user) <= MAX_INT64)
    && (forall i | 0 <= i < |b.ledger| :: b.ledger[i].after == SumOf(b.ledger[..i + 1], b.ledger[i].user))
    && (forall i, j | 0 <= i < j < |b.ledger| :: b.ledger[i].ref != b.ledger[j].ref)
  }

  /** The balance after the call is one an int64 wallet may have. */
  predicate Fits(b: Books, op: Op) { 0 <= Balance(b, op.user) + op.delta <= MAX_INT64 }

  lemma SumAfterAppend(ledger: seq<Entry>, e: Entry, user: string)
    ensures SumOf(ledger + [e], user) == SumOf(ledger, user) + (if e.user == user then e.delta else 0)
  {
    assert (ledger + [e])[..|ledger|] == ledger;
  }

  lemma RecordKeepsSound(b: Books, op: Op)
    requires Sound(b) && Int64(op.delta) && !Recorded(b.ledger, op.ref)
    requires 0 <= Balance(b, op.user) + op.delta <= MAX_INT64
    ensures Sound(Record(b, op, Balance(b, op.user)))
  {
    var b' := Record(b, op, Balance(b, op.user));
    var n := |b.ledger|;
    forall user
      ensures Balance(b', user) == SumOf(b'.ledger, user) && 0 <= Balance(b', user) <= MAX_INT64
    {
      SumAfterAppend(b.ledger, b'.ledger[n], user);
      assert Balance(b, user) == SumOf(b.ledger, user);
    }
    forall i | 0 <= i <= n
      ensures b'.ledger[i].after == SumOf(b'.ledger[..i + 1], b'.ledger[i].user)
    {
      if i < n {
        assert b'.ledger[..i + 1] == b.ledger[..i + 1];
      } else {
        assert b'.ledger[..i + 1] == b'.ledger;
      }
    }
  }

  lemma EnsureKeepsSound(b: Books, user: string)
    requires Sound(b)
    ensures Sound(Ensure(b, user))
  {
    assert forall u :: Balance(Ensure(b, user), u) == Balance(b, u);
  }

  /**
   A guarded move always keeps the books; any other keeps them exactly when it is a replay or
   the new balance fits.
   */
  lemma ApplyKeepsSound(b: Books, op: Op)
    requires Sound(b) && Int64(op.delta)
    ensures Sound(Apply(b, op).0) <==> op.guarded || Recorded(b.ledger, op.ref) || Fits(b, op)
  {
    EnsureKeepsSound(b, op.user);
    assert 0 <= Balance(b, op.user) <= MAX_INT64;
    if !Refuses(b, op) && !Recorded(b.ledger, op.ref) {
      if op.guarded || Fits(b, op) {
        RecordKeepsSound(b, op);
      } else {
        var b' := Apply(b, op).0;
        SumAfterAppend(b.ledger, b'.ledger[|b.ledger|], op.user);
        assert Balance(b', op.user) < 0 || Balance(b', op.user) != SumOf(b'.ledger, op.user);
      }
    }
  }

  /** A credit that overflows leaves a negative balance behind. */
  lemma CreditCanOverflow() returns (b: Books, op: Op)
    ensures Sound(b) && 0 <= op.delta <= MAX_INT64 && !op.guarded && Balance(Apply(b, op).0, op.user) < 0
  {
    var start := Books(map[], [], map[]);
    var first := Op("u", MAX_INT64, "", "a", false, None);
    ApplyKeepsSound(start, first);
    b := Apply(start, first).0;
    op := Op("u", 1, "", "b", false, None);
    assert !Recorded(b.ledger, "b");
  }

  /** A recorded ref moves no money and changes no plan; the answer still depends on today's balance. */
  lemma ReplayChangesNothing(b: Books, op: Op)
    requires Recorded(b.ledger, op.ref)
    ensures var (b', answer) := Apply(b, op);
            && b'.ledger == b.ledger && b'.plans == b.plans && (forall user :: Balance(b', user) == Balance(b, user))
            && (answer == Refused <==> Refuses(b, op)) && answer != Applied
  {
    assert forall user :: Balance(Ensure(b, op.user), user) == Balance(b, user);
  }

  /** So a debit that went through can answer "refused" when it is replayed. */
  lemma DebitReplayCanBeRefused() returns (b: Books, op: Op)
    ensures Sound(b) && Int64(op.delta) && op.guarded && Recorded(b.ledger, op.ref) && Apply(b, op).1 == Refused
  {
    var start := Books(map[], [], map[]);
    var credit := Op("u", 1, "", "a", false, None);
    ApplyKeepsSound(start, credit);
    var one := Apply(start, credit).0;
    op := Op("u", -1, "", "d", true, None);
    ApplyKeepsSound(one, op);
    assert !Recorded(one.ledger, "d");
    b := Apply(one, op).0;
    assert b.ledger[1].ref == "d";
  }

  /** A purchase sets the plan exactly when it adds its ledger row. */
  lemma PurchaseIsAtomic(b: Books, op: Op)
    requires op.plan.Some? && op.user in b.plans
    ensures var (b', answer) := Apply(b, op);
            && (answer == Applied <==> |b'.ledger| == |b.ledger| + 1 && b'.ledger[|b.ledger|].ref == op.ref)
            && (answer == Applied ==> b'.plans == b.plans[op.user := op.plan.value])
            && (answer != Applied ==> b'.plans == b.plans && b'.ledger == b.ledger)
  {
  }

  /** It takes the price once, if it is there, with one ledger row. */
  lemma PurchaseTakesOnce(b: Books, user: string, cents: int, reason: string, ref: string, plan: Plan)
    requires 0 <= cents <= MAX_INT64 && Sound(b)
    ensures var (b', answer) := Apply(b, Op(user, -cents, reason, ref, true, Some(plan)));
            && Sound(b') && (answer == Applied <==> cents <= Balance(b, user) && !Recorded(b.ledger, ref))
            && (answer == Applied ==>
                  && b'.ledger == b.ledger + [Entry(user, -cents, reason, ref, Balance(b, user) - cents)]
                  && Balance(b', user) == Balance(b, user) - cents
                  && b'.plans == if user in b.plans then b.plans[user := plan] else b.plans)
            && (answer != Applied ==> b'.ledger == b.ledger && b'.plans == b.plans)
  {
    ApplyKeepsSound(b, Op(user, -cents, reason, ref, true, Some(plan)));
    assert 0 <= Balance(b, user) <= MAX_INT64;
  }

  /** A debit takes the money once, if it is there; refused or replayed, it changes no balance. */
  lemma DebitTakesOnce(b: Books, user: string, cents: int, reason: string, ref: string)
    requires 0 <= cents <= MAX_INT64 && Sound(b)
    ensures var (b', answer) := Apply(b, Op(user, -cents, reason, ref, true, None));
            && Sound(b') && b'.plans == b.plans && (answer != Refused <==> cents <= Balance(b, user))
            && (answer == Applied ==>
                  && Balance(b', user) == Balance(b, user) - cents
                  && b'.ledger == b.ledger + [Entry(user, -cents, reason, ref, Balance(b', user))])
            && (answer != Applied ==> b'.ledger == b.ledger && Balance(b', user) == Balance(b, user))
            && (forall u | u != user :: Balance(b', u) == Balance(b, u))
            && (answer == Replayed <==> answer != Refused && Recorded(b.ledger, ref))
  {
    ApplyKeepsSound(b, Op(user, -cents, reason, ref, true, None));
    assert 0 <= Balance(b, user) <= MAX_INT64;
  }

  // ---------------------------------------------------------------- the store's methods

  class Store {
    var balances: map<string, int>
    var ledger: seq<Entry>
    var plans: map<string, Plan>

    function Now(): Books
      reads this
    {
      Books(balances, ledger, plans)
    }

    constructor (plans: map<string, Plan>)
      ensures Now() == Books(map[], [], plans) && Sound(Now())
    {
      balances, ledger := map[], [];
      this.plans := plans;
    }

    method Move(user: string, delta: int, reason: string, ref: string, guarded: bool) returns (ok: bool)
      modifies this
      ensures (Now(), ok) ==
              var (b, a) := Apply(old(Now()), Op(user, delta, reason, ref, guarded, None)); (b, a != Refused)
    {
      var balance := if user in balances then balances[user] else 0;
      if guarded && Add64(balance, delta) < 0 {
        return false;
      }
      var after := Add64(balance, delta);
      balances := balances[user := balance];
      if exists i :: 0 <= i < |ledger| && ledger[i].ref == ref {
        return true;
      }
      ledger := ledger + [Entry(user, delta, reason, ref, after)];
      balances := balances[user := after];
      assert balances == old(balances)[user := after];
      return true;
    }

    method Credit(user: string, cents: int, reason: string, ref: string)
      requires 0 <= cents <= MAX_INT64 && Sound(Now())
      modifies this
      ensures Recorded(old(ledger), ref) ==> ledger == old(ledger)
      ensures Recorded(ledger, ref) && plans == old(plans)
      ensures !Recorded(old(ledger), ref) && Balance(old(Now()), user) + cents <= MAX_INT64 ==>
                && Balance(Now(), user) == Balance(old(Now()), user) + cents
                && ledger == old(ledger) + [Entry(user, cents, reason, ref, Balance(Now(), user))]
      ensures forall u | u != user || Recorded(old(ledger), ref) :: Balance(Now(), u) == Balance(old(Now()), u)
      ensures Sound(Now()) <==> Recorded(old(ledger), ref) || Balance(old(Now()), user) + cents <= MAX_INT64
    {
      ghost var before := Now();
      ApplyKeepsSound(before, Op(user, cents, reason, ref, false, None));
      if Recorded(ledger, ref) {
        EnsureKeepsSound(before, user);
      }
      var ok := Move(user, cents, reason, ref, false);
      assert !Recorded(before.ledger, ref) ==> ledger[|before.ledger|].ref == ref;
    }

    method Debit(user: string, cents: int, reason: string, ref: string) returns (ok: bool)
      requires 0 <= cents <= MAX_INT64 && Sound(Now())
      modifies this
      ensures Sound(Now()) && plans == old(plans)
      ensures ok <==> cents <= Balance(old(Now()), user)
      ensures ok && !Recorded(old(ledger), ref) ==>
                && Balance(Now(), user) == Balance(old(Now()), user) - cents
                && ledger == old(ledger) + [Entry(user, -cents, reason, ref, Balance(Now(), user))]
      ensures !ok || Recorded(old(ledger), ref) ==>
                ledger == old(ledger) && Balance(Now(), user) == Balance(old(Now()), user)
      ensures forall u | u != user :: Balance(Now(), u) == Balance(old(Now()), u)
    {
      ghost var before, op := Now(), Op(user, -cents, reason, ref, true, None);
      DebitTakesOnce(before, user, cents, reason, ref);
      ok := Move(user, -cents, reason, ref, true);
      assert Now() == Apply(before, op).0 && (ok <==> Apply(before, op).1 != Refused);
    }

    method BuyPlan(user: string, cents: int, reason: string, ref: string, plan: Plan) returns (ok: bool, applied: bool)
      modifies this
      ensures (Now(), ok, applied) ==
              var (b, a) := Apply(old(Now()), Op(user, -cents, reason, ref, true, Some(plan)));
              (b, a != Refused, a == Applied)
    {
      var balance := if user in balances then balances[user] else 0;
      if Add64(balance, -cents) < 0 {
        return false, false;
      }
      var after := Add64(balance, -cents);
      balances := balances[user := balance];
      if exists i :: 0 <= i < |ledger| && ledger[i].ref == ref {
        return true, false;
      }
      ledger := ledger + [Entry(user, -cents, reason, ref, after)];
      balances := balances[user := after];
      assert balances == old(balances)[user := after];
      if user in plans {
        plans := plans[user := plan];
      }
      return true, true;
    }
  }
}
