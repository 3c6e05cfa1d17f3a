// The queue scheduler: one pass over the ranked queue, as the only writer.
module Scheduler {
  import opened Prelude
  import opened Jobs

  /** Why PromoteQueued left a job alone; the program only tells Promoted from the rest. */
  datatype Verdict = Promotable | NotQueued | AtCapacity | Overtaken | ContentBusy | OverBudget

  datatype User = User(eligible: bool, maxConcurrent: int, priority: int)

  ghost function VerdictOn(rows: Rows, id: string, maxConcurrent: int, budget: int): Verdict {
    if id !in rows || rows[id].status != Queued then NotQueued
    else if |InflightIds(rows, rows[id].user)| >= Slots(maxConcurrent) then AtCapacity
    else if OlderUnblocked(rows, id) != {} then Overtaken
    else if ExactTwins(rows, rows[id].hash, id) != {} then ContentBusy
    else if rows[id].gated && budget - Used(rows) < PROMOTE_BUDGET_HEADROOM then OverBudget
    else Promotable
  }

  /** Queued, with room for its user, first in its user's queue, its content free and the budget in order. */
  ghost predicate MayPromote(rows: Rows, id: string, maxConcurrent: int, budget: int) {
    && id in rows && rows[id].status == Queued
    && var job := rows[id];
       && |set r | r in rows && rows[r].user == job.user && !rows[r].seed
                   && rows[r].status in {Pending, Downloading, Processing, Publishing}|
            < (if maxConcurrent < 1 then 1 else maxConcurrent)
       && (forall q | q in rows && GoesBefore(rows, q, id) :: !Unfetched(rows, q))
       && Unfetched(rows, id)
       && (job.gated ==> budget - Used(rows) >= 5_000_000_000)
  }

  /** The verdict written out. */
  lemma VerdictInFields(rows: Rows, id: string, maxConcurrent: int, budget: int)
    ensures VerdictOn(rows, id, maxConcurrent, budget) == Promotable <==> MayPromote(rows, id, maxConcurrent, budget)
  {
    if id in rows {
      NoneGoesBefore(rows, id);
      UnfetchedMeansNoTwins(rows, id);
      assert InflightIds(rows, rows[id].user) ==
             set r | r in rows && rows[r].user == rows[id].user && !rows[r].seed
                     && rows[r].status in {Pending, Downloading, Processing, Publishing};
    }
  }

  function Promote(job: Job): Job { job.(status := Pending, node := "") }

  // ---------------------------------------------------------------- the queue order

  lemma {:induction false} FirstExists(rows: Rows, ids: set<string>) returns (first: string)
    requires ids != {} && ids <= rows.Keys
    ensures first in ids && forall x | x in ids && x != first :: Before(rows, first, x)
    decreases |ids|
  {
    var y :| y in ids;
    if ids == {y} {
      first := y;
    } else {
      var z := FirstExists(rows, ids - {y});
      BeforeIsTotalOrder(rows, y, z);
      if Before(rows, y, z) {
        first := y;
        forall x | x in ids && x != y
          ensures Before(rows, y, x)
        {
          if x != z {
            BeforeTransitive(rows, y, z, x);
          }
        }
      } else {
        first := z;
      }
    }
  }

  ghost predicate Ranked(rows: Rows, list: seq<string>) {
    && (forall k | 0 <= k < |list| :: list[k] in rows)
    && forall i, j | 0 <= i < j < |list| :: Before(rows, list[i], list[j])
  }

  lemma RankedInFields(rows: Rows, list: seq<string>)
    requires Ranked(rows, list)
    ensures forall i, j | 0 <= i < j < |list| ::
              var x, y := rows[list[i]], rows[list[j]];
              || x.priority > y.priority
              || (x.priority == y.priority && x.created < y.created)
              || (x.priority == y.priority && x.created == y.created && exists k: nat :: LessFrom(list[i], list[j], k))
  {
    forall i, j | 0 <= i < j < |list|
      ensures var x, y := rows[list[i]], rows[list[j]];
              || x.priority > y.priority
              || (x.priority == y.priority && x.created < y.created)
              || (x.priority == y.priority && x.created == y.created && exists k: nat :: LessFrom(list[i], list[j], k))
    {
      BeforeInFields(rows, list[i], list[j]);
    }
  }

  lemma RankedMore(rows: Rows, list: seq<string>, left: set<string>, first: string)
    requires Ranked(rows, list) && left <= rows.Keys && first in left
    requires forall k, x | 0 <= k < |list| && x in left :: Before(rows, list[k], x)
    ensures Ranked(rows, list + [first])
    ensures forall id :: id in list + [first] || id in left - {first} <==> id in list || id in left
  {
    forall id
      ensures id in list + [first] <==> id in list || id == first
    {
    }
  }

  /** Exactly the queued rows, in queue order. */
  ghost predicate QueueListing(rows: Rows, list: seq<string>) {
    Ranked(rows, list) && forall id :: id in list <==> id in rows && rows[id].status == Queued
  }

  // ---------------------------------------------------------------- what a pass changes

  /** Queued rows stay as listed or leave the queue; nothing leaves a slot; nothing else changes. */
  ghost predicate OnlyDrains(listed: Rows, rows: Rows) {
    && rows.Keys == listed.Keys
    && (forall id | id in rows && rows[id].status == Queued :: rows[id] == listed[id])
    && (forall id | id in rows && listed[id].status != Queued :: rows[id] == listed[id])
    && (forall id | id in rows :: IdentOf(rows[id]) == IdentOf(listed[id]))
  }

  /** The job has left the queue, or its owner is at capacity, or its content is being fetched. */
  ghost predicate Settled(rows: Rows, id: string, maxConcurrent: int) {
    id in rows &&
    (rows[id].status != Queued
     || |InflightIds(rows, rows[id].user)| >= Slots(maxConcurrent)
     || ExactTwins(rows, rows[id].hash, id) != {})
  }

  /** The user is at capacity, or every job left in its queue waits for content already being fetched. */
  ghost predicate Saturated(rows: Rows, user: string, maxConcurrent: int) {
    || |InflightIds(rows, user)| >= Slots(maxConcurrent)
    || forall q | q in QueuedIds(rows, user) :: ExactTwins(rows, rows[q].hash, q) != {}
  }

  /** Less than the promotion headroom is left, and one of these jobs of the user waits for it. */
  ghost predicate BudgetStalled(rows: Rows, ids: set<string>, user: string, budget: int) {
    && budget - Used(rows) < PROMOTE_BUDGET_HEADROOM
    && exists q :: q in ids && q in rows && rows[q].user == user && rows[q].status == Queued && rows[q].gated
  }

  ghost predicate Eligible(listed: Rows, users: map<string, User>, id: string) {
    id in listed && listed[id].user in users && users[listed[id].user].eligible
  }

  function Tried(list: seq<string>, i: nat): set<string>
    requires i <= |list|
  {
    set k | 0 <= k < i :: list[k]
  }

  /** Where a pass stands after its first i candidates. */
  ghost predicate PassInv(listed: Rows, rows: Rows, list: seq<string>, i: nat, users: map<string, User>, budget: int) {
    && QueueListing(listed, list) && OnlyDrains(listed, rows) && i <= |list|
    && forall k | 0 <= k < i && Eligible(listed, users, list[k]) ::
         || Settled(rows, list[k], users[listed[list[k]].user].maxConcurrent)
         || BudgetStalled(rows, Tried(list, i), listed[list[k]].user, budget)
  }

  lemma SettledStays(rows: Rows, id: string, changed: string, job: Job, maxConcurrent: int)
    requires Settled(rows, id, maxConcurrent) && changed in rows && rows[changed].status == Queued
    requires IdentOf(job) == IdentOf(rows[changed]) && job.status != Queued
    ensures Settled(rows[changed := job], id, maxConcurrent)
  {
    var after := rows[changed := job];
    assert InflightIds(rows, rows[id].user) <= InflightIds(after, rows[id].user);
    SubsetCardinality(InflightIds(rows, rows[id].user), InflightIds(after, rows[id].user));
    assert ExactTwins(rows, rows[id].hash, id) <= ExactTwins(after, rows[id].hash, id);
  }

  lemma StallStays(rows: Rows, ids: set<string>, user: string, budget: int, changed: string, job: Job,
                   more: set<string>)
    requires BudgetStalled(rows, ids, user, budget) && changed in rows && rows[changed].status == Queued
    requires changed !in ids && ids <= more
    ensures BudgetStalled(rows[changed := job], more, user, budget)
  {
    UsedAfterWrite(rows, changed, job);
    var q :| q in ids && q in rows && rows[q].user == user && rows[q].status == Queued && rows[q].gated;
    assert rows[changed := job][q] == rows[q];
  }

  lemma NotTriedYet(listed: Rows, list: seq<string>, i: nat)
    requires Ranked(listed, list) && i < |list|
    ensures list[i] !in Tried(list, i)
  {
    forall k | 0 <= k < i
      ensures list[k] != list[i]
    {
      BeforeIsTotalOrder(listed, list[k], list[i]);
    }
  }

  lemma CandidateLeavesQueue(listed: Rows, rows: Rows, list: seq<string>, i: nat, users: map<string, User>,
                             budget: int, job: Job)
    requires PassInv(listed, rows, list, i, users, budget) && i < |list| && rows[list[i]].status == Queued
    requires IdentOf(job) == IdentOf(rows[list[i]]) && job.status != Queued
    ensures PassInv(listed, rows[list[i] := job], list, i + 1, users, budget)
  {
    NotTriedYet(listed, list, i);
    var after := rows[list[i] := job];
    forall k | 0 <= k < i && Eligible(listed, users, list[k])
      ensures || Settled(after, list[k], users[listed[list[k]].user].maxConcurrent)
              || BudgetStalled(after, Tried(list, i + 1), listed[list[k]].user, budget)
    {
      if Settled(rows, list[k], users[listed[list[k]].user].maxConcurrent) {
        SettledStays(rows, list[k], list[i], job, users[listed[list[k]].user].maxConcurrent);
      } else {
        StallStays(rows, Tried(list, i), listed[list[k]].user, budget, list[i], job, Tried(list, i + 1));
      }
    }
  }

  /** A refused candidate is settled, if every earlier candidate of its owner is. */
  lemma RefusalSettles(listed: Rows, rows: Rows, list: seq<string>, i: nat, maxConcurrent: int, budget: int)
    requires QueueListing(listed, list) && OnlyDrains(listed, rows) && i < |list|
    requires forall k | 0 <= k < i && rows[list[k]].user == rows[list[i]].user ::
               Settled(rows, list[k], maxConcurrent) || BudgetStalled(rows, Tried(list, i), rows[list[i]].user, budget)
    requires VerdictOn(rows, list[i], maxConcurrent, budget) != Promotable
    ensures Settled(rows, list[i], maxConcurrent) || BudgetStalled(rows, Tried(list, i + 1), rows[list[i]].user, budget)
  {
    var id := list[i];
    assert Tried(list, i) <= Tried(list, i + 1) && id in Tried(list, i + 1);
    if VerdictOn(rows, id, maxConcurrent, budget) == Overtaken {
      var q :| q in OlderUnblocked(rows, id);
      assert q in listed && listed[q].status == Queued && q in list;
      var k :| 0 <= k < |list| && list[k] == q;
      assert Before(listed, q, id);
      if i < k {
        BeforeIsTotalOrder(listed, q, id);
      }
      assert k < i;
    }
  }

  lemma CandidateStays(listed: Rows, rows: Rows, list: seq<string>, i: nat, users: map<string, User>, budget: int)
    requires PassInv(listed, rows, list, i, users, budget) && i < |list| && Eligible(listed, users, list[i])
    requires VerdictOn(rows, list[i], users[listed[list[i]].user].maxConcurrent, budget) != Promotable
    ensures PassInv(listed, rows, list, i + 1, users, budget)
  {
    var id := list[i];
    assert Tried(list, i) <= Tried(list, i + 1);
    assert forall k | 0 <= k < |list| :: IdentOf(rows[list[k]]) == IdentOf(listed[list[k]]);
    RefusalSettles(listed, rows, list, i, users[listed[id].user].maxConcurrent, budget);
  }

  lemma CandidateSkipped(listed: Rows, rows: Rows, list: seq<string>, i: nat, users: map<string, User>, budget: int)
    requires PassInv(listed, rows, list, i, users, budget) && i < |list| && !Eligible(listed, users, list[i])
    ensures PassInv(listed, rows, list, i + 1, users, budget)
  {
    assert Tried(list, i) <= Tried(list, i + 1);
  }

  const UNENTITLED := "your current plan no longer supports this download source"

  /** What a pass may have done to a job that was queued when it was listed. */
  ghost predicate Dispatched(listed: Job, now: Job, eligible: bool, entitled: bool) {
    || now == listed
    || (eligible && entitled && now == Promote(listed))
    || (eligible && !entitled && now == listed.(status := Failed, error := UNENTITLED))
  }

  function Cap(users: map<string, User>, user: string): int {
    if user in users then Slots(users[user].maxConcurrent) else 0
  }

  ghost predicate AllDispatched(listed: Rows, rows: Rows, users: map<string, User>, entitled: set<string>) {
    rows.Keys == listed.Keys
    && forall id | id in rows :: Dispatched(listed[id], rows[id], Eligible(listed, users, id), id in entitled)
  }

  /** A pass fills no user beyond its cap. */
  ghost predicate CapsKept(listed: Rows, rows: Rows, users: map<string, User>) {
    forall user :: |InflightIds(rows, user)| <= |InflightIds(listed, user)|
           || |InflightIds(rows, user)| <= Cap(users, user)
  }

  /** Whoever was promoted has left nobody behind in its user's queue who goes before it and whose content is free. */
  ghost predicate NoneOvertaken(listed: Rows, rows: Rows) {
    rows.Keys == listed.Keys
    && forall id, q | id in rows && listed[id].status == Queued && rows[id].status == Pending
                      && q in rows && GoesBefore(rows, q, id) :: !Unfetched(rows, q)
  }

  lemma PromotionOvertakesNobody(listed: Rows, rows: Rows, id: string)
    requires NoneOvertaken(listed, rows) && id in rows && rows[id].status == Queued
    requires forall q | q in rows && GoesBefore(rows, q, id) :: !Unfetched(rows, q)
    ensures NoneOvertaken(listed, rows[id := Promote(rows[id])])
  {
    var after := rows[id := Promote(rows[id])];
    forall p, q | p in after && listed[p].status == Queued && after[p].status == Pending
                  && q in after && GoesBefore(after, q, p)
      ensures !Unfetched(after, q)
    {
      assert q != id && GoesBefore(rows, q, p);
      var a :| a in rows && a != q && rows[a].hash == rows[q].hash && !rows[a].seed
               && rows[a].status in {Pending, Downloading, Processing, Publishing};
      assert after[a] == rows[a];
    }
  }

  lemma FailureOvertakesNobody(listed: Rows, rows: Rows, id: string, job: Job)
    requires NoneOvertaken(listed, rows) && id in rows && rows[id].status == Queued && job.status == Failed
    ensures NoneOvertaken(listed, rows[id := job])
  {
    var after := rows[id := job];
    forall p, q | p in after && listed[p].status == Queued && after[p].status == Pending
                  && q in after && GoesBefore(after, q, p)
      ensures !Unfetched(after, q)
    {
      assert p != id && q != id && GoesBefore(rows, q, p);
      var a :| a in rows && a != q && rows[a].hash == rows[q].hash && !rows[a].seed
               && rows[a].status in {Pending, Downloading, Processing, Publishing};
      assert after[a] == rows[a];
    }
  }

  ghost predicate SoundSoFar(listed: Rows, rows: Rows, users: map<string, User>, entitled: set<string>) {
    && AllDispatched(listed, rows, users, entitled)
    && CapsKept(listed, rows, users)
    && (OneFetchPerHash(listed) ==> OneFetchPerHash(rows))
    && NoneOvertaken(listed, rows)
  }

  /**
   The candidates ahead are queued, and those tried whose source the plan of an eligible owner does
   not cover have failed.
   */
  ghost predicate Worklist(rows: Rows, list: seq<string>, i: nat, users: map<string, User>, entitled: set<string>) {
    && (forall k | 0 <= k < |list| :: list[k] in rows)
    && (forall k | i <= k < |list| :: rows[list[k]].status == Queued)
    && (forall k | 0 <= k < i && k < |list| && Eligible(rows, users, list[k]) && list[k] !in entitled ::
          rows[list[k]].status == Failed)
  }

  lemma WorklistShrinks(listed: Rows, before: Rows, after: Rows, list: seq<string>, i: nat, users: map<string, User>,
                        entitled: set<string>)
    requires Ranked(listed, list) && i < |list| && Worklist(before, list, i, users, entitled)
    requires after.Keys == before.Keys && after[list[i]].user == before[list[i]].user
    requires forall id | id in before && id != list[i] :: after[id] == before[id]
    requires Eligible(before, users, list[i]) && list[i] !in entitled ==> after[list[i]].status == Failed
    ensures Worklist(after, list, i + 1, users, entitled)
  {
    forall k | 0 <= k < |list| && k != i
      ensures list[k] != list[i]
    {
      BeforeIsTotalOrder(listed, list[k], list[i]);
    }
  }

  lemma PromotionFillsOneSlot(rows: Rows, id: string, user: string)
    requires id in rows
    ensures |InflightIds(rows[id := Promote(rows[id])], user)| <=
              |InflightIds(rows, user)| + (if user == rows[id].user then 1 else 0)
  {
    var after := rows[id := Promote(rows[id])];
    if user == rows[id].user {
      SubsetCardinality(InflightIds(after, user), InflightIds(rows, user) + {id});
    } else {
      SubsetCardinality(InflightIds(after, user), InflightIds(rows, user));
    }
  }

  lemma PromotionKeepsHashes(rows: Rows, id: string)
    requires OneFetchPerHash(rows) && id in rows && ExactTwins(rows, rows[id].hash, id) == {}
    ensures OneFetchPerHash(rows[id := Promote(rows[id])])
  {
    forall a | a in rows && a != id && UsesSlot(rows[a])
      ensures rows[a].hash != rows[id].hash
    {
      assert a !in ExactTwins(rows, rows[id].hash, id);
    }
  }

  lemma PromotionKeepsCaps(listed: Rows, rows: Rows, users: map<string, User>, id: string, budget: int)
    requires CapsKept(listed, rows, users) && id in rows && rows[id].user in users
    requires VerdictOn(rows, id, users[rows[id].user].maxConcurrent, budget) == Promotable
    ensures CapsKept(listed, rows[id := Promote(rows[id])], users)
  {
    var after := rows[id := Promote(rows[id])];
    forall user
      ensures |InflightIds(after, user)| <= |InflightIds(listed, user)|
                || |InflightIds(after, user)| <= Cap(users, user)
    {
      PromotionFillsOneSlot(rows, id, user);
    }
  }

  lemma PromotionIsSound(listed: Rows, rows: Rows, users: map<string, User>, entitled: set<string>, id: string,
                         budget: int)
    requires SoundSoFar(listed, rows, users, entitled) && Eligible(listed, users, id) && id in entitled
    requires VerdictOn(rows, id, users[listed[id].user].maxConcurrent, budget) == Promotable
    requires rows[id] == listed[id]
    ensures SoundSoFar(listed, rows[id := Promote(rows[id])], users, entitled)
  {
    PromotionKeepsCaps(listed, rows, users, id, budget);
    VerdictInFields(rows, id, users[listed[id].user].maxConcurrent, budget);
    PromotionOvertakesNobody(listed, rows, id);
    if OneFetchPerHash(listed) {
      PromotionKeepsHashes(rows, id);
    }
  }

  lemma FailureFreesNothing(rows: Rows, id: string, job: Job)
    requires id in rows && !UsesSlot(rows[id]) && !UsesSlot(job)
    ensures forall user :: InflightIds(rows[id := job], user) == InflightIds(rows, user)
    ensures OneFetchPerHash(rows) ==> OneFetchPerHash(rows[id := job])
  {
  }

  lemma FailureIsSound(listed: Rows, rows: Rows, users: map<string, User>, entitled: set<string>, id: string)
    requires SoundSoFar(listed, rows, users, entitled) && Eligible(listed, users, id) && id !in entitled
    requires rows[id] == listed[id] && rows[id].status == Queued
    ensures SoundSoFar(listed, rows[id := rows[id].(status := Failed, error := UNENTITLED)], users, entitled)
  {
    FailureFreesNothing(rows, id, rows[id].(status := Failed, error := UNENTITLED));
    FailureOvertakesNobody(listed, rows, id, rows[id].(status := Failed, error := UNENTITLED));
  }

  function Refreshed(job: Job, users: map<string, User>): Job {
    if job.user in users then job.(priority := users[job.user].priority) else job
  }

  lemma RefreshKeepsSlots(before: Rows, after: Rows)
    requires before.Keys == after.Keys
    requires forall id | id in after :: after[id] == before[id].(priority := after[id].priority)
    ensures forall user :: InflightIds(after, user) == InflightIds(before, user)
    ensures OneFetchPerHash(before) ==> OneFetchPerHash(after)
  {
  }

  lemma PassSaturates(listed: Rows, rows: Rows, list: seq<string>, users: map<string, User>, budget: int, user: string)
    requires PassInv(listed, rows, list, |list|, users, budget)
    requires user in users && users[user].eligible
    ensures Saturated(rows, user, users[user].maxConcurrent) || BudgetStalled(rows, rows.Keys, user, budget)
  {
    if !BudgetStalled(rows, rows.Keys, user, budget) {
      forall q | q in QueuedIds(rows, user)
        ensures |InflightIds(rows, user)| >= Slots(users[user].maxConcurrent) || ExactTwins(rows, rows[q].hash, q) != {}
      {
        assert q in list && IdentOf(rows[q]) == IdentOf(listed[q]);
        var k :| 0 <= k < |list| && list[k] == q;
        assert Eligible(listed, users, list[k]);
        assert !BudgetStalled(rows, Tried(list, |list|), user, budget);
      }
    }
  }

  /**
   What a pass does with each job that was queued: it fails exactly those whose source the plan of an
   eligible owner does not cover, and promotes some of those it covers.
   */
  ghost predicate Fates(listed: Rows, rows: Rows, users: map<string, User>, entitled: set<string>) {
    rows.Keys == listed.Keys && forall id | id in rows && listed[id].status == Queued ::
      && rows[id].status in {Queued, Pending, Failed} && rows[id].user == listed[id].user
      && (rows[id].status == Failed <==>
            id !in entitled && rows[id].user in users && users[rows[id].user].eligible)
      && (rows[id].status == Pending ==>
            rows[id].user in users && users[rows[id].user].eligible && rows[id].node == "")
  }

  lemma PassDispatches(listed: Rows, rows: Rows, list: seq<string>, users: map<string, User>, entitled: set<string>)
    requires QueueListing(listed, list) && AllDispatched(listed, rows, users, entitled)
    requires Worklist(rows, list, |list|, users, entitled)
    ensures Fates(listed, rows, users, entitled)
  {
    forall id | id in rows && listed[id].status == Queued && id !in entitled && Eligible(listed, users, id)
      ensures rows[id].status == Failed
    {
      assert id in list && rows[id].user == listed[id].user;
      var k :| 0 <= k < |list| && list[k] == id;
      assert Eligible(rows, users, list[k]);
    }
  }

  /** An eligible user has no room, or only jobs that wait for content being fetched, or the budget is short. */
  ghost predicate AllServed(rows: Rows, users: map<string, User>, budget: int) {
    forall user | user in users && users[user].eligible ::
      Saturated(rows, user, users[user].maxConcurrent) || BudgetStalled(rows, rows.Keys, user, budget)
  }

  /** The table with the queued jobs' priorities in line with their owners' plans. */
  ghost predicate Reranked(before: Rows, listed: Rows, users: map<string, User>) {
    && listed.Keys == before.Keys
    && (forall id | id in listed :: listed[id] == (if before[id].status == Queued then Refreshed(before[id], users)
                                                   else before[id]))
  }

  lemma RerankedPass(before: Rows, listed: Rows, rows: Rows, users: map<string, User>, entitled: set<string>)
    requires Reranked(before, listed, users) && AllDispatched(listed, rows, users, entitled)
    requires Fates(listed, rows, users, entitled) && NoneOvertaken(listed, rows)
    ensures Fates(before, rows, users, entitled) && NoneOvertaken(before, rows)
    ensures forall id | id in rows && before[id].status == Queued && rows[id].user in users ::
              rows[id].priority == users[rows[id].user].priority
  {
  }

  lemma RerankedDispatch(before: Rows, listed: Rows, rows: Rows, users: map<string, User>, entitled: set<string>)
    requires Reranked(before, listed, users) && AllDispatched(listed, rows, users, entitled)
    requires CapsKept(listed, rows, users) && (OneFetchPerHash(listed) ==> OneFetchPerHash(rows))
    ensures forall id | id in rows && before[id].status == Queued ::
              Dispatched(Refreshed(before[id], users), rows[id], Eligible(before, users, id), id in entitled)
    ensures CapsKept(before, rows, users) && (OneFetchPerHash(before) ==> OneFetchPerHash(rows))
  {
    RefreshKeepsSlots(before, listed);
  }

  // One turn of a pass, by what becomes of the candidate.

  ghost predicate Underway(listed: Rows, rows: Rows, list: seq<string>, i: nat, users: map<string, User>,
                           entitled: set<string>, budget: int)
  {
    && PassInv(listed, rows, list, i, users, budget) && SoundSoFar(listed, rows, users, entitled)
    && Worklist(rows, list, i, users, entitled)
  }

  lemma TurnSkips(listed: Rows, rows: Rows, list: seq<string>, i: nat, users: map<string, User>, entitled: set<string>,
                  budget: int)
    requires Underway(listed, rows, list, i, users, entitled, budget) && i < |list|
    requires !Eligible(listed, users, list[i])
    ensures Underway(listed, rows, list, i + 1, users, entitled, budget)
  {
    CandidateSkipped(listed, rows, list, i, users, budget);
    WorklistShrinks(listed, rows, rows, list, i, users, entitled);
  }

  lemma TurnRefuses(listed: Rows, rows: Rows, list: seq<string>, i: nat, users: map<string, User>,
                    entitled: set<string>, budget: int)
    requires Underway(listed, rows, list, i, users, entitled, budget) && i < |list|
    requires Eligible(listed, users, list[i]) && list[i] in entitled
    requires VerdictOn(rows, list[i], users[listed[list[i]].user].maxConcurrent, budget) != Promotable
    ensures Underway(listed, rows, list, i + 1, users, entitled, budget)
  {
    CandidateStays(listed, rows, list, i, users, budget);
    WorklistShrinks(listed, rows, rows, list, i, users, entitled);
  }

  lemma TurnFails(listed: Rows, rows: Rows, list: seq<string>, i: nat, users: map<string, User>, entitled: set<string>,
                  budget: int)
    requires Underway(listed, rows, list, i, users, entitled, budget) && i < |list|
    requires Eligible(listed, users, list[i]) && list[i] !in entitled
    ensures Underway(listed, rows[list[i] := rows[list[i]].(status := Failed, error := UNENTITLED)], list, i + 1, users,
                     entitled, budget)
  {
    var job := rows[list[i]].(status := Failed, error := UNENTITLED);
    FailureIsSound(listed, rows, users, entitled, list[i]);
    CandidateLeavesQueue(listed, rows, list, i, users, budget, job);
    WorklistShrinks(listed, rows, rows[list[i] := job], list, i, users, entitled);
  }

  lemma TurnPromotes(listed: Rows, rows: Rows, list: seq<string>, i: nat, users: map<string, User>,
                     entitled: set<string>, budget: int)
    requires Underway(listed, rows, list, i, users, entitled, budget) && i < |list|
    requires Eligible(listed, users, list[i]) && list[i] in entitled
    requires VerdictOn(rows, list[i], users[listed[list[i]].user].maxConcurrent, budget) == Promotable
    ensures Underway(listed, rows[list[i] := Promote(rows[list[i]])], list, i + 1, users, entitled, budget)
  {
    PromotionIsSound(listed, rows, users, entitled, list[i], budget);
    CandidateLeavesQueue(listed, rows, list, i, users, budget, Promote(rows[list[i]]));
    WorklistShrinks(listed, rows, rows[list[i] := Promote(rows[list[i]])], list, i, users, entitled);
  }

  class Queue {
    var rows: Rows

    constructor (rows: Rows)
      ensures this.rows == rows
    {
      this.rows := rows;
    }

    /** SELECT ... ORDER BY priority DESC, created_at ASC, id ASC. */
    method ListQueued() returns (list: seq<string>)
      ensures QueueListing(rows, list)
      ensures forall id :: id in list <==> id in rows && rows[id].status == Queued
      ensures forall i, j | 0 <= i < j < |list| ::
                && list[i] in rows && list[j] in rows
                && var x, y := rows[list[i]], rows[list[j]];
                   || x.priority > y.priority
                   || (x.priority == y.priority && x.created < y.created)
                   || (x.priority == y.priority && x.created == y.created
                      && exists k: nat :: LessFrom(list[i], list[j], k))
    {
      list := [];
      var left := set id | id in rows && rows[id].status == Queued;
      while left != {}
        invariant left <= rows.Keys && Ranked(rows, list)
        invariant forall k, x | 0 <= k < |list| && x in left :: Before(rows, list[k], x)
        invariant forall id :: id in list || id in left <==> id in rows && rows[id].status == Queued
        decreases |left|
      {
        ghost var f := FirstExists(rows, left);
        var first :| first in left && forall x | x in left && x != first :: Before(rows, first, x);
        RankedMore(rows, list, left, first);
        list := list + [first];
        left := left - {first};
      }
      RankedInFields(rows, list);
    }

    /** SELECT COALESCE(SUM(...), 0) over the rows that hold budget. */
    method BudgetUsed() returns (total: int)
      ensures total == Used(rows)
    {
      total := 0;
      var left := rows;
      while left != map[]
        invariant total + Used(left) == Used(rows)
        decreases |left|
      {
        var id :| id in left;
        UsedWithout(left, id);
        total := total + Contribution(left[id]);
        left := left - {id};
      }
    }

    method SetQueuedPriority(id: string, priority: int) returns (changed: bool)
      modifies this
      ensures changed <==> id in old(rows) && old(rows)[id].status == Queued && old(rows)[id].priority != priority
      ensures rows == if changed then old(rows)[id := old(rows)[id].(priority := priority)] else old(rows)
    {
      changed := id in rows && rows[id].status == Queued && rows[id].priority != priority;
      if changed {
        rows := rows[id := rows[id].(priority := priority)];
      }
    }

    method FailQueued(id: string, reason: string) returns (changed: bool)
      modifies this
      ensures changed <==> id in old(rows) && old(rows)[id].status == Queued
      ensures rows == if changed then old(rows)[id := old(rows)[id].(status := Failed, error := reason)] else old(rows)
    {
      changed := id in rows && rows[id].status == Queued;
      if changed {
        rows := rows[id := rows[id].(status := Failed, error := reason)];
      }
    }

    method PromoteQueued(id: string, maxConcurrent: int, budget: int) returns (verdict: Verdict)
      modifies this
      ensures verdict == VerdictOn(old(rows), id, maxConcurrent, budget)
      ensures verdict == Promotable <==> MayPromote(old(rows), id, maxConcurrent, budget)
      ensures rows == if verdict == Promotable then old(rows)[id := old(rows)[id].(status := Pending, node := "")]
                      else old(rows)
    {
      VerdictInFields(rows, id, maxConcurrent, budget);
      if id !in rows || rows[id].status != Queued {
        return NotQueued;
      }
      var job := rows[id];
      if |InflightIds(rows, job.user)| >= Slots(maxConcurrent) {
        return AtCapacity;
      }
      if OlderUnblocked(rows, id) != {} {
        return Overtaken;
      }
      if ExactTwins(rows, job.hash, id) != {} {
        return ContentBusy;
      }
      if job.gated {
        var used := BudgetUsed();
        if budget - used < PROMOTE_BUDGET_HEADROOM {
          return OverBudget;
        }
      }
      rows := rows[id := Promote(job)];
      return Promotable;
    }

    /** Brings the queued jobs' priorities in line with their owners' plans. */
    method RefreshPriorities(list: seq<string>, users: map<string, User>) returns (changed: bool)
      requires forall k | 0 <= k < |list| :: list[k] in rows && rows[list[k]].status == Queued
      modifies this
      ensures !changed ==> rows == old(rows)
      ensures rows.Keys == old(rows).Keys
      ensures forall id | id in rows ::
                  rows[id] == if id in list then Refreshed(old(rows)[id], users) else old(rows)[id]
      ensures forall id | id in list && rows[id].user in users :: rows[id].priority == users[rows[id].user].priority
    {
      changed := false;
      for i := 0 to |list|
        invariant !changed ==> rows == old(rows)
        invariant rows.Keys == old(rows).Keys
        invariant forall id | id in rows ::
                    rows[id] == if id in list[..i] then Refreshed(old(rows)[id], users) else old(rows)[id]
      {
        var id := list[i];
        if rows[id].user in users {
          var priority := users[rows[id].user].priority;
          if rows[id].priority != priority {
            var updated := SetQueuedPriority(id, priority);
            if updated {
              changed := true;
            }
          }
        }
      }
    }

    /**
     One scheduler pass. `entitled` are the jobs whose source the owner's plan still covers.
     It leaves an eligible user with room only if all its queued jobs wait for content that is
     being fetched, or the budget itself is short.
     */
    method Drain(users: map<string, User>, entitled: set<string>, budget: int)
      modifies this
      ensures rows.Keys == old(rows).Keys
      ensures forall id | id in rows && old(rows)[id].status != Queued :: rows[id] == old(rows)[id]
      ensures forall id | id in rows && old(rows)[id].status == Queued ::
                Dispatched(Refreshed(old(rows)[id], users), rows[id], Eligible(old(rows), users, id), id in entitled)
      ensures forall user :: |InflightIds(rows, user)| <= |InflightIds(old(rows), user)|
                || |InflightIds(rows, user)| <= Cap(users, user)
      ensures OneFetchPerHash(old(rows)) ==> OneFetchPerHash(rows)
      ensures forall id | id in rows && old(rows)[id].status == Queued && rows[id].user in users ::
                rows[id].priority == users[rows[id].user].priority
      ensures Fates(old(rows), rows, users, entitled) && NoneOvertaken(old(rows), rows)
      ensures AllServed(rows, users, budget)
    {
      var list := ListQueued();
      var changed := RefreshPriorities(list, users);
      if changed {
        list := ListQueued();
      }
      ghost var listed := rows;
      assert Reranked(old(rows), listed, users);
      OfferAll(list, users, entitled, budget);
      RerankedPass(old(rows), listed, rows, users, entitled);
      RerankedDispatch(old(rows), listed, rows, users, entitled);
    }

    /** The loop of a pass. */
    method OfferAll(list: seq<string>, users: map<string, User>, entitled: set<string>, budget: int)
      requires QueueListing(rows, list)
      modifies this
      ensures AllDispatched(old(rows), rows, users, entitled) && CapsKept(old(rows), rows, users)
      ensures OneFetchPerHash(old(rows)) ==> OneFetchPerHash(rows)
      ensures Fates(old(rows), rows, users, entitled) && NoneOvertaken(old(rows), rows)
      ensures forall id | id in rows && old(rows)[id].status != Queued :: rows[id] == old(rows)[id]
      ensures AllServed(rows, users, budget)
    {
      ghost var listed := rows;
      for i := 0 to |list|
        invariant Underway(listed, rows, list, i, users, entitled, budget)
      {
        Offer(listed, list, i, users, entitled, budget);
      }
      PassDispatches(listed, rows, list, users, entitled);
      forall user | user in users && users[user].eligible
        ensures Saturated(rows, user, users[user].maxConcurrent) || BudgetStalled(rows, rows.Keys, user, budget)
      {
        PassSaturates(listed, rows, list, users, budget, user);
      }
    }

    /** The loop body of a pass. */
    method Offer(ghost listed: Rows, list: seq<string>, i: nat, users: map<string, User>, entitled: set<string>,
                 budget: int)
      requires Underway(listed, rows, list, i, users, entitled, budget) && i < |list|
      modifies this
      ensures Underway(listed, rows, list, i + 1, users, entitled, budget)
    {
      var id := list[i];
      var owner := rows[id].user;
      assert IdentOf(rows[id]) == IdentOf(listed[id]);
      if owner !in users || !users[owner].eligible {
        TurnSkips(listed, rows, list, i, users, entitled, budget);
      } else if id !in entitled {
        TurnFails(listed, rows, list, i, users, entitled, budget);
        var failed := FailQueued(id, UNENTITLED);
      } else {
        ghost var before := rows;
        var verdict := PromoteQueued(id, users[owner].maxConcurrent, budget);
        if verdict == Promotable {
          TurnPromotes(listed, before, list, i, users, entitled, budget);
        } else {
          TurnRefuses(listed, before, list, i, users, entitled, budget);
        }
      }
    }
  }
}
