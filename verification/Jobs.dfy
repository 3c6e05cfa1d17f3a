// The jobs table: its rows, the status sets, and the queries the download queue decides by.
module Jobs {
  import opened Prelude

  datatype Status =
    Pending | Queued | Downloading | Processing | Publishing | Seeding | Complete | Failed | Evicted

  datatype Job = Job(user: string, hash: string, seed: bool, gated: bool, status: Status,
                     fileSize: int, priority: int, created: int,
                     node: string, error: string, progress: int, speed: int)

  /** The table, keyed by job id. */
  type Rows = map<string, Job>

  /** What no writer changes once a row exists. */
  datatype Ident = Ident(user: string, hash: string, seed: bool, gated: bool)

  function IdentOf(j: Job): Ident { Ident(j.user, j.hash, j.seed, j.gated) }

  predicate UsesSlot(j: Job) {
    !j.seed && j.status in {Pending, Downloading, Processing, Publishing}
  }

  predicate HoldsBudget(j: Job) {
    j.status in {Pending, Downloading, Processing, Publishing, Seeding}
  }

  predicate RealUser(user: string) { user != "" && user != "system" && user != "prewarm" }

  /** An account's own download, as opposed to system, prewarm and seed work. */
  predicate AccountJob(j: Job) { RealUser(j.user) && j.hash != "" && !j.seed }

  predicate LiveIdentity(j: Job) {
    AccountJob(j) && j.status != Failed && j.status != Evicted
  }

  const UNSIZED_CHARGE := 5_000_000_000

  function Charge(j: Job): (c: int)
    ensures c > 0
  {
    if j.fileSize > 0 then j.fileSize else UNSIZED_CHARGE
  }

  /** What the row adds to the budget sum. */
  function Contribution(j: Job): (c: int)
    ensures c >= 0
  {
    if HoldsBudget(j) then Charge(j) else 0
  }

  function InflightIds(rows: Rows, user: string): set<string> {
    set id | id in rows && rows[id].user == user && UsesSlot(rows[id])
  }

  function QueuedIds(rows: Rows, user: string): set<string> {
    set id | id in rows && rows[id].user == user && rows[id].status == Queued
  }

  function OtherQueued(rows: Rows, user: string, id: string): set<string> {
    set q | q in rows && q != id && rows[q].user == user && rows[q].status == Queued
  }

  /** Other rows that hold a slot for the same content. */
  function ActiveTwins(rows: Rows, hash: string, id: string): set<string> {
    set a | a in rows && a != id && Lower(rows[a].hash) == Lower(hash) && UsesSlot(rows[a])
  }

  /** The same with the case-sensitive comparison PromoteQueued makes. */
  function ExactTwins(rows: Rows, hash: string, id: string): set<string> {
    set a | a in rows && a != id && rows[a].hash == hash && UsesSlot(rows[a])
  }

  function LiveTwins(rows: Rows, user: string, hash: string): set<string> {
    set a | a in rows && rows[a].user == user && Lower(rows[a].hash) == Lower(hash) && LiveIdentity(rows[a])
  }

  function GatedQueued(rows: Rows): set<string> {
    set q | q in rows && rows[q].gated && rows[q].status == Queued
  }

  function OtherGatedQueued(rows: Rows, id: string): set<string> {
    set q | q in rows && q != id && rows[q].gated && rows[q].status == Queued
  }

  ghost function Used(rows: Rows): int {
    if rows == map[] then 0
    else
      var id :| id in rows;
      Contribution(rows[id]) + Used(rows - {id})
  }

  lemma {:induction false} UsedWithout(rows: Rows, id: string)
    requires id in rows
    ensures Used(rows) == Contribution(rows[id]) + Used(rows - {id})
    decreases |rows|
  {
    var k :| k in rows && Used(rows) == Contribution(rows[k]) + Used(rows - {k});
    if k != id {
      UsedWithout(rows - {k}, id);
      UsedWithout(rows - {id}, k);
      assert rows - {k} - {id} == rows - {id} - {k};
    }
  }

  lemma UsedAfterWrite(rows: Rows, id: string, j: Job)
    ensures Used(rows[id := j]) ==
            Used(rows) + Contribution(j) - (if id in rows then Contribution(rows[id]) else 0)
  {
    var after := rows[id := j];
    UsedWithout(after, id);
    if id in rows {
      UsedWithout(rows, id);
      assert after - {id} == rows - {id};
    } else {
      assert after - {id} == rows;
    }
  }

  /** The sum counts the size of every row from pending to seeding, or 5 GB if the size is not known. */
  lemma UsedCountsSizes(rows: Rows, id: string, j: Job)
    requires id !in rows
    ensures Used(map[]) == 0
    ensures Used(rows[id := j]) == Used(rows) +
              (if j.status in {Pending, Downloading, Processing, Publishing, Seeding}
               then (if j.fileSize > 0 then j.fileSize else 5_000_000_000) else 0)
  {
    UsedAfterWrite(rows, id, j);
  }

  lemma {:induction false} UsedShrinks(before: Rows, after: Rows)
    requires forall id | id in after :: id in before && Contribution(after[id]) <= Contribution(before[id])
    ensures Used(after) <= Used(before)
    decreases |before|
  {
    if before != map[] {
      var id :| id in before;
      UsedWithout(before, id);
      if id in after {
        UsedWithout(after, id);
      } else {
        assert after - {id} == after;
      }
      UsedShrinks(before - {id}, after - {id});
    } else {
      assert after == map[];
    }
  }

  /** prepareCreate's normal form for hashes. */
  function NormalHash(raw: string): string { Lower(TrimSpace(raw)) }

  predicate Normalized(hash: string) { Lower(hash) == hash }

  /** What creation stores: the hash between the spaces, in lower case; case variants become one hash. */
  lemma PreparedHashIsNormalized(raw: string) returns (i: nat, j: nat)
    ensures Normalized(NormalHash(raw))
    ensures i <= j <= |raw| && |NormalHash(raw)| == j - i
    ensures forall k | 0 <= k < j - i ::
              SameLetter(NormalHash(raw)[k], raw[i + k]) && !('A' <= NormalHash(raw)[k] <= 'Z')
    ensures forall k | 0 <= k < i || j <= k < |raw| :: IsSpace(raw[k])
    ensures i < j ==> !IsSpace(raw[i]) && !IsSpace(raw[j - 1])
    ensures i < j ==> raw[i] !in " \t\n\r" && raw[j - 1] !in " \t\n\r"
  {
    LowerIdempotent(TrimSpace(raw));
    i, j := TrimSpaceTrims(raw);
  }

  /** With normalized hashes the case-sensitive and the case-folding checks see the same rows. */
  lemma ExactTwinsAreAllTwins(rows: Rows, hash: string, id: string)
    requires Normalized(hash) && forall a | a in rows :: Normalized(rows[a].hash)
    ensures ExactTwins(rows, hash, id) == ActiveTwins(rows, hash, id)
  {
    forall a | a in rows
      ensures a in ExactTwins(rows, hash, id) <==> a in ActiveTwins(rows, hash, id)
    {
      assert Normalized(rows[a].hash);
    }
  }

  /** No content is being fetched for two rows at once. */
  ghost predicate OneFetchPerHash(rows: Rows) {
    forall a, b | a in rows && b in rows && a != b && UsesSlot(rows[a]) && UsesSlot(rows[b]) ::
           rows[a].hash != rows[b].hash
  }

  /** The queue order: priority down, then created up, then id up. */
  predicate Before(rows: Rows, a: string, b: string)
    requires a in rows && b in rows
  {
    var x, y := rows[a], rows[b];
    x.priority > y.priority
    || (x.priority == y.priority && (x.created < y.created || (x.created == y.created && TextLess(a, b))))
  }

  /** The order in the rows' own fields. */
  lemma BeforeInFields(rows: Rows, a: string, b: string)
    requires a in rows && b in rows
    ensures Before(rows, a, b) <==>
            || rows[a].priority > rows[b].priority
            || (rows[a].priority == rows[b].priority && rows[a].created < rows[b].created)
            || (rows[a].priority == rows[b].priority && rows[a].created == rows[b].created
               && exists k: nat :: LessFrom(a, b, k))
  {
    TextLessAtDifference(a, b);
  }

  lemma BeforeIsTotalOrder(rows: Rows, a: string, b: string)
    requires a in rows && b in rows
    ensures a != b ==> Before(rows, a, b) != Before(rows, b, a)
    ensures !Before(rows, a, a)
  {
    TextLessTotal(a, b);
    if TextLess(a, b) {
      TextLessAsymmetric(a, b);
    }
    if TextLess(b, a) {
      TextLessAsymmetric(b, a);
    }
    if TextLess(a, a) {
      TextLessAsymmetric(a, a);
    }
  }

  lemma BeforeTransitive(rows: Rows, a: string, b: string, c: string)
    requires a in rows && b in rows && c in rows
    requires Before(rows, a, b) && Before(rows, b, c)
    ensures Before(rows, a, c)
  {
    if TextLess(a, b) && TextLess(b, c) {
      TextLessTransitive(a, b, c);
    }
  }

  /** Queued rows of the same user that come first and whose content nobody is fetching. */
  function OlderUnblocked(rows: Rows, id: string): set<string>
    requires id in rows
  {
    set q | q in rows && q != id && rows[q].user == rows[id].user && rows[q].status == Queued
            && Before(rows, q, id) && ExactTwins(rows, rows[q].hash, q) == {}
  }

  // The same in the rows' own fields.

  /** Nobody else fetches the content of this job. */
  ghost predicate Unfetched(rows: Rows, id: string)
    requires id in rows
  {
    forall a | a in rows && a != id && rows[a].hash == rows[id].hash && !rows[a].seed ::
      rows[a].status !in {Pending, Downloading, Processing, Publishing}
  }

  /** A queued job of the same user with a higher priority, or of the same and older, or with the smaller id. */
  ghost predicate GoesBefore(rows: Rows, q: string, id: string)
    requires q in rows && id in rows
  {
    && q != id && rows[q].user == rows[id].user && rows[q].status == Queued
    && (|| rows[q].priority > rows[id].priority
        || (rows[q].priority == rows[id].priority && rows[q].created < rows[id].created)
        || (rows[q].priority == rows[id].priority && rows[q].created == rows[id].created
           && exists k: nat :: LessFrom(q, id, k)))
  }

  lemma UnfetchedMeansNoTwins(rows: Rows, id: string)
    requires id in rows
    ensures Unfetched(rows, id) <==> ExactTwins(rows, rows[id].hash, id) == {}
  {
    assert forall a :: a in ExactTwins(rows, rows[id].hash, id) <==>
                       a in rows && a != id && rows[a].hash == rows[id].hash && UsesSlot(rows[a]);
  }

  lemma NoneGoesBefore(rows: Rows, id: string)
    requires id in rows
    ensures OlderUnblocked(rows, id) == {} <==>
            forall q | q in rows && GoesBefore(rows, q, id) :: !Unfetched(rows, q)
  {
    forall q | q in rows
      ensures q in OlderUnblocked(rows, id) <==> GoesBefore(rows, q, id) && Unfetched(rows, q)
    {
      BeforeInFields(rows, q, id);
      UnfetchedMeansNoTwins(rows, q);
    }
  }

  function Slots(maxConcurrent: int): (n: int)
    ensures n >= 1
  {
    if maxConcurrent < 1 then 1 else maxConcurrent
  }

  const INITIAL_BUDGET_HEADROOM := 1_000_000_000
  const PROMOTE_BUDGET_HEADROOM := 5_000_000_000

  /** The decision shared by Admit and Readmit. */
  predicate MustQueue(gated: bool, maxConcurrent: int, budget: int, queued: int, inflight: int,
                      hashActive: bool, budgetQueued: bool, used: int)
  {
    queued > 0 || inflight >= Slots(maxConcurrent) || hashActive
    || (gated && (budgetQueued || budget - used < INITIAL_BUDGET_HEADROOM))
  }
}
