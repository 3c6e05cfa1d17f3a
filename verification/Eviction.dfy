// One node's cache as it changes: uploads, the three deleters of blobs, and the budget pass.
module Eviction {
  import opened Prelude
  import opened Jobs
  import opened BlobStore
  import opened CacheBudget

  const GC_BATCH := 500

  /** What became of a candidate of the budget pass. */
  datatype Fate = Reclaimed | InGrace | StillSeeding | DeleteFailed

  /**
   What the store and the database do during one eviction: whether DeletePrefix reports success
   and which of its objects survive it, whether the statement that drops the references succeeds
   and which keys it reports, and which of the following deletions fail.
   */
  datatype Weather = Weather(prefixOk: bool, survivors: set<string>,
                             dropOk: bool, reported: seq<string>, broken: nat -> bool)

  predicate Seeds(j: Job, hash: string) { Sibling(j, hash) && j.status == Seeding }

  /** The total budgetPass believes in after some candidates. */
  function Remaining(total: int, order: seq<Candidate>, fates: seq<Fate>): int
    requires |fates| <= |order|
  {
    if fates == [] then total
    else
      var i := |fates| - 1;
      Remaining(total, order, fates[..i]) - (if fates[i] == Reclaimed then order[i].fileSize else 0)
  }

  /** The jobs table after some candidates. */
  function MarkedAll(rows: seq<Job>, node: string, order: seq<Candidate>, fates: seq<Fate>): seq<Job>
    requires |fates| <= |order|
  {
    if fates == [] then rows
    else
      var i := |fates| - 1;
      var before := MarkedAll(rows, node, order, fates[..i]);
      if fates[i] == Reclaimed then Marked(before, node, order[i].hash) else before
  }

  /**
   What comes of an eviction: a row of the hash, of whatever case and on whatever node, that
   is seeding forbids it.
   */
  ghost function EvictFate(rows: seq<Job>, hash: string, w: Weather): Fate {
    if exists i | 0 <= i < |rows| :: Seeds(rows[i], hash) then StillSeeding
    else if w.prefixOk then Reclaimed
    else DeleteFailed
  }

  /** What comes of a candidate of the budget pass. */
  ghost function CandidateFate(rows: seq<Job>, c: Candidate, graceDays: int, w: Weather): Fate {
    if c.daysSinceAccess < graceDays then InGrace else EvictFate(rows, c.hash, w)
  }

  /** The same rows as far as seeding goes. */
  ghost predicate SameSeeding(a: seq<Job>, b: seq<Job>) {
    |a| == |b| && forall i | 0 <= i < |a| ::
      a[i].hash == b[i].hash && (a[i].status == Seeding <==> b[i].status == Seeding)
  }

  lemma SameSeedingSameFate(a: seq<Job>, b: seq<Job>, hash: string, w: Weather)
    requires SameSeeding(a, b)
    ensures EvictFate(a, hash, w) == EvictFate(b, hash, w)
  {
    if i :| 0 <= i < |a| && Seeds(a[i], hash) {
      assert Seeds(b[i], hash);
    }
    if i :| 0 <= i < |b| && Seeds(b[i], hash) {
      assert Seeds(a[i], hash);
    }
  }

  lemma ReclaimingKeepsSeeding(rows: seq<Job>, node: string, hash: string, w: Weather)
    requires EvictFate(rows, hash, w) == Reclaimed
    ensures SameSeeding(rows, Marked(rows, node, hash))
  {
    forall i | 0 <= i < |rows|
      ensures rows[i].status == Seeding <==> Marked(rows, node, hash)[i].status == Seeding
    {
      assert !Seeds(rows[i], hash);
    }
  }

  /** The candidates ahead are still what the query would list, whether or not this one is evicted. */
  lemma CandidatesAhead(order: seq<Candidate>, i: nat, rows: seq<Job>, node: string)
    requires i < |order| && NoVariants(rows, node) && CandidatesOf(order[i..], Sizes(rows, node))
    ensures CandidatesOf(order[i + 1..], Sizes(rows, node))
    ensures var after := Marked(rows, node, order[i].hash);
            && TotalCached(after, node) == TotalCached(rows, node) - order[i].fileSize
            && NoVariants(after, node) && CandidatesOf(order[i + 1..], Sizes(after, node))
  {
    var ahead := order[i..];
    assert ahead[0] == order[i] && order[i + 1..] == ahead[1..];
    CandidatesAfterFirst(ahead, Sizes(rows, node));
    EvictionAccounting(rows, node, order[i].hash);
  }

  /** After every candidate the total the pass keeps is the one the query would return, over the table as it then is. */
  lemma {:induction false} TotalsAgree(rows: seq<Job>, node: string, order: seq<Candidate>, fates: seq<Fate>)
    requires NoVariants(rows, node) && CandidatesOf(order, Sizes(rows, node)) && |fates| <= |order|
    ensures var after := MarkedAll(rows, node, order, fates);
            && Remaining(TotalCached(rows, node), order, fates) == TotalCached(after, node)
            && NoVariants(after, node) && CandidatesOf(order[|fates|..], Sizes(after, node))
  {
    if fates == [] {
      assert order[0..] == order;
    } else {
      var i := |fates| - 1;
      TotalsAgree(rows, node, order, fates[..i]);
      CandidatesAhead(order, i, MarkedAll(rows, node, order, fates[..i]), node);
    }
  }

  lemma PassTotal(rows: seq<Job>, node: string, candidates: seq<Candidate>, fates: seq<Fate>)
    requires |fates| <= |ReclaimOrder(candidates)|
    ensures NoVariants(rows, node) && CandidatesOf(candidates, Sizes(rows, node)) ==>
              var order := ReclaimOrder(candidates);
              Remaining(TotalCached(rows, node), order, fates) == TotalCached(MarkedAll(rows, node, order, fates), node)
  {
    if NoVariants(rows, node) && CandidatesOf(candidates, Sizes(rows, node)) {
      GroupsMembers(candidates);
      PermutedCandidates(candidates, ReclaimOrder(candidates), Sizes(rows, node));
      TotalsAgree(rows, node, ReclaimOrder(candidates), fates);
    }
  }

  /** The pass up to here: each fate as it should be, each candidate tried with the total over the cap. */
  ghost predicate PassSoFar(rows: seq<Job>, order: seq<Candidate>, graceDays: int, weather: nat -> Weather, total: int,
                            cap: int, fates: seq<Fate>) {
    && |fates| <= |order|
    && (forall i | 0 <= i < |fates| :: fates[i] == CandidateFate(rows, order[i], graceDays, weather(i)))
    && (forall i | 0 <= i < |fates| :: Remaining(total, order, fates[..i]) > cap)
  }

  lemma PassMore(rows: seq<Job>, order: seq<Candidate>, graceDays: int, weather: nat -> Weather, total: int, cap: int,
                 fates: seq<Fate>, fate: Fate, node: string)
    requires PassSoFar(rows, order, graceDays, weather, total, cap, fates) && |fates| < |order|
    requires fate == CandidateFate(rows, order[|fates|], graceDays, weather(|fates|))
               && Remaining(total, order, fates) > cap
    ensures PassSoFar(rows, order, graceDays, weather, total, cap, fates + [fate])
    ensures Remaining(total, order, fates + [fate]) ==
                Remaining(total, order, fates) - (if fate == Reclaimed then order[|fates|].fileSize else 0)
    ensures MarkedAll(rows, node, order, fates + [fate]) ==
              var before := MarkedAll(rows, node, order, fates);
              if fate == Reclaimed then Marked(before, node, order[|fates|].hash) else before
  {
    var more := fates + [fate];
    assert more[..|fates|] == fates;
    forall i | 0 <= i < |more|
      ensures Remaining(total, order, more[..i]) > cap
    {
      assert more[..i] == fates[..i];
      assert fates[..|fates|] == fates;
    }
  }

  /** A row of this hash, in whatever case and wherever it is, is seeding. */
  ghost predicate SomeoneSeeds(rows: seq<Job>, hash: string) {
    exists i :: 0 <= i < |rows| && Lower(rows[i].hash) == Lower(hash) && rows[i].status == Seeding
  }

  /** The node's rows of this hash, in whatever case, are evicted; all others are as before. */
  ghost predicate OnlyEvicted(before: seq<Job>, after: seq<Job>, node: string, hash: string) {
    |after| == |before| && forall i | 0 <= i < |before| ::
      after[i] == if Lower(before[i].hash) == Lower(hash) && before[i].node == node
                  then before[i].(status := Status.Evicted, error := "content evicted from cache") else before[i]
  }

  lemma MarkedInFields(rows: seq<Job>, node: string, hash: string)
    ensures OnlyEvicted(rows, Marked(rows, node, hash), node, hash)
  {
  }

  /** What becomes of each candidate tried, by its age, by who seeds, and by the store. */
  ghost predicate FatesInFields(rows: seq<Job>, order: seq<Candidate>, graceDays: int, weather: nat -> Weather,
                                fates: seq<Fate>)
  {
    |fates| <= |order| && forall k | 0 <= k < |fates| ::
      && (fates[k] == InGrace <==> order[k].daysSinceAccess < graceDays)
      && (fates[k] == StillSeeding <==>
            order[k].daysSinceAccess >= graceDays && SomeoneSeeds(rows, order[k].hash))
      && (fates[k] == Reclaimed <==>
            order[k].daysSinceAccess >= graceDays && !SomeoneSeeds(rows, order[k].hash) && weather(k).prefixOk)
  }

  /** Nothing accessed, or not prewarmed, is tried before a cold prewarmed title, and nothing large before the rest. */
  ghost predicate TriedInOrder(candidates: seq<Candidate>, order: seq<Candidate>, tried: nat) {
    tried <= |order| && forall k | 0 <= k < tried ::
      && (!(order[k].prewarm && order[k].accessCount == 0) ==>
            forall c | c in candidates && c.prewarm && c.accessCount == 0 :: c in order[..k])
      && (!(order[k].prewarm && order[k].accessCount == 0) && order[k].fileSize > 50_000_000_000 ==>
            forall c | c in candidates && c.fileSize <= 50_000_000_000 :: c in order[..k])
  }

  lemma SeedsInFields(rows: seq<Job>, hash: string)
    ensures SomeoneSeeds(rows, hash) <==> exists i | 0 <= i < |rows| :: Seeds(rows[i], hash)
  {
    if i :| 0 <= i < |rows| && Lower(rows[i].hash) == Lower(hash) && rows[i].status == Seeding {
      assert Seeds(rows[i], hash);
    }
  }

  lemma PassInFields(rows: seq<Job>, order: seq<Candidate>, graceDays: int, weather: nat -> Weather, total: int,
                     cap: int, fates: seq<Fate>)
    requires PassSoFar(rows, order, graceDays, weather, total, cap, fates)
    ensures FatesInFields(rows, order, graceDays, weather, fates)
  {
    forall k | 0 <= k < |fates|
      ensures SomeoneSeeds(rows, order[k].hash) <==> exists i | 0 <= i < |rows| :: Seeds(rows[i], order[k].hash)
    {
      SeedsInFields(rows, order[k].hash);
    }
  }

  lemma PlaceOf(candidates: seq<Candidate>, c: Candidate) returns (l: nat)
    requires c in candidates
    ensures l < |ReclaimOrder(candidates)| && ReclaimOrder(candidates)[l] == c
  {
    GroupsMembers(candidates);
    assert c in multiset(candidates) && c in multiset(ReclaimOrder(candidates));
    l :| 0 <= l < |ReclaimOrder(candidates)| && ReclaimOrder(candidates)[l] == c;
  }

  lemma ComesLater(candidates: seq<Candidate>, k: nat, c: Candidate)
    requires k < |ReclaimOrder(candidates)| && c in candidates && !Cold(ReclaimOrder(candidates)[k])
    requires Cold(c) || (ReclaimOrder(candidates)[k].fileSize > 50_000_000_000 && c.fileSize <= 50_000_000_000)
    ensures c in ReclaimOrder(candidates)[..k]
  {
    var places := ReclaimOrderInFields(candidates);
    var l := PlaceOf(candidates, c);
    assert l < k && ReclaimOrder(candidates)[..k][l] == c;
  }

  lemma PassInOrder(candidates: seq<Candidate>, tried: nat)
    requires tried <= |ReclaimOrder(candidates)|
    ensures TriedInOrder(candidates, ReclaimOrder(candidates), tried)
  {
    var order := ReclaimOrder(candidates);
    forall k, c | 0 <= k < tried && c in candidates && !Cold(order[k])
                  && (Cold(c) || (order[k].fileSize > 50_000_000_000 && c.fileSize <= 50_000_000_000))
      ensures c in order[..k]
    {
      ComesLater(candidates, k, c);
    }
  }

  /** A row is evicted in a pass when the eviction of its hash went through on its node, and else it is as before. */
  lemma {:induction false} MarkedAllInFields(rows: seq<Job>, node: string, order: seq<Candidate>, fates: seq<Fate>,
                                             i: nat)
    requires |fates| <= |order| && i < |rows|
    ensures |MarkedAll(rows, node, order, fates)| == |rows|
    ensures var reclaimed := exists k :: 0 <= k < |fates| && fates[k] == Reclaimed
                                         && Lower(order[k].hash) == Lower(rows[i].hash);
            MarkedAll(rows, node, order, fates)[i] ==
            if reclaimed && rows[i].node == node
            then rows[i].(status := Status.Evicted, error := "content evicted from cache") else rows[i]
  {
    if fates != [] {
      var k := |fates| - 1;
      MarkedAllInFields(rows, node, order, fates[..k], i);
      if l :| 0 <= l < k && fates[l] == Reclaimed && Lower(order[l].hash) == Lower(rows[i].hash) {
        assert fates[..k][l] == Reclaimed;
      }
      assert forall l | 0 <= l < k :: fates[..k][l] == fates[l];
    }
  }

  /** What is cached on the node has hashes of lower-case hexadecimal digits. */
  ghost predicate HexCached(rows: seq<Job>, node: string) {
    forall h | h in Sizes(rows, node) :: Hexadecimal(h)
  }

  lemma HexIsNormalized(hash: string)
    requires Hexadecimal(hash)
    ensures Normalized(hash)
  {
    assert forall i | 0 <= i < |hash| :: HexDigit(hash[i]);
  }

  lemma HexCachedHasNoVariants(rows: seq<Job>, node: string)
    requires HexCached(rows, node)
    ensures NoVariants(rows, node)
  {
    forall h | h in Sizes(rows, node)
      ensures Normalized(h)
    {
      HexIsNormalized(h);
    }
  }

  /** All hashes in the normal form that prepareCreate gives them. */
  predicate NormalTable(rows: seq<Job>) {
    forall i | 0 <= i < |rows| :: Normalized(rows[i].hash)
  }

  /** A hash that the prewarm handler accepts, 40 characters that need not be hexadecimal digits. */
  function SlashedHash(): string { Slashes(35) + "blobs" }

  /** The normal form of creation leaves it alone, and on a file system store evicting it loses every blob. */
  lemma PrewarmHashCanLoseBlobs(t: Tables)
    requires Safe(t)
    ensures var hash := SlashedHash();
            && |hash| == 40 && NormalHash(hash) == hash
            && !Hexadecimal(hash) && !Harmless(FileSystem, hash)
            && forall k | k in Referenced(t) :: StorageKey(k) !in Cleared(t, FileSystem, hash, {}).objects
  {
    var hash := SlashedHash();
    SlashesCleanAway(35);
    SlashesAreSlashes(35);
    assert hash[0] == '/' && hash[39] == 's' && !HexDigit(hash[0]);
    assert TrimSpace(hash) == hash;
    assert Lower(hash) == hash;
    ClearingLosesCovered(t, FileSystem, hash);
  }

  lemma {:induction false} SlashesAreSlashes(n: nat)
    ensures |Slashes(n)| == n && forall i | 0 <= i < n :: Slashes(n)[i] == '/'
  {
    if n > 0 {
      SlashesAreSlashes(n - 1);
    }
  }

  /** DeleteCachedByHash: the complete rows of exactly this hash, on every node. */
  function WithoutCached(rows: seq<Job>, hash: string): seq<Job> {
    if rows == [] then []
    else
      var front, last := WithoutCached(rows[..|rows| - 1], hash), rows[|rows| - 1];
      if last.hash == hash && last.status == Complete then front else front + [last]
  }

  class Node {
    const name: string
    const backend: Backend
    var blobs: map<string, BlobRow>
    var refs: map<RefKey, string>
    var objects: map<string, Object>
    var rows: seq<Job>

    function Now(): Tables
      reads this
    {
      Tables(blobs, refs, objects)
    }

    constructor (name: string, backend: Backend)
      ensures Safe(Now()) && Now() == Tables(map[], map[], map[]) && rows == []
    {
      this.name, this.backend, blobs, refs, objects, rows := name, backend, map[], map[], map[], [];
    }

    // -------------------------------------------------------------- uploads

    method AddBlobRef(hash: string, index: int, key: string, size: int, encrypted: bool)
      modifies `blobs, `refs
      ensures Now() == Added(old(Now()), hash, index, key, size, encrypted)
    {
      if key !in blobs {
        blobs := blobs[key := BlobRow(size, encrypted)];
      }
      refs := refs[RefKey(hash, index) := key];
    }

    /**
     Uploader.Put. `headOk`, `fileOk`, `uploadOk` and `addOk` tell which of its steps succeed;
     `cipher` whether the node encrypts. Nothing but a whole success adds a reference.
     */
    method Put(hash: string, index: int, key: string, size: int, now: int, cipher: bool, headOk: bool, fileOk: bool,
               uploadOk: bool, addOk: bool)
      returns (ok: bool, encrypted: bool, wrote: bool, ghost trace: seq<Change>)
      requires Plain(key)
      modifies `blobs, `refs, `objects
      ensures Traced(old(Now()), trace, Now())
      ensures var reuse := key in old(blobs) && StorageKey(key) in old(objects) && headOk;
              && (ok <==> fileOk && addOk && (reuse || uploadOk)) && (wrote <==> ok && !reuse)
              && encrypted == (if reuse then old(blobs)[key].encrypted else cipher)
              && var stores := !reuse && fileOk && uploadOk;
                 var stored := if stores then Uploaded(old(Now()), key, now, cipher) else old(Now());
                 Now() == if ok then Added(stored, hash, index, key, size, encrypted) else stored
      ensures ok && FlagsMatch(old(Now())) ==> objects[StorageKey(key)].encrypted == encrypted
      ensures ok ==> && "blobs/" + key in objects && key in blobs
                     && RefKey(hash, index) in refs && refs[RefKey(hash, index)] == key
      ensures forall r | r in refs && r != RefKey(hash, index) :: r in old(refs) && refs[r] == old(refs)[r]
    {
      ok, wrote, trace := false, false, [];
      TraceNone(Now());
      var reuse := false;
      if key in blobs && StorageKey(key) in objects && headOk {
        reuse, encrypted := true, blobs[key].encrypted;
      }
      if reuse {
        if !fileOk {
          return;
        }
      } else {
        encrypted := cipher;
        if !fileOk || !uploadOk {
          return;
        }
        TraceMore(Now(), trace, Now(), Upload(key, now, encrypted));
        trace := trace + [Upload(key, now, encrypted)];
        objects := objects[StorageKey(key) := Object(now, encrypted)];
      }
      if !addOk {
        return;
      }
      TraceMore(old(Now()), trace, Now(), AddRef(hash, index, key, size, encrypted));
      trace := trace + [AddRef(hash, index, key, size, encrypted)];
      AddBlobRef(hash, index, key, size, encrypted);
      ok, wrote := true, !reuse;
    }

    // -------------------------------------------------------------- deleting blobs

    method DeleteBlob(key: string)
      modifies `blobs
      ensures blobs == old(blobs) - {key}
    {
      blobs := blobs - {key};
    }

    /** Store and table forget one blob, unless the store fails. */
    method Collect(key: string, fails: bool) returns (done: bool)
      modifies `blobs, `objects
      ensures done == !fails && Now() == if done then Collected(old(Now()), {key}) else old(Now())
    {
      if fails {
        return false;
      }
      assert StorageKeys({key}) == {StorageKey(key)};
      objects := objects - {StorageKey(key)};
      DeleteBlob(key);
      done := true;
    }

    method OrphanedBlobs(limit: nat) returns (out: seq<string>)
      ensures |out| == Min(limit, |Orphans(Now())|)
      ensures forall i | 0 <= i < |out| :: out[i] in Orphans(Now())
      ensures forall i, j | 0 <= i < j < |out| :: out[i] != out[j]
    {
      out := [];
      var left := Orphans(Now());
      while |out| < limit && left != {}
        invariant |out| + |left| == |Orphans(Now())| && |out| <= limit && left <= Orphans(Now())
        invariant forall i | 0 <= i < |out| :: out[i] in Orphans(Now()) && out[i] !in left
        invariant forall i, j | 0 <= i < j < |out| :: out[i] != out[j]
        decreases |left|
      {
        var k :| k in left;
        out, left := out + [k], left - {k};
      }
    }

    /** One batch of RunGC; `attempt` numbers the deletions, and broken(n) tells that the n-th fails. */
    method CollectBatch(broken: nat -> bool, attempt: nat)
      returns (found: nat, deleted: nat, ghost gone: set<string>, ghost trace: seq<Change>)
      modifies `blobs, `objects
      ensures Traced(old(Now()), trace, Now())
      ensures Now() == Collected(old(Now()), gone) && gone <= Orphans(old(Now())) && |gone| == deleted
      ensures found == Min(500, |Orphans(old(Now()))|) && |Orphans(Now())| == |Orphans(old(Now()))| - deleted
      ensures deleted == 0 ==> forall n | attempt <= n < attempt + found :: broken(n)
    {
      var orphans := OrphanedBlobs(GC_BATCH);
      found, deleted, gone, trace := |orphans|, 0, {}, [];
      assert StorageKeys({}) == {};
      TraceNone(Now());
      for i := 0 to |orphans|
        invariant Traced(old(Now()), trace, Now()) && Referenced(Now()) == Referenced(old(Now()))
        invariant Now() == Collected(old(Now()), gone) && |gone| == deleted
        invariant gone <= Orphans(old(Now())) && forall k | k in gone :: k in orphans[..i]
        invariant deleted == 0 ==> forall n | attempt <= n < attempt + i :: broken(n)
      {
        CollectMore(old(Now()), gone, {orphans[i]});
        ghost var before := Now();
        var done := Collect(orphans[i], broken(attempt + i));
        if done {
          TraceMore(old(Now()), trace, before, Change.Collect(orphans[i]));
          trace := trace + [Change.Collect(orphans[i])];
          assert orphans[i] !in gone;
          gone, deleted := gone + {orphans[i]}, deleted + 1;
        }
      }
      OrphansAfterCollecting(old(Now()), gone);
    }

    /**
     RunGC ends for every pattern of failing store deletions. It collects only orphans, and if it
     leaves any, every deletion of its last batch failed.
     */
    method RunGC(broken: nat -> bool) returns (attempts: nat, ghost gone: set<string>, ghost trace: seq<Change>)
      modifies `blobs, `objects
      ensures Traced(old(Now()), trace, Now())
      ensures Now() == Collected(old(Now()), gone) && gone <= Orphans(old(Now()))
      ensures forall n | attempts - Min(500, |Orphans(Now())|) <= n < attempts :: n >= 0 && broken(n)
      ensures (forall n :: !broken(n)) ==> Orphans(Now()) == {} && gone == Orphans(old(Now()))
      ensures refs == old(refs) && forall k :: k in blobs <==> k in old(blobs) && k !in gone
      ensures forall k, r | k in gone && r in refs :: refs[r] != k
      ensures (forall n :: !broken(n)) ==> forall k | k in blobs :: exists r :: r in refs && refs[r] == k
    {
      attempts, gone, trace := 0, {}, [];
      assert StorageKeys({}) == {};
      TraceNone(Now());
      while true
        invariant Traced(old(Now()), trace, Now())
        invariant Now() == Collected(old(Now()), gone) && gone <= Orphans(old(Now()))
        decreases |Orphans(Now())|
      {
        ghost var before := Now();
        var found, deleted, batch, steps := CollectBatch(broken, attempts);
        TraceJoin(old(Now()), trace, before, steps, Now());
        trace := trace + steps;
        CollectMore(old(Now()), gone, batch);
        OrphansAfterCollecting(old(Now()), gone);
        OrphansAfterCollecting(old(Now()), gone + batch);
        attempts, gone := attempts + found, gone + batch;
        if found == 0 || deleted == 0 {
          assert found > 0 ==> broken(attempts - 1);
          return;
        }
      }
    }

    // -------------------------------------------------------------- dropping references

    /** The references of one download go; the keys reported are among those nothing references any more. */
    method DropBlobRefs(hash: string, reported: seq<string>) returns (orphaned: seq<string>)
      modifies `refs
      ensures Now() == RefsDropped(old(Now()), hash)
      ensures forall r :: r in refs <==> r in old(refs) && r.hash != hash
      ensures forall r | r in refs :: refs[r] == old(refs)[r]
      ensures forall k :: k in orphaned <==> k in reported && k in Referenced(old(Now())) && k !in Referenced(Now())
    {
      ghost var before := Now();
      var removed := set r | r in refs && r.hash == hash :: refs[r];
      refs := RefsDropped(Now(), hash).refs;
      FewerRefsAreSafe(before, refs);
      forall k | k in Referenced(before) && k !in Referenced(Now())
        ensures k in removed
      {
        var r :| r in before.refs && before.refs[r] == k;
      }
      orphaned := [];
      for i := 0 to |reported|
        invariant forall k :: k in orphaned <==>
                    k in reported[..i] && k in Referenced(before) && k !in Referenced(Now())
      {
        if reported[i] in removed && reported[i] !in Referenced(Now()) {
          orphaned := orphaned + [reported[i]];
        }
      }
      assert reported[..|reported|] == reported;
    }

    method DropDanglingRefs() returns (ghost trace: seq<Change>)
      modifies `refs
      ensures Traced(old(Now()), trace, Now())
      ensures Now() == DanglingDropped(old(Now()), set i | 0 <= i < |rows| :: rows[i].hash)
      ensures forall r :: r in refs <==> r in old(refs) && exists i :: 0 <= i < |rows| && rows[i].hash == r.hash
      ensures forall r | r in refs :: refs[r] == old(refs)[r]
    {
      var hashes := set i | 0 <= i < |rows| :: rows[i].hash;
      TraceNone(Now());
      TraceMore(Now(), [], Now(), DropDangling(hashes));
      trace := [] + [DropDangling(hashes)];
      refs := DanglingDropped(Now(), hashes).refs;
    }

    /** Drops a download's references and collects what the statement reported; nothing if the statement fails. */
    method PurgeBlobs(hash: string, w: Weather) returns (ghost gone: set<string>, ghost trace: seq<Change>)
      modifies `blobs, `refs, `objects
      ensures Traced(old(Now()), trace, Now())
      ensures !w.dropOk ==> Now() == old(Now())
      ensures w.dropOk ==>
                && Now() == Collected(RefsDropped(old(Now()), hash), gone)
                && gone !! Referenced(RefsDropped(old(Now()), hash)) && forall k | k in gone :: k in w.reported
    {
      gone, trace := {}, [];
      TraceNone(Now());
      if !w.dropOk {
        return;
      }
      TraceMore(Now(), trace, Now(), DropRefs(hash));
      trace := trace + [DropRefs(hash)];
      var orphaned := DropBlobRefs(hash, w.reported);
      ghost var dropped := Now();
      assert StorageKeys({}) == {};
      for i := 0 to |orphaned|
        invariant Traced(old(Now()), trace, Now()) && Referenced(Now()) == Referenced(dropped)
        invariant Now() == Collected(dropped, gone)
        invariant gone !! Referenced(dropped) && forall k | k in gone :: k in w.reported
      {
        CollectMore(dropped, gone, {orphaned[i]});
        ghost var before := Now();
        var done := Collect(orphaned[i], w.broken(i));
        if done {
          TraceMore(old(Now()), trace, before, Change.Collect(orphaned[i]));
          trace := trace + [Change.Collect(orphaned[i])];
          gone := gone + {orphaned[i]};
        }
      }
    }

    // -------------------------------------------------------------- reconciling

    /** One listed object, and the row of the same name, unless the store fails. */
    method DeleteListed(path: string, fails: bool) returns (done: bool)
      modifies `blobs, `objects
      ensures done == !fails && Now() == if done then Reconciled(old(Now()), {path}) else old(Now())
    {
      if fails {
        return false;
      }
      assert Bases({path}) == {Base(path)};
      objects := objects - {path};
      DeleteBlob(Base(path));
      done := true;
    }

    /** Deletes what lies below blobs/ unreferenced for a day, and the rows of the same name. */
    method RunReconcile(now: int, broken: nat -> bool) returns (ghost gone: set<string>, ghost trace: seq<Change>)
      modifies `blobs, `objects
      ensures Traced(old(Now()), trace, Now())
      ensures Now() == Reconciled(old(Now()), gone)
      ensures forall p | p in gone :: Stale(old(Now()), p, now)
      ensures (forall n :: !broken(n)) ==> forall p | Stale(old(Now()), p, now) :: p in gone
      ensures forall p | p in old(objects) :: p in objects <==> p !in gone
      ensures forall p | p in old(objects) && now - old(objects)[p].modified < 86400 :: p in objects
      ensures forall p | p in old(objects) && !("blobs/" <= p) :: p in objects
      ensures forall p | p in old(objects) && Base(p) in Referenced(old(Now())) :: p in objects
      ensures forall p | (forall n :: !broken(n)) && p in old(objects) && "blobs/" <= p
                         && now - old(objects)[p].modified >= 86400 && Base(p) !in Referenced(old(Now())) ::
                p !in objects
    {
      var referenced := Referenced(Now());
      var left := set p | p in objects && HasPrefix(BLOBS, p);
      gone, trace := {}, [];
      var attempt := 0;
      assert Bases({}) == {};
      TraceNone(Now());
      while left != {}
        invariant Traced(old(Now()), trace, Now())
        invariant Now() == Reconciled(old(Now()), gone)
        invariant gone !! left && forall p | p in left :: p in old(objects) && HasPrefix(BLOBS, p)
        invariant forall p | p in gone :: Stale(old(Now()), p, now)
        invariant (forall n :: !broken(n)) ==> forall p | Stale(old(Now()), p, now) :: p in gone || p in left
        decreases |left|
      {
        var p :| p in left;
        left := left - {p};
        if Base(p) !in referenced && objects[p].modified <= now - RECONCILE_GRACE {
          ReconcileMore(old(Now()), gone, p);
          ghost var before := Now();
          var done := DeleteListed(p, broken(attempt));
          if done {
            TraceMore(old(Now()), trace, before, Reconcile(p, now));
            gone, trace := gone + {p}, trace + [Reconcile(p, now)];
          }
          attempt := attempt + 1;
        }
      }
    }

    // -------------------------------------------------------------- evicting

    /** DeletePrefix of a download's directory. */
    method DeletePrefix(hash: string, survivors: set<string>)
      modifies `objects
      ensures Now() == Cleared(old(Now()), backend, hash, survivors)
      ensures forall k | k in old(objects) ::
                k !in objects <==>
                  (if backend.FileSystem? then Clean(hash) <= Clean(k) else hash + "/" <= k) && k !in survivors
      ensures forall k | k in objects :: k in old(objects) && objects[k] == old(objects)[k]
    {
      objects := Cleared(Now(), backend, hash, survivors).objects;
    }

    /** Marks the siblings on this node. */
    method MarkEvicted(hash: string)
      modifies `rows
      ensures rows == Marked(old(rows), name, hash)
    {
      for i := 0 to |rows|
        invariant |rows| == |old(rows)|
        invariant forall j | 0 <= j < i :: rows[j] == Marked(old(rows), name, hash)[j]
        invariant forall j | i <= j < |rows| :: rows[j] == old(rows)[j]
      {
        if Sibling(rows[i], hash) && rows[i].node == name {
          rows := rows[i := rows[i].(status := Status.Evicted, error := "content evicted from cache")];
        }
      }
    }

    /**
     What an eviction does to tables and store: the directory cleared, the references dropped, their
     blobs collected. Nothing still referenced loses its blob at any step if the name is harmless;
     when everything succeeds nothing has in the end exactly if the name covers no such blob.
     */
    method ClearAndPurge(hash: string, w: Weather)
      returns (ok: bool, ghost gone: set<string>, ghost trace: seq<Change>)
      modifies `blobs, `refs, `objects
      ensures ok == w.prefixOk
      ensures Harmless(backend, hash) || Hexadecimal(hash) ==>
                Traced(old(Now()), trace, Now()) && (Safe(old(Now())) ==> Safe(Now()))
      ensures !ok || !w.dropOk ==> Now() == Cleared(old(Now()), backend, hash, w.survivors)
      ensures ok && w.dropOk ==>
                && Now() == Collected(RefsDropped(Cleared(old(Now()), backend, hash, w.survivors), hash), gone)
                && gone !! Referenced(RefsDropped(old(Now()), hash)) && forall k | k in gone :: k in w.reported
      ensures ok && w.dropOk && w.survivors == {} && Safe(old(Now())) ==>
                (Safe(Now()) <==>
                  forall k | k in Referenced(RefsDropped(old(Now()), hash)) :: !Covers(backend, hash, k))
    {
      if Hexadecimal(hash) {
        HexIsHarmless(backend, hash);
      }
      gone, trace, ok := {}, [], w.prefixOk;
      TraceNone(Now());
      if Harmless(backend, hash) {
        TraceMore(Now(), trace, Now(), Clear(backend, hash, w.survivors));
      }
      trace := trace + [Clear(backend, hash, w.survivors)];
      DeletePrefix(hash, w.survivors);
      if ok {
        ghost var cleared, steps := Now(), [];
        gone, steps := PurgeBlobs(hash, w);
        if Harmless(backend, hash) {
          TraceJoin(old(Now()), trace, cleared, steps, Now());
        }
        trace := trace + steps;
        if w.dropOk && w.survivors == {} && Safe(old(Now())) {
          EvictingLosesCovered(old(Now()), backend, hash, gone);
        }
      }
      if Harmless(backend, hash) && Safe(old(Now())) {
        TraceIsSafe(old(Now()), trace);
      }
    }

    /** Evicts one download, unless it is seeding. */
    method Evict(hash: string, w: Weather) returns (fate: Fate, ghost gone: set<string>, ghost trace: seq<Change>)
      modifies `blobs, `refs, `objects, `rows
      ensures fate == EvictFate(old(rows), hash, w)
      ensures Harmless(backend, hash) || Hexadecimal(hash) ==>
                Traced(old(Now()), trace, Now()) && (Safe(old(Now())) ==> Safe(Now()))
      ensures fate == StillSeeding ==> Now() == old(Now())
      ensures fate == DeleteFailed || (fate == Reclaimed && !w.dropOk) ==>
                  Now() == Cleared(old(Now()), backend, hash, w.survivors)
      ensures fate == Reclaimed && w.dropOk ==>
                && Now() == Collected(RefsDropped(Cleared(old(Now()), backend, hash, w.survivors), hash), gone)
                && gone !! Referenced(RefsDropped(old(Now()), hash)) && forall k | k in gone :: k in w.reported
      ensures fate == Reclaimed && w.dropOk && w.survivors == {} && Safe(old(Now())) ==>
                (Safe(Now()) <==>
                  forall k | k in Referenced(RefsDropped(old(Now()), hash)) :: !Covers(backend, hash, k))
      ensures rows == if fate == Reclaimed then Marked(old(rows), name, hash) else old(rows)
      ensures fate == StillSeeding <==> SomeoneSeeds(old(rows), hash)
      ensures fate == Reclaimed ==> w.prefixOk && OnlyEvicted(old(rows), rows, name, hash)
    {
      SeedsInFields(rows, hash);
      MarkedInFields(rows, name, hash);
      gone, trace := {}, [];
      TraceNone(Now());
      for i := 0 to |rows|
        invariant forall j | 0 <= j < i :: !Seeds(rows[j], hash)
      {
        if Sibling(rows[i], hash) && rows[i].status == Seeding {
          assert Seeds(rows[i], hash);
          return StillSeeding, gone, trace;
        }
      }
      var ok;
      ok, gone, trace := ClearAndPurge(hash, w);
      if !ok {
        return DeleteFailed, gone, trace;
      }
      MarkEvicted(hash);
      fate := Reclaimed;
    }

    /**
     The administrator's eviction takes whatever name it is given, seeding or not, and deletes the
     complete rows. With `blobs` it is the call that loses every blob still referenced.
     */
    method AdminEvict(hash: string, w: Weather) returns (ok: bool, ghost gone: set<string>, ghost trace: seq<Change>)
      modifies `blobs, `refs, `objects, `rows
      ensures ok == (hash != "" && w.prefixOk)
      ensures hash == "" ==> Now() == old(Now())
      ensures Harmless(backend, hash) || Hexadecimal(hash) ==>
                Traced(old(Now()), trace, Now()) && (Safe(old(Now())) ==> Safe(Now()))
      ensures hash != "" && (!ok || !w.dropOk) ==> Now() == Cleared(old(Now()), backend, hash, w.survivors)
      ensures ok && w.dropOk && w.survivors == {} && Safe(old(Now())) ==>
                (Safe(Now()) <==>
                  forall k | k in Referenced(RefsDropped(old(Now()), hash)) :: !Covers(backend, hash, k))
      ensures ok && w.dropOk && w.survivors == {} && hash == "blobs" && Safe(old(Now())) ==>
                (Safe(Now()) <==> Referenced(RefsDropped(old(Now()), hash)) == {})
      ensures rows == if ok then WithoutCached(old(rows), hash) else old(rows)
    {
      ok, gone, trace := false, {}, [];
      TraceNone(Now());
      if hash == "" {
        return;
      }
      ok, gone, trace := ClearAndPurge(hash, w);
      CleanOfPlain("blobs");
      if ok {
        rows := WithoutCached(rows, hash);
      }
    }

    /** One turn of the budget pass. */
    method TryCandidate(order: seq<Candidate>, i: nat, graceDays: int, w: Weather)
      returns (fate: Fate, ghost trace: seq<Change>)
      requires i < |order|
      modifies `blobs, `refs, `objects, `rows
      ensures fate == CandidateFate(old(rows), order[i], graceDays, w)
      ensures Harmless(backend, order[i].hash) ==> Traced(old(Now()), trace, Now())
      ensures rows == if fate == Reclaimed then Marked(old(rows), name, order[i].hash) else old(rows)
      ensures SameSeeding(old(rows), rows)
    {
      TraceNone(Now());
      trace := [];
      if order[i].daysSinceAccess < graceDays {
        fate := InGrace;
      } else {
        ghost var gone;
        fate, gone, trace := Evict(order[i].hash, w);
      }
      if fate == Reclaimed {
        ReclaimingKeepsSeeding(old(rows), name, order[i].hash, w);
      }
    }

    ghost predicate AllHarmless(order: seq<Candidate>) {
      forall i | 0 <= i < |order| :: Harmless(backend, order[i].hash)
    }

    lemma HexCandidatesAreHarmless(candidates: seq<Candidate>, rows: seq<Job>, node: string)
      requires HexCached(rows, node) && CandidatesOf(candidates, Sizes(rows, node))
      ensures AllHarmless(candidates)
    {
      forall i | 0 <= i < |candidates|
        ensures Harmless(backend, candidates[i].hash)
      {
        HexIsHarmless(backend, candidates[i].hash);
      }
    }

    lemma ReorderingKeepsHarmless(candidates: seq<Candidate>)
      ensures AllHarmless(candidates) ==> AllHarmless(ReclaimOrder(candidates))
    {
      GroupsMembers(candidates);
      var order := ReclaimOrder(candidates);
      forall i | 0 <= i < |order|
        ensures order[i] in candidates
      {
        assert order[i] in multiset(order);
      }
    }

    /** The loop of the budget pass. */
    method TryInOrder(cap: int, graceDays: int, total: int, order: seq<Candidate>, weather: nat -> Weather)
      returns (left: int, fates: seq<Fate>, ghost trace: seq<Change>)
      modifies `blobs, `refs, `objects, `rows
      ensures PassSoFar(old(rows), order, graceDays, weather, total, cap, fates)
      ensures AllHarmless(order) ==> Traced(old(Now()), trace, Now())
      ensures rows == MarkedAll(old(rows), name, order, fates) && left == Remaining(total, order, fates)
      ensures left <= cap || |fates| == |order|
    {
      left, fates, trace := total, [], [];
      TraceNone(Now());
      for i := 0 to |order|
        invariant |fates| == i && SameSeeding(old(rows), rows)
        invariant AllHarmless(order) ==> Traced(old(Now()), trace, Now())
        invariant PassSoFar(old(rows), order, graceDays, weather, total, cap, fates)
        invariant rows == MarkedAll(old(rows), name, order, fates) && left == Remaining(total, order, fates)
      {
        if left <= cap {
          return;
        }
        ghost var before, steps := Now(), [];
        var fate;
        fate, steps := TryCandidate(order, i, graceDays, weather(i));
        if AllHarmless(order) {
          TraceJoin(old(Now()), trace, before, steps, Now());
        }
        trace := trace + steps;
        SameSeedingSameFate(old(rows), rows, order[i].hash, weather(i));
        PassMore(old(rows), order, graceDays, weather, total, cap, fates, fate, name);
        fates := fates + [fate];
        left := if fate == Reclaimed then left - order[i].fileSize else left;
      }
    }

    /**
     The budget pass over what its two queries returned, in reclaim order. It goes on exactly while
     its total is over the cap, and ends within it or with every candidate tried. Over normalized
     rows its total is at the end the one the query would return; if what is cached has hexadecimal
     hashes, or no candidate has a harmful name, no reference that remains loses its blob.
     */
    method BudgetPass(cap: int, graceDays: int, total: int, candidates: seq<Candidate>, weather: nat -> Weather)
      returns (left: int, fates: seq<Fate>, ghost trace: seq<Change>)
      modifies `blobs, `refs, `objects, `rows
      ensures PassSoFar(old(rows), ReclaimOrder(candidates), graceDays, weather, total, cap, fates)
      ensures rows == MarkedAll(old(rows), name, ReclaimOrder(candidates), fates)
      ensures left == Remaining(total, ReclaimOrder(candidates), fates)
      ensures left <= cap || |fates| == |ReclaimOrder(candidates)|
      ensures FatesInFields(old(rows), ReclaimOrder(candidates), graceDays, weather, fates)
      ensures TriedInOrder(candidates, ReclaimOrder(candidates), |fates|)
      ensures total == TotalCached(old(rows), name) && CandidatesOf(candidates, Sizes(old(rows), name))
              && (NoVariants(old(rows), name) || NormalTable(old(rows)) || HexCached(old(rows), name)) ==>
                left == TotalCached(rows, name)
      ensures AllHarmless(candidates)
              || (CandidatesOf(candidates, Sizes(old(rows), name)) && HexCached(old(rows), name)) ==>
                Traced(old(Now()), trace, Now()) && (Safe(old(Now())) ==> Safe(Now()))
    {
      left, fates, trace := total, [], [];
      TraceNone(Now());
      if HexCached(rows, name) {
        HexCachedHasNoVariants(rows, name);
        if CandidatesOf(candidates, Sizes(rows, name)) {
          HexCandidatesAreHarmless(candidates, rows, name);
        }
      }
      if NormalTable(rows) {
        NormalizedTablesHaveNoVariants(rows, name);
      }
      PassInOrder(candidates, 0);
      if left <= cap {
        return;
      }
      ghost var places;
      var order;
      order, places := OrderForReclaim(candidates);
      ReorderingKeepsHarmless(candidates);
      left, fates, trace := TryInOrder(cap, graceDays, total, order, weather);
      PassTotal(old(rows), name, candidates, fates);
      PassInFields(old(rows), order, graceDays, weather, total, cap, fates);
      PassInOrder(candidates, |fates|);
      if AllHarmless(candidates) && Safe(old(Now())) {
        TraceIsSafe(old(Now()), trace);
      }
    }
  }
}
