// How much cached content a node holds, by the query, and what evicting one download takes off it;
// the candidates for eviction and the order in which space is reclaimed.
module CacheBudget {
  import opened Prelude
  import opened Jobs

  predicate Cached(j: Job, node: string) { j.status == Complete && j.node == node }

  /** MAX(file_size) over the complete rows of one hash on the node. */
  function Largest(rows: seq<Job>, node: string, hash: string): Option<int> {
    if rows == [] then None
    else
      var rest, last := Largest(rows[..|rows| - 1], node, hash), rows[|rows| - 1];
      if !Cached(last, node) || last.hash != hash then rest
      else if rest.Some? && rest.value >= last.fileSize then rest
      else Some(last.fileSize)
  }

  /** SELECT MAX(file_size) ... GROUP BY info_hash. */
  function Sizes(rows: seq<Job>, node: string): map<string, int> {
    map i | 0 <= i < |rows| && Cached(rows[i], node) :: rows[i].hash := SizeOf(rows, node, rows[i].hash)
  }

  function SizeOf(rows: seq<Job>, node: string, hash: string): int {
    var size := Largest(rows, node, hash);
    if size.Some? then size.value else 0
  }

  /** The size of a cached hash is that of one of its complete rows on the node, and bounds them all. */
  lemma {:induction false} LargestInFields(rows: seq<Job>, node: string, hash: string)
    ensures hash in Sizes(rows, node) <==>
            exists i :: 0 <= i < |rows| && rows[i].status == Complete && rows[i].node == node && rows[i].hash == hash
    ensures Largest(rows, node, hash).Some? <==> hash in Sizes(rows, node)
    ensures forall i | 0 <= i < |rows| && rows[i].status == Complete && rows[i].node == node && rows[i].hash == hash ::
              rows[i].fileSize <= Sizes(rows, node)[hash]
    ensures hash in Sizes(rows, node) ==>
              exists i :: 0 <= i < |rows| && rows[i].status == Complete && rows[i].node == node && rows[i].hash == hash
                          && rows[i].fileSize == Sizes(rows, node)[hash]
  {
    LargestIsReached(rows, node, hash);
    assert forall i | 0 <= i < |rows| :: Cached(rows[i], node) <==> rows[i].status == Complete && rows[i].node == node;
  }

  lemma {:induction false} LargestIsReached(rows: seq<Job>, node: string, hash: string)
    ensures var size := Largest(rows, node, hash);
            && (forall i | 0 <= i < |rows| && Cached(rows[i], node) && rows[i].hash == hash ::
                  size.Some? && rows[i].fileSize <= size.value)
            && (size.Some? ==>
                  exists i :: 0 <= i < |rows| && Cached(rows[i], node) && rows[i].hash == hash
                              && rows[i].fileSize == size.value)
  {
    if rows != [] {
      var front := rows[..|rows| - 1];
      LargestIsReached(front, node, hash);
      if i :| 0 <= i < |front| && Cached(front[i], node) && front[i].hash == hash
              && Some(front[i].fileSize) == Largest(rows, node, hash) {
        assert rows[i] == front[i];
      }
      assert forall i | 0 <= i < |front| :: front[i] == rows[i];
    }
  }

  ghost function Sum(sizes: map<string, int>): int
    decreases |sizes|
  {
    if sizes == map[] then 0
    else
      var h :| h in sizes;
      assert |sizes - {h}| < |sizes| by { SmallerWithout(sizes, h); }
      sizes[h] + Sum(sizes - {h})
  }

  lemma SmallerWithout(sizes: map<string, int>, h: string)
    requires h in sizes
    ensures |sizes - {h}| < |sizes|
  {
    assert (sizes - {h}).Keys == sizes.Keys - {h};
    assert |(sizes - {h}).Keys| < |sizes.Keys|;
  }

  /** GetTotalCachedSize. */
  ghost function TotalCached(rows: seq<Job>, node: string): int { Sum(Sizes(rows, node)) }

  lemma {:induction false} SumWithout(sizes: map<string, int>, h: string)
    requires h in sizes
    ensures Sum(sizes) == sizes[h] + Sum(sizes - {h})
    decreases |sizes|
  {
    var g :| g in sizes && Sum(sizes) == sizes[g] + Sum(sizes - {g});
    if g != h {
      SmallerWithout(sizes, g);
      SmallerWithout(sizes, h);
      SumWithout(sizes - {g}, h);
      SumWithout(sizes - {h}, g);
      assert sizes - {g} - {h} == sizes - {h} - {g};
    }
  }

  // ---------------------------------------------------------------- evicting

  /** ListByInfoHash folds case. */
  predicate Sibling(j: Job, hash: string) { Lower(j.hash) == Lower(hash) }

  function Evicted(j: Job): Job { j.(status := Status.Evicted, error := "content evicted from cache") }

  /** The table after evict: every sibling on the node, whatever it was doing. */
  function Marked(rows: seq<Job>, node: string, hash: string): seq<Job> {
    seq(|rows|, i requires 0 <= i < |rows| =>
      if Sibling(rows[i], hash) && rows[i].node == node then Evicted(rows[i]) else rows[i])
  }

  lemma {:induction false} LargestAfterMarking(rows: seq<Job>, node: string, hash: string, other: string)
    ensures Largest(Marked(rows, node, hash), node, other) ==
            if Lower(other) == Lower(hash) then None else Largest(rows, node, other)
  {
    if rows != [] {
      var front := rows[..|rows| - 1];
      LargestAfterMarking(front, node, hash, other);
      assert Marked(rows, node, hash)[..|rows| - 1] == Marked(front, node, hash);
    }
  }

  /** The cached hashes that evicting `hash` takes off the node. */
  function TakenOff(rows: seq<Job>, node: string, hash: string): set<string> {
    set h | h in Sizes(rows, node) && Lower(h) == Lower(hash)
  }

  lemma CachedAfterMarking(rows: seq<Job>, node: string, hash: string, i: nat)
    requires i < |rows|
    ensures var after := Marked(rows, node, hash)[i];
            after.hash == rows[i].hash
              && (Cached(after, node) <==> Cached(rows[i], node) && Lower(rows[i].hash) != Lower(hash))
  {
  }

  lemma KeysAfterMarking(rows: seq<Job>, node: string, hash: string, h: string)
    ensures h in Sizes(Marked(rows, node, hash), node) <==> h in Sizes(rows, node) && Lower(h) != Lower(hash)
  {
    var after := Marked(rows, node, hash);
    if h in Sizes(after, node) {
      var i :| 0 <= i < |after| && Cached(after[i], node) && after[i].hash == h;
      CachedAfterMarking(rows, node, hash, i);
    }
    if h in Sizes(rows, node) && Lower(h) != Lower(hash) {
      var i :| 0 <= i < |rows| && Cached(rows[i], node) && rows[i].hash == h;
      CachedAfterMarking(rows, node, hash, i);
      assert after[i].hash == h;
    }
  }

  lemma SizesAreSizeOf(rows: seq<Job>, node: string)
    ensures forall h | h in Sizes(rows, node) :: Sizes(rows, node)[h] == SizeOf(rows, node, h)
  {
  }

  lemma SizesAfterMarking(rows: seq<Job>, node: string, hash: string)
    ensures Sizes(Marked(rows, node, hash), node) == Sizes(rows, node) - TakenOff(rows, node, hash)
  {
    var before, after := Sizes(rows, node), Sizes(Marked(rows, node, hash), node);
    SizesAreSizeOf(rows, node);
    SizesAreSizeOf(Marked(rows, node, hash), node);
    forall h
      ensures h in after <==> h in before && Lower(h) != Lower(hash)
      ensures h in after ==> after[h] == before[h]
    {
      KeysAfterMarking(rows, node, hash, h);
      LargestAfterMarking(rows, node, hash, h);
    }
  }

  /** No two cached hashes of the node that differ only in case. */
  ghost predicate NoVariants(rows: seq<Job>, node: string) {
    forall g, h | g in Sizes(rows, node) && h in Sizes(rows, node) && Lower(g) == Lower(h) :: g == h
  }

  /** Hashes in the normal form of prepareCreate have no case variants. */
  lemma NormalizedTablesHaveNoVariants(rows: seq<Job>, node: string)
    requires forall i | 0 <= i < |rows| :: Normalized(rows[i].hash)
    ensures NoVariants(rows, node)
  {
    forall h | h in Sizes(rows, node)
      ensures Lower(h) == h
    {
      var i :| 0 <= i < |rows| && Cached(rows[i], node) && rows[i].hash == h;
      assert Normalized(rows[i].hash);
    }
  }

  /** What evicting takes off the recomputed total is the size budgetPass subtracts. */
  lemma EvictionAccounting(rows: seq<Job>, node: string, hash: string)
    requires NoVariants(rows, node) && hash in Sizes(rows, node)
    ensures TotalCached(Marked(rows, node, hash), node) == TotalCached(rows, node) - Sizes(rows, node)[hash]
    ensures NoVariants(Marked(rows, node, hash), node)
    ensures Sizes(Marked(rows, node, hash), node) == Sizes(rows, node) - {hash}
  {
    SizesAfterMarking(rows, node, hash);
    assert TakenOff(rows, node, hash) == {hash};
    SumWithout(Sizes(rows, node), hash);
  }

  lemma {:induction false} SumSplits(sizes: map<string, int>, part: set<string>)
    requires part <= sizes.Keys
    ensures Sum(sizes) == Sum(sizes - part) + Sum(sizes - (sizes.Keys - part))
    decreases |part|
  {
    if part == {} {
      assert sizes - part == sizes && sizes - (sizes.Keys - part) == map[];
    } else {
      var h :| h in part;
      SumWithout(sizes, h);
      SumSplits(sizes - {h}, part - {h});
      var kept := sizes - (sizes.Keys - part);
      SumWithout(kept, h);
      assert sizes - {h} - (part - {h}) == sizes - part;
      assert (sizes - {h}) - ((sizes - {h}).Keys - (part - {h})) == kept - {h};
    }
  }

  lemma {:induction false} SumOfNone(sizes: map<string, int>)
    requires forall h | h in sizes :: sizes[h] >= 0
    ensures Sum(sizes) >= 0 && (Sum(sizes) == 0 <==> forall h | h in sizes :: sizes[h] == 0)
    decreases |sizes|
  {
    if sizes != map[] {
      var h :| h in sizes && Sum(sizes) == sizes[h] + Sum(sizes - {h});
      SmallerWithout(sizes, h);
      SumOfNone(sizes - {h});
      forall g | g in sizes && g != h
        ensures g in sizes - {h} && sizes[g] == (sizes - {h})[g]
      {
      }
    }
  }

  /**
   In general the subtraction is exact if and only if the cached case variants of the hash weigh
   nothing; otherwise the pass believes it has more left than it has.
   */
  lemma AccountingIsExactWithoutVariants(rows: seq<Job>, node: string, hash: string)
    requires hash in Sizes(rows, node) && forall h | h in Sizes(rows, node) :: Sizes(rows, node)[h] >= 0
    ensures var left := TotalCached(rows, node) - Sizes(rows, node)[hash];
            var total := TotalCached(Marked(rows, node, hash), node);
            && total <= left
            && (total == left <==>
                  forall h | h in Sizes(rows, node) && Lower(h) == Lower(hash) && h != hash ::
                    Sizes(rows, node)[h] == 0)
  {
    var sizes, taken := Sizes(rows, node), TakenOff(rows, node, hash);
    SizesAfterMarking(rows, node, hash);
    SumSplits(sizes, taken);
    var kept := sizes - (sizes.Keys - taken);
    SumWithout(kept, hash);
    SumOfNone(kept - {hash});
    forall h | h in sizes && Lower(h) == Lower(hash) && h != hash
      ensures h in kept - {hash} && (kept - {hash})[h] == sizes[h]
    {
      assert h in taken;
    }
  }

  // ---------------------------------------------------------------- candidates

  datatype Candidate = Candidate(hash: string, fileSize: int, accessCount: int, daysSinceAccess: int, prewarm: bool)

  /** Rows of GetEvictionCandidates: some of the node's cached downloads, each once, with its size. */
  ghost predicate CandidatesOf(candidates: seq<Candidate>, sizes: map<string, int>) {
    && (forall i | 0 <= i < |candidates| ::
          candidates[i].hash in sizes && candidates[i].fileSize == sizes[candidates[i].hash])
    && (forall i, j | 0 <= i < j < |candidates| :: candidates[i].hash != candidates[j].hash)
  }

  lemma {:induction false} EachOnce(candidates: seq<Candidate>, sizes: map<string, int>, c: Candidate)
    requires CandidatesOf(candidates, sizes)
    ensures multiset(candidates)[c] <= 1
  {
    if candidates != [] {
      var last := |candidates| - 1;
      EachOnce(candidates[..last], sizes, c);
      assert candidates == candidates[..last] + [candidates[last]];
      if candidates[last] == c {
        assert c !in multiset(candidates[..last]);
      }
    }
  }

  lemma TwiceCounted(candidates: seq<Candidate>, i: nat, j: nat)
    requires i < j < |candidates| && candidates[i] == candidates[j]
    ensures multiset(candidates)[candidates[i]] >= 2
  {
    assert candidates == candidates[..j] + [candidates[j]] + candidates[j + 1..];
    assert candidates[i] in multiset(candidates[..j]);
  }

  lemma PermutedCandidates(a: seq<Candidate>, b: seq<Candidate>, sizes: map<string, int>)
    requires CandidatesOf(a, sizes) && multiset(a) == multiset(b)
    ensures CandidatesOf(b, sizes)
  {
    forall i | 0 <= i < |b|
      ensures b[i] in a
    {
      assert b[i] in multiset(b);
    }
    forall i, j | 0 <= i < j < |b|
      ensures b[i].hash != b[j].hash
    {
      if b[i].hash == b[j].hash {
        assert b[i] in a && b[j] in a;
        assert b[i] == b[j];
        EachOnce(a, sizes, b[i]);
        TwiceCounted(b, i, j);
      }
    }
  }

  lemma CandidatesAfterFirst(candidates: seq<Candidate>, sizes: map<string, int>)
    requires CandidatesOf(candidates, sizes) && candidates != []
    ensures CandidatesOf(candidates[1..], sizes) && CandidatesOf(candidates[1..], sizes - {candidates[0].hash})
  {
    forall i | 0 <= i < |candidates| - 1
      ensures candidates[1..][i].hash != candidates[0].hash
    {
      assert candidates[i + 1].hash != candidates[0].hash;
    }
  }

  const LARGE_FILE := 50_000_000_000

  datatype Group = ColdPrewarm | Small | Large

  /** Unwatched prewarmed content first, large files last. */
  function GroupOf(c: Candidate): Group {
    if c.prewarm && c.accessCount == 0 then ColdPrewarm else if c.fileSize > LARGE_FILE then Large else Small
  }

  function Of(candidates: seq<Candidate>, g: Group): seq<Candidate> {
    if candidates == [] then []
    else
      var last := candidates[|candidates| - 1];
      Of(candidates[..|candidates| - 1], g) + (if GroupOf(last) == g then [last] else [])
  }

  function ReclaimOrder(candidates: seq<Candidate>): seq<Candidate> {
    Of(candidates, ColdPrewarm) + Of(candidates, Small) + Of(candidates, Large)
  }

  method OrderForReclaim(candidates: seq<Candidate>) returns (ordered: seq<Candidate>, ghost places: seq<nat>)
    ensures ordered == ReclaimOrder(candidates)
    ensures InReclaimOrder(candidates, ordered, places)
  {
    var coldPrewarm, small, large := [], [], [];
    for i := 0 to |candidates|
      invariant coldPrewarm == Of(candidates[..i], ColdPrewarm)
      invariant small == Of(candidates[..i], Small)
      invariant large == Of(candidates[..i], Large)
    {
      var c := candidates[i];
      assert candidates[..i + 1][..i] == candidates[..i];
      if c.prewarm && c.accessCount == 0 {
        coldPrewarm := coldPrewarm + [c];
      } else if c.fileSize > LARGE_FILE {
        large := large + [c];
      } else {
        small := small + [c];
      }
    }
    assert candidates[..|candidates|] == candidates;
    ordered := coldPrewarm + small + large;
    places := ReclaimOrderInFields(candidates);
  }

  lemma {:induction false} EachInItsGroup(candidates: seq<Candidate>, c: Candidate, g: Group)
    ensures multiset(Of(candidates, g))[c] == if GroupOf(c) == g then multiset(candidates)[c] else 0
  {
    if candidates != [] {
      var front := candidates[..|candidates| - 1];
      EachInItsGroup(front, c, g);
      assert candidates == front + [candidates[|candidates| - 1]];
    }
  }

  lemma GroupsMembers(candidates: seq<Candidate>)
    ensures multiset(ReclaimOrder(candidates)) == multiset(candidates)
  {
    forall c
      ensures multiset(ReclaimOrder(candidates))[c] == multiset(candidates)[c]
    {
      EachInItsGroup(candidates, c, ColdPrewarm);
      EachInItsGroup(candidates, c, Small);
      EachInItsGroup(candidates, c, Large);
    }
  }

  lemma {:induction false} OfIsPure(candidates: seq<Candidate>, g: Group)
    ensures forall i | 0 <= i < |Of(candidates, g)| :: GroupOf(Of(candidates, g)[i]) == g
  {
    if candidates != [] {
      OfIsPure(candidates[..|candidates| - 1], g);
    }
  }

  lemma {:induction false} OfConcat(a: seq<Candidate>, b: seq<Candidate>, g: Group)
    ensures Of(a + b, g) == Of(a, g) + Of(b, g)
  {
    if b == [] {
      assert a + b == a;
    } else {
      OfConcat(a, b[..|b| - 1], g);
      assert (a + b)[..|a + b| - 1] == a + b[..|b| - 1];
    }
  }

  lemma {:induction false} OfPure(s: seq<Candidate>, h: Group, g: Group)
    requires forall i | 0 <= i < |s| :: GroupOf(s[i]) == h
    ensures Of(s, g) == if g == h then s else []
  {
    if s != [] {
      var front, last := s[..|s| - 1], s[|s| - 1];
      assert GroupOf(last) == h && forall i | 0 <= i < |front| :: front[i] == s[i];
      OfPure(front, h, g);
      assert s == front + [last];
    }
  }

  // The order in the candidates' own fields.

  /** Prewarmed, and never accessed since. */
  predicate Cold(c: Candidate) { c.prewarm && c.accessCount == 0 }

  /** Alike for the order: both cold, or neither, and then both above 50 GB or neither. */
  predicate Alike(c: Candidate, d: Candidate) {
    (Cold(c) <==> Cold(d)) && (Cold(c) || (c.fileSize > 50_000_000_000 <==> d.fileSize > 50_000_000_000))
  }

  /** These are the candidates at increasing places of the query's result. */
  ghost predicate Picked(candidates: seq<Candidate>, i: nat, group: seq<Candidate>, places: seq<nat>) {
    && |places| == |group|
    && (forall k | 0 <= k < |group| :: places[k] < i <= |candidates| && group[k] == candidates[places[k]])
    && (forall k, l | 0 <= k < l < |group| :: places[k] < places[l])
  }

  /**
   The candidates as they are reclaimed, and where the query had them: cold prewarmed ones first, then
   those of up to 50 GB, then the larger ones, and alike ones in the query's order.
   */
  ghost predicate InReclaimOrder(candidates: seq<Candidate>, ordered: seq<Candidate>, places: seq<nat>) {
    && |ordered| == |places| == |candidates|
    && (forall k | 0 <= k < |ordered| :: places[k] < |candidates| && ordered[k] == candidates[places[k]])
    && (forall k, l | 0 <= k < l < |ordered| ::
          && places[k] != places[l]
          && (Cold(ordered[l]) ==> Cold(ordered[k]))
          && (!Cold(ordered[k]) && ordered[k].fileSize > 50_000_000_000 ==> ordered[l].fileSize > 50_000_000_000)
          && (Alike(ordered[k], ordered[l]) ==> places[k] < places[l]))
  }

  lemma JoinedInOrder(candidates: seq<Candidate>, cold: seq<Candidate>, small: seq<Candidate>, large: seq<Candidate>,
                      c: seq<nat>, s: seq<nat>, l: seq<nat>)
    requires Picked(candidates, |candidates|, cold, c) && Picked(candidates, |candidates|, small, s)
    requires Picked(candidates, |candidates|, large, l) && |cold| + |small| + |large| == |candidates|
    requires forall k | 0 <= k < |cold| :: Cold(cold[k])
    requires forall k | 0 <= k < |small| :: !Cold(small[k]) && small[k].fileSize <= 50_000_000_000
    requires forall k | 0 <= k < |large| :: !Cold(large[k]) && large[k].fileSize > 50_000_000_000
    ensures InReclaimOrder(candidates, cold + small + large, c + s + l)
  {
  }

  lemma {:induction false} OfPicks(candidates: seq<Candidate>, g: Group) returns (places: seq<nat>)
    ensures Picked(candidates, |candidates|, Of(candidates, g), places)
  {
    places := [];
    if candidates != [] {
      var i := |candidates| - 1;
      places := OfPicks(candidates[..i], g);
      if GroupOf(candidates[i]) == g {
        places := places + [i];
      }
    }
  }

  lemma ReclaimOrderInFields(candidates: seq<Candidate>) returns (places: seq<nat>)
    ensures InReclaimOrder(candidates, ReclaimOrder(candidates), places)
  {
    var c := OfPicks(candidates, ColdPrewarm);
    var s := OfPicks(candidates, Small);
    var l := OfPicks(candidates, Large);
    places := c + s + l;
    OfIsPure(candidates, ColdPrewarm);
    OfIsPure(candidates, Small);
    OfIsPure(candidates, Large);
    GroupsMembers(candidates);
    assert |multiset(ReclaimOrder(candidates))| == |multiset(candidates)|;
    JoinedInOrder(candidates, Of(candidates, ColdPrewarm), Of(candidates, Small), Of(candidates, Large), c, s, l);
  }

  function Rank(g: Group): nat {
    match g case ColdPrewarm => 0 case Small => 1 case Large => 2
  }

  ghost predicate Grouped(order: seq<Candidate>) {
    forall i, j | 0 <= i < j < |order| :: Rank(GroupOf(order[i])) <= Rank(GroupOf(order[j]))
  }

  lemma GroupedConcat(a: seq<Candidate>, b: seq<Candidate>, rank: nat)
    requires Grouped(a) && Grouped(b)
    requires forall i | 0 <= i < |a| :: Rank(GroupOf(a[i])) <= rank
    requires forall i | 0 <= i < |b| :: Rank(GroupOf(b[i])) >= rank
    ensures Grouped(a + b)
  {
  }

  lemma ReclaimOrderIsGrouped(candidates: seq<Candidate>)
    ensures Grouped(ReclaimOrder(candidates))
  {
    OfIsPure(candidates, ColdPrewarm);
    OfIsPure(candidates, Small);
    OfIsPure(candidates, Large);
    GroupedConcat(Of(candidates, ColdPrewarm), Of(candidates, Small), 1);
    GroupedConcat(Of(candidates, ColdPrewarm) + Of(candidates, Small), Of(candidates, Large), 1);
  }

  lemma OfGroup(candidates: seq<Candidate>, h: Group, g: Group)
    ensures Of(Of(candidates, h), g) == if g == h then Of(candidates, h) else []
  {
    OfIsPure(candidates, h);
    OfPure(Of(candidates, h), h, g);
  }

  lemma OfReclaimOrder(candidates: seq<Candidate>, g: Group)
    ensures Of(ReclaimOrder(candidates), g) ==
            Of(Of(candidates, ColdPrewarm), g) + Of(Of(candidates, Small), g) + Of(Of(candidates, Large), g)
  {
    OfConcat(Of(candidates, ColdPrewarm) + Of(candidates, Small), Of(candidates, Large), g);
    OfConcat(Of(candidates, ColdPrewarm), Of(candidates, Small), g);
  }

  lemma ReclaimOrderKeepsRanks(candidates: seq<Candidate>, g: Group)
    ensures Of(ReclaimOrder(candidates), g) == Of(candidates, g)
  {
    OfReclaimOrder(candidates, g);
    OfGroup(candidates, ColdPrewarm, g);
    OfGroup(candidates, Small, g);
    OfGroup(candidates, Large, g);
  }

  /**
   The reclaim order is a stable permutation of the candidates: by group, and within a group
   as the query ranked them.
   */
  lemma ReclaimOrderIsStable(candidates: seq<Candidate>, g: Group)
    ensures multiset(ReclaimOrder(candidates)) == multiset(candidates)
    ensures Grouped(ReclaimOrder(candidates)) && Of(ReclaimOrder(candidates), g) == Of(candidates, g)
  {
    GroupsMembers(candidates);
    ReclaimOrderIsGrouped(candidates);
    ReclaimOrderKeepsRanks(candidates, g);
  }
}
