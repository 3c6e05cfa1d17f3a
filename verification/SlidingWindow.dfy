// The attempt limiters of the login and redeem handlers: recent hits per key, compacted in place.
module SlidingWindow {
  /** The hits after the cutoff, in order. */
  function Kept(hits: seq<int>, cutoff: int): seq<int> {
    if hits == [] then []
    else Kept(hits[..|hits| - 1], cutoff) + (if hits[|hits| - 1] > cutoff then [hits[|hits| - 1]] else [])
  }

  /** kept := hits[:0], then append while ranging: writes never pass the read position. */
  method Compact(hits: array<int>, cutoff: int) returns (n: nat)
    modifies hits
    ensures n <= hits.Length && hits[..n] == Kept(old(hits[..]), cutoff)
  {
    n := 0;
    for i := 0 to hits.Length
      invariant n <= i
      invariant hits[..n] == Kept(old(hits[..])[..i], cutoff)
      invariant hits[i..] == old(hits[..])[i..]
    {
      ghost var before := hits[..n];
      var t := hits[i];
      assert t == old(hits[..])[i] && old(hits[..])[..i + 1][..i] == old(hits[..])[..i];
      if t > cutoff {
        hits[n] := t;
        n := n + 1;
        assert hits[..n] == before + [t];
      }
    }
    assert old(hits[..])[..hits.Length] == old(hits[..]);
  }

  /** One call: `now` sets the cutoff, `stamp` is the later clock reading that is stored. */
  datatype Attempt = Attempt(key: string, now: int, stamp: int)

  /** The table, and, for the proofs, every stamp it ever let through. */
  datatype Limiter = Limiter(hits: map<string, seq<int>>, allowed: map<string, seq<int>>)

  function At(m: map<string, seq<int>>, key: string): seq<int> { if key in m then m[key] else [] }

  function Recent(l: Limiter, window: int, a: Attempt): seq<int> { Kept(At(l.hits, a.key), a.now - window) }

  predicate Allows(l: Limiter, max: int, window: int, a: Attempt) { |Recent(l, window, a)| < max }

  function AfterAttempt(l: Limiter, max: int, window: int, a: Attempt): Limiter {
    var kept := Recent(l, window, a);
    if |kept| >= max then l.(hits := l.hits[a.key := kept])
    else Limiter(l.hits[a.key := kept + [a.stamp]], l.allowed[a.key := At(l.allowed, a.key) + [a.stamp]])
  }

  function After(max: int, window: int, attempts: seq<Attempt>): Limiter {
    if attempts == [] then Limiter(map[], map[])
    else AfterAttempt(After(max, window, attempts[..|attempts| - 1]), max, window, attempts[|attempts| - 1])
  }

  /** The clock of a run never goes back. */
  predicate ClockRuns(attempts: seq<Attempt>) {
    && (forall i | 0 <= i < |attempts| :: attempts[i].now <= attempts[i].stamp)
    && (forall i | 0 <= i < |attempts| - 1 :: attempts[i].stamp <= attempts[i + 1].now)
  }

  /** No attempt was stamped after this time. */
  predicate Until(attempts: seq<Attempt>, time: int) { attempts != [] ==> attempts[|attempts| - 1].stamp <= time }

  // ---------------------------------------------------------------- invariant

  ghost predicate Sorted(s: seq<int>) {
    forall i, j | 0 <= i <= j < |s| :: s[i] <= s[j]
  }

  /** Of every max + 1 attempts in a row that were let through, the last is a window after the first. */
  ghost predicate Spaced(s: seq<int>, max: int, window: int) {
    && (max <= 0 ==> s == [])
    && (forall i, j | 0 <= i < j < |s| && i + max <= j :: s[i] + window <= s[j])
  }

  ghost predicate TailFrom(hits: seq<int>, allowed: seq<int>, horizon: int, n: nat) {
    n <= |allowed| && hits == allowed[n..] && forall i | 0 <= i < n :: allowed[i] <= horizon
  }

  /** The hits are a tail of the allowed stamps, and what was dropped is past the window. */
  ghost predicate TailOf(hits: seq<int>, allowed: seq<int>, horizon: int) {
    exists n: nat :: TailFrom(hits, allowed, horizon, n)
  }

  ghost predicate KeyOk(hits: seq<int>, allowed: seq<int>, max: int, window: int, time: int) {
    Sorted(allowed) && (forall i | 0 <= i < |allowed| :: allowed[i] <= time)
    && Spaced(allowed, max, window) && TailOf(hits, allowed, time - window)
  }

  ghost predicate KeyInv(l: Limiter, key: string, max: int, window: int, time: int) {
    KeyOk(At(l.hits, key), At(l.allowed, key), max, window, time)
  }

  /** Everything before m is at or before the cutoff, everything from m on is after it. */
  ghost predicate Splits(s: seq<int>, cutoff: int, m: nat) {
    m <= |s| && (forall i | 0 <= i < m :: s[i] <= cutoff) && forall i | m <= i < |s| :: s[i] > cutoff
  }

  lemma {:induction false} SplitPoint(s: seq<int>, cutoff: int) returns (m: nat)
    requires Sorted(s)
    ensures Splits(s, cutoff, m)
  {
    m := 0;
    while m < |s| && s[m] <= cutoff
      invariant m <= |s| && forall i | 0 <= i < m :: s[i] <= cutoff
    {
      m := m + 1;
    }
  }

  lemma {:induction false} KeptIsTail(s: seq<int>, cutoff: int, m: nat)
    requires Splits(s, cutoff, m)
    ensures Kept(s, cutoff) == s[m..]
  {
    if s != [] {
      var k := |s| - 1;
      if m <= k {
        KeptIsTail(s[..k], cutoff, m);
        assert s[m..] == s[..k][m..] + [s[k]];
      } else {
        KeptIsTail(s[..k], cutoff, k);
      }
    }
  }

  lemma SplitsTail(allowed: seq<int>, cutoff: int, n: nat, m: nat)
    requires Splits(allowed, cutoff, m) && n <= m
    ensures Splits(allowed[n..], cutoff, m - n) && allowed[n..][m - n..] == allowed[m..]
  {
  }

  lemma DroppedBeforeSplit(allowed: seq<int>, horizon: int, cutoff: int, n: nat, m: nat)
    requires Splits(allowed, cutoff, m) && n <= |allowed| && horizon <= cutoff
    requires forall i | 0 <= i < n :: allowed[i] <= horizon
    ensures n <= m
  {
    assert m < |allowed| ==> allowed[m] > cutoff;
  }

  lemma TailLater(hits: seq<int>, allowed: seq<int>, horizon: int, later: int)
    requires TailOf(hits, allowed, horizon) && horizon <= later
    ensures TailOf(hits, allowed, later)
  {
    var n: nat :| TailFrom(hits, allowed, horizon, n);
    assert TailFrom(hits, allowed, later, n);
  }

  /** The compacted list holds exactly the allowed stamps inside the window. */
  lemma RecentIsComplete(hits: seq<int>, allowed: seq<int>, horizon: int, cutoff: int, m: nat)
    requires TailOf(hits, allowed, horizon) && horizon <= cutoff && Splits(allowed, cutoff, m)
    ensures Kept(hits, cutoff) == allowed[m..] == Kept(allowed, cutoff)
  {
    var n: nat :| TailFrom(hits, allowed, horizon, n);
    DroppedBeforeSplit(allowed, horizon, cutoff, n, m);
    SplitsTail(allowed, cutoff, n, m);
    KeptIsTail(allowed[n..], cutoff, m - n);
    KeptIsTail(allowed, cutoff, m);
  }

  lemma AppendKeepsSpacing(allowed: seq<int>, max: int, window: int, m: nat, now: int, stamp: int)
    requires Sorted(allowed) && Spaced(allowed, max, window) && Splits(allowed, now - window, m)
    requires (forall i | 0 <= i < |allowed| :: allowed[i] <= stamp) && now <= stamp && |allowed| - m < max
    ensures Sorted(allowed + [stamp]) && Spaced(allowed + [stamp], max, window)
  {
  }

  lemma TailAppends(allowed: seq<int>, cutoff: int, m: nat, stamp: int, horizon: int)
    requires Splits(allowed, cutoff, m) && cutoff <= horizon
    ensures TailOf(allowed[m..], allowed, horizon) && TailOf(allowed[m..] + [stamp], allowed + [stamp], horizon)
  {
    assert TailFrom(allowed[m..], allowed, horizon, m);
    assert TailFrom(allowed[m..] + [stamp], allowed + [stamp], horizon, m);
  }

  lemma RecentOfKey(hits: seq<int>, allowed: seq<int>, max: int, window: int, now: int) returns (m: nat)
    requires KeyOk(hits, allowed, max, window, now)
    ensures Splits(allowed, now - window, m) && Kept(hits, now - window) == allowed[m..] == Kept(allowed, now - window)
  {
    m := SplitPoint(allowed, now - window);
    RecentIsComplete(hits, allowed, now - window, now - window, m);
  }

  lemma KeyStep(hits: seq<int>, allowed: seq<int>, max: int, window: int, now: int, stamp: int, later: int)
    requires KeyOk(hits, allowed, max, window, now) && now <= stamp <= later
    ensures var kept := Kept(hits, now - window);
            && KeyOk(kept, allowed, max, window, later)
            && (|kept| < max ==> KeyOk(kept + [stamp], allowed + [stamp], max, window, later))
  {
    var m := RecentOfKey(hits, allowed, max, window, now);
    TailAppends(allowed, now - window, m, stamp, later - window);
    if |allowed| - m < max {
      AppendStaysOk(allowed, max, window, m, now, stamp, later);
    }
  }

  lemma AppendStaysOk(allowed: seq<int>, max: int, window: int, m: nat, now: int, stamp: int, later: int)
    requires Sorted(allowed) && Spaced(allowed, max, window) && Splits(allowed, now - window, m)
    requires (forall i | 0 <= i < |allowed| :: allowed[i] <= now) && now <= stamp <= later && |allowed| - m < max
    ensures KeyOk(allowed[m..] + [stamp], allowed + [stamp], max, window, later)
  {
    AppendKeepsSpacing(allowed, max, window, m, now, stamp);
    TailAppends(allowed, now - window, m, stamp, later - window);
  }

  lemma AllowKeepsOwnKey(l: Limiter, max: int, window: int, a: Attempt, later: int)
    requires KeyInv(l, a.key, max, window, a.now) && a.now <= a.stamp <= later
    ensures KeyInv(AfterAttempt(l, max, window, a), a.key, max, window, later)
  {
    KeyStep(At(l.hits, a.key), At(l.allowed, a.key), max, window, a.now, a.stamp, later);
    AttemptOnKey(l, max, window, a);
  }

  lemma AttemptOnKey(l: Limiter, max: int, window: int, a: Attempt)
    ensures var l', kept := AfterAttempt(l, max, window, a), Recent(l, window, a);
            && At(l'.hits, a.key) == (if |kept| < max then kept + [a.stamp] else kept)
            && At(l'.allowed, a.key) == At(l.allowed, a.key) + (if |kept| < max then [a.stamp] else [])
  {
  }

  lemma AllowKeepsOtherKeys(l: Limiter, max: int, window: int, a: Attempt, later: int, key: string)
    requires KeyInv(l, key, max, window, a.now) && a.now <= later && key != a.key
    ensures KeyInv(AfterAttempt(l, max, window, a), key, max, window, later)
  {
    TailLater(At(l.hits, key), At(l.allowed, key), a.now - window, later - window);
  }

  lemma {:induction false} RunKeeps(max: int, window: int, attempts: seq<Attempt>, key: string, time: int)
    requires ClockRuns(attempts) && Until(attempts, time)
    ensures KeyInv(After(max, window, attempts), key, max, window, time)
  {
    if attempts == [] {
      assert TailFrom([], [], time - window, 0);
    } else {
      var n := |attempts| - 1;
      var a, l := attempts[n], After(max, window, attempts[..n]);
      RunKeeps(max, window, attempts[..n], key, a.now);
      if key == a.key {
        AllowKeepsOwnKey(l, max, window, a, time);
      } else {
        AllowKeepsOtherKeys(l, max, window, a, time, key);
      }
    }
  }

  // ---------------------------------------------------------------- results

  /** Positions of the let-through attempts of a key after `from` and up to `to`. */
  function Within(s: seq<int>, from: int, to: int): set<nat> {
    set i: nat | i < |s| && from < s[i] <= to
  }

  lemma {:induction false} SpanIsShort(s: set<nat>, low: nat, count: nat)
    requires forall i | i in s :: low <= i < low + count
    ensures |s| <= count
  {
    if count == 0 {
      assert s == {};
    } else {
      var last := low + count - 1;
      SpanIsShort(s - {last}, low, count - 1);
      if last !in s {
        assert s - {last} == s;
      }
    }
  }

  lemma SpacingBoundsWindow(s: seq<int>, max: int, window: int, from: int)
    requires Sorted(s) && Spaced(s, max, window) && max >= 0
    ensures |Within(s, from, from + window)| <= max
  {
    var first := SplitPoint(s, from);
    var inside := Within(s, from, from + window);
    if first < |s| {
      forall i | i in inside
        ensures first <= i < first + max
      {
        assert s[first] > from;
      }
      SpanIsShort(inside, first, max);
    } else {
      assert inside == {};
    }
  }

  /** No window of the configured length contains more than max let-through attempts of one key. */
  lemma WindowsHold(max: int, window: int, attempts: seq<Attempt>, key: string, from: int)
    requires max >= 0 && ClockRuns(attempts)
    ensures |Within(At(After(max, window, attempts).allowed, key), from, from + window)| <= max
  {
    RunKeeps(max, window, attempts, key, if attempts == [] then 0 else attempts[|attempts| - 1].stamp);
    SpacingBoundsWindow(At(After(max, window, attempts).allowed, key), max, window, from);
  }

  // ---------------------------------------------------------------- windows closed at both ends

  function WithinClosed(s: seq<int>, from: int, to: int): set<nat> {
    set i: nat | i < |s| && from <= s[i] <= to
  }

  /** The first position at or after a time. */
  ghost predicate FirstFrom(s: seq<int>, from: int, i: nat) {
    i <= |s| && (forall k | 0 <= k < i :: s[k] < from) && forall k | i <= k < |s| :: s[k] >= from
  }

  function Span(low: nat, count: nat): set<nat> {
    if count == 0 then {} else Span(low, count - 1) + {low + count - 1}
  }

  lemma {:induction false} SpanHolds(low: nat, count: nat)
    ensures |Span(low, count)| == count && forall i: nat :: i in Span(low, count) <==> low <= i < low + count
  {
    if count > 0 {
      SpanHolds(low, count - 1);
    }
  }

  lemma LaterThan(s: seq<int>, cutoff: int, m: nat)
    requires Splits(s, cutoff, m)
    ensures |set i: nat | i < |s| && s[i] > cutoff| == |s| - m
  {
    SpanHolds(m, |s| - m);
    assert (set i: nat | i < |s| && s[i] > cutoff) == Span(m, |s| - m);
  }

  lemma DecisionCounts(l: Limiter, max: int, window: int, a: Attempt)
    requires KeyInv(l, a.key, max, window, a.now)
    ensures var s := At(l.allowed, a.key);
            Allows(l, max, window, a) <==> |set i: nat | i < |s| && s[i] > a.now - window| < max
  {
    var m := RecentOfKey(At(l.hits, a.key), At(l.allowed, a.key), max, window, a.now);
    LaterThan(At(l.allowed, a.key), a.now - window, m);
  }

  /**
   An attempt is let through exactly when fewer than max let-through attempts of its key lie in the window
   before it, and then, and only then, it counts among them.
   */
  lemma DecisionIsExact(max: int, window: int, attempts: seq<Attempt>, a: Attempt)
    requires ClockRuns(attempts) && Until(attempts, a.now)
    ensures var l, l' := After(max, window, attempts), After(max, window, attempts + [a]);
            var s := At(l.allowed, a.key);
            && (Allows(l, max, window, a) <==> |set i: nat | i < |s| && s[i] > a.now - window| < max)
            && At(l'.allowed, a.key) == s + (if Allows(l, max, window, a) then [a.stamp] else [])
            && forall key | key != a.key :: At(l'.allowed, key) == At(l.allowed, key)
  {
    RunKeeps(max, window, attempts, a.key, a.now);
    DecisionCounts(After(max, window, attempts), max, window, a);
    AfterMore(max, window, attempts, a);
    AttemptOnKey(After(max, window, attempts), max, window, a);
  }

  lemma AfterMore(max: int, window: int, attempts: seq<Attempt>, a: Attempt)
    ensures After(max, window, attempts + [a]) == AfterAttempt(After(max, window, attempts), max, window, a)
  {
    assert (attempts + [a])[..|attempts|] == attempts;
  }

  lemma SpanIsLong(s: set<nat>, low: nat, count: nat)
    requires forall i | low <= i < low + count :: i in s
    ensures |s| >= count
  {
    SpanHolds(low, count);
    assert s == Span(low, count) + (s - Span(low, count));
  }

  lemma ClosedSpan(s: seq<int>, window: int, from: int, i: nat, count: nat)
    requires Sorted(s) && FirstFrom(s, from, i)
    requires i + count < |s| ==> s[i + count] > from + window
    ensures |WithinClosed(s, from, from + window)| <= count
  {
    var inside := WithinClosed(s, from, from + window);
    forall k | k in inside
      ensures i <= k < i + count
    {
      assert s[k] >= from;
    }
    SpanIsShort(inside, i, count);
  }

  lemma SpacingBoundsClosedWindow(s: seq<int>, max: int, window: int, from: int, i: nat)
    requires Sorted(s) && Spaced(s, max, window) && max >= 0 && window > 0 && FirstFrom(s, from, i)
    ensures |WithinClosed(s, from, from + window)| <= 2 * max
    ensures |WithinClosed(s, from, from + window)| > max <==>
            i + max < |s| && s[i] == from && s[i + max] == from + window
  {
    if max > 0 {
      if i + 2 * max < |s| {
        assert s[i] + window <= s[i + max] && s[i + max] + window <= s[i + 2 * max];
      }
      ClosedSpan(s, window, from, i, 2 * max);
      if i + max < |s| {
        assert s[i] + window <= s[i + max];
        if s[i + max] == from + window {
          SpanIsLong(WithinClosed(s, from, from + window), i, max + 1);
        } else {
          ClosedSpan(s, window, from, i, max);
        }
      } else {
        ClosedSpan(s, window, from, i, max);
      }
    }
  }

  /**
   A window closed at both ends holds at most twice max, and more than max exactly when a let-through
   attempt lies on its start and the one max positions later on its end.
   */
  lemma ClosedWindowsHoldTwice(max: int, window: int, attempts: seq<Attempt>, key: string, from: int, i: nat)
    requires max >= 0 && window > 0 && ClockRuns(attempts)
    requires FirstFrom(At(After(max, window, attempts).allowed, key), from, i)
    ensures var s := At(After(max, window, attempts).allowed, key);
            && |WithinClosed(s, from, from + window)| <= 2 * max
            && (|WithinClosed(s, from, from + window)| > max <==>
                  i + max < |s| && s[i] == from && s[i + max] == from + window)
  {
    RunKeeps(max, window, attempts, key, if attempts == [] then 0 else attempts[|attempts| - 1].stamp);
    SpacingBoundsClosedWindow(At(After(max, window, attempts).allowed, key), max, window, from, i);
  }

  function Burst(key: string, time: int, n: nat): (s: seq<Attempt>)
    ensures |s| == n && forall i | 0 <= i < n :: s[i] == Attempt(key, time, time)
  {
    if n == 0 then [] else Burst(key, time, n - 1) + [Attempt(key, time, time)]
  }

  function Repeated(time: int, n: nat): (s: seq<int>)
    ensures |s| == n && forall i | 0 <= i < n :: s[i] == time
  {
    if n == 0 then [] else Repeated(time, n - 1) + [time]
  }

  ghost predicate Holds(l: Limiter, key: string, hits: seq<int>, allowed: seq<int>) {
    At(l.hits, key) == hits && At(l.allowed, key) == allowed
  }

  lemma OneMore(max: int, window: int, attempts: seq<Attempt>, a: Attempt, hits: seq<int>, kept: seq<int>,
                allowed: seq<int>)
    requires Holds(After(max, window, attempts), a.key, hits, allowed)
    requires Kept(hits, a.now - window) == kept && |kept| < max
    ensures Holds(After(max, window, attempts + [a]), a.key, kept + [a.stamp], allowed + [a.stamp])
  {
    assert (attempts + [a])[..|attempts|] == attempts;
  }

  lemma Longer(before: seq<Attempt>, stamps: seq<int>, key: string, time: int, n: nat)
    requires n > 0
    ensures before + Burst(key, time, n) == before + Burst(key, time, n - 1) + [Attempt(key, time, time)]
    ensures stamps + Repeated(time, n) == stamps + Repeated(time, n - 1) + [time]
  {
  }

  lemma KeptOfRepeated(time: int, n: nat, cutoff: int)
    ensures Kept(Repeated(time, n), cutoff) == if time > cutoff then Repeated(time, n) else []
  {
    KeptIsTail(Repeated(time, n), cutoff, if time > cutoff then 0 else n);
  }

  lemma BurstGoesOn(max: nat, window: nat, attempts: seq<Attempt>, key: string, time: int, n: nat, allowed: seq<int>)
    requires 1 < n <= max && window > 0
    requires Holds(After(max, window, attempts), key, Repeated(time, n - 1), allowed)
    ensures Holds(After(max, window, attempts + [Attempt(key, time, time)]), key, Repeated(time, n), allowed + [time])
  {
    KeptOfRepeated(time, n - 1, time - window);
    OneMore(max, window, attempts, Attempt(key, time, time), Repeated(time, n - 1), Repeated(time, n - 1), allowed);
  }

  /** n attempts at one time, of which the limiter remembers nothing younger than a window. */
  lemma {:induction false} BurstGoesThrough(max: nat, window: nat, before: seq<Attempt>, key: string, time: int, n: nat,
                                            hits: seq<int>, allowed: seq<int>)
    requires 0 < n <= max && window > 0
    requires Holds(After(max, window, before), key, hits, allowed) && Kept(hits, time - window) == []
    ensures Holds(After(max, window, before + Burst(key, time, n)), key, Repeated(time, n), allowed + Repeated(time, n))
  {
    Longer(before, allowed, key, time, n);
    if n == 1 {
      assert before + Burst(key, time, 0) == before && allowed + Repeated(time, 0) == allowed;
      OneMore(max, window, before, Attempt(key, time, time), hits, [], allowed);
    } else {
      BurstGoesThrough(max, window, before, key, time, n - 1, hits, allowed);
      BurstGoesOn(max, window, before + Burst(key, time, n - 1), key, time, n, allowed + Repeated(time, n - 1));
    }
  }

  lemma AllInside(s: seq<int>, from: int, to: int)
    requires forall i | 0 <= i < |s| :: from <= s[i] <= to
    ensures |WithinClosed(s, from, to)| == |s|
  {
    SpanHolds(0, |s|);
    assert WithinClosed(s, from, to) == Span(0, |s|);
  }

  lemma TwoBurstsRun(key: string, window: nat, n: nat)
    ensures ClockRuns(Burst(key, 0, n) + Burst(key, window, n))
  {
  }

  /** And twice max is reached, for every limit: a burst at a time, and another one a window later. */
  lemma TwiceMaxIsReached(max: nat, window: nat, key: string) returns (attempts: seq<Attempt>)
    requires max > 0 && window > 0
    ensures ClockRuns(attempts)
    ensures |WithinClosed(At(After(max, window, attempts).allowed, key), 0, window)| == 2 * max
  {
    BurstGoesThrough(max, window, [], key, 0, max, [], []);
    assert [] + Burst(key, 0, max) == Burst(key, 0, max) && [] + Repeated(0, max) == Repeated(0, max);
    KeptOfRepeated(0, max, 0);
    BurstGoesThrough(max, window, Burst(key, 0, max), key, window, max, Repeated(0, max), Repeated(0, max));
    attempts := Burst(key, 0, max) + Burst(key, window, max);
    TwoBurstsRun(key, window, max);
    AllInside(Repeated(0, max) + Repeated(window, max), 0, window);
  }

  class AttemptLimiter {
    const max: int
    const window: int
    var hits: map<string, seq<int>>

    constructor (max: int, window: int)
      ensures this.max == max && this.window == window && hits == map[]
    {
      this.max, this.window, hits := max, window, map[];
    }

    method Allow(key: string, now: int, stamp: int) returns (ok: bool)
      modifies this
      ensures ok == Allows(Limiter(old(hits), map[]), max, window, Attempt(key, now, stamp))
      ensures hits == AfterAttempt(Limiter(old(hits), map[]), max, window, Attempt(key, now, stamp)).hits
    {
      var mine := At(hits, key);
      var buffer := new int[|mine|](i requires 0 <= i < |mine| => mine[i]);
      assert buffer[..] == mine;
      var n := Compact(buffer, now - window);
      var kept := buffer[..n];
      if n >= max {
        hits := hits[key := kept];
        return false;
      }
      hits := hits[key := kept + [stamp]];
      return true;
    }
  }
}
