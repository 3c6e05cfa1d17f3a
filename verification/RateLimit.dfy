// Two token buckets: the one kept in a database row, refilled only when a token is taken,
// and the one kept in memory, refilled on every attempt.
module RateLimit {
  import opened Prelude

  datatype Bucket = Bucket(tokens: real, last: real)

  function MinReal(a: real, b: real): real { if a <= b then a else b }

  /** Elapsed time times the rate, multiplied out so that consecutive refills add up plainly. */
  function Refill(rate: real, from: real, to: real): (r: real)
    ensures rate >= 0.0 && from <= to ==> r >= 0.0
  {
    RefillNonNegative(rate, from, to);
    to * rate - from * rate
  }

  lemma RefillNonNegative(rate: real, from: real, to: real)
    ensures to * rate - from * rate == (to - from) * rate
    ensures rate >= 0.0 && from <= to ==> (to - from) * rate >= 0.0
  {
  }

  lemma RefillWithin(rate: real, from: real, to: real, length: real)
    requires rate >= 0.0 && to - from <= length
    ensures Refill(rate, from, to) <= rate * length
  {
    RefillNonNegative(rate, to - from, length);
    RefillNonNegative(rate, from, to);
  }

  /** The tokens there would be now. */
  function Level(max: real, rate: real, b: Bucket, now: real): real {
    MinReal(max, b.tokens + Refill(rate, b.last, now))
  }

  /** INSERT, or UPDATE when at least one token is there; a refused attempt leaves the row as it is. */
  function DbTake(max: real, rate: real, row: Option<Bucket>, now: real): (bool, Option<Bucket>) {
    match row
    case None => (true, Some(Bucket(max - 1.0, now)))
    case Some(b) =>
      if Level(max, rate, b, now) >= 1.0 then (true, Some(Bucket(Level(max, rate, b, now) - 1.0, now)))
      else (false, row)
  }

  /** One turn of the in-memory loop: refill, then take if possible. */
  function MemTake(max: real, rate: real, b: Bucket, now: real): (bool, Bucket) {
    var level := Level(max, rate, b, now);
    if level >= 1.0 then (true, Bucket(level - 1.0, now)) else (false, Bucket(level, now))
  }

  function DbRun(max: real, rate: real, row: Option<Bucket>, times: seq<real>): (granted: seq<bool>)
    ensures |granted| == |times|
    decreases |times|
  {
    if times == [] then []
    else
      var (ok, row') := DbTake(max, rate, row, times[0]);
      [ok] + DbRun(max, rate, row', times[1..])
  }

  function MemRun(max: real, rate: real, b: Bucket, times: seq<real>): (granted: seq<bool>)
    ensures |granted| == |times|
    decreases |times|
  {
    if times == [] then []
    else
      var (ok, b') := MemTake(max, rate, b, times[0]);
      [ok] + MemRun(max, rate, b', times[1..])
  }

  function MemAfter(max: real, rate: real, b: Bucket, times: seq<real>): (after: Bucket)
    ensures after.last == if times == [] then b.last else times[|times| - 1]
    decreases |times|
  {
    if times == [] then b else MemAfter(max, rate, MemTake(max, rate, b, times[0]).1, times[1..])
  }

  predicate Ordered(from: real, times: seq<real>)
    decreases |times|
  {
    times != [] ==> from <= times[0] && Ordered(times[0], times[1..])
  }

  function Granted(run: seq<bool>): nat {
    if run == [] then 0 else (if run[0] then 1 else 0) + Granted(run[1..])
  }

  // ---------------------------------------------------------------- the same attempts are granted

  /** The memory bucket is the row refilled up to its own last attempt. */
  predicate Agree(max: real, rate: real, row: Option<Bucket>, b: Bucket) {
    match row
    case None => b.tokens == max
    case Some(r) => r.last <= b.last && b.tokens == Level(max, rate, r, b.last)
  }

  lemma RefillComposes(max: real, rate: real, r: Bucket, mid: real, now: real)
    requires rate >= 0.0 && r.last <= mid <= now
    ensures Level(max, rate, Bucket(Level(max, rate, r, mid), mid), now) == Level(max, rate, r, now)
  {
  }

  lemma TakeAgrees(max: real, rate: real, row: Option<Bucket>, b: Bucket, now: real)
    requires max >= 1.0 && rate >= 0.0 && Agree(max, rate, row, b) && b.last <= now
    ensures DbTake(max, rate, row, now).0 == MemTake(max, rate, b, now).0
    ensures Agree(max, rate, DbTake(max, rate, row, now).1, MemTake(max, rate, b, now).1)
    ensures MemTake(max, rate, b, now).1.last == now
  {
    match row
    case None =>
    case Some(r) => RefillComposes(max, rate, r, b.last, now);
  }

  lemma {:induction false} RunsAgree(max: real, rate: real, row: Option<Bucket>, b: Bucket, times: seq<real>)
    requires max >= 1.0 && rate >= 0.0 && Agree(max, rate, row, b) && Ordered(b.last, times)
    ensures DbRun(max, rate, row, times) == MemRun(max, rate, b, times)
    decreases |times|
  {
    if times != [] {
      TakeAgrees(max, rate, row, b, times[0]);
      RunsAgree(max, rate, DbTake(max, rate, row, times[0]).1, MemTake(max, rate, b, times[0]).1, times[1..]);
    }
  }

  /** From their first use the two grant the same attempts, exactly when a full bucket holds a token. */
  lemma BucketsAgree(max: real, rate: real, created: real, times: seq<real>)
    requires rate >= 0.0 && Ordered(created, times) && times != []
    ensures DbRun(max, rate, None, times) == MemRun(max, rate, Bucket(max, created), times) <==> max >= 1.0
  {
    if max >= 1.0 {
      RunsAgree(max, rate, None, Bucket(max, created), times);
    } else {
      assert DbRun(max, rate, None, times)[0] && !MemRun(max, rate, Bucket(max, created), times)[0];
    }
  }

  // ---------------------------------------------------------------- the rate holds in every window

  lemma TokensStayNonNegative(max: real, rate: real, b: Bucket, now: real)
    requires max >= 0.0 && rate >= 0.0 && b.tokens >= 0.0 && b.last <= now
    ensures 0.0 <= MemTake(max, rate, b, now).1.tokens <= Level(max, rate, b, now) <= max
  {
  }

  /** One turn spends at most what it takes off the level. */
  lemma TurnSpends(max: real, rate: real, b: Bucket, now: real, next: real)
    requires rate >= 0.0 && b.tokens >= 0.0 && max >= 0.0 && b.last <= now <= next
    ensures var (ok, b') := MemTake(max, rate, b, now);
            (if ok then 1.0 else 0.0) + Level(max, rate, b', next) <= Level(max, rate, b, now) + Refill(rate, now, next)
  {
  }

  lemma {:induction false} GrantsAreBounded(max: real, rate: real, b: Bucket, times: seq<real>)
    requires rate >= 0.0 && max >= 0.0 && b.tokens >= 0.0 && times != [] && Ordered(b.last, times)
    ensures Granted(MemRun(max, rate, b, times)) as real
            <= Level(max, rate, b, times[0]) + Refill(rate, times[0], times[|times| - 1])
    decreases |times|
  {
    var now, run := times[0], MemRun(max, rate, b, times);
    var b' := MemTake(max, rate, b, now).1;
    TokensStayNonNegative(max, rate, b, now);
    assert run[1..] == MemRun(max, rate, b', times[1..]);
    if |times| > 1 {
      var end := times[|times| - 1];
      assert times[1..][|times| - 2] == end && times[1..][0] == times[1];
      TurnSpends(max, rate, b, now, times[1]);
      GrantsAreBounded(max, rate, b', times[1..]);
      assert Refill(rate, now, times[1]) + Refill(rate, times[1], end) == Refill(rate, now, end);
    } else {
      assert run[1..] == [];
    }
  }

  lemma {:induction false} RunSplits(max: real, rate: real, b: Bucket, times: seq<real>, i: nat)
    requires i <= |times|
    ensures MemRun(max, rate, b, times)[i..] == MemRun(max, rate, MemAfter(max, rate, b, times[..i]), times[i..])
    decreases |times|
  {
    if i == 0 {
      assert times[i..] == times;
    } else {
      var b' := MemTake(max, rate, b, times[0]).1;
      RunSplits(max, rate, b', times[1..], i - 1);
      assert times[..i][1..] == times[1..][..i - 1];
      assert times[1..][i - 1..] == times[i..];
      DropFromTail(MemRun(max, rate, b, times), MemRun(max, rate, b', times[1..]), i);
    }
  }

  lemma DropFromTail(run: seq<bool>, rest: seq<bool>, i: nat)
    requires 0 < i <= |run| && run[1..] == rest
    ensures run[i..] == rest[i - 1..]
  {
  }

  lemma {:induction false} OrderedSuffix(from: real, times: seq<real>, i: nat)
    requires i <= |times| && Ordered(from, times)
    ensures Ordered(if i == 0 then from else times[i - 1], times[i..])
    decreases |times|
  {
    if i == 0 {
      assert times[i..] == times;
    } else {
      OrderedSuffix(times[0], times[1..], i - 1);
      assert times[1..][i - 1..] == times[i..];
    }
  }

  lemma {:induction false} AfterStaysNonNegative(max: real, rate: real, b: Bucket, times: seq<real>)
    requires b.tokens >= 0.0 && max >= 0.0 && rate >= 0.0 && Ordered(b.last, times)
    ensures MemAfter(max, rate, b, times).tokens >= 0.0
    decreases |times|
  {
    if times != [] {
      TokensStayNonNegative(max, rate, b, times[0]);
      AfterStaysNonNegative(max, rate, MemTake(max, rate, b, times[0]).1, times[1..]);
    }
  }

  lemma {:induction false} RunPrefix(max: real, rate: real, b: Bucket, times: seq<real>, n: nat)
    requires n <= |times|
    ensures MemRun(max, rate, b, times)[..n] == MemRun(max, rate, b, times[..n])
    decreases n
  {
    if n > 0 {
      RunPrefix(max, rate, MemTake(max, rate, b, times[0]).1, times[1..], n - 1);
      assert times[..n][1..] == times[1..][..n - 1];
    }
  }

  lemma {:induction false} OrderedPrefix(from: real, times: seq<real>, n: nat)
    requires Ordered(from, times) && n <= |times|
    ensures Ordered(from, times[..n])
    decreases n
  {
    if n > 0 {
      OrderedPrefix(times[0], times[1..], n - 1);
      assert times[..n][1..] == times[1..][..n - 1];
    }
  }

  lemma SegmentOfRun(max: real, rate: real, b: Bucket, times: seq<real>, i: nat, j: nat) returns (mid: Bucket)
    requires max >= 0.0 && rate >= 0.0 && b.tokens >= 0.0 && Ordered(b.last, times) && i <= j <= |times|
    ensures MemRun(max, rate, b, times)[i..j] == MemRun(max, rate, mid, times[i..j])
    ensures mid.tokens >= 0.0 && Ordered(mid.last, times[i..j])
  {
    mid := MemAfter(max, rate, b, times[..i]);
    RunSplits(max, rate, b, times, i);
    OrderedSuffix(b.last, times, i);
    OrderedPrefix(b.last, times, i);
    AfterStaysNonNegative(max, rate, b, times[..i]);
    RunPrefix(max, rate, mid, times[i..], j - i);
    OrderedPrefix(mid.last, times[i..], j - i);
    assert times[i..][..j - i] == times[i..j];
    assert MemRun(max, rate, b, times)[i..j] == MemRun(max, rate, b, times)[i..][..j - i];
  }

  /** Among attempts i to j, spread over at most `length`, at most max + rate * length are granted. */
  lemma MemWindowBound(max: real, rate: real, b: Bucket, times: seq<real>, i: nat, j: nat, length: real)
    requires max >= 0.0 && rate >= 0.0 && b.tokens >= 0.0 && Ordered(b.last, times)
    requires i < j <= |times| && times[j - 1] - times[i] <= length
    ensures Granted(MemRun(max, rate, b, times)[i..j]) as real <= max + rate * length
  {
    var mid := SegmentOfRun(max, rate, b, times, i, j);
    GrantsAreBounded(max, rate, mid, times[i..j]);
    TokensStayNonNegative(max, rate, mid, times[i]);
    RefillWithin(rate, times[i], times[j - 1], length);
  }

  /** The shared database bucket keeps the same bound, from its first use. */
  lemma DbWindowBound(max: real, rate: real, times: seq<real>, i: nat, j: nat, length: real)
    requires max >= 1.0 && rate >= 0.0 && i < j <= |times| && Ordered(times[0], times)
    requires times[j - 1] - times[i] <= length
    ensures Granted(DbRun(max, rate, None, times)[i..j]) as real <= max + rate * length
  {
    BucketsAgree(max, rate, times[0], times);
    MemWindowBound(max, rate, Bucket(max, times[0]), times, i, j, length);
  }

  /**
   An attempt is granted as soon as the missing part of a token has flowed in, and not before: the bucket
   gains rate tokens per unit of time. So a token taken from a bucket of at least one is back after 1 / rate.
   */
  lemma GrantedWhenRefilled(max: real, rate: real, b: Bucket, now: real)
    requires max >= 1.0 && rate > 0.0 && b.last <= now
    ensures MemTake(max, rate, b, now).0 <==> now - b.last >= (1.0 - b.tokens) / rate
    ensures DbTake(max, rate, Some(b), now).0 <==> now - b.last >= (1.0 - b.tokens) / rate
    ensures MemTake(max, rate, b, now).1.tokens ==
            MinReal(max, b.tokens + (now - b.last) * rate) - (if MemTake(max, rate, b, now).0 then 1.0 else 0.0)
    ensures DbTake(max, rate, Some(b), now) ==
            if MemTake(max, rate, b, now).0 then (true, Some(MemTake(max, rate, b, now).1)) else (false, Some(b))
  {
    RefillNonNegative(rate, b.last, now);
    DividedBy(now - b.last, 1.0 - b.tokens, rate);
  }

  lemma DividedBy(time: real, part: real, rate: real)
    requires rate > 0.0
    ensures time >= part / rate <==> time * rate >= part
  {
    assert part / rate * rate == part;
    if time * rate >= part {
      assert (time - part / rate) * rate >= 0.0;
    } else {
      assert (part / rate - time) * rate > 0.0;
    }
  }

  /** And the bound is reached: a full bucket grants every attempt of a burst of at most max. */
  lemma {:induction false} BurstIsGranted(max: real, rate: real, b: Bucket, now: real, n: nat)
    requires rate >= 0.0 && b.last <= now && n as real <= b.tokens <= max
    ensures MemRun(max, rate, b, seq(n, k => now)) == seq(n, k => true)
    decreases n
  {
    if n > 0 {
      var times := seq(n, k => now);
      var b' := MemTake(max, rate, b, now).1;
      BurstIsGranted(max, rate, b', now, n - 1);
      assert times[1..] == seq(n - 1, k => now);
    }
  }

  // ---------------------------------------------------------------- the buckets as the program keeps them

  class DbBucket {
    var row: Option<Bucket>

    constructor ()
      ensures row == None
    {
      row := None;
    }

    method Take(max: real, rate: real, now: real) returns (ok: bool)
      modifies this
      ensures (ok, row) == DbTake(max, rate, old(row), now)
    {
      if row.None? {
        row := Some(Bucket(max - 1.0, now));
        return true;
      }
      var refilled := row.value.tokens + Refill(rate, row.value.last, now);
      if refilled > max {
        refilled := max;
      }
      if refilled < 1.0 {
        return false;
      }
      row := Some(Bucket(refilled - 1.0, now));
      return true;
    }
  }

  class MemBucket {
    const max: real
    const rate: real
    var tokens: real
    var last: real

    constructor (max: real, interval: real, now: real)
      requires interval > 0.0
      ensures this.max == max && this.rate == max / interval && tokens == max && last == now
    {
      this.max, this.rate, tokens, last := max, max / interval, max, now;
    }

    /** One turn of wait's loop; false means sleep and try again. */
    method Attempt(now: real) returns (ok: bool)
      modifies this
      ensures (ok, Bucket(tokens, last)) == MemTake(max, rate, old(Bucket(tokens, last)), now)
    {
      tokens := tokens + Refill(rate, last, now);
      if tokens > max {
        tokens := max;
      }
      last := now;
      ok := tokens >= 1.0;
      if ok {
        tokens := tokens - 1.0;
      }
    }

    /** wait, given the times its turns happen at: it returns at the first turn that is granted. */
    method Wait(times: seq<real>) returns (turns: nat)
      modifies this
      ensures turns <= |times|
      ensures var run := MemRun(max, rate, old(Bucket(tokens, last)), times);
              (forall k | 0 <= k < turns :: !run[k]) && (turns < |times| ==> run[turns])
    {
      turns := 0;
      ghost var start := Bucket(tokens, last);
      ghost var run := MemRun(max, rate, start, times);
      while turns < |times|
        invariant turns <= |times| && forall k | 0 <= k < turns :: !run[k]
        invariant MemRun(max, rate, Bucket(tokens, last), times[turns..]) == run[turns..]
      {
        ghost var before := Bucket(tokens, last);
        var ok := Attempt(times[turns]);
        assert times[turns..][1..] == times[turns + 1..];
        assert run[turns..] == [ok] + MemRun(max, rate, Bucket(tokens, last), times[turns + 1..]);
        assert run[turns] == ok && run[turns + 1..] == run[turns..][1..];
        if ok {
          return;
        }
        turns := turns + 1;
      }
    }
  }
}
