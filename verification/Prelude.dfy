// Datatypes, 64-bit arithmetic, byte buffers and text, shared by the other modules.
module Prelude {
  datatype Option<+T> = None | Some(value: T)

  const MAX_INT64 := 0x7fff_ffff_ffff_ffff
  const TWO_TO_64 := 0x1_0000_0000_0000_0000

  predicate Int64(x: int) { -MAX_INT64 - 1 <= x <= MAX_INT64 }

  /** int64 arithmetic wraps around. */
  function Wrap64(x: int): int { (x + MAX_INT64 + 1) % TWO_TO_64 - MAX_INT64 - 1 }

  /** The sum of two int64 values, wrapping around. */
  function Add64(a: int, b: int): int {
    if a + b > MAX_INT64 then a + b - TWO_TO_64 else if a + b < -MAX_INT64 - 1 then a + b + TWO_TO_64 else a + b
  }

  type Bytes = seq<bv8>

  /** A buffer or file with `data` written over it at `at`. */
  function Patched(file: Bytes, at: nat, data: Bytes): Bytes
    requires at + |data| <= |file|
  {
    file[..at] + data + file[at + |data|..]
  }

  lemma PatchTwice(file: Bytes, at: nat, a: Bytes, b: Bytes)
    requires at + |a| + |b| <= |file|
    ensures Patched(Patched(file, at, a), at + |a|, b) == Patched(file, at, a + b)
  {
  }

  /** File.WriteAt, and the builtin copy. */
  method WriteAt(file: array<bv8>, data: Bytes, at: nat)
    requires at + |data| <= file.Length
    modifies file
    ensures file[..] == Patched(old(file[..]), at, data)
  {
    for i := 0 to |data|
      invariant file[..] == Patched(old(file[..]), at, data[..i])
    {
      file[at + i] := data[i];
      assert data[..i + 1] == data[..i] + [data[i]];
    }
    assert data[..|data|] == data;
  }

  function Min(a: int, b: int): int { if a <= b then a else b }

  /** The part of lower() and strings.ToLower that matters for info hashes: ASCII letters. */
  function LowerChar(c: char): char {
    if 'A' <= c <= 'Z' then (c as int + 32) as char else c
  }

  function Lower(s: string): string {
    seq(|s|, i requires 0 <= i < |s| => LowerChar(s[i]))
  }

  lemma LowerIdempotent(s: string)
    ensures Lower(Lower(s)) == Lower(s)
  {
    assert forall i | 0 <= i < |s| :: Lower(Lower(s))[i] == Lower(s)[i];
  }

  /** The same character, or the same ASCII letter in upper and lower case. */
  predicate SameLetter(c: char, d: char) {
    || c == d
    || ('A' <= c <= 'Z' && d as int == c as int + 32)
    || ('A' <= d <= 'Z' && c as int == d as int + 32)
  }

  lemma LowerCharMeets(c: char, d: char)
    ensures LowerChar(c) == LowerChar(d) <==> SameLetter(c, d)
  {
    assert LowerChar(c) == LowerChar(d) ==> LowerChar(c) as int == LowerChar(d) as int;
  }

  /** Texts meet in lower case exactly when they differ in the case of letters at most. */
  lemma CaseVariantsMeet(a: string, b: string)
    ensures Lower(a) == Lower(b) <==> |a| == |b| && forall i | 0 <= i < |a| :: SameLetter(a[i], b[i])
  {
    if |a| == |b| {
      forall i | 0 <= i < |a|
        ensures Lower(a)[i] == Lower(b)[i] <==> SameLetter(a[i], b[i])
      {
        LowerCharMeets(a[i], b[i]);
      }
    } else {
      assert |Lower(a)| != |Lower(b)|;
    }
  }

  /** What strings.TrimSpace takes for space: Unicode's White_Space. */
  predicate IsSpace(c: char) {
    || c == ' ' || '\t' <= c <= '\r' || c == '\U{85}' || c == '\U{A0}' || c == '\U{1680}'
    || '\U{2000}' <= c <= '\U{200A}' || c == '\U{2028}' || c == '\U{2029}'
    || c == '\U{202F}' || c == '\U{205F}' || c == '\U{3000}'
  }

  function TrimSpace(s: string): string {
    if s != [] && IsSpace(s[0]) then TrimSpace(s[1..])
    else if s != [] && IsSpace(s[|s| - 1]) then TrimSpace(s[..|s| - 1])
    else s
  }

  /** What is left begins and ends with no space, and only spaces have gone. */
  lemma {:induction false} TrimSpaceTrims(s: string) returns (i: nat, j: nat)
    ensures i <= j <= |s| && TrimSpace(s) == s[i..j]
    ensures forall k | 0 <= k < i || j <= k < |s| :: IsSpace(s[k])
    ensures i < j ==> !IsSpace(s[i]) && !IsSpace(s[j - 1])
    decreases |s|
  {
    i, j := 0, |s|;
    if s != [] && IsSpace(s[0]) {
      i, j := TrimSpaceTrims(s[1..]);
      assert s[1..][i..j] == s[i + 1..j + 1];
      i, j := i + 1, j + 1;
    } else if s != [] && IsSpace(s[|s| - 1]) {
      i, j := TrimSpaceTrims(s[..|s| - 1]);
      assert s[..|s| - 1][i..j] == s[i..j];
    } else {
      assert s[0..|s|] == s;
    }
  }

  /** Lexicographic order on text, the last key of the queue order. */
  predicate TextLess(a: string, b: string) {
    b != [] && (a == [] || a[0] < b[0] || (a[0] == b[0] && TextLess(a[1..], b[1..])))
  }

  /** They agree up to k, and there a ends, or has the smaller character. */
  predicate LessFrom(a: string, b: string, k: nat) {
    k <= |a| && k < |b| && a[..k] == b[..k] && (k == |a| || a[k] < b[k])
  }

  lemma SharedStart(a: string, b: string, k: nat)
    requires LessFrom(a, b, k)
    ensures k > 0 ==> a[0] == b[0] && LessFrom(a[1..], b[1..], k - 1)
  {
    if k > 0 {
      assert a[..k][0] == b[..k][0];
      assert a[1..][..k - 1] == a[..k][1..] && b[1..][..k - 1] == b[..k][1..];
    }
  }

  lemma LongerStart(a: string, b: string, k: nat)
    requires a != [] && b != [] && a[0] == b[0] && LessFrom(a[1..], b[1..], k)
    ensures LessFrom(a, b, k + 1)
  {
    assert a[..k + 1] == [a[0]] + a[1..][..k] && b[..k + 1] == [b[0]] + b[1..][..k];
  }

  /** In lexicographic order the first difference decides. */
  lemma {:induction false} TextLessAtDifference(a: string, b: string)
    ensures TextLess(a, b) <==> exists k: nat :: LessFrom(a, b, k)
  {
    if k: nat :| LessFrom(a, b, k) {
      SharedStart(a, b, k);
      if k > 0 {
        TextLessAtDifference(a[1..], b[1..]);
      }
    } else if TextLess(a, b) {
      assert !LessFrom(a, b, 0);
      TextLessAtDifference(a[1..], b[1..]);
      var k: nat :| LessFrom(a[1..], b[1..], k);
      LongerStart(a, b, k);
    }
  }

  lemma {:induction false} TextLessTotal(a: string, b: string)
    ensures a == b || TextLess(a, b) || TextLess(b, a)
  {
    if a != [] && b != [] && a[0] == b[0] {
      TextLessTotal(a[1..], b[1..]);
      assert a == [a[0]] + a[1..] && b == [b[0]] + b[1..];
    }
  }

  lemma {:induction false} TextLessAsymmetric(a: string, b: string)
    requires TextLess(a, b)
    ensures !TextLess(b, a)
  {
    if a != [] && a[0] == b[0] {
      TextLessAsymmetric(a[1..], b[1..]);
    }
  }

  lemma {:induction false} TextLessTransitive(a: string, b: string, c: string)
    requires TextLess(a, b) && TextLess(b, c)
    ensures TextLess(a, c)
  {
    if a != [] && a[0] == b[0] == c[0] {
      TextLessTransitive(a[1..], b[1..], c[1..]);
    }
  }

  // Runs, by flags of what holds in each of their states.

  /** Where every step past a check was preceded by it, or by another such step, the check has been made. */
  lemma {:induction false} CheckedBefore(checked: seq<bool>, past: seq<bool>, i: nat) returns (j: nat)
    requires |checked| == |past| && i < |past| && past[i]
    requires forall k | 0 <= k < |past| && past[k] :: k > 0 && (checked[k - 1] || past[k - 1])
    ensures j < i && checked[j]
  {
    j := i - 1;
    if !checked[j] {
      j := CheckedBefore(checked, past, j);
    }
  }

  /** What holds at i and is handed on from each step to the next holds at j. */
  lemma {:induction false} HandedOn(flags: seq<bool>, i: nat, j: nat)
    requires i <= j < |flags| && flags[i] && forall k | i <= k < j && flags[k] :: flags[k + 1]
    ensures flags[j]
  {
    if i < j {
      HandedOn(flags, i, j - 1);
    }
  }

  /** Two sets that differ at most in x. */
  lemma CardinalityAround<T>(a: set<T>, b: set<T>, x: T)
    requires forall y :: y != x ==> (y in a <==> y in b)
    ensures |b| == |a| + (if x in b then 1 else 0) - (if x in a then 1 else 0)
  {
    var rest := a - {x};
    assert a == if x in a then rest + {x} else rest;
    assert b == if x in b then rest + {x} else rest;
  }

  ghost predicate GoesOn<T(!new)>(good: seq<T> -> bool, left: seq<T> -> nat, run: seq<T>, more: seq<T>) {
    run <= more && good(more) && left(more) < left(run)
  }

  /** If every good run with something left goes on to one with less left, every good run can be brought to its end. */
  lemma {:induction false} GoodRunsEnd<T(!new)>(good: seq<T> -> bool, left: seq<T> -> nat, run: seq<T>)
      returns (longer: seq<T>)
    requires good(run)
    requires forall r | good(r) && left(r) > 0 :: exists more :: GoesOn(good, left, r, more)
    ensures run <= longer && good(longer) && left(longer) == 0
    decreases left(run)
  {
    longer := run;
    if left(run) > 0 {
      var more :| GoesOn(good, left, run, more);
      longer := GoodRunsEnd(good, left, more);
    }
  }

  lemma SubsetCardinality<T>(a: set<T>, b: set<T>)
    requires a <= b
    ensures |a| <= |b|
  {
    assert b == a + (b - a);
  }
}
