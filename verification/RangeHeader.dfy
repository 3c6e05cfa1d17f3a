// HTTP byte ranges: ParseRange, decimal numbers, and the length-limited file it hands out.
module RangeHeader {
  import opened Prelude

  // ---------------------------------------------------------------- decimal numbers

  predicate IsDigit(c: char) { '0' <= c <= '9' }

  predicate AllDigits(s: string) { forall i | 0 <= i < |s| :: IsDigit(s[i]) }

  function Value(s: string): (n: nat)
    requires AllDigits(s)
  {
    if s == [] then 0 else 10 * Value(s[..|s| - 1]) + (s[|s| - 1] as int - '0' as int)
  }

  /** strconv.ParseInt(s, 10, 64). */
  function ParseInt(s: string): Option<int> {
    var signed := s != [] && (s[0] == '+' || s[0] == '-');
    var digits := if signed then s[1..] else s;
    if digits == [] || !AllDigits(digits) then None
    else
      var size: int := Value(digits);
      var n := if signed && s[0] == '-' then -size else size;
      if -MAX_INT64 - 1 <= n <= MAX_INT64 then Some(n) else None
  }

  /** fmt's %d for a number that is not negative. */
  function Decimal(n: nat): (s: string)
    ensures s != [] && AllDigits(s)
  {
    if n < 10 then [('0' as int + n) as char] else Decimal(n / 10) + [('0' as int + n % 10) as char]
  }

  lemma {:induction false} DecimalRoundTrip(n: nat)
    ensures Value(Decimal(n)) == n
  {
    if n >= 10 {
      DecimalRoundTrip(n / 10);
      var s := Decimal(n);
      assert s[..|s| - 1] == Decimal(n / 10);
    } else {
      assert Decimal(n)[..0] == [];
    }
  }

  lemma ParseDecimal(n: nat)
    requires n <= MAX_INT64
    ensures ParseInt(Decimal(n)) == Some(n)
  {
    DecimalRoundTrip(n);
    assert IsDigit(Decimal(n)[0]);
  }

  // ---------------------------------------------------------------- the header

  function IndexOf(s: string, c: char): (i: int)
    ensures -1 <= i < |s|
    ensures i >= 0 ==> s[i] == c && c !in s[..i]
    ensures i < 0 ==> c !in s
  {
    if s == [] then -1
    else if s[0] == c then 0
    else
      var i := IndexOf(s[1..], c);
      if i < 0 then -1 else assert s[..i + 1] == [s[0]] + s[1..][..i]; i + 1
  }

  const PREFIX := "bytes="

  /** First and last byte position of the range, both included; None when the header is not honoured. */
  function ParseRange(header: string, total: int): Option<(int, int)> {
    if !(PREFIX <= header) then None
    else
      var spec := header[|PREFIX|..];
      var dash := IndexOf(spec, '-');
      if ',' in spec || dash < 0 then None
      else ParseSpec(spec[..dash], spec[dash + 1..], total)
  }

  function ParseSpec(lo: string, hi: string, total: int): Option<(int, int)> {
    if lo == "" then
      var n := ParseInt(hi);
      if n.None? || n.value <= 0 then None else Some((total - Min(n.value, total), total - 1))
    else
      var start := ParseInt(lo);
      if start.None? || start.value >= total then None
      else
        var e := ParseInt(hi);
        var end := if hi != "" && e.Some? then Min(e.value, total - 1) else total - 1;
        if end < start.value then None else Some((start.value, end))
  }

  /** A number with no minus sign in it is not negative. */
  lemma UnsignedIsNotNegative(s: string)
    requires '-' !in s && ParseInt(s).Some?
    ensures ParseInt(s).value >= 0
  {
  }

  /** Every honoured range lies inside the object, exactly when there is an object to lie in. */
  lemma AcceptedRangesFit(header: string, total: int)
    requires ParseRange(header, total).Some?
    ensures var (start, end) := ParseRange(header, total).value;
            0 <= start <= end < total <==> total > 0
  {
    var spec := header[|PREFIX|..];
    var dash := IndexOf(spec, '-');
    var lo := spec[..dash];
    if lo != "" {
      UnsignedIsNotNegative(lo);
    }
  }

  /** Without one, only a suffix range is honoured, and it covers nothing. */
  lemma EmptyObjectTakesSuffixes(header: string)
    requires ParseRange(header, 0).Some?
    ensures ParseRange(header, 0).value == (0, -1) && |header| > 6 && header[6] == '-'
  {
    var spec := header[|PREFIX|..];
    var dash := IndexOf(spec, '-');
    if spec[..dash] != "" {
      UnsignedIsNotNegative(spec[..dash]);
    }
  }

  lemma IndexOfDash(lo: string, hi: string)
    requires '-' !in lo
    ensures IndexOf(lo + "-" + hi, '-') == |lo|
  {
    var s := lo + "-" + hi;
    assert s[|lo|] == '-';
    assert forall i | 0 <= i < |lo| :: s[i] == lo[i] && lo[i] in lo;
  }

  /** The header before and after its first dash. */
  function Halves(header: string): Option<(string, string)> {
    if !(PREFIX <= header) || IndexOf(header[|PREFIX|..], '-') < 0 then None
    else
      var spec := header[|PREFIX|..];
      Some((spec[..IndexOf(spec, '-')], spec[IndexOf(spec, '-') + 1..]))
  }

  lemma HalvesOf(lo: string, hi: string)
    requires '-' !in lo
    ensures Halves(PREFIX + lo + "-" + hi) == Some((lo, hi))
  {
    var spec := lo + "-" + hi;
    assert PREFIX + lo + "-" + hi == PREFIX + spec && (PREFIX + spec)[|PREFIX|..] == spec;
    IndexOfDash(lo, hi);
    assert spec[..|lo|] == lo && spec[|lo| + 1..] == hi;
  }

  lemma JoinsAt(s: string, at: nat)
    requires at < |s|
    ensures s == s[..at] + [s[at]] + s[at + 1..]
  {
  }

  lemma PrefixJoins(lo: string, hi: string)
    ensures PREFIX + (lo + "-" + hi) == PREFIX + lo + "-" + hi
  {
  }

  lemma HalvesRejoin(header: string)
    requires Halves(header).Some?
    ensures var (lo, hi) := Halves(header).value; '-' !in lo && header == PREFIX + lo + "-" + hi
  {
    var spec := header[|PREFIX|..];
    var dash := IndexOf(spec, '-');
    JoinsAt(spec, dash);
    assert header == PREFIX + spec;
    PrefixJoins(spec[..dash], spec[dash + 1..]);
  }

  lemma ParseHalves(header: string, total: int)
    ensures ParseRange(header, total) ==
            match Halves(header)
            case None => None
            case Some((lo, hi)) => if ',' in lo || ',' in hi then None else ParseSpec(lo, hi, total)
  {
    if Halves(header).Some? {
      var spec := header[|PREFIX|..];
      var dash := IndexOf(spec, '-');
      JoinsAt(spec, dash);
    }
  }

  lemma ParseParts(lo: string, hi: string, total: int)
    requires '-' !in lo && ',' !in lo && ',' !in hi
    ensures ParseRange(PREFIX + lo + "-" + hi, total) == ParseSpec(lo, hi, total)
  {
    HalvesOf(lo, hi);
    ParseHalves(PREFIX + lo + "-" + hi, total);
  }

  lemma DigitsHoldNoMark(s: string)
    requires AllDigits(s)
    ensures '-' !in s && ',' !in s
  {
  }

  lemma ParseDigits(s: string)
    requires AllDigits(s) && s != ""
    ensures ParseInt(s) == if Value(s) <= MAX_INT64 then Some(Value(s)) else None
  {
    assert IsDigit(s[0]);
  }

  /** first-last or first-, in digits, leading zeros and sizes past int64 included. */
  lemma DigitsAreHonoured(first: string, last: string, total: int)
    requires AllDigits(first) && AllDigits(last) && first != "" && total <= MAX_INT64
    ensures ParseRange(PREFIX + first + "-" + last, total) ==
            if Value(first) < total && (last == "" || Value(first) <= Value(last))
            then Some((Value(first), if last == "" then total - 1 else Min(Value(last), total - 1)))
            else None
  {
    DigitsHoldNoMark(first);
    DigitsHoldNoMark(last);
    ParseParts(first, last, total);
    ParseDigits(first);
    if last != "" {
      ParseDigits(last);
    }
  }

  // ---------------------------------------------------------------- the grammar

  /** int-range of section 14.1.2 of RFC 9110, as the only range of a set. */
  predicate IsIntRange(header: string, first: string, last: string) {
    first != "" && AllDigits(first) && AllDigits(last) && header == PREFIX + first + "-" + last
  }

  /** suffix-range of the same section. */
  predicate IsSuffixRange(header: string, length: string) {
    length != "" && AllDigits(length) && header == PREFIX + "" + "-" + length
  }

  ghost predicate Grammatical(header: string) {
    || (exists first, last :: IsIntRange(header, first, last))
    || (exists length :: IsSuffixRange(header, length))
  }

  /** Nothing but digits on both sides of the first dash. */
  predicate DigitsOnly(header: string) {
    Halves(header).Some? && AllDigits(Halves(header).value.0) && AllDigits(Halves(header).value.1)
  }

  lemma GrammaticalIsDigits(header: string)
    requires Grammatical(header)
    ensures DigitsOnly(header)
  {
    if first, last :| IsIntRange(header, first, last) {
      DigitsHoldNoMark(first);
      HalvesOf(first, last);
    } else {
      var length :| IsSuffixRange(header, length);
      HalvesOf("", length);
    }
  }

  lemma HonouredNeedsPosition(header: string, total: int)
    requires ParseRange(header, total).Some?
    ensures Halves(header).Some? && (Halves(header).value.0 != "" || Halves(header).value.1 != "")
  {
    ParseHalves(header, total);
  }

  /** A header that is honoured is one of the grammar exactly when its positions are plain digits. */
  lemma HonouredIsGrammatical(header: string, total: int)
    requires ParseRange(header, total).Some?
    ensures Grammatical(header) <==> DigitsOnly(header)
  {
    HonouredNeedsPosition(header, total);
    HalvesRejoin(header);
    var (lo, hi) := Halves(header).value;
    if Grammatical(header) {
      GrammaticalIsDigits(header);
    } else {
      assert !IsIntRange(header, lo, hi) && !IsSuffixRange(header, hi);
    }
  }

  lemma SpecCountsNumbers(lo: string, hi: string, lo': string, hi': string, total: int)
    requires (lo == "" <==> lo' == "") && ParseInt(lo) == ParseInt(lo') && ParseInt(hi) == ParseInt(hi')
    ensures ParseSpec(lo, hi, total) == ParseSpec(lo', hi', total)
  {
  }

  /**
   A header counts only through the numbers of its halves. So a last position that is no number is
   treated as if it were not there, and a plus sign changes nothing.
   */
  lemma OnlyNumbersCount(lo: string, hi: string, lo': string, hi': string, total: int)
    requires '-' !in lo && ',' !in lo && ',' !in hi && '-' !in lo' && ',' !in lo' && ',' !in hi'
    requires (lo == "" <==> lo' == "") && ParseInt(lo) == ParseInt(lo') && ParseInt(hi) == ParseInt(hi')
    ensures ParseRange(PREFIX + lo + "-" + hi, total) == ParseRange(PREFIX + lo' + "-" + hi', total)
  {
    ParseParts(lo, hi, total);
    ParseParts(lo', hi', total);
    SpecCountsNumbers(lo, hi, lo', hi', total);
  }

  lemma ParsePlus(s: string)
    requires AllDigits(s) && s != ""
    ensures ParseInt("+" + s) == ParseInt(s) && !AllDigits("+" + s)
  {
    assert ("+" + s)[1..] == s && IsDigit(s[0]) && !IsDigit(("+" + s)[0]);
  }

  lemma NotGrammatical(lo: string, hi: string)
    requires '-' !in lo && !(AllDigits(lo) && AllDigits(hi))
    ensures !Grammatical(PREFIX + lo + "-" + hi)
  {
    HalvesOf(lo, hi);
    if Grammatical(PREFIX + lo + "-" + hi) {
      GrammaticalIsDigits(PREFIX + lo + "-" + hi);
    }
  }

  lemma ParseMinus(s: string)
    requires AllDigits(s) && s != "" && Value(s) <= MAX_INT64
    ensures ParseInt("-" + s) == Some(0 - Value(s))
  {
    assert ("-" + s)[1..] == s;
  }

  /** Negative numbers are never honoured, neither as a last position nor as a length. */
  lemma NegativesAreRefused(first: string, number: string, total: int)
    requires AllDigits(first) && AllDigits(number) && number != "" && 0 < Value(number) <= MAX_INT64
    ensures ParseRange(PREFIX + first + "-" + ("-" + number), total) == None
  {
    DigitsHoldNoMark(first);
    DigitsHoldNoMark(number);
    ParseMinus(number);
    ParseParts(first, "-" + number, total);
    if first != "" {
      ParseDigits(first);
    }
  }

  /** Nor is anything but one range, in bytes, with a dash. */
  lemma OneRangeOnly(header: string, total: int)
    requires !("bytes=" <= header) || ',' in header[6..] || '-' !in header[6..]
    ensures ParseRange(header, total) == None
  {
  }

  /** first-last: clipped to the object, refused past its end or when inverted. */
  lemma BoundedRange(first: nat, last: nat, total: int)
    requires first <= MAX_INT64 && last <= MAX_INT64
    ensures ParseRange(PREFIX + Decimal(first) + "-" + Decimal(last), total) ==
            if first < total && first <= last then Some((first, Min(last, total - 1))) else None
  {
    DigitsHoldNoMark(Decimal(first));
    DigitsHoldNoMark(Decimal(last));
    ParseParts(Decimal(first), Decimal(last), total);
    ParseDecimal(first);
    ParseDecimal(last);
  }

  /** first- : everything from first on. */
  lemma OpenRange(first: nat, total: int)
    requires first <= MAX_INT64
    ensures ParseRange(PREFIX + Decimal(first) + "-", total) == if first < total then Some((first, total - 1)) else None
  {
    DigitsHoldNoMark(Decimal(first));
    ParseParts(Decimal(first), "", total);
    assert PREFIX + Decimal(first) + "-" + "" == PREFIX + Decimal(first) + "-";
    ParseDecimal(first);
  }

  /** -n : the last n bytes, or all of them. */
  lemma SuffixRange(n: nat, total: nat)
    requires n <= MAX_INT64
    ensures ParseRange(PREFIX + "-" + Decimal(n), total) ==
            if n > 0 then Some((if n < total then total - n else 0, total - 1)) else None
  {
    DigitsHoldNoMark(Decimal(n));
    ParseParts("", Decimal(n), total);
    assert PREFIX + "" + "-" + Decimal(n) == PREFIX + "-" + Decimal(n);
    ParseDecimal(n);
  }

  // Headers outside the grammar that are honoured, for every position in the object.

  lemma MalformedLastIsHonoured(first: nat, last: string, total: int)
    requires first <= MAX_INT64 && first < total && last != "" && ',' !in last && ParseInt(last).None?
               && !AllDigits(last)
    ensures ParseRange(PREFIX + Decimal(first) + "-" + last, total) == Some((first, total - 1))
    ensures !Grammatical(PREFIX + Decimal(first) + "-" + last)
  {
    DigitsHoldNoMark(Decimal(first));
    OnlyNumbersCount(Decimal(first), last, Decimal(first), "", total);
    OpenRange(first, total);
    EndsInDash(Decimal(first));
    NotGrammatical(Decimal(first), last);
  }

  lemma EndsInDash(lo: string)
    ensures PREFIX + lo + "-" + "" == PREFIX + lo + "-"
  {
  }

  lemma LetterIsMalformed()
    ensures ',' !in "x" && ParseInt("x").None? && !AllDigits("x")
  {
    assert !IsDigit("x"[0]);
  }

  lemma SignedFirstIsHonoured(first: nat, total: int)
    requires first <= MAX_INT64 && first < total
    ensures ParseRange(PREFIX + ("+" + Decimal(first)) + "-" + "", total) == Some((first, total - 1))
    ensures !Grammatical(PREFIX + ("+" + Decimal(first)) + "-" + "")
  {
    DigitsHoldNoMark(Decimal(first));
    ParsePlus(Decimal(first));
    OnlyNumbersCount("+" + Decimal(first), "", Decimal(first), "", total);
    OpenRange(first, total);
    EndsInDash(Decimal(first));
    NotGrammatical("+" + Decimal(first), "");
  }

  lemma SignedLengthIsHonoured(n: nat, total: int)
    requires 0 < n <= MAX_INT64 && n <= total
    ensures ParseRange(PREFIX + "" + "-" + ("+" + Decimal(n)), total) == Some((total - n, total - 1))
    ensures !Grammatical(PREFIX + "" + "-" + ("+" + Decimal(n)))
  {
    DigitsHoldNoMark(Decimal(n));
    ParsePlus(Decimal(n));
    OnlyNumbersCount("", "+" + Decimal(n), "", Decimal(n), total);
    SuffixRange(n, total);
    assert PREFIX + "" + "-" + Decimal(n) == PREFIX + "-" + Decimal(n);
    NotGrammatical("", "+" + Decimal(n));
  }

  // ---------------------------------------------------------------- reading a limited file

  lemma JoinAssociates(a: Bytes, b: Bytes, c: Bytes)
    ensures a + b + c == a + (b + c) && |b + c| == |b| + |c|
  {
  }

  class LimitedFile {
    const data: Bytes
    var position: nat
    var remaining: int

    ghost predicate Valid()
      reads this
    {
      position <= |data|
    }

    /** What is still to come: the rest of the file, cut at the limit. */
    ghost function Rest(): Bytes
      requires Valid()
      reads this
    {
      if remaining <= 0 then [] else data[position..Min(position + remaining, |data|)]
    }

    constructor (data: Bytes, position: nat, remaining: int)
      requires position <= |data|
      ensures Valid() && Rest() == if remaining <= 0 then [] else data[position..Min(position + remaining, |data|)]
    {
      this.data, this.position, this.remaining := data, position, remaining;
    }

    /** One Read of at most `size` bytes; the file itself may give as few as `short` of them. */
    method Read(size: nat, short: nat) returns (bytes: Bytes, eof: bool)
      requires Valid() && 1 <= short
      modifies this
      ensures Valid() && |bytes| <= size && bytes + Rest() == old(Rest())
      ensures size > 0 ==> (eof <==> old(Rest()) == []) && (!eof ==> bytes != [])
    {
      if remaining <= 0 {
        return [], true;
      }
      var ask := Min(size, remaining);
      var n := Min(Min(ask, short), |data| - position);
      bytes, eof := data[position..position + n], n == 0 && ask > 0;
      ghost var rest := Rest();
      position, remaining := position + n, remaining - n;
      assert bytes + Rest() == rest;
    }

    /** Reading to the end, in whatever pieces the file comes, gives exactly the range. */
    method ReadAll(size: nat, shorts: nat -> nat) returns (all: Bytes)
      requires Valid() && size > 0 && forall i :: shorts(i) >= 1
      modifies this
      ensures all == old(Rest())
    {
      all := [];
      var eof, turn := false, 0;
      while !eof
        invariant Valid() && all + Rest() == old(Rest())
        invariant eof ==> Rest() == []
        decreases |Rest()|, if eof then 0 else 1
      {
        var bytes;
        bytes, eof := Read(size, shorts(turn));
        JoinAssociates(all, bytes, Rest());
        all, turn := all + bytes, turn + 1;
      }
    }
  }
}
