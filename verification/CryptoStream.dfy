// Encrypted objects: a plaintext cut into packages of 64 KiB, each sealed with its sequence
// number. PlanRange picks the packages that cover a plaintext range.
module CryptoStream {
  import opened Prelude
  import opened RangeHeader

  const PKG := 65536
  const OVERHEAD := 32
  const ENC_PKG := PKG + OVERHEAD
  /** The largest plaintext the format allows, 2^48. */
  const MAX_PLAIN := 0x1_0000_0000_0000
  const TWO_TO_32 := 0x1_0000_0000

  // ---------------------------------------------------------------- sizes

  /** sio.EncryptedSize; a negative size is converted to a huge unsigned one. */
  function EncryptedSize(plain: int): Option<int> {
    if plain < 0 || plain > MAX_PLAIN then None else Some(SealedSize(plain))
  }

  function SealedSize(plain: nat): nat {
    plain / PKG * ENC_PKG + (if plain % PKG > 0 then plain % PKG + OVERHEAD else 0)
  }

  /** sio.DecryptedSize. */
  function PlainSize(enc: int): Option<int> {
    if enc < 0 || enc > MAX_PLAIN + OVERHEAD * TWO_TO_32 then None
    else
      var rest := enc % ENC_PKG;
      if 0 < rest <= OVERHEAD then None
      else Some(enc / ENC_PKG * PKG + (if rest > 0 then rest - OVERHEAD else 0))
  }

  /** The two sizes determine each other. */
  lemma SizesInvert(plain: int, enc: int)
    requires EncryptedSize(plain).Some? && PlainSize(enc).Some?
    ensures PlainSize(EncryptedSize(plain).value) == Some(plain)
    ensures PlainSize(enc).value <= MAX_PLAIN ==> EncryptedSize(PlainSize(enc).value) == Some(enc)
  {
    DivideBack(plain / PKG, if plain % PKG > 0 then plain % PKG + OVERHEAD else 0);
    var rest := enc % ENC_PKG;
    assert PlainSize(enc).value == enc / ENC_PKG * PKG + (if rest > 0 then rest - OVERHEAD else 0);
  }

  /** A sealed object has 32 bytes more for each package of 65536 bytes it begins. */
  lemma SizesInNumbers(plain: int)
    ensures EncryptedSize(plain) ==
            if 0 <= plain <= 281_474_976_710_656 then Some(plain + 32 * ((plain + 65535) / 65536)) else None
  {
  }

  lemma DivideBack(q: nat, r: nat)
    requires r < ENC_PKG
    ensures (q * ENC_PKG + r) / ENC_PKG == q && (q * ENC_PKG + r) % ENC_PKG == r
  {
  }

  lemma SealedSizeStep(plain: nat)
    requires plain >= PKG
    ensures SealedSize(plain) == ENC_PKG + SealedSize(plain - PKG)
  {
    assert (plain - PKG) / PKG == plain / PKG - 1 && (plain - PKG) % PKG == plain % PKG;
  }

  // ---------------------------------------------------------------- packages

  /** The authenticated encryption of one package: sequence number, last-package flag, plaintext. */
  datatype Cipher = Cipher(seal: (nat, bool, Bytes) -> Bytes, open: (nat, Bytes) -> Option<Bytes>)

  /** All that is assumed of it. */
  ghost predicate Sound(c: Cipher) {
    forall s: nat, last: bool, chunk: Bytes | 0 < |chunk| <= PKG ::
      |c.seal(s, last, chunk)| == |chunk| + OVERHEAD && c.open(s, c.seal(s, last, chunk)) == Some(chunk)
  }

  function Encrypt(c: Cipher, plain: Bytes, s: nat): Bytes {
    if plain == [] then []
    else if |plain| <= PKG then c.seal(s, true, plain)
    else c.seal(s, false, plain[..PKG]) + Encrypt(c, plain[PKG..], s + 1)
  }

  /** What the decrypting reader yields before its first error: whole packages from sequence number s on. */
  function Decrypted(c: Cipher, enc: Bytes, s: nat): Bytes
    decreases |enc|
  {
    if enc == [] then []
    else
      var n := Min(ENC_PKG, |enc|);
      match c.open(s, enc[..n])
      case None => []
      case Some(chunk) => chunk + Decrypted(c, enc[n..], s + 1)
  }

  lemma {:induction false} EncryptedLength(c: Cipher, plain: Bytes, s: nat)
    requires Sound(c)
    ensures |Encrypt(c, plain, s)| == SealedSize(|plain|)
    decreases |plain|
  {
    if |plain| > PKG {
      EncryptedLength(c, plain[PKG..], s + 1);
      SealedSizeStep(|plain|);
    }
  }

  lemma DropMore(whole: Bytes, rest: Bytes, n: nat, m: nat)
    requires n + m <= |whole| && whole[n..] == rest
    ensures whole[n + m..] == rest[m..]
  {
  }

  lemma FirstPackage(c: Cipher, plain: Bytes, s: nat)
    requires Sound(c) && |plain| > PKG
    ensures |Encrypt(c, plain, s)| == ENC_PKG + |Encrypt(c, plain[PKG..], s + 1)|
    ensures Encrypt(c, plain, s)[ENC_PKG..] == Encrypt(c, plain[PKG..], s + 1)
  {
  }

  lemma DropFirst(c: Cipher, plain: Bytes, s: nat, m: nat, n: nat, at: nat)
    requires Sound(c) && PKG + m < |plain| && n <= |Encrypt(c, plain[PKG..], s + 1)|
    requires Encrypt(c, plain[PKG..], s + 1)[n..] == Encrypt(c, plain[PKG..][m..], at)
    ensures ENC_PKG + n <= |Encrypt(c, plain, s)|
    ensures Encrypt(c, plain, s)[ENC_PKG + n..] == Encrypt(c, plain[PKG + m..], at)
  {
    FirstPackage(c, plain, s);
    DropMore(Encrypt(c, plain, s), Encrypt(c, plain[PKG..], s + 1), ENC_PKG, n);
    DropMore(plain, plain[PKG..], PKG, m);
  }

  lemma OneMorePackage(k: nat)
    requires k > 0
    ensures k * PKG == PKG + (k - 1) * PKG && k * ENC_PKG == ENC_PKG + (k - 1) * ENC_PKG
  {
  }

  /** Dropping whole packages from the front drops as much plaintext, and moves the sequence number. */
  lemma {:induction false} DropPackages(c: Cipher, plain: Bytes, s: nat, k: nat)
    requires Sound(c) && k * PKG < |plain|
    ensures k * ENC_PKG <= |Encrypt(c, plain, s)|
    ensures Encrypt(c, plain, s)[k * ENC_PKG..] == Encrypt(c, plain[k * PKG..], s + k)
    decreases k
  {
    if k > 0 {
      OneMorePackage(k);
      DropPackages(c, plain[PKG..], s + 1, k - 1);
      DropFirst(c, plain, s, (k - 1) * PKG, (k - 1) * ENC_PKG, s + k);
    } else {
      assert plain[0..] == plain;
    }
  }

  lemma TakeOfJoined(head: Bytes, rest: Bytes, n: nat)
    requires n <= |rest|
    ensures (head + rest)[..|head| + n] == head + rest[..n]
  {
  }

  lemma FirstPackageOpens(c: Cipher, chunk: Bytes, rest: Bytes, s: nat)
    requires Sound(c) && |chunk| == PKG
    ensures Decrypted(c, c.seal(s, false, chunk) + rest, s) == chunk + Decrypted(c, rest, s + 1)
  {
    var enc := c.seal(s, false, chunk) + rest;
    assert enc[..ENC_PKG] == c.seal(s, false, chunk) && enc[ENC_PKG..] == rest;
  }

  /** A run of packages may end at a package boundary, or where the plaintext ends. */
  predicate EndsRun(n: int, total: int) { n % PKG == 0 || n == total }

  lemma EndsRunStep(n: nat, total: nat)
    requires EndsRun(n, total) && 0 < n <= total && total > PKG
    ensures n >= PKG && EndsRun(n - PKG, total - PKG)
  {
  }

  /** A run of packages cut at a package boundary, or at the end, decrypts to that much plaintext. */
  lemma {:induction false} DecryptPrefix(c: Cipher, plain: Bytes, s: nat, n: nat)
    requires Sound(c) && n <= |plain| && EndsRun(n, |plain|)
    ensures SealedSize(n) <= |Encrypt(c, plain, s)|
    ensures Decrypted(c, Encrypt(c, plain, s)[..SealedSize(n)], s) == plain[..n]
    decreases n
  {
    var enc := Encrypt(c, plain, s);
    EncryptedLength(c, plain, s);
    if n == 0 {
    } else if |plain| <= PKG {
      assert n == |plain|;
      assert enc[..SealedSize(n)] == enc && enc[|enc|..] == [];
      assert plain[..n] == plain;
    } else {
      EndsRunStep(n, |plain|);
      DecryptPrefix(c, plain[PKG..], s + 1, n - PKG);
      PrefixMore(c, plain, s, n);
    }
  }

  lemma PrefixMore(c: Cipher, plain: Bytes, s: nat, n: nat)
    requires Sound(c) && PKG <= n <= |plain| && |plain| > PKG
    requires SealedSize(n - PKG) <= |Encrypt(c, plain[PKG..], s + 1)|
    requires Decrypted(c, Encrypt(c, plain[PKG..], s + 1)[..SealedSize(n - PKG)], s + 1) == plain[PKG..][..n - PKG]
    ensures SealedSize(n) <= |Encrypt(c, plain, s)|
    ensures Decrypted(c, Encrypt(c, plain, s)[..SealedSize(n)], s) == plain[..n]
  {
    SealedSizeStep(n);
    var rest := Encrypt(c, plain[PKG..], s + 1);
    TakeOfJoined(c.seal(s, false, plain[..PKG]), rest, SealedSize(n - PKG));
    FirstPackageOpens(c, plain[..PKG], rest[..SealedSize(n - PKG)], s);
    TakeOfJoined(plain[..PKG], plain[PKG..], n - PKG);
    assert plain == plain[..PKG] + plain[PKG..];
  }

  // ---------------------------------------------------------------- planning

  /** Which encrypted bytes to read, the sequence number of the first package, and what to keep. */
  datatype Range = Range(encStart: int, encEnd: int, seqNo: int, skip: int, length: int)

  function PlanRange(start: int, end: int, plainTotal: int): Option<Range> {
    if start < 0 || end > plainTotal || start >= end then None
    else
      var firstPkg := start / PKG;
      var lastPkg := (end - 1) / PKG;
      var covered := Wrap64((lastPkg + 1) * PKG);
      var encEnd := EncryptedSize(if covered > plainTotal then plainTotal else covered);
      if encEnd.None? then None
      else Some(Range(firstPkg * ENC_PKG, encEnd.value, firstPkg % TWO_TO_32, start - firstPkg * PKG, end - start))
  }

  /** A plan exists exactly for a non-empty range of the object that ends within the format's limit. */
  lemma PlanExists(start: int, end: int, plainTotal: int)
    requires plainTotal <= MAX_INT64
    ensures PlanRange(start, end, plainTotal).Some? <==> 0 <= start < end <= plainTotal && end <= MAX_PLAIN
  {
    if 0 <= start < end <= plainTotal {
      var covered := ((end - 1) / PKG + 1) * PKG;
      assert end <= covered < end + PKG && covered % PKG == 0;
      if covered <= MAX_INT64 {
        assert Wrap64(covered) == covered;
      } else {
        assert Wrap64(covered) == covered - TWO_TO_64;
      }
    }
  }

  /**
   The plan in numbers: from the package of the first byte to the end of that of the last byte, or of the
   object; packages have 65536 bytes, and 65568 when sealed.
   */
  lemma PlanInNumbers(start: int, end: int, plainTotal: int)
    requires 0 <= start < end <= plainTotal <= MAX_INT64 && end <= MAX_PLAIN
    ensures var last := Min(((end - 1) / 65536 + 1) * 65536, plainTotal);
            PlanRange(start, end, plainTotal) ==
              Some(Range(start / 65536 * 65568, last + 32 * ((last + 65535) / 65536), start / 65536, start % 65536,
                         end - start))
  {
    PlanFits(start, end, plainTotal);
    SizesInNumbers(Min(((end - 1) / PKG + 1) * PKG, plainTotal));
  }

  /** CopyN to nowhere, then CopyN to the client; fails if the reader ends first. */
  function DecryptRange(c: Cipher, enc: Bytes, r: Range): Option<Bytes>
    requires r.seqNo >= 0 && r.skip >= 0 && r.length >= 0
  {
    var plain := Decrypted(c, enc, r.seqNo);
    if |plain| < r.skip + r.length then None else Some(plain[r.skip..r.skip + r.length])
  }

  lemma PlanFits(start: int, end: int, plainTotal: int)
    requires 0 <= start < end <= plainTotal <= MAX_INT64 && end <= MAX_PLAIN
    ensures PlanRange(start, end, plainTotal).Some?
    ensures var first, n := start / PKG, Min(((end - 1) / PKG + 1) * PKG, plainTotal);
            PlanRange(start, end, plainTotal).value ==
              Range(first * ENC_PKG, SealedSize(n), first, start - first * PKG, end - start)
    ensures 0 <= start / PKG < TWO_TO_32
  {
    PlanExists(start, end, plainTotal);
    assert Wrap64(((end - 1) / PKG + 1) * PKG) == ((end - 1) / PKG + 1) * PKG;
  }

  lemma {:induction false} SealedSizeShift(n: nat, k: nat)
    requires k * PKG <= n
    ensures SealedSize(n) == k * ENC_PKG + SealedSize(n - k * PKG)
    decreases k
  {
    if k > 0 {
      SealedSizeShift(n - PKG, k - 1);
      SealedSizeStep(n);
    }
  }

  /** Packages `first` up to plaintext position n decrypt to that stretch of the plaintext. */
  lemma RunDecrypts(c: Cipher, plain: Bytes, first: nat, n: nat)
    requires Sound(c) && first * PKG < n <= |plain| && EndsRun(n - first * PKG, |plain| - first * PKG)
    ensures first * ENC_PKG < SealedSize(n) <= |Encrypt(c, plain, 0)|
    ensures Decrypted(c, Encrypt(c, plain, 0)[first * ENC_PKG..SealedSize(n)], first) == plain[first * PKG..n]
  {
    var enc, tail, m := Encrypt(c, plain, 0), plain[first * PKG..], n - first * PKG;
    DropPackages(c, plain, 0, first);
    SealedSizeShift(n, first);
    DecryptPrefix(c, tail, first, m);
    TakeOfDrop(enc, first * ENC_PKG, SealedSize(m));
    TakeOfDrop(plain, first * PKG, m);
  }

  lemma TakeOfDrop(whole: Bytes, from: nat, n: nat)
    requires from + n <= |whole|
    ensures whole[from..][..n] == whole[from..from + n]
  {
  }

  lemma SliceOfSlice(whole: Bytes, from: nat, to: nat, a: nat, b: nat)
    requires from <= to <= |whole| && a <= b <= to - from
    ensures whole[from..to][a..b] == whole[from + a..from + b]
  {
    var inner, slice := whole[from..to][a..b], whole[from + a..from + b];
    assert |inner| == |slice| && forall i | 0 <= i < |slice| :: inner[i] == slice[i];
  }

  lemma SliceDecrypts(c: Cipher, plain: Bytes, start: int, end: int, first: nat, n: nat)
    requires Sound(c) && first * PKG <= start < end <= n <= |plain| && EndsRun(n - first * PKG, |plain| - first * PKG)
    ensures 0 <= first * ENC_PKG < SealedSize(n) <= |Encrypt(c, plain, 0)|
    ensures DecryptRange(c, Encrypt(c, plain, 0)[first * ENC_PKG..SealedSize(n)],
                         Range(first * ENC_PKG, SealedSize(n), first, start - first * PKG, end - start)) ==
                           Some(plain[start..end])
  {
    RunDecrypts(c, plain, first, n);
    SliceOfSlice(plain, first * PKG, n, start - first * PKG, end - first * PKG);
  }

  /** The packages a plan covers, by the first package and the plaintext position it ends at. */
  lemma PlanShape(start: int, end: int, plainTotal: int) returns (first: nat, n: nat)
    requires 0 <= start < end <= plainTotal <= MAX_INT64 && end <= MAX_PLAIN
    ensures first < TWO_TO_32 && first * PKG <= start < end <= n <= plainTotal
    ensures EndsRun(n - first * PKG, plainTotal - first * PKG)
    ensures PlanRange(start, end, plainTotal) ==
            Some(Range(first * ENC_PKG, SealedSize(n), first, start - first * PKG, end - start))
  {
    PlanFits(start, end, plainTotal);
    var last := (end - 1) / PKG + 1;
    first, n := start / PKG, Min(last * PKG, plainTotal);
    MultipleOrEnd(n, first, plainTotal, last);
  }

  /** The planned packages exist, and decrypting them yields exactly the requested plaintext. */
  lemma PlannedRangeDecrypts(c: Cipher, plain: Bytes, start: int, end: int) returns (r: Range)
    requires Sound(c) && 0 <= start < end <= |plain| <= MAX_INT64 && end <= MAX_PLAIN
    ensures PlanRange(start, end, |plain|) == Some(r)
    ensures 0 <= r.encStart < r.encEnd <= |Encrypt(c, plain, 0)| == SealedSize(|plain|)
    ensures 0 <= r.seqNo < TWO_TO_32 && 0 <= r.skip && 0 <= r.length
    ensures DecryptRange(c, Encrypt(c, plain, 0)[r.encStart..r.encEnd], r) == Some(plain[start..end])
  {
    EncryptedLength(c, plain, 0);
    var first, n := PlanShape(start, end, |plain|);
    SliceDecrypts(c, plain, start, end, first, n);
    r := Range(first * ENC_PKG, SealedSize(n), first, start - first * PKG, end - start);
  }

  lemma MultipleOrEnd(n: nat, first: nat, total: nat, last: nat)
    requires n == Min(last * PKG, total) && first * PKG <= n
    ensures EndsRun(n - first * PKG, total - first * PKG)
  {
    if n == last * PKG {
      assert n - first * PKG == (last - first) * PKG;
    }
  }

  /** DecryptRange as it runs: package by package, until enough plaintext has come. */
  method DecryptRangeLoop(c: Cipher, enc: Bytes, r: Range) returns (out: Option<Bytes>)
    requires r.seqNo >= 0 && r.skip >= 0 && r.length >= 0
    ensures out == DecryptRange(c, enc, r)
  {
    var plain, rest, s := [], enc, r.seqNo;
    while |plain| < r.skip + r.length && rest != []
      invariant s >= 0 && plain + Decrypted(c, rest, s) == Decrypted(c, enc, r.seqNo)
      decreases |rest|
    {
      var n := Min(ENC_PKG, |rest|);
      var chunk := c.open(s, rest[..n]);
      if chunk.None? {
        return None;
      }
      ghost var before, later := plain, Decrypted(c, rest[n..], s + 1);
      assert before + (chunk.value + later) == before + chunk.value + later;
      plain, rest, s := plain + chunk.value, rest[n..], s + 1;
    }
    if |plain| < r.skip + r.length {
      return None;
    }
    assert Decrypted(c, enc, r.seqNo)[r.skip..r.skip + r.length] == plain[r.skip..r.skip + r.length];
    return Some(plain[r.skip..r.skip + r.length]);
  }

  // ---------------------------------------------------------------- serving an encrypted object

  /** The storage backend's answer: the part of the file, or the whole file if the header named none. */
  method ReadPart(enc: Bytes, part: Option<(int, int)>, size: nat, shorts: nat -> nat) returns (sealed: Bytes)
    requires size > 0 && forall i :: shorts(i) >= 1
    requires part.Some? ==> 0 <= part.value.0 <= part.value.1 < |enc|
    ensures sealed == if part.None? then enc else enc[part.value.0..part.value.1 + 1]
  {
    if part.None? {
      return enc;
    }
    var (start, end) := part.value;
    var file := new LimitedFile(enc, start, end - start + 1);
    sealed := file.ReadAll(size, shorts);
  }

  lemma PlannedHeader(r: Range, total: int, part: Option<(int, int)>)
    requires 0 <= r.encStart < r.encEnd <= MAX_INT64
    requires part == ParseRange(PREFIX + Decimal(r.encStart) + "-" + Decimal(r.encEnd - 1), total)
    ensures part == if r.encStart < total then Some((r.encStart, Min(r.encEnd - 1, total - 1))) else None
  {
    BoundedRange(r.encStart, r.encEnd - 1, total);
  }

  /** Fetching the planned range, which reaches the backend as a header of its own. */
  method FetchSealed(enc: Bytes, r: Range, size: nat, shorts: nat -> nat) returns (sealed: Bytes)
    requires size > 0 && (forall i :: shorts(i) >= 1) && 0 <= r.encStart < r.encEnd <= MAX_INT64
    ensures r.encEnd <= |enc| ==> sealed == enc[r.encStart..r.encEnd]
  {
    var part := ParseRange(PREFIX + Decimal(r.encStart) + "-" + Decimal(r.encEnd - 1), |enc|);
    PlannedHeader(r, |enc|, part);
    sealed := ReadPart(enc, part, size, shorts);
  }

  /** The body for a range inside the object; None if it breaks off. */
  method SendPlanned(c: Cipher, start: int, end: int, plainTotal: int, enc: Bytes, size: nat, shorts: nat -> nat)
    returns (body: Option<Bytes>)
    requires size > 0 && (forall i :: shorts(i) >= 1) && 0 <= start <= end < plainTotal <= MAX_PLAIN
    ensures forall plain: Bytes | Sound(c) && enc == Encrypt(c, plain, 0) && |plain| == plainTotal ::
              body == Some(plain[start..end + 1])
  {
    ghost var planned := PlanOrdered(start, end + 1, plainTotal);
    var r := PlanRange(start, end + 1, plainTotal).value;
    var sealed := FetchSealed(enc, r, size, shorts);
    body := DecryptRangeLoop(c, sealed, r);
    forall plain: Bytes | Sound(c) && enc == Encrypt(c, plain, 0) && |plain| == plainTotal
      ensures body == Some(plain[start..end + 1])
    {
      var same := PlannedRangeDecrypts(c, plain, start, end + 1);
    }
  }

  /** serve, once the header is parsed; a range inside the object is accepted exactly when there is one. */
  method ServeParsed(c: Cipher, parsed: Option<(int, int)>, plainTotal: int, enc: Bytes, size: nat, shorts: nat -> nat)
    returns (status: int, body: Option<Bytes>)
    requires size > 0 && (forall i :: shorts(i) >= 1) && 0 <= plainTotal <= MAX_PLAIN
    requires parsed.Some? ==> (0 <= parsed.value.0 <= parsed.value.1 < plainTotal <==> plainTotal > 0)
    ensures status == if parsed.None? || plainTotal == 0 then 416 else 206
    ensures forall plain: Bytes | Sound(c) && enc == Encrypt(c, plain, 0) && |plain| == plainTotal && status == 206 ::
              body == Some(plain[parsed.value.0..parsed.value.1 + 1])
  {
    if parsed.None? {
      return 416, None;
    }
    var (start, end) := parsed.value;
    PlanExists(start, end + 1, plainTotal);
    if PlanRange(start, end + 1, plainTotal).None? {
      return 416, None;
    }
    status := 206;
    body := SendPlanned(c, start, end, plainTotal, enc, size, shorts);
  }

  lemma ParsedRangeFits(header: string, total: int, range: Option<(int, int)>)
    requires range == ParseRange(header, total)
    ensures range.Some? ==> (0 <= range.value.0 <= range.value.1 < total <==> total > 0)
  {
    if range.Some? {
      AcceptedRangesFit(header, total);
    }
  }

  /** DecryptAll gives back what was encrypted. */
  lemma WholeDecrypts(c: Cipher, plain: Bytes)
    requires Sound(c)
    ensures Decrypted(c, Encrypt(c, plain, 0), 0) == plain
  {
    EncryptedLength(c, plain, 0);
    DecryptPrefix(c, plain, 0, |plain|);
    assert Encrypt(c, plain, 0)[..SealedSize(|plain|)] == Encrypt(c, plain, 0) && plain[..|plain|] == plain;
  }

  /**
   The answer to a request for an encrypted object kept as a plain file: everything if no range is
   asked for; otherwise 416, or 206 with the range that Content-Range names and the body. `shorts`
   are the sizes the file's reads come in.
   */
  method ServeRange(c: Cipher, header: string, plainTotal: int, enc: Bytes, size: nat, shorts: nat -> nat)
    returns (status: int, range: Option<(int, int)>, body: Option<Bytes>)
    requires size > 0 && (forall i :: shorts(i) >= 1) && 0 <= plainTotal <= MAX_PLAIN
    ensures range == ParseRange(header, plainTotal)
    ensures status == if header == "" then 200 else if range.None? || plainTotal == 0 then 416 else 206
    ensures forall plain: Bytes | Sound(c) && enc == Encrypt(c, plain, 0) && |plain| == plainTotal ::
              && (status == 200 ==> body == Some(plain))
              && (status == 206 ==>
                    && 0 <= range.value.0 <= range.value.1 < |plain|
                    && body == Some(plain[range.value.0..range.value.1 + 1]))
  {
    range := ParseRange(header, plainTotal);
    if header == "" {
      forall plain: Bytes | Sound(c) && enc == Encrypt(c, plain, 0)
        ensures Decrypted(c, enc, 0) == plain
      {
        WholeDecrypts(c, plain);
      }
      return 200, range, Some(Decrypted(c, enc, 0));
    }
    ParsedRangeFits(header, plainTotal, range);
    status, body := ServeParsed(c, range, plainTotal, enc, size, shorts);
  }

  lemma SealedSizeFits(n: nat)
    requires n <= MAX_PLAIN
    ensures SealedSize(n) <= MAX_INT64
  {
  }

  lemma PlanOrdered(start: int, end: int, plainTotal: int) returns (r: Range)
    requires 0 <= start < end <= plainTotal <= MAX_PLAIN
    ensures PlanRange(start, end, plainTotal) == Some(r)
    ensures 0 <= r.encStart < r.encEnd <= MAX_INT64 && r.seqNo >= 0 && r.skip >= 0 && r.length >= 0
  {
    var first, n := PlanShape(start, end, plainTotal);
    SealedSizeShift(n, first);
    SealedSizeFits(n);
    r := Range(first * ENC_PKG, SealedSize(n), first, start - first * PKG, end - start);
  }
}
