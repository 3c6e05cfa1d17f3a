// One file of a Usenet post as a seekable byte source: the layout of its segments, the window of
// decoded segments kept in memory, and ReadAt.
module SegmentReader {
  import opened Prelude

  const READ_AHEAD := 16
  const MAX_CACHED := 32

  /** One <segment> of the post's index. */
  datatype Part = Part(number: int, bytes: int, messageId: string)

  datatype Segment = Segment(part: Part, start: int, end: int)

  /** A decoded article: its bytes, and where it says it begins (counted from one, zero if it does not say). */
  datatype Article = Article(begin: int, data: Bytes)

  // ---------------------------------------------------------------- sorting by number

  function Insert(p: Part, parts: seq<Part>): seq<Part> {
    if parts == [] || p.number <= parts[0].number then [p] + parts else [parts[0]] + Insert(p, parts[1..])
  }

  /** sort.SliceStable by segment number. */
  function SortByNumber(parts: seq<Part>): seq<Part> {
    if parts == [] then [] else Insert(parts[0], SortByNumber(parts[1..]))
  }

  ghost predicate Ascending(parts: seq<Part>) {
    forall i, j | 0 <= i < j < |parts| :: parts[i].number <= parts[j].number
  }

  function Numbered(parts: seq<Part>, n: int): seq<Part> {
    if parts == [] then [] else (if parts[0].number == n then [parts[0]] else []) + Numbered(parts[1..], n)
  }

  function TotalBytes(parts: seq<Part>): int {
    if parts == [] then 0 else TotalBytes(parts[..|parts| - 1]) + parts[|parts| - 1].bytes
  }

  lemma {:induction false} InsertKeepsMembers(p: Part, parts: seq<Part>)
    ensures multiset(Insert(p, parts)) == multiset([p] + parts)
  {
    if parts != [] && p.number > parts[0].number {
      InsertKeepsMembers(p, parts[1..]);
      assert parts == [parts[0]] + parts[1..];
    }
  }

  lemma {:induction false} InsertAscends(p: Part, parts: seq<Part>)
    requires Ascending(parts)
    ensures Ascending(Insert(p, parts))
  {
    if parts != [] && p.number > parts[0].number {
      InsertAscends(p, parts[1..]);
      InsertKeepsMembers(p, parts[1..]);
      var rest := Insert(p, parts[1..]);
      forall k | 0 <= k < |rest|
        ensures parts[0].number <= rest[k].number
      {
        assert rest[k] in multiset(rest);
        assert rest[k] in [p] + parts[1..];
      }
    }
  }

  lemma {:induction false} InsertIsStable(p: Part, parts: seq<Part>, n: int)
    ensures Numbered(Insert(p, parts), n) == Numbered([p], n) + Numbered(parts, n)
  {
    if parts == [] || p.number <= parts[0].number {
      assert ([p] + parts)[1..] == parts;
    } else {
      InsertIsStable(p, parts[1..], n);
      assert ([parts[0]] + Insert(p, parts[1..]))[1..] == Insert(p, parts[1..]);
    }
  }

  lemma {:induction false} SortKeepsMembers(parts: seq<Part>)
    ensures multiset(SortByNumber(parts)) == multiset(parts)
  {
    if parts != [] {
      SortKeepsMembers(parts[1..]);
      InsertKeepsMembers(parts[0], SortByNumber(parts[1..]));
      assert parts == [parts[0]] + parts[1..];
    }
  }

  lemma {:induction false} SortAscends(parts: seq<Part>)
    ensures Ascending(SortByNumber(parts))
  {
    if parts != [] {
      SortAscends(parts[1..]);
      InsertAscends(parts[0], SortByNumber(parts[1..]));
    }
  }

  /** Parts of equal number keep their order. */
  lemma {:induction false} SortIsStable(parts: seq<Part>, n: int)
    ensures Numbered(SortByNumber(parts), n) == Numbered(parts, n)
  {
    if parts != [] {
      SortIsStable(parts[1..], n);
      InsertIsStable(parts[0], SortByNumber(parts[1..]), n);
    }
  }

  lemma {:induction false} TotalFromFront(parts: seq<Part>)
    requires parts != []
    ensures TotalBytes(parts) == parts[0].bytes + TotalBytes(parts[1..])
  {
    if |parts| > 1 {
      TotalFromFront(parts[..|parts| - 1]);
      assert parts[..|parts| - 1][1..] == parts[1..][..|parts| - 2];
    }
  }

  lemma {:induction false} InsertKeepsTotal(p: Part, parts: seq<Part>)
    ensures TotalBytes(Insert(p, parts)) == p.bytes + TotalBytes(parts)
  {
    TotalFromFront(Insert(p, parts));
    if parts != [] && p.number > parts[0].number {
      InsertKeepsTotal(p, parts[1..]);
      TotalFromFront(parts);
    }
  }

  lemma {:induction false} SortKeepsTotal(parts: seq<Part>)
    ensures TotalBytes(SortByNumber(parts)) == TotalBytes(parts)
  {
    if parts != [] {
      SortKeepsTotal(parts[1..]);
      InsertKeepsTotal(parts[0], SortByNumber(parts[1..]));
      TotalFromFront(parts);
    }
  }

  // ---------------------------------------------------------------- layout

  predicate ValidPart(p: Part) { p.bytes > 0 && p.messageId != "" }

  predicate LaidAt(segs: seq<Segment>, i: nat)
    requires i < |segs|
  {
    && segs[i].start == (if i == 0 then 0 else segs[i - 1].end)
    && segs[i].end == segs[i].start + segs[i].part.bytes && ValidPart(segs[i].part)
  }

  /** Each segment begins where the one before it ends. */
  ghost predicate Laid(segs: seq<Segment>) {
    forall i: nat | i < |segs| :: LaidAt(segs, i)
  }

  function Size(segs: seq<Segment>): int { if segs == [] then 0 else segs[|segs| - 1].end }

  function PartsOf(segs: seq<Segment>): seq<Part> {
    seq(|segs|, i requires 0 <= i < |segs| => segs[i].part)
  }

  lemma {:induction false} LaidGrows(segs: seq<Segment>, i: nat, j: nat)
    requires Laid(segs) && i <= j < |segs|
    ensures 0 <= segs[i].start < segs[i].end <= segs[j].end && (i < j ==> segs[i].end <= segs[j].start)
  {
    assert LaidAt(segs, j);
    if i < j {
      LaidGrows(segs, i, j - 1);
    } else if i > 0 {
      LaidGrows(segs, i - 1, i - 1);
    }
  }

  lemma {:induction false} PrefixFits(parts: seq<Part>, k: nat)
    requires k <= |parts| && forall i | 0 <= i < |parts| :: ValidPart(parts[i])
    ensures TotalBytes(parts[..k]) <= TotalBytes(parts)
  {
    if k < |parts| {
      PrefixFits(parts[..|parts| - 1], k);
      assert parts[..|parts| - 1][..k] == parts[..k];
    } else {
      assert parts[..k] == parts;
    }
  }

  lemma LaidMore(segs: seq<Segment>, part: Part)
    requires Laid(segs) && ValidPart(part)
    ensures Laid(segs + [Segment(part, Size(segs), Size(segs) + part.bytes)])
  {
    var more := segs + [Segment(part, Size(segs), Size(segs) + part.bytes)];
    forall i: nat | i < |more|
      ensures LaidAt(more, i)
    {
      if i < |segs| {
        assert LaidAt(segs, i);
      }
    }
  }

  datatype OpenError = NoFetcher | NoSegments | InvalidSegment(number: int) | SizeOverflow

  /** The loop of NewReader, over the sorted parts. */
  method LayOutSorted(parts: seq<Part>) returns (error: Option<OpenError>, segs: seq<Segment>, size: int)
    requires forall i | 0 <= i < |parts| :: Int64(parts[i].bytes)
    ensures error.None? <==> (forall i | 0 <= i < |parts| :: ValidPart(parts[i])) && TotalBytes(parts) <= MAX_INT64
    ensures error.None? ==> Laid(segs) && PartsOf(segs) == parts && size == Size(segs) == TotalBytes(parts)
    ensures error.Some? && error.value.InvalidSegment? ==>
              exists i | 0 <= i < |parts| :: parts[i].number == error.value.number && !ValidPart(parts[i])
  {
    segs, size := [], 0;
    for i := 0 to |parts|
      invariant |segs| == i && Laid(segs) && PartsOf(segs) == parts[..i]
      invariant forall k | 0 <= k < i :: ValidPart(parts[k])
      invariant size == Size(segs) == TotalBytes(parts[..i]) && 0 <= size <= MAX_INT64
    {
      var part := parts[i];
      if part.bytes <= 0 || part.messageId == "" {
        return Some(InvalidSegment(part.number)), segs, size;
      }
      assert parts[..i + 1][..i] == parts[..i];
      var start := size;
      size := Add64(size, part.bytes);
      if size < start {
        if forall k | 0 <= k < |parts| :: ValidPart(parts[k]) {
          PrefixFits(parts, i + 1);
        }
        return Some(SizeOverflow), segs, size;
      }
      LaidMore(segs, part);
      segs := segs + [Segment(part, start, size)];
    }
    assert parts[..|parts|] == parts;
    error := None;
  }

  /** NewReader up to the reader itself: refused exactly when a part is invalid or the sizes pass int64. */
  method LayOut(hasFetcher: bool, file: seq<Part>) returns (error: Option<OpenError>, segs: seq<Segment>, size: int)
    requires forall i | 0 <= i < |file| :: Int64(file[i].bytes)
    ensures error.None? <==>
              && hasFetcher && file != [] && (forall p | p in file :: p.bytes > 0 && p.messageId != "")
              && TotalBytes(file) <= 0x7fff_ffff_ffff_ffff
    ensures error.None? ==> Laid(segs) && PartsOf(segs) == SortByNumber(file) && size == Size(segs) == TotalBytes(file)
    ensures error.Some? && error.value.InvalidSegment? ==>
              exists p | p in file :: p.number == error.value.number && !ValidPart(p)
  {
    segs, size := [], 0;
    if !hasFetcher {
      return Some(NoFetcher), segs, size;
    }
    if |file| == 0 {
      return Some(NoSegments), segs, size;
    }
    SortKeepsMembers(file);
    SortKeepsTotal(file);
    SameMembers(SortByNumber(file), file);
    assert forall p :: p in SortByNumber(file) ==> p in file && Int64(p.bytes);
    error, segs, size := LayOutSorted(SortByNumber(file));
  }

  lemma SameMembers(a: seq<Part>, b: seq<Part>)
    requires multiset(a) == multiset(b)
    ensures |a| == |b| && forall p :: p in a <==> p in b
  {
    assert |multiset(a)| == |a| && |multiset(b)| == |b|;
    assert forall p :: (p in a <==> p in multiset(a)) && (p in b <==> p in multiset(b));
  }

  // ---------------------------------------------------------------- contents

  /** What fetch accepts: an article of the announced size that begins where its segment does. */
  predicate Good(seg: Segment, articles: map<string, Article>) {
    && seg.part.messageId in articles
    && var article := articles[seg.part.messageId];
       |article.data| == seg.part.bytes && (article.begin > 0 ==> article.begin - 1 == seg.start)
  }

  function Decoded(seg: Segment, articles: map<string, Article>): Bytes
    requires Good(seg, articles)
  {
    articles[seg.part.messageId].data
  }

  /** The plain file: the segments one after another, with zeros for those that cannot be had. */
  function PlainFile(segs: seq<Segment>, articles: map<string, Article>): Bytes {
    if segs == [] then []
    else
      var last := segs[|segs| - 1];
      PlainFile(segs[..|segs| - 1], articles) +
      (if Good(last, articles) then Decoded(last, articles)
       else seq(if last.part.bytes < 0 then 0 else last.part.bytes, _ => 0))
  }

  lemma LaidFront(segs: seq<Segment>)
    requires Laid(segs) && segs != []
    ensures Laid(segs[..|segs| - 1]) && LaidAt(segs, |segs| - 1)
  {
    var front := segs[..|segs| - 1];
    forall i: nat | i < |front|
      ensures LaidAt(front, i)
    {
      assert LaidAt(segs, i);
    }
  }

  lemma {:induction false} PlainFileHolds(segs: seq<Segment>, articles: map<string, Article>, i: nat)
    requires Laid(segs) && i < |segs|
    ensures |PlainFile(segs, articles)| == Size(segs) && 0 <= segs[i].start < segs[i].end <= Size(segs)
    ensures Good(segs[i], articles) ==>
                PlainFile(segs, articles)[segs[i].start..segs[i].end] == Decoded(segs[i], articles)
  {
    var front := segs[..|segs| - 1];
    LaidGrows(segs, i, |segs| - 1);
    LaidFront(segs);
    if front != [] {
      PlainFileHolds(front, articles, if i < |front| then i else 0);
    }
    assert |PlainFile(front, articles)| == Size(front);
    var file := PlainFile(segs, articles);
    assert file[..|PlainFile(front, articles)|] == PlainFile(front, articles);
    if i < |front| {
      LaidGrows(segs, i, |front| - 1);
      assert file[segs[i].start..segs[i].end] == PlainFile(front, articles)[segs[i].start..segs[i].end];
    }
  }

  /** The segment's article holds its stretch of the content, and says nothing else about its place. */
  predicate PostedAs(seg: Segment, articles: map<string, Article>, content: Bytes) {
    && 0 <= seg.start <= seg.end <= |content| && seg.part.messageId in articles
    && var article := articles[seg.part.messageId];
       article.data == content[seg.start..seg.end] && (article.begin <= 0 || article.begin == seg.start + 1)
  }

  /** A post of this content: every segment has its article. */
  ghost predicate PostOf(segs: seq<Segment>, articles: map<string, Article>, content: Bytes) {
    |content| == Size(segs) && forall i: nat | i < |segs| :: PostedAs(segs[i], articles, content)
  }

  /** The segment's article is missing, or of another length, or it names another place. */
  predicate Misposted(seg: Segment, articles: map<string, Article>) {
    seg.part.messageId !in articles ||
    var article := articles[seg.part.messageId];
    |article.data| != seg.part.bytes || (article.begin > 0 && article.begin != seg.start + 1)
  }

  /** What is accepted is what is not misposted, and so every part of a post. */
  lemma GoodInFields(segs: seq<Segment>, articles: map<string, Article>, i: nat)
    requires Laid(segs) && i < |segs|
    ensures Good(segs[i], articles) <==> !Misposted(segs[i], articles)
    ensures forall content | PostedAs(segs[i], articles, content) ::
              Good(segs[i], articles) && Decoded(segs[i], articles) == content[segs[i].start..segs[i].end]
  {
    assert LaidAt(segs, i);
  }

  /** The plain file of a post is what was posted. */
  lemma {:induction false} PostIsPlain(segs: seq<Segment>, articles: map<string, Article>, content: Bytes)
    requires Laid(segs) && PostOf(segs, articles, content)
    ensures PlainFile(segs, articles) == content
  {
    if segs != [] {
      var i := |segs| - 1;
      var start := segs[i].start;
      LaidFront(segs);
      LaidGrows(segs, i, i);
      forall k: nat | k < i
        ensures PostedAs(segs[..i][k], articles, content[..start])
      {
        LaidGrows(segs, k, i);
        assert PostedAs(segs[k], articles, content);
        assert content[..start][segs[k].start..segs[k].end] == content[segs[k].start..segs[k].end];
      }
      assert Size(segs[..i]) == start;
      PostIsPlain(segs[..i], articles, content[..start]);
      GoodInFields(segs, articles, i);
      assert PostedAs(segs[i], articles, content);
      assert content == content[..start] + content[start..segs[i].end];
    }
  }

  lemma SliceOfRest(file: Bytes, start: int, end: int, at: int, n: int)
    requires 0 <= start <= end <= |file| && 0 <= at && 0 <= n && at + n <= end - start
    ensures file[start..end][at..at + n] == file[start + at..start + at + n]
  {
    var part := file[start..end];
    assert part[at..] == file[start + at..end] && part[at..at + n] == part[at..][..n];
    assert file[start + at..end][..n] == file[start + at..start + at + n];
  }

  lemma PieceOfFile(file: Bytes, start: int, end: int, data: Bytes, at: int, n: int)
    requires 0 <= start <= end <= |file| && data == file[start..end]
    requires 0 <= at && 0 <= n && at + n <= end - start
    ensures data[at..][..n] == file[start + at..start + at + n]
  {
    SliceOfRest(file, start, end, at, n);
    assert data[at..][..n] == data[at..at + n];
  }

  lemma PatchSlices(file: Bytes, buffer: Bytes, off: int, written: nat, n: nat)
    requires 0 <= off && off + written + n <= |file| && written + n <= |buffer|
    ensures Patched(Patched(buffer, 0, file[off..off + written]), written, file[off + written..off + written + n])
              == Patched(buffer, 0, file[off..off + written + n])
  {
    PatchTwice(buffer, 0, file[off..off + written], file[off + written..off + written + n]);
    assert file[off..off + written] + file[off + written..off + written + n] == file[off..off + written + n];
  }

  // ---------------------------------------------------------------- the window of decoded segments

  /** The decoded segments in memory, and the order they came in. */
  datatype Window = Window(cache: map<nat, Bytes>, order: seq<nat>)

  function Trim(w: Window): Window
    decreases |w.order|
  {
    if |w.order| > MAX_CACHED then Trim(Window(w.cache - {w.order[0]}, w.order[1..])) else w
  }

  function Stored(w: Window, i: nat, data: Bytes): Window {
    if i in w.cache then w else Trim(Window(w.cache[i := data], w.order + [i]))
  }

  /** The order lists each cached segment once. */
  ghost predicate Ordered(w: Window) {
    && (forall a, b | 0 <= a < b < |w.order| :: w.order[a] != w.order[b])
    && (forall i :: i in w.cache <==> i in w.order)
  }

  ghost predicate Decodes(w: Window, segs: seq<Segment>, articles: map<string, Article>) {
    forall i | i in w.cache :: i < |segs| && Good(segs[i], articles) && w.cache[i] == Decoded(segs[i], articles)
  }

  ghost predicate WindowOk(w: Window, segs: seq<Segment>, articles: map<string, Article>) {
    Ordered(w) && |w.order| <= MAX_CACHED && Decodes(w, segs, articles)
  }

  lemma PushKeepsOrder(w: Window, i: nat, data: Bytes)
    requires Ordered(w) && i !in w.cache
    ensures Ordered(Window(w.cache[i := data], w.order + [i]))
  {
  }

  lemma DropKeepsOrder(w: Window)
    requires Ordered(w) && w.order != []
    ensures Ordered(Window(w.cache - {w.order[0]}, w.order[1..]))
  {
    var first, rest := w.order[0], w.order[1..];
    forall i
      ensures i in rest <==> i in w.order && i != first
    {
      if i in w.order && i != first {
        var k :| 0 <= k < |w.order| && w.order[k] == i;
        assert rest[k - 1] == i;
      }
    }
  }

  /** Storing keeps the window within its size and true to the articles, and drops the oldest entry only when full. */
  lemma StoreKeeps(w: Window, segs: seq<Segment>, articles: map<string, Article>, i: nat)
    requires WindowOk(w, segs, articles) && i < |segs| && Good(segs[i], articles)
    ensures var w' := Stored(w, i, Decoded(segs[i], articles));
            && WindowOk(w', segs, articles) && i in w'.cache
            && |w'.order| <= 32 && w'.cache[i] == Decoded(segs[i], articles)
            && (i in w.cache ==> w' == w)
            && (i !in w.cache ==> w'.order == (if |w.order| == 32 then w.order[1..] else w.order) + [i])
  {
    if i !in w.cache {
      var data := Decoded(segs[i], articles);
      var pushed := Window(w.cache[i := data], w.order + [i]);
      PushKeepsOrder(w, i, data);
      if |w.order| == MAX_CACHED {
        DropKeepsOrder(pushed);
        assert pushed.order[1..] == w.order[1..] + [i];
        assert Trim(pushed) == Window(pushed.cache - {w.order[0]}, pushed.order[1..]);
        assert i in pushed.order[1..];
      } else {
        assert Trim(pushed) == pushed;
      }
    }
  }

  // ---------------------------------------------------------------- reading

  datatype ReadError = Eof | NegativeOffset | FetchFailed(segment: nat)

  /** The segment holds some of the bytes from off to end. */
  predicate Touched(seg: Segment, off: int, end: int) { seg.start < end && off < seg.end }

  class Reader {
    const segs: seq<Segment>
    const articles: map<string, Article>
    const size: int
    var cache: map<nat, Bytes>
    var order: seq<nat>

    ghost predicate Valid()
      reads this
    {
      Laid(segs) && segs != [] && size == Size(segs) && size <= MAX_INT64
        && WindowOk(Window(cache, order), segs, articles)
    }

    constructor (segs: seq<Segment>, size: int, articles: map<string, Article>)
      requires Laid(segs) && segs != [] && size == Size(segs) && size <= MAX_INT64
      ensures Valid() && this.segs == segs && this.articles == articles && cache == map[]
    {
      this.segs, this.size, this.articles, cache, order := segs, size, articles, map[], [];
    }

    /** sort.Search for the first segment that ends past `off`. */
    method FirstPast(off: int) returns (k: nat)
      requires Valid()
      ensures k <= |segs| && (forall i | 0 <= i < k :: segs[i].end <= off)
                && (forall i | k <= i < |segs| :: segs[i].end > off)
    {
      var i, j := 0, |segs|;
      while i < j
        invariant 0 <= i <= j <= |segs|
        invariant forall b | 0 <= b < i :: segs[b].end <= off
        invariant forall b | j <= b < |segs| :: segs[b].end > off
      {
        var h := (i + j) / 2;
        if segs[h].end > off {
          forall b | h <= b < |segs| ensures segs[b].end > off { LaidGrows(segs, h, b); }
          j := h;
        } else {
          forall b | 0 <= b <= h ensures segs[b].end <= off { LaidGrows(segs, b, h); }
          i := h + 1;
        }
      }
      k := i;
    }

    /** The segments prefetch starts a goroutine for. */
    method Prefetch(from: int, to: int, pending: set<nat>) returns (warm: set<nat>)
      requires Valid()
      ensures forall i: nat :: i in warm <==> i < |segs| && from <= i <= to && i !in cache && i !in pending
    {
      warm := {};
      var i := if from < 0 then 0 else from;
      var last := if to >= |segs| then |segs| - 1 else to;
      while i <= last
        invariant i >= 0 && i >= from && last < |segs| && (i <= last + 1 || i <= 0 || i == from)
        invariant forall k: nat :: k in warm <==> k < |segs| && from <= k < i && k !in cache && k !in pending
        decreases last - i
      {
        if !(i in cache || i in pending) {
          warm := warm + {i};
        }
        i := i + 1;
      }
    }

    method Store(i: nat, data: Bytes)
      requires Valid() && i < |segs| && Good(segs[i], articles) && data == Decoded(segs[i], articles)
      modifies `cache, `order
      ensures Valid() && Window(cache, order) == Stored(old(Window(cache, order)), i, data)
      ensures i in cache
    {
      StoreKeeps(Window(cache, order), segs, articles, i);
      if i in cache {
        return;
      }
      cache, order := cache[i := data], order + [i];
      while |order| > MAX_CACHED
        invariant Trim(Window(cache, order)) == Stored(old(Window(cache, order)), i, data)
      {
        var oldest := order[0];
        order := order[1..];
        cache := cache - {oldest};
      }
    }

    /** What other goroutines fetched and stored in the meantime. */
    method OthersStore(arrivals: seq<nat>)
      requires Valid()
      modifies `cache, `order
      ensures Valid()
    {
      for k := 0 to |arrivals|
        invariant Valid()
      {
        var i := arrivals[k];
        if i < |segs| && Good(segs[i], articles) {
          Store(i, Decoded(segs[i], articles));
        }
      }
    }

    /** One segment, from the window or the network; `up` tells whether the request that serves it succeeds. */
    method Get(i: nat, up: bool) returns (data: Option<Bytes>)
      requires Valid() && i < |segs|
      modifies `cache, `order
      ensures Valid()
      ensures data.Some? <==> i in old(cache) || (up && Good(segs[i], articles))
      ensures data.Some? ==> Good(segs[i], articles) && data.value == Decoded(segs[i], articles) && i in cache
    {
      if i in cache {
        return Some(cache[i]);
      }
      if up && Good(segs[i], articles) {
        data := Some(Decoded(segs[i], articles));
        Store(i, data.value);
      } else {
        data := None;
      }
    }

    /** Get, after others have stored what they fetched. */
    method Lookup(i: nat, up: bool, arrivals: seq<nat>) returns (data: Option<Bytes>)
      requires Valid() && i < |segs|
      modifies `cache, `order
      ensures Valid()
      ensures data.Some? ==> Good(segs[i], articles) && data.value == Decoded(segs[i], articles)
      ensures up && Good(segs[i], articles) ==> data.Some?
    {
      OthersStore(arrivals);
      data := Get(i, up);
    }

    /** Go's copy: as much of data as the buffer has room for, from `at` on. */
    method Copy(p: array<bv8>, at: nat, data: Bytes) returns (n: nat)
      requires at <= p.Length
      modifies p
      ensures n == Min(p.Length - at, |data|) && p[..] == Patched(old(p[..]), at, data[..n])
    {
      n := Min(p.Length - at, |data|);
      WriteAt(p, data[..n], at);
    }

    /** The bytes from off to end of the plain file. */
    ghost function Slice(off: int, end: int): Bytes
      requires 0 <= off <= end <= |PlainFile(segs, articles)|
    {
      PlainFile(segs, articles)[off..end]
    }

    /** The last segment a read up to `end` needs; end may have wrapped around. */
    method LastNeeded(first: nat, end: int) returns (last: nat)
      requires Valid() && first < |segs|
      ensures first <= last < |segs| && (last > first ==> segs[last].start < end)
      ensures forall i | last < i < |segs| :: segs[i].start >= end
    {
      last := first;
      while last + 1 < |segs| && segs[last].end < end
        invariant first <= last < |segs| && (last > first ==> segs[last].start < end)
      {
        assert LaidAt(segs, last + 1);
        last := last + 1;
      }
      if last + 1 < |segs| {
        forall i | last < i < |segs| ensures segs[i].start >= end { LaidGrows(segs, last, i); }
      }
    }

    /**
     Reads into p from `off`. `up` tells for each segment whether the request that serves it
     succeeds; `others` what the goroutines of prefetch and of other readers stored before each
     segment was looked up.
     */
    method ReadAt(p: array<bv8>, off: int, pending: set<nat>, up: seq<bool>, others: nat -> seq<nat>)
      returns (n: nat, error: Option<ReadError>, warm: set<nat>)
      requires Valid() && |up| == |segs| && Int64(off) && p.Length <= MAX_INT64
      modifies p, `cache, `order
      ensures Valid()
      ensures n > 0 ==> 0 <= off < size
      ensures Delivers(old(p[..]), p[..], off, n)
      ensures p.Length == 0 ==> error == None
      ensures p.Length > 0 && off < 0 ==> error == Some(NegativeOffset)
      ensures p.Length > 0 && off >= 0 && (error == None || error == Some(Eof)) ==>
                && n == Min(p.Length, if off < size then size - off else 0)
                && (error == Some(Eof) <==> n < p.Length)
      ensures && p.Length > 0 && off >= 0
              && (forall i | 0 <= i < |segs| && Touched(segs[i], off, off + p.Length) ::
                    up[i] && Good(segs[i], articles))
              ==>
                error == None || error == Some(Eof)
      ensures error.Some? && error.value.FetchFailed? ==> 0 <= off && Failure(error.value, off, p.Length, up, n)
      ensures AsPosted(old(p[..]), p[..], off, n, error, up)
      ensures p.Length > 0 && 0 <= off < size && off + p.Length <= MAX_INT64 ==>
                forall i: nat | i < |segs| ::
                  i in warm <==> Warmed(i, off, off + p.Length) && i !in old(cache) && i !in pending
    {
      n, error, warm := 0, None, {};
      if p.Length == 0 {
        NothingRead(p[..], off, error, up);
        return;
      }
      if off < 0 {
        error := Some(NegativeOffset);
        NothingRead(p[..], off, error, up);
        return;
      }
      if off >= size {
        error := Some(Eof);
        NothingRead(p[..], off, error, up);
        return;
      }
      n, error, warm := ReadInside(p, off, pending, up, others);
    }

    /** The rest of ReadAt, for an offset inside the file. */
    method ReadInside(p: array<bv8>, off: int, pending: set<nat>, up: seq<bool>, others: nat -> seq<nat>)
      returns (n: nat, error: Option<ReadError>, warm: set<nat>)
      requires Valid() && |up| == |segs| && 0 <= off < size && 0 < p.Length <= MAX_INT64
      modifies p, `cache, `order
      ensures Valid() && error != Some(NegativeOffset)
      ensures error == None || error == Some(Eof) ==>
                n == Min(p.Length, size - off) && (error == Some(Eof) <==> n < p.Length)
      ensures error.Some? && error.value.FetchFailed? ==> Failure(error.value, off, p.Length, up, n)
      ensures Delivers(old(p[..]), p[..], off, n)
      ensures AsPosted(old(p[..]), p[..], off, n, error, up)
      ensures off + p.Length <= MAX_INT64 ==>
                forall i: nat | i < |segs| ::
                  i in warm <==> Warmed(i, off, off + p.Length) && i !in old(cache) && i !in pending
    {
      var first;
      first, warm := Locate(off, p.Length, pending);
      n, error := Fill(p, off, first, up, others);
      ServedDelivers(p, old(p[..]), off, n);
      ReadIsAsPosted(old(p[..]), p[..], off, n, error, up);
    }

    /** The segment that holds the first byte, and those that are fetched ahead. */
    method Locate(off: int, length: nat, pending: set<nat>) returns (first: nat, warm: set<nat>)
      requires Valid() && Int64(off) && 0 < length <= MAX_INT64 && 0 <= off < size
      ensures first < |segs| && segs[first].start <= off < segs[first].end
      ensures off + length <= MAX_INT64 ==>
                forall i: nat | i < |segs| ::
                  i in warm <==> Warmed(i, off, off + length) && i !in cache && i !in pending
    {
      first := FirstPast(off);
      assert LaidAt(segs, first);
      var last := LastNeeded(first, Add64(off, length));
      warm := Prefetch(first, last + READ_AHEAD, pending);
      if off + length <= MAX_INT64 {
        WarmedSegments(off, off + length, first, last);
      }
    }

    /** Where the next byte comes from: past all segments before `idx`, and within `idx` unless the buffer is full. */
    ghost predicate Placed(off: int, first: nat, idx: nat, written: nat, length: nat)
    {
      && first <= idx <= |segs| && first < |segs| && segs[first].start <= off < segs[first].end
      && (idx == first ==> written == 0)
      && (idx > first ==> written == Min(length, segs[idx - 1].end - off))
    }

    /** It holds some of the bytes from off to end, or is one of the 16 after such a segment. */
    ghost predicate Warmed(i: nat, off: int, end: int) {
      exists k: nat :: k <= i <= k + 16 && k < |segs| && Touched(segs[k], off, end)
    }

    lemma WarmedSegments(off: int, end: int, first: nat, last: nat)
      requires Laid(segs) && first <= last < |segs| && off < end && segs[first].start <= off < segs[first].end
      requires last > first ==> segs[last].start < end
      requires forall i | last < i < |segs| :: segs[i].start >= end
      ensures forall i: nat | i < |segs| :: Warmed(i, off, end) <==> first <= i <= last + READ_AHEAD
    {
      forall k: nat | k < |segs|
        ensures Touched(segs[k], off, end) <==> first <= k <= last
      {
        LaidGrows(segs, if k < first then k else first, if k < first then first else k);
        if first < k < last {
          LaidGrows(segs, k, last);
        }
      }
      forall i: nat | i < |segs| && first <= i <= last + READ_AHEAD
        ensures Warmed(i, off, end)
      {
        var k := if i <= last then i else last;
        assert k <= i <= k + 16 && Touched(segs[k], off, end);
      }
    }

    /**
     In terms of the articles alone: of a post of some content the buffer gets the bytes from off on, and
     only a failing request ends the read; a wanted segment whose article is missing, of another length
     or of another place ends it there, or at one before it.
     */
    ghost predicate AsPosted(before: Bytes, after: Bytes, off: int, n: nat, error: Option<ReadError>, up: seq<bool>)
      requires |up| == |segs|
    {
      && (forall content | PostOf(segs, articles, content) ::
            && n <= |before| && (n > 0 ==> 0 <= off && off + n <= |content|)
            && after == Patched(before, 0, if n == 0 then [] else content[off..off + n])
            && (error.Some? && error.value.FetchFailed? ==> error.value.segment < |segs| && !up[error.value.segment]))
      && (forall i | 0 <= i < |segs| && |before| > 0 && 0 <= off && Touched(segs[i], off, off + |before|)
                     && Misposted(segs[i], articles) ::
            error.Some? && error.value.FetchFailed? && error.value.segment <= i)
    }

    /** The buffer holds the n bytes of the plain file from off on, and behind them what it held before. */
    ghost predicate Delivers(before: Bytes, after: Bytes, off: int, n: nat) {
      && n <= |before| && (n > 0 ==> 0 <= off && off + n <= |PlainFile(segs, articles)|)
      && after == Patched(before, 0, if n == 0 then [] else Slice(off, off + n))
    }

    lemma ServedDelivers(p: array<bv8>, before: Bytes, off: int, n: nat)
      requires Served(p, before, off, n)
      ensures Delivers(before, p[..], off, n)
    {
      if n == 0 {
        assert Slice(off, off + n) == [];
      }
    }

    lemma ReadIsAsPosted(before: Bytes, after: Bytes, off: int, n: nat, error: Option<ReadError>, up: seq<bool>)
      requires Laid(segs) && |up| == |segs| && Delivers(before, after, off, n)
      requires error.Some? && error.value.FetchFailed? ==> 0 <= off && Failure(error.value, off, |before|, up, n)
      requires |before| > 0 && 0 <= off ==> FailsAtBad(off, |before|, error)
      ensures AsPosted(before, after, off, n, error, up)
    {
      forall i: nat | i < |segs|
        ensures Good(segs[i], articles) <==> !Misposted(segs[i], articles)
        ensures forall content | PostedAs(segs[i], articles, content) :: Good(segs[i], articles)
      {
        GoodInFields(segs, articles, i);
      }
      forall content | PostOf(segs, articles, content)
        ensures PlainFile(segs, articles) == content && forall i: nat | i < |segs| :: Good(segs[i], articles)
      {
        PostIsPlain(segs, articles, content);
        assert forall i: nat | i < |segs| :: PostedAs(segs[i], articles, content);
      }
    }

    lemma NothingRead(before: Bytes, off: int, error: Option<ReadError>, up: seq<bool>)
      requires Laid(segs) && segs != [] && |up| == |segs| && (error.Some? ==> !error.value.FetchFailed?)
      requires |before| == 0 || off < 0 || off >= Size(segs)
      ensures Delivers(before, before, off, 0) && AsPosted(before, before, off, 0, error, up)
    {
      assert before == Patched(before, 0, []);
      if off >= Size(segs) {
        NothingPastTheEnd(off, |before|);
      }
      ReadIsAsPosted(before, before, off, 0, error, up);
    }

    lemma NothingPastTheEnd(off: int, length: nat)
      requires Laid(segs) && segs != [] && off >= Size(segs)
      ensures forall i | 0 <= i < |segs| :: !Touched(segs[i], off, off + length)
    {
      forall i | 0 <= i < |segs|
        ensures !Touched(segs[i], off, off + length)
      {
        LaidGrows(segs, i, |segs| - 1);
      }
    }

    /** One turn of the loop: the rest of a segment, which holds its stretch of the file, as far as there is room. */
    method TakeSegment(p: array<bv8>, off: int, written: nat, seg: Segment, data: Bytes, ghost file: Bytes,
                       ghost before: Bytes)
      returns (n: nat)
      requires 0 <= off && 0 <= seg.start <= off + written < seg.end <= |file| && data == file[seg.start..seg.end]
      requires written <= p.Length == |before| && p[..] == Patched(before, 0, file[off..off + written])
      modifies p
      ensures n == Min(p.Length - written, seg.end - off - written) && off + written + n <= |file|
      ensures p[..] == Patched(before, 0, file[off..off + written + n])
    {
      var at := off + written - seg.start;
      n := Copy(p, written, data[at..]);
      PieceOfFile(file, seg.start, seg.end, data, at, n);
      PatchSlices(file, before, off, written, n);
    }

    /** What a fetch failure means: the segment holds some of the wanted bytes and could not be had. */
    ghost predicate Failure(error: ReadError, off: int, length: nat, up: seq<bool>, written: nat)
      requires |up| == |segs|
    {
      && error.FetchFailed?
      && var i := error.segment;
         i < |segs| && Touched(segs[i], off, off + length) && !(up[i] && Good(segs[i], articles))
         && written == if segs[i].start <= off then 0 else segs[i].start - off
    }

    lemma PlacedAt(off: int, first: nat, idx: nat, written: nat, length: nat)
      requires Laid(segs) && Placed(off, first, idx, written, length) && idx < |segs| && written < length
      ensures segs[idx].start <= off + written < segs[idx].end <= |PlainFile(segs, articles)|
      ensures Touched(segs[idx], off, off + length)
                && written == if segs[idx].start <= off then 0 else segs[idx].start - off
    {
      assert LaidAt(segs, idx);
      PlainFileHolds(segs, articles, idx);
      LaidGrows(segs, first, idx);
    }

    ghost predicate AllGood(from: nat, to: nat) {
      forall i | from <= i < to && i < |segs| :: Good(segs[i], articles)
    }

    /** A wanted segment that is not good ends the read there, or at one before it. */
    ghost predicate FailsAtBad(off: int, length: nat, error: Option<ReadError>) {
      forall i | 0 <= i < |segs| && Touched(segs[i], off, off + length) && !Good(segs[i], articles) ::
        error.Some? && error.value.FetchFailed? && error.value.segment <= i
    }

    /** The segments that hold some of the bytes begin at the first of them. */
    lemma BadSegmentsAhead(off: int, first: nat, idx: nat, length: nat)
      requires Laid(segs) && first < |segs| && segs[first].start <= off < segs[first].end && AllGood(first, idx)
      ensures FailsAtBad(off, length, Some(FetchFailed(idx)))
    {
      forall i | 0 <= i < first
        ensures !Touched(segs[i], off, off + length)
      {
        LaidGrows(segs, i, first);
      }
    }

    /** When the buffer is full, or all segments are done, those after the last one done hold none of the bytes. */
    lemma NoneTouchedAhead(off: int, first: nat, idx: nat, written: nat, length: nat, error: Option<ReadError>)
      requires Laid(segs) && length > 0 && Placed(off, first, idx, written, length) && AllGood(first, idx)
      requires written == length || idx == |segs|
      ensures FailsAtBad(off, length, error) && written == Min(length, Size(segs) - off)
    {
      BadSegmentsAhead(off, first, idx, length);
      LaidGrows(segs, idx - 1, |segs| - 1);
      forall i | idx <= i < |segs|
        ensures !Touched(segs[i], off, off + length)
      {
        LaidGrows(segs, idx - 1, i);
      }
    }

    /** The first `written` bytes of the buffer are the file from off on, the others are as before. */
    ghost predicate Served(p: array<bv8>, before: Bytes, off: int, written: nat)
      reads p
    {
      && written <= p.Length == |before| && 0 <= off <= off + written <= |PlainFile(segs, articles)|
      && p[..] == Patched(before, 0, Slice(off, off + written))
    }

    /** Where the loop of ReadAt stands: what is served, and where the next byte comes from. */
    ghost predicate Filling(p: array<bv8>, before: Bytes, off: int, first: nat, idx: nat, written: nat)
      reads p
    {
      Placed(off, first, idx, written, p.Length) && Served(p, before, off, written) && AllGood(first, idx)
    }

    lemma NothingFilled(p: array<bv8>, off: int, first: nat)
      requires Laid(segs) && 0 <= off && first < |segs| && segs[first].start <= off < segs[first].end
      ensures Filling(p, p[..], off, first, first, 0)
    {
      PlainFileHolds(segs, articles, first);
      assert p[..] == Patched(p[..], 0, []) && Slice(off, off) == [];
    }

    /** One turn of ReadAt's loop; None when the segment could not be had. */
    method Turn(p: array<bv8>, off: int, first: nat, idx: nat, written: nat, up: seq<bool>, arrivals: seq<nat>,
                ghost before: Bytes)
      returns (n: Option<nat>)
      requires Valid() && |up| == |segs| && idx < |segs| && written < p.Length
      requires Filling(p, before, off, first, idx, written)
      modifies p, `cache, `order
      ensures Valid()
      ensures n.None? ==>
                && Served(p, before, off, written) && Failure(FetchFailed(idx), off, p.Length, up, written)
                && FailsAtBad(off, p.Length, Some(FetchFailed(idx)))
      ensures n.Some? ==> Filling(p, before, off, first, idx + 1, written + n.value)
    {
      PlacedAt(off, first, idx, written, p.Length);
      var data := Lookup(idx, up[idx], arrivals);
      if data.None? {
        BadSegmentsAhead(off, first, idx, p.Length);
        return None;
      }
      PlainFileHolds(segs, articles, idx);
      var k := TakeSegment(p, off, written, segs[idx], data.value, PlainFile(segs, articles), before);
      n := Some(k);
    }

    /** The loop of ReadAt. */
    method Fill(p: array<bv8>, off: int, first: nat, up: seq<bool>, others: nat -> seq<nat>)
      returns (written: nat, error: Option<ReadError>)
      requires Valid() && |up| == |segs| && p.Length > 0 && 0 <= off < size
      requires first < |segs| && segs[first].start <= off < segs[first].end
      modifies p, `cache, `order
      ensures Valid() && Served(p, old(p[..]), off, written)
      ensures error == None || error == Some(Eof) ==>
                  written == Min(p.Length, size - off) && (error == Some(Eof) <==> written < p.Length)
      ensures error.Some? && error.value != Eof ==> Failure(error.value, off, p.Length, up, written)
      ensures FailsAtBad(off, p.Length, error)
    {
      written := 0;
      var idx := first;
      NothingFilled(p, off, first);
      while written < p.Length && idx < |segs|
        invariant Valid() && Filling(p, old(p[..]), off, first, idx, written)
        decreases |segs| - idx
      {
        var n := Turn(p, off, first, idx, written, up, others(idx), old(p[..]));
        if n.None? {
          return written, Some(FetchFailed(idx));
        }
        written := written + n.value;
        idx := idx + 1;
      }
      error := if written < p.Length then Some(Eof) else None;
      NoneTouchedAhead(off, first, idx, written, p.Length, error);
    }
  }
}
