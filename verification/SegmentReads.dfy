// Reads over shared fetches: what ReadAt fills in when its lookups are goroutines of SegmentFetch.
module SegmentReads {
  import opened Prelude
  import opened SegmentReader
  import opened SegmentFetch

  /** What ReadAt's loop takes of a segment at `pos`, with room for `room` bytes. */
  function Piece(seg: Segment, pos: int, room: nat, data: Bytes): (piece: Bytes)
    ensures |piece| <= room
  {
    var at := pos - seg.start;
    if 0 <= at <= |data| then data[at..at + Min(room, |data| - at)] else []
  }

  /** One turn of the loop of a ReadAt at `off` into a buffer of this length: what is filled in before and after. */
  predicate Turn(seg: Segment, off: int, length: nat, before: Bytes, data: Bytes, after: Bytes) {
    |before| <= length && after == before + Piece(seg, off + |before|, length - |before|, data)
  }

  /** The loop over what its lookups, of segment `first` and those after it, gave so far: filled[n] after n of them. */
  ghost predicate Loop(segs: seq<Segment>, off: int, length: nat, first: nat, data: seq<Bytes>, filled: seq<Bytes>) {
    && first + |data| <= |segs| && |filled| == |data| + 1 && filled[0] == []
    && forall n: nat | n < |data| :: Turn(segs[first + n], off, length, filled[n], data[n], filled[n + 1])
  }

  /** How much of the plain file is due after n lookups. */
  function Due(segs: seq<Segment>, off: int, length: nat, first: nat, n: nat): int
    requires first + n <= |segs|
  {
    if n == 0 then 0 else Min(length, segs[first + n - 1].end - off)
  }

  /** A call of get: the goroutine that made it, and a state in which it has returned. */
  datatype Call = Call(t: nat, k: nat)

  predicate Returned(run: seq<State>, call: Call, seg: nat, data: Bytes) {
    && call.k < |run| && call.t < |run[call.k].all|
    && var g := run[call.k].all[call.t]; g.seg == seg && g.phase.Done? && g.phase.outcome == Some(data)
  }

  /** All data was returned, at some moment of the run, by goroutines that looked these segments up. */
  ghost predicate Answered(run: seq<State>, first: nat, data: seq<Bytes>, calls: seq<Call>) {
    |calls| == |data| && forall n: nat | n < |data| :: Returned(run, calls[n], first + n, data[n])
  }

  /** The segment is a stretch of the file, and this is what the file holds there. */
  predicate HeldAt(file: Bytes, seg: Segment, data: Bytes) {
    0 <= seg.start < seg.end <= |file| && data == file[seg.start..seg.end]
  }

  ghost predicate AllHeld(file: Bytes, segs: seq<Segment>, first: nat, data: seq<Bytes>)
    requires first + |data| <= |segs|
  {
    forall n: nat | n < |data| :: HeldAt(file, segs[first + n], data[n])
  }

  /** These are the n bytes of the file from off on. */
  predicate Serves(file: Bytes, off: int, filled: Bytes, n: int) {
    0 <= off <= off + n <= |file| && filled == file[off..off + n]
  }

  lemma PieceIsFile(file: Bytes, seg: Segment, pos: int, room: nat, data: Bytes)
    requires HeldAt(file, seg, data) && seg.start <= pos < seg.end
    ensures Serves(file, pos, Piece(seg, pos, room, data), Min(room, seg.end - pos))
  {
    SliceOfRest(file, seg.start, seg.end, pos - seg.start, Min(room, seg.end - pos));
  }

  lemma ServesMore(file: Bytes, off: int, filled: Bytes, n: int, more: Bytes, m: int)
    requires Serves(file, off, filled, n) && Serves(file, off + n, more, m)
    ensures Serves(file, off, filled + more, n + m)
  {
  }

  /** One turn, with room left in the buffer or without. */
  lemma TurnServes(file: Bytes, seg: Segment, off: int, length: nat, before: Bytes, data: Bytes, after: Bytes, due: int)
    requires HeldAt(file, seg, data) && Serves(file, off, before, due) && Turn(seg, off, length, before, data, after)
    requires due < length ==> seg.start <= off + due < seg.end
    ensures Serves(file, off, after, if due < length then Min(length, seg.end - off) else due)
  {
    if due < length {
      PieceIsFile(file, seg, off + due, length - due, data);
      ServesMore(file, off, before, due, Piece(seg, off + due, length - due, data),
                 Min(length - due, seg.end - off - due));
    } else {
      assert before + Piece(seg, off + due, 0, data) == before;
    }
  }

  /** Where the loop stands before it looks segment first + n up. */
  lemma NextPosition(segs: seq<Segment>, off: int, length: nat, first: nat, n: nat)
    requires Laid(segs) && first + n < |segs| && segs[first].start <= off < segs[first].end
    ensures var due, seg := Due(segs, off, length, first, n), segs[first + n];
            && 0 <= due <= length && (due < length ==> seg.start <= off + due < seg.end)
            && Due(segs, off, length, first, n + 1) == if due < length then Min(length, seg.end - off) else due
  {
    LaidGrows(segs, first, first + n);
    assert LaidAt(segs, first + n);
    if n > 0 {
      LaidGrows(segs, first, first + n - 1);
    }
  }

  lemma {:induction false} LoopServes(file: Bytes, segs: seq<Segment>, off: int, length: nat, first: nat,
                                      data: seq<Bytes>, filled: seq<Bytes>, n: nat)
    requires Laid(segs) && first < |segs| && segs[first].start <= off < segs[first].end && 0 <= off <= |file|
    requires Loop(segs, off, length, first, data, filled) && AllHeld(file, segs, first, data) && n <= |data|
    ensures Serves(file, off, filled[n], Due(segs, off, length, first, n))
  {
    if n > 0 {
      LoopServes(file, segs, off, length, first, data, filled, n - 1);
      NextPosition(segs, off, length, first, n - 1);
      assert HeldAt(file, segs[first + (n - 1)], data[n - 1]);
      assert Turn(segs[first + (n - 1)], off, length, filled[n - 1], data[n - 1], filled[n - 1 + 1]);
      TurnServes(file, segs[first + n - 1], off, length, filled[n - 1], data[n - 1], filled[n],
                 Due(segs, off, length, first, n - 1));
    }
  }

  lemma AnswersAreHeld(f: File, run: seq<State>, steps: seq<Step>, first: nat, data: seq<Bytes>, calls: seq<Call>)
    requires Run(f, run, steps) && Answered(run, first, data, calls) && first + |data| <= |f.segs|
    ensures AllHeld(PlainFile(f.segs, f.articles), f.segs, first, data)
  {
    forall n: nat | n < |data|
      ensures HeldAt(PlainFile(f.segs, f.articles), f.segs[first + n], data[n])
    {
      assert Returned(run, calls[n], first + n, data[n]);
      ReturnsAreShared(f, run, steps, calls[n].k, calls[n].t);
      PlainFileHolds(f.segs, f.articles, first + n);
    }
  }

  /**
   A ReadAt whose lookups are goroutines of any run, sharing the fetches of prefetch and of other readers,
   has after each of them the plain file from off on in its buffer, up to the end of the segment; and all
   it wants once the buffer is full or the last segment was there.
   */
  lemma ReadsServeFile(f: File, run: seq<State>, steps: seq<Step>, off: int, length: nat, first: nat,
                       data: seq<Bytes>, calls: seq<Call>, filled: seq<Bytes>, n: nat)
    requires Run(f, run, steps) && Answered(run, first, data, calls)
    requires first < |f.segs| && f.segs[first].start <= off < f.segs[first].end
    requires Loop(f.segs, off, length, first, data, filled) && n <= |data|
    ensures var file, k := PlainFile(f.segs, f.articles), |filled[n]|;
            && k == (if n == 0 then 0 else Min(length, f.segs[first + n - 1].end - off))
            && 0 <= off && off + k <= |file| == Size(f.segs) && filled[n] == file[off..off + k]
            && (k == length || first + n == |f.segs| ==> k == Min(length, Size(f.segs) - off))
    ensures forall content | PostOf(f.segs, f.articles, content) ::
              && 0 <= off && off + |filled[n]| <= |content| && filled[n] == content[off..off + |filled[n]|]
  {
    forall content | PostOf(f.segs, f.articles, content)
      ensures PlainFile(f.segs, f.articles) == content
    {
      PostIsPlain(f.segs, f.articles, content);
    }
    PlainFileHolds(f.segs, f.articles, first);
    AnswersAreHeld(f, run, steps, first, data, calls);
    LoopServes(PlainFile(f.segs, f.articles), f.segs, off, length, first, data, filled, n);
  }
}
