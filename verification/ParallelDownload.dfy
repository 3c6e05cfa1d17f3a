// The parallel chunked download: the split into chunks, and the workers that fill one shared file.
module ParallelDownload {
  import opened Prelude

  // ---------------------------------------------------------------- chunks

  /** First and last byte of a worker's chunk, both included. */
  datatype Chunk = Chunk(start: int, end: int)

  predicate Has(c: Chunk, b: int) { c.start <= b <= c.end }

  /** The chunks in order, one after another, from `from` up to and including the byte before `to`. */
  ghost predicate Tiles(chunks: seq<Chunk>, from: int, to: int) {
    if chunks == [] then from == to
    else chunks[0].start == from && chunks[0].start <= chunks[0].end && Tiles(chunks[1..], chunks[0].end + 1, to)
  }

  lemma {:induction false} TilesAppend(chunks: seq<Chunk>, c: Chunk, from: int, mid: int)
    requires Tiles(chunks, from, mid) && c.start == mid && c.start <= c.end
    ensures Tiles(chunks + [c], from, c.end + 1)
  {
    if chunks == [] {
      assert (chunks + [c])[1..] == [];
    } else {
      TilesAppend(chunks[1..], c, chunks[0].end + 1, mid);
      assert (chunks + [c])[1..] == chunks[1..] + [c];
    }
  }

  /** The first and last byte of worker i's chunk. */
  function NthChunk(total: int, conns: int, i: int): Chunk
    requires conns >= 1
  {
    var size := total / conns;
    Chunk(i * size, if i == conns - 1 then total - 1 else i * size + size - 1)
  }

  lemma NthFollows(total: int, conns: int, i: int)
    requires total >= 1 && 0 <= i < conns
    ensures NthChunk(total, conns, i).start >= 0
    ensures i == conns - 1 ==> NthChunk(total, conns, i).start < total
    ensures i < conns - 1 ==> NthChunk(total, conns, i + 1).start == NthChunk(total, conns, i).end + 1
    ensures i < conns - 1 ==>
              (NthChunk(total, conns, i).start <= NthChunk(total, conns, i).end <==> total / conns > 0)
  {
    var size := total / conns;
    NotPastTotal(total, conns, i, size);
    assert (i + 1) * size == i * size + size;
  }

  /** The chunks the workers are started on; with more workers than bytes only the last one gets any. */
  method SplitChunks(total: int, conns: int) returns (chunks: seq<Chunk>)
    requires total >= 1 && conns >= 1
    ensures Tiles(chunks, 0, total)
    ensures total < conns ==> chunks == [Chunk(0, total - 1)]
    ensures total >= conns ==> |chunks| == conns && forall i | 0 <= i < conns ::
              chunks[i].start == i * (total / conns)
              && chunks[i].end == (if i == conns - 1 then total - 1 else i * (total / conns) + total / conns - 1)
  {
    var size := total / conns;
    assert size == 0 <==> total < conns;
    chunks := [];
    for i := 0 to conns
      invariant Tiles(chunks, 0, if i == conns then total else NthChunk(total, conns, i).start)
      invariant if size == 0 then chunks == (if i == conns then [NthChunk(total, conns, conns - 1)] else [])
                else |chunks| == i && forall k | 0 <= k < i :: chunks[k] == NthChunk(total, conns, k)
    {
      NthFollows(total, conns, i);
      var start := i * size;
      var end := if i == conns - 1 then total - 1 else start + size - 1;
      if start <= end {
        TilesAppend(chunks, Chunk(start, end), 0, start);
        chunks := chunks + [Chunk(start, end)];
      }
    }
  }

  lemma MultiplyUp(a: int, b: int, size: int)
    requires a <= b && size >= 0
    ensures a * size <= b * size
  {
  }

  lemma NotPastTotal(total: int, conns: int, i: int, size: int)
    requires total >= 1 && 0 <= i < conns && size == total / conns
    ensures 0 <= i * size < total
  {
    assert size >= 0 && conns * size <= total;
    MultiplyUp(0, i, size);
    MultiplyUp(i + 1, conns, size);
    assert (i + 1) * size == i * size + size;
  }

  ghost predicate Covered(chunks: seq<Chunk>, b: int) {
    exists i :: 0 <= i < |chunks| && Has(chunks[i], b)
  }

  /** Tiled chunks do not overlap, and every byte below the total lies in one of them. */
  lemma {:induction false} TilesPartition(chunks: seq<Chunk>, from: int, to: int)
    requires Tiles(chunks, from, to)
    ensures from <= to
    ensures forall i | 0 <= i < |chunks| :: from <= chunks[i].start <= chunks[i].end < to
    ensures forall i, j | 0 <= i < j < |chunks| :: chunks[i].end < chunks[j].start
    ensures forall b :: Covered(chunks, b) <==> from <= b < to
  {
    if chunks != [] {
      TilesPartition(chunks[1..], chunks[0].end + 1, to);
      forall b | from <= b < to
        ensures Covered(chunks, b)
      {
        if b > chunks[0].end {
          assert Covered(chunks[1..], b);
          var i :| 0 <= i < |chunks[1..]| && Has(chunks[1..][i], b);
          assert Has(chunks[i + 1], b);
        } else {
          assert Has(chunks[0], b);
        }
      }
    }
  }

  // ---------------------------------------------------------------- one worker, as it runs

  const CHUNK_ATTEMPTS := 6

  /** A request fails, or a response of `length` bytes arrives in pieces of the given sizes, and may break off. */
  datatype Reply = Failure | Partial(length: nat, pieces: seq<nat>)

  lemma PatchMore(file: Bytes, at: nat, body: Bytes, done: nat, n: nat)
    requires at + |body| <= |file| && done + n <= |body|
    ensures Patched(Patched(file, at, body[..done]), at + done, body[done..done + n]) ==
                Patched(file, at, body[..done + n])
  {
    PatchTwice(file, at, body[..done], body[done..done + n]);
    assert body[..done] + body[done..done + n] == body[..done + n];
  }

  function SumOf(sizes: seq<nat>): nat {
    if sizes == [] then 0 else SumOf(sizes[..|sizes| - 1]) + sizes[|sizes| - 1]
  }

  /** What a reply can deliver: as much of it as arrives. */
  function Delivers(r: Reply): nat {
    match r
    case Failure => 0
    case Partial(length, pieces) => Min(length, SumOf(pieces))
  }

  function Delivered(replies: seq<Reply>): nat {
    if replies == [] then 0 else Delivered(replies[..|replies| - 1]) + Delivers(replies[|replies| - 1])
  }

  lemma {:induction false} DeliveredGrows(replies: seq<Reply>, n: nat)
    requires n <= |replies|
    ensures Delivered(replies[..n]) <= Delivered(replies)
  {
    if n < |replies| {
      DeliveredGrows(replies[..|replies| - 1], n);
      assert replies[..|replies| - 1][..n] == replies[..n];
    } else {
      assert replies[..n] == replies;
    }
  }

  /** Copies the pieces of a response body to the file, and returns how many bytes came. */
  method CopyChunkAt(file: array<bv8>, body: Bytes, pos: nat, pieces: seq<nat>) returns (written: nat)
    requires pos + |body| <= file.Length
    modifies file
    ensures written == Min(|body|, SumOf(pieces)) && file[..] == Patched(old(file[..]), pos, body[..written])
  {
    written := 0;
    for i := 0 to |pieces|
      invariant written == Min(|body|, SumOf(pieces[..i]))
      invariant file[..] == Patched(old(file[..]), pos, body[..written])
    {
      assert pieces[..i + 1][..i] == pieces[..i];
      var n := Min(pieces[i], |body| - written);
      var piece := body[written..written + n];
      WriteAt(file, piece, pos + written);
      PatchMore(old(file[..]), pos, body, written, n);
      written := written + n;
    }
    assert pieces[..|pieces|] == pieces;
  }

  /** From `from` up to `to` the file holds the source, elsewhere what it held before. */
  ghost predicate Filled(before: Bytes, file: Bytes, src: Bytes, from: int, to: int) {
    && |before| == |file| == |src|
    && forall b | 0 <= b < |file| :: file[b] == if from <= b < to then src[b] else before[b]
  }

  lemma FillMore(before: Bytes, file: Bytes, src: Bytes, from: int, to: nat, n: nat)
    requires Filled(before, file, src, from, to) && from <= to <= to + n <= |file|
    ensures Filled(before, Patched(file, to, src[to..to + n]), src, from, to + n)
  {
  }

  /** The retry loop. `replies` is what the server, which holds `src`, answers to each request. */
  method FetchChunk(file: array<bv8>, src: Bytes, start: nat, end: int, replies: seq<Reply>)
    returns (ok: bool, counted: nat)
    requires |src| == file.Length && start <= end + 1 <= |src| && |replies| == 6
    modifies file
    ensures counted == Min(end + 1 - start, Delivered(replies))
    ensures Filled(old(file[..]), file[..], src, start, start + counted)
    ensures ok <==> counted == end + 1 - start
  {
    counted := 0;
    for attempt := 0 to CHUNK_ATTEMPTS
      invariant counted == Min(end + 1 - start, Delivered(replies[..attempt]))
      invariant attempt > 0 ==> counted < end + 1 - start
      invariant Filled(old(file[..]), file[..], src, start, start + counted)
    {
      DeliveredGrows(replies, attempt);
      DeliveredGrows(replies, attempt + 1);
      assert replies[..attempt + 1][..attempt] == replies[..attempt];
      var pos := start + counted;
      if pos > end {
        return true, counted;
      }
      if replies[attempt].Partial? {
        var body := src[pos..pos + Min(replies[attempt].length, end + 1 - pos)];
        ghost var before := file[..];
        var n := CopyChunkAt(file, body, pos, replies[attempt].pieces);
        assert body[..n] == src[pos..pos + n];
        FillMore(old(file[..]), before, src, start, pos, n);
        counted := counted + n;
        if start + counted > end {
          return true, counted;
        }
      }
    }
    assert replies[..CHUNK_ATTEMPTS] == replies;
    ok := false;
  }
}
