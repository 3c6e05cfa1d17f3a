// The workers of one parallel download, under every interleaving: each repeats ranged requests
// for what is left of its chunk and writes whatever prefix of it arrives.
module DownloadWorkers {
  import opened Prelude
  import opened ParallelDownload

  /**
   Where a worker is: at the top of fetchChunk's loop; inside copyChunkAt with `body` still
   to come; between the write of n bytes and their count; back from copyChunkAt; returned.
   */
  datatype Phase =
    | Top
    | Copying(body: Bytes, written: nat)
    | Counting(body: Bytes, written: nat, n: nat, last: bool)
    | Copied(written: nat)
    | Done(ok: bool)

  datatype Worker = Worker(chunk: Chunk, pos: int, attempt: nat, phase: Phase)

  datatype State = State(file: Bytes, progress: int, workers: seq<Worker>)

  /**
   What the world does to a worker: the request fails, or a partial-content response with k
   bytes opens; a read gives n bytes, the last ones or not; a write breaks off after k of its
   n bytes; the context is cancelled. Continue is a step that needs no answer.
   */
  datatype Event =
    | RequestFails | Responds(k: nat) | Reads(n: nat, last: bool) | WriteFails(n: nat, k: nat) | Cancelled | Continue

  /** How far the file holds the source, from the start of the worker's chunk. */
  function Reach(w: Worker): int {
    match w.phase
    case Copying(_, written) => w.pos + written
    case Counting(_, written, n, _) => w.pos + written + n
    case Copied(written) => w.pos + written
    case _ => w.pos
  }

  /** What the worker has added to the progress counter. */
  function Counted(w: Worker): int {
    Reach(w) - w.chunk.start - (if w.phase.Counting? then w.phase.n else 0)
  }

  function Body(w: Worker): Bytes {
    if w.phase.Copying? || w.phase.Counting? then w.phase.body else []
  }

  // ---------------------------------------------------------------- steps

  /** The top of the loop: cancelled, out of attempts, finished, or one more request. */
  predicate TopEnabled(w: Worker, e: Event) {
    match e
    case Cancelled => true
    case Continue => w.attempt >= CHUNK_ATTEMPTS || w.pos > w.chunk.end
    case RequestFails => w.attempt < CHUNK_ATTEMPTS && w.pos <= w.chunk.end
    case Responds(k) => w.attempt < CHUNK_ATTEMPTS && w.pos <= w.chunk.end && k <= w.chunk.end + 1 - w.pos
    case _ => false
  }

  predicate Enabled(s: State, i: nat, e: Event) {
    i < |s.workers| &&
    var w := s.workers[i];
    match w.phase
    case Top => TopEnabled(w, e)
    case Copying(body, _) => e.Cancelled? || (e.Reads? && e.n <= |body|) || (e.WriteFails? && e.k <= e.n <= |body|)
    case Counting(_, _, _, _) => e.Continue?
    case Copied(_) => e.Continue? || e.Cancelled?
    case Done(_) => false
  }

  function TopStep(src: Bytes, w: Worker, e: Event): Phase
    requires 0 <= w.pos && w.chunk.end < |src| && w.phase.Top? && TopEnabled(w, e)
  {
    match e
    case Responds(k) => Copying(src[w.pos..w.pos + k], 0)
    case Continue => Done(w.attempt < CHUNK_ATTEMPTS)
    case Cancelled => Done(false)
    case _ => Top
  }

  /** The worker, the file and the progress counter after one step. */
  function WorkerStep(src: Bytes, file: Bytes, progress: int, w: Worker, e: Event): (Bytes, int, Worker)
    requires 0 <= w.pos <= Reach(w) && w.chunk.end < |src| == |file| && Reach(w) + |Body(w)| <= |file|
    requires Enabled(State(file, progress, [w]), 0, e)
  {
    match w.phase
    case Top =>
      (file, progress, w.(phase := TopStep(src, w, e), attempt := if e.RequestFails? then w.attempt + 1 else w.attempt))
    case Copying(body, written) =>
      if e.Cancelled? then (file, progress, w.(phase := Copied(written)))
      else if e.WriteFails? then (Patched(file, w.pos + written, body[..e.k]), progress, w.(phase := Copied(written)))
      else if e.n == 0 then (file, progress, if e.last then w.(phase := Copied(written)) else w)
      else (Patched(file, w.pos + written, body[..e.n]), progress,
           w.(phase := Counting(body[e.n..], written, e.n, e.last)))
    case Counting(body, written, n, last) =>
      (file, progress + n, w.(phase := if last then Copied(written + n) else Copying(body, written + n)))
    case Copied(written) =>
      var pos := w.pos + written;
      if pos > w.chunk.end then (file, progress, w.(pos := pos, phase := Done(true)))
      else if e.Cancelled? then (file, progress, w.(pos := pos, phase := Done(false)))
      else (file, progress, w.(pos := pos, phase := Top, attempt := w.attempt + 1))
    case Done(_) => (file, progress, w)
  }

  // ---------------------------------------------------------------- invariant of one worker

  ghost predicate Holds(src: Bytes, file: Bytes, from: int, to: int) {
    |src| == |file| && forall b | from <= b < to && 0 <= b < |file| :: file[b] == src[b]
  }

  ghost predicate WorkerInv(src: Bytes, file: Bytes, w: Worker) {
    && 0 <= w.chunk.start <= w.pos && w.pos <= Reach(w) && w.chunk.end < |src| == |file|
    && Reach(w) + |Body(w)| <= w.chunk.end + 1
    && Body(w) == src[Reach(w)..Reach(w) + |Body(w)|]
    && Holds(src, file, w.chunk.start, Reach(w))
    && (w.phase == Done(true) ==> w.pos == w.chunk.end + 1)
    && (w.phase.Top? ==> w.pos <= w.chunk.end)
    && w.attempt <= CHUNK_ATTEMPTS && (!w.phase.Top? && !w.phase.Done? ==> w.attempt < CHUNK_ATTEMPTS)
  }

  lemma PatchKeeps(src: Bytes, file: Bytes, at: nat, k: nat, from: int, to: int)
    requires Holds(src, file, from, to) && 0 <= at <= at + k <= |file|
    ensures Holds(src, Patched(file, at, src[at..at + k]), from, to)
    ensures at <= to ==> Holds(src, Patched(file, at, src[at..at + k]), from, if to < at + k then at + k else to)
  {
  }

  ghost predicate StepOk(src: Bytes, file: Bytes, progress: int, w: Worker, e: Event) {
    WorkerInv(src, file, w) && Enabled(State(file, progress, [w]), 0, e)
  }

  /** The worker's own invariant is kept, and the counter moves with what it has counted. */
  ghost predicate Kept(src: Bytes, progress: int, w: Worker, after: (Bytes, int, Worker)) {
    WorkerInv(src, after.0, after.2) && after.2.chunk == w.chunk && after.1 - progress == Counted(after.2) - Counted(w)
  }

  lemma TopKeeps(src: Bytes, file: Bytes, progress: int, w: Worker, e: Event)
    requires StepOk(src, file, progress, w, e) && w.phase.Top?
    ensures Kept(src, progress, w, WorkerStep(src, file, progress, w, e))
  {
  }

  lemma ReadKeeps(src: Bytes, file: Bytes, progress: int, w: Worker, e: Event)
    requires StepOk(src, file, progress, w, e) && w.phase.Copying? && e.Reads?
    ensures Kept(src, progress, w, WorkerStep(src, file, progress, w, e))
  {
    assert w.phase.body[..e.n] == src[Reach(w)..Reach(w) + e.n];
    PatchKeeps(src, file, Reach(w), e.n, w.chunk.start, Reach(w));
  }

  lemma BrokenWriteKeeps(src: Bytes, file: Bytes, progress: int, w: Worker, e: Event)
    requires StepOk(src, file, progress, w, e) && w.phase.Copying? && !e.Reads?
    ensures Kept(src, progress, w, WorkerStep(src, file, progress, w, e))
  {
    if e.WriteFails? {
      assert w.phase.body[..e.k] == src[Reach(w)..Reach(w) + e.k];
      PatchKeeps(src, file, Reach(w), e.k, w.chunk.start, Reach(w));
    }
  }

  lemma CountKeeps(src: Bytes, file: Bytes, progress: int, w: Worker, e: Event)
    requires StepOk(src, file, progress, w, e) && (w.phase.Counting? || w.phase.Copied?)
    ensures Kept(src, progress, w, WorkerStep(src, file, progress, w, e))
  {
  }

  lemma StepKeepsWorker(src: Bytes, file: Bytes, progress: int, w: Worker, e: Event)
    requires StepOk(src, file, progress, w, e)
    ensures Kept(src, progress, w, WorkerStep(src, file, progress, w, e))
  {
    match w.phase
    case Top => TopKeeps(src, file, progress, w, e);
    case Copying(_, _) =>
      if e.Reads? { ReadKeeps(src, file, progress, w, e); } else { BrokenWriteKeeps(src, file, progress, w, e); }
    case Counting(_, _, _, _) => CountKeeps(src, file, progress, w, e);
    case Copied(_) => CountKeeps(src, file, progress, w, e);
  }

  lemma PatchSparesWorker(src: Bytes, file: Bytes, at: nat, k: nat, other: Worker)
    requires WorkerInv(src, file, other) && at + k <= |file|
    ensures WorkerInv(src, Patched(file, at, src[at..at + k]), other)
  {
    PatchKeeps(src, file, at, k, other.chunk.start, Reach(other));
  }

  /** A step writes only correct bytes, so it disturbs nobody. */
  lemma StepKeepsOthers(src: Bytes, file: Bytes, progress: int, w: Worker, e: Event, other: Worker)
    requires StepOk(src, file, progress, w, e) && WorkerInv(src, file, other)
    ensures WorkerInv(src, WorkerStep(src, file, progress, w, e).0, other)
  {
    if w.phase.Copying? && (e.Reads? || e.WriteFails?) {
      var k := if e.Reads? then e.n else e.k;
      assert w.phase.body[..k] == src[Reach(w)..Reach(w) + k];
      PatchSparesWorker(src, file, Reach(w), k, other);
    }
  }

  // ---------------------------------------------------------------- all workers

  function SumCounted(workers: seq<Worker>): int {
    if workers == [] then 0 else Counted(workers[0]) + SumCounted(workers[1..])
  }

  lemma {:induction false} SumAfterUpdate(workers: seq<Worker>, i: nat, w: Worker)
    requires i < |workers|
    ensures SumCounted(workers[i := w]) == SumCounted(workers) - Counted(workers[i]) + Counted(w)
    decreases i
  {
    var after := workers[i := w];
    if i == 0 {
      assert after[1..] == workers[1..];
    } else {
      SumAfterUpdate(workers[1..], i - 1, w);
      assert after[1..] == workers[1..][i - 1 := w];
    }
  }

  function ChunksOf(workers: seq<Worker>): seq<Chunk> {
    seq(|workers|, i requires 0 <= i < |workers| => workers[i].chunk)
  }

  ghost predicate Inv(src: Bytes, s: State) {
    && |s.file| == |src|
    && Tiles(ChunksOf(s.workers), 0, |src|)
    && (forall i | 0 <= i < |s.workers| :: WorkerInv(src, s.file, s.workers[i]))
    && s.progress == SumCounted(s.workers)
  }

  function Apply(src: Bytes, s: State, i: nat, e: Event): State
    requires Enabled(s, i, e)
    requires var w := s.workers[i];
             0 <= w.pos <= Reach(w) && w.chunk.end < |src| == |s.file| && Reach(w) + |Body(w)| <= |s.file|
  {
    var (file, progress, w) := WorkerStep(src, s.file, s.progress, s.workers[i], e);
    State(file, progress, s.workers[i := w])
  }

  lemma ApplyKeeps(src: Bytes, s: State, i: nat, e: Event)
    requires Inv(src, s) && Enabled(s, i, e)
    ensures Inv(src, Apply(src, s, i, e))
  {
    var w, s' := s.workers[i], Apply(src, s, i, e);
    StepKeepsWorker(src, s.file, s.progress, w, e);
    SumAfterUpdate(s.workers, i, s'.workers[i]);
    assert ChunksOf(s'.workers) == ChunksOf(s.workers);
    forall j | 0 <= j < |s'.workers|
      ensures WorkerInv(src, s'.file, s'.workers[j])
    {
      if j != i {
        StepKeepsOthers(src, s.file, s.progress, w, e, s.workers[j]);
      }
    }
  }

  /** All workers at the start of their chunks; the file has its full size and any contents. */
  ghost predicate Init(src: Bytes, s: State) {
    && |s.file| == |src| && s.progress == 0 && Tiles(ChunksOf(s.workers), 0, |src|)
    && forall i | 0 <= i < |s.workers| :: s.workers[i] == Worker(s.workers[i].chunk, s.workers[i].chunk.start, 0, Top)
  }

  ghost predicate Moves(src: Bytes, s: State, s': State, i: nat, e: Event) {
    Inv(src, s) && Enabled(s, i, e) && s' == Apply(src, s, i, e)
  }

  ghost predicate Next(src: Bytes, s: State, s': State) {
    exists i, e :: Moves(src, s, s', i, e)
  }

  ghost predicate Run(src: Bytes, run: seq<State>) {
    run != [] && Init(src, run[0]) && forall k | 0 <= k < |run| - 1 :: Next(src, run[k], run[k + 1])
  }

  lemma {:induction false} NothingCountedYet(workers: seq<Worker>)
    requires forall i | 0 <= i < |workers| :: Counted(workers[i]) == 0
    ensures SumCounted(workers) == 0
  {
    if workers != [] {
      NothingCountedYet(workers[1..]);
    }
  }

  lemma InitHolds(src: Bytes, s: State)
    requires Init(src, s)
    ensures Inv(src, s)
  {
    NothingCountedYet(s.workers);
    TilesPartition(ChunksOf(s.workers), 0, |src|);
    forall i | 0 <= i < |s.workers|
      ensures WorkerInv(src, s.file, s.workers[i])
    {
      assert ChunksOf(s.workers)[i] == s.workers[i].chunk;
    }
  }

  lemma {:induction false} RunKeeps(src: Bytes, run: seq<State>, k: nat)
    requires Run(src, run) && k < |run|
    ensures Inv(src, run[k])
  {
    if k == 0 {
      InitHolds(src, run[0]);
    } else {
      RunKeeps(src, run, k - 1);
      var i, e :| Moves(src, run[k - 1], run[k], i, e);
      ApplyKeeps(src, run[k - 1], i, e);
    }
  }

  /** Moves asks for Inv only so that its step is defined: whatever is enabled in a reachable state can happen. */
  lemma EnabledStepsHappen(src: Bytes, run: seq<State>, i: nat, e: Event) returns (s': State)
    requires Run(src, run) && Enabled(run[|run| - 1], i, e)
    ensures Moves(src, run[|run| - 1], s', i, e)
  {
    RunKeeps(src, run, |run| - 1);
    s' := Apply(src, run[|run| - 1], i, e);
  }

  // ---------------------------------------------------------------- a download can succeed

  /** The run goes on from this one, and of the workers only the i-th has moved, to w. */
  ghost predicate Extends(src: Bytes, run: seq<State>, i: nat, w: Worker, longer: seq<State>) {
    && Run(src, run) && Run(src, longer) && run <= longer && i < |run[|run| - 1].workers|
    && longer[|longer| - 1].workers == run[|run| - 1].workers[i := w]
  }

  lemma StepExtends(src: Bytes, run: seq<State>, i: nat, e: Event, w: Worker) returns (longer: seq<State>)
    requires Run(src, run) && Enabled(run[|run| - 1], i, e)
    requires var s := run[|run| - 1];
             Inv(src, s) ==> WorkerStep(src, s.file, s.progress, s.workers[i], e).2 == w
    ensures Extends(src, run, i, w, longer)
  {
    var s' := EnabledStepsHappen(src, run, i, e);
    longer := run + [s'];
    forall k | 0 <= k < |longer| - 1
      ensures Next(src, longer[k], longer[k + 1])
    {
      if k < |run| - 1 {
        assert Next(src, run[k], run[k + 1]);
      }
    }
  }

  lemma FullResponseArrives(src: Bytes, run: seq<State>, i: nat) returns (longer: seq<State>)
    requires Run(src, run) && i < |run[|run| - 1].workers|
    requires run[|run| - 1].workers[i].phase.Top? && run[|run| - 1].workers[i].attempt < 6
    ensures var w := run[|run| - 1].workers[i];
            && 0 <= w.pos <= w.chunk.end < |src|
            && Extends(src, run, i, w.(phase := Copying(src[w.pos..w.chunk.end + 1], 0)), longer)
  {
    RunKeeps(src, run, |run| - 1);
    var w := run[|run| - 1].workers[i];
    assert WorkerInv(src, run[|run| - 1].file, w);
    longer := StepExtends(src, run, i, Responds(w.chunk.end + 1 - w.pos),
                          w.(phase := Copying(src[w.pos..w.chunk.end + 1], 0)));
  }

  lemma LastReadFinishes(src: Bytes, run: seq<State>, i: nat) returns (longer: seq<State>)
    requires Run(src, run) && i < |run[|run| - 1].workers| && run[|run| - 1].workers[i].phase.Copying?
    requires var w := run[|run| - 1].workers[i];
             w.phase.written == 0 && |w.phase.body| == w.chunk.end + 1 - w.pos > 0
    ensures var w := run[|run| - 1].workers[i];
            Extends(src, run, i, w.(pos := w.chunk.end + 1, phase := Done(true)), longer)
  {
    var w := run[|run| - 1].workers[i];
    var n := |w.phase.body|;
    assert w.phase.body[n..] == [];
    longer := StepExtends(src, run, i, Reads(n, true), w.(phase := Counting([], 0, n, true)));
    longer := StepExtends(src, longer, i, Continue, w.(phase := Copied(n)));
    longer := StepExtends(src, longer, i, Continue, w.(pos := w.chunk.end + 1, phase := Done(true)));
  }

  /** From the top with an attempt left, one full response is enough, whatever failed before. */
  lemma OneResponseIsEnough(src: Bytes, run: seq<State>, i: nat) returns (longer: seq<State>)
    requires Run(src, run) && i < |run[|run| - 1].workers|
    requires run[|run| - 1].workers[i].phase.Top? && run[|run| - 1].workers[i].attempt < 6
    ensures var w := run[|run| - 1].workers[i];
            Extends(src, run, i, w.(pos := w.chunk.end + 1, phase := Done(true)), longer)
  {
    longer := FullResponseArrives(src, run, i);
    longer := LastReadFinishes(src, longer, i);
  }

  predicate AllDone(s: State, n: nat) { forall i | 0 <= i < |s.workers| && i < n :: s.workers[i].phase == Done(true) }

  /** Every worker is done, or at the top of its loop with an attempt left. */
  predicate CanRetry(s: State) {
    forall i | 0 <= i < |s.workers| ::
      s.workers[i].phase == Done(true) || (s.workers[i].phase.Top? && s.workers[i].attempt < 6)
  }

  lemma {:induction false} RestCanSucceed(src: Bytes, run: seq<State>, n: nat) returns (longer: seq<State>)
    requires Run(src, run) && n <= |run[|run| - 1].workers|
    requires AllDone(run[|run| - 1], n) && CanRetry(run[|run| - 1])
    ensures Run(src, longer) && run <= longer
    ensures var s := longer[|longer| - 1]; AllDone(s, |s.workers|)
    decreases |run[|run| - 1].workers| - n
  {
    longer := run;
    var workers := run[|run| - 1].workers;
    if n < |workers| {
      if workers[n].phase.Top? {
        longer := OneResponseIsEnough(src, run, n);
      }
      longer := RestCanSucceed(src, longer, n + 1);
    }
  }

  /** Whatever has failed so far, while everyone is done or has an attempt left the download can still succeed. */
  lemma DownloadCanSucceed(src: Bytes, run: seq<State>) returns (longer: seq<State>)
    requires Run(src, run) && CanRetry(run[|run| - 1])
    ensures Run(src, longer) && run <= longer
    ensures var s := longer[|longer| - 1]; AllDone(s, |s.workers|) && s.file == src && s.progress == |src|
  {
    longer := RestCanSucceed(src, run, 0);
    NilMeansComplete(src, longer, |longer| - 1);
  }

  // ---------------------------------------------------------------- results

  lemma {:induction false} FinishedSum(workers: seq<Worker>, from: int, to: int)
    requires Tiles(ChunksOf(workers), from, to)
    requires forall i | 0 <= i < |workers| :: Counted(workers[i]) == workers[i].chunk.end + 1 - workers[i].chunk.start
    ensures SumCounted(workers) == to - from
  {
    if workers != [] {
      assert ChunksOf(workers)[1..] == ChunksOf(workers[1..]);
      FinishedSum(workers[1..], workers[0].chunk.end + 1, to);
    }
  }

  /** If every worker returns without error, the file is the source and the counter its length. */
  lemma NilMeansComplete(src: Bytes, run: seq<State>, k: nat)
    requires Run(src, run) && k < |run|
    requires forall i | 0 <= i < |run[k].workers| :: run[k].workers[i].phase == Done(true)
    ensures run[k].file == src && run[k].progress == |src|
  {
    RunKeeps(src, run, k);
    var s := run[k];
    var chunks := ChunksOf(s.workers);
    TilesPartition(chunks, 0, |src|);
    FinishedSum(s.workers, 0, |src|);
    forall b | 0 <= b < |src|
      ensures s.file[b] == src[b]
    {
      assert Covered(chunks, b);
      var i :| 0 <= i < |chunks| && Has(chunks[i], b);
      assert WorkerInv(src, s.file, s.workers[i]);
    }
  }

  lemma {:induction false} SumWithin(workers: seq<Worker>, from: int, to: int)
    requires Tiles(ChunksOf(workers), from, to)
    requires forall i | 0 <= i < |workers| ::
                0 <= Counted(workers[i]) <= workers[i].chunk.end + 1 - workers[i].chunk.start
    ensures 0 <= SumCounted(workers) <= to - from
  {
    if workers != [] {
      assert ChunksOf(workers)[1..] == ChunksOf(workers[1..]);
      SumWithin(workers[1..], workers[0].chunk.end + 1, to);
    }
  }

  /** At every moment the counter is the sum of what the workers have written, and never exceeds the total. */
  lemma ProgressIsHonest(src: Bytes, run: seq<State>, k: nat)
    requires Run(src, run) && k < |run|
    ensures run[k].progress == SumCounted(run[k].workers) && 0 <= run[k].progress <= |src|
  {
    RunKeeps(src, run, k);
    forall i | 0 <= i < |run[k].workers|
      ensures 0 <= Counted(run[k].workers[i]) <= run[k].workers[i].chunk.end + 1 - run[k].workers[i].chunk.start
    {
      assert WorkerInv(src, run[k].file, run[k].workers[i]);
    }
    SumWithin(run[k].workers, 0, |src|);
  }

  /** A worker never makes more than six requests, and never has a response open past the sixth. */
  lemma AttemptsAreBounded(src: Bytes, run: seq<State>, k: nat, i: nat)
    requires Run(src, run) && k < |run| && i < |run[k].workers|
    ensures run[k].workers[i].attempt <= 6
    ensures run[k].workers[i].phase.Copying? ==> run[k].workers[i].attempt < 6
  {
    RunKeeps(src, run, k);
    assert WorkerInv(src, run[k].file, run[k].workers[i]);
  }

  // ---------------------------------------------------------------- giving up

  /** Worker i's request fails, or the response to it ended and the worker is back at the top for the rest. */
  ghost predicate RequestEnds(src: Bytes, s: State, s': State, i: nat) {
    || Moves(src, s, s', i, RequestFails)
    || (i < |s.workers| == |s'.workers| && s.workers[i].phase.Copied? && s'.workers[i].phase.Top?)
  }

  ghost function Ended(src: Bytes, run: seq<State>, i: nat, k: nat): nat
    requires k < |run|
  {
    if k == 0 then 0 else Ended(src, run, i, k - 1) + (if RequestEnds(src, run[k - 1], run[k], i) then 1 else 0)
  }

  lemma AttemptsCount(src: Bytes, s: State, s': State, i: nat, j: nat, e: Event)
    requires Moves(src, s, s', j, e) && i < |s.workers|
    ensures |s'.workers| == |s.workers| && s'.workers[i].chunk == s.workers[i].chunk
    ensures s'.workers[i].attempt == s.workers[i].attempt + (if RequestEnds(src, s, s', i) then 1 else 0)
    ensures RequestEnds(src, s, s', i) ==> s'.workers[i].pos <= s.workers[i].chunk.end
  {
    assert WorkerInv(src, s.file, s.workers[i]);
  }

  lemma MoveOf(src: Bytes, run: seq<State>, k: nat) returns (j: nat, e: Event)
    requires Run(src, run) && k + 1 < |run|
    ensures Moves(src, run[k], run[k + 1], j, e)
  {
    assert Next(src, run[k], run[k + 1]);
    j, e :| Moves(src, run[k], run[k + 1], j, e);
  }

  /** The attempts a worker has used are the requests that ended with bytes missing. */
  lemma {:induction false} AttemptsAreRequests(src: Bytes, run: seq<State>, i: nat, k: nat)
    requires Run(src, run) && k < |run| && i < |run[k].workers|
    ensures |run[0].workers| == |run[k].workers| && run[k].workers[i].attempt == Ended(src, run, i, k)
  {
    if k > 0 {
      var j, e := MoveOf(src, run, k - 1);
      assert |run[k].workers| == |run[k - 1].workers|;
      AttemptsAreRequests(src, run, i, k - 1);
      AttemptsCount(src, run[k - 1], run[k], i, j, e);
    }
  }

  /** Worker i is cancelled in this step. */
  ghost predicate IsCancelled(src: Bytes, s: State, s': State, i: nat) { Moves(src, s, s', i, Cancelled) }

  /** It stands at the top of its loop with no attempt left and bytes missing. */
  predicate IsSpent(s: State, i: nat) {
    i < |s.workers| && s.workers[i].phase.Top? && s.workers[i].attempt == 6
    && s.workers[i].pos <= s.workers[i].chunk.end
  }

  predicate HasFailed(s: State, i: nat) { i < |s.workers| && s.workers[i].phase == Done(false) }

  lemma FailedBefore(src: Bytes, s: State, s': State, i: nat, j: nat, e: Event)
    requires Moves(src, s, s', j, e) && HasFailed(s', i)
    ensures HasFailed(s, i) || IsCancelled(src, s, s', i) || IsSpent(s, i)
  {
    assert i < |s.workers| && WorkerInv(src, s.file, s.workers[i]);
  }

  lemma FailedStep(src: Bytes, run: seq<State>, k: nat, i: nat)
    requires Run(src, run) && k < |run| && HasFailed(run[k], i)
    ensures k > 0
    ensures HasFailed(run[k - 1], i) || IsCancelled(src, run[k - 1], run[k], i) || IsSpent(run[k - 1], i)
  {
    assert !HasFailed(run[0], i);
    var j, e := MoveOf(src, run, k - 1);
    FailedBefore(src, run[k - 1], run[k], i, j, e);
  }

  /**
   A worker returns an error only after its context was cancelled, or after six requests that ended
   with bytes of its chunk still missing.
   */
  lemma GivesUpForCause(src: Bytes, run: seq<State>, k: nat, i: nat) returns (m: nat)
    requires Run(src, run) && k < |run| && HasFailed(run[k], i)
    ensures m < k && i < |run[m].workers|
    ensures || IsCancelled(src, run[m], run[m + 1], i)
            || (Ended(src, run, i, m) == 6 && run[m].workers[i].pos <= run[m].workers[i].chunk.end)
  {
    var failed := seq(|run|, n requires 0 <= n < |run| => HasFailed(run[n], i));
    var cause := seq(|run|, n requires 0 <= n < |run| =>
      n + 1 < |run| && (IsCancelled(src, run[n], run[n + 1], i) || IsSpent(run[n], i)));
    forall n | 0 <= n < |failed| && failed[n]
      ensures n > 0 && (cause[n - 1] || failed[n - 1])
    {
      FailedStep(src, run, n, i);
    }
    m := CheckedBefore(cause, failed, k);
    if IsSpent(run[m], i) {
      AttemptsAreRequests(src, run, i, m);
    }
  }
}
