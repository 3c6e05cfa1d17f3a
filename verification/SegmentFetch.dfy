// The shared fetching of segments: any number of goroutines in Reader.get, started by reads and by
// prefetch, step by step through the mutex, the semaphore and the network.
module SegmentFetch {
  import opened Prelude
  import opened SegmentReader

  const MAX_PARALLEL := 8

  type Outcome = Option<Bytes>

  /**
   Where a goroutine is in get: before the mutex; waiting for another one's fetch; registered in
   `inflight` and waiting for the semaphore; holding it, without and then with an outcome; past
   it; deregistered and the outcome stored; returned, with the goroutine whose fetch it was, or
   None for a segment found in memory.
   */
  datatype Phase =
    | Looking
    | Waiting(owner: nat)
    | Registered
    | Fetching
    | Fetched(outcome: Outcome)
    | Released(outcome: Outcome)
    | Settled(outcome: Outcome)
    | Done(outcome: Outcome, from: Option<nat>)

  datatype Goroutine = Goroutine(seg: nat, phase: Phase)

  datatype File = File(segs: seq<Segment>, articles: map<string, Article>)

  /** The reader's shared fields and all goroutines that ever entered get; `sem` counts the tokens taken. */
  datatype State = State(window: Window, inflight: map<nat, nat>, sem: nat, all: seq<Goroutine>)

  /** The network's answer matters only to the step that leaves Fetching. */
  datatype Step = Start(seg: nat) | Go(t: nat, up: bool)

  predicate Owns(p: Phase) { p.Registered? || p.Fetching? || p.Fetched? || p.Released? }

  predicate HoldsToken(p: Phase) { p.Fetching? || p.Fetched? }

  predicate Enabled(f: File, s: State, step: Step) {
    match step
    case Start(seg) => seg < |f.segs|
    case Go(t, _) =>
      t < |s.all| && s.all[t].seg < |f.segs| &&
      match s.all[t].phase
      case Registered => s.sem < MAX_PARALLEL
      case Waiting(owner) => owner < |s.all| && s.all[owner].phase.Done?
      case Done(_, _) => false
      case _ => true
  }

  /** Under the mutex: return what is in memory, or wait for the fetch under way, or register one. */
  function Look(s: State, t: nat, seg: nat): State {
    if seg in s.window.cache then Move(s, t, Done(Some(s.window.cache[seg]), None))
    else if seg in s.inflight then Move(s, t, Waiting(s.inflight[seg]))
    else Move(s, t, Registered).(inflight := s.inflight[seg := t])
  }

  function Move(s: State, t: nat, p: Phase): State {
    if t < |s.all| then s.(all := s.all[t := s.all[t].(phase := p)]) else s
  }

  function Answer(f: File, seg: nat, up: bool): Outcome {
    if up && seg < |f.segs| && Good(f.segs[seg], f.articles) then Some(Decoded(f.segs[seg], f.articles)) else None
  }

  /** Under the mutex: out of `inflight`, and into the window unless it failed. */
  function Settle(s: State, t: nat, seg: nat, outcome: Outcome): State {
    Move(s, t, Settled(outcome)).(
      inflight := s.inflight - {seg},
      window := if outcome.Some? then Stored(s.window, seg, outcome.value) else s.window)
  }

  function Advance(f: File, s: State, t: nat, up: bool): State
    requires t < |s.all|
  {
    var g := s.all[t];
    match g.phase
    case Looking => Look(s, t, g.seg)
    case Registered => Move(s, t, Fetching).(sem := s.sem + 1)
    case Fetching => Move(s, t, Fetched(Answer(f, g.seg, up)))
    case Fetched(outcome) => Move(s, t, Released(outcome)).(sem := if s.sem > 0 then s.sem - 1 else 0)
    case Released(outcome) => Settle(s, t, g.seg, outcome)
    case Settled(outcome) => Move(s, t, Done(outcome, Some(t)))
    case Waiting(owner) =>
      var outcome := if owner < |s.all| && s.all[owner].phase.Done? then s.all[owner].phase.outcome else None;
      Move(s, t, Done(outcome, Some(owner)))
    case Done(_, _) => s
  }

  function Apply(f: File, s: State, step: Step): State
    requires Enabled(f, s, step)
  {
    match step
    case Start(seg) => s.(all := s.all + [Goroutine(seg, Looking)])
    case Go(t, up) => Advance(f, s, t, up)
  }

  ghost predicate Init(f: File, s: State) {
    Laid(f.segs) && s == State(Window(map[], []), map[], 0, [])
  }

  ghost predicate Run(f: File, run: seq<State>, steps: seq<Step>) {
    && |run| == |steps| + 1 && Init(f, run[0])
    && forall k | 0 <= k < |steps| :: Enabled(f, run[k], steps[k]) && run[k + 1] == Apply(f, run[k], steps[k])
  }

  // ---------------------------------------------------------------- invariant

  ghost predicate OutcomeOk(f: File, seg: nat, outcome: Outcome) {
    outcome.Some? ==>
      seg < |f.segs| && Good(f.segs[seg], f.articles) && outcome.value == Decoded(f.segs[seg], f.articles)
  }

  /** The owner of a fetch: registered under its segment, or past that. */
  predicate OwnerOf(all: seq<Goroutine>, o: nat, seg: nat) {
    o < |all| && all[o].seg == seg
      && (Owns(all[o].phase) || all[o].phase.Settled? || (all[o].phase.Done? && all[o].phase.from == Some(o)))
  }

  ghost predicate GoroutineOk(f: File, s: State, t: nat)
    requires t < |s.all|
  {
    var g := s.all[t];
    && g.seg < |f.segs|
    && (Owns(g.phase) ==> g.seg in s.inflight && s.inflight[g.seg] == t)
    && (g.phase.Waiting? ==> OwnerOf(s.all, g.phase.owner, g.seg))
    && (g.phase.Fetched? || g.phase.Released? || g.phase.Settled? || g.phase.Done? ==>
          OutcomeOk(f, g.seg, g.phase.outcome))
    && (g.phase.Done? && g.phase.from.None? ==> g.phase.outcome.Some?)
    && (g.phase.Done? && g.phase.from.Some? ==>
          OwnerOf(s.all, g.phase.from.value, g.seg) && s.all[g.phase.from.value].phase == g.phase)
  }

  ghost predicate AllOk(f: File, s: State) {
    forall t: nat | t < |s.all| :: GoroutineOk(f, s, t)
  }

  /** An entry of `inflight` belongs to a goroutine that still owns it, and its segment is not in memory. */
  ghost predicate TableOk(s: State) {
    forall seg | seg in s.inflight ::
      && s.inflight[seg] < |s.all| && s.all[s.inflight[seg]].seg == seg && Owns(s.all[s.inflight[seg]].phase)
      && seg !in s.window.cache
  }

  function Holders(all: seq<Goroutine>): set<nat> {
    set t: nat | t < |all| && HoldsToken(all[t].phase)
  }

  ghost predicate Inv(f: File, s: State) {
    && Laid(f.segs) && WindowOk(s.window, f.segs, f.articles)
    && AllOk(f, s) && TableOk(s) && s.sem == |Holders(s.all)| <= MAX_PARALLEL
  }

  // ---------------------------------------------------------------- preservation

  lemma HoldersAfter(all: seq<Goroutine>, t: nat, p: Phase)
    requires t < |all|
    ensures var after := all[t := all[t].(phase := p)];
            |Holders(after)| ==
              |Holders(all)| - (if HoldsToken(all[t].phase) then 1 else 0) + (if HoldsToken(p) then 1 else 0)
  {
    var after := all[t := all[t].(phase := p)];
    CardinalityAround(Holders(all), Holders(after), t);
  }

  lemma HoldersOfMore(all: seq<Goroutine>, g: Goroutine)
    requires !HoldsToken(g.phase)
    ensures Holders(all + [g]) == Holders(all)
  {
  }

  lemma StartKeeps(f: File, s: State, seg: nat)
    requires Inv(f, s) && seg < |f.segs|
    ensures Inv(f, Apply(f, s, Start(seg)))
  {
    var s' := Apply(f, s, Start(seg));
    HoldersOfMore(s.all, Goroutine(seg, Looking));
    forall t: nat | t < |s'.all|
      ensures GoroutineOk(f, s', t)
    {
      if t < |s.all| {
        assert GoroutineOk(f, s, t);
      }
    }
  }

  /** A move that neither gains nor loses ownership, nor changes a published outcome, leaves the others alone. */
  lemma OthersStayOk(f: File, s: State, s': State, t: nat)
    requires AllOk(f, s) && t < |s.all| && |s'.all| == |s.all|
    requires s'.all == s.all[t := s'.all[t]] && s'.all[t].seg == s.all[t].seg
    requires !s.all[t].phase.Done?
    requires forall seg | seg in s.inflight && s.inflight[seg] != t ::
                seg in s'.inflight && s'.inflight[seg] == s.inflight[seg]
    requires OwnerOf(s.all, t, s.all[t].seg) ==> OwnerOf(s'.all, t, s.all[t].seg)
    ensures forall u: nat | u < |s.all| && u != t :: GoroutineOk(f, s', u)
  {
    forall u: nat | u < |s.all| && u != t
      ensures GoroutineOk(f, s', u)
    {
      assert GoroutineOk(f, s, u);
    }
  }

  lemma OwnersKeepEntries(f: File, s: State, u: nat)
    requires AllOk(f, s) && u < |s.all| && Owns(s.all[u].phase)
    ensures s.all[u].seg in s.inflight && s.inflight[s.all[u].seg] == u
  {
    assert GoroutineOk(f, s, u);
  }

  ghost predicate StepOk(f: File, s: State, t: nat, up: bool) {
    Inv(f, s) && Enabled(f, s, Go(t, up))
  }

  lemma LookKeeps(f: File, s: State, t: nat, up: bool)
    requires StepOk(f, s, t, up) && s.all[t].phase.Looking?
    ensures Inv(f, Advance(f, s, t, up))
  {
    var s' := Advance(f, s, t, up);
    HoldersAfter(s.all, t, s'.all[t].phase);
    OthersStayOk(f, s, s', t);
    assert GoroutineOk(f, s', t);
  }

  lemma TokenKeeps(f: File, s: State, t: nat, up: bool)
    requires StepOk(f, s, t, up) && (s.all[t].phase.Registered? || HoldsToken(s.all[t].phase))
    ensures Inv(f, Advance(f, s, t, up))
  {
    var s' := Advance(f, s, t, up);
    HoldersAfter(s.all, t, s'.all[t].phase);
    assert GoroutineOk(f, s, t);
    OthersStayOk(f, s, s', t);
    assert GoroutineOk(f, s', t);
  }

  lemma StoredKeys(w: Window, i: nat, data: Bytes)
    ensures forall k | k in Stored(w, i, data).cache :: k == i || k in w.cache
  {
    if i !in w.cache {
      TrimKeys(Window(w.cache[i := data], w.order + [i]));
    }
  }

  lemma {:induction false} TrimKeys(w: Window)
    ensures forall k | k in Trim(w).cache :: k in w.cache
    decreases |w.order|
  {
    if |w.order| > MAX_CACHED {
      TrimKeys(Window(w.cache - {w.order[0]}, w.order[1..]));
    }
  }

  lemma SettleKeeps(f: File, s: State, t: nat, up: bool)
    requires StepOk(f, s, t, up) && s.all[t].phase.Released?
    ensures Inv(f, Advance(f, s, t, up))
  {
    var s', seg, outcome := Advance(f, s, t, up), s.all[t].seg, s.all[t].phase.outcome;
    HoldersAfter(s.all, t, s'.all[t].phase);
    assert GoroutineOk(f, s, t);
    if outcome.Some? {
      StoreKeeps(s.window, f.segs, f.articles, seg);
      StoredKeys(s.window, seg, outcome.value);
    }
    OthersStayOk(f, s, s', t);
    assert GoroutineOk(f, s', t);
  }

  lemma ReturnKeeps(f: File, s: State, t: nat, up: bool)
    requires StepOk(f, s, t, up) && (s.all[t].phase.Settled? || s.all[t].phase.Waiting?)
    ensures Inv(f, Advance(f, s, t, up))
  {
    var s' := Advance(f, s, t, up);
    HoldersAfter(s.all, t, s'.all[t].phase);
    assert GoroutineOk(f, s, t);
    if s.all[t].phase.Waiting? {
      assert GoroutineOk(f, s, s.all[t].phase.owner);
    }
    OthersStayOk(f, s, s', t);
    assert GoroutineOk(f, s', t);
  }

  lemma StepKeeps(f: File, s: State, step: Step)
    requires Inv(f, s) && Enabled(f, s, step)
    ensures Inv(f, Apply(f, s, step))
  {
    match step
    case Start(seg) => StartKeeps(f, s, seg);
    case Go(t, up) =>
      if s.all[t].phase.Looking? { LookKeeps(f, s, t, up); }
      else if s.all[t].phase.Released? { SettleKeeps(f, s, t, up); }
      else if s.all[t].phase.Settled? || s.all[t].phase.Waiting? { ReturnKeeps(f, s, t, up); }
      else { TokenKeeps(f, s, t, up); }
  }

  lemma {:induction false} RunKeepsInv(f: File, run: seq<State>, steps: seq<Step>, k: nat)
    requires Run(f, run, steps) && k < |run|
    ensures Inv(f, run[k])
  {
    if k == 0 {
      assert Holders(run[0].all) == {};
    } else {
      RunKeepsInv(f, run, steps, k - 1);
      StepKeeps(f, run[k - 1], steps[k - 1]);
    }
  }

  // ---------------------------------------------------------------- results

  /** At any moment at most one goroutine fetches a segment, and none fetches one that is in memory. */
  lemma OneFetchPerSegment(f: File, run: seq<State>, steps: seq<Step>, k: nat, t: nat, u: nat)
    requires Run(f, run, steps) && k < |run| && t < |run[k].all| && u < |run[k].all|
    requires run[k].all[t].phase.Fetching? && run[k].all[u].phase.Fetching? && run[k].all[t].seg == run[k].all[u].seg
    ensures t == u && run[k].all[t].seg !in run[k].window.cache
  {
    RunKeepsInv(f, run, steps, k);
    OwnersKeepEntries(f, run[k], t);
    OwnersKeepEntries(f, run[k], u);
  }

  /** Never more than eight fetches at once. */
  lemma FetchesAreBounded(f: File, run: seq<State>, steps: seq<Step>, k: nat)
    requires Run(f, run, steps) && k < |run|
    ensures |set t: nat | t < |run[k].all| && run[k].all[t].phase.Fetching?| <= 8
  {
    RunKeepsInv(f, run, steps, k);
    var running := set t: nat | t < |run[k].all| && run[k].all[t].phase.Fetching?;
    SubsetCardinality(running, Holders(run[k].all));
  }

  /** The window lists its segments once each, at most 32 of them, each as its article decodes. */
  lemma WindowIsSound(f: File, run: seq<State>, steps: seq<Step>, k: nat)
    requires Run(f, run, steps) && k < |run|
    ensures WindowOk(run[k].window, f.segs, f.articles) && |run[k].window.order| <= 32
  {
    RunKeepsInv(f, run, steps, k);
  }

  /** What get returns is the decoded segment or an error, and a waiter returns what its owner returned. */
  lemma ReturnsAreShared(f: File, run: seq<State>, steps: seq<Step>, k: nat, t: nat)
    requires Run(f, run, steps) && k < |run| && t < |run[k].all| && run[k].all[t].phase.Done?
    ensures OutcomeOk(f, run[k].all[t].seg, run[k].all[t].phase.outcome)
    ensures var p := run[k].all[t].phase;
            p.from.Some? ==> p.from.value < |run[k].all| && run[k].all[p.from.value] == Goroutine(run[k].all[t].seg, p)
  {
    RunKeepsInv(f, run, steps, k);
    assert GoroutineOk(f, run[k], t);
  }

  /** It has the outcome of its own fetch, and that is a failure. */
  predicate Failed(s: State, t: nat) {
    t < |s.all| &&
    match s.all[t].phase
    case Fetched(outcome) => outcome.None?
    case Released(outcome) => outcome.None?
    case Settled(outcome) => outcome.None?
    case Done(outcome, from) => outcome.None? && from == Some(t)
    case _ => false
  }

  /** In this step its request fails, or it gets an article that is missing, of another length or of another place. */
  predicate FetchFails(f: File, s: State, step: Step, t: nat, seg: nat) {
    && t < |s.all| && s.all[t] == Goroutine(seg, Fetching) && seg < |f.segs|
    && step.Go? && step.t == t && (!step.up || Misposted(f.segs[seg], f.articles))
  }

  lemma FailedBefore(f: File, s: State, step: Step, t: nat)
    requires Inv(f, s) && Enabled(f, s, step) && Failed(Apply(f, s, step), t)
    ensures t < |s.all| && s.all[t].seg == Apply(f, s, step).all[t].seg
    ensures Failed(s, t) || FetchFails(f, s, step, t, s.all[t].seg)
  {
    assert t < |s.all|;
    assert GoroutineOk(f, s, t);
    if step.Go? && step.t == t {
      GoodInFields(f.segs, f.articles, s.all[t].seg);
    }
  }

  lemma FailedStep(f: File, run: seq<State>, steps: seq<Step>, k: nat, t: nat, seg: nat)
    requires Run(f, run, steps) && k < |run| && Failed(run[k], t) && run[k].all[t].seg == seg
    ensures k > 0 && t < |run[k - 1].all| && run[k - 1].all[t].seg == seg
    ensures Failed(run[k - 1], t) || FetchFails(f, run[k - 1], steps[k - 1], t, seg)
  {
    RunKeepsInv(f, run, steps, k - 1);
    assert run[k - 1 + 1] == Apply(f, run[k - 1], steps[k - 1]);
    FailedBefore(f, run[k - 1], steps[k - 1], t);
  }

  /** Every error a caller gets goes back to a request that failed, or to an article that is not the one posted. */
  lemma FailureHasCause(f: File, run: seq<State>, steps: seq<Step>, k: nat, t: nat) returns (m: nat, o: nat)
    requires Run(f, run, steps) && k < |run| && t < |run[k].all|
    requires run[k].all[t].phase.Done? && run[k].all[t].phase.outcome.None?
    ensures m < k && FetchFails(f, run[m], steps[m], o, run[k].all[t].seg)
  {
    RunKeepsInv(f, run, steps, k);
    assert GoroutineOk(f, run[k], t);
    o := run[k].all[t].phase.from.value;
    var seg := run[k].all[t].seg;
    var failed := seq(|run|, i requires 0 <= i < |run| => Failed(run[i], o) && run[i].all[o].seg == seg);
    var fails := seq(|run|, i requires 0 <= i < |run| => i < |steps| && FetchFails(f, run[i], steps[i], o, seg));
    forall i | 0 <= i < |failed| && failed[i]
      ensures i > 0 && (fails[i - 1] || failed[i - 1])
    {
      FailedStep(f, run, steps, i, o, seg);
    }
    m := CheckedBefore(fails, failed, k);
  }

  /** What was fetched is in memory when its goroutine gives the segment free; a failure changes nothing there. */
  lemma SettlingStores(f: File, s: State, t: nat, up: bool)
    requires Inv(f, s) && Enabled(f, s, Go(t, up)) && s.all[t].phase.Released?
    ensures var seg, outcome, s' := s.all[t].seg, s.all[t].phase.outcome, Apply(f, s, Go(t, up));
            && seg !in s'.inflight
            && (outcome.Some? ==> seg in s'.window.cache && s'.window.cache[seg] == outcome.value)
            && (outcome.None? ==> s'.window == s.window)
  {
    assert GoroutineOk(f, s, t);
    if s.all[t].phase.outcome.Some? {
      StoreKeeps(s.window, f.segs, f.articles, s.all[t].seg);
    }
  }

  predicate CanGo(f: File, s: State, t: nat) { Enabled(f, s, Go(t, true)) }

  /** As long as one goroutine has not returned, one of them can take a step. */
  lemma NeverStuck(f: File, run: seq<State>, steps: seq<Step>, k: nat, t: nat) returns (u: nat)
    requires Run(f, run, steps) && k < |run| && t < |run[k].all| && !run[k].all[t].phase.Done?
    ensures CanGo(f, run[k], u)
  {
    RunKeepsInv(f, run, steps, k);
    var s := run[k];
    assert GoroutineOk(f, s, t);
    u := t;
    if s.all[t].phase.Waiting? {
      u := s.all[t].phase.owner;
      assert GoroutineOk(f, s, u);
      if s.all[u].phase.Done? {
        return t;
      }
    }
    if s.all[u].phase.Registered? && s.sem >= MAX_PARALLEL {
      assert Holders(s.all) != {};
      u :| u in Holders(s.all);
      assert GoroutineOk(f, s, u);
    }
  }

  function Rank(p: Phase): nat {
    match p
    case Looking => 6
    case Registered => 5
    case Fetching => 4
    case Fetched(_) => 3
    case Released(_) => 2
    case Settled(_) => 1
    case Waiting(_) => 1
    case Done(_, _) => 0
  }

  /** Each step brings its goroutine nearer to its return and moves no other: no goroutine loops. */
  lemma StepsProgress(f: File, s: State, t: nat, up: bool, u: nat)
    requires Enabled(f, s, Go(t, up)) && u < |s.all|
    ensures |Apply(f, s, Go(t, up)).all| == |s.all|
    ensures Rank(Apply(f, s, Go(t, up)).all[u].phase) <= Rank(s.all[u].phase) - (if u == t then 1 else 0)
  {
  }
}
