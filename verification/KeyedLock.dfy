// The refcounted lock table of keyed.Locker, under every interleaving of its callers.
module KeyedLock {
  import opened Prelude

  /** One entry: who holds its mutex, and how many callers count on it. */
  datatype Ref = Ref(owner: Option<nat>, refs: int)

  /** Where a caller stands. From Waiting to Leaving it is counted in its ref. */
  datatype Phase =
    | Entering(key: string)
    | Waiting(key: string, ref: nat)
    | Holding(key: string, ref: nat)
    | Leaving(key: string, ref: nat)
    | Gone

  /** `locks` is the table; `heap` holds every ref ever allocated. */
  datatype State = State(locks: map<string, nat>, heap: map<nat, Ref>, callers: map<nat, Phase>)

  /**
   Lock(key) is Call, Enter (its critical section under the table mutex; `spare` is the
   address used if it allocates) and Acquire; the unlock it returns is Release and Leave.
   */
  datatype Action =
    | Call(t: nat, key: string) | Enter(t: nat, spare: nat) | Acquire(t: nat) | Release(t: nat) | Leave(t: nat)

  predicate Counted(p: Phase) { p.Waiting? || p.Holding? || p.Leaving? }

  function Users(s: State, ref: nat): set<nat> {
    set t | t in s.callers && Counted(s.callers[t]) && s.callers[t].ref == ref
  }

  function Holders(s: State, key: string): set<nat> {
    set t | t in s.callers && s.callers[t].Holding? && s.callers[t].key == key
  }

  predicate Enabled(s: State, a: Action) {
    match a
    case Call(t, _) => t !in s.callers
    case Enter(t, spare) => t in s.callers && s.callers[t].Entering? && spare !in s.heap
    case Acquire(t) => t in s.callers && s.callers[t].Waiting? && s.callers[t].ref in s.heap
      && s.heap[s.callers[t].ref].owner.None?
    case Release(t) => t in s.callers && s.callers[t].Holding? && s.callers[t].ref in s.heap
    case Leave(t) => t in s.callers && s.callers[t].Leaving? && s.callers[t].ref in s.heap
  }

  function EnterStep(s: State, t: nat, spare: nat): State
    requires Enabled(s, Enter(t, spare))
  {
    var key := s.callers[t].key;
    if key in s.locks && s.locks[key] in s.heap then
      var r := s.locks[key];
      State(s.locks, s.heap[r := Ref(s.heap[r].owner, s.heap[r].refs + 1)], s.callers[t := Waiting(key, r)])
    else
      State(s.locks[key := spare], s.heap[spare := Ref(None, 1)], s.callers[t := Waiting(key, spare)])
  }

  function LeaveStep(s: State, t: nat): State
    requires Enabled(s, Leave(t))
  {
    var key, r := s.callers[t].key, s.callers[t].ref;
    var left := s.heap[r].refs - 1;
    State(if left == 0 then s.locks - {key} else s.locks, s.heap[r := Ref(s.heap[r].owner, left)], s.callers[t := Gone])
  }

  function SetOwner(s: State, t: nat, owner: Option<nat>, next: Phase): State
    requires t in s.callers && Counted(s.callers[t]) && s.callers[t].ref in s.heap
  {
    var r := s.callers[t].ref;
    s.(heap := s.heap[r := Ref(owner, s.heap[r].refs)], callers := s.callers[t := next])
  }

  function Apply(s: State, a: Action): State
    requires Enabled(s, a)
  {
    match a
    case Call(t, key) => s.(callers := s.callers[t := Entering(key)])
    case Enter(t, spare) => EnterStep(s, t, spare)
    case Acquire(t) => SetOwner(s, t, Some(t), Holding(s.callers[t].key, s.callers[t].ref))
    case Release(t) => SetOwner(s, t, None, Leaving(s.callers[t].key, s.callers[t].ref))
    case Leave(t) => LeaveStep(s, t)
  }

  ghost predicate Moves(s: State, s': State, a: Action) {
    Enabled(s, a) && s' == Apply(s, a)
  }

  ghost predicate Next(s: State, s': State) {
    exists a :: Moves(s, s', a)
  }

  ghost predicate Run(run: seq<State>) {
    && run != [] && run[0] == State(map[], map[], map[])
    && forall i | 0 <= i < |run| - 1 :: Next(run[i], run[i + 1])
  }

  // ---------------------------------------------------------------- invariant

  /** Every counted caller's ref is the one in the table under its key. */
  ghost predicate RefsAreCurrent(s: State) {
    forall t | t in s.callers && Counted(s.callers[t]) ::
      s.callers[t].key in s.locks && s.locks[s.callers[t].key] == s.callers[t].ref
  }

  ghost predicate EntriesAreUsed(s: State) {
    && (forall k | k in s.locks :: s.locks[k] in s.heap && s.heap[s.locks[k]].refs > 0)
    && (forall k, l | k in s.locks && l in s.locks && k != l :: s.locks[k] != s.locks[l])
  }

  ghost predicate CountsAreExact(s: State) {
    forall r | r in s.heap :: s.heap[r].refs == |Users(s, r)|
  }

  ghost predicate MutexesAreExact(s: State) {
    && (forall t | t in s.callers && s.callers[t].Holding? ::
          s.callers[t].ref in s.heap && s.heap[s.callers[t].ref].owner == Some(t))
    && (forall r | r in s.heap && s.heap[r].owner.Some? ::
          var t := s.heap[r].owner.value; t in s.callers && s.callers[t].Holding? && s.callers[t].ref == r)
  }

  ghost predicate Inv(s: State) {
    RefsAreCurrent(s) && EntriesAreUsed(s) && CountsAreExact(s) && MutexesAreExact(s)
  }

  lemma SameUsers(s: State, s': State)
    requires s'.callers.Keys >= s.callers.Keys
    requires forall t | t in s'.callers && Counted(s'.callers[t]) ::
               t in s.callers && Counted(s.callers[t]) && s.callers[t].ref == s'.callers[t].ref
    requires forall t | t in s.callers && Counted(s.callers[t]) :: Counted(s'.callers[t])
    ensures forall r :: Users(s', r) == Users(s, r)
  {
  }

  lemma CallKeeps(s: State, t: nat, key: string)
    requires Inv(s) && Enabled(s, Call(t, key))
    ensures Inv(Apply(s, Call(t, key)))
  {
    SameUsers(s, Apply(s, Call(t, key)));
  }

  lemma OneMoreUser(s: State, s': State, t: nat)
    requires t in s.callers && s.callers[t].Entering? && t in s'.callers && s'.callers[t].Waiting?
    requires s'.callers == s.callers[t := s'.callers[t]]
    ensures |Users(s', s'.callers[t].ref)| == |Users(s, s'.callers[t].ref)| + 1
    ensures forall q | q != s'.callers[t].ref :: Users(s', q) == Users(s, q)
  {
    var r := s'.callers[t].ref;
    assert Users(s', r) == Users(s, r) + {t};
  }

  lemma SpareHasNoUsers(s: State, spare: nat)
    requires RefsAreCurrent(s) && EntriesAreUsed(s) && spare !in s.heap
    ensures Users(s, spare) == {}
  {
  }

  lemma EnterCounts(s: State, t: nat, spare: nat)
    requires Inv(s) && Enabled(s, Enter(t, spare))
    ensures CountsAreExact(EnterStep(s, t, spare))
  {
    OneMoreUser(s, EnterStep(s, t, spare), t);
    SpareHasNoUsers(s, spare);
  }

  lemma EnterKeepsTable(s: State, t: nat, spare: nat)
    requires RefsAreCurrent(s) && EntriesAreUsed(s) && Enabled(s, Enter(t, spare))
    ensures RefsAreCurrent(EnterStep(s, t, spare)) && EntriesAreUsed(EnterStep(s, t, spare))
  {
  }

  lemma EnterKeepsMutexes(s: State, t: nat, spare: nat)
    requires MutexesAreExact(s) && Enabled(s, Enter(t, spare))
    ensures MutexesAreExact(EnterStep(s, t, spare))
  {
  }

  lemma EnterKeeps(s: State, t: nat, spare: nat)
    requires Inv(s) && Enabled(s, Enter(t, spare))
    ensures Inv(EnterStep(s, t, spare))
  {
    EnterKeepsTable(s, t, spare);
    EnterCounts(s, t, spare);
    EnterKeepsMutexes(s, t, spare);
  }

  lemma AcquireKeeps(s: State, t: nat)
    requires Inv(s) && Enabled(s, Acquire(t))
    ensures Inv(Apply(s, Acquire(t)))
  {
    SameUsers(s, Apply(s, Acquire(t)));
  }

  lemma ReleaseKeeps(s: State, t: nat)
    requires Inv(s) && Enabled(s, Release(t))
    ensures Inv(Apply(s, Release(t)))
  {
    SameUsers(s, Apply(s, Release(t)));
  }

  lemma LeaveCounts(s: State, t: nat)
    requires Inv(s) && Enabled(s, Leave(t))
    ensures CountsAreExact(LeaveStep(s, t))
  {
    var s', r := LeaveStep(s, t), s.callers[t].ref;
    assert t in Users(s, r);
    assert Users(s', r) == Users(s, r) - {t};
    assert forall q | q != r :: Users(s', q) == Users(s, q);
  }

  lemma LeaveKeepsRefs(s: State, t: nat)
    requires Inv(s) && Enabled(s, Leave(t)) && CountsAreExact(LeaveStep(s, t))
    ensures RefsAreCurrent(LeaveStep(s, t))
  {
    var s', key, r := LeaveStep(s, t), s.callers[t].key, s.callers[t].ref;
    forall u | u in s'.callers && Counted(s'.callers[u])
      ensures s'.callers[u].key in s'.locks && s'.locks[s'.callers[u].key] == s'.callers[u].ref
    {
      if s'.callers[u].key == key {
        assert u in Users(s', r);
      }
    }
  }

  lemma LeaveKeepsEntries(s: State, t: nat)
    requires RefsAreCurrent(s) && EntriesAreUsed(s) && CountsAreExact(s) && Enabled(s, Leave(t))
    ensures EntriesAreUsed(LeaveStep(s, t))
  {
    assert t in Users(s, s.callers[t].ref);
  }

  lemma LeaveKeepsMutexes(s: State, t: nat)
    requires MutexesAreExact(s) && Enabled(s, Leave(t))
    ensures MutexesAreExact(LeaveStep(s, t))
  {
  }

  lemma LeaveKeeps(s: State, t: nat)
    requires Inv(s) && Enabled(s, Leave(t))
    ensures Inv(LeaveStep(s, t))
  {
    LeaveCounts(s, t);
    LeaveKeepsRefs(s, t);
    LeaveKeepsEntries(s, t);
    LeaveKeepsMutexes(s, t);
  }

  lemma ApplyKeeps(s: State, a: Action)
    requires Inv(s) && Enabled(s, a)
    ensures Inv(Apply(s, a))
  {
    match a
    case Call(t, key) => CallKeeps(s, t, key);
    case Enter(t, spare) => EnterKeeps(s, t, spare);
    case Acquire(t) => AcquireKeeps(s, t);
    case Release(t) => ReleaseKeeps(s, t);
    case Leave(t) => LeaveKeeps(s, t);
  }

  lemma {:induction false} RunKeeps(run: seq<State>, i: nat)
    requires Run(run) && i < |run|
    ensures Inv(run[i])
  {
    if i > 0 {
      RunKeeps(run, i - 1);
      var a :| Moves(run[i - 1], run[i], a);
      ApplyKeeps(run[i - 1], a);
    }
  }

  // ---------------------------------------------------------------- results

  /** At most one caller holds a key, counts are exact, and counted refs are the ones in the table. */
  lemma KeysAreExclusive(run: seq<State>, i: nat, key: string)
    requires Run(run) && i < |run|
    ensures |Holders(run[i], key)| <= 1
    ensures forall r | r in run[i].heap :: run[i].heap[r].refs == |Users(run[i], r)|
    ensures forall t | t in run[i].callers && Counted(run[i].callers[t]) ::
              run[i].callers[t].key in run[i].locks && run[i].locks[run[i].callers[t].key] == run[i].callers[t].ref
  {
    RunKeeps(run, i);
    var h := Holders(run[i], key);
    if h != {} {
      var t :| t in h;
      assert h == {t};
    }
  }

  /** Once everyone has released, the table is empty. */
  lemma TableDrains(run: seq<State>, i: nat)
    requires Run(run) && i < |run|
    requires forall t | t in run[i].callers :: !Counted(run[i].callers[t])
    ensures run[i].locks == map[]
  {
    RunKeeps(run, i);
    assert forall r :: Users(run[i], r) == {};
  }

  /** A caller waiting for a key can take it, or its holder can release it. */
  lemma WaitersAreServed(run: seq<State>, i: nat, t: nat)
    requires Run(run) && i < |run| && t in run[i].callers && run[i].callers[t].Waiting?
    ensures || Enabled(run[i], Acquire(t))
            || exists u :: u in Holders(run[i], run[i].callers[t].key) && Enabled(run[i], Release(u))
  {
    RunKeeps(run, i);
    var s := run[i];
    var r := s.callers[t].ref;
    if s.heap[r].owner.Some? {
      var u := s.heap[r].owner.value;
      assert s.locks[s.callers[u].key] == s.locks[s.callers[t].key];
      assert u in Holders(s, s.callers[t].key) && Enabled(s, Release(u));
    }
  }

  /** A key that nobody holds can be taken, whatever other keys are held; all other steps are never blocked. */
  lemma KeysAreIndependent(run: seq<State>, i: nat, t: nat, spare: nat)
    requires Run(run) && i < |run| && t in run[i].callers && spare !in run[i].heap
    ensures var s, p := run[i], run[i].callers[t];
            && (p.Waiting? && Holders(s, p.key) == {} ==> Enabled(s, Acquire(t)))
            && (p.Entering? ==> Enabled(s, Enter(t, spare)))
            && (p.Holding? ==> Enabled(s, Release(t)))
            && (p.Leaving? ==> Enabled(s, Leave(t)))
  {
    RunKeeps(run, i);
    if run[i].callers[t].Waiting? {
      WaitersAreServed(run, i, t);
    }
  }
}
