// Deduplicated blobs: the tables blobs and blob_refs, the objects of one node's store, what may be
// deleted, and which deletions leave every reference backed.
module BlobStore {
  datatype BlobRow = BlobRow(size: int, encrypted: bool)

  /** The primary key of blob_refs. */
  datatype RefKey = RefKey(hash: string, index: int)

  datatype Object = Object(modified: int, encrypted: bool)

  /** The tables, and the store's objects by their key. */
  datatype Tables = Tables(blobs: map<string, BlobRow>, refs: map<RefKey, string>, objects: map<string, Object>)

  datatype Backend = FileSystem | ObjectStore

  const BLOBS := "blobs/"

  function StorageKey(contentKey: string): string { BLOBS + contentKey }

  lemma StorageKeyInjective(a: string, b: string)
    requires StorageKey(a) == StorageKey(b)
    ensures a == b
  {
    assert a == StorageKey(a)[|BLOBS|..] && b == StorageKey(b)[|BLOBS|..];
  }

  /** Content keys are "b_" and hexadecimal digits: one path element. */
  predicate Plain(key: string) { key != "" && '/' !in key && key != "." && key != ".." }

  /** SELECT DISTINCT content_key FROM blob_refs. */
  function Referenced(t: Tables): set<string> {
    set r | r in t.refs :: t.refs[r]
  }

  /** Rows no reference points to. */
  function Orphans(t: Tables): set<string> {
    set k | k in t.blobs && k !in Referenced(t)
  }

  /** Every referenced content key has its row and its object. */
  ghost predicate Backed(t: Tables) {
    forall k | k in Referenced(t) :: k in t.blobs && StorageKey(k) in t.objects
  }

  ghost predicate KeysPlain(t: Tables) {
    (forall k | k in t.blobs :: Plain(k)) && (forall k | k in Referenced(t) :: Plain(k))
  }

  /** What every operation is to keep. */
  ghost predicate Safe(t: Tables) { Backed(t) && KeysPlain(t) }

  /** Each row says truly how its object is stored. */
  ghost predicate FlagsMatch(t: Tables) {
    forall k | k in t.blobs && StorageKey(k) in t.objects :: t.blobs[k].encrypted == t.objects[StorageKey(k)].encrypted
  }

  // ---------------------------------------------------------------- adding

  function Uploaded(t: Tables, key: string, now: int, encrypted: bool): Tables {
    t.(objects := t.objects[StorageKey(key) := Object(now, encrypted)])
  }

  /** AddBlobRef: a row that exists stays as it is, a reference that exists is pointed elsewhere. */
  function Added(t: Tables, hash: string, index: int, key: string, size: int, encrypted: bool): Tables {
    t.(blobs := if key in t.blobs then t.blobs else t.blobs[key := BlobRow(size, encrypted)],
       refs := t.refs[RefKey(hash, index) := key])
  }

  /**
   A reference is safe exactly when the object is there at the moment it is added: a Put that
   decided to reuse an object loses if the object is collected in between.
   */
  lemma AddingIsSafe(t: Tables, hash: string, index: int, key: string, size: int, encrypted: bool)
    requires Safe(t) && Plain(key)
    ensures Safe(Added(t, hash, index, key, size, encrypted)) <==> StorageKey(key) in t.objects
  {
    var t' := Added(t, hash, index, key, size, encrypted);
    assert t'.refs[RefKey(hash, index)] in Referenced(t');
    forall k | k in Referenced(t')
      ensures k == key || k in Referenced(t)
    {
      var r :| r in t'.refs && t'.refs[r] == k;
      if k != key {
        assert r in t.refs && t.refs[r] == k;
      }
    }
  }

  lemma UploadingIsSafe(t: Tables, key: string, now: int, encrypted: bool)
    requires Safe(t)
    ensures Safe(Uploaded(t, key, now, encrypted))
  {
    assert Referenced(Uploaded(t, key, now, encrypted)) == Referenced(t);
  }

  /**
   Uploading again for a row whose object was lost keeps the flags true exactly when the row was
   written under the same setting: the insert leaves an old row alone.
   */
  lemma FlagsAfterUpload(t: Tables, hash: string, index: int, key: string, size: int, now: int, encrypted: bool)
    requires FlagsMatch(t)
    ensures FlagsMatch(Added(Uploaded(t, key, now, encrypted), hash, index, key, size, encrypted)) <==>
            (key in t.blobs ==> t.blobs[key].encrypted == encrypted)
  {
    var t' := Added(Uploaded(t, key, now, encrypted), hash, index, key, size, encrypted);
    forall k | k in t'.blobs && StorageKey(k) in t'.objects && k != key
      ensures t'.blobs[k].encrypted == t'.objects[StorageKey(k)].encrypted
    {
      if StorageKey(k) == StorageKey(key) {
        StorageKeyInjective(k, key);
      }
    }
    assert key in t'.blobs && StorageKey(key) in t'.objects;
  }

  // ---------------------------------------------------------------- deleting

  function StorageKeys(keys: set<string>): set<string> {
    set k | k in keys :: StorageKey(k)
  }

  /** The objects and rows of `keys` gone. */
  function Collected(t: Tables, keys: set<string>): Tables {
    t.(blobs := t.blobs - keys, objects := t.objects - StorageKeys(keys))
  }

  /** Collecting is safe exactly when nothing referenced is collected. */
  lemma CollectingIsSafe(t: Tables, keys: set<string>)
    requires Safe(t)
    ensures Safe(Collected(t, keys)) <==> keys !! Referenced(t)
  {
    var t' := Collected(t, keys);
    assert Referenced(t') == Referenced(t);
    if keys !! Referenced(t) {
      forall k | k in Referenced(t')
        ensures k in t'.blobs && StorageKey(k) in t'.objects
      {
        if StorageKey(k) in StorageKeys(keys) {
          var g :| g in keys && StorageKey(g) == StorageKey(k);
          StorageKeyInjective(g, k);
        }
      }
    } else {
      var k :| k in keys && k in Referenced(t);
      assert k in Referenced(t') && k !in t'.blobs;
    }
  }

  lemma CollectMore(t: Tables, keys: set<string>, more: set<string>)
    ensures Collected(Collected(t, keys), more) == Collected(t, keys + more)
  {
    assert StorageKeys(keys + more) == StorageKeys(keys) + StorageKeys(more);
  }

  lemma OrphansAfterCollecting(t: Tables, keys: set<string>)
    ensures Orphans(Collected(t, keys)) == Orphans(t) - keys
  {
    assert Referenced(Collected(t, keys)) == Referenced(t);
  }

  /** DELETE FROM blob_refs for one download. */
  function RefsDropped(t: Tables, hash: string): Tables {
    t.(refs := map r | r in t.refs && r.hash != hash :: t.refs[r])
  }

  /** DropDanglingRefs: the references of downloads without a job. */
  function DanglingDropped(t: Tables, jobHashes: set<string>): Tables {
    t.(refs := map r | r in t.refs && r.hash in jobHashes :: t.refs[r])
  }

  lemma FewerRefsAreSafe(t: Tables, refs: map<RefKey, string>)
    requires forall r | r in refs :: r in t.refs && refs[r] == t.refs[r]
    ensures Safe(t) ==> Safe(t.(refs := refs))
    ensures Referenced(t.(refs := refs)) <= Referenced(t)
  {
    var t' := t.(refs := refs);
    forall k | k in Referenced(t')
      ensures k in Referenced(t)
    {
      var r :| r in refs && refs[r] == k;
      assert r in t.refs && t.refs[r] == k;
    }
  }

  // ---------------------------------------------------------------- deleting a download's own directory

  predicate HasPrefix(prefix: string, key: string) { prefix <= key }

  /** The elements of a path between its slashes. */
  function Elements(path: string): (elements: seq<string>)
    ensures elements != []
  {
    if path == "" then [""]
    else
      var front, c := Elements(path[..|path| - 1]), path[|path| - 1];
      if c == '/' then front + [""] else front[..|front| - 1] + [front[|front| - 1] + [c]]
  }

  function Resolved(elements: seq<string>): seq<string> {
    if elements == [] then []
    else
      var up, last := Resolved(elements[..|elements| - 1]), elements[|elements| - 1];
      if last == "" || last == "." then up
      else if last == ".." then (if up == [] then [] else up[..|up| - 1])
      else up + [last]
  }

  /** filepath.Clean below the store's root. */
  function Clean(path: string): seq<string> { Resolved(Elements(path)) }

  lemma {:induction false} ElementsOfName(dir: string, name: string)
    requires '/' !in name
    ensures Elements(dir + "/" + name) == Elements(dir) + [name]
  {
    var path := dir + "/" + name;
    if name == "" {
      assert path[..|path| - 1] == dir;
    } else {
      ElementsOfName(dir, name[..|name| - 1]);
      assert path[..|path| - 1] == dir + "/" + name[..|name| - 1];
      assert name[..|name| - 1] + [name[|name| - 1]] == name;
    }
  }

  lemma {:induction false} ElementsOfPlain(name: string)
    requires '/' !in name
    ensures Elements(name) == [name]
  {
    if name != "" {
      ElementsOfPlain(name[..|name| - 1]);
      assert name[..|name| - 1] + [name[|name| - 1]] == name;
    }
  }

  /** One more element: "" and "." stay where they are, ".." goes up, a name goes down. */
  lemma CleanElement(dir: string, name: string)
    requires '/' !in name
    ensures Clean(dir + "/" + name) ==
            if name == "" || name == "." then Clean(dir)
            else if name == ".." then (if Clean(dir) == [] then [] else Clean(dir)[..|Clean(dir)| - 1])
            else Clean(dir) + [name]
    ensures Clean(name) == if name == "" || name == "." || name == ".." then [] else [name]
  {
    ElementsOfName(dir, name);
    ElementsOfPlain(name);
    assert (Elements(dir) + [name])[..|Elements(dir)|] == Elements(dir);
    assert [name][..0] == [] && Resolved([]) == [] && [] + [name] == [name];
  }

  lemma ResolvedName(up: seq<string>, name: string)
    requires Plain(name)
    ensures Resolved(up + [name]) == Resolved(up) + [name]
  {
    assert (up + [name])[..|up|] == up;
  }

  lemma CleanOfPlain(name: string)
    requires Plain(name)
    ensures Clean(name) == [name]
  {
    ElementsOfPlain(name);
    ResolvedName([], name);
    assert [] + [name] == [name];
  }

  lemma CleanOfStorageKey(key: string)
    requires Plain(key)
    ensures Clean(StorageKey(key)) == ["blobs", key]
  {
    CleanOfPlain("blobs");
    ElementsOfName("blobs", key);
    assert "blobs" + "/" + key == StorageKey(key);
    ResolvedName(Elements("blobs"), key);
  }

  /**
   Whether DeletePrefix of the download's directory reaches an object: an object store compares
   the keys, a file system store removes whatever lies at or below the cleaned path.
   */
  predicate Reaches(backend: Backend, hash: string, key: string) {
    if backend.FileSystem? then Clean(hash) <= Clean(key) else HasPrefix(hash + "/", key)
  }

  /** The blobs below the directory of a name. */
  predicate Covers(backend: Backend, hash: string, key: string) {
    if backend.FileSystem? then Clean(hash) in {[], ["blobs"], ["blobs", key]} else hash == "blobs"
  }

  lemma PrefixOfBlob(hash: string, key: string)
    requires Plain(key)
    ensures HasPrefix(hash + "/", StorageKey(key)) <==> hash == "blobs"
  {
    var dir := hash + "/";
    assert StorageKey(key)[5] == '/' && StorageKey(key)[..5] == "blobs";
    assert forall i | 5 < i < |StorageKey(key)| :: StorageKey(key)[i] == key[i - 6];
    if HasPrefix(dir, StorageKey(key)) {
      assert dir[|hash|] == '/' && StorageKey(key)[|hash|] == '/' && StorageKey(key)[..|hash|] == hash;
      assert |hash| == 5;
    }
    if hash == "blobs" {
      assert dir == BLOBS;
    }
  }

  /** Whatever the name, these are exactly the blobs it reaches. */
  lemma ReachesBlobs(backend: Backend, hash: string, key: string)
    requires Plain(key)
    ensures Reaches(backend, hash, StorageKey(key)) <==> Covers(backend, hash, key)
  {
    PrefixOfBlob(hash, key);
    CleanOfStorageKey(key);
    var path, names := Clean(hash), ["blobs", key];
    if path <= names {
      assert path == names[..|path|];
      assert names[..0] == [] && names[..1] == ["blobs"] && names[..2] == names;
    }
  }

  /** The objects DeletePrefix leaves: those it does not reach, and those it could not delete. */
  function Cleared(t: Tables, backend: Backend, hash: string, survivors: set<string>): Tables {
    t.(objects := map key | key in t.objects && (!Reaches(backend, hash, key) || key in survivors) :: t.objects[key])
  }

  lemma ClearingKeepsRows(t: Tables, backend: Backend, hash: string, survivors: set<string>)
    ensures Referenced(Cleared(t, backend, hash, survivors)) == Referenced(t)
  {
  }

  /** A name that covers no blob. */
  predicate Harmless(backend: Backend, hash: string) {
    if backend.FileSystem? then
      var path := Clean(hash);
      path != [] && path != ["blobs"] && !(|path| == 2 && path[0] == "blobs")
    else hash != "blobs"
  }

  lemma HarmlessCoversNothing(backend: Backend, hash: string, key: string)
    ensures Harmless(backend, hash) ==> !Covers(backend, hash, key)
  {
  }

  /**
   Clearing a directory loses exactly the covered blobs: it is safe for these references if and only
   if none is covered.
   */
  lemma ClearingLosesCovered(t: Tables, backend: Backend, hash: string)
    requires Safe(t)
    ensures forall k | k in Referenced(t) :: StorageKey(k) !in Cleared(t, backend, hash, {}).objects <==>
                Covers(backend, hash, k)
    ensures Safe(Cleared(t, backend, hash, {})) <==> forall k | k in Referenced(t) :: !Covers(backend, hash, k)
  {
    var t' := Cleared(t, backend, hash, {});
    ClearingKeepsRows(t, backend, hash, {});
    forall k | k in Referenced(t)
      ensures StorageKey(k) !in t'.objects <==> Covers(backend, hash, k)
    {
      ReachesBlobs(backend, hash, k);
    }
  }

  /** Clearing a download's directory, wholly or in part, loses no blob if the name is harmless. */
  lemma ClearingIsSafe(t: Tables, backend: Backend, hash: string, survivors: set<string>)
    requires Safe(t) && Harmless(backend, hash)
    ensures Safe(Cleared(t, backend, hash, survivors))
  {
    var t' := Cleared(t, backend, hash, survivors);
    ClearingKeepsRows(t, backend, hash, survivors);
    forall k | k in Referenced(t')
      ensures StorageKey(k) in t'.objects
    {
      ReachesBlobs(backend, hash, k);
      HarmlessCoversNothing(backend, hash, k);
    }
  }

  /** With the name of the blobs' directory, or one a file system store takes for its root, all blobs go. */
  lemma HarmfulNamesLoseBlobs(t: Tables, backend: Backend, hash: string)
    requires Safe(t) && Referenced(t) != {}
    requires if backend.FileSystem? then Clean(hash) == [] || Clean(hash) == ["blobs"] else hash == "blobs"
    ensures !Safe(Cleared(t, backend, hash, {}))
    ensures forall k | k in Referenced(t) :: StorageKey(k) !in Cleared(t, backend, hash, {}).objects
  {
    ClearingLosesCovered(t, backend, hash);
  }

  // ---------------------------------------------------------------- the names downloads have

  predicate HexDigit(c: char) { '0' <= c <= '9' || 'a' <= c <= 'f' }

  /** Lower-case hexadecimal digits, as in the hash of a torrent, a file or an address. */
  predicate Hexadecimal(hash: string) { hash != "" && forall i | 0 <= i < |hash| :: HexDigit(hash[i]) }

  lemma HexIsHarmless(backend: Backend, hash: string)
    requires Hexadecimal(hash)
    ensures Harmless(backend, hash)
  {
    assert HexDigit(hash[0]) && !HexDigit('.') && !HexDigit('/');
    assert !HexDigit("blobs"[1]);
    assert hash != "blobs" && Plain(hash);
    CleanOfPlain(hash);
  }

  function Slashes(n: nat): string { if n == 0 then "" else Slashes(n - 1) + "/" }

  lemma {:induction false} ElementsOfSlashes(n: nat)
    ensures |Slashes(n)| == n && Resolved(Elements(Slashes(n))) == []
  {
    if n > 0 {
      var front := Elements(Slashes(n - 1));
      ElementsOfSlashes(n - 1);
      assert Slashes(n)[..n - 1] == Slashes(n - 1);
      assert (front + [""])[..|front|] == front;
    }
  }

  /** However many slashes stand before it, a file system store takes the name for the blobs' directory. */
  lemma SlashesCleanAway(n: nat)
    requires n > 0
    ensures Clean(Slashes(n) + "blobs") == ["blobs"]
  {
    ElementsOfSlashes(n - 1);
    ElementsOfName(Slashes(n - 1), "blobs");
    assert Slashes(n - 1) + "/" + "blobs" == Slashes(n) + "blobs";
    ResolvedName(Elements(Slashes(n - 1)), "blobs");
  }

  // ---------------------------------------------------------------- a whole eviction

  /**
   Clearing a directory, dropping the download's references and collecting what nothing references any
   more is safe if and only if no reference that remains is to a covered blob.
   */
  lemma EvictingLosesCovered(t: Tables, backend: Backend, hash: string, gone: set<string>)
    requires Safe(t) && gone !! Referenced(RefsDropped(t, hash))
    ensures Safe(Collected(RefsDropped(Cleared(t, backend, hash, {}), hash), gone)) <==>
            forall k | k in Referenced(RefsDropped(t, hash)) :: !Covers(backend, hash, k)
  {
    var kept := RefsDropped(t, hash);
    FewerRefsAreSafe(t, kept.refs);
    assert RefsDropped(Cleared(t, backend, hash, {}), hash) == Cleared(kept, backend, hash, {});
    ClearingKeepsRows(kept, backend, hash, {});
    ClearingLosesCovered(kept, backend, hash);
    CollectingKeepsFate(Cleared(kept, backend, hash, {}), gone);
  }

  /** Collecting what nothing references neither repairs nor breaks anything. */
  lemma CollectingKeepsFate(t: Tables, keys: set<string>)
    requires KeysPlain(t) && keys !! Referenced(t)
    ensures Safe(Collected(t, keys)) <==> Safe(t)
  {
    var t' := Collected(t, keys);
    assert Referenced(t') == Referenced(t);
    forall k | k in Referenced(t)
      ensures StorageKey(k) in t'.objects <==> StorageKey(k) in t.objects
    {
      if StorageKey(k) in StorageKeys(keys) {
        var g :| g in keys && StorageKey(g) == StorageKey(k);
        StorageKeyInjective(g, k);
      }
    }
  }

  // ---------------------------------------------------------------- reconciling

  const RECONCILE_GRACE := 24 * 3600

  function Trimmed(path: string): string {
    if path != "" && path[|path| - 1] == '/' then Trimmed(path[..|path| - 1]) else path
  }

  function AfterSlash(path: string): string {
    if path == "" || path[|path| - 1] == '/' then "" else AfterSlash(path[..|path| - 1]) + [path[|path| - 1]]
  }

  /** path.Base. */
  function Base(path: string): string {
    if path == "" then "." else if Trimmed(path) == "" then "/" else AfterSlash(Trimmed(path))
  }

  lemma {:induction false} AfterSlashTakesPlain(prefix: string, key: string)
    requires '/' !in key && (prefix == "" || prefix[|prefix| - 1] == '/')
    ensures AfterSlash(prefix + key) == key
  {
    var path := prefix + key;
    if key == "" {
      assert path == prefix;
    } else {
      assert path[..|path| - 1] == prefix + key[..|key| - 1];
      AfterSlashTakesPlain(prefix, key[..|key| - 1]);
    }
  }

  lemma BaseOfStorageKey(key: string)
    requires Plain(key)
    ensures Base(StorageKey(key)) == key
  {
    assert StorageKey(key)[|StorageKey(key)| - 1] == key[|key| - 1] != '/';
    AfterSlashTakesPlain(BLOBS, key);
  }

  /** What a reconcile pass may delete: an unreferenced object below blobs/, a day old or more. */
  predicate Stale(t: Tables, path: string, now: int) {
    path in t.objects && HasPrefix(BLOBS, path) && Base(path) !in Referenced(t)
      && t.objects[path].modified <= now - RECONCILE_GRACE
  }

  function Bases(paths: set<string>): set<string> { set p | p in paths :: Base(p) }

  function Reconciled(t: Tables, paths: set<string>): Tables {
    t.(blobs := t.blobs - Bases(paths), objects := t.objects - paths)
  }

  /** No stale object backs a reference. */
  lemma ReconcilingIsSafe(t: Tables, paths: set<string>, now: int)
    requires Safe(t) && forall p | p in paths :: Stale(t, p, now)
    ensures Safe(Reconciled(t, paths))
  {
    var t' := Reconciled(t, paths);
    assert Referenced(t') == Referenced(t);
    forall k | k in Referenced(t')
      ensures k in t'.blobs && StorageKey(k) in t'.objects
    {
      BaseOfStorageKey(k);
    }
  }

  lemma ReconcileMore(t: Tables, paths: set<string>, p: string)
    ensures Reconciled(Reconciled(t, paths), {p}) == Reconciled(t, paths + {p})
  {
    assert Bases(paths + {p}) == Bases(paths) + Bases({p});
  }

  // ---------------------------------------------------------------- runs

  /** The single steps that uploads, evictions, collections and reconciliations are made of. */
  datatype Change =
    | Upload(key: string, now: int, encrypted: bool)
    | AddRef(hash: string, index: int, key: string, size: int, encrypted: bool)
    | DropRefs(hash: string)
    | DropDangling(jobHashes: set<string>)
    | Collect(key: string)
    | Clear(backend: Backend, hash: string, survivors: set<string>)
    | Reconcile(path: string, now: int)

  /** What the operations make sure of before each. */
  predicate Allowed(t: Tables, change: Change) {
    match change
    case AddRef(_, _, key, _, _) => Plain(key) && StorageKey(key) in t.objects
    case Collect(key) => key !in Referenced(t)
    case Clear(backend, hash, _) => Harmless(backend, hash)
    case Reconcile(path, now) => Stale(t, path, now)
    case _ => true
  }

  function Changed(t: Tables, change: Change): Tables {
    match change
    case Upload(key, now, encrypted) => Uploaded(t, key, now, encrypted)
    case AddRef(hash, index, key, size, encrypted) => Added(t, hash, index, key, size, encrypted)
    case DropRefs(hash) => RefsDropped(t, hash)
    case DropDangling(jobHashes) => DanglingDropped(t, jobHashes)
    case Collect(key) => Collected(t, {key})
    case Clear(backend, hash, survivors) => Cleared(t, backend, hash, survivors)
    case Reconcile(path, _) => Reconciled(t, {path})
  }

  lemma ChangeIsSafe(t: Tables, change: Change)
    requires Safe(t) && Allowed(t, change)
    ensures Safe(Changed(t, change))
  {
    match change
    case Upload(key, now, encrypted) => UploadingIsSafe(t, key, now, encrypted);
    case AddRef(hash, index, key, size, encrypted) => AddingIsSafe(t, hash, index, key, size, encrypted);
    case DropRefs(hash) => FewerRefsAreSafe(t, RefsDropped(t, hash).refs);
    case DropDangling(jobHashes) => FewerRefsAreSafe(t, DanglingDropped(t, jobHashes).refs);
    case Collect(key) => CollectingIsSafe(t, {key});
    case Clear(backend, hash, survivors) => ClearingIsSafe(t, backend, hash, survivors);
    case Reconcile(path, now) => ReconcilingIsSafe(t, {path}, now);
  }

  function After(t: Tables, changes: seq<Change>): Tables {
    if changes == [] then t else Changed(After(t, changes[..|changes| - 1]), changes[|changes| - 1])
  }

  ghost predicate AllAllowed(t: Tables, changes: seq<Change>) {
    forall k | 0 <= k < |changes| :: Allowed(After(t, changes[..k]), changes[k])
  }

  /** An operation leads from t to u by these steps, each made sure of. */
  ghost predicate Traced(t: Tables, changes: seq<Change>, u: Tables) {
    AllAllowed(t, changes) && After(t, changes) == u
  }

  lemma TraceNone(t: Tables)
    ensures Traced(t, [], t)
  {
  }

  lemma TraceMore(t: Tables, changes: seq<Change>, u: Tables, change: Change)
    requires Traced(t, changes, u) && Allowed(u, change)
    ensures Traced(t, changes + [change], Changed(u, change))
  {
    var more := changes + [change];
    assert more[..|changes|] == changes;
    forall k | 0 <= k < |more|
      ensures Allowed(After(t, more[..k]), more[k])
    {
      assert k < |changes| ==> more[..k] == changes[..k];
    }
  }

  lemma JoinFront(a: seq<Change>, b: seq<Change>)
    requires b != []
    ensures a + b[..|b| - 1] + [b[|b| - 1]] == a + b
  {
  }

  lemma {:induction false} TraceJoin(t: Tables, a: seq<Change>, u: Tables, b: seq<Change>, v: Tables)
    requires Traced(t, a, u) && Traced(u, b, v)
    ensures Traced(t, a + b, v)
    decreases |b|
  {
    if b == [] {
      assert a + b == a;
    } else {
      var front := b[..|b| - 1];
      TracePrefix(u, b);
      TraceJoin(t, a, u, front, After(u, front));
      TraceMore(t, a + front, After(u, front), b[|b| - 1]);
      JoinFront(a, b);
    }
  }

  lemma TracePrefix(t: Tables, changes: seq<Change>)
    requires AllAllowed(t, changes) && changes != []
    ensures AllAllowed(t, changes[..|changes| - 1])
              && Allowed(After(t, changes[..|changes| - 1]), changes[|changes| - 1])
  {
    var front := changes[..|changes| - 1];
    forall k | 0 <= k < |front|
      ensures Allowed(After(t, front[..k]), front[k])
    {
      assert front[..k] == changes[..k];
    }
  }

  /** Along such steps every reference keeps its row and its object, also where an operation breaks off. */
  lemma {:induction false} TraceIsSafe(t: Tables, changes: seq<Change>)
    requires Safe(t) && AllAllowed(t, changes)
    ensures Safe(After(t, changes))
    ensures forall k | 0 <= k < |changes| :: Safe(After(t, changes[..k]))
  {
    if changes != [] {
      var front := changes[..|changes| - 1];
      TracePrefix(t, changes);
      TraceIsSafe(t, front);
      ChangeIsSafe(After(t, front), changes[|changes| - 1]);
      forall k | 0 <= k < |changes|
        ensures Safe(After(t, changes[..k]))
      {
        assert k < |front| ==> changes[..k] == front[..k];
      }
    }
  }

  /**
   The operations one after another: each leads on by steps it has made sure of, as Put, Evict,
   RunGC, RunReconcile and DropDanglingRefs do.
   */
  ghost predicate OperationRun(states: seq<Tables>, traces: seq<seq<Change>>) {
    && |states| == |traces| + 1 && states[0] == Tables(map[], map[], map[])
    && forall i | 0 <= i < |traces| :: Traced(states[i], traces[i], states[i + 1])
  }

  /**
   In every state of such a run, and between any two steps of an operation, each reference has its
   row and its object.
   */
  lemma {:induction false} RunIsSafe(states: seq<Tables>, traces: seq<seq<Change>>, i: nat)
    requires OperationRun(states, traces) && i < |states|
    ensures Safe(states[i])
    ensures i < |traces| ==> forall k | 0 <= k <= |traces[i]| :: Safe(After(states[i], traces[i][..k]))
  {
    if i > 0 {
      RunIsSafe(states, traces, i - 1);
      assert Traced(states[i - 1], traces[i - 1], states[i - 1 + 1]);
      TraceIsSafe(states[i - 1], traces[i - 1]);
    }
    if i < |traces| {
      assert Traced(states[i], traces[i], states[i + 1]);
      TraceIsSafe(states[i], traces[i]);
      assert traces[i][..|traces[i]|] == traces[i];
    }
  }
}
