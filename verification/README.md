# Torrin: the download queue, byte readers, cache and ledger, in Dafny

Torrin accepts downloads from accounts, keeps them in a durable queue, fetches
their bytes from debrid links and Usenet, stores them deduplicated and encrypted,
streams ranges of them, evicts them when a node runs full, and keeps a small
wallet. This project models the parts of it where a mistake would be hard to see
in one function, and proves what they promise for every input, every run and
every interleaving.

`dafny verify dfyconfig.toml` verifies everything.

| files | part of the system |
|---|---|
| `Jobs`, `Admission`, `AdmissionProofs`, `AdmissionSafety`, `AdmissionFetches`, `AdmissionBounds`, `AdmissionAnswers`, `AdmissionAlone` | `Admit`, `Readmit`, `PromoteQueued` and `CreateOnce` of any row as concurrent transactions over the jobs table, statement by statement, with workers writing rows in between |
| `Scheduler` | one pass of the queue scheduler, as the only writer |
| `KeyedLock` | the refcounted lock table, under every interleaving |
| `Wallet`, `WalletRuns` | the ledger: one call at a time, and concurrent transactions |
| `RateLimit`, `SlidingWindow` | token buckets in the database and in memory; the attempt limiters |
| `RangeHeader`, `CryptoStream` | HTTP ranges, package arithmetic, and an encrypted range from header to body |
| `ParallelDownload`, `DownloadWorkers` | the chunked download: its loops, and all interleavings of its workers |
| `SegmentReader`, `SegmentFetch`, `SegmentReads` | the Usenet file reader: `ReadAt` against the plain file, the shared fetching under concurrency, and reads over it |
| `BlobStore`, `CacheBudget`, `Eviction` | deduplicated blobs, their three deleters, and the budget pass |
| `Prelude` | options, int64, buffers, text |

Code that computes became functions and lemmas. Code that changes rows, buffers or
fields became classes, arrays and loops proved against those functions. Protocols
became step machines: a state holds every open transaction, goroutine or worker,
one step is one SQL statement, one critical section or one read or write, and a
run is any sequence of steps. SQL reads see committed rows (READ COMMITTED);
advisory and row locks are held to the end of the transaction. Clocks, network and
disk failures, short reads and the order of other goroutines are parameters, so
every lemma holds for all of them.

## What the proofs found

- `CreateOnce` looks at no bound. It inserts whatever it is given, under the user's lock if the row
  is a live one of an account, and never under a hash's lock. The Telegram bot gives it rows that
  are downloading (telegram/internal/bot/bot.go:223-230), and `Create`, which delegates to it, gets
  pending prewarm rows. So a user can pass its cap and a content can be fetched for two rows at once
  (`AdmissionBounds.CreateOnceCanPassTheCap`, `AdmissionBounds.CreateOnceCanFetchTwice`).
  What holds in spite of it: accounts stay unique and nothing deadlocks whatever it inserts, and a user
  keeps to the slots over a run if and only if no such insert commits while they are taken
  (`AdmissionBounds.SlotsHoldExactly`). A content is fetched once at a time over a run if and only if no
  such insert starts a fetch of it while it is taken, and no other transaction starts one over a row that
  was inserted behind its look and is still in flight (`AdmissionFetches.FetchesHoldExactly`,
  `AdmissionBounds.LateAdmitFetchesTwice`). To keep to that, `CreateOnce` would have to look at the content
  under the hash's lock, which whoever has looked holds (`AdmissionFetches.FetchesHold`,
  `AdmissionFetches.HashLockIsCareful`). At its own commit each bound is kept exactly when the row uses no
  slot or finds room and free content (`AdmissionBounds.CreateOnceKeepsBounds`).
- A debit that went through can answer "refused" when it is replayed: the balance
  guard comes before the ref is looked up (`Wallet.DebitReplayCanBeRefused`).
- A move without a guard keeps the books sound exactly when it is a replay or the new
  balance fits an int64 (`Wallet.ApplyKeepsSound`, `Wallet.CreditCanOverflow`).
- The attempt limiters bound half-open windows. A window closed at both ends holds at most
  twice max, and more than max exactly when one let-through attempt lies on its start and
  the one max positions later on its end (`SlidingWindow.ClosedWindowsHoldTwice`); twice max is
  reached for every limit (`SlidingWindow.TwiceMaxIsReached`).
- The two token buckets agree exactly when a full bucket holds a token: the first
  use of a database bucket is always granted (`RateLimit.BucketsAgree`).
- `ParseRange` accepts a suffix range of an empty object and answers (0, -1); for
  every other object accepted ranges lie inside it.
- A header it accepts is one of the grammar of section 14.1.2 of RFC 9110 exactly when both its
  positions are plain digits (`RangeHeader.HonouredIsGrammatical`). A header counts only through the
  numbers of its halves (`RangeHeader.OnlyNumbersCount`), so it also honours a last position that is no
  number, as if it were not there, and plus signs (`RangeHeader.MalformedLastIsHonoured`,
  `RangeHeader.SignedFirstIsHonoured`, `RangeHeader.SignedLengthIsHonoured`).
- Eviction relies on what hashes look like. What `budgetPass` subtracts is what the cache loses
  exactly when the cached case variants of the evicted hash weigh nothing: `evict` folds case, the
  size query does not (`CacheBudget.AccountingIsExactWithoutVariants`). `prepareCreate` lower-cases
  every hash, so there are none (`CacheBudget.NormalizedTablesHaveNoVariants`).
- Deleting a download's directory deletes exactly the blobs its name covers
  (`BlobStore.ClearingLosesCovered`): all of them for the name `blobs`, or, on a file system store, for
  one that cleans to it or to the root. Two callers pass such names on. `prewarm` stores any 40
  characters as a hash (api/internal/handlers/prewarm.go:40-43), 35 slashes and `blobs` among them
  (`Eviction.PrewarmHashCanLoseBlobs`), and the administrator's eviction takes its name from the
  request (`Eviction.Node.AdminEvict`). An eviction that succeeds is safe if and only if no reference
  that remains is to a covered blob (`BlobStore.EvictingLosesCovered`). Hexadecimal hashes cover none
  (`BlobStore.HexIsHarmless`), so a budget pass over a node that caches only those is safe, whatever
  else the table holds (`Eviction.Node.BudgetPass`).
- A `Put` that decided to reuse a stored object is safe exactly if the object is
  still there when the reference is added (`BlobStore.AddingIsSafe`).
- Uploading again for a blob row whose object was lost leaves the row's encryption
  flag as it was, so flag and object agree afterwards exactly when the setting has
  not changed (`BlobStore.FlagsAfterUpload`).
- The statement of `DropBlobRefs` deletes and looks in one snapshot, so it may report
  fewer keys than became unreferenced. The model lets it report any of them, and
  `RunGC` takes the rest.

## Model

| member | source | states |
|---|---|---|
| AdmissionBounds.SlotsHoldExactly | shared/jobs/queue.go:29-251 | over every run of any number of concurrent transactions and worker writes, CreateOnce of any row included, a user keeps to max(1, cap) rows in flight if and only if no CreateOnce of a row in flight commits while the slots are taken |
| AdmissionBounds.AccountsAreUnderLock | shared/jobs/identity.go:77-89 | a real account whose downloads all carry a hash is such a user: CreateOnce holds its lock for whatever it downloads |
| AdmissionFetches.FetchesHoldExactly | shared/jobs/queue_identity.go:27-37 | over every run, whatever CreateOnce inserts, a content never has two non-seed rows in flight if and only if no CreateOnce puts one in flight beside another, and no other transaction publishes one over a row that CreateOnce inserted after that transaction had looked and that is still in flight |
| AdmissionFetches.FetchesHold | shared/jobs/queue_identity.go:27-37 | if every CreateOnce that starts a fetch finds the content free and no open transaction that has looked at it, a content is fetched once at a time in every reachable state, and what a transaction has found free stays free until it ends |
| AdmissionFetches.HashLockIsCareful | shared/jobs/queue_identity.go:25-30 | an insert that found the hash's lock free and the content free would be such a one |
| AdmissionSafety.BehindTheLook | shared/jobs/queue_identity.go:27-37 | in every run, who fetches a content after a transaction has found it free is a row CreateOnce inserted behind the look: the hash lock keeps all others out |
| AdmissionBounds.SlotsAndHashesHold | shared/jobs/queue.go:29-251 | with nothing in flight from CreateOnce: in every reachable state no user has more non-seed rows in flight than max(1, cap), and no two of them share a hash |
| AdmissionBounds.CreateOnceKeepsBounds | shared/jobs/identity.go:71-105 | for every table and every new row there is a run in which CreateOnce inserts it, and its commit keeps the slots, the queue limit and the single fetch exactly when the row uses no slot, or its user has room and its content is free, and is not queued or finds room in the queue |
| AdmissionBounds.CreateOnceCanPassTheCap | telegram/internal/bot/bot.go:223-230 | a run in which a downloading row takes a user past its cap |
| AdmissionBounds.CreateOnceCanFetchTwice | telegram/internal/bot/bot.go:220-230 | a run in which two accounts send one document and both rows are in flight |
| AdmissionBounds.LateAdmitFetchesTwice | shared/jobs/queue.go:59-100 | for any two accounts and any content: a CreateOnce between the check and the commit of an Admit keeps the bound, and the Admit then breaks it |
| AdmissionSafety.UserLockKeepsAccountsUnique | shared/jobs/queue_identity.go:12-23 | at most one live non-seed row per real user and hash across Admit, Readmit and CreateOnce of any row, with inserts that look at committed rows only: the user lock alone keeps it |
| AdmissionSafety.AdmitNeverConflicts | shared/jobs/queue.go:83-97 | so the insert of `Admit` only ever conflicts on the id |
| AdmissionSafety.ReplayFindsLiveRow | shared/jobs/queue.go:45-50 | a replayed submission ends at the row that is live and changes nothing, whatever the queue holds |
| AdmissionBounds.QueueLimitsHold | shared/jobs/queue.go:75-82 | as long as no CreateOnce queues a row in a full queue a user's queue never passes the limit its calls carry, and the first that does takes it past |
| AdmissionBounds.BudgetHolds | shared/jobs/queue.go:64-74 | with every job gated, and CreateOnce adding none that holds budget, the budget used never passes budget - 1 GB + the largest charge |
| AdmissionBounds.UnsizedPromotionFits | shared/jobs/queue.go:236-241 | under the same condition promoting a job of unknown size never takes the sum past the budget |
| AdmissionSafety.AdmissionNeverOvertakes | shared/jobs/queue.go:63-82 | a job becomes pending at once only when, at its commit, its user has nothing else queued and, if gated, no other gated job of anyone is queued, as long as CreateOnce queues nothing behind the locks |
| AdmissionSafety.PromotionsAreFirst | shared/jobs/queue.go:221-235 | every committed promotion was, when its order was looked at, first by priority, age and id among its user's queued jobs whose content nobody was fetching; at commit its content is unclaimed, except by rows that CreateOnce inserted since the promotion looked |
| AdmissionSafety.CheckOlderFindsFirst | shared/jobs/queue.go:221-229 | the order statement passes only for the first unblocked job of the user |
| AdmissionSafety.WantedOutranksHeld | shared/jobs/queue.go:259-267 | what a transaction waits for outranks every lock it holds |
| AdmissionSafety.WaitForIsAcyclic | shared/jobs/queue.go:204-209 | no cycle of transactions waiting for each other's locks is reachable |
| AdmissionSafety.NeverStuck | shared/jobs/identity.go:87-105 | while a transaction of any of the four kinds is open, CreateOnce of any row included, one of them can run its next statement |
| AdmissionSafety.StatementsProgress | shared/jobs/queue.go:29-251 | and every statement brings its transaction nearer its end |
| AdmissionSafety.RunsCanFinish | shared/jobs/queue.go:29-251 | from every reachable state all open transactions can be brought to their end |
| AdmissionSafety.RunKeepsInv | shared/jobs/queue.go:29-251 | the rely/guarantee invariant holds in every reachable state: rows keep their identity and accounts stay unique, and each count a transaction has read still bounds the committed rows, as far as CreateOnce takes the lock that protects it |
| AdmissionProofs.FactsSurvive | shared/jobs/queue.go:276-299 | a change that is quiet for the locks a transaction holds leaves all the facts it has read true |
| AdmissionProofs.CommitIsQuiet | shared/jobs/queue_identity.go:27-37 | a commit of one transaction leaves alone whatever the locks of another protect: its account's live rows always, its content unless CreateOnce starts fetching it, and the slots, queue, gated queue and budget it has read as far as CreateOnce takes their lock |
| AdmissionProofs.StatementKeeps | shared/jobs/queue.go:109-184 | every statement before the commit keeps its transaction's invariant |
| AdmissionProofs.CommitKeepsSlots | shared/jobs/queue.go:55-63 | a commit keeps its user within the slots, if CreateOnce takes a slot only where one is free |
| AdmissionProofs.CommitKeepsFetch | shared/jobs/queue_identity.go:32-37 | a commit, of any of the four kinds, makes a second fetch of a content exactly when it publishes a row in flight of taken content; unless it is CreateOnce it had found that content free |
| AdmissionProofs.CommitKeepsAccounts | shared/jobs/identity.go:31-52 | a commit, of CreateOnce with any row too, never makes a second live row of one account and hash |
| AdmissionProofs.CommitKeepsBudget | shared/jobs/queue.go:294-299 | a commit keeps the budget bound, if CreateOnce adds nothing to it |
| AdmissionAnswers.DecisionIsExact | shared/jobs/queue.go:50-82 | left undisturbed while it reads, an Admit or a Readmit makes its job pending exactly when its user has nothing else queued and fewer than max(1, maxConcurrent) rows in flight, nobody fetches the content, and, if gated, no other gated row waits and 1_000_000_000 bytes are left; it answers that the queue is full exactly when that fails and there is a limit and it is reached; else it queues the job |
| AdmissionAnswers.LookupAnswers | shared/jobs/queue_identity.go:12-23 | a download of an account ends at the lookup exactly if another live row of the account has the content, and with that row |
| AdmissionAnswers.RowLockAnswers | shared/jobs/queue.go:122-130 | Readmit goes on with failed, evicted and complete rows, PromoteQueued with queued ones; else they answer with what is there |
| AdmissionAnswers.ReadsGoOn | shared/jobs/queue.go:50-74 | taking locks and counting never ends an admission |
| AdmissionAnswers.InsertAnswers | shared/jobs/identity.go:31-52 | an insert ends at its own id, or at the live row of its account and content, and at nothing else |
| AdmissionAnswers.CommitPublishes | shared/jobs/queue.go:83-107 | in every run a commit writes one row: the new one with its status, the readmitted one started over, the promoted one pending and without a node; and the answer tells its status |
| AdmissionAlone.PromoteTransactionAgrees | shared/jobs/queue.go:210-251 | left undisturbed, the promotion transaction passes exactly when the scheduler's method promotes: with room for its user, nobody before it whose content is free, its own content free and, if gated, 5_000_000_000 bytes left |
| AdmissionAlone.QueueEditsAreWorkerWrites | shared/jobs/queue_state.go:7-17 | the scheduler's conditional updates are among the writes every admission transaction tolerates |
| Jobs.PreparedHashIsNormalized | shared/jobs/identity.go:17-18 | whatever a caller passes, the hash of a new row is what stood between the spaces, without upper-case letters; every call of the admission runs goes through it |
| Prelude.CaseVariantsMeet | shared/jobs/identity.go:17-18 | two hashes meet in lower case exactly when they differ in the case of letters at most |
| Jobs.ExactTwinsAreAllTwins | shared/jobs/identity.go:17-29 | with the normal form given to hashes at creation, the case-sensitive test of `PromoteQueued` sees the same rows as the folding one |
| Jobs.BeforeInFields | shared/jobs/postgres.go:170-172 | a row goes before another with a higher priority, or with the same and an earlier creation, or with both the same and the id that is smaller at its first difference |
| Jobs.BeforeIsTotalOrder | shared/jobs/postgres.go:170-172 | that orders the queue totally |
| Jobs.UsedAfterWrite | shared/jobs/postgres.go:260-266 | writing one row moves the budget sum by the difference of its contributions |
| Jobs.UsedCountsSizes | shared/jobs/postgres.go:260-266 | the sum counts the size of each row from pending to seeding, and 5_000_000_000 for an unknown size |
| Scheduler.Queue.ListQueued | shared/jobs/postgres.go:170-172 | lists exactly the queued rows: by falling priority, then rising creation, then rising id |
| Scheduler.Queue.BudgetUsed | shared/jobs/postgres.go:260-266 | the sum over the rows that hold budget, unsized ones at 5 GB |
| Scheduler.Queue.SetQueuedPriority | shared/jobs/queue_state.go:7-11 | changes a priority only of a queued row, and says whether it did |
| Scheduler.Queue.FailQueued | shared/jobs/queue_state.go:13-17 | fails a row only while it is queued |
| Scheduler.Queue.PromoteQueued | shared/jobs/queue.go:188-251 | makes the row pending exactly when fewer than max(1, maxConcurrent) rows of its user are in flight, no queued row of its user with free content has a higher priority, or the same and is older, its content is free and the budget leaves 5 GB |
| Scheduler.Queue.RefreshPriorities | api/cmd/workers.go:88-104 | queued rows get their owners' priorities, everything else stays |
| Scheduler.Queue.Drain | api/cmd/workers.go:53-84 | a pass is work-conserving: afterwards each eligible user is at capacity, or has only jobs waiting for content being fetched, unless the budget is short; it leaves nobody with free content in the queue behind whom it promoted, fills nobody past the cap, fetches no hash twice, fails exactly what an eligible owner's plan no longer covers, and changes nothing else |
| Scheduler.RefusalSettles | shared/jobs/queue.go:217-235 | a refused candidate has no room or no free content, if every earlier one of its owner is settled |
| Scheduler.CandidateLeavesQueue | api/cmd/workers.go:64-83 | settled candidates stay settled when a later one leaves the queue |
| Scheduler.PassSaturates | api/cmd/workers.go:64-83 | when all candidates are settled, so are all eligible users |
| Scheduler.PromotionIsSound | shared/jobs/queue.go:217-241 | a promotion stays within the cap and claims free content |
| KeyedLock.KeysAreExclusive | shared/keyed/locker.go:17-37 | in every interleaving at most one caller holds a key, each ref counts exactly its callers, and every counted ref is the one in the table |
| KeyedLock.TableDrains | shared/keyed/locker.go:27-36 | when nobody counts on a ref any more the table is empty |
| KeyedLock.WaitersAreServed | shared/keyed/locker.go:17-37 | a waiting caller can take the key, or its holder can release it |
| KeyedLock.KeysAreIndependent | shared/keyed/locker.go:17-37 | a key nobody holds can be taken whatever other keys are held, and no other step is ever blocked |
| Wallet.ApplyKeepsSound | shared/auth/wallet.go:37-68 | a call of any int64 amount keeps "balance = sum of deltas, never negative, running balances, unique refs" exactly when it is guarded, replayed, or the new balance fits an int64 |
| Wallet.CreditCanOverflow | shared/auth/wallet.go:28-31 | a credit past the largest int64 leaves a negative balance |
| Wallet.ReplayChangesNothing | shared/auth/wallet.go:51-63 | a recorded ref moves no money and changes no plan |
| Wallet.DebitReplayCanBeRefused | shared/auth/wallet.go:51-63 | a recorded debit can be refused on replay |
| Wallet.DebitTakesOnce | shared/auth/wallet.go:33-68 | a debit is refused exactly when the money is not there, and takes it once |
| Wallet.PurchaseIsAtomic | shared/auth/wallet.go:70-111 | a purchase sets the plan exactly when it adds its ledger row |
| Wallet.PurchaseTakesOnce | shared/auth/wallet.go:70-111 | a purchase goes through exactly if the price is there and the ref is new; then it takes the price, appends one entry and sets the plan |
| Wallet.Store.Move | shared/auth/wallet.go:37-68 | the statements of one transaction, against the specification |
| Wallet.Store.Credit | shared/auth/wallet.go:28-31 | a new ref raises the balance by the amount and appends its entry, a recorded one changes nothing, nobody else's balance moves, and the books stay sound exactly when it is a replay or the sum fits |
| Wallet.Store.Debit | shared/auth/wallet.go:33-35 | takes the money exactly when it is there, once per ref |
| Wallet.Store.BuyPlan | shared/auth/wallet.go:70-111 | charge, ledger row and plan together |
| WalletRuns.RunIsSerial | shared/auth/wallet.go:37-111 | every concurrent run, of moves of any int64 amount from any books, gives the answers and the tables of the same calls one after another, in the order they ended |
| WalletRuns.CallCompletes | shared/auth/wallet.go:37-111 | the converse: with no transaction open, any call can be made next and leaves the books and the answer of the undisturbed call, so every serial run is a run |
| WalletRuns.BooksStaySound | shared/auth/wallet.go:37-111 | each balance is the sum of its deltas and not negative, running balances agree and refs are unique in every state up to the first unguarded move whose balance fits no int64, and no longer after it |
| WalletRuns.StepIsSerial | shared/auth/wallet.go:37-68 | a commit, and a refusal, do what the whole call would do at that moment |
| WalletRuns.NeverStuck | shared/auth/wallet.go:37-68 | some open transaction can always move |
| WalletRuns.RunsCanFinish | shared/auth/wallet.go:37-111 | from every reachable state all open transactions can be brought to their end |
| RateLimit.BucketsAgree | shared/providers/ratelimit.go:90-103 | the lazy database bucket and the eager one in memory grant the same attempts, exactly when max >= 1 |
| RateLimit.MemWindowBound | shared/providers/realdebrid_api.go:163-184 | attempts spread over a time T get at most max + rate * T tokens |
| RateLimit.DbWindowBound | shared/providers/ratelimit.go:90-103 | so do those of the shared database bucket |
| RateLimit.BurstIsGranted | shared/providers/realdebrid_api.go:163-184 | a full bucket grants a burst of max |
| RateLimit.GrantedWhenRefilled | shared/providers/realdebrid_api.go:163-184 | an attempt is granted exactly once the missing part of a token, divided by the rate, has elapsed, and the level after it is as much as has flowed in, up to max, less the token |
| RateLimit.DbBucket.Take | shared/providers/ratelimit.go:90-103 | the insert or conditional update of the row |
| RateLimit.MemBucket.Attempt | shared/providers/realdebrid_api.go:165-177 | one turn of the loop |
| RateLimit.MemBucket.Wait | shared/providers/realdebrid_api.go:163-184 | returns at the first turn that is granted |
| SlidingWindow.Compact | api/internal/handlers/login.go:29-45 | the in-place filter keeps exactly the hits after the cutoff, in order |
| SlidingWindow.WindowsHold | api/internal/handlers/reseller.go:57-73 | with a clock that never goes back, no window of the configured length holds more than max let-through attempts of one key |
| SlidingWindow.DecisionIsExact | api/internal/handlers/reseller.go:57-73 | an attempt is let through exactly when fewer than max let-through stamps of its key are later than its time less the window, however much was compacted away; then it is one of them, and no other key changes |
| SlidingWindow.ClosedWindowsHoldTwice | api/internal/handlers/login.go:33-36 | over every run a window closed at both ends holds at most twice max, and more than max exactly when its first attempt lies on its start and the one max positions later on its end |
| SlidingWindow.TwiceMaxIsReached | api/internal/handlers/login.go:33-42 | for every limit and window a run that reaches twice max |
| SlidingWindow.AttemptLimiter.Allow | api/internal/handlers/reseller.go:57-73 | decision and table of one call |
| RangeHeader.AcceptedRangesFit | shared/storage/fsutil.go:27-64 | every accepted range satisfies 0 <= start <= end < total, exactly when the object is not empty |
| RangeHeader.EmptyObjectTakesSuffixes | shared/storage/fsutil.go:40-49 | for an empty object only a suffix range is accepted, and it is (0, -1) |
| RangeHeader.DigitsAreHonoured | shared/storage/fsutil.go:50-63 | for all digit strings, leading zeros and sizes past int64 included, first-last is what its numbers say |
| RangeHeader.HonouredIsGrammatical | shared/storage/fsutil.go:27-64 | an accepted header is an int-range or a suffix-range exactly when there are only digits on both sides of its first dash |
| RangeHeader.OnlyNumbersCount | shared/storage/fsutil.go:40-63 | headers whose halves parse to the same numbers, or to none, name the same range: a malformed last position acts as a missing one, and plus signs and leading zeros change nothing |
| RangeHeader.MalformedLastIsHonoured | shared/storage/fsutil.go:54-63 | for every first position in the object: honoured, and not of the grammar |
| RangeHeader.SignedFirstIsHonoured | shared/storage/fsutil.go:50-63 | a signed first position is honoured, and not of the grammar |
| RangeHeader.SignedLengthIsHonoured | shared/storage/fsutil.go:40-49 | a signed suffix length is honoured, and not of the grammar |
| RangeHeader.NegativesAreRefused | shared/storage/fsutil.go:40-63 | a negative last position or length is refused |
| RangeHeader.OneRangeOnly | shared/storage/fsutil.go:27-39 | other units, lists of ranges and headers without a dash are refused |
| RangeHeader.BoundedRange | shared/storage/fsutil.go:50-63 | first-last in decimal is clipped to the object, and refused past its end or when inverted |
| RangeHeader.OpenRange | shared/storage/fsutil.go:50-63 | first- reaches to the end |
| RangeHeader.SuffixRange | shared/storage/fsutil.go:40-49 | -n means the last n bytes, or all |
| RangeHeader.LimitedFile.Read | shared/storage/fsutil.go:66-81 | hands out a prefix of what is left, and reports the end exactly when nothing is left |
| RangeHeader.LimitedFile.ReadAll | shared/storage/fsutil.go:66-81 | in whatever pieces the file comes, reading to the end gives exactly the limited part |
| CryptoStream.SizesInvert | shared/crypto/stream.go:48-56 | the encrypted and the plain size determine each other |
| CryptoStream.SizesInNumbers | shared/crypto/stream.go:48-51 | 32 bytes more for each package of 65536 that is begun, up to 2^48 |
| CryptoStream.PlanExists | shared/crypto/stream.go:66-87 | a plan exists exactly for a non-empty range of the object that ends within 2^48 |
| CryptoStream.PlanInNumbers | shared/crypto/stream.go:66-87 | it goes from the package of the first byte to the end of the last byte's package or of the object, in packages of 65536 bytes, 65568 when sealed |
| CryptoStream.PlannedRangeDecrypts | shared/crypto/stream.go:66-101 | the planned packages exist, their sequence number is not truncated, and decrypting them, skipping and cutting gives exactly plain[start..end) |
| CryptoStream.DropPackages | shared/crypto/stream.go:66-87 | dropping k packages drops 64 KiB of plaintext each and moves the sequence number by k |
| CryptoStream.DecryptPrefix | shared/crypto/stream.go:89-101 | a run of packages cut at a boundary decrypts to that much plaintext |
| CryptoStream.DecryptRangeLoop | shared/crypto/stream.go:89-101 | the loop, package by package, computes what the plan means |
| CryptoStream.FetchSealed | shared/storage/backend.go:59-72 | the planned range, sent on as a header of its own, comes back as those bytes |
| CryptoStream.ServeRange | stream/internal/server/encrypted.go:64-99 | from header to body: without a header the whole plaintext, 416 exactly for a refused header or an empty object, otherwise exactly the requested plaintext |
| ParallelDownload.SplitChunks | shared/providers/parallel.go:112-129 | for every total and number of connections the chunks follow one another from 0 to the total: one per connection, of total / connections bytes and the last of the rest, or a single one if there are fewer bytes than connections |
| ParallelDownload.TilesPartition | shared/providers/parallel.go:112-129 | such chunks are disjoint, and every byte below the total lies in one |
| ParallelDownload.CopyChunkAt | shared/providers/parallel.go:190-219 | writes at its place, and counts, all of the body that its pieces bring |
| ParallelDownload.FetchChunk | shared/providers/parallel.go:145-188 | whatever the server sends in six requests, as much is counted as they deliver together, up to the chunk; what was counted holds the source, nothing else changed, and it succeeds exactly if that is the whole chunk |
| DownloadWorkers.NilMeansComplete | shared/providers/parallel.go:112-143 | in every interleaving, if all workers return nil the file is the source and the counter its length |
| DownloadWorkers.DownloadCanSucceed | shared/providers/parallel.go:112-188 | whatever has failed so far, while every worker is done or at the top of its loop with an attempt left, the run can go on until the file is the source |
| DownloadWorkers.ProgressIsHonest | shared/providers/parallel.go:190-219 | at every moment the counter is the sum of what the workers have written and counted, and within the total |
| DownloadWorkers.AttemptsAreBounded | shared/providers/parallel.go:145-188 | no worker makes a seventh request |
| DownloadWorkers.GivesUpForCause | shared/providers/parallel.go:145-188 | in every interleaving a worker returns an error only after it was cancelled, or after six requests that ended with bytes missing |
| DownloadWorkers.StepKeepsOthers | shared/providers/parallel.go:190-219 | no step of one worker disturbs what another has written |
| DownloadWorkers.EnabledStepsHappen | shared/providers/parallel.go:145-188 | every step the machine offers in a reachable state is defined |
| SegmentReader.LayOut | shared/usenet/reader.go:56-87 | a file is accepted exactly when it has segments, each with a size and an id, and the sum fits an int64; then the segments are those of the file sorted by number, end to end |
| SegmentReader.SortIsStable | shared/usenet/reader.go:63-64 | segments of equal number keep their order |
| SegmentReader.SortAscends | shared/usenet/reader.go:63-64 | the sorted segments ascend by number |
| SegmentReader.SortKeepsMembers | shared/usenet/reader.go:63-64 | sorting neither loses nor invents a segment |
| SegmentReader.PlainFileHolds | shared/usenet/reader.go:198-215 | the plain file has the announced size and holds each good article at its segment's place |
| SegmentReader.PostIsPlain | shared/usenet/reader.go:198-215 | whatever content is cut into the laid-out stretches and posted, with the place of each named or not, is the plain file |
| SegmentReader.GoodInFields | shared/usenet/reader.go:207-213 | an article is accepted exactly if it is there, of the announced length, and names no other place than its segment's |
| SegmentReader.StoreKeeps | shared/usenet/reader.go:185-196 | storing keeps the window at 32 entries or fewer, its order free of duplicates and equal to its keys, and drops only the oldest, only when full |
| SegmentReader.Reader.Store | shared/usenet/reader.go:185-196 | the eviction loop computes that window |
| SegmentReader.Reader.FirstPast | shared/usenet/reader.go:102 | the binary search finds the first segment that ends past the offset |
| SegmentReader.Reader.Prefetch | shared/usenet/reader.go:132-149 | starts exactly the segments of the window that are neither in memory nor on their way |
| SegmentReader.Reader.Get | shared/usenet/reader.go:153-182 | gives the decoded segment, or nothing exactly when it is not in memory and cannot be had |
| SegmentReader.Reader.ReadAt | shared/usenet/reader.go:91-128 | fills exactly min(len(p), size - off) bytes with the plain file from off on and answers EOF exactly when short, whatever is in memory, dropped or stored by others meanwhile; of a post of any content it delivers that content, and only a failing request ends it; a wanted segment with a missing article, or one of another length or place, ends it there or before, with the bytes before that delivered; and it warms exactly the wanted segments and the 16 after them |
| SegmentFetch.OneFetchPerSegment | shared/usenet/reader.go:153-182 | in every interleaving at most one goroutine fetches a segment, and never one that is in memory |
| SegmentFetch.FetchesAreBounded | shared/usenet/reader.go:168-170 | never more than eight fetches at once |
| SegmentFetch.WindowIsSound | shared/usenet/reader.go:185-196 | the order is duplicate-free, equal to the keys of the cache, at most 32 long, and every entry is the decoded segment |
| SegmentFetch.ReturnsAreShared | shared/usenet/reader.go:159-163 | every waiter returns what its owner returned, and that is the decoded segment or an error |
| SegmentFetch.FailureHasCause | shared/usenet/reader.go:168-182 | every error a caller gets goes back to a request that failed, or to an article that is missing, of another length or of another place |
| SegmentFetch.SettlingStores | shared/usenet/reader.go:172-182 | what was fetched is in memory when the segment is given free, and a failure changes nothing there |
| SegmentFetch.NeverStuck | shared/usenet/reader.go:164-181 | while a goroutine has not returned, one of them can take a step |
| SegmentFetch.StepsProgress | shared/usenet/reader.go:153-182 | every step brings its goroutine nearer its return |
| SegmentReads.ReadsServeFile | shared/usenet/reader.go:108-128 | a read whose lookups are goroutines of any such run, shared with prefetch and other readers, has at every turn of its loop exactly the plain file, and so the posted content, in its buffer up to the end of the last segment, and ends with all it wants |
| BlobStore.AddingIsSafe | shared/jobs/blobs.go:21-39 | adding a reference keeps every reference backed exactly when the object is there |
| BlobStore.FlagsAfterUpload | shared/blobstore/blobstore.go:51-61 | row and object agree on encryption after an upload exactly when an existing row was written under the same setting |
| BlobStore.CollectingIsSafe | shared/eviction/eviction.go:215-228 | deleting objects and rows is safe exactly when none of them is referenced |
| BlobStore.OrphansAfterCollecting | shared/jobs/blobs.go:93-111 | collecting takes exactly the collected keys off the unreferenced rows |
| BlobStore.FewerRefsAreSafe | shared/jobs/blobs.go:41-70 | dropping references makes nothing referenced that was not |
| BlobStore.CleanElement | shared/storage/backend.go:35-38 | cleaning a path: empty elements and dots stay, two dots go up and stop at the root, names go down |
| BlobStore.ReachesBlobs | shared/storage/backend.go:35-38 | for every name, cleaned paths included: the directory of a download reaches a blob exactly if the name covers it |
| BlobStore.ClearingLosesCovered | shared/storage/backend.go:143-145 | deleting a directory loses exactly the covered blobs, and keeps every reference backed if and only if none of them is referenced |
| BlobStore.ClearingIsSafe | shared/eviction/eviction.go:199-202 | clearing a download's directory, wholly or in part, keeps every reference backed if its name is harmless |
| BlobStore.HexIsHarmless | shared/magnet/magnet.go:9-31 | every hash of hexadecimal digits is a harmless name on both kinds of store |
| BlobStore.HarmfulNamesLoseBlobs | shared/storage/backend.go:35-38 | with the name of the blobs' directory, or one that cleans to the root, all referenced blobs are lost |
| BlobStore.EvictingLosesCovered | shared/eviction/eviction.go:192-228 | a whole eviction keeps every remaining reference backed if and only if its name covers none of their blobs |
| Eviction.PrewarmHashCanLoseBlobs | api/internal/handlers/prewarm.go:40-43 | a hash of 40 characters that creation leaves as it is, and whose directory holds every blob of a file system store |
| BlobStore.BaseOfStorageKey | shared/eviction/reconcile.go:25-29 | the base name of a blob's path is its content key |
| BlobStore.ReconcilingIsSafe | shared/eviction/reconcile.go:12-44 | no object that is unreferenced by its base name backs a reference |
| BlobStore.TraceIsSafe | shared/eviction/eviction.go:192-228 | along steps that were made sure of every reference keeps its row and its object, also between two steps |
| BlobStore.RunIsSafe | shared/blobstore/blobstore.go:40-62 | in every state reachable through operations that lead on by such steps, as Put, Evict, RunGC, RunReconcile and DropDanglingRefs are proved to, and wherever one of them breaks off, each referenced key has its row and its object |
| CacheBudget.NormalizedTablesHaveNoVariants | shared/jobs/identity.go:17-18 | hashes in the normal form of creation have no case variants |
| CacheBudget.EvictionAccounting | shared/jobs/views.go:36-43 | without case variants, evicting a hash takes exactly its largest row off the recomputed total |
| CacheBudget.AccountingIsExactWithoutVariants | shared/eviction/eviction.go:204-211 | in general the subtraction is exact if and only if the cached case variants of the hash weigh nothing; otherwise the pass believes more is left than is |
| CacheBudget.SizesAfterMarking | shared/jobs/views.go:36-43 | evicting takes exactly the case variants of the hash out of the size query and leaves every other group as it was |
| CacheBudget.LargestInFields | shared/jobs/views.go:36-43 | a hash is cached exactly if a complete row on the node has it; its size is that of one of them and bounds them all |
| CacheBudget.ReclaimOrderIsStable | shared/eviction/eviction.go:174-190 | the reclaim order is a stable permutation, by group |
| CacheBudget.ReclaimOrderInFields | shared/eviction/eviction.go:174-190 | first all that are prewarmed and never accessed, then the others of up to 50_000_000_000 bytes, then the larger ones; candidates alike in this keep the query's order, and each is there once |
| CacheBudget.OrderForReclaim | shared/eviction/eviction.go:174-190 | the loop computes that order |
| Eviction.Node.Put | shared/blobstore/blobstore.go:40-62 | only a whole success adds a reference, a stored blob is reused exactly when its row and object are there, every step is made sure of, and if rows and objects agreed on encryption before, the answer tells truly how the object is stored |
| Eviction.Node.AddBlobRef | shared/jobs/blobs.go:21-39 | an existing row stays, an existing reference is pointed elsewhere |
| Eviction.Node.DropBlobRefs | shared/jobs/blobs.go:41-61 | exactly the download's references are gone, and exactly those of the reported keys come back that lost their last one |
| Eviction.Node.DropDanglingRefs | shared/jobs/blobs.go:63-70 | only references of downloads without a job go |
| Eviction.Node.OrphanedBlobs | shared/jobs/blobs.go:93-111 | distinct unreferenced rows, as many as there are up to the limit |
| Eviction.Node.CollectBatch | shared/eviction/eviction.go:102-119 | one batch collects only orphans, and counts them |
| Eviction.Node.RunGC | shared/eviction/eviction.go:99-127 | ends for every pattern of failing store deletions, collects only rows no reference points to, and all of them if nothing fails; if it leaves any, the whole last batch, of up to 500, failed |
| Eviction.Node.PurgeBlobs | shared/eviction/eviction.go:215-228 | does nothing if the references cannot be dropped; otherwise drops them and collects only what nothing references any more |
| Eviction.Node.RunReconcile | shared/eviction/reconcile.go:12-44 | deletes only what lies below blobs/ unreferenced, and nothing that was modified in the last 86400 seconds; and all of that if nothing fails |
| Eviction.Node.Evict | shared/eviction/eviction.go:192-213 | refused while any row of the hash seeds, given up with only its directory touched when that cannot be deleted, otherwise its rows are marked and, unless dropping them failed, its references gone; no remaining reference loses its blob at any step for a harmless or hexadecimal hash, and for any other exactly if none is covered |
| Eviction.Node.AdminEvict | api/internal/handlers/admin_cache.go:23-43 | the same without the seeding check, for whatever name it is given; with the name `blobs` it is safe exactly if no other reference is left |
| Eviction.Node.BudgetPass | shared/eviction/eviction.go:149-172 | goes on exactly while its total is over the cap, ends within it or with every candidate evicted, in its grace period, seeding or failed; tries what was accessed, or not prewarmed, only after every cold prewarmed title, and large files last; over normalized rows, as creation makes them, with the total the query would return; no remaining reference loses its blob if what the node has cached is hexadecimal, or no candidate's name is harmful |
| Eviction.TotalsAgree | shared/eviction/eviction.go:157-171 | for tables without case variants, as normalized ones are: after every candidate the decremented total equals the recomputed one over the rows as they then are |

## Left out

- PostgreSQL, NATS, HTTP, S3 and rclone themselves: tables are maps, a statement is one step, requests and stores answer as parameters say.
- Transaction errors other than "no change", and lost database connections.
- Writers that change rows in flight without a lock: `Requeue`, and the hand-over of a deleted job to "system". Direct inserts are CreateOnce of some row.
- AdmissionBounds.BudgetHolds: the sum is bounded when every job is gated and CreateOnce adds none that holds budget; other jobs are let in whatever they weigh, and without the global lock.
- AdmissionSafety.AdmissionNeverOvertakes: conditional on CreateOnce not queueing rows behind the locks; nobody passes it a queued row.
- AdmissionBounds.SlotsHoldExactly: the cap of a user is the largest any call of the run carries, since a plan may change between calls; owner, hash, seed and gate of a row are fixed once it exists; distinct lock keys do not collide.
- Worker writes are assumed never to put a row in flight, in the queue or back to life.
- Scheduler.Queue.PromoteQueued: the reason of a refusal is part of the model, the program only answers nil; assigning a node and publishing events are not modelled.
- Scheduler.Queue.Drain: plans, bans, expiry and source entitlements are given per user and job.
- Wallet.Store.Credit: a replayed call may leave behind an empty wallet row, which counts as balance zero; history and recurring charges are not modelled.
- RateLimit.MemWindowBound: time, tokens and rate are reals; rounding, the sleep between turns, and limits that fail open on a cancelled context or a database error are not modelled.
- CryptoStream.PlannedRangeDecrypts: sealing and opening a package are abstract, with their sizes and their inverse law; keys, nonces and authentication are not modelled.
- CryptoStream.ServeRange: HEAD requests and content types are not modelled.
- DownloadWorkers.NilMeansComplete: the server answers each request with a prefix of the range asked for; the probe, stall timers and the sequential download that resumes after a cancelled parallel one are not modelled. The file is one flat buffer.
- SegmentReader.Reader.ReadAt: what other goroutines store is interleaved between segments, as a parameter; SegmentReads.ReadsServeFile takes the lookups from the interleavings of SegmentFetch. yEnc decoding is abstract, and an article never changes.
- Eviction.Node.RunGC: the row of a deleted object is deleted too. If row deletions kept failing, each round would count its deletions and find the same rows again without end.
- Eviction.Node.Evict: row updates succeed; for harmful names the outcome is stated when the whole directory is deleted, not for every part of it that may survive.
- Eviction.Node.AdminEvict: the choice of the node's store is left out.
- SlidingWindow.ClosedWindowsHoldTwice: for windows longer than zero, as both limiters have.
- Eviction.Node.BudgetPass: the two queries are its inputs; which candidates the archive rules exclude, and how idle days are counted, is not modelled. The daily time-to-live verdicts are easy and left out.
- Multi-node eviction: references are global and stores are per node, so the blob properties are for one node whose operations follow one another.
- Jobs.PreparedHashIsNormalized: `Lower` folds ASCII letters; hashes are hexadecimal or ASCII text.
- Title parsing, feeds, provider clients, login and MFA, plan prices, rendering.
