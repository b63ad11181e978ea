# Verified models of the knowledge base

A Dafny model of the parts of the repository that hold real protocols, loops and arithmetic,
with proofs of what those parts are for. `dafny verify dfyconfig.toml` checks all of it.

What is modelled, file by file:

- `JobStore`, `JobProtocol`, `UndisturbedJobs`, `JobFencing`: a background job's row and its Redis lock. `JobStore`
  holds the guarded status update, the owner-checked lock, an uninterrupted handler and an
  uninterrupted scan, as methods over a table. `JobProtocol` is the same protocol as a state
  machine whose steps are single statements of any number of workers and timeout scanners,
  with lock expiry, cancellation, failed event inserts and crashes between any two of them.
  `UndisturbedJobs` leads one actor's steps, with nothing in between, to the rows of `JobStore`.
  `JobFencing` says, over all these runs, exactly when a handler's write lands on its own run and
  exactly when a FAILED write counts a stale attempt, and shows by concrete runs that both can
  go wrong; runs in which some statements stay together are a special case.
- `Snapshots`, `IndexPlans`, `IndexRuns`, `IndexContents`, `IndexSources`: index snapshots, the plan of
  one indexing job with vector reuse and batched embedding, whole runs of interleaved jobs over shared
  tables, which chunks an active snapshot has after them, and which earlier snapshot they come from.
- `Communities`, `CommunityTheorems`, `LabelPasses`: label propagation over a graph, its groups and
  their order, and what each pass does to each label. Every set and map is iterated in an arbitrary order.
- `Bits`, `Decimal`, `Strings`, `Ipv4`, `Ipv6`, `Cidr`: address texts, prefix masks with
  JavaScript's signed 32-bit operators, and prefix membership (sections 2.2 and 2.5.5.2 of
  RFC 4291, section 3.1 of RFC 4632).
- `SessionMutex`, `TurnQueue`, `StreamParser`: the promise-chain lock, the single-consumer event
  queue and the routing of process output to turns, each as a class and as a state machine.
- `AuditQueue`: the retrying audit queue.
- `RateLimiter`, `RateLimitGuard`: the sliding-window script on one key, and any number of requests
  that each ask three keys in turn, with the scripts of others in between.
- `LiteralScanner`, `Utf8`, `CacheKeys`, `Keyset`, `ChunkWindows`, `ContextPacker`, `RankFusion`:
  SQL literal blanking, cache keys and their invalidation patterns (section 3 of RFC 3629,
  section 2.1 of RFC 3986), keyset pagination, text windows, budget packing and rank fusion.
- `Options`, `Text`, `Numbers`, `Sorting`: optional values, UTF-16 strings and their order,
  JavaScript numbers in options, and stable sorting.

How the state machines are read: `Apply` is one step and gives no state when the step is not
possible, `Run` is a whole sequence of steps, and a theorem about `Run` from the initial state
holds in every reachable state. Fields named as history (`entries`, `accepted`, `delivered`,
`log`, `tries`, `admitted`, `ops`, `claims`, `changes`) record what happened and influence nothing.
The classes change their fields as the source does; each method's contract equates the new state
with the function the theorems are about.

Assumptions the theorems state or the types build in:

- Every in-flight job handler has its own worker id.
- Content hashes are injective, and embedding is a function of model and text.
- A failed audit insert writes nothing.
- A query returns each matching row once, in some order.
- Generated ids are fresh; ids are compared as ranks where the database compares them as text.
- Redis drops a key once its clock is past the key's time to live.
- A PostgreSQL timestamp read into a JavaScript date keeps whole milliseconds only.
- Scores are real numbers; rounding is not modelled.

Where the code and its words differ, the model follows the code, and where a promise fails the exact
condition under which it holds is proved:

- Label propagation is called synchronous in a comment but overwrites labels within a pass.
- `single_page` indexing copies vectors without comparing models: `IndexPlans.SinglePageIsSoundIff`.
- Recording an index snapshot as failed after its activation was committed:
  `IndexRuns.LateFailureIsHarmlessIff`.
- A space invalidation also hits keys whose space version reads like the space id:
  `CacheKeys.SpacePatternIff`.
- Keyset pagination revisits rows whose time is finer than a millisecond, and can do so without end:
  `Keyset.InOrderIffAligned` and `Keyset.EndsIff`, for each batch size.
- The update of a job's status asks for the status alone, neither for the owner nor for the attempt:
  `JobFencing.WritesLandOnTheOwnRunIff` and `JobFencing.CountIsKeptIff`.
- The rate limiter's time to live starts at the store's clock and its entries count by the caller's:
  `RateLimiter.NothingIsLostIff` and `RateLimiter.PairIsBoundedIff`.
- A timeout scanner deletes a lock by worker id, which may guard a later run of the same worker:
  `JobFencing.ScannersFreeARunningJobIff`.

## Model

| member | source | states |
|---|---|---|
| JobStore.JobTable.Transition | packages/job-core/src/state-machine.ts:29-76 | the update happens exactly when the move is one of the six allowed and the row has the expected status, and sets what it is given and nothing else; each error leaves the table as it was and says why |
| JobStore.JobTable.Acquire | packages/job-core/src/lock.ts:13-20 | only a free lock is taken, and no other lock changes |
| JobStore.JobTable.Renew | packages/job-core/src/lock.ts:22-30 | succeeds exactly for the holder |
| JobStore.JobTable.Release | packages/job-core/src/lock.ts:32-35 | deletes the lock exactly when the caller holds it, and no other |
| JobStore.JobTable.HandleJob | packages/job-core/src/worker-base.ts:62-183 | an undisturbed handler settles a free pending job: pending again exactly after a retryable error with an attempt left, succeeded exactly without an error, else failed; it counts a failed attempt once, touches nothing else, and always gives its lock back |
| JobStore.JobTable.Scan | packages/job-core/src/timeout-scanner.ts:14-100 | an undisturbed scan, in any order, times out every expired row and no other: pending again exactly while attempts remain, else failed; it frees only the recorded owners' locks, and counts the rows |
| JobStore.ExpiresAfterItsTimeout | packages/job-core/src/timeout-scanner.ts:16-25 | a run expires exactly when more seconds have passed since its claim than its own timeout, or 1800 without one |
| UndisturbedJobs.HandlerEndsInHandledRow | packages/job-core/src/worker-base.ts:62-183 | from every state of the protocol with a free lock, a pending row and the worker idle, the handler can take all its steps undisturbed, requeues exactly after a retryable error with an attempt left, and ends in the row HandleJob leaves, the lock free and everybody else where they were |
| UndisturbedJobs.ScannerEndsInTimedOutRow | packages/job-core/src/timeout-scanner.ts:29-87 | from every state with a running row, the scanner can take all its steps undisturbed and ends in the row and the lock that Scan leaves |
| UndisturbedJobs.LocksRefuse | packages/job-core/src/worker-base.ts:62-67 | a handler that does not get or has lost the lock writes nothing more and leaves the lock to its holder |
| UndisturbedJobs.WritesRefuse | packages/job-core/src/state-machine.ts:49-75 | a write that does not find its status leaves the row; the handler then fails its run or gives up |
| UndisturbedJobs.ScansRefuse | packages/job-core/src/timeout-scanner.ts:90-96 | a scanner whose write does not find its status leaves row and lock and goes on |
| JobProtocol.AttemptsStayBounded | packages/job-core/src/worker-base.ts:132-170 | in every reachable state attempts are within the maximum, strictly while pending or running, and at most one actor is between failing and requeueing |
| JobProtocol.SettledIsAbsorbing | packages/job-core/src/state-machine.ts:21-27 | a succeeded or cancelled job, and a failed one nobody is about to requeue, never changes again |
| JobFencing.WritesLandOnTheOwnRunIff | packages/job-core/src/state-machine.ts:49-56 | in every run, whatever comes between the statements, a handler's SUCCEEDED or FAILED write that takes effect lands on the run that handler claimed if and only if the row still records it as the owner, which the update does not ask |
| JobFencing.PairedWritesLandOnTheOwnRun | packages/job-core/src/worker-base.ts:96-147 | so with lock operation and write kept together every such write lands on the writer's own run |
| JobFencing.NoReleaseTakesAnothersLock | packages/job-core/src/lock.ts:7-35 | in every reachable state a release removes only the releaser's lock, or that of the owner whose run a scanner has ended |
| JobFencing.ScannersFreeARunningJobIff | packages/job-core/src/timeout-scanner.ts:85-87 | in every run, the lock a scanner deletes guards a run in progress if and only if that run was claimed under the same worker id as the earlier run the scanner ended |
| JobFencing.ScannersFreeNoRunningJob | packages/job-core/src/timeout-scanner.ts:85-87 | so it guards none when no worker id claims the job twice |
| JobFencing.ReusedIdLosesItsLock | packages/job-core/src/timeout-scanner.ts:85-87 | when a worker id is used again it can: a concrete run |
| JobFencing.StatusChangesAreBounded | packages/job-core/src/timeout-scanner.ts:29-87 | in every run whose FAILED writes find the run they were read from, a fresh job changes status at most three times its maximum minus one |
| JobFencing.CountIsKeptIff | packages/job-core/src/state-machine.ts:49-56 | after any such run, the next step keeps three changes to an attempt if and only if a FAILED write finds the attempt count it was read with |
| JobFencing.PairedRunsAreFresh | packages/job-core/src/timeout-scanner.ts:29-57 | runs that keep lock operations, reads and their writes together are such runs |
| JobFencing.UnpairedCompletionCanHitAnotherRun | packages/job-core/src/state-machine.ts:49-56 | when they are not kept together, a completion can land on another worker's run: a concrete run |
| JobFencing.StaleReadsCanExceedTheBound | packages/job-core/src/timeout-scanner.ts:15-41 | when a scanner acts on a stale read, the bound on status changes fails: a concrete run |
| Snapshots.SnapshotManager.CreateSnapshot | apps/indexer-worker/src/snapshot-manager.ts:16-43 | a new building snapshot leaves every active snapshot as it was |
| Snapshots.SnapshotManager.ActivateSnapshot | apps/indexer-worker/src/snapshot-manager.ts:45-82 | afterwards the space's only activated snapshot is the given one, and other spaces are untouched |
| Snapshots.SnapshotManager.CheckBuildingExists | apps/indexer-worker/src/snapshot-manager.ts:84-122 | busy only for a recent building snapshot; a stale one is recovered as failed |
| Snapshots.MarkFailedKeepsPointersExact | apps/indexer-worker/src/snapshot-manager.ts:124-133 | marking failed is harmless if and only if the snapshot is not the activated one |
| IndexPlans.BuildPreviousChunkMap | apps/indexer-worker/src/indexer-worker.ts:551-563 | the map has a position exactly when some row of the given model is there, and then holds the one that comes last |
| IndexPlans.LastRowWins | apps/indexer-worker/src/indexer-worker.ts:551-563 | the same of the function the plans are built from: the row with the greatest index |
| IndexPlans.PreviousMapIsSound | apps/indexer-worker/src/indexer-worker.ts:551-563 | every cached row has its content's hash and its own model's vector |
| IndexPlans.PlanPagesIsSound | apps/indexer-worker/src/indexer-worker.ts:406-486 | a rebuild reuses only vectors that embedding the content would give |
| IndexPlans.SinglePageIsSoundIff | apps/indexer-worker/src/indexer-worker.ts:421-439 | a single-page job plans only right vectors if and only if every row it copies with a vector was made with the current model, whatever models the rows mix |
| IndexPlans.RebuildReusesIff | apps/indexer-worker/src/indexer-worker.ts:451-466 | a rebuild reuses a vector exactly where the last previous row of the model at that place has the same content and that vector |
| IndexPlans.SinglePageReusesIff | apps/indexer-worker/src/indexer-worker.ts:421-466 | a single-page job reuses so on its page, and on other pages copies the previous row's vector, if any |
| IndexPlans.EmbedBatches | apps/indexer-worker/src/indexer-worker.ts:488-537 | batched embedding gives each waiting chunk its vector, in order, or fails as a whole; it fails only if the provider fails or miscounts some batch |
| IndexPlans.EmbedAndInsert | apps/indexer-worker/src/indexer-worker.ts:488-537 | reused and fresh rows together, or nothing |
| IndexPlans.OneVectorEach | apps/indexer-worker/src/indexer-worker.ts:488-537 | each planned chunk gets exactly one vector, equal to embedding its content; no other chunk gets any |
| IndexPlans.RowsNameTheModel | apps/indexer-worker/src/indexer-worker.ts:488-537 | every row a job inserts names the job's model |
| IndexPlans.ReuseAgreesWithRecompute | apps/indexer-worker/src/indexer-worker.ts:441-486 | indexing with any sound cache stores, chunk by chunk, what indexing from scratch stores |
| IndexPlans.RebuildCoversThePages | apps/indexer-worker/src/indexer-worker.ts:406-419 | a rebuild covers every piece of every page once, in order |
| IndexPlans.SinglePageCovers | apps/indexer-worker/src/indexer-worker.ts:421-439 | a single-page job covers the other pages' previous pieces and the page's new ones |
| IndexRuns.ActiveSnapshotsAreExact | apps/indexer-worker/src/indexer-worker.ts:94-175 | after any interleaving of indexing jobs, failures, crashes and recoveries, a space's active snapshot is its only activated one and each of its chunks has exactly one vector, the recomputed one |
| IndexRuns.JobsCanLoad | apps/indexer-worker/src/indexer-worker.ts:114-119 | in every state a job that has started can look for the active snapshot and load its chunks, in some order |
| IndexRuns.JobsCanFinish | apps/indexer-worker/src/indexer-worker.ts:130-155 | and then create a new building snapshot, fill it and activate it, which makes it the active one |
| IndexRuns.FailuresMarkOneSnapshot | apps/indexer-worker/src/indexer-worker.ts:166-174 | a handled error fails the job's own snapshot and a recovery a building one, and no other changes |
| IndexContents.ActivatedHasTheTasksPieces | apps/indexer-worker/src/indexer-worker.ts:138-155 | in every run, the snapshot a job is about to activate has exactly the pieces of that job's own task: all pages, or the loaded pieces of the other pages and the target's new ones |
| IndexContents.ActiveSnapshotHasThePieces | apps/indexer-worker/src/indexer-worker.ts:94-175 | after any run, a space's active snapshot has exactly the pieces of the job that filled it for that space, each once and in order, and no other chunk; where the loaded pieces come from is said by IndexSources |
| IndexSources.SeenWhenItLooked | apps/indexer-worker/src/indexer-worker.ts:117 | what is recorded of a job is what its space pointed to at the job's last look |
| IndexSources.LoadedRowsAreTheSeenChunks | apps/indexer-worker/src/indexer-worker.ts:117-119 | in every run, the rows a job plans from are exactly the chunks of the snapshot that was active for its space when it looked, each once and with its stored vector; there are none if none was active |
| IndexSources.RebuildActivatesItsPages | apps/indexer-worker/src/indexer-worker.ts:406-419 | in every run, after a rebuild's activation the active snapshot has each piece of its pages as often as they have it, and no other piece |
| IndexSources.SinglePageKeepsTheOthers | apps/indexer-worker/src/indexer-worker.ts:421-439 | in every run, after a single-page job's activation the active snapshot has the pieces of that page and, of every other page, each piece exactly as often as the snapshot that was active when the job looked, in the tables as they are then |
| IndexSources.ActivePieces | apps/indexer-worker/src/indexer-worker.ts:94-175 | the same of the active snapshot of every space after any run, whatever has happened since |
| IndexRuns.LateFailureIsHarmlessIff | apps/indexer-worker/src/indexer-worker.ts:154-174 | in every reachable state, recording a snapshot as failed after its activation was committed keeps all pointers exact if and only if a later activation has superseded it |
| IndexRuns.UnseenCommitBreaksThePointer | apps/indexer-worker/src/indexer-worker.ts:154-174 | so an activation that commits and is reported as an error always leaves the space pointing to a failed snapshot |
| Communities.BuildAdjacency | packages/graph-core/src/communities.ts:36-52 | two distinct known nodes are neighbors exactly when some edge joins them, in either direction |
| Communities.BestLabel | packages/graph-core/src/communities.ts:55-74 | the label with most votes, the smallest among equals, in every iteration order |
| Communities.PropagateLabels | packages/graph-core/src/communities.ts:77-107 | stopping at the first pass without a change gives the labels of all twenty passes; what these do to each label is said by LabelPasses |
| Communities.GroupsByIs | packages/graph-core/src/communities.ts:115-124 | each group is, in order, exactly the nodes with its label |
| Communities.PickRepresentative | packages/graph-core/src/communities.ts:143-151 | a member of highest degree, the smallest of these |
| Communities.DetectByPropagation | packages/graph-core/src/communities.ts:109-161 | the result presents the classes of the final labels, largest first, with their keys, titles and counts |
| CommunityTheorems.OrderIndependence | packages/graph-core/src/communities.ts:109-161 | one result for every permutation of nodes and edges and every iteration order |
| CommunityTheorems.LabelsStayInTheirComponent | packages/graph-core/src/communities.ts:77-107 | after any number of passes a node's label is the id of a node connected to it |
| CommunityTheorems.CommunitiesAreLabelClasses | packages/graph-core/src/communities.ts:115-140 | every node is assigned, and two share a community exactly when their final labels agree |
| CommunityTheorems.CommunitiesAreConnected | packages/graph-core/src/communities.ts:36-107 | no community spans two components |
| CommunityTheorems.IsolatedNodesAreSingletons | packages/graph-core/src/communities.ts:86-99 | a node without edges is alone in its community |
| CommunityTheorems.CountsAddUp | packages/graph-core/src/communities.ts:136-157 | the counts of all communities add up to the number of nodes |
| CommunityTheorems.CountsMatchAssignments | packages/graph-core/src/communities.ts:127-157 | a community's count is the number of nodes assigned its key, and counts never increase |
| LabelPasses.BestIff | packages/graph-core/src/communities.ts:55-74 | the best label is one that most labelled neighbors have, the smallest of these; it is empty exactly when no neighbor is labelled or that label is |
| LabelPasses.PassIff | packages/graph-core/src/communities.ts:87-100 | a pass over the sorted ids gives every node with neighbors the best label among them, reading new labels of smaller ids and old labels of the others, and keeps all others; and no other labels do |
| LabelPasses.FinalLabelsArePropagated | packages/graph-core/src/communities.ts:77-107 | the final labels come from the nodes' own ids by such passes, each but the last changing some label; there are twenty, or fewer if the last changed none, and then every node with neighbors has the best label among them |
| LabelPasses.ChangesNothingIff | packages/graph-core/src/communities.ts:93-104 | a pass changes nothing exactly when every node with neighbors already has the best label among them |
| LabelPasses.SettledIsBest | packages/graph-core/src/communities.ts:93-98 | so without empty ids such a node's final label is the best one outright |
| LabelPasses.PairsShareACommunity | packages/graph-core/src/communities.ts:77-161 | two nodes joined to each other and to no other node always share a community |
| LabelPasses.TitlesAreOfRepresentatives | packages/graph-core/src/communities.ts:142-157 | a community's title is that of its member with most neighbors, the smallest of these |
| LabelPasses.TiesBySmallestMember | packages/graph-core/src/communities.ts:127-133 | of two communities of one size the one with the smallest member comes first |
| Text.LessIff | packages/graph-core/src/communities.ts:112 | strings are ordered by the first unit that differs, a proper prefix first |
| Bits.MaskedEqual | apps/api/src/common/outbound-probe-safety.ts:378-386 | numbers agree under a prefix mask exactly when their top bits agree |
| Bits.AppendOctet | apps/api/src/common/outbound-probe-safety.ts:406 | the signed 32-bit shift and addition multiply by 256 modulo two to the 32 |
| Bits.PrefixMask32 | apps/api/src/common/outbound-probe-safety.ts:374 | the signed shift made unsigned is the mask of that many ones |
| Ipv4.Ipv4ToNumber | apps/api/src/common/outbound-probe-safety.ts:388-409 | the accumulator loop accepts exactly the dotted quads and gives their value |
| Ipv4.ParseIff | apps/api/src/common/outbound-probe-safety.ts:388-409 | a text is parsed as a number if and only if it is four decimal octets with dots between them that make up the number |
| Ipv4.PrintThenParse | apps/api/src/common/outbound-probe-safety.ts:388-418 | parsing a printed address gives the number back, for all 32-bit values |
| Ipv4.RangeIsPrefixEquality | apps/api/src/common/outbound-probe-safety.ts:368-376 | the signed mask comparison is equality of the top prefix bits, for every prefix length |
| Ipv6.BigIntToIpv6 | apps/api/src/common/outbound-probe-safety.ts:517-524 | the loop prints the eight hextets of the value |
| Ipv6.ParseIpv6Hextets | apps/api/src/common/outbound-probe-safety.ts:500-515 | all parts are hextets and are read in order, or the text is refused |
| Ipv6.PrintThenParse | apps/api/src/common/outbound-probe-safety.ts:440-524 | parsing a printed address gives the number back, for all 128-bit values |
| Ipv6.PartsIff | apps/api/src/common/outbound-probe-safety.ts:449-515 | a text is parsed into eight parts if and only if, once normalized, it is a spelling of them: groups of one to four hexadecimal digits, at most one `::` for the missing zeros, perhaps a dotted quad for the last two |
| Ipv6.SpellingExpands | apps/api/src/common/outbound-probe-safety.ts:440-515 | every such spelling, in either case and with or without leading zeros, is parsed as the number it denotes |
| Ipv6.CompressionExpands | apps/api/src/common/outbound-probe-safety.ts:449-476 | two lists of groups with `::` between them denote the two sides with the missing hextets zero; the last group may be any dotted quad |
| Ipv6.DottedTailExpands | apps/api/src/common/outbound-probe-safety.ts:478-498 | six groups and any dotted quad the IPv4 parser accepts denote eight hextets |
| Ipv6.ParsedParts | apps/api/src/common/outbound-probe-safety.ts:440-476 | whatever parses has eight hextets and a 128-bit value |
| Ipv6.FoldAt | apps/api/src/common/outbound-probe-safety.ts:440-447 | the number of a list of hextets has each of them in its place |
| Cidr.MembershipIff | apps/api/src/common/outbound-probe-safety.ts:347-438 | for every text and rule, membership holds if and only if the text spells an address of the rule's family with the rule's top prefix bits; a spelling with an IPv4-mapped value denotes the IPv4 address |
| Cidr.MembershipIsPrefixEquality | apps/api/src/common/outbound-probe-safety.ts:347-438 | the same of the value the parsers give, through the code's round trips by text |
| Cidr.MappedByValue | apps/api/src/common/outbound-probe-safety.ts:420-438 | eight parts mean an IPv4 address exactly when their value is 0xffff times two to the 32 plus that address, and every other value means itself |
| Cidr.MembershipByValueIff | apps/api/src/common/outbound-probe-safety.ts:347-438 | a text is in a range exactly when the dotted or mapped number, for an IPv4 rule, or the unmapped number, for an IPv6 rule, that the two parsers give has the range's top bits |
| Cidr.MappedTextMembership | apps/api/src/common/outbound-probe-safety.ts:347-438 | for every 32-bit number, written as a dotted quad or behind `::ffff:`, the text is in an IPv4 range exactly when the top bits agree, and in no IPv6 range |
| Cidr.PrintedMembership | apps/api/src/common/outbound-probe-safety.ts:347-366 | a printed IPv6 address that is not mapped is in an IPv6 range exactly when the top bits agree, and in no IPv4 range |
| SessionMutex.Mutex.Acquire | apps/api/src/agent/session-mutex.ts:4-13 | a ticket waits for the key's newest promise and becomes the newest |
| SessionMutex.Mutex.TryAcquire | apps/api/src/agent/session-mutex.ts:18-30 | refused exactly while the key is in the map, else the new ticket holds the lock |
| SessionMutex.Mutex.Release | apps/api/src/agent/session-mutex.ts:36-51 | marks its own ticket released and no other, and takes the map entry away exactly if it is still this ticket's |
| SessionMutex.SettledIff | apps/api/src/agent/session-mutex.ts:5-13 | a chained promise is resolved exactly when its ticket and every earlier one of the key are released |
| SessionMutex.AtMostOneHolder | apps/api/src/agent/session-mutex.ts:4-51 | in every run each key has at most one holder |
| SessionMutex.EntriesAreFifo | apps/api/src/agent/session-mutex.ts:4-16 | in every run callers of a key get in once each, in the order of their calls |
| SessionMutex.LockedIff | apps/api/src/agent/session-mutex.ts:32-51 | in every run a key is in the map exactly while one of its tickets is unreleased |
| SessionMutex.EntersIff | apps/api/src/agent/session-mutex.ts:4-16 | in every run a waiting caller may go on exactly when all earlier tickets of its key are released |
| SessionMutex.TrySucceedsIff | apps/api/src/agent/session-mutex.ts:18-30 | in every run `tryAcquire` succeeds exactly when every ticket of the key is released |
| SessionMutex.ReleaseHandsOver | apps/api/src/agent/session-mutex.ts:36-51 | in every run, after a holder's release its ticket is released and holds no more, and no other ticket has changed; the next ticket of the key can enter; without another unreleased ticket the key is out of the map and `tryAcquire` gives a holder; entries of other keys stay |
| SessionMutex.WaitingAndEntering | apps/api/src/agent/session-mutex.ts:4-16 | a call adds one waiting ticket and becomes the key's entry; getting past the wait makes that ticket the holder and changes no other |
| SessionMutex.ReleasedStaysReleased | apps/api/src/agent/session-mutex.ts:39-50 | releasing again changes nothing, whatever happened in between |
| TurnQueue.TurnEventQueue.Push | apps/api/src/agent/turn-event-queue.ts:22-44 | an event is accepted exactly while no terminal flag is set |
| TurnQueue.TurnEventQueue.Resume | apps/api/src/agent/turn-event-queue.ts:79-107 | one turn of the consumer's loop, to its next yield, wait or end |
| TurnQueue.WaitingMeansNothingToDo | apps/api/src/agent/turn-event-queue.ts:30-107 | in every run a waiting consumer has received everything and no terminal flag is set |
| TurnQueue.DeliveredInOrder | apps/api/src/agent/turn-event-queue.ts:30-107 | in every run the consumer has received a prefix of the accepted events |
| TurnQueue.AllBeforeTheEnd | apps/api/src/agent/turn-event-queue.ts:46-107 | without dispose, an iteration that ended, normally or by error, received everything, and nothing is accepted later |
| TurnQueue.ClosedQueueDrains | apps/api/src/agent/turn-event-queue.ts:79-107 | a consumer of a closed queue with n events to come ends at its (n + 1)-st resumption |
| TurnQueue.OneConsumer | apps/api/src/agent/turn-event-queue.ts:70-77 | in every run a second consumer is refused exactly while one is open |
| TurnQueue.PushIsAccepted | apps/api/src/agent/turn-event-queue.ts:30-44 | in every run a push on an open queue is accepted behind all others and wakes a waiting consumer with it; on a closed one nothing changes |
| TurnQueue.CompleteCloses | apps/api/src/agent/turn-event-queue.ts:46-54 | in every run completing closes the queue, keeps the events to come, and wakes a waiting consumer |
| TurnQueue.ErrorCloses | apps/api/src/agent/turn-event-queue.ts:56-68 | so does an error, unless the queue was completed or disposed of; the last error counts |
| TurnQueue.DisposeDrops | apps/api/src/agent/turn-event-queue.ts:109-120 | disposing drops what is buffered and any error, and wakes a waiting consumer |
| TurnQueue.ResumptionIs | apps/api/src/agent/turn-event-queue.ts:79-107 | in every run a consumer that goes on receives the next event to come; when there is none it throws the error, returns from a completed or disposed queue, or waits on an open one |
| TurnQueue.OpeningAndLeaving | apps/api/src/agent/turn-event-queue.ts:70-77 | without a consumer one can be opened and can then go on; one that pauses can leave |
| StreamParser.PersistentStreamParser.HandleOneLine | apps/api/src/agent/persistent-stream-parser.ts:89-108 | a line's events go to the turn open when it is read, and a result line closes that turn |
| StreamParser.PersistentStreamParser.OnLine | apps/api/src/agent/persistent-stream-parser.ts:65-73 | lines of a reader that is no longer current are dropped and end its loop |
| StreamParser.CreatesIff | apps/api/src/agent/persistent-stream-parser.ts:30-42 | in every run a turn can be created exactly when a reader is current and no turn is open: a current reader has never been stopped, so the check of `stopped` decides nothing |
| StreamParser.ResultMakesRoom | apps/api/src/agent/persistent-stream-parser.ts:30-108 | in every run with a current reader its loop can still read a result line, and after any such line the next call creates a fresh turn on that reader |
| StreamParser.StartingAndStopping | apps/api/src/agent/persistent-stream-parser.ts:20-63 | in every run a new reader can be started, is current, and reads, with no turn open; a stop leaves neither reader nor turn |
| StreamParser.ReaderEnds | apps/api/src/agent/persistent-stream-parser.ts:65-87 | lines and ends of a reader that is not current reach no turn; the end of the current one's input leaves neither reader nor turn |
| StreamParser.TurnIsFedExactly | apps/api/src/agent/persistent-stream-parser.ts:30-129 | a turn accepts exactly the events read or injected from its creation to the first step that lets go of it, and is closed the way that step says |
| StreamParser.ConsumerGetsWhatWasFed | apps/api/src/agent/persistent-stream-parser.ts:30-129 | its consumer receives a prefix of them, and all of them when its iteration ends without a cancel |
| AuditQueue.LogIsInOrder | apps/api/src/audit/audit.service.ts:120-143 | in every run the log lists pushes in order, none twice |
| AuditQueue.NothingIsLostOrDoubled | apps/api/src/audit/audit.service.ts:66-144 | in every run each push is logged, in flight, queued or dropped, in exactly one of these, once |
| AuditQueue.TriesAndQueueAreBounded | apps/api/src/audit/audit.service.ts:66-144 | in every run an entry is tried at most three times and the queue holds at most 10,050 |
| AuditQueue.BoundIsReached | apps/api/src/audit/audit.service.ts:66-86 | some run reaches that bound |
| AuditQueue.ThreeTriesAreMade | apps/api/src/audit/audit.service.ts:120-143 | some run tries fifty entries exactly three times each and drops them then, not before |
| AuditQueue.PushIs | apps/api/src/audit/audit.service.ts:66-86 | a push drops the oldest of ten thousand waiting entries, appends its own, and hands fifty to an idle flush |
| AuditQueue.BatchesAre | apps/api/src/audit/audit.service.ts:100-125 | the timer takes up to fifty entries from the front, the loop only full batches of fifty |
| AuditQueue.SettlingIs | apps/api/src/audit/audit.service.ts:128-143 | a written batch is logged; a failed one goes back to the front, all its entries with one retry more than any had, unless some entry was retried twice: then it is dropped |
| AuditQueue.SettlingIsLighter | apps/api/src/audit/audit.service.ts:128-143 | every settled batch lowers the retries left in the queue and in flight |
| AuditQueue.AuditService.Push | apps/api/src/audit/audit.service.ts:66-86 | the oldest entry makes room when the queue is full, and a full batch starts a flush |
| AuditQueue.AuditService.BatchSettled | apps/api/src/audit/audit.service.ts:128-143 | a failed batch goes back to the front until its retries are used up |
| AuditQueue.AuditService.Drain | apps/api/src/audit/audit.service.ts:88-98 | shutdown comes to an end whatever the inserts do, and then everything pushed is logged or dropped |
| RateLimiter.NothingIsLostIff | apps/api/src/bridge/bridge-rate-limit.guard.ts:56-64 | in every run in clock order, every call along it finds exactly the admissions of its window if and only if no call comes when the time to live set by the last admission has run out although that admission counts |
| RateLimiter.TrimmingIsExactIff | apps/api/src/bridge/bridge-rate-limit.guard.ts:56-64 | after a run that kept its last admission so, the next call finds exactly the admissions of its window if and only if the last one is not lost to it |
| RateLimiter.NeverLostIff | apps/api/src/bridge/bridge-rate-limit.guard.ts:56-64 | for two calls in clock order, no window loses the first to expiry if and only if the delay between the caller's clock and the store's has grown by at most a millisecond |
| RateLimiter.KeptIff | apps/api/src/bridge/bridge-rate-limit.guard.ts:56-64 | an admission alone in its set is found if and only if it counts and its time to live has not run out |
| RateLimiter.AdmittedIff | apps/api/src/bridge/bridge-rate-limit.guard.ts:56-64 | while the last admission is kept, a call is admitted exactly when fewer than `limit` admissions lie in its own window |
| RateLimiter.EveryWindowIsBounded | apps/api/src/bridge/bridge-rate-limit.guard.ts:48-65 | in every run that keeps its last admission every half-open window holds at most `limit` admissions |
| RateLimiter.LosingNothingKeepsTheLast | apps/api/src/bridge/bridge-rate-limit.guard.ts:56-64 | a condition on the clocks alone: runs in which no call, admitted or not, is lost to a later one keep their last admission |
| RateLimiter.RenewalKeepsTheLast | apps/api/src/bridge/bridge-rate-limit.guard.ts:62-63 | the last admission can be kept when an older one alone would be lost, because every admission sets the time to live again |
| RateLimiter.DelayShortensTheWindow | apps/api/src/bridge/bridge-rate-limit.guard.ts:48-65 | in every run in clock order whose delays vary between zero and some bound, every window shorter by that bound holds at most `limit` admissions |
| RateLimiter.PairIsBoundedIff | apps/api/src/bridge/bridge-rate-limit.guard.ts:48-65 | two calls in clock order keep the bound for every limit and window position if and only if the first is not lost to the second |
| RateLimiter.GrowingDelayDoublesTheBound | apps/api/src/bridge/bridge-rate-limit.guard.ts:73-95 | with growing delay calls in clock order pass twice the limit in one window, for every limit and window: a concrete run |
| RateLimiter.StaleCallsBreakTheBound | apps/api/src/bridge/bridge-rate-limit.guard.ts:81-95 | when the caller's clock goes back the bound fails as well, for every limit above one: a concrete run |
| RateLimiter.KeysAreIndependent | apps/api/src/bridge/bridge-rate-limit.guard.ts:83-97 | however the calls on different keys interleave, each key's set is that of its own calls |
| RateLimiter.ScriptIs | apps/api/src/bridge/bridge-rate-limit.guard.ts:48-65 | one call of the script: an expired set is empty, scores not newer than a window ago go, and with fewer than the limit left the call is added and the time to live set again |
| RateLimiter.AfterIs | apps/api/src/bridge/bridge-rate-limit.guard.ts:56 | of the scores exactly those above the bound stay, as often as they occur |
| RateLimitGuard.ChecksAreDistinct | apps/api/src/bridge/bridge-rate-limit.guard.ts:137-164 | the three keys differ, whatever the address and the space id |
| RateLimitGuard.RequestsAMinute | apps/api/src/bridge/bridge-rate-limit.guard.ts:43-46 | a thousand requests a minute in all, a hundred from one address, two hundred on one space, under keys that say so |
| RateLimitGuard.CanActivate | apps/api/src/bridge/bridge-rate-limit.guard.ts:73-122 | an undisturbed request is counted under every key before the first that refuses or fails, later keys are untouched, and a fault lets it pass |
| RateLimitGuard.AskIs | apps/api/src/bridge/bridge-rate-limit.guard.ts:99-122 | each reply to an interleaved request: a fault lets it pass, a refusal limits it, the third consent lets it through; the script counts under its own key only |
| RateLimitGuard.PassedAreAdmitted | apps/api/src/bridge/bridge-rate-limit.guard.ts:73-122 | in every run of interleaved requests, with faults before or after their scripts, at most as many requests of a key pass without a fault as the key's script admitted, in every window of their clocks |
| RateLimitGuard.PassedAreBounded | apps/api/src/bridge/bridge-rate-limit.guard.ts:73-122 | so while no script of a key finds its last admission lost, at most its limit of requests pass in any window, for the global, each address's and each space's key |
| RateLimitGuard.DelayedPassesAreBounded | apps/api/src/bridge/bridge-rate-limit.guard.ts:73-122 | and with delays between zero and a bound, in any window shorter by the bound |
| LiteralScanner.ScanQuoted | tools/cherrydb/validator.py:43-73 | the inner loop ends after the first closing quote, pairs of quotes being escapes |
| LiteralScanner.RemoveQuotedLiterals | tools/cherrydb/validator.py:28-88 | the scanner blanks exactly the positions the declarative lexer marks |
| LiteralScanner.BlankIsBlank | tools/cherrydb/validator.py:28-88 | the length stays, characters change to spaces only, and no quote is left |
| LiteralScanner.BlankIsClean | tools/cherrydb/validator.py:75-83 | nothing in a blanked text starts a literal, not even an unmatched or overlapping dollar tag |
| LiteralScanner.BlankingIsIdempotent | tools/cherrydb/validator.py:28-88 | blanking again changes nothing |
| LiteralScanner.SemicolonOutsideIff | tools/cherrydb/validator.py:95-96 | a semicolon survives exactly when the text has one outside its literals |
| LiteralScanner.PlainTextStays | tools/cherrydb/validator.py:28-88 | text without quotes and dollar signs stays as it is |
| LiteralScanner.QuotedIsBlanked | tools/cherrydb/validator.py:43-73 | what precedes the first quoted literal stays, and the literal becomes spaces, whatever follows |
| LiteralScanner.TaggedIsBlanked | tools/cherrydb/validator.py:75-83 | so with the first literal between dollar tags, up to the next occurrence of its tag |
| Utf8.SanitizeKeyComponent | packages/auth-core/src/permission-cache.ts:105-119 | the two loops percent-encode the octets of unsafe characters |
| Utf8.EncodeThenDecode | packages/auth-core/src/permission-cache.ts:113-115 | decoding undoes encoding, for every text of Unicode scalar values |
| Utf8.SanitizeThenDesanitize | packages/auth-core/src/permission-cache.ts:105-119 | sanitizing has an inverse on every well-formed text |
| Utf8.SafeTextStays | packages/auth-core/src/permission-cache.ts:108-111 | letters, digits, underscores and hyphens stay as they are |
| Utf8.OthersAreEscaped | packages/auth-core/src/permission-cache.ts:113-115 | every other character becomes the percent-encoding of its octets |
| Utf8.OctetsAre | packages/auth-core/src/permission-cache.ts:113 | one to four octets by the size of the code, marked as RFC 3629 has it |
| CacheKeys.BuildIsInjective | packages/auth-core/src/permission-cache.ts:93-103 | two keys have the same text exactly when all six components agree |
| CacheKeys.EscapingPlain | packages/auth-core/src/permission-cache.ts:165-171 | sanitized text needs no escaping in a pattern |
| CacheKeys.PatternTexts | packages/auth-core/src/permission-cache.ts:53-83 | the four patterns read as the source writes them, with sanitized and escaped ids in their places |
| CacheKeys.StarsIff | packages/auth-core/src/permission-cache.ts:61-83 | star components followed by a literal one match exactly when a later component, not the last, is that literal |
| CacheKeys.UserPatternIff | packages/auth-core/src/permission-cache.ts:53-59 | user invalidation hits exactly the keys of that tenant and user |
| CacheKeys.SpacePatternIff | packages/auth-core/src/permission-cache.ts:61-67 | space invalidation hits every key of that tenant and space, none of another tenant, and exactly those others whose space version reads like the space id |
| CacheKeys.UserPatternAcrossTenantsIff | packages/auth-core/src/permission-cache.ts:69-75 | across tenants a user id is matched in any of four components, and exactly there |
| CacheKeys.SpacePatternAcrossTenantsIff | packages/auth-core/src/permission-cache.ts:77-83 | across tenants a space id is matched in the space or the space version, and exactly there |
| CacheKeys.DeleteByPattern | packages/auth-core/src/permission-cache.ts:154-163 | a full scan leaves exactly the keys that do not match |
| CacheKeys.InvalidateUserPermissions | packages/auth-core/src/permission-cache.ts:53-59 | the keys of that tenant and user are gone, and only they |
| CacheKeys.InvalidateSpacePermissions | packages/auth-core/src/permission-cache.ts:61-67 | no key of that tenant and space is left, and no other tenant lost one |
| Keyset.Reconcile | apps/wiki-sync-worker/src/reconciliation.ts:67-92 | while statuses change between pages, the loop ends whenever rows are not too close together, misses no row received throughout, and visits rows in order and none twice where the rows that can end a full page have times of whole milliseconds |
| Keyset.EndedRunIsComplete | apps/wiki-sync-worker/src/reconciliation.ts:71-106 | whatever the times and the changes of status, a run that has ended missed no row received throughout |
| Keyset.EveryRunIsOrdered | apps/wiki-sync-worker/src/reconciliation.ts:71-106 | with such times, after any number of pages the rows visited are in order and behind the cursor |
| Keyset.EndsIff | apps/wiki-sync-worker/src/reconciliation.ts:67-106 | for each batch size, the loop ends however statuses change if and only if no batch of consecutive rows lies beyond the cursor that its last row leaves |
| Keyset.CrowdedLoopsForever | apps/wiki-sync-worker/src/reconciliation.ts:90-106 | such a batch, while it stays received, is fetched again on every page |
| Keyset.InOrderIffAligned | apps/wiki-sync-worker/src/reconciliation.ts:67-106 | for each batch size, rows are visited in order and none twice under all status changes if and only if every row that can end a full page has a time of whole milliseconds |
| ChunkWindows.NormalizeChunkOptions | packages/rag-core/src/chunker.ts:83-97 | whatever the options, the window is positive and the overlap smaller than it |
| ChunkWindows.SplitContentByTokenWindow | packages/rag-core/src/chunker.ts:119-145 | the chunks are the windows in order, blank ones left out |
| ChunkWindows.StartIs | packages/rag-core/src/chunker.ts:124-142 | the i-th window starts at i times four times the difference of window and overlap |
| ChunkWindows.WindowCountFormula | packages/rag-core/src/chunker.ts:129-142 | the number of windows is one plus an exact ceiling |
| ChunkWindows.WindowsOverlap | packages/rag-core/src/chunker.ts:130-141 | consecutive windows share exactly four times the overlap |
| ChunkWindows.WindowsRebuildTheContent | packages/rag-core/src/chunker.ts:119-145 | removing the overlaps gives the content back |
| ChunkWindows.NothingIsLeftOut | packages/rag-core/src/chunker.ts:119-145 | every character that is not white space is in some chunk |
| ChunkWindows.ChunksAreSmall | packages/ai-core/src/token-utils.ts:29-31 | every chunk counts at least one token and at most the maximum |
| ContextPacker.PackItems | packages/rag-core/src/context-packer.ts:148-172 | the loop packs within the smaller of the category budget and what is left |
| ContextPacker.PackIsSubsequence | packages/rag-core/src/context-packer.ts:148-172 | what is packed is a subsequence of the items, within the budget |
| ContextPacker.PackIsMaximal | packages/rag-core/src/context-packer.ts:157-165 | no skipped item could be appended to what was packed in the end |
| ContextPacker.TakenIff | packages/rag-core/src/context-packer.ts:157-165 | an item is taken exactly when, with the separator it may need, it fits into what is left when its turn comes |
| ContextPacker.ChargedIs | packages/rag-core/src/context-packer.ts:157-165 | a pack is charged its items' tokens and two for each separator |
| ContextPacker.BudgetsAndCounts | packages/rag-core/src/context-packer.ts:153-155 | budgets are rounded down and counts up, what is no positive number is zero, and a pack gets the lesser of its own budget and what is left |
| ContextPacker.JoinAppends | packages/rag-core/src/context-packer.ts:282-284 | the texts are joined with an empty line between each and the next |
| ContextPacker.JoinedTextFits | packages/rag-core/src/context-packer.ts:148-172 | the joined text, separators included, counts no more tokens than were charged |
| ContextPacker.ItemsAreSorted | packages/rag-core/src/context-packer.ts:98-146 | the items of a kind are the results of that kind, each as often as it occurs, and no score is lower than a later one |
| ContextPacker.PackContext | packages/rag-core/src/context-packer.ts:64-96 | the three categories are packed in turn, the total stays within the overall budget, the truncated items are those left out, and with the repository's counter the joined wiki and community texts count within their category budgets and within the total |
| ContextPacker.PacksAre | packages/rag-core/src/context-packer.ts:69-83 | each category is packed into the lesser of its own budget and what the ones before it left of the whole |
| ContextPacker.PackedContextsFit | packages/rag-core/src/context-packer.ts:64-96 | for the items of any results, the joined texts in the repository's own token counts fit their budgets |
| ContextPacker.JoinedContextsFit | packages/rag-core/src/context-packer.ts:64-96 | the joined wiki and community texts and the graph pack together fit the overall budget |
| RankFusion.HitMap.AddRankedResults | packages/rag-core/src/rrf-fusion.ts:78-105 | one pass adds each chunk's first rank and skips repeats |
| RankFusion.AddedAdds | packages/rag-core/src/rrf-fusion.ts:78-105 | a pass adds, for each chunk listed, the reciprocal of its first rank and its first risk flag, and nothing for others |
| RankFusion.RrfFuse | packages/rag-core/src/rrf-fusion.ts:17-40 | the result holds distinct chunks with the contents of a first listing, no score lower than a later one; each score is the sum of the reciprocals of its first ranks, times the penalty exactly if a first listing is risky; a listed chunk is left out only where the number wanted is reached, and then scores no higher; nothing comes back exactly when every listed chunk is risky or none is wanted |
| RankFusion.ReciprocalIs | packages/rag-core/src/rrf-fusion.ts:88-89 | rank r counts the number that times the rank constant plus r is one |
| RankFusion.DefaultsAre | packages/rag-core/src/rrf-fusion.ts:136-150 | 60, 8 and 0.3 stand for a rank constant, number wanted or penalty that is missing or out of range |
| RankFusion.ScoresAreReciprocalSums | packages/rag-core/src/rrf-fusion.ts:17-105 | a chunk's score is the sum over the lists of the reciprocal of its first rank; it is risky if a first listing is |
| RankFusion.SwappingChangesNothing | packages/rag-core/src/rrf-fusion.ts:27-28 | swapping the lists changes no score and no risk flag |
| RankFusion.BetterRanksScoreNoLower | packages/rag-core/src/rrf-fusion.ts:88-93 | improving a chunk's first ranks never lowers its score |
| RankFusion.TopIsTop | packages/rag-core/src/rrf-fusion.ts:39 | the output is sorted, of the right length, and nothing left out scores higher than anything let in |
| RankFusion.TopIsDistinct | packages/rag-core/src/rrf-fusion.ts:25-39 | no chunk appears twice in the output |
| RankFusion.NothingReturnedIff | packages/rag-core/src/rrf-fusion.ts:35-39 | nothing is returned exactly when every chunk listed in either list is risky at its first listing in one of them, or the wanted number is zero |

## Left out

- Controllers, database and Redis clients, process spawning and provider SDKs: a statement is one step on a map, sequence or sorted set.
- JobStore.JobTable.Renew: does not model the new time to live, because locks expire at arbitrary steps of `JobProtocol`.
- Job rows that disappear, the external retry endpoint, retry delays, event rows and error payloads of the job protocol.
- IndexRuns.ActiveSnapshotsAreExact: its runs report activations truthfully, because otherwise it is false; what one false report does to any reachable state is `LateFailureIsHarmlessIff`.
- Access lists, token counts, source chains, index status and version columns of chunks: they are copied or derived without a decision.
- Graph community detection from a `community` field on nodes: grouping by a given key.
- `parseCidrRule`: only its result, a base and a prefix length within bounds, is modelled.
- Strings.NormalizeHostname: lower-cases ASCII letters only, because no other letter lower-cases to a digit, a letter up to f, a colon or a dot.
- The settlement waiters of the turn queue: they are resolved or rejected with the flags and influence no delivery.
- TurnQueue: `return()` on a generator that was never started; every consumer in the repository starts it.
- Cache key components with unpaired surrogates: they are not well-formed Unicode and encode alike.
- CacheKeys.Match: does not model bracket classes, because no pattern built here contains one, which is proved.
- Keys added while a pattern is being deleted, and the time to live of cache entries.
- Audit metadata sanitizing, logging, and pushes after shutdown has begun.
- RateLimiter.EveryWindowIsBounded: holds for runs that keep their last admission; what other runs in clock order keep is `DelayShortensTheWindow`, and that they can break the full bound is `GrowingDelayDoublesTheBound`.
- RateLimitGuard: a process without a Redis client lets every request pass unasked.
- Page metadata, section order and injection scanning in `chunkPage`; `sqlparse` comment stripping and table extraction.
- Conflict annotations of the graph context: they are appended outside every budget, so nothing is claimed of that text.
- Graph scoring in rank fusion: it uses a logarithm.
- The enqueueing of reconciled events and its failures: a visited row is one that is handed to the queue.
