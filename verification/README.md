# IceHive, modelled and verified in Dafny

IceHive collects entities from APIs, publishes them over AMQP and persists them in sinks. This project models the parts
of it that carry state, protocols or arithmetic, and proves what they keep over whole runs.

| module | models |
|---|---|
| `Basics`, `Text` | options, filtering, decimal text; the string operations of Go and TypeScript over ASCII text |
| `MySqlSink`, `MySqlPersister` | the MySQL sink as a value with its SQL statements, and the persister that runs them |
| `Replay`, `FaultyReplay`, `EntityQueue` | broker queue, channel losses, redelivery, failing and dying handlers and the sink as one step system |
| `SchemaRace` | concurrent handlers growing one schema: the table section under a mutex, the upsert outside it |
| `AmqpClient` | the reconnecting AMQP client and its consume loop |
| `IssueCache`, `IssueSync` | the incremental issue cache, and its agreement with a changing remote list |
| `IssuePages`, `Packages` | capped pagination of issues and packages, and the namespace cache of one run |
| `SourceSpec`, `SpecForm` | the Go parser of a source spec, and the TypeScript form that parses and composes it |
| `SpecAgreement`, `SpecPlaceholder` | where the two agree, and the exact condition |
| `ActivityRing`, `Throttle` | the activity feed's circular buffer, and its heartbeat throttle under concurrency |
| `CollectionSources`, `Staleness`, `Scheduler` | the rows of the sources table, the health verdicts on them, the poller |
| `YamlStore` | entity files written through a temporary file and a rename, and the git sync under the same lock |
| `ControllerHistory` | the web client's bounded list of controller addresses |

Objects that the source updates in place are classes whose methods are proved against functions on values; the theorems
about whole runs are lemmas about those functions, and further lemmas say what each of them computes in terms of its
arguments alone, without naming it. What a network, a disk, a clock, a library or another process
answers is a parameter of the operation, so every theorem holds for all answers.

## What came out

- Redelivery is harmless for the MySQL sink: the last message handled wins, column by column, and a replay that gets
  back to where it fell from leaves exactly the contents of one pass, even if a handler died between its statements.
- A statement that fails for an outside reason (a lost connection, a cancelled context) costs the entity: the handler's
  error becomes a rejection without requeue, so the message is dropped (`EntityQueue.FailureLosesEntity`). What the sink
  holds is known exactly all the same (`EntityQueue.SinkExactly`), and so is when it is right
  (`EntityQueue.CellRightIff`, `EntityQueue.ContentsRightIff`).
- `ReportCollectionSourceRun` takes its row count from the server, which counts changed rows. A report identical to the
  previous one is therefore answered "not found" although the row is there (`CollectionSources.Store.ReportRun`).
- The cache-hit test can miss a change made in the second of the newest one known: `IssueSync.HitCanLie` is such a run,
  `IssueSync.HitRightSinceSaved` says exactly when a hit is right, `IssueSync.HitWindow` how much can be missed.
- A first collection that reaches the cap leaves older issues out of the cache, and they stay out until they change
  (`IssueSync.CutOffAgreesIff`, `IssueSync.CutOffStaysWrong`).
- A cron schedule that is never active again is stored as "no due time", which the poller reads as "due"
  (`Scheduler.ExhaustedIsAlwaysDue`).
- The 2x threshold of the staleness test never decides on a row that reports can produce; the metrics gauge and the RPC
  disagree only within a second after a threshold, or when the clock is behind the last success.
- The form changes a source whose owner contains the text `{name}`, unless the name is that text.
- Normalising a controller address is not idempotent when white space precedes trailing slashes; the stored form is
  then not what is read back.
- A legacy session address is forgotten when local storage refuses the write that should keep it.
- The git sync looks for untracked files only, so a YAML file that is rewritten after it was first added is never
  committed again (`YamlStore.CommittedTextStays`); `YamlStore.CommittedCurrentIff` says exactly when what is
  committed is current.
- docs/content/services/persister-yaml.md calls the YAML persister scaffolding without a writer; the model follows the
  code, which writes files and commits them.

## Model

| member | source | states |
|---|---|---|
| `EntityQueue.ReplayConverges` | services/common/pkg/amqpctl/client.go:329-393 | after any run of publishes, deliveries, settlements, failing and dying handlers and channel losses, whenever the consumer is back at the first message it never started on: a cell has its one-pass value if and only if the last handling to take effect on it wrote that, and has it if the latest handling of its last writer took effect, reported or not; the sink has the rows and cells of one pass if that holds of every acceptable message; it is the one-pass sink if no handler failed with its work undone |
| `EntityQueue.SettledMeansOnePass` | services/common/pkg/amqpctl/client.go:344-360 | once every message is acked or dropped: the same exact rule for every cell; it holds where the last writer was acked, or was dropped although its work was done; the rows and cells are those of one pass if that is so of every acceptable message |
| `EntityQueue.UntouchedCellsAreRight` | services/persister-mysql/main.go:318-365 | at any moment, a cell that the rest of the replay will not write again has its one-pass value, if the latest handling of its last writer took effect, reported or not |
| `EntityQueue.Conservation` | services/common/pkg/amqpctl/client.go:344-360 | whatever fails, handlers too, every message position occurs exactly once among queued, unsettled, acked and dropped |
| `EntityQueue.RunAccounted` | services/common/pkg/amqpctl/client.go:344-360 | in every reachable state the stream is cut in order into settled, delivered and queued; each settled message was settled once, acked if and only if its handler, when it was last run, returned nil |
| `EntityQueue.RunConsistent` | services/common/pkg/amqpctl/client.go:329-393 | the replay invariants hold in every reachable state of broker, consumer and sink |
| `EntityQueue.FailureLosesEntity` | services/persister-mysql/main.go:102-117 | a run in which a handler fails once on an acceptable message: it is dropped and its row never reaches the sink |
| `FaultyReplay.TookHolds` | services/persister-mysql/main.go:152-177 | once all of the work on a message is done, the sink holds its fields and its source, value by value |
| `EntityQueue.SinkExactly` | services/persister-mysql/main.go:318-365 | after any run, in the middle of a replay too, every cell holds what the last handling to take effect on it wrote, and the rows are those of the messages that took effect, whatever the handlers reported |
| `EntityQueue.CellRightIff` | services/persister-mysql/main.go:318-365 | at any time, over however many messages: a cell has its one-pass value if and only if the last message to take effect on it wrote what the last of them to write it would have |
| `EntityQueue.ContentsRightIff` | services/persister-mysql/main.go:318-365 | exactly when the sink has the rows and cells of one pass over the messages started on: when the messages that took effect, in that order, say the same about every row and cell |
| `EntityQueue.RowPresentIff` | services/persister-mysql/main.go:318-365 | after any run a row is in the sink if and only if it was there before or the upsert of a message of that row took effect at some handling, whatever was reported of it |
| `FaultyReplay.StepTracked` | services/persister-mysql/main.go:152-177 | handling the next message, well or badly, keeps what is known of rows, columns and cells |
| `FaultyReplay.AllStored` | services/persister-mysql/main.go:152-177 | at the mark, if the latest handling of every acceptable message took effect, the sink has the rows and cells of one pass |
| `FaultyReplay.HandlingMade` | services/persister-mysql/main.go:152-177 | another handling, whatever becomes of it, keeps the contents those of one pass over the messages in the order in which they took effect |
| `FaultyReplay.OnePassCell` | services/persister-mysql/main.go:318-365 | a cell of one pass holds what the last message to write it wrote |
| `FaultyReplay.FailureTouches` | services/persister-mysql/main.go:228-365 | a failing handler loses nothing and touches only what its message writes |
| `Replay.TakeKeeps` | services/persister-mysql/main.go:152-177 | handling the next message keeps the consumer on track, whether it is handled for the first time or again |
| `Replay.RestartKeeps` | services/common/pkg/amqpctl/client.go:364-393 | falling back to any earlier message keeps it on track |
| `Replay.CrashKeeps` | services/persister-mysql/main.go:228-365 | so does a handler that dies at any of its statements, before or after the statement took effect |
| `Replay.Converged` | services/persister-mysql/main.go:318-365 | on track and back at the mark, the database is exactly the one-pass database |
| `Replay.CellStays` | services/persister-mysql/main.go:318-365 | a cell that no message between two points of one pass writes has the same value at both |
| `MySqlSink.ApplyView` | services/persister-mysql/main.go:152-177 | what storing one message changes, observed from outside: the columns of its table, its row key, and in its row exactly the cells it writes; nothing else in any table |
| `MySqlSink.Extensional` | services/persister-mysql/main.go:262-288 | a valid database is determined by its columns, row keys and cells |
| `MySqlSink.WithColumnsView` | services/persister-mysql/main.go:228-260 | adding columns keeps the type of those already there and changes no row and no cell |
| `MySqlSink.ColumnNamesAreIdentifiers` | services/persister-mysql/main.go:188-208 | a stored column name has identifier characters only and is never one of the two the server maintains |
| `MySqlSink.FieldIsStored` | services/persister-mysql/main.go:335-342 | the cell of every stored field of a stored message holds the value the message gives for it, null if it gives none |
| `MySqlSink.SourceIsStored` | services/persister-mysql/main.go:318-333 | the row of a stored message holds its hash, unique id, collector type, system, time and recollect spec, each in its column |
| `MySqlSink.FieldTypeIs` | services/persister-mysql/main.go:214-226 | a column added for a field is BIGINT, DOUBLE or BOOLEAN exactly for the three declared types, else text |
| `MySqlSink.SourceTypesAre` | services/persister-mysql/main.go:262-270 | a new table has the six columns of the source with their types |
| `MySqlSink.ColumnNameOfPlain` | services/persister-mysql/main.go:188-200 | a name of letters, digits, underscores and dashes keeps its length: capitals become small, dashes underscores |
| `MySqlSink.ColumnNameDrops` | services/persister-mysql/main.go:188-200 | any other character inside a name is left out |
| `MySqlSink.TableNameOfPlain` | services/persister-mysql/main.go:179-186 | a table is named like its type, in small letters, with an s behind |
| `MySqlSink.StoredIff` | services/persister-mysql/main.go:202-208 | only fields whose name comes to nothing or to one of the two time stamps are not stored |
| `MySqlSink.LeftoverView` | services/persister-mysql/main.go:228-365 | what any failed handler leaves: no table, column, type or row is lost, no foreign row appears, and only cells the message writes may differ |
| `MySqlSink.AskedForTypes` | services/persister-mysql/main.go:246-258 | without clashing fields each column is added with one type, whatever the order |
| `MySqlPersister.DistinctIffClean` | services/persister-mysql/main.go:262-288 | the column list of a statement names no column twice if and only if no two stored fields map to one column and none to a fixed one |
| `MySqlPersister.DeclaredTypes` | services/persister-mysql/main.go:262-288 | for any order in which the field map is visited, CREATE TABLE declares exactly the types the message asks for |
| `MySqlPersister.AssignedCells` | services/persister-mysql/main.go:318-365 | for any visiting order, the upsert assigns exactly the cells of the message |
| `MySqlPersister.ProgressEnd` | services/persister-mysql/main.go:228-260 | the ALTER loop ends with every column the message needs, and with no other when the fields do not clash |
| `MySqlPersister.Persister.CreateTable` | services/persister-mysql/main.go:262-288 | succeeds if and only if the fields do not clash and the server runs the statement; the new table has exactly the required columns, even if only the reply is lost |
| `MySqlPersister.Persister.EnsureTable` | services/persister-mysql/main.go:228-260 | with a server that runs everything it succeeds if and only if no two fields would add the same column; whatever the server does, columns asked for are all that is added, and on success the upsert finds all it names |
| `MySqlPersister.Persister.UpsertEntity` | services/persister-mysql/main.go:318-365 | succeeds if and only if the fields do not clash and the server runs the statement; one row is written, even if only the reply is lost |
| `MySqlPersister.Persister.PersistEntity` | services/persister-mysql/main.go:152-177 | whatever the server does with each statement: success means the message was accepted and that its table holds its fields and its source, value by value, with nothing else changed; failure leaves one of the known remainders; with a server that runs everything, success if and only if the message is accepted |
| `MySqlPersister.CreateStatement` | services/persister-mysql/main.go:262-288 | in any visiting order CREATE TABLE fails if and only if the fields clash, else it makes the table asked for |
| `MySqlPersister.UpsertStatement` | services/persister-mysql/main.go:318-365 | in any visiting order, on a table with the columns, the upsert fails if and only if the fields clash, else it writes the row |
| `SchemaRace.StepSafe` | services/persister-mysql/main.go:228-260 | every SQL statement of every concurrent handler, and every handler the server fails, keeps the system safe, and the database only grows |
| `SchemaRace.NoStatementFails` | services/persister-mysql/main.go:318-365 | under any interleaving, whichever handlers the server fails besides, no statement is wrong: a handler that left the mutex has an upsert that succeeds in any visiting order, and one that has written finds its row |
| `SchemaRace.CreatedByStatement` | services/persister-mysql/main.go:262-288 | the CREATE TABLE of a handler, in any visiting order, fails exactly when its step does and has its effect |
| `SchemaRace.UpsertedByStatement` | services/persister-mysql/main.go:318-365 | the upsert of a handler, in any visiting order, fails exactly when its step does and has its effect |
| `SchemaRace.SchemaOnlyGrows` | services/persister-mysql/main.go:228-288 | between any two moments of a run columns, their types and rows are only added |
| `SchemaRace.GrowthKeepsPromise` | services/persister-mysql/main.go:152-165 | what one handler relies on survives the growth caused by others |
| `SchemaRace.RunSafe` | services/persister-mysql/main.go:152-177 | the invariant of the interleaved handlers holds in every reachable state |
| `AmqpClient.RunSound` | services/common/pkg/amqpctl/client.go:53-134 | over all runs with the environment killing connections and channels between locked sections: a held publish channel belongs to the held connection and has its exchange declared; every other connection dialled and publish channel opened has been closed |
| `AmqpClient.StepSound` | services/common/pkg/amqpctl/client.go:53-134 | each locked section and each failure keeps that |
| `AmqpClient.ClosedForever` | services/common/pkg/amqpctl/client.go:433-442 | a closed client holds no handle ever again and dials no more |
| `AmqpClient.NothingAfterClose` | services/common/pkg/amqpctl/client.go:433-442 | the same after Close, whatever follows |
| `AmqpClient.PublishOutcome` | services/common/pkg/amqpctl/client.go:162-186 | a publish makes at most two attempts, the second only after a lost channel and on a connection dialled for it; it returns nil if and only if the last attempt succeeded; each attempt uses a publish channel with the exchange declared |
| `AmqpClient.PublishRecovers` | services/common/pkg/amqpctl/client.go:162-186 | with a network that answers, an open client publishes despite a dropped channel or connection |
| `AmqpClient.ReadyIsAlive` | services/common/pkg/amqpctl/client.go:95-134 | ready means a live publish channel, with the exchange declared, on a live connection; what was so before is left alone, a dead channel is replaced on the same connection, a dead connection by one dialled for it |
| `AmqpClient.ReadyUnless` | services/common/pkg/amqpctl/client.go:95-114 | an open client gets ready whenever dial, channel and exchange work; a closed one never |
| `AmqpClient.FirstTryIsAlive` | services/common/pkg/amqpctl/client.go:162-186 | the first attempt of a publish goes out on a channel alive at that moment, on a live connection; the second on a connection dialled for it |
| `AmqpClient.ConsumerIsAlive` | services/common/pkg/amqpctl/client.go:136-147 | a consumer channel is opened on a live connection: the one held if it is alive, else one dialled for it |
| `AmqpClient.ReconnectOutcome` | services/common/pkg/amqpctl/client.go:379-391 | a reconnect closes the old connection and leaves a live one dialled for it, or none |
| `AmqpClient.LoopLeaksNothing` | services/common/pkg/amqpctl/client.go:364-393 | whatever happens in the consume loop, every consumer channel it opened it also closed; a closed client is left untouched |
| `AmqpClient.ConsumeDeliveries` | services/common/pkg/amqpctl/client.go:344-360 | each delivery taken is settled once and in order, acked if and only if non-empty and handled with nil; the session ends at the first refused ack, else when the channel closes |
| `AmqpClient.Client.constructor` | services/common/pkg/amqpctl/client.go:32-43 | a connection is held if and only if dial, channel and exchange all worked |
| `AmqpClient.Client.ConnectLocked` | services/common/pkg/amqpctl/client.go:53-73 | the new state on each outcome of dial, channel and declare |
| `AmqpClient.Client.CloseConnLocked` | services/common/pkg/amqpctl/client.go:83-93 | both handles closed and dropped |
| `AmqpClient.Client.ResetPubChLocked` | services/common/pkg/amqpctl/client.go:116-134 | a new publish channel on the same connection, or nothing held at all |
| `AmqpClient.Client.EnsureConnectedLocked` | services/common/pkg/amqpctl/client.go:95-114 | true only with a live publish channel on a live connection, and always so on an open client if dial, channel and exchange work; nothing is changed if that was so before |
| `AmqpClient.Client.PublishLocked` | services/common/pkg/amqpctl/client.go:162-186 | an old channel is only used if it was alive with its connection; success leaves the client holding the live channel the last attempt went out on; attempts, result and state are those PublishOutcome speaks about |
| `AmqpClient.Client.OpenChannel` | services/common/pkg/amqpctl/client.go:136-147 | a fresh consumer channel on the held, live connection, never on a closed client |
| `AmqpClient.Client.ConsumeJSONOnce` | services/common/pkg/amqpctl/client.go:329-362 | the session: never nil, its error by cause, its settlements, and its channel closed at the end |
| `AmqpClient.Client.ConsumeLoop` | services/common/pkg/amqpctl/client.go:364-393 | runs one session per turn until the context ends, each as the deliveries of the turn ask for; returns if and only if the context ends, never nil; its state is that of the turns taken |
| `AmqpClient.Client.Shutdown` | services/common/pkg/amqpctl/client.go:433-442 | closed with both handles nil |
| `IssueSync.RunAgrees` | services/collector-github/issues_cache.go:112-154 | with every remote change stamped no earlier than the latest marker minus two minutes, in every state reachable from an empty cache each disagreement between cache and remote list is stamped so too |
| `IssueSync.LeftWrongIff` | services/collector-github/issues_cache.go:206-246 | a saved collection, its listing cut off or not, leaves wrong exactly what it did not fetch and did not have right before |
| `IssueSync.CutOffAgreesIff` | services/collector-github/issues_cache.go:134-149 | after a first collection that was cut off, the agreement holds if and only if all the issues left out are stamped within two minutes before the newest one fetched, or later |
| `IssueSync.CutOffStaysWrong` | services/collector-github/issues_cache.go:134-146 | an older one stays missing in later collections, until it changes |
| `IssueSync.RunThenCollect` | services/collector-github/issues_cache.go:112-154 | after any such run a collection that fetches and saves leaves exactly the remote times in the cache |
| `IssueSync.CollectBringsInStep` | services/collector-github/issues_cache.go:206-246 | an incremental fetch and merge gives what a full refetch would |
| `IssueSync.HitMeansInStep` | services/collector-github/issues_cache.go:174-188 | if no two remote changes share a stamp, a cache hit means that no time in the cache is wrong or missing |
| `IssueSync.CollectedIsMirror` | services/collector-github/issues_cache.go:112-154 | if no two remote changes share a stamp, after a hit, as after a collection that fetches and saves, the cache holds exactly the remote issues, contents included |
| `IssueSync.HitRightSinceSaved` | services/collector-github/issues_cache.go:112-188 | after any run, a hit is right if and only if nothing that changed since the last saved collection is stamped at or before the marker saved then, except with the stamp it had |
| `IssueSync.HitWindow` | services/collector-github/issues_cache.go:174-188 | without that, what a hit misses lies in the two minutes up to the latest marker |
| `IssueSync.HitCanLie` | services/collector-github/issues_cache.go:174-188 | a run in which a hit misses a change: two issues stamped in the same second |
| `IssueSync.IssueCollector.Collect` | services/collector-github/issues_cache.go:82-172 | a hit if and only if the probed issue is the marked one with its time; else the listing from two minutes before the marker, its news published, the file written only then |
| `IssueCache.WrittenIsPublished` | services/collector-github/issues_cache.go:206-246 | the map writes of a merge are exactly the published issues, in order |
| `IssueCache.PublishedOrSkipped` | services/collector-github/issues_cache.go:206-246 | published plus skipped is the number of usable fetched issues, when all marshal |
| `IssueCache.MergePublishesNews` | services/collector-github/issues_cache.go:206-246 | the issues published are, in order, exactly those whose time differs from the time held for their key just before; those skipped are exactly the others |
| `IssueCache.NewsAre` | services/collector-github/issues_cache.go:206-246 | an issue is published if and only if it was fetched somewhere, could be marshalled, and had another time than the one held just before |
| `IssueCache.FirstOfKeyIsNews` | services/collector-github/issues_cache.go:224-232 | the first issue fetched with a key is news if and only if the cache did not hold that key with that time |
| `IssueCache.NothingNew` | services/collector-github/issues_cache.go:224-232 | fetching again what is cached with its present time publishes nothing and skips it all |
| `IssueCache.NumbersAreKeys` | services/collector-github/entity.go:95-115 | without node ids, issues of a repository have the same key if and only if they have the same number |
| `IssueCache.NodeIdIsKey` | services/collector-github/entity.go:95-101 | an issue with a node id is known by it |
| `IssueCache.KeylessIff` | services/collector-github/entity.go:95-115 | exactly which issues have no key |
| `IssueCache.FirstNonPRIsFirst` | services/collector-github/issues_cache.go:357-364 | only nil issues and pull requests stand before it |
| `IssueCache.MergedStamps` | services/collector-github/issues_cache.go:206-246 | after a merge a fetched key has the time it was last fetched with, any other key the time it had |
| `IssueCache.MergedFrom` | services/collector-github/issues_cache.go:206-246 | after a merge an entry is the one that was there or holds an issue fetched with its key |
| `IssueCache.FirstNonPRIsNewest` | services/collector-github/issues_cache.go:357-364 | in a list sorted newest first, the first issue that is no pull request is a newest one |
| `IssueCache.RefreshMarker` | services/collector-github/issues_cache.go:249-270 | for every map iteration order the marker is a maximal time and an id attaining it |
| `IssueCache.MergeIssueCache` | services/collector-github/issues_cache.go:206-246 | publishes exactly the news, in order, and counts the rest as skipped; the entries are those of the merge and the marker is right |
| `SpecPlaceholder.MeaningKeptIff` | frontend/src/utils/sourceSchemaForm.ts:121-137 | reading a spec into the form and composing it again keeps what the collector reads if and only if the owner does not contain the name placeholder or the name is that very text |
| `SpecAgreement.CanonicalKeepsMeaning` | frontend/src/utils/sourceSchemaForm.ts:77-137 | when the owner does not contain the placeholder, the Go parser reads the composed spec as the same owner, repository, all-repositories flag and options |
| `SpecAgreement.CanonicalIsIdempotent` | frontend/src/utils/sourceSchemaForm.ts:77-137 | parse then compose, done twice, changes nothing more |
| `SpecAgreement.CanonicalText` | frontend/src/utils/sourceSchemaForm.ts:121-137 | what is composed is the canonical text of the target and options the Go parser read |
| `SpecAgreement.CanonicalIsRead` | services/collector-github/spec.go:24-129 | the canonical text of a target and options is read by both sides as that target and those options |
| `SpecAgreement.FormReadsIff` | frontend/src/utils/sourceSchemaForm.ts:77-119 | of the specs the collector accepts, exactly which ones the form can read |
| `SpecAgreement.PlaceholderOwnerChanges` | frontend/src/utils/sourceSchemaForm.ts:121-137 | an owner for which the form changes the meaning |
| `SpecAgreement.SameParts` | services/collector-github/spec.go:24-46 | the form and the collector cut an accepted spec into the same primary part and modifiers |
| `SpecAgreement.TokensInAnyCase` | services/collector-github/spec.go:31-46 | modifiers are read in any case as the small ones |
| `SourceSpec.ModifiersAcceptedIff` | services/collector-github/spec.go:31-46 | exactly which modifier pieces are accepted, and what they become |
| `SourceSpec.OptionsAre` | services/collector-github/spec.go:48-71 | modifiers are accepted if and only if all are known; each switches on its option and nothing else does |
| `SourceSpec.SlugAcceptedIff` | services/collector-github/spec.go:93-129 | a slug is accepted if and only if there is an owner before and a name without star behind its first slash |
| `SourceSpec.RepoPrefixInAnyCase` | services/collector-github/spec.go:93-129 | the prefix of a repository may be in any case |
| `SourceSpec.OrgPrefixInAnyCase` | services/collector-github/spec.go:93-129 | that of a whole owner too; what follows is accepted if and only if it is a login without slash |
| `SpecPlaceholder.CanonicalFills` | frontend/src/utils/sourceSchemaForm.ts:125-131 | what is composed for any owner: the owner with the name filled in, then the name |
| `SpecPlaceholder.SlashBehindSeparator` | services/collector-github/spec.go:24-71 | a slash behind the first modifier separator makes the collector refuse the spec |
| `SpecPlaceholder.ReplaceChanges` | frontend/src/utils/sourceSchemaForm.ts:125-131 | filling a placeholder that occurs with any other text changes the text |
| `SourceSpec.CollectModifiers` | services/collector-github/spec.go:31-46 | the loop gives all modifiers lower-cased in order, or the error of the first bad one |
| `SourceSpec.ReadOpts` | services/collector-github/spec.go:48-71 | the loop over seen modifiers sets each option exactly when its modifier occurs, and fails exactly on an unknown one |
| `SpecForm.ParseSpecIntoBuilder` | frontend/src/utils/sourceSchemaForm.ts:77-119 | the first pattern that reads the primary part, with its arguments and the modifier flags |
| `SpecForm.ComposeSpec` | frontend/src/utils/sourceSchemaForm.ts:121-137 | the filled template followed by the suffixes of the modifiers switched on |
| `SpecForm.FillTemplate` | frontend/src/utils/sourceSchemaForm.ts:126-130 | the first loop: the template with every argument filled in, in order |
| `SpecForm.AppendSuffixes` | frontend/src/utils/sourceSchemaForm.ts:131-135 | the second loop: the suffixes of the modifiers switched on, in the order of the schema |
| `SpecForm.ChosenIff` | frontend/src/utils/sourceSchemaForm.ts:131-135 | a suffix is appended if and only if some boolean modifier with it is switched on |
| `SpecForm.OtherPatternReads` | frontend/src/utils/sourceSchemaForm.ts:77-119 | a pattern other than the two well-known ones reads what follows its prefix into its one argument |
| `SpecForm.BuilderForPattern` | frontend/src/utils/sourceSchemaForm.ts:139-150 | exactly the fields of the pattern, each carried over from the previous state or empty |
| `ActivityRing.Ring.List` | services/controller/internal/activity/ring.go:202-242 | the newest min(clamp(k), capacity, recorded) events of the whole history, newest first |
| `ActivityRing.Ring.NewestSlice` | services/controller/internal/activity/ring.go:219-234 | the end of the history reversed, read from the circular buffer |
| `ActivityRing.Ring.AppendLocked` | services/controller/internal/activity/ring.go:59-66 | the buffer still holds the end of the history, one event longer |
| `ActivityRing.Ring.Record` | services/controller/internal/activity/ring.go:68-81 | time and id are filled in when missing; only a missing id takes a number |
| `ActivityRing.Ring.constructor` | services/controller/internal/activity/ring.go:47-57 | an empty history; a capacity below one becomes the default |
| `ActivityRing.Ring.AcceptHeartbeat` | services/controller/internal/activity/ring.go:83-92 | accepted if and only if first or at least the gap after the time remembered for the service |
| `ActivityRing.Ring.RecordHeartbeat` | services/controller/internal/activity/ring.go:109-127 | a blank or throttled service changes nothing; otherwise one event is added |
| `ActivityRing.IdsAreConsecutive` | services/controller/internal/activity/ring.go:68-81 | events recorded without id are numbered consecutively (as 64-bit decimals) |
| `ActivityRing.ListedIdsDescend` | services/controller/internal/activity/ring.go:219-242 | a listing shows those numbers descending from the counter |
| `ActivityRing.ClampIs` | services/controller/internal/activity/ring.go:202-210 | a limit from 1 to 100 is kept, none means 50, more means 100 |
| `ActivityRing.RecordedEvent` | services/controller/internal/activity/ring.go:68-81 | recording changes nothing of an event but a missing time and a missing id |
| `Throttle.RecordedApart` | services/controller/internal/activity/ring.go:83-127 | under every interleaving of the two critical sections, two recorded heartbeats of one service are at least the gap apart |
| `Throttle.AcceptedIff` | services/controller/internal/activity/ring.go:83-92 | after any run a heartbeat is accepted if and only if it is at least the gap behind all those accepted of its service |
| `Throttle.SpacedAreAccepted` | services/controller/internal/activity/ring.go:83-92 | heartbeats each at least the gap behind the earlier ones of their service are all accepted |
| `Throttle.ThrottleBound` | services/controller/internal/activity/ring.go:83-127 | a window of length W holds at most floor(W / gap) + 1 recorded heartbeats of a service |
| `CollectionSources.RowHoldsReports` | services/controller/internal/db/collection_sources.go:138-149 | a row is determined by its settings and its reports: last run, last success, an error if and only if the last run failed, and the due time of the last report |
| `CollectionSources.ReachableIsNormal` | services/controller/internal/db/collection_sources.go:215-268 | with run times that do not go back, a row never shows a success later than its last run |
| `CollectionSources.Store.Upsert` | services/controller/internal/db/collection_sources.go:110-154 | accepted if and only if type and spec are given, the cron line is empty or short and parses, and there is an id; the error of the first check that fails; a new row without runs, an existing row with only its settings changed |
| `CollectionSources.Store.ReportRun` | services/controller/internal/db/collection_sources.go:215-268 | the row as reported; it succeeds if and only if the row is there and the report changes it |
| `CollectionSources.RepeatedReportChangesNothing` | services/controller/internal/db/collection_sources.go:236-268 | a report sent twice changes nothing the second time, so it is then refused |
| `CollectionSources.Store.Delete` | services/controller/internal/db/collection_sources.go:196-210 | the row gone, or not found |
| `Staleness.StaleIffOneInterval` | services/controller/internal/healthmetrics/refresher.go:209-227 | on reachable rows a source is stale if and only if its last success is more than one interval old; twice the interval never decides |
| `Staleness.StaleStays` | services/controller/internal/healthmetrics/refresher.go:209-227 | between reports a stale source stays stale |
| `Staleness.VerdictsDifferIff` | services/controller/internal/healthmetrics/refresher.go:157-190 | exactly when the gauge and the RPC disagree about a reachable row |
| `Staleness.VerdictsAre` | services/controller/internal/healthmetrics/refresher.go:157-227 | both verdicts on a reachable row, from its times and the clock |
| `Staleness.AgelessVerdicts` | services/controller/internal/healthmetrics/refresher.go:163-181 | the verdicts on disabled, unscheduled, unparsable and never successful sources |
| `Staleness.IntervalIs` | services/controller/internal/healthmetrics/refresher.go:199-207 | the interval is the time between the next two activations, or an hour if there are none |
| `Staleness.WithinOneSecond` | services/controller/internal/healthmetrics/refresher.go:275-295 | for whole-second intervals the disagreement is confined to the first second after a threshold |
| `Scheduler.ActivationBetween` | services/collector-github/main.go:86-119 | between two polled runs of a source lies an activation of its schedule |
| `Scheduler.PolledRunsBounded` | services/collector-github/main.go:75-97 | in any window polled runs are at most one more than activations |
| `Scheduler.NeverPolled` | services/collector-github/main.go:99-112 | a source without a cron line is never started by the poller |
| `Scheduler.PollTick` | services/collector-github/main.go:86-97 | a tick starts exactly the enabled, due sources, in order |
| `Scheduler.ExhaustedIsAlwaysDue` | services/collector-github/main.go:114-119 | a schedule that is never active again leaves its source due at every tick |
| `Scheduler.AlwaysDueIff` | services/collector-github/main.go:103-119 | every tick finds the source due if and only if the schedule answered with a time before the first millisecond of 1970 |
| `Scheduler.DueAgainIff` | services/collector-github/main.go:103-119 | a scheduled source is due after a run if and only if the reported due time is none or has come |
| `Scheduler.ReportedDue` | services/collector-github/main.go:342-347 | what a run reports: its end, its outcome, and the next activation after its end, or after its beginning if it failed early |
| `Scheduler.DueAtFirst` | services/collector-github/main.go:103-112 | a source without a due time is due at once, if it has a cron line |
| `IssuePages.FetchIssues` | services/collector-github/issues.go:56-155 | over any chain of pages in which each request is the cursor of the page before, else its page number, the loop gives the first 500 non-nil issues of all its pages that are no pull requests, and fails if and only if a request fails before those are reached |
| `IssuePages.AppendCapped` | services/collector-github/issues.go:109-118 | the inner loop appends the issues of one page up to the cap |
| `IssuePages.ChainIsEverything` | services/collector-github/issues.go:122-145 | over such a chain the plain list is all the issues of its pages, in order |
| `IssuePages.ChainExists` | services/collector-github/issues.go:122-145 | every listing that ends is such a chain |
| `IssuePages.CappedIffFull` | services/collector-github/issues.go:109-121 | capped if and only if 500 were returned; uncapped means complete |
| `IssuePages.EnoughIsEnough` | services/collector-github/issues.go:132-145 | the plain list does not depend on the bound on the number of requests |
| `Packages.LoadNamespacePackages` | services/collector-github/packages.go:291-304 | over any pages of the six types, by number, the first 100 packages of all of them in order; a failure shows if and only if it comes before those |
| `Packages.LoadOfType` | services/collector-github/packages.go:268-281 | a prefix of the type's list, all of it or at least as long as the limit |
| `Packages.AllTypesAre` | services/collector-github/packages.go:268-304 | the plain list is the pages of the types, joined, up to the first failure |
| `Packages.NamespaceIs` | services/collector-github/packages.go:306-315 | the namespace of a repository: its owner, else what stands before the first slash of its name |
| `Packages.PathIs` | services/collector-github/packages.go:108-114 | organizations are listed under orgs, anyone else under users |
| `Packages.SummariesAre` | services/collector-github/packages.go:97-106 | exactly the packages said to belong to the repository are summarised, each by its own data and latest version |
| `Packages.SummariesInOrder` | services/collector-github/packages.go:342-391 | in the order of the packages |
| `Packages.SummariesUnless` | services/collector-github/packages.go:363-372 | there are none if and only if the versions of one of them cannot be had |
| `Packages.VersionsAskedFor` | services/collector-github/packages.go:223-229 | versions are asked for under the owner of the package, else of the namespace |
| `Packages.FetchAll` | services/collector-github/packages.go:393-406 | over a whole run the shared cache changes no result, and no summary is ever marked capped |
| `Packages.PackageCollector.FetchPackages` | services/collector-github/packages.go:393-406 | the result without cache and without a cap on summaries |
| `Packages.PackageCollector.NamespacePackages` | services/collector-github/packages.go:317-339 | what a fresh listing gives, entered under the namespace key |
| `Packages.KeysAgreeIffPaths` | services/collector-github/packages.go:84-114 | two repositories share a cache entry if and only if their listing paths agree up to case |
| `Packages.Summarise` | services/collector-github/packages.go:342-391 | for any list: failure, the complete summaries, or the first 100 with a further package of the repository left |
| `Packages.LatestIsNewest` | services/collector-github/packages.go:179-196 | the version chosen is named, newer than all named before it and as new as all named after |
| `Packages.LatestPackageVersion` | services/collector-github/packages.go:183-196 | the loop computes that choice |
| `YamlStore.SnapshotIntegrity` | services/persister-yaml/store.go:83-108 | after any run of writes, crashes and syncs every YAML file is one whole document that belongs at its path, the one last renamed there, and so was every YAML file of every commit |
| `YamlStore.CommittedTextStays` | services/persister-yaml/git_commit.go:129-178 | a file that git tracks keeps the text it was first added with in every later commit, however often it is rewritten |
| `YamlStore.CommittedCurrentIff` | services/persister-yaml/git_commit.go:129-178 | what git and every commit since have of a file is what the file holds if and only if the last message written to it by now has the body of the last one written to it when it was added |
| `YamlStore.StaleCommit` | services/persister-yaml/git_commit.go:157-178 | a run that leaves a stale commit: written, committed, written again with another body |
| `YamlStore.StepKeeps` | services/persister-yaml/store.go:83-108 | each step keeps that |
| `YamlStore.FinalIsNotTemp` | services/persister-yaml/store.go:98-106 | no entity's file is another's temporary file, and temporary files are never chosen for a commit |
| `YamlStore.Store.WriteEntityLocked` | services/persister-yaml/store.go:83-108 | a path if and only if the envelope is right, the entity has a path, everything but its structure can be marshalled, and nothing fails; the file then holds just that, all other YAML files are untouched; its effect is a run of the step machine |
| `YamlStore.WriteSteps` | services/persister-yaml/store.go:98-106 | the three steps of a write give the final files on each outcome |
| `YamlStore.SameFileIff` | services/persister-yaml/store.go:47-57 | two entities share a file if and only if their trimmed types and their file names agree |
| `YamlStore.NamedIff` | services/persister-yaml/store.go:34-45 | an entity can be named if and only if its id (or its hash, if the id is blank) holds a letter or digit |
| `YamlStore.NameShape` | services/persister-yaml/store.go:34-45 | a file name has safe characters only, starts with a letter or digit and ends in .yaml |
| `YamlStore.GapBecomesOne` | services/persister-yaml/store.go:15-40 | a gap of unsafe characters of any length becomes one underscore |
| `YamlStore.CharClasses` | services/persister-yaml/store.go:15-40 | which characters are safe, and which are trimmed at the ends |
| `YamlStore.HashOnlyWhenBlank` | services/persister-yaml/store.go:34-40 | the hash names the file only if the id is blank, the id alone does otherwise |
| `YamlStore.PathIs` | services/persister-yaml/store.go:47-57 | the path is the root, the trimmed type and the file name |
| `YamlStore.CleanIdsKeptApart` | services/persister-yaml/store.go:34-45 | ids of safe characters that begin and end with a letter or digit keep their text, so they never share a file |
| `YamlStore.KeepsTextIff` | services/persister-yaml/store.go:34-45 | an id keeps its text if and only if it is such an id |
| `YamlStore.SharesWithStem` | services/persister-yaml/store.go:34-45 | every other id that can be named shares its file with such an id, its own stem |
| `YamlStore.NamesCollide` | services/persister-yaml/store.go:15-45 | two different ids with one file name |
| `YamlStore.ListUntrackedYaml` | services/persister-yaml/git_commit.go:157-178 | the loop over git's output keeps exactly the non-blank lines with a YAML suffix, in order |
| `YamlStore.TakesTheYamlFiles` | services/persister-yaml/git_commit.go:157-178 | from what git prints for a list of names exactly the YAML files among them are taken |
| `YamlStore.YamlNames` | services/persister-yaml/git_commit.go:173-175 | the files to commit are those whose names end in one of the two suffixes |
| `ControllerHistory.ShowsMostRecent` | frontend/src/api/controllerClient.ts:108-127 | after any run of persists the client shows the five most recent distinct normalised addresses since the last clear, newest first |
| `ControllerHistory.ShownAtOnceIff` | frontend/src/api/controllerClient.ts:108-136 | the condition on the addresses is needed: a first address is shown as stored if and only if it ended clean |
| `ControllerHistory.CutOnceOrTwice` | frontend/src/api/controllerClient.ts:125-126 | truncating before putting an address in front is truncating afterwards |
| `ControllerHistory.RecentIsByLastUse` | frontend/src/api/controllerClient.ts:125-126 | the reference list is ordered by last use |
| `ControllerHistory.RecentHolds` | frontend/src/api/controllerClient.ts:125-126 | it has no repetitions and exactly the addresses of the history |
| `ControllerHistory.ReadUndoesWrite` | frontend/src/api/controllerClient.ts:34-68 | reading undoes writing for at most five distinct stable addresses |
| `ControllerHistory.NormalizeTwiceIff` | frontend/src/api/controllerClient.ts:130-136 | normalising twice is normalising once if and only if the stripped address does not end in white space |
| `ControllerHistory.NormalizeKeepsOrAdds` | frontend/src/api/controllerClient.ts:130-136 | an address with either scheme, in any case, or with a slash in front is kept; any other gets the plain scheme |
| `ControllerHistory.NormalizeStrips` | frontend/src/api/controllerClient.ts:130-131 | white space around and slashes at the end do not matter |
| `ControllerHistory.BlankClears` | frontend/src/api/controllerClient.ts:108-118 | no address, or a blank one, clears everything |
| `ControllerHistory.ReadHolds` | frontend/src/api/controllerClient.ts:34-59 | what is read of an array: normal forms of its strings, none twice, all of them if there are fewer than five |
| `ControllerHistory.NoInnerSpaceEndsClean` | frontend/src/api/controllerClient.ts:130-136 | addresses without inner white space meet that condition |
| `ControllerHistory.BlankBeforeSlash` | frontend/src/api/controllerClient.ts:130-136 | an address that does not |
| `ControllerHistory.LegacyCountsAsFirst` | frontend/src/api/controllerClient.ts:70-98 | a legacy session address counts as persisted before the first one |
| `ControllerHistory.LegacyKeptIff` | frontend/src/api/controllerClient.ts:70-98 | a legacy address survives its migration if and only if local storage takes it and it ends clean |
| `ControllerHistory.LegacyLostOnRefusedWrite` | frontend/src/api/controllerClient.ts:70-92 | it is lost if local storage refuses the migrating write |
| `ControllerHistory.HistoryStore.ReadRawHistory` | frontend/src/api/controllerClient.ts:34-59 | the first five distinct normal forms of the stored array |
| `ControllerHistory.HistoryStore.ReadStored` | frontend/src/api/controllerClient.ts:70-98 | the stored list, else the legacy address, and the storage after the migration |
| `ControllerHistory.HistoryStore.WriteHistory` | frontend/src/api/controllerClient.ts:61-68 | the stored array cut to five, nothing for an empty list, no change when refused |
| `ControllerHistory.HistoryStore.Persist` | frontend/src/api/controllerClient.ts:108-127 | the storage after persisting or clearing, whether or not writes are refused |

## Left out

- HTTP, GitHub, MySQL driver, RabbitMQ library, file system and git processes: their answers are parameters. The broker is assumed to redeliver in order, pages to form finite chains, activations of a schedule to lie in the future.
- SHA-256, Unicode normalisation, JSON, YAML, RFC 3339 and cron parsing: abstract values or functions; parsing a stored time is assumed to undo formatting it.
- Text beyond ASCII: case folding, white space and letters are those of ASCII.
- MySQL type coercion, identifier length limits, collation of names, and the columns created_at and updated_at: not part of the database value. A failed statement either took effect or did not; the server's own partial effects are not modelled.
- Several persister replicas: the table mutex is one process's, and only one process is modelled.
- MySqlPersister.Persister.EnsureTable: for fields that clash on an existing table, or when the server fails, which of the columns asked for have been added depends on the order of a Go map; it is stated that no others are.
- EntityQueue.ReplayConverges: one consumer and one queue, with messages handled one at a time. After a failure the columns may be more, and of other types, than those of one pass; only rows and cells are compared then.
- SchemaRace.NoStatementFails: a handler whose fields clash, which fails by design, is not among the handlers. A statement is over when its handler ends: one that the server still runs after the handler gave up the mutex (a cancelled ALTER) could make the next handler's ALTER fail on a duplicate column.
- IssueSync.RunAgrees: no deletions of issues; listings are complete (IssueSync.CutOffAgreesIff says what holds of one cut off) and changes are stamped no earlier than two minutes before the marker; every issue has a key and can be marshalled.
- IssueCache.RefreshMarker: an entry under the empty key could hide a newer one; merging never creates such an entry, so the property is conditional on there being none.
- AmqpClient.Client.ConsumeLoop: the session of one turn runs to its end before the next operation of the class; other goroutines acting meanwhile are covered by the event runs of AmqpClient.RunSound. Control-event consumers, which settle the same way, and logging are left out.
- Throttle.ThrottleBound: the gap is positive, as the source's constant is.
- ActivityRing.Ring.RecordHeartbeat: the summary sentences of events are parameters.
- Staleness.VerdictsDifferIff: the gauge's age is exact; rounding of its floating-point seconds is not modelled, and entity freshness ages are left out.
- Scheduler.ActivationBetween: reports reach the controller, runs of one source do not overlap, its settings stay and its cron line parses.
- CollectionSources.Store.Upsert: the server's uniqueness and length limits on columns, and statement failures.
- Packages.FetchAll: answers of a namespace do not change during one run and do not depend on the case of its name. The truncation to fifty packages in the entity and the choice of the newest package of a repository are easy additions.
- YamlStore.SnapshotIntegrity: power loss and missing fsync, files put into the directory or the git index by hand, and names that git prints in quotes (such lines have no YAML suffix, so those files are never committed). A commit is the whole index; the push is left out.
- ControllerHistory.ShowsMostRecent: addresses ending clean only; JSON text, and browsers whose storage refuses reads.
- Entity field mapping, dependabot and pull request collection, other collectors, MCP and Connect handlers, views, metrics and configuration: long but simple.
