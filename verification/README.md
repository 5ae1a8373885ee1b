# Verified model of grab-redis

This project models, in Dafny, the parts of the grab-redis connector that hold an algorithm or a
protocol, and proves what they promise. To verify it, run `dafny verify dfyconfig.toml`.

* **Struct specs and the hash codec** (`Texts`, `StructSpec`, `ShadowedNames`, `SpecBuilder`, `SpecCache`,
  `Numerals`, `Convert`, `StructCodec`, `ScanOutcome`, `ScanSlice`). Go struct types are finite trees; a field is reached by a path of
  field numbers. `SpecBuilder` walks the tree as the source does, with tables updated in place and
  index prefixes that may share one backing array. `StructSpec` says what the tables must be, as
  the selector rule of The Go Programming Language Specification applied to tag names, and as a
  declarative list of survivors. On top of that, flattening a struct and scanning it back, and
  scanning a reply into a slice of structs. `SpecCache` is the cache in front, as a step system of
  goroutines.
* **Hot reload** (`Addresses`, `Config`, `HotReload`). A live client changed field by field is
  compared with a client built from scratch.
* **Load-test clients** (`Connector`, `ConnectorRuns`). Reconciliation of the listed clients with new
  configurations, and what becomes of every client ever created.
* **Dual writes** (`Scheduler`, `SchedulerRuns`, `Latencies`, `LatencyRuns`). Producers, a bounded channel, a
  ticking dispatcher and its workers as a step system; the latency ring run sequentially as a class, and concurrently as a
  step system.
* **Circuit breaker** (`CircuitBreaker`). The race between routine, breaker and context for one
  result, and the limiter that runs commands through it.

Clients, tasks, workers and callers carry numbers of their own, so that "the same client" or "once"
can be said. Ticks, idle timeouts, cancellation and failures of client construction are
nondeterministic: a claim about runs holds whatever they do.

## What turned out to fail

* The list of a struct spec may name a field twice: a deeper field visited before the shallower one
  that shadows it stays listed. The hash round trip then loses the shadowed field.
  `RoundTripIffNoShadowing` has the exact condition on the type, `ShadowedFlagIsLost` an example.
* The worker limit is exceeded when a tick launches workers faster than they count themselves.
  `WorkersBounded` is the bound with the lag in it, `BoundIsAttained` attains it for every limit and
  every lag, and by `LimitHoldsIff` the limit alone holds for no scheduler that can run a task.
* A single-host client stays connected to the address it was built with, and a master/slave group
  keeps its master, while the configuration's address list gets sorted; and the TLS flag is never
  reloaded. So after reloads a client need not match a fresh one:
  `SingleRunRefinesConstruction` and `ClusterRunRefinesConstruction` have the conditions,
  `SingleHostStays` and `MasterStays` examples.
* Sorting changes the name of a single-host client that does not name its least address first, and
  the next reload of the same configuration replaces the client: `PermutationKeepsClients` has the
  condition, `SameConfigTwice` an example. It also makes the least address the master of a group that
  a reload creates: `CreatedMasterIsLeast`.
* A user error handler that calls an error a threat and returns nil for it leaves the caller without
  a result: `DeliveredIffThreatsTracked`. A fallback that returns nil for a timeout can block a send
  forever: `StuckIffFallbackHidesTimeout`.
* Until every cell of the ring has been stored, an `Average` that starts with a cell in view whose
  `Add` stalls can be below every sample: `StalledAddIsReadAsZero`. `InRangeIffSamples` has the exact
  condition, and by `FullRingAverages` it holds from then on. A stalled `Add` can overwrite a newer
  sample at any time: `StalledAddOverwritesNewer`.
* A connector reload that fails, for instance because the context is done, leaves clients it created
  that nobody ever shuts down: `FailureOrphans`. They are the orphans of `ShutDownOnceOrOrphan`;
  `OrphansAreOfFailures` says there are no others, and `OrphansOfFailure` when there are any.
* The check against the main client's addresses does not reach created clients:
  `OnlyCreatedShareMain`, and `CreatedSharesMain` for an example.
* The scheduler replaces a negative worker number or channel size in the options it shares with the
  connector, which from then on refuses every hot reload with that configuration:
  `OwnConfigPassesIff`, `NegativeSizeRefusesReload`.

The table of settings in the repository's README gives 10000 as the default number of workers and 10
as the default channel size; `constants.go` has it the other way round. The code is followed.

## Model

| member | source | states |
|---|---|---|
| StructSpec.SelectorRule | redisapi/scan.go:337-360 | For every type, a name is in the name table exactly when a single leaf of that name is at the least depth, and the entry is that leaf with its own path |
| StructSpec.TablesHoldWinners | redisapi/scan.go:341-360 | After any leaf sequence the name table has exactly the unique shallowest leaf of each name |
| StructSpec.VisitKeepsDepth | redisapi/scan.go:337-340 | The depth table holds, for each name seen below depth 2^30, the least depth at which it occurs, and no other name |
| StructSpec.LeavesSound | redisapi/scan.go:306-330 | Every leaf the walk reaches is a leaf of the type at the path stored for it |
| StructSpec.LeavesComplete | redisapi/scan.go:306-330 | Every leaf of the type is reached by the walk |
| StructSpec.LeavesInOrder | redisapi/scan.go:306-316 | The walk reaches leaves in depth-first field order |
| StructSpec.ListIsSurvivors | redisapi/scan.go:345-359 | The list is exactly the leaves that were strictly shallower than all earlier ones of their name and were not erased by a later tie, in order |
| StructSpec.ListAgainstTable | redisapi/scan.go:341-359 | Entries of one name have strictly decreasing depth, the last is the one in the name table, and a name outside the table has no entry |
| StructSpec.ListedPathsReachTheirLeaves | redisapi/scan.go:353-359 | Any two entries lead to their own leaves, are in depth-first order, and neither path is a prefix of the other |
| StructSpec.ListedEntryIsLeaf | redisapi/scan.go:353-359 | Every listed entry is the leaf its path leads to and its name is in the table |
| StructSpec.WithoutPair | redisapi/scan.go:345-352 | Compaction is a stable filter: any two kept entries were in the list in the same order |
| StructSpec.WithoutKeeps | redisapi/scan.go:345-352 | Compaction keeps every entry of another name |
| FieldOrder.ReorderingKeepsNames | redisapi/scan.go:305-363 | Reordering fields at any level changes neither the key set of the name table nor whether compiling panics |
| GoTypes.LeafPathsPrefixFree | redisapi/scan.go:353-359 | No leaf lies below another leaf of the same type |
| Texts.SplitParts | redisapi/scan.go:320 | The parts of a tag hold no comma, and joined with commas they are the tag again |
| Texts.SplitJoined | redisapi/scan.go:320 | Splitting a joined text gives back its parts, for any parts without a comma |
| GoTypes.RoleFromParts | redisapi/scan.go:318-336 | From the tag text, for a field that is exported and not embedded: the first part `-` ignores it; otherwise an option that is not omitempty panics, and else the name is the first part, or the field's own when that is empty, with omitempty exactly when there is an option |
| GoTypes.TaggedRole | redisapi/scan.go:318-336 | In particular a name followed by any number of omitempty options gives that name, with omitempty exactly when there is one |
| GoTypes.EveryTagHasParts | redisapi/scan.go:320 | Every tag is a first part and options without commas, so that no tag is left undecided |
| GoTypes.UntaggedRoles | redisapi/scan.go:308-316 | An embedded struct is walked and any other embedded field ignored, exported or not; other unexported fields are ignored |
| StructSpec.TaggedFieldIsFound | redisapi/scan.go:323-359 | A field of the type itself is found in the compiled table under the name in its tag, with its own position, when no other field of the type itself has that name |
| SpecBuilder.Append | redisapi/scan.go:315 | Appending to a slice gives its contents plus one element and leaves the slice itself as it was, whether or not the backing array is shared |
| SpecBuilder.Builder.constructor | redisapi/scan.go:386-387 | A compile starts from empty tables |
| SpecBuilder.Builder.Compact | redisapi/scan.go:345-352 | The in-place loop leaves the list without one name |
| SpecBuilder.Builder.Enter | redisapi/scan.go:337-360 | One leaf changes depth table, name table and list as the declarative visit says |
| SpecBuilder.ReadTag | redisapi/scan.go:318-336 | Reading the tag yields the role of the field: ignored, a leaf with its effective name, or a panic |
| SpecBuilder.Builder.CompileField | redisapi/scan.go:307-361 | One field, embedded struct or leaf, visits exactly its leaves and keeps the prefix it was given |
| SpecBuilder.Builder.Compile | redisapi/scan.go:305-363 | Although sibling walks may overwrite a shared backing array, the tables end as if each leaf had been visited with a private path |
| FieldOrder.BadTagIsListBad | redisapi/scan.go:328-334 | The walk panics exactly when some reachable field has an unknown tag option |
| SpecBuilder.CompileType | redisapi/scan.go:386-388 | A compile panics exactly on a bad tag and otherwise ends with the tables the lemmas speak of |
| SpecCache.CacheIsTransparent | redisapi/scan.go:370-390 | In every interleaving each returned spec is a fresh compile, each type is compiled successfully at most once, and a panicking compile publishes nothing |
| SpecCache.InvKept | redisapi/scan.go:370-390 | Every step of every goroutine keeps the lock, caller and cache invariants |
| SpecCache.NoLookupDuringWrite | redisapi/scan.go:372-389 | No lookup happens while another goroutine is in the write section |
| SpecCache.PublishedEntryStays | redisapi/scan.go:388 | A published entry is never changed or removed later in the run |
| SpecCache.PublishedMeansNoWriting | redisapi/scan.go:372-377 | Whoever asks for a type after it was published finds it at the first lookup, and never locks for writing, compiles or panics |
| SpecCache.NoDeadlock | redisapi/scan.go:370-390 | As long as some caller has no answer, some caller can go on |
| GoValues.GetAfterSet | redisapi/scan.go:437 | A field written through its path reads back |
| GoValues.GetAfterOtherSet | redisapi/scan.go:437 | A write leaves every field whose path is not nested with it unchanged |
| Decimal.ParsePrintedInt | redisapi/scan.go:69-72 | Signed decimal text of a number that fits parses to that number |
| Decimal.ParsePrintedUint | redisapi/scan.go:73-76 | Unsigned decimal text of a number that fits parses to that number |
| Decimal.ParseDigitsInRange | redisapi/scan.go:69-76 | Whatever the text, the number stored is in range, and an overflow stores the largest |
| Numerals.IntTexts | redisapi/scan.go:69-72 | A text is read without error exactly when it is an optional sign and digits and its number fits; too large or too small a number gives the nearest that fits, any other text a syntax error, unless its leading digits overflow first |
| Numerals.UintTexts | redisapi/scan.go:73-76 | The same without signs |
| Numerals.BoolTexts | redisapi/scan.go:81-84 | Six texts are true, six are false, and every other is an error |
| Convert.IntTextAccepted | redisapi/scan.go:69-72 | For every text and width: accepted exactly for a numeral whose number fits, and then stored; what is stored otherwise |
| Convert.UintTextAccepted | redisapi/scan.go:73-76 | The same for unsigned destinations |
| Convert.OtherTextAccepted | redisapi/scan.go:63-93 | Texts into booleans, strings, bytes and floats, and the kinds that take none |
| Convert.StringsConvert | redisapi/scan.go:63-125 | A simple string converts as a bulk string with the same text does |
| Convert.NeverConverts | redisapi/scan.go:63-125 | An array reply converts into no field, and no reply into a struct; the field keeps its value |
| Convert.TruncateSignedExact | redisapi/scan.go:129-134 | Truncating to a signed width and reading back is the identity exactly on the numbers that fit |
| Convert.TruncateUnsignedExact | redisapi/scan.go:139-144 | The same for unsigned widths |
| GoValues.WidthRange | redisapi/scan.go:127-152 | What fits in 8, 16, 32 and 64 bits, signed and unsigned, by the numbers |
| Convert.ConvertIntExact | redisapi/scan.go:127-152 | An integer reply is accepted exactly when it fits and then stored; on overflow 0 is stored, and a negative into unsigned changes nothing |
| Convert.FastPathsAgree | redisapi/scan.go:181-238 | The shortcuts for *int, *bool, *string and *[]byte, from bulk strings, integers and simple strings, agree with the reflective path on value and success |
| StructCodec.FlattenStruct | redisapi/args.go:91-118 | The loop appends a name and a value for every listed field that is not omitted, in list order, to the arguments given |
| StructCodec.FlattenedAt | redisapi/args.go:91-118 | A field that is not both marked omitempty and empty stands in the arguments at the position given by how many fields before it do: its name and then its value |
| StructCodec.FlattenedLength | redisapi/args.go:91-118 | And nothing else is there |
| StructCodec.EmptyMeansZero | redisapi/args.go:95-114 | What omitempty calls empty is exactly what has the content of the zero value, and never a struct |
| StructCodec.TextReadsBack | redisapi/scan.go:63-93 | The text of any value, read by the converter for its type, restores the value |
| StructCodec.TextSent | redisapi/args.go:91-118 | What travels for a value is the shortest numeral of its number, 1 or 0, or the bytes themselves |
| StructCodec.WireIsEncoded | redisapi/args.go:91-118 | The arguments, sent as bulk strings, are a name and a text for each field that is not omitted |
| StructCodec.StructCell.Scan | redisapi/scan.go:420-441 | The loop refines the pairwise scan: same value, same error at the same place; an odd length changes nothing |
| ScanOutcome.ScanSucceeds | redisapi/scan.go:424-440 | When no pair with a value has a key that is no bulk string, and every value of a name in the table converts, there is no error, and every field of the table holds the conversion of the last pair of its name, or its prior value when there is none; pairs that are nil or of unknown name change nothing |
| ScanOutcome.ScanStopsAtFirst | redisapi/scan.go:425-439 | Otherwise the error is that of the least pair in trouble, with its position or field; the pairs before it have written as above and none after it has |
| ScanOutcome.WriterOrNone | redisapi/scan.go:424-440 | For every name either some pair is the last to write it or none writes it |
| StructCodec.ScanWritesOnlyTableFields | redisapi/scan.go:424-440 | Whatever is scanned, a field not nested with a field of the name table keeps its value |
| StructCodec.CompiledTablesAreGood | redisapi/scan.go:305-363 | Compiled tables always lead to fields that exist, never overlap, and refer to each other |
| StructCodec.RoundTripRestores | redisapi/args.go:91-118 | With each name listed once, flattening, sending and scanning into a zero struct restores every listed field, omitted ones included, and touches no other |
| StructCodec.ShadowedFieldIsLost | redisapi/scan.go:353-359 | A listed field whose name is listed again comes back zero whatever was sent |
| ShadowedNames.UniqueIffNoShadowing | redisapi/scan.go:337-360 | The list names no field twice exactly when no field of the type, selected by its name, is declared after one that was selected until then |
| ShadowedNames.ShadowedIsListedTwice | redisapi/scan.go:353-359 | struct { E; X bool } with E struct { X bool } embedded: its list names X twice |
| StructCodec.RoundTripIffNoShadowing | redisapi/args.go:91-118 | For scalar fields, every value survives the round trip exactly when the type has no such pair of fields |
| StructCodec.ShadowedFlagIsLost | redisapi/scan.go:353-359 | That struct with both flags set comes back with the embedded one false |
| ScanSlice.SelectFields | redisapi/scan.go:484-498 | The columns are the compiled list or the named fields in the order asked for; the errors are raised exactly for an unknown name and for no columns |
| ScanSlice.ScanCell | redisapi/scan.go:514-522 | One cell stores what its reply converts to and reports exactly the replies that do not convert |
| ScanSlice.ScanRow | redisapi/scan.go:514-522 | A row stops at its first cell that does not convert, with all earlier cells stored |
| ScanSlice.StructSlice.EnsureLen | redisapi/scan.go:38-44 | Reallocates to zero values exactly when the capacity is too small; otherwise every element is kept |
| ScanSlice.StructSlice.FillRows | redisapi/scan.go:506-523 | Rows are filled in order up to the first cell that does not convert; elements beyond the length are kept |
| ScanSlice.StructSlice.Scan | redisapi/scan.go:500-524 | The length error is raised exactly when the reply is not a whole number of rows and changes nothing; the position in a conversion error is that of the first bad cell |
| ScanSlice.RowCell | redisapi/scan.go:514-522 | Each column of a partly scanned row holds its own reply or its prior value |
| ScanSlice.GridCell | redisapi/scan.go:506-523 | Cell (e, c) of the grid holds what its own reply converts to, or the prior value when the reply is nil or comes after the error |
| ScanSlice.RowsOkMeans | redisapi/scan.go:506-523 | The rows before a position are in order exactly when each of their cells is |
| ScanSlice.CellOkMeans | redisapi/scan.go:514-522 | A cell is in order exactly when its reply is nil or converts, whatever the field held |
| ScanSlice.RowLeavesOtherFields | redisapi/scan.go:514-522 | Fields outside the columns keep their values |
| ScanSlice.ColumnsDistinct | redisapi/scan.go:484-494 | The compiled list, and any distinct names asked for, give columns that do not overlap |
| ScanSlice.PointerSlice.FillElement | redisapi/scan.go:507-522 | A nil element is replaced by a new struct, any other pointer is kept, and only that element changes |
| ScanSlice.PointerSlice.FillRows | redisapi/scan.go:506-523 | With distinct pointers the grid is filled as for structs, and elements after the error keep pointer and contents |
| Latencies.Ring.constructor | latencies.go:41-46 | A new ring has no samples |
| Latencies.Ring.Add | latencies.go:48-57 | Adds one sample to the history the ring stands for |
| Latencies.Ring.Average | latencies.go:59-82 | The mean of exactly the last min(k, N) samples after any number of samples, 0 before the first; the total is kept in 64 bits |
| Latencies.RingHolds | latencies.go:49-53 | Each of the last N samples is in the slot of its index modulo N |
| Latencies.RingBeforeWrap | latencies.go:49-53 | Until it wraps the ring is the samples in order followed by zeros |
| Latencies.RingSum | latencies.go:62-79 | The visible cells sum to the visible window of the history, at every wraparound |
| Latencies.BoundedSamplesAverageExactly | latencies.go:60-81 | The 64-bit total is exact whenever N times the largest sample fits |
| LatencyRace.NextKeepsInv | latencies.go:48-82 | Every atomic step of concurrent Adds and Averages keeps the invariant |
| LatencyRace.ConcurrentAverages | latencies.go:48-82 | In every run index + 1 - added is the number of Adds in flight, and every Average lies between 0 and the largest sample |
| LatencyRace.StaysSolid | latencies.go:59-79 | An Average that starts with samples in all the cells it will read reads only samples, whatever Adds begin while it reads |
| LatencyRace.UndisturbedAverage | latencies.go:59-82 | The result such an Average returns lies between the smallest and the largest sample |
| LatencyRace.NoneClaimedMeansSamples | latencies.go:49-56 | The visible cells hold samples whenever no Add in flight on one of them has yet to store |
| LatencyRace.CellStaysSample | latencies.go:53 | A cell that holds a sample holds one in every later state of the run |
| LatencyRace.FullRingAverages | latencies.go:59-82 | Once every cell has been stored, every later Average is within the samples, whatever is in flight |
| LatencyRuns.CanFallBelow | latencies.go:48-82 | From every state with a visible cell that holds no sample, a run goes on in which the Average that starts there returns less than every sample |
| LatencyRuns.InRangeIffSamples | latencies.go:48-82 | An Average about to start is sure to be within the samples exactly when every cell it will read holds one already |
| LatencyRuns.StalledAddIsReadAsZero | latencies.go:48-82 | For every ring of at least two cells and every sample v, a run in which the Average is 0 and every sample is v |
| LatencyRuns.StalledAddOverwritesNewer | latencies.go:52-53 | For every ring of n cells, a run of n + 1 Adds after which, with nothing in flight, the oldest sample is there and the newest overwritten |
| Scheduler.RunKeepsCounts | scheduler.go:69-91 | In every interleaving the wait group counts launched and live workers, and the worker counter live ones and those past Done |
| Scheduler.CloseIsSafe | scheduler.go:97-119 | Once the channel is closed no worker is starting, receiving or being added, and none ever received from the closed channel |
| Scheduler.ClosedForGood | scheduler.go:111-119 | After the close, however the run continues, no worker is started and nothing left in the channel runs |
| Scheduler.WorkersBounded | scheduler.go:105-114 | With at most p uncounted workers at each check, counted and uncounted workers never exceed the limit plus p |
| Scheduler.BoundIsAttained | scheduler.go:111-114 | For every limit and every lag p there is a run that keeps to lag p and ends with limit + p workers counted, in which no task has run yet and every tick reads latency zero |
| Scheduler.LimitHoldsIff | scheduler.go:69-71 | The limit alone holds in every run only for a scheduler that can have no worker or no task, so for none that newScheduler builds |
| Scheduler.NeedIsCeiling | scheduler.go:105-109 | The workers asked for are the least number that covers the backlog times the latency, one while no latency is known, and always at least one |
| Scheduler.TickAsks | scheduler.go:99-109 | A tick starts only with tasks in the channel and asks for the workers that they need |
| SchedulerRuns.TickLaunches | scheduler.go:99-114 | A tick goes on launching, whatever happens meanwhile, exactly while it has launched fewer workers than what it found in the channel needs and fewer are counted than the limit |
| SchedulerRuns.LeftFromSelect | scheduler.go:76-90 | A worker ends only from its select, with no function in hand |
| SchedulerRuns.QueuedCanRun | scheduler.go:69-114 | Until the context is cancelled, from every reachable state the run can go on so that any task in the channel, and all before it, are run |
| SchedulerRuns.ServesFirst | connector.go:186-194 | An idle worker can run the first task of the channel, or skip it once the context is cancelled: cancelling does not stop the channel from being served |
| SchedulerRuns.CanClose | scheduler.go:115-118 | From every reachable state the run can go on to the close of the channel: nothing can block the shutdown for good |
| Scheduler.ClosesAfterCancel | scheduler.go:115-118 | The dispatcher waits for workers and closes the channel only after the context was cancelled |
| Scheduler.RunKeepsTasks | connector.go:183-214 | In every run the channel is first in first out, no task is held twice, and each task is where its fate says |
| Scheduler.TasksAreConserved | connector.go:183-214 | Offered = accepted + dropped + waiting + sent too late; accepted = queued + held + run + skipped; tasks leave in order and run at most once |
| Scheduler.DroppedWasOfferedUnblocked | connector.go:183-214 | For every task dropped in a run there are two events of the run: its offer, with the flag off then, and later its drop, with the channel full then |
| Scheduler.BlockingOfferIsNeverDropped | connector.go:185-196 | A task offered while the flag is on is never dropped, whatever becomes of the flag afterwards |
| Scheduler.FlagIsParity | connector.go:128 | The flag is on exactly after an odd number of reloads that changed it |
| Scheduler.SkippedAfterCancel | connector.go:186-194 | A task is skipped only by the worker that took it, coming to it after the context was cancelled |
| Scheduler.CalledBeforeCancel | connector.go:186-194 | A task is called only by the worker that took it, coming to it before |
| Scheduler.OfferedIsAcceptedOrDropped | connector.go:183-214 | When nobody sends after the close, every offered task is accepted, dropped, or still waiting with its producer |
| Addresses.Sort | config.go:159 | Sorting yields an ordered list with the same elements equally often |
| Addresses.SortedIsUnique | config.go:369-376 | Two ordered lists with the same elements are the same list |
| Addresses.LeqIsLexicographic | config.go:159 | The order is that of the first place where two addresses differ, a prefix coming first |
| Texts.JoinTellsApart | config.go:160 | Lists of addresses without commas join to the same text only when they are the same list |
| Addresses.SortsAlike | config.go:364-379 | Two address lists sort alike exactly when they hold the same addresses equally often |
| Config.IsAddrsEquals | config.go:364-379 | True exactly for equal multisets of addresses; both slices are left sorted when the lengths agree and untouched otherwise |
| Config.SameElements | config.go:372-378 | The comparison loop decides equality |
| Config.ClientConfig.Init | config.go:163-196 | Defaults replace exactly the unset settings |
| Config.Defaults | config.go:163-196 | Each default, by its number or text |
| Config.DefaultsLeaveTheRest | config.go:163-196 | All other settings stay |
| Config.InitialisedSettings | config.go:163-212 | Initialising twice is initialising once, and then only an unknown client or read mode is refused |
| Config.ClientConfig.Name | config.go:150-161 | Reading the name does not change the name, though it sorts the addresses of all but single-host clients |
| Config.NamesTellAddresses | config.go:150-161 | Two settings for several nodes, with addresses that hold no comma, have the same name exactly when they have the same addresses equally often |
| Config.OtherNames | config.go:150-157 | Without addresses the name is the default address, and a single host is named by its first |
| Config.ClientConfig.ValidateReload | config.go:214-232 | Accepts exactly valid settings of the same mode and database and the same multiset of addresses; nothing but address order changes |
| Config.CanReloadMeans | config.go:163-232 | The same setting by setting, for the configuration as given: which modes, read modes and addresses are accepted |
| Config.RoutingFlags | config.go:277-286 | Each routing flag is on for exactly one read mode |
| Config.DurationIsExact | config.go:381-383 | A duration is the milliseconds times a million exactly when that fits in 64 bits |
| HotReload.ReloadCommon | cluster_wrapper.go:47-120 | Storing and setting only what differs makes settings and live options equal to the new ones |
| HotReload.ClusterWrapper.constructor | config.go:256-321 | A fresh client shows go-redis and the breakers its settings, each routing flag on for exactly its read mode, and in a master/slave group the first address for the master |
| HotReload.ClusterWrapper.LimitAll | cluster_wrapper.go:126-131 | Every node gets the limiter and the breaker settings; circuits of other nodes keep theirs |
| HotReload.ClusterWrapper.ReloadBreaker | cluster_wrapper.go:122-140 | Whatever was enabled before, limiters and enabled breaker settings afterwards are the new ones |
| HotReload.ClusterWrapper.ReloadRouting | cluster_wrapper.go:142-165 | Afterwards read-only holds exactly for reads from slaves, routing by latency exactly for that mode, and random routing exactly for that; redirects are the new ones |
| HotReload.ClusterWrapper.Reload | cluster_wrapper.go:41-168 | Accepted exactly when validation allows; the live client stays coupled to its settings, and its routing flags are those of the new read mode; a rejected reload changes no live option |
| HotReload.ClusterWrapper.LiveOptionsAre | config.go:256-304 | What a live client coupled to its settings does, option by option: every duration is its milliseconds times a million where that fits, and every other option its own setting |
| HotReload.RunFollowsLastAccepted | cluster_wrapper.go:41-168 | After any run of reloads the settings are those of the last accepted one, but for the order of addresses, the TLS flag and breaker settings while they are off, and the routing flags are those of its read mode |
| HotReload.ClusterRunRefinesConstruction | cluster_wrapper.go:41-168 | After any run of reloads whose last is accepted, go-redis sees what a fresh client for the last settings shows, exactly when the TLS flag is the original one and, in a master/slave group, the original first address still comes first |
| HotReload.MasterStays | config.go:306-321 | A group ["b","a"] reloaded with ["a","b"]: accepted, the live master stays b, a fresh client has a |
| HotReload.RejectedReloadIsInvisible | cluster_wrapper.go:42-45 | A rejected reload shows nothing new and changes nothing but address order |
| HotReload.SingleWrapper.constructor | config.go:323-362 | A fresh single-host client shows its settings and is bound to the first address |
| HotReload.SingleWrapper.ReloadBreaker | client_wrapper.go:120-134 | Limiter and enabled breaker settings afterwards are the new ones |
| HotReload.SingleWrapper.Reload | client_wrapper.go:39-137 | As for the cluster client, but redirects and read mode stay |
| HotReload.SingleWrapper.LiveOptionsAre | config.go:323-362 | As for the cluster client, option by option |
| HotReload.SingleRunRefinesConstruction | client_wrapper.go:39-137 | After any run of reloads whose last is accepted, the client matches a fresh one exactly when the TLS flag is the original one and the last settings put the original first address first |
| HotReload.SingleHostStays | client_wrapper.go:39-43 | A single host ["b","a"] reloaded with ["a","b"]: accepted, the live client stays at b, a fresh one connects to a |
| Connector.MatchedCounts | connector.go:142-171 | For each name a completed reload reuses min(old, new) clients, creates the missing ones and leaves over the surplus |
| Connector.KeptIffSameNames | connector.go:142-171 | A completed reload keeps exactly the clients there were when, and only when, the names wanted are the names they have, in any order |
| Connector.PermutationKeepsClients | connector.go:142-178 | Of two completed reloads, the second with the same configurations in any order, the second keeps the clients of the first exactly when every configuration that finds a client of its name listed, earlier entries served first, keeps its name under sorting |
| Connector.KeptIffReusedKeepNames | connector.go:142-178 | The same, in terms of the entries for which the first reload reused a client |
| Connector.ReusedPermutationKeepsClients | connector.go:142-178 | When the first reload created no client, that depends on the configurations alone |
| Connector.KeepsItsNameIff | config.go:150-161 | A configuration keeps its name exactly unless it is a single-host one that does not name its least address first |
| ConnectorRuns.SameConfigTwice | connector.go:142-178 | A single host ["b","a"] reloaded twice with its own configuration: the second reload shuts the client down and creates another |
| Connector.CreatedMasterIsLeast | connector.go:151-163 | A master/slave client that a reload creates has the least address for its master, since reading the name sorts first |
| Connector.ReusedAreKept | connector.go:151-170 | Reused clients, counted by the new list or by the old, have the same names |
| Connector.PoolPops | connector.go:153 | Taking the last client of a slot yields an unused old client of that name and leaves the others |
| Connector.EntryTakesLast | connector.go:151-153 | Each configuration takes the last listed client of its name that earlier ones left, and is given a new one only when they left none; `Connector.Reload` keeps to this order |
| Connector.LastListedAreReused | connector.go:151-178 | Of the clients of one name the last listed are reused and the first listed are left over, as many as are asked for |
| Connector.ListedNamesMatch | connector.go:148-171 | Every client a reload lists has, afterwards, the name its configuration has |
| Connector.ReloadMatchesAddresses | connector.go:142-171 | Among clients and configurations for several nodes: a configuration gets an old client only if that has exactly its addresses, one with new addresses gets a created client, and no client is rejected for its addresses |
| Connector.RefusalReasons | connector.go:154-161 | When a client asked for is refused for sharing the main addresses, when for its configuration, and when neither |
| Connector.GateReasons | connector.go:123-140 | When a reload does nothing, is refused for the scheduler, or is refused for the main client |
| Connector.NamesMatchAfterReload | connector.go:158 | An accepted reload leaves client and configuration with the same name even when sorting changes it |
| Connector.OnlyCreatedShareMain | connector.go:152-168 | A listed client shares the main addresses exactly when the reload created it for a configuration that does |
| ConnectorRuns.CreatedSharesMain | connector.go:162-168 | A reload that creates a load-test client for the main client's own addresses goes through |
| Connector.ReloadIgnoresOrder | connector.go:154-158 | The order of addresses decides neither acceptance nor outcome of a client reload |
| Connector.FleetNextKeepsAccounts | connector.go:123-181 | Every reload, completed or failed, keeps each client exactly one of listed once, shut down once, orphaned |
| Connector.ShutDownIsFinal | connector.go:173-178 | Over any run a client once shut down is never listed or shut down again |
| Connector.ShutDownOnceOrOrphan | connector.go:341-350 | After any run of reloads and one shutdown every client ever created has been shut down exactly once, orphans never |
| Connector.OrphansAreOfFailures | connector.go:163-167 | Over any run a client is an orphan in the end exactly when it was one before or some failed reload created it |
| Connector.OrphansOfFailure | connector.go:147-167 | A reload that fails at entry i leaves orphans exactly when some name occurs more often among the entries before i than among the listed clients, and as many as the reload created |
| Connector.CreatedCount | connector.go:162-163 | The clients a reload creates, counted by name, are all the new numbers |
| ConnectorRuns.FailureOrphans | connector.go:162-168 | The context is done before the second of two valid load-test clients is created: the reload fails and the first is an orphan, which the shutdown of the connector does not reach |
| Connector.Connector.constructor | connector.go:91-114 | At the start every load-test client is listed once, and the scheduler options are those the scheduler has normalised |
| Connector.AdmittedMeans | config.go:59-87 | A configuration is admitted exactly when the modes of all its settings exist, whatever is unset; what the unset scheduler settings become, by the numbers |
| Connector.OwnConfigPassesIff | scheduler.go:44-56 | A hot reload with the configuration the connector was built with passes the scheduler check exactly when both sizes and the idle time are positive |
| ConnectorRuns.NegativeSizeRefusesReload | connector.go:129-131 | A connector built with a negative size refuses its own configuration |
| Connector.Connector.PoolClients | connector.go:142-145 | The pool holds each listed client in the slot of its name |
| Connector.Connector.Reuse | connector.go:153-161 | A reused client is refused exactly for sharing the main addresses or for a rejected configuration, and then changed in address order at most |
| Connector.Connector.Fill | connector.go:147-171 | The loop completes a list, matched with the names asked for, or stops with the reason, which names the entry, and a list matched with the names up to it; no client is created once the context is done |
| Connector.Connector.ShutDownLeft | connector.go:173-177 | Exactly the clients left in the pool are shut down, each once |
| Connector.Connector.ReloadLoadTests | connector.go:142-178 | A completed reload lists one matching client per configuration and shuts down the rest; a failed one leaves the list alone, orphans exactly what it created up to that entry and says why; nothing is created once the context is done |
| Connector.Connector.Reload | connector.go:123-181 | The order of the checks, what has already changed when each fails, the reason a failure names, and one step of the accounting of every client ever created |
| Connector.Connector.ShutDown | connector.go:341-350 | Every client ever created is then shut down exactly once, or is an orphan and never was |
| CircuitBreaker.RunKeeps | circuitbreaker/circuit_breaker.go:108-170 | In every run the routine and its outcome agree; with threats tracked a settled call has a result, whatever the fallback; without a fallback the channels carry what the routine returned |
| CircuitBreaker.StepsRunOut | circuitbreaker/circuit_breaker.go:108-170 | Every step but a cancellation uses up a bounded supply, so every run comes to rest |
| CircuitBreaker.SendsNeverBlock | circuitbreaker/circuit_breaker.go:127-128 | Without a fallback no send ever waits |
| CircuitBreaker.DeliveredOnce | circuitbreaker/circuit_breaker.go:67-87 | A delivered result never changes |
| CircuitBreaker.QuietIsDelivered | circuitbreaker/circuit_breaker.go:71-84 | With threats tracked, every run at rest has delivered a result, whatever the fallback |
| CircuitBreaker.DeliveredIffThreatsTracked | circuitbreaker/circuit_breaker.go:118-129 | Whatever the fallback, every run at rest has delivered exactly when the handler never maps a threat to nil |
| CircuitBreaker.DeliveredResult | circuitbreaker/circuit_breaker.go:95-107 | Nil is delivered only for a routine that returned nil; an untouched routine error only for a non-threat; every other result has its own cause |
| CircuitBreaker.DeliveredWithFallback | circuitbreaker/circuit_breaker.go:143-170 | With a fallback, nil is delivered only when the routine returned nil or the fallback did for a breaker error; an error is the context's, a non-threat of the routine's, or the report of a fallback that failed |
| CircuitBreaker.BreakerErrors | circuitbreaker/circuit_breaker.go:143-170 | The breaker's errors are a timeout, a refusal, or what the handler tracks for a threat the routine returned |
| CircuitBreaker.UndisturbedResult | circuitbreaker/circuit_breaker.go:115-141 | With neither context nor timeout interfering the caller gets what the routine returned, or what the handler tracks for it |
| CircuitBreaker.StuckIffFallbackHidesTimeout | circuitbreaker/circuit_breaker.go:148-159 | Some send can block forever exactly when a fallback returns nil for a timeout |
| CircuitBreaker.LimiterCalls | limiter.go:62-80 | With the limiter's options every call is answered, no send blocks, and an undisturbed caller gets the routine's own result |
| CircuitBreaker.LimiterReports | limiter.go:82-102 | The breaker hears of an error exactly when it is neither a cancellation nor an ordinary Redis reply |

## Left out

- What ParseFloat makes of a text is part of the reply that carries it, and may be anything; how a float is printed is left out, so round trips speak of integers, booleans, strings and byte slices.
- A nil and an empty byte slice are told apart as values but travel as the same text, so round trips are up to content.
- strconv is a small decimal model: base 10, saturation on overflow and the partial write on an error are modelled; its error texts are not.
- How go-redis encodes arguments is taken to be decimal text, `1` or `0`, and strings verbatim.
- Replies inside a destination that is itself an array, `Scan`, `AddFlat`'s dispatch and the scalar-element branch of `ScanSlice` are left out as one-branch functions; so are destinations that are not pointers to structs.
- A nil destination for a simple string makes the source panic; destinations are never nil here.
- ScanSlice.PointerSlice.FillRows: the length check and `ensureLen` before it are modelled for slices of structs only, where they are the same code.
- ScanSlice.PointerSlice.FillRows: elements must be distinct pointers, because with aliases later rows overwrite earlier ones.
- Latencies.Ring.Add: the index is unbounded, so its wrap-around after 2^63 samples is not modelled; a ring of size zero, which the source never makes, is excluded.
- LatencyRace.ConcurrentAverages: samples are non-negative and their largest total fits in 64 bits, as durations do.
- Scheduler: a panic in a task, and the real time of ticks and idle timeouts, are left out; the latency a tick reads may be any number. `need` is computed over reals.
- Scheduler: the tasks of one request get numbers of their own; which client a task runs on is not modelled, because the closures share the loop variable.
- Scheduler: sending after the channel is closed is a fate of its own; it is not claimed to be impossible.
- `ConnectorConfig.initAndValidate` is the function `Initialised` and the predicate `Admitted`, without the texts of its errors; the connector's methods are proved for configurations that have not passed it as well.
- Connector.Connector.Reload: clients are numbers with settings, not objects; the settings' own reload is proved on objects in `HotReload`. A configuration object listed twice, or shared with a live client, is not modelled.
- Connector.Connector.Reload: a client whose construction fails is not counted as created.
- Connector.Connector.constructor: construction that fails half-way returns no connector and is left out.
- Connector.Connector.ShutDown: the main client, the scheduler's cancellation and the goroutines the shutdowns run in are left out.
- HotReload.ClusterWrapper.Reload: the set of nodes is fixed and all connections exist; nodes found later, whose limiter is decided at construction, and errors of `ForEachShard`, which the source drops, are left out.
- HotReload.ClusterWrapper.Reload: breakers are keyed by node address without the source's prefix, and no other client reconfigures the same addresses meanwhile.
- Of the cluster-slots function of master/slave groups only the first node, the master, is modelled; the node identifiers, the order of the slaves, and go-redis's own option defaults are left out.
- CircuitBreaker: hystrix is an environment that runs the routine at most once, may time out or refuse, and sends at most one error on a buffered channel; opening and closing of circuits is left out.
- `client.go` commands, pub/sub, pool monitoring, statistics, logging, `reply.go`, `scripter.go` and the setters of `command_builder.go` are I/O or one-branch conversions.
