# octoevents, modelled in Dafny

octoevents publishes the "free electricity" events of Octopus Energy as a JSON
dataset. Each run does the following:
- queries the Octopus GraphQL API for the account's campaign events (the primary source);
- loads the previously published dataset;
- fetches a community feed with an ETag conditional GET, caching its ETag and events on disk (the secondary source);
- merges existing, secondary and primary events, keeping one event per start/end key;
- numbers the events "1", "2", … in start order;
- writes the dataset back.

This project models that core and proves its properties. Each module follows one source file:

| module | file | models |
|---|---|---|
| `Wrappers` | wrappers.dfy | `Option` and `Result` |
| `Decimal` | decimal.dfy | `strconv.Itoa` for the sequential codes |
| `Timestamps` | timestamps.dfy | UTC instants at millisecond precision, the output layout `YYYY-MM-DDTHH:MM:SS.mmmZ` and its strict parser |
| `Events` | events.dfy | events.go: the event records, the in-place sort and code assignment, conversion to the output form, loading and saving the dataset |
| `Merger` | merger.dfy | merger.go: `hasChanges` and `mergeEvents` |
| `Cache` | cache.dfy | cache.go: a `FileCache` class holding each directory's `etag` and `david_events.json` files |
| `Fetchers` | fetchers.dfy | fetchers.go: the primary fetch and the conditional secondary fetch |
| `Configuration` | config.dfy | config.go: `loadConfig` and `getEnvOrDefault` |
| `Version` | version.dfy | version.go: `GetVersion` and `GetUserAgent` |
| `Pipeline` | pipeline.dfy | main.go: `fetchAndUpdateEvents` |

I/O is modelled as inputs:
- The GraphQL executor is a function from the request sent to the outcome, an error or a decoded response.
- The HTTP round trip is a function from the request sent to the outcome: a transport error, or a status, an ETag header and a body that decodes or does not.
- The dataset file is a `StoredFile` value: missing, unreadable, not decodable, or decoded.
- Whether writing the dataset succeeds is a boolean. What a failed write leaves in the file is another input, because `os.WriteFile` truncates the file before it writes.
- Flags, the configuration file and the environment are inputs, and so are the build variables and the runtime build settings.

Timestamps are component records with a mixed-radix rank. `Rank` counts milliseconds, and `Rank(startAt)` is the sort order. The merge key is the pair of whole-second ranks of start and end. That matches the RFC 3339 `start_end` key strings of merger.go, which drop the fraction.

What `fetchAndUpdateEvents` in main.go does, and does not do:
- **No concurrent fetch.** The code fetches the primary source, loads the dataset and then fetches the secondary source, one after another.
- **No change detection.** `hasChanges` is defined but never called, so every successful run writes the dataset.
- **No shrink check.** No safety check compares the saved count with the loaded count. `Pipeline.FetchAndUpdateEvents` proves instead that the saved count is at least the number of distinct keys loaded. `Pipeline.DatasetNeverShrinks` proves that a dataset this program wrote reloads with exactly one event per key. Together these mean the count never falls across successful runs. A hand-edited file with two entries sharing a key can still shrink, because the merge collapses them.
- **Load failures are fatal.** An unreadable or undecodable dataset, or an entry whose time does not parse, aborts the run. Only a missing file counts as empty.
- **No events is an error.** A primary response with no edges is an error, and nothing is written.
- **Only the secondary source is cached.** The ETag cache applies to the secondary source alone.

main.go repeats several functions under the same names in the same package: `loadExistingEvents`, `mergeEvents`, `convertToOutputFormat`, `fetchDavidKendallData`, `assignSequentialCodes`, the four cache wrappers and `saveEvents`. It also inlines the primary query instead of calling `fetchOctopusEvents`. The repeated bodies are the same algorithms as their counterparts in events.go, merger.go, fetchers.go and cache.go, so each is modelled once. `Merger.MergeResultUnique` shows that any two results of the merge agree, whatever map order and unstable sort each run makes.

## Model

| member | source | states |
|---|---|---|
| Decimal.Itoa | events.go:97-99 | The code string is a non-empty run of decimal digits, with a leading '0' only for zero |
| Decimal.ItoaRoundTrip | events.go:98 | Reading the numeral `Itoa(n)` back gives `n` |
| Decimal.ItoaInjective | events.go:96-99 | Different positions get different code strings |
| Decimal.DigitRoundTrip | events.go:98 | Digit characters and digit values convert both ways without loss |
| Timestamps.DaysIn | events.go:136-142 | A month has between 28 and 31 days |
| Timestamps.SecondRankInjective | merger.go:34 | Two instants have the same whole-second rank exactly when they agree to the second |
| Timestamps.RankOrdersChronologically | events.go:92-94 | Comparing ranks is exactly chronological (lexicographic component) order, the order `Before` sorts by |
| Timestamps.RankToSeconds | merger.go:58-60 | Dropping the milliseconds of a rank gives the whole-second rank, which is what the RFC 3339 key keeps |
| Timestamps.RadixStep | events.go:92-94 | Mixed-radix numbers compare and coincide digit by digit, which underlies the rank lemmas |
| Timestamps.Pad2 | events.go:110-111 | A two-digit zero-padded field whose digits spell the number |
| Timestamps.Pad3 | events.go:110-111 | A three-digit milliseconds field whose digits spell the number |
| Timestamps.Pad4 | events.go:110-111 | A four-digit year field whose digits spell the number |
| Timestamps.Format | events.go:110-111 | Renders an instant in the `YYYY-MM-DDTHH:MM:SS.mmmZ` layout, 24 characters long; FormatWellFormed gives its shape and ParseFormat/FormatParse make it the inverse of Parse |
| Timestamps.FormatWellFormed | events.go:110-111 | Every formatted instant has the fixed 24-character `YYYY-MM-DDTHH:MM:SS.mmmZ` shape |
| Timestamps.AssembleOf | events.go:110-111 | A string of the layout's shape is the layout of its own digit groups |
| Timestamps.Parse | events.go:136-142 | Parsing succeeds exactly on well-formed strings whose fields form a valid date and time, and then yields those fields |
| Timestamps.ParseFormat | events.go:136-140 | Parsing a formatted instant gives the same instant back |
| Timestamps.FormatParse | events.go:110-111 | Formatting a parsed string reproduces the string |
| Timestamps.FormatFields | events.go:110-111 | A well-formed, valid string is the rendering of the fields it spells |
| Events.Swap | events.go:92-94 | Exchanging two slots keeps the multiset of events |
| Events.SortByStart | events.go:91-94 | The array ends sorted by start time and holds the same multiset of events as before |
| Events.InsertAt | events.go:91-94 | One insertion step extends the sorted prefix by one element and keeps the multiset of events |
| Events.UncodedPermutation | events.go:96-99 | Blanking the codes of two permutations of each other leaves permutations of each other |
| Events.RemoveFirst | events.go:91-94 | The first element of a list occurs in any permutation of it, and removing it from both leaves permutations |
| Events.UncodedSplit | events.go:96-99 | Blanking codes distributes over taking one element out of a list |
| Events.WriteCodes | events.go:96-99 | The numbering loop gives the event at index i the code `Itoa(i+1)` and changes nothing else |
| Events.AssignSequentialCodes | events.go:89-101 | Events end up sorted by start, the event at index i has code `Itoa(i+1)`, and apart from codes the events are a permutation of the input |
| Events.CodesDistinct | events.go:96-99 | The assigned codes are pairwise distinct |
| Events.ConvertToOutputFormat | events.go:104-118 | The output has one entry per event, in order, with both times formatted and code and is_test copied |
| Events.ToOutput | events.go:109-114 | The published form of one event: both times in the fixed layout, code and is_test copied; EntryRoundTrip shows it decodes back to the event's code, times and is_test |
| Events.FromOutput | events.go:135-150 | Decoding an entry succeeds exactly when start and end both parse, reports a bad start before a bad end, and yields the code, the two times and is_test |
| Events.DecodeAll | events.go:134-153 | Decoding succeeds exactly when every entry decodes, and then yields one event per entry, in order |
| Events.DecodeAllFirstError | events.go:135-143 | A failed decode reports the error of the first entry that does not decode, with no partial result |
| Events.DecodeAllStopsAtFailure | events.go:137-142 | Entries after the first failing entry do not change the outcome (the early return) |
| Events.LoadExistingEvents | events.go:121-153 | A missing, unreadable or undecodable file gives its own error; otherwise the result is the strict decode of every entry |
| Events.Loaded | events.go:121-153 | LoadExistingEvents' result as a function: a not-found error exactly when the file is missing, and on success one event per stored entry |
| Events.SaveEvents | events.go:156-164 | The stored dataset has one converted entry per event, in order |
| Events.EntryRoundTrip | events.go:110-111 | Decoding the published form of an event gives back its code, start, end and is_test |
| Events.SaveLoadRoundTrip | events.go:156-164 | A saved dataset loads back in full: the same count, and each event's start, end, code and is_test |
| Merger.KeyIsSecondPrecision | merger.go:58-60 | Two events share a key exactly when their starts agree to the second and their ends agree to the second |
| Merger.KeyOf | merger.go:58-60 | The merge key of an event, its start and end counted in whole seconds; KeyIsSecondPrecision shows two events share it exactly when both times agree to the second |
| Merger.KeySetConcat | merger.go:55-73 | The keys of two lists together are the keys of their concatenation |
| Merger.DistinctSnoc | merger.go:55-73 | Appending keeps the keys distinct exactly when the new key is not already present |
| Merger.DistinctKeysCount | merger.go:76-79 | A list has one event per key exactly when its length equals the size of its key set, and the key set is never larger |
| Merger.KeySetOfPermutation | merger.go:81-83 | Reordering keeps the key set and the length |
| Merger.LastWithKey | merger.go:61 | The copy kept for a key has that key |
| Merger.LastWithKeyFound | merger.go:61 | A key has a kept copy exactly when the list has that key |
| Merger.LastWithKeyIsLast | merger.go:61 | The event at index i is the copy kept for its key when no later event has the same key (later writes win) |
| Merger.LastWithKeyConcat | merger.go:55-73 | After inserting `existing` then `new`, a key `new` has takes its copy from `new`, and otherwise from `existing` |
| Merger.LastOfDistinct | merger.go:76-79 | In a list with one event per key, each event is the copy its key keeps |
| Merger.IndexSpec | merger.go:55-73 | The key-indexed map has exactly the list's keys, and each key maps to the last event with that key |
| Merger.Index | merger.go:55-73 | The map built by inserting each event under its key in order; IndexSpec shows its keys are the list's keys and each maps to the last event with that key |
| Merger.IndexSnoc | merger.go:61 | Indexing one more event is one more map assignment |
| Merger.HasChanges | merger.go:26-47 | The result is true exactly when the lengths differ or some event of `new` has a key absent from `existing` |
| Merger.DiffersSeesOnlyKeys | merger.go:33-44 | The answer depends only on the keys, so events with equal start and end count as no change |
| Merger.NoChangeMeansSameKeys | merger.go:39-46 | When no change is reported and `new` has one event per key, `new` has the same key set as `existing` |
| Merger.SubsetOfSameSize | merger.go:39-46 | A subset at least as large as its superset is equal to it |
| Merger.StrictSubsetSmaller | merger.go:39-46 | A strict subset is strictly smaller |
| Merger.SubsetSize | merger.go:39-46 | A subset is no larger than its superset |
| Merger.IndexEvents | merger.go:53-73 | The two insertion loops build the key-indexed map of `existing + new` |
| Merger.InsertAll | merger.go:55-63 | One insertion loop extends the map of the events inserted so far to the map of those events followed by the loop's list |
| Merger.CollectValues | merger.go:76-79 | Collecting the map's values, in any order, gives one event per key, every key, and each key's mapped event |
| Merger.MergeEvents | merger.go:50-86 | The result is sorted by start, has one event per key and every key of either input, and holds each key's last copy from `new` when `new` has the key, otherwise from `existing`; its length is the number of distinct keys |
| Merger.CollectedIsDedup | merger.go:76-83 | Sorting the collected values yields a complete, deduplicated last-write-wins result |
| Merger.MergeSides | merger.go:61-71 | A merge result takes keys present in `new` from `new`, and others from `existing`, and has as many events as distinct keys |
| Merger.DistinctKeysOccurOnce | merger.go:76-79 | In a list with one event per key, each event occurs exactly once |
| Merger.InKeySet | merger.go:34 | An event's key is in the key set of any list holding it |
| Merger.SameElements | merger.go:76-79 | Two lists with one event per key and the same members are permutations of each other |
| Merger.MergeResultUnique | main.go:275-311 | Any two merge results of the same input hold the same multiset of events and have the same start time at every position |
| Merger.SortedPermutationsAgree | merger.go:81-83 | Two sorted permutations with distinct keys agree on the start time at every position |
| Merger.SortedRankAt | merger.go:81-83 | Position i of one sorted permutation starts no later than position i of the other |
| Merger.StartChain | merger.go:81-83 | Sorted order chains through a shared event |
| Merger.NotSubset | merger.go:76-79 | A larger set has an element outside a smaller one |
| Merger.MergeChain | main.go:223-224 | Merging `a` with `b`, then the result with `c`, has the outcome of one merge of `a + b + c` |
| Merger.MergeWithItself | merger.go:50-86 | Merging a list that has one event per key with itself gives back its events, and hasChanges then reports no change |
| Merger.SubSecondDuplicatesCollapse | merger.go:58-61 | Two events differing only below one second merge into the later one alone |
| Cache.FileCache.constructor | cache.go:25 | Starts from the given etag and events files |
| Cache.FileCache.GetCachedETagFromDir | cache.go:33-42 | Reads the directory's etag file as `StoredETag` gives it: its contents, or "" when there is none |
| Cache.FileCache.CacheETagToDir | cache.go:50-57 | Overwrites the directory's etag file and leaves every events file untouched |
| Cache.FileCache.GetCachedEventsFromDir | cache.go:65-77 | Never reports an error, and gives `StoredEvents`: no events for a missing or corrupt events file, and the stored events for a decodable one |
| Cache.FileCache.CacheEventsToDir | cache.go:85-89 | Overwrites the directory's events file and leaves every etag file untouched |
| Cache.FileCache.GetCachedETag | cache.go:28-30 | Reads the etag of the fixed `.cache` directory |
| Cache.FileCache.CacheETag | cache.go:45-47 | Writes the etag of the fixed `.cache` directory only |
| Cache.FileCache.GetCachedEvents | cache.go:60-62 | Reads the events of the fixed `.cache` directory, with no error |
| Cache.FileCache.CacheEvents | cache.go:80-82 | Writes the events of the fixed `.cache` directory only |
| Cache.FileCache.ETagRoundTrip | cache.go:50-57 | An ETag stored in a directory reads back unchanged; the etag files gain exactly that entry and the events files are not touched |
| Cache.FileCache.EventsRoundTrip | cache.go:85-89 | Events stored in a directory read back unchanged, so with the same count; the events files gain exactly that entry and the etag files are not touched |
| Fetchers.FetchOctopusEvents | fetchers.go:32-90 | A query error is returned as an error; otherwise the result is `NodesOf` the edges: exactly the edge nodes, one per edge, in edge order |
| Fetchers.KendallRequest | fetchers.go:108-115 | The If-None-Match header is set exactly when the cached ETag is non-empty, and then carries it |
| Fetchers.SkipInvalid | fetchers.go:144-162 | Skipping bad entries never lengthens the list |
| Fetchers.ValidIndices | fetchers.go:144-162 | The kept positions are increasing, in range, and exactly those whose start and end both parse |
| Fetchers.SkipInvalidSelects | fetchers.go:144-162 | The result is the decoded entries at exactly the valid positions, in order, an order-preserving subsequence of the feed |
| Fetchers.SkipInvalidAgreesWithStrictLoad | fetchers.go:144-162 | When every entry is valid, skipping gives the same list as the strict dataset load |
| Fetchers.SkipInvalidStep | fetchers.go:146-161 | One more entry appends its event exactly when it decodes |
| Fetchers.FetchDavidKendallData | fetchers.go:93-169 | Sends the conditional GET. Results: a transport error, a status other than 200 or 304, or a body that does not decode is an error and leaves the cache untouched; a 304 returns the cached events without writing; a 200 caches the ETag only when the header is non-empty, and caches and returns the valid entries. The final etag and events files are `ETagFilesAfter` and `EventFilesAfter` of the old files |
| Fetchers.SecondaryResult | fetchers.go:93-169 | What fetchDavidKendallData returns for the HTTP round trip: a success exactly for a 304 or a 200 whose body decodes, an error otherwise |
| Fetchers.CacheAgreesWithResult | fetchers.go:124-168 | A failed fetch writes neither cache file, and a 304 writes neither while returning the cached events. A fetch that rewrites the events file returns exactly the events it wrote |
| Configuration.GetEnvOrDefault | config.go:110-115 | The variable's value when it is non-empty, the default otherwise |
| Configuration.Pick | config.go:63-79 | A non-empty flag wins, and the credential is empty only when flag, file value and environment all are |
| Configuration.LoadConfig | config.go:53-93 | A file read or parse failure is an error. Each credential comes from its flag, else the file, else the environment. Validation reports the API key, then the account number, then the meter point ID, and a success has all three non-empty |
| Configuration.FlagOverridesFileAndEnv | config.go:63-79 | A non-empty flag overrides file and environment; the environment is consulted only when flag and file leave the credential empty |
| Configuration.OutputFilePrecedence | config.go:53-61 | The output path comes from the file when the file sets it, and otherwise from the flag |
| Configuration.AfterFile | config.go:53-61 | The flag-initialised configuration with the file decoded over it; it is missing exactly when a named file fails to load |
| Configuration.OutputFlag | config.go:41 | The `-output` value is the given path, and is `free_electricity.json` exactly when the flag is absent or names that path |
| Configuration.DefaultOutputPath | config.go:41 | Without `-output` and without a file that sets the output path, the data goes to `free_electricity.json` |
| Version.ShortHash | version.go:42-45 | The short hash is a prefix of the hash, seven characters long or the whole hash when shorter |
| Version.FirstRevision | version.go:37-48 | Finds a value exactly when some setting is a non-empty `vcs.revision`, and returns the first such value |
| Version.GetVersion | version.go:30-61 | The settings scan with early return computes the fallback chain `VersionOf` |
| Version.VersionOf | version.go:30-61 | The fallback chain as a function: explicit version, else short revision, else commit, else "dev"; ExplicitVersionRule, RevisionRule, CommitRule, DevRule and VersionShape state each step |
| Version.GetUserAgent | version.go:63-66 | The user agent is `matthewgall/octoevents/` followed by the version |
| Version.ExplicitVersionRule | version.go:32-34 | A build version other than "dev" or "" is returned verbatim |
| Version.RevisionRule | version.go:37-48 | Without an explicit version, the first non-empty revision is returned, shortened to seven characters |
| Version.CommitRule | version.go:51-57 | Without version or revision, a commit other than "unknown" or "" is returned, shortened |
| Version.DevRule | version.go:60 | With none of the three, the version is "dev" |
| Version.VersionShape | version.go:30-61 | The version is never empty, and apart from an explicit version it has at most seven characters |
| Fetchers.NodesOf | main.go:201-204 | The primary events are the edge nodes, one per edge, in order |
| Pipeline.FetchAndUpdateEvents | main.go:148-239 | A query error, no events, or a load error other than a missing file aborts with the file and cache untouched. A missing dataset counts as no existing events, and a failed secondary fetch contributes no events. Otherwise the run succeeds exactly when the write succeeds, and fails only with the save error, leaving whatever the failed write left. In both cases the cache files end as the secondary fetch left them. The saved events are sorted and numbered 1..n, have one event per key and every key of existing + secondary + primary, keep each key's last copy with primary copies winning, are at least as many as the distinct existing keys, and are what the file then holds |
| Pipeline.MergeAndNumber | main.go:223-227 | The two merges and the numbering give a sorted, numbered, deduplicated, last-copy-wins list covering every key, never smaller than the existing key set |
| Pipeline.CoversExistingKeys | main.go:223-229 | A deduplicated list covering every key of existing + secondary + primary has at least as many events as existing has keys |
| Pipeline.KeySetUncoded | main.go:227 | Blanking codes keeps the key set |
| Pipeline.RecodedDedup | main.go:227 | Renumbering a merge result keeps one event per key, every key, and each event's last-copy identity apart from its code |
| Pipeline.PrimaryWins | main.go:223-224 | When the primary events are merged last, a key they have takes its copy from them |
| Pipeline.DatasetNeverShrinks | main.go:210-229 | A dataset the program saved loads back in full with one event per key, so the next run saves at least as many events |

## Left out

- Concurrency: the code has none in this core. The token cache and its lock in client.go are not part of this model.
- Network transport, the HTTP client's construction and timeouts, and request construction errors (`http.NewRequest` with a constant URL): the HTTP round trip is an input function.
- The GraphQL library and the query text: the executor is an input function from the request (endpoint, key and bound variables) to its outcome.
- JSON and YAML encoding and decoding: decoded records are modelled directly. A body, file or cache file that does not decode is its own input case. The events cache is modelled as an exact round trip of the event list.
- Write failures of the cache files, which the code ignores: it logs only a failed ETag write, and drops a failed events encoding or write without a trace. The model's cache writes always take effect.
- The `json.MarshalIndent` failure in saveEvents, which cannot occur for these records. A failing dataset write is the `writable` input of `Pipeline.FetchAndUpdateEvents`. What the failed write leaves is its `afterFailedWrite` input, which is not constrained.
- Logging (`slog`), `setupLogging` and `detectLogFormat`, `flag.Parse`, `os.Exit` and the `-version` print.
- `debug.ReadBuildInfo`: the build settings are an input, `None` when the runtime has no build information.
- Error texts: errors are datatype constructors. There is one constructor per error the code distinguishes, and the text each error carries is not modelled.
- Timestamps.Parse: it is strict. Go's `time.Parse` also accepts, among other inputs, a one-digit hour in the `15` position, a comma as the fraction separator, and a signed fraction (`.+12` reads as 12 ms, `.-00` as 0, since Go's `atoi` takes a leading sign); those inputs are rejected here. Years outside 0000-9999, sub-millisecond precision and time zones other than UTC are not modelled.
- MergeResultUnique: does not fix which of two events with equal start times comes first. `sort.Slice` is unstable and Go's map iteration order is unspecified, so the source does not fix that order either.
- SortByStart: does not fix the order among events with equal start times, because `sort.Slice` does not either. An insertion sort stands in for the Go library sort.
- ShortHash: counts characters where Go's `len` and `[:7]` count bytes. The two agree on the ASCII hex hashes that `vcs.revision` and the build commit hold.
