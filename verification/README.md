# EDB: a verified model of its proxy, session and text layers

This project models, in Dafny, the stateful core of EDB, a debugger for Ethereum transactions:

- the **RPC proxy** (`crates/rpc-proxy`): the caching handler and its keys, the LRU store with its merge, save
  and delete paths, the segment files and the directory that several processes replace, the weighted and
  health-tracked providers, the retry loop with its error vote, the metrics, and the instance registry with its
  grace period;
- the **session layer**: per-transaction locking in `Engine::prepare` and the connection counts of the WebSocket
  server;
- the **text and tree layer**: the printed call trace, amounts in ETH, breakpoints, and the text keys of
  transient storage.

Objects that the source updates in place are classes whose methods are proved against specification functions or
step relations over values. Concurrency is a step system: one action per locked section or file-system call, in any
interleaving. `Runs` holds the principle that what every step keeps holds throughout. Classes that take part in a
step system carry a ghost copy of the state of the whole system, so that each method is shown to be one of its steps.

Where a property that the code or its comments suggest does not hold, the model keeps the code's behaviour: a lemma
exhibits a run or an input on which the property fails, and another states exactly when it holds.

| module | models |
|---|---|
| `CacheKey`, `Requests`, `Transparency`, `RpcHandler` | `handle_request` and the keys |
| `Cache`, `CacheStore`, `CacheRuns`, `Segments`, `DirectoryReplace` | `CacheManager` and its files |
| `Providers`, `Replies`, `Forward`, `RepeatedVotes` | `ProviderManager` and `forward_request` |
| `Metrics`, `Registry` | `MetricsCollector` and `EdbRegistry` |
| `Engine`, `Connections` | locking of `prepare`, connection counts |
| `TraceForest`, `Ether`, `Breakpoints`, `Snapshot` | trace printing, ETH text, parsers and printers |
| `Common`, `Sorting`, `Sums`, `Runs`, `Json`, `Numerals`, `Strings`, `Addresses` | what these share |

## Model

| member | source | states |
|---|---|---|
| CacheKey.Decode | crates/rpc-proxy/src/rpc.rs:706-732 | The token stream fed to the hasher is a prefix code: followed by anything that does not start with a length, it can be read back in one way only, up to null = "null" and a number = its text. |
| CacheKey.KeyStreamExact | crates/rpc-proxy/src/rpc.rs:691-732 | Two requests feed the hasher the same stream if and only if their methods are equal and their parameters are equal up to those two identifications and the order of object members. |
| CacheKey.MemberOrderFree | crates/rpc-proxy/src/rpc.rs:721-730 | Permuting the members of an object does not change its tokens. |
| CacheKey.HashJsonValue | crates/rpc-proxy/src/rpc.rs:706-732 | The recursive procedure on the mutable hasher appends exactly the value's tokens. |
| Requests.OverlooksExactlyWhen | crates/rpc-proxy/src/rpc.rs:660-689 | A request for a moving block, in its parameters by position or by name, passes the determinism check if and only if its parameters are not an array, or each one that names a moving tag is an object in which an earlier of the keys `blockNumber`, `toBlock`, `fromBlock` is present and fixed. |
| Requests.StopsOnlyMoving | crates/rpc-proxy/src/rpc.rs:660-689 | The check stops no request that does not ask for a moving block. |
| Requests.RangeIsOverlooked | crates/rpc-proxy/src/rpc.rs:671-676 | A range from `latest` to a fixed block passes the check. |
| Requests.ByNameIsOverlooked | crates/rpc-proxy/src/rpc.rs:660-664 | Parameters by name pass the check, whatever block they name. |
| Requests.TagsAreStopped | crates/rpc-proxy/src/rpc.rs:660-689 | A request with a single text, or a single member of an object, as its parameter is stopped if and only if that is one of the five tags, for a member under one of the three keys. |
| Requests.AbsentIsNull | crates/rpc-proxy/src/rpc.rs:691-698 | Absent parameters have the key of null ones. |
| Requests.KeyTextInjective | crates/rpc-proxy/src/rpc.rs:691-704 | Two key texts are equal if and only if their methods and hashes are. |
| Requests.PrefixSelectsMethod | crates/rpc-proxy/src/cache.rs:239-242 | The prefix that `delete_by_method` matches selects the keys of that method and of no other. |
| Transparency.CachedIsGenuine | crates/rpc-proxy/src/rpc.rs:174-251 | In every state of every run from an empty cache, each cached value is a storable upstream response to a cacheable, deterministic request with that key. |
| Transparency.TransparentExactly | crates/rpc-proxy/src/rpc.rs:174-251 | Every hit of every run equals what forwarding would give, up to the `id`, if and only if requests that share a key have the same responses. |
| Transparency.TransparentUpstream | crates/rpc-proxy/src/rpc.rs:174-251 | Without hash collisions among the requests sent, the cache is transparent if and only if the upstream's responses depend only on the method and the parameters as the key tells them apart. |
| Transparency.NumberAndTextShareKey | crates/rpc-proxy/src/rpc.rs:706-720 | For every hash there is an upstream that tells 1 from "1" and is therefore not served transparently. |
| Transparency.TransparentUnlessOverlooked | crates/rpc-proxy/src/rpc.rs:174-251 | Let the upstream's answers change over time for the requests that name a moving block and for those that name none where it takes the latest by default, and for these alone. It is served transparently if and only if each cacheable one of them that clients send names a tag which the determinism check does not overlook. |
| Transparency.MovingIsServedStale | crates/rpc-proxy/src/rpc.rs:174-251 | For every hash and every request that passes the check, an upstream whose answer to it changes has its old answer repeated. |
| Transparency.LatestIsServedStale | crates/rpc-proxy/src/rpc.rs:660-664 | Such a request is one that asks by name for the logs of the latest block. |
| Transparency.OmittedIsServedStale | crates/rpc-proxy/src/rpc.rs:660-689 | So is a call with the call object alone, which names no block at all. |
| Transparency.OnlyIdIsIgnored | crates/rpc-proxy/src/rpc.rs:187-194 | Of two responses that differ in one member, the served and the forwarded one count as the same if and only if it is the `id`, which a cached response keeps from the request it first answered. |
| RpcHandler.ServesIsRun | crates/rpc-proxy/src/rpc.rs:174-251 | One handled request is a run of the interleaved system, with a hit answered from the cache and anything else answered by forwarding. |
| RpcHandler.Handler.HandleRequest | crates/rpc-proxy/src/rpc.rs:174-251 | For every behaviour of the providers: a hit is answered from the cache and asks nobody; anything else is answered by the retry loop; the providers and every counter of the metrics are what the log of its sends and the hit, the miss and the kind of an error response make of them; whatever is new in the cache is the success of the provider asked last; a hit refreshes its entry alone; and after a miss an error, or for `debug_` and `trace_` methods a response without a usable result, leaves the cache alone, while any other response is stored under the request's key as a set would. |
| RpcHandler.StoredIsSuccess | crates/rpc-proxy/src/rpc.rs:206-222 | A response that enters the cache was returned as a success by the last provider asked, so no voted error is ever stored. |
| RpcHandler.ValidExactly | crates/rpc-proxy/src/rpc.rs:372-409 | A trace response is unusable if and only if its result is absent, null, an empty list, a text that says "unsupported", or an object without any of the seven members of traces. |
| RpcHandler.MissedCounts | crates/rpc-proxy/src/rpc.rs:205-243 | A miss is counted once; an error with a message counts once more, as a rate limit, else as a user error, else as another, by the patterns its message matches. |
| RpcHandler.UnnamedIsUnknown | crates/rpc-proxy/src/rpc.rs:176-468 | A request whose method is not a text is looked up as the empty name and recorded as `unknown_method`. |
| RpcHandler.Handler.GenerateCacheKey | crates/rpc-proxy/src/rpc.rs:691-704 | The key is the method and the hash of the key stream of method and parameters. |
| Cache.EvictToSize | crates/rpc-proxy/src/cache.rs:507-533 | Leaves exactly min(size, target) entries, unchanged, none older than a removed one. |
| Cache.MergeCaches | crates/rpc-proxy/src/cache.rs:436-459 | The loop, in any iteration order, computes the newest entry per key, the right side winning ties. |
| Cache.MergeAssociative | crates/rpc-proxy/src/cache.rs:431-459 | Merging is associative. |
| Cache.MergeIdempotent | crates/rpc-proxy/src/cache.rs:431-459 | Merging a cache with itself changes nothing. |
| Cache.MergeCommutes | crates/rpc-proxy/src/cache.rs:431-459 | The sides may be swapped if and only if no key holds different entries of the same age. |
| Cache.MergeIsJoin | crates/rpc-proxy/src/cache.rs:431-459 | The merge is the least upper bound of its sides in the order of having every key at least as recently. |
| CacheStore.CacheManager.constructor | crates/rpc-proxy/src/cache.rs:89-120 | A new manager holds min(loaded, `max_items`) entries, each the newest that the files hold under its key, and all keys of the legacy and the split files if they fit. |
| CacheStore.CacheManager.LoadExistingCache | crates/rpc-proxy/src/cache.rs:384-429 | What is loaded is the merge of the legacy file and the split files. |
| CacheStore.CacheManager.GetEntry | crates/rpc-proxy/src/cache.rs:129-142 | A get returns the stored value and refreshes its time, and changes nothing else. |
| CacheStore.CacheManager.SetEntry | crates/rpc-proxy/src/cache.rs:148-180 | A set maps the key to the new value after evicting a tenth of a full cache, oldest first. |
| CacheStore.CacheManager.SaveToDisk | crates/rpc-proxy/src/cache.rs:194-227 | A save writes an admissible cut of the merge of disk and memory, or ends in one of the ways a failed replacement leaves the disk. |
| CacheStore.CacheManager.ApplySizeManagement | crates/rpc-proxy/src/cache.rs:474-500 | The size rule: the old count if the disk is at least as large as memory, else at most the capacity, keeping the newest. |
| CacheStore.CacheManager.DeleteKey | crates/rpc-proxy/src/cache.rs:260-284 | Removes that key alone and writes memory without a merge if it was there. |
| CacheStore.CacheManager.DeleteMethod | crates/rpc-proxy/src/cache.rs:236-257 | Removes exactly the keys with the method's prefix, returns their number, and writes memory if there were any. |
| CacheRuns.RunKeepsCapacity | crates/rpc-proxy/src/cache.rs:89-167 | In every state that new, get, set, delete, save and restart reach, memory holds at most max(1, `max_items`) entries. |
| CacheRuns.CapacityKeptExactly | crates/rpc-proxy/src/cache.rs:148-167 | Memory stays within `max_items` in every run of a cache of that capacity if and only if it is positive. |
| CacheRuns.ZeroAdmitsOne | crates/rpc-proxy/src/cache.rs:148-159 | A new, empty cache of capacity 0 holds whatever entry is set first. |
| CacheRuns.SetMakesRoom | crates/rpc-proxy/src/cache.rs:148-159 | After a set the key maps to the value, every other entry is as it was, and below capacity none is missing. |
| CacheRuns.SetEvictsTenth | crates/rpc-proxy/src/cache.rs:148-167 | At capacity a new key displaces a tenth of the entries, but at least one. |
| CacheRuns.AgeIsLastUse | crates/rpc-proxy/src/cache.rs:129-159 | Along every run an entry that stays in memory has the value of its last set and the time of its last set or successful get. |
| CacheRuns.LeastRecentlyUsedFirst | crates/rpc-proxy/src/cache.rs:161-167 | Of two entries in memory the one used later is not evicted while the other stays. |
| CacheRuns.SavePolicy | crates/rpc-proxy/src/cache.rs:194-227 | A completed save writes the newest entries of disk and memory, as many as the size rule says; a load then finds these and the legacy entries left out of them, never fewer than before. |
| CacheRuns.SaveBoundExactly | crates/rpc-proxy/src/cache.rs:474-535 | However ties in age are broken, a load after a completed save finds no more entries than the size rule says if and only if, before the save, every legacy key has fewer other entries at least as recent than that number. |
| CacheRuns.SaveExists | crates/rpc-proxy/src/cache.rs:194-227 | From every state a save is possible with each of its outcomes, so the statements about saves are not empty. |
| CacheRuns.SaveShrinksExactlyWhen | crates/rpc-proxy/src/cache.rs:665-685 | A save leaves fewer entries than it found if and only if the replacement failed after destroying the old directory and the legacy and flat files left are fewer. |
| CacheRuns.RestartBrings | crates/rpc-proxy/src/cache.rs:89-120 | After a completed save and a restart memory holds min(on disk, `max_items`) entries, each the newest in the files, none older than one left out, and every key of the files if they fit. |
| CacheRuns.SavedIsFound | crates/rpc-proxy/src/cache.rs:182-227 | An entry that was in memory before the save, no older than on disk, is there again after the restart, if all entries fit. |
| CacheRuns.DiskGrowsToCapacity | crates/rpc-proxy/src/cache.rs:194-227 | Over whole runs without deletes and write failures the count on disk only grows, and without a legacy file only up to the capacity. |
| CacheRuns.LegacyGrowsForever | crates/rpc-proxy/src/cache.rs:384-423 | From every state within capacity with a legacy entry, and for every n, a run without deletes and failures leaves more than n entries on disk. |
| CacheRuns.DiskBoundedExactly | crates/rpc-proxy/src/cache.rs:194-227 | In all that can follow without deletes and failures the count on disk stays within max(its count now, `max_items`) if and only if there is no legacy entry. |
| CacheRuns.ForgottenForeverExactly | crates/rpc-proxy/src/cache.rs:384-429 | No run without a set of it brings a key back if and only if neither memory nor any file holds it. |
| CacheRuns.DeleteTakesNamed | crates/rpc-proxy/src/cache.rs:236-271 | A delete takes from memory exactly the key, or the keys that begin with the method and a colon; if it takes nothing it leaves the files alone, too. |
| CacheRuns.DeletesLast | crates/rpc-proxy/src/cache.rs:236-284 | After a completed delete the removed key never comes back unless set again, if and only if no legacy or old flat file holds it. |
| CacheRuns.DeleteLeaves | crates/rpc-proxy/src/cache.rs:278-284 | After a completed delete a load finds the legacy file merged with memory, nothing else. |
| CacheRuns.DeleteSparesExactly | crates/rpc-proxy/src/cache.rs:236-284 | So it takes nothing from the disk but what it deletes if and only if every split entry is also in memory or in the legacy file. |
| CacheRuns.DeleteTakesAnother | crates/rpc-proxy/src/cache.rs:260-284 | A run from a new cache of capacity one in which deleting the second key also removes the first, evicted from memory but saved, from the disk. |
| CacheRuns.DeleteMissesDisk | crates/rpc-proxy/src/cache.rs:260-271 | A key that only the disk holds is not deleted. |
| Segments.SplitHoldsContent | crates/rpc-proxy/src/cache.rs:545-561 | The segments concatenate to the content, and all but the last have exactly the maximal size. |
| Segments.SplitCacheContent | crates/rpc-proxy/src/cache.rs:545-561 | The byte-slicing loop panics if and only if some cut falls inside a character, and otherwise returns those segments. |
| Segments.AsciiCuttable | crates/rpc-proxy/src/cache.rs:545-561 | Single-byte characters never make the splitter panic. |
| Segments.TwoByteCharacterPanics | crates/rpc-proxy/src/cache.rs:553-556 | A content one byte over the size of a file, with a two-byte character across the cut, does. |
| Segments.FileNumberOfSegment | crates/rpc-proxy/src/cache.rs:729-740 | The number parsed from a segment's file name is the segment's number, below the bound of `u32`. |
| Segments.FilesAreNumbered | crates/rpc-proxy/src/cache.rs:614-623 | The files are numbered from 1 without padding. |
| Segments.LoadFromSplitFiles | crates/rpc-proxy/src/cache.rs:694-749 | Collecting, sorting by number and concatenating gives the loaded text, in any order of the listing. |
| Segments.LoadRebuilds | crates/rpc-proxy/src/cache.rs:710-749 | A directory with the segment files, listed in any order and beside other files, loads as the segments in order (10 after 9). |
| Segments.RoundTrip | crates/rpc-proxy/src/cache.rs:614-623 | Splitting, writing and loading gives the content back. |
| Segments.PartialLoad | crates/rpc-proxy/src/cache.rs:710-749 | A directory that has lost any of the segment files never loads as a non-empty content; one that has lost none does, in every order of the listing. |
| DirectoryReplace.NeverMixed | crates/rpc-proxy/src/cache.rs:588-685 | With any number of writers, failures and crashes, the directory at every instant holds files of one snapshot only. |
| DirectoryReplace.RenamePublishes | crates/rpc-proxy/src/cache.rs:665-685 | A successful rename publishes the complete snapshot, and loading it gives the writer's content. |
| DirectoryReplace.OnlyRenameAdds | crates/rpc-proxy/src/cache.rs:665-685 | Every step but a successful rename only takes files away from the directory. |
| DirectoryReplace.ReaderSeesOneSnapshot | crates/rpc-proxy/src/cache.rs:694-749 | If no rename succeeds between the first and the last instant of a read, all that is found is from the snapshot published at the first. |
| DirectoryReplace.FoundExactly | crates/rpc-proxy/src/cache.rs:694-749 | A listed file is found in the publication listed if and only if nobody has unlinked it or replaced the directory since, and then with the same content. |
| DirectoryReplace.LoadExactly | crates/rpc-proxy/src/cache.rs:694-749 | A load that lists the complete directory and reads file by file finds every file in the publication listed if and only if none is unlinked or replaced before it is read, and then yields the content published. |
| DirectoryReplace.LoadYieldsContentExactly | crates/rpc-proxy/src/cache.rs:694-749 | A load that lists the directory at any instant of any run, perhaps in the middle of its removal, and finds all that it listed yields the content published if and only if nothing was missing at that instant. |
| DirectoryReplace.ReaderMayMix | crates/rpc-proxy/src/cache.rs:694-749 | With a rename in between, a reader can get the first file of the old snapshot and the second of the new one. |
| Providers.WeightByTime | crates/rpc-proxy/src/providers.rs:102-121 | A provider weighs 100 if and only if it answers below 200 ms, 60 below 400, 30 below 600, and 10 from there on; one never timed counts as taking 300 ms. |
| Providers.ExactShare | crates/rpc-proxy/src/providers.rs:211-258 | Of the draws below the total, exactly as many select a candidate as its tier weighs. |
| Providers.AvailableInOrder | crates/rpc-proxy/src/providers.rs:211-222 | The candidates are the healthy untried providers, in their order, each once. |
| Providers.ProviderShare | crates/rpc-proxy/src/providers.rs:211-258 | So exactly as many draws select an available provider as its tier weighs. |
| Providers.SelectsUnique | crates/rpc-proxy/src/providers.rs:246-254 | No draw falls in the shares of two candidates. |
| Providers.SomeoneSelected | crates/rpc-proxy/src/providers.rs:246-257 | Every draw selects a candidate, so the fallback is never used. |
| Providers.SelectWeighted | crates/rpc-proxy/src/providers.rs:246-257 | The cumulative loop returns the candidate in whose share the draw falls. |
| Providers.ProviderManager.GetWeightedProviderExcluding | crates/rpc-proxy/src/providers.rs:211-258 | Nothing if and only if no provider is healthy and untried; else such a provider, by weight when there are two or more. |
| Providers.FairRounds | crates/rpc-proxy/src/providers.rs:310-322 | While the same providers are healthy and the counter does not wrap, k rounds of round robin choose each exactly k times. |
| Providers.FairToProviders | crates/rpc-proxy/src/providers.rs:310-322 | So k rounds choose every healthy provider exactly k times. |
| Providers.TurnsAdvanceExactly | crates/rpc-proxy/src/providers.rs:318-321 | The next call takes the next provider in turn, exactly unless the counter wraps and the number of providers does not divide its range. |
| Providers.ProviderManager.GetNextProvider | crates/rpc-proxy/src/providers.rs:310-322 | The healthy provider at the counter modulo their number, and the counter one further, only if there is one. |
| Providers.HealthAfter | crates/rpc-proxy/src/providers.rs:325-349 | After any history of reports a provider is healthy if and only if it was to begin with or has succeeded since, and its current streak of failures is empty or below the limit. |
| Providers.MeasuredAfter | crates/rpc-proxy/src/providers.rs:325-351 | After any history of reports its response time and last check are those of its last success, or as at first if it never succeeded. |
| Providers.WeightAfter | crates/rpc-proxy/src/providers.rs:102-121 | So its weight is that of the time its last success took. |
| Providers.CheckedExactly | crates/rpc-proxy/src/providers.rs:353-405 | A health check leaves alone a healthy provider that was checked within the last 60 seconds; any other is healthy, timed and checked now if it answers, and has one more failure if not. |
| Providers.ProviderManager.HealthCheckAll | crates/rpc-proxy/src/providers.rs:353-405 | The reports of exactly the unhealthy, never checked or stale providers are marked in turn; where URLs differ, each provider is left alone, revived or failed as `CheckedExactly` says. |
| Forward.RequestForwarder.ForwardRequest | crates/rpc-proxy/src/rpc.rs:411-658 | For every behaviour of the providers: at most five attempts; every send recorded once in the metrics and reported to the provider manager; every provider sent to healthy and untried; every reply classified as it came; a result or a user error ends the call at once; the answer is a success, a user error, a third equal error, or one of maximal count, and `Err` only if no vote was cast. |
| Forward.OnlySuccessesLackErrors | crates/rpc-proxy/src/rpc.rs:411-658 | A returned response has no error member if and only if the last provider asked returned it as a success; so nothing voted on can enter the cache. |
| Forward.FirstResultIsAnswer | crates/rpc-proxy/src/rpc.rs:568-584 | With a healthy provider and a first reply that is JSON without an error and no rate limit, the call returns that body after one send. |
| Forward.MadeAnswersAtOnce | crates/rpc-proxy/src/rpc.rs:425-584 | The first attempt sends if and only if a provider is healthy; whatever attempt brings a result or a user error is the last, with that body as the answer. |
| Forward.OkMeans | crates/rpc-proxy/src/rpc.rs:545-658 | A response is the body of some attempt: the last one, if it is a result, a user error or the third of an error; else the first of an error that no other has more votes than. |
| Forward.ErrMeans | crates/rpc-proxy/src/rpc.rs:641-658 | A failure means that every send met a rate limit or something unreadable: the network error if there was something unreadable, else too many requests after five attempts and no provider before. |
| Forward.ReplyCounts | crates/rpc-proxy/src/rpc.rs:535-560 | A send adds a vote to a signature if and only if it brings an error of the provider's with it, and is a network error if and only if it brings nothing readable. |
| Forward.AnswerMarks | crates/rpc-proxy/src/rpc.rs:516-584 | After a result or a user error the provider sent to is healthy, without failures, timed and checked by this reply, and no other changes. |
| Forward.OtherReplyMarks | crates/rpc-proxy/src/rpc.rs:489-640 | After any other reply it has one more failure and is unhealthy from the limit on; only the third vote for an error changes nothing. |
| Forward.SendsCounted | crates/rpc-proxy/src/rpc.rs:494-638 | Every send is counted once for its provider with its time, as a success if it brought a result and as an error if not. |
| Forward.SendsCountedByMethod | crates/rpc-proxy/src/rpc.rs:468-638 | And once for the request's method as a forward, and as an error unless it brought a result; no other method is touched. |
| Replies.SameStreamExactly | crates/rpc-proxy/src/rpc.rs:342-366 | Two errors have the same signature stream if and only if their codes agree and either message and data agree, or one has only a message and the other only data with that text. |
| Replies.AsIntReads | crates/rpc-proxy/src/rpc.rs:297-305 | An error code counts if and only if it is an integer of 64 bits. |
| Replies.RefusalExactly | crates/rpc-proxy/src/rpc.rs:257-308 | A reply is taken for a rate limit if and only if its status is 429 or 503, its text or its error's message matches the patterns, or its error's code is 429, -32005, -32098 or -32099. |
| Replies.ResultExactly | crates/rpc-proxy/src/rpc.rs:509-584 | A reply is a success with a body if and only if that is JSON without an error member and no rate limit. |
| Replies.CallersErrorExactly | crates/rpc-proxy/src/rpc.rs:313-340 | It is the user's error if and only if it is JSON, no rate limit, and its error's code is -32600, -32601, -32602 or -32700 or its message matches the patterns. |
| Replies.ProvidersErrorExactly | crates/rpc-proxy/src/rpc.rs:535-540 | It is a vote for a signature if and only if it is JSON with any other error that has this signature. |
| Replies.UnreadableExactly | crates/rpc-proxy/src/rpc.rs:585-638 | It is a network error if and only if there is none, or it is neither JSON nor a rate limit. |
| Replies.ClassifiedByError | crates/rpc-proxy/src/rpc.rs:257-340 | Responses counted as successes have no error member, those counted as user or provider errors have one. |
| Forward.NoProviderTwice | crates/rpc-proxy/src/rpc.rs:423-457 | No provider is sent to twice unless the set of tried ones was cleared in between. |
| Forward.VotersDistinct | crates/rpc-proxy/src/rpc.rs:423-457 | As many providers have returned an error as there are votes for it, as long as the tried providers are not cleared between two votes. |
| RepeatedVotes.VotersDistinctBeforehand | crates/rpc-proxy/src/rpc.rs:416-560 | Whatever the providers do, at every point of every call as many of them have returned an error as there are votes for it if and only if, before the call, there is no provider, at least four (by URL) are healthy, or no reply at all counts as a vote. |
| RepeatedVotes.FourVoteOnce | crates/rpc-proxy/src/rpc.rs:423-457 | With four healthy providers the tried ones cannot be cleared between two votes, so each vote is another provider's. |
| RepeatedVotes.OneProviderVotesThrice | crates/rpc-proxy/src/rpc.rs:435-441 | With one healthy provider, whatever the failure limit, there is a call in which it casts all three votes for the error that is returned. |
| Forward.Exhausted | crates/rpc-proxy/src/rpc.rs:641-658 | After all attempts the answer has a maximal vote count; without votes it is the last network error or the given one. |
| Metrics.Conservation | crates/rpc-proxy/src/metrics.rs:264-331 | In every interleaving of record calls each balance between global counters, methods and providers is off by at most one per call in progress. |
| Metrics.TotalsWhenIdle | crates/rpc-proxy/src/metrics.rs:264-331 | With no call in progress: requests = hits + misses over all methods; cache hits = hits over methods; misses over methods = requests over providers; errors = errors over methods + recorded `Other` errors; errors over methods = errors over providers. |
| Metrics.RecordsThroughout | crates/rpc-proxy/src/metrics.rs:154-171 | In every state, also amid calls: each window is the last 100 or 1000 items recorded; each method's hits, misses and errors are the numbers of those recorded for it, its requests their sum and its time the sum of their times; each provider's requests are its successes and errors, its time the sum of the times recorded, and its last use the last one. |
| Metrics.HitInOneGo | crates/rpc-proxy/src/metrics.rs:264-281 | A hit by itself adds one to the hits, the requests and the method's hits, adds its time, and stamps the window. |
| Metrics.RequestInOneGo | crates/rpc-proxy/src/metrics.rs:289-321 | A forwarded request by itself adds one to the requests, to the method's forwards and to the provider's requests, and an error to all three if it failed. |
| Metrics.MetricsCollector.RecordCacheHit | crates/rpc-proxy/src/metrics.rs:264-281 | The whole new state, as the call's updates in turn. |
| Metrics.MetricsCollector.RecordRequest | crates/rpc-proxy/src/metrics.rs:289-321 | The whole new state, as the call's updates in turn. |
| Metrics.MetricsCollector.RecordError | crates/rpc-proxy/src/metrics.rs:323-330 | The counter of the error's kind and no other. |
| Metrics.MetricsCollector.RecordRequestTimestamp | crates/rpc-proxy/src/metrics.rs:332-342 | The newest time enters the window of 1000, the oldest leaves it when full. |
| Registry.GraceMeansEmptyExactly | crates/rpc-proxy/src/registry.rs:178-235 | In every run a set grace start means an empty registry throughout, if and only if no registration completes between the emptiness check and the grace section. |
| Registry.ShutdownIsSafeExactly | crates/rpc-proxy/src/registry.rs:204-230 | As long as no registration has overtaken an earlier check, a shutdown signal finds the registry empty for at least the grace period if and only if no registration, in progress or complete, has come after the check of its round. |
| Registry.EmptySinceMeans | crates/rpc-proxy/src/registry.rs:178-235 | A step between two states with a recorded time of emptiness finds and leaves the registry empty and that time unchanged. |
| Registry.ShutdownDespiteInstance | crates/rpc-proxy/src/registry.rs:204-230 | A run that signals shutdown while an instance is registering. |
| Registry.GraceDespiteInstance | crates/rpc-proxy/src/registry.rs:204-215 | A run in which a registration completes between check and grace section, and the grace period runs although the instance is registered. |
| Registry.ShutdownAtOnce | crates/rpc-proxy/src/registry.rs:217-230 | Its continuation, in which the instance is pruned and shutdown signalled in the same second. |
| Registry.GraceActsExactly | crates/rpc-proxy/src/registry.rs:204-235 | In every run the grace section changes nothing if the check of its round found an instance; otherwise it starts the grace period unless it runs, and signals shutdown if and only if it is positive and over. |
| Registry.StaysRegisteredExactly | crates/rpc-proxy/src/registry.rs:42-51 | A registered process stays so if and only if every pruning finds it running with its last beat at most three intervals old. |
| Registry.RegisteredSince | crates/rpc-proxy/src/registry.rs:132-152 | Beats do not change when it was registered. |
| Registry.EdbRegistry.RegisterEdbInstance | crates/rpc-proxy/src/registry.rs:99-127 | Inserts the instance with the current time and cancels the grace period. |
| Registry.EdbRegistry.Beat | crates/rpc-proxy/src/registry.rs:132-160 | Refreshes a known process only, and returns its registration time. |
| Registry.EdbRegistry.MonitorTick | crates/rpc-proxy/src/registry.rs:178-235 | One round keeps exactly the instances that run and have beaten within three intervals. If one is left it changes nothing else; shutdown is asked for if and only if none is left, the grace period is positive, and it had started that long ago. |
| Registry.EdbRegistry.GetActiveInstances | crates/rpc-proxy/src/registry.rs:271-283 | Exactly the instances that a pruning at this moment would keep. |
| Engine.MutualExclusion | crates/engine/src/core.rs:214-232 | In every interleaving of `prepare` and shutdown at most one call analyses a given transaction. |
| Engine.NeverOverwrites | crates/engine/src/core.rs:321-328 | Storing a handle never replaces one. |
| Engine.AnalysedOncePerShutdown | crates/engine/src/core.rs:155-164 | Successful analyses of a transaction are its shutdowns, plus one if its server is running. |
| Engine.OnlySameHashBlocks | crates/engine/src/core.rs:216-221 | A waiting call can take its lock if and only if no call of the same transaction holds it. |
| Engine.HandleIsLastStored | crates/engine/src/core.rs:223-328 | In every run the running server of a transaction is the one stored last for it and not shut down since. |
| Engine.ReturnsStored | crates/engine/src/core.rs:214-330 | A call returns the address that it stored itself, or that of the server running for the same transaction when it held the lock. |
| Engine.NeverStuck | crates/engine/src/core.rs:214-232 | While a call for a transaction has not returned, some call for it can go on. |
| Engine.Engine.GetRpcServerAddr | crates/engine/src/core.rs:149-151 | The address of the running server of the transaction, if there is one. |
| Engine.Engine.GetOrCreateLock | crates/engine/src/core.rs:216-218 | One lock per transaction, never replaced; the access is one step of the system. |
| Engine.Engine.CheckExisting | crates/engine/src/core.rs:223-232 | With the lock held, a running server is reused, and otherwise the analysis begins. |
| Engine.Engine.StoreHandle | crates/engine/src/core.rs:324-328 | The new handle is stored for its transaction; the access is one step of the system. |
| Engine.Engine.ShutdownRpcServer | crates/engine/src/core.rs:155-164 | Removes the handle and says whether there was one. |
| Connections.ConservedExactly | crates/edb/src/cmd/server.rs:206-306 | In every run the stored counts are the numbers of live connections throughout, if and only if no first request ever overwrites a count and no successful reply is lost. |
| Connections.CountsStayPositive | crates/edb/src/cmd/server.rs:279-293 | In every run whatsoever no stored count is zero, so the decrement never underflows. |
| Connections.LastToCloseShutsDown | crates/edb/src/cmd/server.rs:279-306 | While counts are right, a close leads to a shutdown if and only if it is that of the only live connection. |
| Connections.ServedExactlyWhen | crates/edb/src/cmd/server.rs:206-306 | In every run each live connection has a running server throughout, if and only if no server is shut down while another client of its transaction is live, and no client is counted after its server is gone. |
| Connections.SerialStrandsNobody | crates/edb/src/cmd/server.rs:206-306 | Neither happens when requests for one transaction overlap neither each other nor a close. |
| Connections.SerialRuns | crates/edb/src/cmd/server.rs:206-306 | In such runs counts are right, live connections have a running server, and a transaction without clients has none. |
| Connections.OverlappingFirstRequests | crates/edb/src/cmd/server.rs:244-248 | Two overlapping first requests end with a live connection whose server the other one shut down. |
| Connections.FoundButShutDown | crates/edb/src/cmd/server.rs:206-214 | A server found before the last close and counted after it leaves a counted connection without a server. |
| Connections.ConnectionServer.HandleReplayRequest | crates/edb/src/cmd/server.rs:206-250 | An uninterrupted request increments, inserts or gives up, as the steps of the system say. |
| Connections.ConnectionServer.ConnectionClosed | crates/edb/src/cmd/server.rs:279-306 | The decrement and the shutdown it may cause, as the steps of the system say. |
| TraceForest.EveryEntryOnce | crates/common/src/types/trace.rs:309-341 | The printed tree shows every entry exactly once. |
| TraceForest.ParentBeforeChild | crates/common/src/types/trace.rs:480-491 | Every entry with a parent, as `get_parent` finds it, is printed after it. |
| TraceForest.DepthFirst | crates/common/src/types/trace.rs:309-491 | One line comes before another if and only if its entry is above the other's, or they are below two siblings of which its own has the smaller index. |
| TraceForest.SubtreesAreContiguous | crates/common/src/types/trace.rs:309-491 | The lines of an entry and of everything below it are next to each other. |
| TraceForest.ParentsAndChildren | crates/common/src/types/trace.rs:533-542 | `get_parent` and `get_children` are inverse to each other. |
| TraceForest.Layout | crates/common/src/types/trace.rs:344-491 | The indentation is the number of ancestors; connectors and bars show which of them are last among their siblings. |
| TraceForest.TreePrinter.PrintTraceTree | crates/common/src/types/trace.rs:309-341 | The loop and the mutual recursion with the mutable prefix terminate and append exactly the printed tree. |
| TraceForest.TreePrinter.PrintTraceEntry | crates/common/src/types/trace.rs:344-491 | An entry's line, then the trees of its children as `get_children` lists them. |
| Ether.DenotesRoundedDown | crates/common/src/types/trace.rs:569-591 | Read as a decimal number, the text is the amount rounded down to the last place shown. |
| Ether.ErrorBound | crates/common/src/types/trace.rs:569-591 | The text never exceeds the amount, is off by less than 10^-6 ETH below one ETH and 10^-4 ETH from there on, and is exact for whole multiples only. |
| Ether.Monotonic | crates/common/src/types/trace.rs:569-591 | Larger amounts never read smaller, also across one ETH. |
| Ether.DustReadsZero | crates/common/src/types/trace.rs:569-581 | The text reads zero if and only if the amount is below 10^12 wei, and is a bare `0` for zero only. |
| Ether.NoTrailingZeros | crates/common/src/types/trace.rs:582-591 | From one ETH on there are at most four decimals, and the last is not 0. |
| Breakpoints.RoundTripExactly | crates/common/src/types/breakpoint.rs:62-153 | The text with the full address parses back to the same breakpoint if and only if the path has no ':' and no " if ", and the condition has single plain spaces between words. |
| Breakpoints.ReadsOpcode | crates/common/src/types/breakpoint.rs:52-140 | `@address:number`, with or without ` if $condition`, is a place in the code. |
| Breakpoints.ReadsSource | crates/common/src/types/breakpoint.rs:52-153 | `@address:path:number`, with or without ` if $condition`, is a line of a source file. |
| Breakpoints.ReadsCondition | crates/common/src/types/breakpoint.rs:62-100 | `if $condition` is a bare condition, and nothing at all the empty breakpoint. |
| Breakpoints.ReprintedIsReread | crates/common/src/types/breakpoint.rs:62-153 | Whatever text the parser accepts, its result printed in full parses to the same result. |
| Breakpoints.ParsedIsClean | crates/common/src/types/breakpoint.rs:62-153 | Parsed paths have no ':' and no " if ", and parsed conditions are normalized. |
| Breakpoints.CutAfterLocation | crates/common/src/types/breakpoint.rs:75-81 | The slice that is one character too long picks up the separating space only, which the trim removes. |
| Breakpoints.LocationRoundTrip | crates/common/src/types/breakpoint.rs:124-153 | A printed location is read back when its path has no ':', whatever the address's casing. |
| Breakpoints.DisplayedIsReread | crates/common/src/types/breakpoint.rs:35-50 | What `Display` prints parses back to the same breakpoint if and only if the breakpoint is empty. |
| Strings.NormalizeExactly | crates/common/src/expression.rs:18-20 | Normalization is idempotent, and its fixed points are the texts whose white space is single plain spaces between other characters. |
| Strings.WordsSurvive | crates/common/src/expression.rs:18-20 | Normalization keeps the words and their order, and every character that is not white space. |
| Snapshot.ParsePrintKey | crates/common/src/types/snapshot.rs:168-201 | The text of a key parses back to it, for every word parser that reads decimals. |
| Snapshot.KeyFormat | crates/common/src/types/snapshot.rs:162-174 | The text is the address, a colon and the slot in decimal. |
| Snapshot.PrintKeyInjective | crates/common/src/types/snapshot.rs:162-174 | No two keys share a text. |
| Snapshot.Serialize | crates/common/src/types/snapshot.rs:162-174 | The text map holds every entry under its printed key and nothing else, in any iteration order. |
| Snapshot.Deserialize | crates/common/src/types/snapshot.rs:177-204 | For every word parser: succeeds if and only if every key is well formed; each slot then gets the value of one of its keys; an error is that of a malformed key. |
| Snapshot.RoundTrip | crates/common/src/types/snapshot.rs:162-204 | Of a written map, in whatever order it is walked, the original storage and no other is read. |
| Snapshot.WriteAndRead | crates/common/src/types/snapshot.rs:162-204 | Writing and reading gives the storage back. |
| Snapshot.OrderMattersExactly | crates/common/src/types/snapshot.rs:184-203 | The order of the entries matters if and only if two keys are spellings of one slot with different values. |

## Left out

Abstractions that the statements rest on:

- HTTP and WebSocket transport, timers, child processes and liveness probes are inputs: replies, clock readings, outcomes of file-system calls, the set of running processes.
- The 64-bit hashes of keys and of error signatures are parameters. That keys do not collide on the requests sent is a hypothesis of `TransparentUpstream` and `TransparentUnlessOverlooked` alone.
- The string tables (cacheable methods, rate-limit, user-error and "unsupported" patterns) and the lower-casing they use are parameters.
- JSON text syntax: requests and responses are JSON values, whose numbers are printed canonically, and the cache's serialization is a byte sequence. A cache or legacy file that cannot be parsed counts as empty, as in the code.
- Non-negative integers are unbounded: overflow of `u32` and `u64` counters, weights and failure counts is not modelled. The round-robin counter, `usize` numbers in breakpoints and 256-bit slots have their bounds.
- The text forms of addresses and 256-bit words are defined in libraries that are not part of this model: an address is `0x` and 40 hexadecimal digits in any casing, and the parser of words is a parameter that is known to read decimals back.
- Floating-point averages and percentages.

Not modelled:

- `detailed_stats`, the listing of cache entries, and the choice of the cache path: reporting and set-up.
- `get_weighted_provider`: marked deprecated in the source, it is the modelled choice with nothing excluded.
- `requests_per_minute`: a filter over a window whose contents are modelled.
- The analysis inside `prepare`, forking, instrumentation and the Solidity front end: they appear as the one step between taking the lock and storing the handle, which may also fail.
- The terminal interface, colours and labels of trace lines: a line is its entry, indentation, connector and bars.
- Unwinding after a panic in the splitter: the model says exactly when it panics.

Narrower than the source:

- Forward.RequestForwarder.ForwardRequest: of the network errors only whether there was one is kept, not the text of the last; the clock is read once per attempt; and the providers change through this call alone, where concurrent requests and health checks also mark them.
- RpcHandler.Handler.HandleRequest: one request on its own; interleaved requests are the step system of `Transparency`.
- CacheRuns.SavePolicy: each operation of the manager is one step; of other processes that write the same files between its load and its write only the replacement of the directory is modelled, in `DirectoryReplace`.
- Metrics.MetricsCollector.AddHistoricalPoint: reads the counters at one instant, where the code reads them one after the other.

Where the code and its own documentation differ, the model follows the code:

- `atomic_directory_replace` is described as atomic, but it removes the old directory file by file before the rename. A failed rename leaves nothing of the old snapshot (`SaveShrinksExactlyWhen`), and a reader is not protected either (`ReaderMayMix`).
- Deletes are described as removing entries only, but their save without a merge also drops entries that were only on disk: `DeleteTakesAnother` shows it, and `DeleteSparesExactly` says when nothing else goes.
- The retry loop's comment speaks of multiple providers returning the same error, but after a clear one provider can vote again: `OneProviderVotesThrice` shows it, and `VotersDistinctBeforehand` says for which providers no call can get there.
- `max_items` is described as the maximal number of entries, but 0 still admits one: `ZeroAdmitsOne` shows it, and `CapacityKeptExactly` says that no other capacity is exceeded.
- The size rule of a save is described as bounding the cache on disk, but the legacy file is merged into every load: `LegacyGrowsForever` shows it, `SaveBoundExactly` says when one save keeps to the rule and `DiskBoundedExactly` when all do.
