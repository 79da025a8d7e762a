# Models of the danmaku server

The danmaku server stores timed comments ("danmaku") of videos. It merges comment pools of several providers, caches
the merged views, refreshes pools in the background, takes submissions under moderation rules, and speaks several
comment formats. This project models the parts whose correctness rests on an algorithm, on a protocol between
concurrent callers, or on two pieces of code being inverse, and proves what they promise.

| file | what it models |
|---|---|
| `Domain.dfy`, `Runs.dfy`, `Collecting.dfy`, `StableSort.dfy`, `Text.dfy`, `Decimal.dfy`, `Bits.dfy` | shared records, induction over runs, gathering lists, Go's stable sort and its contract, white space, decimal text, bitwise operators |
| `Deduplication.dfy`, `DeduplicationLaws.dfy` | merging the pools of one video: the fast form computes the naive quadratic rule, and what that rule guarantees |
| `RedisCache.dfy`, `RedisClient.dfy` | the two-level Redis cache: every interleaving of commits, revision bumps, expiries and readers, and the client calls as written |
| `MergedMemory.dfy` | the in-process cache of merged views |
| `Refresh.dfy` | the bounded background scheduler: bounds, one fetch per key, shutdown |
| `Segments.dfy` | the all-or-nothing worker pool for upstream segments |
| `Wire.dfy`, `WireMessages.dfy` | the Protocol Buffers reader and writer (Protocol Buffers Encoding, sections "Base 128 Varints" and "Message Structure") |
| `BilibiliId.dfy`, `KnownIds.dfy` | the BVID/AID codec, and the pairs of id and text that are known |
| `BilibiliXml.dfy` | the bilibili XML parameter strings |
| `NativeRules.dfy`, `Submission.dfy`, `SubmissionLaws.dfy`, `SubmissionStore.dfy` | moderation rules; submissions, rule creation and rule deletion as interleaved transactions; the transactions as written |
| `CatalogStore.dfy` | claims, merges and manual blocks of a provider's pool tables |
| `GroupRegistry.dfy` | the two-way index of live groups |

Three shapes recur. A loop or an object that the program updates in place is a method or a class, proved against a
specification function or an abstract state; laws of that function follow as lemmas. A protocol between concurrent
callers is a system of steps, one step for each region that runs without interference; what a step keeps is proved
step by step and then holds on every run (`Runs.KeptOverRun`). Where the program's calls are sequences of such
steps (`RedisClient`, `MergedMemory`, `Refresh`, `SubmissionStore`), classes carry them out as written. Their `Valid()`
says that the object is in a state the system of all interleavings can reach, so every call is proved to perform steps of
the system and nothing else, and promises of its result what holds of every run. Objects whose calls are single steps
(`CatalogStore`, `GroupRegistry`) carry the history of calls, and hold exactly what the history tells.

Three results deserve to be read as findings.

- The XML format is lossless exactly when no author contains a comma: an author is cut at its first comma
  (`BilibiliXml.LosslessWithoutCommas`).
- A rule scan that renames an author is final as long as no rule maps to that author. The code comment promises that a
  scan cannot miss a submission in flight under the old name, which holds (`SubmissionLaws.ScanMissesNothing`). A rule
  that maps another name to the old one brings it back with the next submission under that name which no denial, deleted
  video or duplicate stops (`SubmissionStore.MappedNameReturns`; `SubmissionStore.ScanUndone` gives rules and a
  submission for which this happens).
- The in-process cache publishes exactly the loads that no invalidation straddled until its 64-bit revision wraps
  around within one load; the exact condition is `MergedMemory.PublishesExactlyUnstraddled`.

## Model

| member | source | states |
|---|---|---|
| StableSort.SliceStable | internal/api/merged.go:28-33 | the in-place library sort leaves the array as the one stable sort of its old contents |
| StableSort.StableMeetsContract | internal/api/merged.go:57 | the sort is sorted and every class of ties keeps its old order |
| StableSort.StableUnique | internal/api/merged.go:57 | any two results that meet the contract of a stable sort are equal |
| Deduplication.SearchFloats | internal/api/merged.go:45 | the binary search returns the boundary between the times below x and the others |
| Deduplication.SearchDecides | internal/api/merged.go:45-48 | the search at t-1 finds a time up to t+1 if and only if some kept item has the same text within one second |
| Deduplication.FoldPending | internal/api/merged.go:52-55 | whatever the map order, every accepted list ends sorted and holds exactly its old times and the pending ones |
| Deduplication.AcceptPool | internal/api/merged.go:37-51 | one pool adds exactly what the naive rule adds, judged by strictly earlier pools |
| Deduplication.DeduplicatePools | internal/api/merged.go:27-59 | the fast form returns the naive rule's result for every input; the caller's pools end native first, then larger first, each rank in its old order; the result runs forward in time, and each instant in the order the pools kept it |
| Deduplication.PriorityMeaning | internal/api/merged.go:28-33 | sorted pools stand native first, and then by the larger of size and number of items |
| Deduplication.RankOrderStays | internal/api/merged.go:28-33 | pools of the same kind and the same larger number keep their old order |
| Deduplication.TimeMeaning | internal/api/merged.go:57 | the final sort leaves finite times that never fall, and what was kept of one instant in its old order |
| DeduplicationLaws.OutputIsDoubleStableSort | internal/api/merged.go:28-57 | pools are in stable priority order, the output in stable time order of what they keep |
| DeduplicationLaws.OutputMembers | internal/api/merged.go:36-56 | an item is in the output if and only if some pool holds it with a valid time and is native or sees no earlier twin |
| DeduplicationLaws.RuleSpelledOut | internal/api/merged.go:39-49 | a pool keeps exactly its items with finite times from 0 that are native or have no equal text within one second among what earlier pools keep |
| DeduplicationLaws.ContributionInOrder | internal/api/merged.go:38-51 | what a pool keeps stands in the pool's own order, nothing twice |
| DeduplicationLaws.DroppedHasEarlierWitness | internal/api/merged.go:43-48 | a dropped item with a valid time comes from a non-native pool and has a kept twin in a strictly earlier pool |
| DeduplicationLaws.Absorption | internal/api/merged.go:36-56 | every item with a valid time is in the output or has a twin there within one second |
| DeduplicationLaws.Separation | internal/api/merged.go:44-48 | equal texts kept from two pools, the later not native, are more than one second apart |
| DeduplicationLaws.RepetitionsPreserved | internal/api/merged.go:25-26 | inside one pool all repetitions of an item survive or all fall |
| DeduplicationLaws.Reabsorption | internal/api/merged.go:27-59 | the merged view merged again as the native pool beside the same foreign pools is returned unchanged |
| RedisCache.BumpProviderKeeps | internal/store/redis_cache.go:109 | bumping a provider's revision keeps the freshness of every entry and reader |
| RedisCache.BumpMergedKeeps | internal/store/redis_cache.go:110-112 | so does bumping the merged revision, because the provider's revision went first |
| RedisCache.StorePoolKeeps | internal/store/redis_cache.go:88-97 | storing a loaded pool under the revision read before the load keeps freshness |
| RedisCache.StoreMergedKeeps | internal/store/redis_cache.go:88-97 | storing a merged view under the merged revision read before it was gathered keeps freshness |
| RedisCache.StepKeepsInvariant | internal/store/redis_cache.go:67-114 | every step of writers, expiry and readers keeps the freshness invariant |
| RedisCache.StoredEntriesAreFresh | internal/store/redis_cache.go:67-114 | on every run a stored value reflects every write whose bump its revision counts |
| RedisCache.ReadsAreFresh | internal/store/redis_cache.go:67-114 | a read that begins after a writer's invalidation returned never yields data older than that write |
| RedisClient.Cache.InvalidateDanmakuCache | internal/store/redis_cache.go:101-114 | the call is the provider bump followed by the merged bump, raises both revisions by one and no other, and finishes its write |
| RedisClient.Cache.CachedPool | internal/store/redis_cache.go:67-99 | one lookup returns the entry of the current revision exactly where Redis gives the revision and answers with it, and else loads and stores under the revision read; it performs only steps of the system |
| RedisClient.Cache.LoadMerged | internal/api/merged.go:126-175 | gathering the pools of the plan in order performs only steps of the system, fills the view with what `GatherMeaning` tells and leaves the entries that go with it |
| RedisClient.GatherMeaning | internal/store/redis_cache.go:67-99 | each gathered pool is as new as the database or what was stored before, where Redis answers; the first occurrence of a stored pool is exactly what was stored |
| RedisClient.GatherKeeps | internal/store/redis_cache.go:94-97 | gathering stores only what is as new as the database, and leaves the entries of other pools alone |
| RedisClient.Cache.CachedMergedDanmaku | internal/store/redis_cache.go:67-99 | the result shows every write whose invalidation had returned before the call; it is the stored view exactly where Redis answers with one, and else what was gathered, stored under the revision read at the start |
| MergedMemory.MergedMemoryCache.Find | internal/store/redis_cache.go:31-40 | a hit is the stored value of an entry that has not expired, and shows every write whose invalidation has run, before a wrap-around |
| MergedMemory.MergedMemoryCache.Publish | internal/store/redis_cache.go:49-63 | a load that straddled an invalidation changes nothing, one that did not is stored to expire after its lifetime, one hour by default; at most 128 entries stay, all of them fresh |
| MergedMemory.MergedMemoryCache.InvalidateDanmakuCache | internal/store/redis_cache.go:101-105 | no entry survives, and every load begun before is too old to be stored |
| MergedMemory.MergedMemoryCache.CachedMergedDanmaku | internal/store/redis_cache.go:27-65 | a whole call returns the unexpired entry or a view of all pools as they are, stores the latter, shows every invalidated write and keeps the bound |
| MergedMemory.PublishesExactlyUnstraddled | internal/store/redis_cache.go:51 | a load is published if and only if the invalidations since it began are a multiple of 2^64 |
| MergedMemory.StoresExactly | internal/store/redis_cache.go:51-63 | what is stored, until when, and that other entries stay below the bound; nothing changes when the load straddled an invalidation |
| MergedMemory.StepKeepsInvariant | internal/store/redis_cache.go:27-65 | every step keeps the counts, the bound of 128 entries and, before a wrap-around, freshness |
| MergedMemory.EntriesAreFresh | internal/store/redis_cache.go:49-63 | on every run at most 128 entries, each loaded after the commits of all completed invalidations |
| MergedMemory.ReadsAreFresh | internal/store/redis_cache.go:27-65 | a read that begins after a write was invalidated shows that write |
| Refresh.BackgroundRefresh.Admit | internal/api/refresh.go:29-37 | admits exactly when open, not cancelled, the key without owner and fewer than 256 keys owned; the key then belongs to this goroutine alone, and the bounds of 256 keys and 8 slots hold |
| Refresh.BackgroundRefresh.RunOne | internal/api/refresh.go:39-52 | the call on top of the stack runs; a key is dropped only with its slot returned, and the group is left last |
| Refresh.BackgroundRefresh.Goroutine | internal/api/refresh.go:38-62 | fetches exactly when it gets a slot and finds its context neither cancelled nor late, and says so; whichever exit it takes, its key is free, its slot returned, the group one smaller |
| Refresh.BackgroundRefresh.Close | internal/api/refresh.go:65-69 | from the closing region on every key is refused |
| Refresh.BackgroundRefresh.AfterWait | internal/api/refresh.go:70 | when the wait returns no goroutine, key or slot is left |
| Refresh.RefusalMeaning | internal/api/refresh.go:31 | in every reachable state a key is refused exactly when closed, cancelled, owned by a goroutine, or 256 keys are owned |
| Refresh.FetchStarts | internal/api/refresh.go:50-61 | a goroutine starts its fetch exactly when it holds a slot and its context is neither cancelled nor late |
| Refresh.NoFetchOnceCancelled | internal/api/refresh.go:56-67 | on every run no fetch starts after a cancellation, and so none after the closing region |
| Refresh.FreeSlotIsTaken | internal/api/refresh.go:50-52 | whenever fewer than eight slots are held, a waiting goroutine can take one |
| Refresh.TaskStepEffect | internal/api/refresh.go:38-62 | a slot goes with the call that releases it, a key with the call that drops it, a goroutine with its last call |
| Refresh.StepCounts | internal/api/refresh.go:29-63 | every step keeps slots in use equal to goroutines holding one, at most 8, and the wait group equal to the goroutines |
| Refresh.StepKeepsKeys | internal/api/refresh.go:29-63 | every step keeps the active set equal to the keys owned by goroutines, each owned once |
| Refresh.Safety | internal/api/refresh.go:29-63 | on every run at most 256 keys and 8 fetches, never two live fetches for a key, and a key stays active while its slot is held |
| Refresh.DeferredInOrder | internal/api/refresh.go:39-55 | at every exit, a panic included, the stack of deferred calls releases the slot before it drops the key and drops the key before it leaves the group |
| Refresh.ClosedAdmitsNothing | internal/api/refresh.go:29-34 | after the closing region no goroutine is added and the wait group never grows |
| Refresh.ShutdownIsFinal | internal/api/refresh.go:65-71 | once close has returned nothing runs, nothing is active, the wait group is zero, and nothing can start |
| Refresh.TaskStepUsesWork | internal/api/refresh.go:38-62 | after the closing region every goroutine step lowers a measure and nothing raises it |
| Refresh.ClosedWorkIsBounded | internal/api/refresh.go:65-71 | so the goroutines take a bounded number of steps in any schedule |
| Refresh.EveryTaskCanMove | internal/api/refresh.go:38-62 | every goroutine has a step to take |
| Refresh.ShutdownCompletes | internal/api/refresh.go:65-71 | from every closed state that can be reached, goroutines take boundedly many steps, and where they can take no more, none is left and close returns |
| Segments.Concatenate | internal/api/catalog_upstream.go:330-337 | returns all segments in order, or the size error exactly when they exceed 1,000,000 comments |
| Segments.Conclude | internal/api/catalog_upstream.go:324-337 | a recorded error is reported as it is, else a cancellation, else all segments in order or the size error |
| Segments.StepKeepsInvariant | internal/api/catalog_upstream.go:296-323 | every step of workers, producer and cancellation keeps every delivered segment accounted for while nothing failed |
| Segments.AllOrNothing | internal/api/catalog_upstream.go:284-338 | success means no error and no cancellation, and is then all loads in order; the last size check never fires on its own |
| Segments.LostSegmentFails | internal/api/catalog_upstream.go:300-321 | one failed, skipped or undelivered segment makes the result an error in every schedule |
| Segments.FirstErrorReported | internal/api/catalog_upstream.go:311-326 | on every run the error recorded first is the one reported, whatever is recorded or cancelled later |
| Segments.FailureExplained | internal/api/catalog_upstream.go:306-337 | every reported error is one that a load returned, the size error of more than 1,000,000 comments, or a cancellation from outside |
| Segments.SucceedsExactly | internal/api/catalog_upstream.go:284-338 | a finished run succeeds if and only if no load failed, nobody cancelled from outside and there are at most 1,000,000 comments |
| Segments.BoundedConcurrency | internal/api/catalog_upstream.go:296-304 | at most four loads run at once, each of a different segment |
| Segments.StepsRunOut | internal/api/catalog_upstream.go:296-323 | every step but an outside cancellation lowers a measure |
| Segments.NeverStuck | internal/api/catalog_upstream.go:296-323 | until the end some step is possible, so no schedule deadlocks |
| Wire.GroupFits | internal/api/iqiyi.go:527 | the shifted group fits 64 bits and shares none with the groups before it, so that or is addition |
| Wire.ReadIqiyiVarint | internal/api/iqiyi.go:520-533 | the loop of masks, shifts and ors computes the base-128 value told from the highest group down, with its two errors |
| Wire.DecodeInRange | internal/api/iqiyi.go:520-533 | on arbitrary bytes a decoded varint stays in range, advances by one to ten bytes and fits 64 bits |
| Wire.DecodeFailures | internal/api/iqiyi.go:524-532 | it fails if and only if the bytes run out or the tenth byte exceeds 64 bits |
| Wire.VarintRoundTrip | internal/api/iqiyi.go:520-533 | reading the base-128 encoding of any uint64, wherever it stands, returns the number and the end |
| Wire.EncodingMeaning | internal/api/export.go:201-213 | an encoding is the shortest one with the number's groups of seven bits, lowest first, and the high bit on all bytes but the last |
| Wire.BodyAdvances | internal/api/iqiyi.go:481-514 | the content of a field never moves the offset back or out of range |
| Wire.ReadBody | internal/api/iqiyi.go:480-515 | the cases of the wire type, with their truncation errors, each read in range |
| Wire.ParseIqiyiProtoFields | internal/api/iqiyi.go:468-518 | the loop ends on arbitrary bytes with the fields read field by field, or the first error |
| Wire.FieldRoundTrip | internal/api/export.go:201-213 | one written field is read back and the reader goes on right behind it |
| Wire.FieldsRoundTrip | internal/api/iqiyi.go:468-518 | reading any written fields, fixed ones of other writers among them, with numbers from 1 up to what fits a 64-bit key, returns exactly those fields in order |
| Wire.ReadingStops | internal/api/iqiyi.go:476-515 | behind written fields, a field number zero or an unknown wire type ends the reading, and the fields before it stay |
| Wire.ReadingFails | internal/api/iqiyi.go:481-513 | behind written fields, a field that breaks off fails the whole reading with the problem of its kind |
| Wire.GuideExamples | internal/api/export.go:201-213 | the examples of the encoding guide: 300, field 1 with 150, and a text in field 2 |
| WireMessages.Append | internal/api/export.go:201-213 | each append helper adds exactly one encoded field |
| WireMessages.WriteMessage | internal/api/export.go:180-195 | one comment becomes its twelve fields in order, the timestamp nested, as `MessageHolds` spells out |
| WireMessages.DanuniProtobuf | internal/api/export.go:177-199 | the export read back is one message for each comment, in order, with each value of the comment under its own field number |
| WireMessages.TimestampRoundTrip | internal/api/export.go:190-192 | the nested timestamp is read back |
| WireMessages.MessageRoundTrip | internal/api/export.go:180-195 | one exported comment is read back with its nested timestamp |
| WireMessages.MessageHolds | internal/api/export.go:180-195 | one exported comment read back shows each of its values under the field number of that value |
| WireMessages.DanuniRoundTrip | internal/api/export.go:177-199 | the export read back holds one field for each comment, in order, with that comment's message |
| WireMessages.ExportRead | internal/api/export.go:177-199 | the whole export read back, down to the values of each comment |
| WireMessages.IqiyiProtoString | internal/api/iqiyi.go:535-542 | the value of the first field with the number, or the empty string |
| WireMessages.ReadBlock | internal/api/iqiyi.go:421-440 | the contents and times of one block, skipping what cannot be read |
| WireMessages.IqiyiDanmaku | internal/api/iqiyi.go:445-466 | one record for each content that has a finite time: that time, mode 1, color 16777215, and the text, decoded if asked; where all can be shown, all are, in order |
| WireMessages.RecordsComplete | internal/api/iqiyi.go:445-466 | contents that can all be shown give one record each, in order |
| WireMessages.ParseIqiyiProto | internal/api/iqiyi.go:406-443 | the records of a document's comments in order; only the document itself must be readable |
| WireMessages.UnreadableSkipped | internal/api/iqiyi.go:414-432 | a block or an item that is empty, of another number or cannot be read leaves the comments of all others as they are |
| WireMessages.BlockRoundTrip | internal/api/iqiyi.go:413-441 | a written block is read back as its comments, with the block's time where an item has none |
| WireMessages.BlockRecords | internal/api/iqiyi.go:413-466 | the records of a written block, field by field |
| WireMessages.DocumentRoundTrip | internal/api/iqiyi.go:406-443 | a written document is read back as its comments in order, through both levels of nesting |
| BilibiliId.AlphabetSpelled | internal/domain/bilibili_id.go:10 | the digit table spells the alphabet of the source |
| BilibiliId.EncodedHasNineDigits | internal/domain/bilibili_id.go:19-24 | every encoded id lies between 58^8 and 58^9 |
| BilibiliId.EncodedInverse | internal/domain/bilibili_id.go:49 | masking and undoing the exclusive or recovers the id |
| BilibiliId.DigitsReadBack | internal/domain/bilibili_id.go:41-48 | reading base-58 digits inverts writing them |
| BilibiliId.AIDToBVID | internal/domain/bilibili_id.go:13-28 | the backward fill and the two swaps write exactly the nine digits, for exactly the ids from 1 to 2^51-1 |
| BilibiliId.FillDigits | internal/domain/bilibili_id.go:20-24 | the backward loop overwrites the zeros with exactly nine digits |
| BilibiliId.ReadDigits | internal/domain/bilibili_id.go:41-48 | the loop reads the digits, or fails at the first foreign byte, within an int64 |
| BilibiliId.BVIDToAID | internal/domain/bilibili_id.go:30-55 | the decoder in place, with all its rejections and without overflow |
| BilibiliId.AcceptsExactlyTheImage | internal/domain/bilibili_id.go:30-55 | decoding succeeds with an id if and only if the normalized text is the encoding of that valid id |
| BilibiliId.RoundTrip | internal/domain/bilibili_id.go:13-55 | decoding an encoded id returns it, so encoding is injective |
| BilibiliId.LegacyForm | internal/domain/bilibili_id.go:57-63 | the ten-character form, in whatever white space, decodes as the full form does |
| BilibiliId.DigitPlaces | internal/domain/bilibili_id.go:18-26 | where each of the nine digits lands in the text |
| KnownIds.KnownIds | internal/domain/bilibili_id_test.go:10-14 | the five known pairs of id and text, in both directions |
| KnownIds.KnownLegacy | internal/domain/bilibili_id_test.go:37-41 | the known legacy text is decoded, with blanks around it or not |
| Text.TrimsBlanks | internal/domain/bilibili_id.go:58 | blanks on either side of visible characters are trimmed away, and nothing else |
| Text.SpacesOfUnicode | internal/domain/bilibili_id.go:58 | white space in the basic plane is exactly what Unicode lists |
| Decimal.ParseFormatInt | internal/api/bilibili.go:379-383 | parsing inverts printing on every int64 |
| Decimal.FormatMeaning | internal/api/public.go:345-347 | printing writes the decimal digits of the number without a leading zero |
| Decimal.ParseMeaning | internal/api/bilibili.go:379-383 | digits with or without a sign are read as their number, held within an int64 |
| Decimal.ParseFailure | internal/api/bilibili.go:379-383 | a foreign character behind digits in range, or no digit at all, reads as zero |
| BilibiliXml.SplitJoin | internal/api/bilibili.go:372 | splitting at commas inverts joining for parts without commas |
| BilibiliXml.JoinSplit | internal/api/bilibili.go:372 | the parts of any text hold no comma and join to the text again |
| BilibiliXml.WriteXML | internal/api/public.go:337-350 | one entry for each item with its text and the parameters time, mode, size, color, timestamp, pool, author and again the timestamp between commas |
| BilibiliXml.ParseBilibiliXML | internal/api/bilibili.go:370-388 | entries of at least seven parts become one record each, part by part; `ReadNext` tells it for entries in general |
| BilibiliXml.ReadNext | internal/api/bilibili.go:371-387 | one more entry adds one record of its first seven parts and its text, or nothing when it has fewer |
| BilibiliXml.WrittenParts | internal/api/public.go:344-348 | written parameters split into the printed fields, the author up to its first comma, and at the end the timestamp |
| BilibiliXml.XmlRoundTrip | internal/api/public.go:337-350 | reading back returns every item in order, with the author up to its first comma |
| BilibiliXml.LosslessWithoutCommas | internal/api/public.go:344-348 | the format loses nothing else if and only if no author contains a comma |
| SubmissionStore.NormalFormFits | internal/store/native_rules.go:61-72 | a rule that is accepted maps a name to another, or replaces nothing; only author rules scan |
| NativeRules.ApplyNativeRules | internal/store/native_rules.go:175-208 | in order of the rules the first address that lies inside or cannot be parsed decides the error; else a keyword anywhere in the lowered text deletes, and the rule of the shown name replaces the author and nothing else |
| NativeRules.NormalizeNativeRule | internal/store/native_rules.go:55-96 | exactly which inputs become which rule, with the bound of 200 characters |
| NativeRules.ApplyMeaning | internal/store/native_rules.go:175-208 | denial, soft deletion and the one mapping of the author, told by which rules there are |
| NativeRules.OrderIndependent | internal/store/native_rules.go:187-206 | any order of rules unique per kind and value gives the same outcome, unless a broken prefix and a denial compete |
| NativeRules.ConflictDependsOnOrder | internal/store/native_rules.go:189-196 | when they do compete, two orders of the same rules give different errors |
| NativeRules.BrokenRuleNeverKeeps | internal/store/native_rules.go:190-193 | a stored prefix that does not parse fails the submission in every order |
| NativeRules.StoredUnder | internal/store/native_rules.go:201-204 | the exact condition for a submission to be stored under a name: mapping applies once even when rules chain |
| SubmissionLaws.LockTextInjective | internal/store/postgres.go:603-617 | two submissions hash the same text if and only if video, address text and comment text agree |
| SubmissionLaws.BigEndianBytes | internal/store/postgres.go:610-611 | the length before each hashed value is written with the highest byte first |
| SubmissionLaws.StepKeepsGuard | internal/store/postgres.go:538-601 | every step of every transaction keeps stored rows spaced and staged submissions clear of their window |
| SubmissionLaws.DuplicateGuard | internal/store/postgres.go:574-597 | in every interleaving equal submissions are stored in time order and more than 30 seconds apart |
| SubmissionLaws.RowStays | internal/store/native_rules.go:140-146 | on every run a stored row keeps its video, address, text and time |
| SubmissionLaws.StepKeepsWriterAlone | internal/store/native_rules.go:24-25 | whoever holds the exclusive lock is alone with the rules |
| SubmissionLaws.StepKeepsRuleInvariant | internal/store/native_rules.go:119-173 | every step keeps the rules unique and well formed, and every scan's result current until it commits |
| SubmissionLaws.ScanClearsName | internal/store/native_rules.go:140-149 | when a scan commits, the name is on no row and on no submission in flight |
| SubmissionLaws.ScanMissesNothing | internal/store/native_rules.go:21-25 | while the rule exists and no rule maps to its name, nothing is stored under that name, in every interleaving |
| SubmissionStore.HashInput | internal/store/postgres.go:603-614 | the loop writes each value behind its length |
| SubmissionStore.Database.FindDuplicate | internal/store/postgres.go:37-45 | says exactly whether there is a row of the same video, address and text in the window |
| SubmissionStore.Database.Insert | internal/store/postgres.go:538-601 | each verdict if and only if its condition on the rules, the video and the rows of the last 30 seconds holds; a denied submission leaves no trace, a duplicate makes its video known, a stored one adds exactly one row |
| SubmissionStore.Database.ReplaceAuthor | internal/store/native_rules.go:140-146 | replaces the author of exactly the matching rows and counts them |
| SubmissionStore.Database.CreateNativeRule | internal/store/native_rules.go:119-154 | refuses what has no normal form, reports a rule of the same kind and value with only a number drawn, or adds the rule and gives every row shown under a scanned name the replacement |
| SubmissionStore.Database.DeleteNativeRule | internal/store/native_rules.go:156-173 | removes exactly the rule of that kind and id and says whether there was one |
| SubmissionStore.InsertReachable | internal/store/postgres.go:548-596 | a submission run alone is a run of the transaction system |
| SubmissionStore.CreateReachable | internal/store/native_rules.go:124-149 | so is a rule creation |
| SubmissionStore.DeleteReachable | internal/store/native_rules.go:160-172 | so is a rule deletion |
| SubmissionStore.ReachableIsRight | internal/store/postgres.go:538-601 | whatever happened before, stored rows are spaced and the rules are well kept |
| SubmissionStore.RepetitionRefused | internal/store/postgres.go:35-45 | repeating a stored submission within 30 seconds is refused in every later state of every run |
| SubmissionStore.LetThroughIsStored | internal/store/postgres.go:549-597 | a submission is stored if and only if no rule denies or is broken, its video is not deleted, and no duplicate stands in the window |
| SubmissionStore.MappedNameReturns | internal/store/native_rules.go:201-204 | a rule that maps to a scanned name brings the name back with any submission under the mapped name that is let through |
| SubmissionStore.ScanUndone | internal/store/native_rules.go:140-146 | rules and a submission for which a name scanned away comes back |
| CatalogStore.Store.ClaimCatalogPoolSync | internal/store/catalog.go:86-90 | granted exactly when the pool exists and the history's last grant on it is old enough, or there is none, or it is forced; only the attempt and update times of that pool change |
| CatalogStore.Store.MergeCatalogDanmaku | internal/store/catalog.go:92-136 | the tables stay what the history tells; old rows stay, each new row is the first item of its millisecond and text, unblocked, and every item has a row; the report is the growth of the table, and a failure changes nothing |
| CatalogStore.Store.SetCatalogDanmakuBlocked | internal/store/catalog.go:239-247 | finds exactly the rows that some merge of the history has created, and changes the flag and the update time of that row alone |
| CatalogStore.RunRepresents | internal/store/catalog.go:86-136 | every operation keeps the tables equal to what the history tells of each pool and each row |
| CatalogStore.TablesDetermined | internal/store/catalog.go:86-136 | the history leaves no freedom in the tables |
| CatalogStore.RowsFollowTheirHistory | internal/store/catalog.go:92-136 | after any history each row is its first version with its manual block, and each pool has the times of its last grant and merge |
| CatalogStore.KeysAreTheUnion | internal/store/catalog.go:102-123 | the keys are exactly those of all accepted merges |
| CatalogStore.ReportsAddUp | internal/store/catalog.go:116-123 | reported inserts add up to the growth of the table |
| CatalogStore.RemergeInsertsNothing | internal/store/catalog.go:92-136 | merging the same items again reports zero and changes no row |
| CatalogStore.KeyMeaning | internal/store/catalog.go:111-113 | a key stands for the pool, the hash of the text and the nearest millisecond, halves away from zero |
| CatalogStore.AddedRow | internal/store/catalog.go:102-113 | every row that a merge adds is the first item of its key and starts unblocked |
| CatalogStore.TextsStayApart | internal/store/catalog.go:111-113 | different texts at one time have rows of their own when the hash tells them apart |
| CatalogStore.GrantedAreWins | internal/store/catalog.go:86-90 | the granted attempts are those that find the last grant old enough |
| CatalogStore.WinsSpaced | internal/store/catalog.go:86-90 | an unforced grant comes at least the interval after the one before |
| CatalogStore.ClaimsAreBounded | internal/store/catalog.go:86-90 | unforced grants in a span T number at most 1 + T / interval |
| GroupRegistry.Registry.Add | internal/api/realtime.go:43-54 | both indexes record exactly the new membership |
| GroupRegistry.Registry.Members | internal/api/realtime.go:56-64 | lists exactly the members of a group, each once |
| GroupRegistry.LeaveAll | internal/api/realtime.go:69-74 | walking the connection's groups takes it from exactly those and drops the groups it empties |
| GroupRegistry.Registry.Remove | internal/api/realtime.go:66-76 | both indexes forget exactly the connection |
| GroupRegistry.IndexesDetermined | internal/api/realtime.go:33-76 | the two indexes are inverse to each other and fixed by the history of calls |
| GroupRegistry.AdditionExact | internal/api/realtime.go:43-54 | adding makes this one membership and changes no other |
| GroupRegistry.RemovalExact | internal/api/realtime.go:66-76 | right after a removal the connection is in no group and every other membership is as before, none lost and none made |
| GroupRegistry.RemoveClearsOne | internal/api/realtime.go:66-76 | until it joins again the connection stays out, and all other memberships stay |

## Left out

- HTTP routing, JSON, SQL text, SignalR transport, upstream clients, schema migration and the frontend: plumbing over libraries that are not part of this model.
- Floating-point rounding: times are exact reals beside NaN and the infinities. `Wire` and `Decimal` are about integers and are exact.
- Deduplication.DeduplicatePools: times are float32 values widened to float64 in the source, so that t-1 and t+1 may round; the model's are exact.
- `offsetDanmaku` adds a float32 offset and sorts again; its laws are about rounding, which is not modelled, so pools arrive here already shifted.
- Library calls are parameters: lower-casing, counting characters, network prefixes, the hash of the duplicate lock and of row contents, float printing and parsing, XML escaping and entity decoding.
- NativeRules.NormalForm: kinds are the three that exist, so that the refusal of an unknown kind is not modelled.
- SubmissionStore.Database.CreateNativeRule: does not model the update time of rewritten rows.
- SubmissionLaws.DuplicateGuard: the `Edit` and `Delete` operations on stored rows take neither lock and are outside these runs.
- SubmissionStore.Database.Insert: database errors and the identifier of the new row are not modelled; an error before the commit is the abort step of the system.
- RedisCache.ReadsAreFresh: assumes that the revision increments succeed and that revision keys are not lost; every other Redis call may fail. Identities stand for their hashes.
- RedisClient.Cache.CachedMergedDanmaku: a call without interference; interleaved calls are the step system of `RedisCache`. Decoding a stored value always succeeds.
- MergedMemory.ReadsAreFresh: holds until the 64-bit revision wraps around; encoding and decoding of stored data always succeed.
- MergedMemory.MergedMemoryCache.CachedMergedDanmaku: a call without interference; interleaved calls are the step system.
- Refresh.ShutdownCompletes: a fetch returns in the end; that it does so on cancellation is the caller's promise.
- Segments.AllOrNothing: holds for every count; the guard that refuses counts below 0 and above 2000 is left to the caller. `once.Do` with its cancellation is one step, and so is a load with its addition to the total.
- Wire.ReadIqiyiVarint: shifting by seven bits more is written as multiplication by 128; `Wire.GroupFits` shows that no bit is lost.
- WireMessages.ParseIqiyiProto: takes one clock reading for all records, and float parsing and HTML entities from libraries.
- Wire.Write: fixed fields are there to be read past; the program writes none.
- `fetchSegments` of iqiyi drops failed segments on purpose, so the all-or-nothing law is not about it.
- BilibiliXml.XmlRoundTrip: assumes of each time in the data that parsing inverts its shortest printing, which holds no comma; integer fields are 64-bit as in the source.
- CatalogStore.Store.MergeCatalogDanmaku: rows are identified by their unique key instead of a serial number, milliseconds are unbounded, and a merge is one step because it is one transaction. The other providers repeat the same shape.
- GroupRegistry.Registry.Add: every call is one step, because the mutex is held throughout.
- `mergePool` sizes and bindings come from queries; the model takes the pools as they are.
- Heatmaps, ASS export, sessions, user management and configuration: short computations and branches without state shared between callers, whose reading settles what they do.
