# uHorse: layered configuration, visibility, history and caches, modelled in Dafny

This project models the parts of the uHorse repository whose results depend on more than one
function, and proves what they promise for every input and every run:

- **Layered configuration** (`JsonTree`, `ConfigSource`, `ConfigLoader`): building JSON trees from
  dotted keys and environment variables in hash-map order, overlaying trees, and folding the
  overlay over sources of which some fail.
- **Layered visibility** (`SessionKeys`, `SkillRegistry`, `LayeredMemory`): the session-key parser and printer,
  normalised roles and scope chains, the lookups and listings of the skill registry, and the key-value memory
  that rests on the parser.
- **Bounded, versioned history** (`Versioning`, `RecordProtocol`, `LineDiff`): counters and trimmed deques
  against an unbounded log, rollback, `record` as two critical sections under every interleaving, and the
  line-by-line difference.
- **Two-level session cache** (`SessionCache`, `CacheProtocol`, `CacheOverlaps`): a bounded LRU list over a shared
  store, one operation at a time and with every operation split where it lets go of the list.
- **Task life cycle** (`TaskProtocol`, `TaskOrder`, `TaskRetries`): the hub's task scheduler as critical sections over
  three locks, under every interleaving, the order in which tasks start, and the retry counter.
- **Server-sent events** (`Sse`): the printer against the parser of sections 9.2.5 and 9.2.6 of the WHATWG HTML Standard.
- **Retention clean-up** (`BackupCleanup`) and **health hysteresis** (`HealthTracker`).

`Prelude`, `Text` and `Sorting` hold the pieces of Rust's standard library that these rely on.
Where the program changes fields or loops, the model has a class or a loop, and its method is tied to a function
on values; the theorems are about those functions and about runs of them.

## How the results fit together

*Configuration.* `MergeLookup` says where a leaf of a merged tree comes from; `PrecedenceByPath` carries that through
the whole list of sources. `InsertIsMergeIff` turns an insertion into a merge with a one-branch tree, which gives
`NestAllLookup` and `EnvLookup` (the last entry to touch a path decides) and `InsertsCommuteIff`. From the latter
follows `OrderIrrelevantIffPrefixFree`: the in-memory source does not depend on hash-map order exactly when no key's
path begins with another's. Grouping of layers matters in general; `MergeAssociativeIff` names the triples on which it
does not, and `GroupingCanMatter` shows one on which it does.

*Visibility.* A session's chain agrees with the all-scopes lookup cut down to that chain (`SessionSeesItsBestScope`),
because correctly prefixed scopes come out in strictly increasing rank (`VisibilityChainIsRanked`); a list of scopes
agrees on every registry exactly if no scope first occurs after one that it outranks (`ChainsThatAgreeIff`). Two
promises of the registry have exceptions, stated exactly: the first listed entry is the any-scope answer except where
a scope of the rank of `global` or lower competes with the global catalogue (`FirstListedIsAnyIff`), and a listed
entry is recovered by its source except when it was filed under the scope name `global` (`EntryRecoveredIff`);
`GlobalCanComeFirst` and `EntryCanBeMissed` show both. In the memory, a write is visible exactly to the sessions of
the same channel and user; the id `global` is the one exception, because its file is the global scope
(`IsolationIff`); `GetAfterWrites` tells in closed form what is read after any writes.

*History.* In sequential use the deque is the trimmed log (`HistoryIsTheTrimmedLog`). Under concurrency, numbers are
conserved exactly when a key is cleared only while no `record` on it is in flight (`NumbersConservedIff`), and the
history is in version order exactly when calls publish in the order in which they took their numbers
(`VersionOrderIff`). `PublicationCanOvertake` shows a run in which the current version is lost with room for one entry
although every call has finished.

*Cache.* One operation at a time, L1 over a shared store is invisible to readers and obeys stack inclusion. Without
one, lookups tell the history throughout a run exactly if there are never more live sessions than L1 can hold
(`LocalOnlyFaithfulIff`; `LocalOnlyCanForget` is the smallest exception). The program lets go of L1 while it waits for
the shared store, so a lookup that misses, a set and a delete are two steps each. With all of them split, L1 is
invisible, on every id that no unfinished write concerns, exactly if each session put into L1 is then the shared one
and each write that is the last unfinished one of its id finds L1 empty there or holding what it writes
(`InvisibleIff`). It is enough that writes of an id exclude other writes of it and lookups that fetch it
(`ExclusiveWritesAreInvisible`). Without that, a deleted session can return for good (`DeletedSessionReturns`), and two
sets can leave the levels with different sessions (`SetsCanCross`).

*Tasks.* However the scheduler's critical sections interleave, a task is in exactly one place (`EachTaskInOnePlace`),
the first section to take it decides how it ends (`FirstVerdictIsFinal`, `VerdictIff`), and at rest every submitted
task has had one result (`OneResultEach`). The assignment goes out before the task is entered as running, so an answer
counts exactly if it comes after that entry and before any other verdict (`AnsweredIff`); `AnswerCanBeLost` shows one
that does not. While scheduling calls do not overlap, tasks of one priority start in the order of submission
(`FirstInFirstOut`), and one that is always put back holds up those behind it (`UnstartedBlocksTheRest`); overlapping
calls can start the later task first (`LaterCanStartFirst`).

*Clean-up.* The records that stay are the newest exactly if no id with different start times lies on both sides of the
limit (`NewestKeptIff`), because removal is by the first record that carries the id; unique ids are the intended case
(`UniqueIdsKeepTheNewest`), and a backup that is started anew after a failure is not (`RestartedBackupCanGo`).

*Events.* `StreamSurvivesIff` gives the exact set of events that the format can carry; `CleanStreamsAreReceived` says
what a receiver makes of the others that cannot break the stream's lines (no data: nothing; a final line end: lost).

## Model

| member | source | states |
|---|---|---|
| JsonTree.MergeLookup | crates/uhorse-config/src/loader.rs:81-96 | a merged tree has a leaf at a path iff the overlay has it, or the base has it and the overlay is silent there |
| JsonTree.MergeObjects | crates/uhorse-config/src/loader.rs:81-96 | it has an object at a path iff the overlay has one, or the base has one and the overlay is silent there |
| JsonTree.MergeIdempotent | crates/uhorse-config/src/loader.rs:81-96 | merging the same overlay twice is merging it once |
| JsonTree.OverlayWinsIffCovering | crates/uhorse-config/src/loader.rs:81-96 | an overlay object replaces the whole base iff it has every key of it, recursively |
| JsonTree.MergeAssociativeIff | crates/uhorse-config/src/loader.rs:81-96 | merging three layers is associative iff wherever the outer two hold objects the middle one does too, or the last covers the first |
| JsonTree.GroupingCanMatter | crates/uhorse-config/src/loader.rs:81-96 | a null between two objects makes the grouping of the merge matter |
| ConfigLoader.DeepMerge | crates/uhorse-config/src/loader.rs:81-96 | the loop that removes and reinserts keys in any order computes the recursive merge |
| ConfigLoader.Loader.Load | crates/uhorse-config/src/loader.rs:40-78 | the load fails iff, at some source, the text does not parse or the tree merged so far does not deserialise into the typed configuration, with the error of the first such source; otherwise a leaf is at a path iff the default, a JSON tree or a parsed TOML tree put it there and every later one is silent; what a single source of each kind yields is spelled out |
| ConfigLoader.PrecedenceByPath | crates/uhorse-config/src/loader.rs:40-78 | the fold has a leaf at a path iff some layer, the default or a source's JSON or parsed TOML tree, has it and every later layer is silent there |
| ConfigLoader.FailuresChangeNothing | crates/uhorse-config/src/loader.rs:43-54 | a source that fails to load can be removed anywhere in the list without changing the result |
| ConfigLoader.OverrideKeepsTheLast | crates/uhorse-config/src/loader.rs:72-76 | under Override the result is the last loaded layer |
| ConfigSource.InsertIsMergeIff | crates/uhorse-config/src/source.rs:147-165 | inserting at a path equals merging the one-branch tree iff it does not put an object over an object that it fails to cover; non-objects on the way included |
| ConfigSource.InsertLookup | crates/uhorse-config/src/source.rs:147-165 | after an insertion the leaves are the new one and the old ones at incomparable paths |
| ConfigSource.InsertsCommuteIff | crates/uhorse-config/src/source.rs:147-165 | two leaf insertions commute on any starting tree iff their paths are incomparable or they are the same insertion |
| ConfigSource.NestAllLookup | crates/uhorse-config/src/source.rs:128-136 | the leaves of a tree built entry by entry are the entries that no later comparable entry follows |
| ConfigSource.OrderIrrelevantIffPrefixFree | crates/uhorse-config/src/source.rs:195-206 | the loaded tree is the same for all hash-map orders iff no key's path begins with another's |
| ConfigSource.LoadedLeavesAreTheStoredPairs | crates/uhorse-config/src/source.rs:195-206 | for prefix-free keys the leaves of the loaded tree are exactly the stored pairs |
| ConfigSource.KeyPathSpellsTheKey | crates/uhorse-config/src/source.rs:199 | a key's path is the one of dot-free parts that, joined by dots, are the key; so different keys have different paths |
| ConfigSource.MemorySource.Load | crates/uhorse-config/src/source.rs:195-206 | whatever order the map yields its keys in, the result is the tree for some enumeration of them |
| ConfigSource.EnvPathSpellsTheName | crates/uhorse-config/src/source.rs:107-118 | a variable stands for a path iff its name is the prefix and then underscore-free parts joined by underscores, of which the path has, key by key, the lower-case forms |
| ConfigSource.EnvLookup | crates/uhorse-config/src/source.rs:127-139 | the environment's leaf at a path is that of the last variable whose path is comparable to it, provided it is that very path |
| ConfigSource.EnvSource.Load | crates/uhorse-config/src/source.rs:127-139 | inserts exactly the prefixed variables, in order |
| SessionCache.CapacityFor | crates/uhorse-cache/src/session.rs:78-101 | the bound is the policy's, or 1000 for a policy of 0 items |
| SessionCache.PutIsTruncation | crates/uhorse-cache/src/session.rs:114 | a put is the entry before all others, cut at the capacity; keys stay distinct |
| SessionCache.RunAgrees | crates/uhorse-cache/src/session.rs:110-178 | over every run L1 is within capacity and true to the last set up to the access time, and L2 holds exactly the live sessions |
| SessionCache.LookupsSeeOnlyTheHistory | crates/uhorse-cache/src/session.rs:129-160 | with a shared store and one operation at a time a lookup answers the last set and not deleted session, touched, and nothing otherwise, for every capacity |
| SessionCache.StackInclusion | crates/uhorse-cache/src/session.rs:78-178 | L1 of a two-layer cache is at all times an entry-by-entry prefix of the L1 of any larger or unbounded capacity, and within its own |
| SessionCache.UnboundedHoldsAllLive | crates/uhorse-cache/src/session.rs:110-178 | the unbounded L1 holds exactly the live sessions |
| SessionCache.LocalAnswersAreTrue | crates/uhorse-cache/src/session.rs:129-160 | without a shared store no answer is stale or deleted |
| SessionCache.LocalOnlyFaithfulIff | crates/uhorse-cache/src/session.rs:78-88 | without a shared store lookups tell the history throughout a run iff live sessions never outnumber the capacity |
| SessionCache.LocalOnlyCanForget | crates/uhorse-cache/src/session.rs:78-88 | with room for one session and two live ones a lookup does not tell the history |
| SessionCache.SessionCache.Set | crates/uhorse-cache/src/session.rs:110-126 | the new state of both levels is the set step's, and the session is in the shared store under its prefixed id |
| SessionCache.SessionCache.Get | crates/uhorse-cache/src/session.rs:129-160 | answers local first, then shared and promoted; the new state is the get step's |
| SessionCache.SessionCache.Delete | crates/uhorse-cache/src/session.rs:163-178 | the new state of both levels is the delete step's |
| SessionCache.SessionCache.Exists | crates/uhorse-cache/src/session.rs:181-197 | true iff a lookup would answer, and no state changes |
| CacheProtocol.UninterruptedWrite | crates/uhorse-cache/src/session.rs:110-178 | the two halves of a set or delete in a row are the operation's single step |
| CacheProtocol.UninterruptedLookup | crates/uhorse-cache/src/session.rs:129-160 | a local hit, or a fetch and a fill in a row, is the lookup's single step |
| CacheProtocol.SharedTellsFinished | crates/uhorse-cache/src/session.rs:110-178 | under every interleaving the shared store holds what the writes that have reached it say, in that order |
| CacheProtocol.CoherentIffGuard | crates/uhorse-cache/src/session.rs:110-178 | a state in which L1 has, under every id without an unfinished write, nothing or what the shared store has stays one at a step iff a fill carries what the shared store holds and the last unfinished write of an id finds L1 empty there or holding what it writes |
| CacheOverlaps.InvisibleIff | crates/uhorse-cache/src/session.rs:110-178 | lookups of every id without an unfinished write tell the history of finished writes throughout an interleaving of the halves of lookups, sets and deletes iff every step meets that condition |
| CacheOverlaps.ExclusiveWritesAreInvisible | crates/uhorse-cache/src/session.rs:110-178 | they do so whenever no write of an id begins during another one or between a lookup's fetch and fill of it, and no lookup fetches an id during a write of it |
| CacheOverlaps.DeletedSessionReturns | crates/uhorse-cache/src/session.rs:129-178 | a lookup that misses between the halves of a delete leaves the deleted session in L1 with nothing in flight, whether it fills L1 before or after the second half |
| CacheOverlaps.SetsCanCross | crates/uhorse-cache/src/session.rs:110-126 | two overlapping sets of one id leave L1 with one session and the shared store with the other |
| Versioning.HistoryIsTheTrimmedLog | crates/uhorse-config/src/versioning.rs:53-94 | over every run of records, rollbacks and clears a key's deque is the last min(n, max) entries of its log and its counter is n |
| Versioning.RecordedIsFound | crates/uhorse-config/src/versioning.rs:53-111 | a recorded change is found under the next number with the value, time, author and description handed over, exactly until it is trimmed, for any later operations that do not clear the key |
| Versioning.RollbackRecords | crates/uhorse-config/src/versioning.rs:169-188 | a rollback to a retained version records its value and author anew, with a description that names the version |
| Versioning.ClearForgets | crates/uhorse-config/src/versioning.rs:140-148 | after a clear the key has no history and its numbers start anew |
| Versioning.DigitsSpellTheNumber | crates/uhorse-config/src/versioning.rs:182 | the version in that description is written in decimal without leading zeros |
| Versioning.VersionsWithinReach | crates/uhorse-config/src/versioning.rs:106-111 | a version is found iff it is at least 1, at most the current one and among the last max, and is then the value recorded under it |
| Versioning.HistoryListsDownwards | crates/uhorse-config/src/versioning.rs:97-103 | the history lists min(n, max) entries from the current version downwards without a gap |
| Versioning.RollbackPreviousWorksIff | crates/uhorse-config/src/versioning.rs:191-198 | a rollback to the previous version records one version iff the current one is at least 2 and max is at least 2; otherwise nothing |
| Versioning.RollbackTwiceRestores | crates/uhorse-config/src/versioning.rs:169-198 | two such rollbacks leave the latest value as it was and advance the version by exactly 2 |
| Versioning.KeysAreIndependent | crates/uhorse-config/src/versioning.rs:53-148 | a key's deque and counter after any run are those after its own operations alone |
| Versioning.ConfigHistory.RecordChange | crates/uhorse-config/src/versioning.rs:53-94 | returns an entry under the next number that carries the key and everything handed over; counter and trimmed deque are the record step's |
| Versioning.ConfigHistory.GetVersion | crates/uhorse-config/src/versioning.rs:106-111 | finds the newest retained entry with the number |
| Versioning.ConfigHistory.ClearHistory | crates/uhorse-config/src/versioning.rs:140-148 | removes the key from both maps and touches no other key |
| Versioning.ConfigRollback.RollTo | crates/uhorse-config/src/versioning.rs:169-188 | fails and changes nothing iff the version is not retained; otherwise returns its value and records it anew |
| Versioning.ConfigRollback.RollPrevious | crates/uhorse-config/src/versioning.rs:191-198 | answers the value before the current one if there is a previous version and it is retained, and fails otherwise |
| RecordProtocol.NumbersConservedIff | crates/uhorse-config/src/versioning.rs:63-90 | throughout an interleaving the unpublished, retained and trimmed numbers are disjoint and exactly 1..current iff the key is only cleared while no call is in flight |
| RecordProtocol.NoNumberTwice | crates/uhorse-config/src/versioning.rs:63-90 | without clears every number is in exactly one of the three places, and none is retained twice |
| RecordProtocol.DequeIsLastPublications | crates/uhorse-config/src/versioning.rs:81-90 | the deque is the last min(n, max) publications in publication order |
| RecordProtocol.VersionOrderIff | crates/uhorse-config/src/versioning.rs:63-90 | the publications are 1, 2, 3, ... iff each is that of the lowest number outstanding |
| RecordProtocol.PublicationCanOvertake | crates/uhorse-config/src/versioning.rs:63-90 | two overlapping calls can publish in reverse, which loses the current version when max is 1 |
| RecordProtocol.ClearCanRepeatANumber | crates/uhorse-config/src/versioning.rs:140-148 | a clear between the two halves of a call makes a number appear twice |
| RecordProtocol.UninterruptedRecord | crates/uhorse-config/src/versioning.rs:53-94 | the two halves in a row do what the sequential record does |
| LineDiff.DiffHasBothSides | crates/uhorse-config/src/versioning.rs:239-273 | unchanged and removed lines are the old text, unchanged and added lines the new one; the length is the sum of both minus the agreeing positions |
| LineDiff.ShownInPlace | crates/uhorse-config/src/versioning.rs:239-273 | at each position of both texts an agreeing line is shown once, and differing ones as the removed line right before the added one, in order |
| LineDiff.RestInPlace | crates/uhorse-config/src/versioning.rs:239-273 | the lines beyond the shorter text follow in order, as removed or as added |
| LineDiff.NoChangeIffSameLines | crates/uhorse-config/src/versioning.rs:239-273 | all lines are unchanged iff the two values have the same lines |
| LineDiff.ConfigDiff.LineByLine | crates/uhorse-config/src/versioning.rs:239-273 | the two-iterator loop ends and yields that difference of the values' lines |
| SessionKeys.PrintUndoesParse | crates/uhorse-agent/src/session_key.rs:249-277 | printing an accepted key gives back the text, and its fields hold no colon |
| SessionKeys.ParseUndoesPrintIff | crates/uhorse-agent/src/session_key.rs:249-277 | parsing a printed key gives it back iff its fields hold no colon |
| SessionKeys.ParseIff | crates/uhorse-agent/src/session_key.rs:249-277 | a text is accepted iff it is channel, user and perhaps team in this order, joined by colons and none holding one |
| SessionKeys.UserKeyInjective | crates/uhorse-agent/src/session_key.rs:290-292 | colon-free keys share a user key iff they share channel and user |
| SessionKeys.NormalizeRoleScopes | crates/uhorse-agent/src/session_key.rs:173-184 | collecting, sorting and removing duplicates in place computes the normalised roles |
| SessionKeys.NormalizedRolesAreSorted | crates/uhorse-agent/src/session_key.rs:173-184 | normalised roles are strictly increasing and are exactly the trimmed non-empty roles |
| SessionKeys.NormalizedRolesEqualIff | crates/uhorse-agent/src/session_key.rs:173-184 | two role lists normalise alike iff they name the same trimmed non-empty roles, whatever order and repetition |
| SessionKeys.PrefixGivesRank | crates/uhorse-agent/src/session_key.rs:187-219 | each scope prefix names its layer and determines its rank, session first and global last but for scopes without a known prefix |
| SessionKeys.BuildVisibilityChain | crates/uhorse-agent/src/session_key.rs:149-163 | pushes user, roles, department, enterprise, tenant, global, as far as present |
| SessionKeys.BuildMemoryContextChain | crates/uhorse-agent/src/session_key.rs:131-146 | pushes global, tenant, enterprise, department, roles, user, session, as far as present |
| SessionKeys.ChainMembers | crates/uhorse-agent/src/session_key.rs:97-163 | a session's visibility chain holds its user's scope, the trimmed non-blank roles, department and enterprise of its context, the tenant of its channel's team or else of its context, global, and no others |
| SessionKeys.MemoryChainTurnsRound | crates/uhorse-agent/src/session_key.rs:131-163 | the memory chain is the visibility chain turned round, roles in the same order, and then the session's own scope |
| SessionKeys.VisibilityChainIsRanked | crates/uhorse-agent/src/session_key.rs:116-163 | with correctly prefixed scopes the visibility chain is strictly increasing in rank and name |
| SessionKeys.MemoryChainFalls | crates/uhorse-agent/src/session_key.rs:116-146 | with correctly prefixed scopes the memory chain never goes back to a more shared layer |
| SkillRegistry.RankedChainSeesBest | crates/uhorse-agent/src/skill.rs:358-378 | a list in which scopes first occur in rank order sees what the all-scopes lookup sees in the registry restricted to it |
| SkillRegistry.ChainAnswerIff | crates/uhorse-agent/src/skill.rs:358-378 | a chain lookup answers the skill of the first scope that has the name, with that scope and its layer, else the global one, else nothing |
| SkillRegistry.ChainsThatAgreeIff | crates/uhorse-agent/src/skill.rs:358-378 | a list of scopes, repetitions included, agrees with the all-scopes lookup on every registry iff no scope occurs for the first time after one that it outranks |
| SkillRegistry.SessionSeesItsBestScope | crates/uhorse-agent/src/skill.rs:493-529 | for a namespace with correctly prefixed scopes the chain lookup is the all-scopes lookup among the visible scopes |
| SkillRegistry.ListingIsUnique | crates/uhorse-agent/src/skill.rs:447-485 | the listing does not depend on hash-map order |
| SkillRegistry.ListingInOrder | crates/uhorse-agent/src/skill.rs:447-485 | names come in order, entries of one name by rank and then by scope |
| SkillRegistry.FirstListedIsAnyIff | crates/uhorse-agent/src/skill.rs:447-512 | the first listed entry of a name is the all-scopes answer iff the name is not both global and scoped, or some scope that has it ranks above global |
| SkillRegistry.GlobalCanComeFirst | crates/uhorse-agent/src/skill.rs:447-512 | a skill that is global and in a scope `misc`: listed first is the global one, looked up the other |
| SkillRegistry.EntryRecoveredIff | crates/uhorse-agent/src/skill.rs:381-414 | a listed entry is recovered by its layer and scope iff it was not filed under the scope name `global` |
| SkillRegistry.EntryCanBeMissed | crates/uhorse-agent/src/skill.rs:381-414 | the entry of a catalogue filed under the scope name `global` is not found by its own source |
| SkillRegistry.SourceAnswersAreEntries | crates/uhorse-agent/src/skill.rs:381-414 | a lookup by source answers only entries of that source |
| SkillRegistry.LayeredSkillRegistry.RegisterScoped | crates/uhorse-agent/src/skill.rs:332-339 | replaces the scope's catalogue, or takes the scope out if the catalogue is empty |
| SkillRegistry.LayeredSkillRegistry.GetForScopesEntry | crates/uhorse-agent/src/skill.rs:358-378 | finds the first scope of the list with the name, else the global entry |
| SkillRegistry.LayeredSkillRegistry.GetAnyEntry | crates/uhorse-agent/src/skill.rs:493-529 | whatever order the map yields its scopes in, finds the best-ranked scope with the name, else the global entry |
| SkillRegistry.LayeredSkillRegistry.GetEntryBySource | crates/uhorse-agent/src/skill.rs:381-414 | looks in exactly the named source |
| SkillRegistry.LayeredSkillRegistry.ListAllEntries | crates/uhorse-agent/src/skill.rs:447-485 | lists every entry once, strictly sorted by name, rank and scope |
| SkillRegistry.LayeredSkillRegistry.ListNamesForScopes | crates/uhorse-agent/src/skill.rs:417-427 | lists, strictly sorted, exactly the names that the chain lookup answers |
| LayeredMemory.ReadsInOrder | crates/uhorse-agent/src/memory.rs:269-293 | a read asks the user's file, the tenant's, the global one and the session's own, in that order, and ends at the first value or unreadable file |
| LayeredMemory.FirstSettlesTheRead | crates/uhorse-agent/src/memory.rs:269-293 | the first of a session's files that has the key or does not parse decides the read: its value, or failure without falling through |
| LayeredMemory.UnreadableUserFileFails | crates/uhorse-agent/src/memory.rs:269-293 | a user file that does not parse makes every read of that user's sessions fail, whatever the tenant's holds |
| LayeredMemory.StoreWritesOneFile | crates/uhorse-agent/src/memory.rs:259-267 | a write changes one file, which then holds the value, also if it was unreadable before |
| LayeredMemory.WriteDirsEqualIff | crates/uhorse-agent/src/memory.rs:151-166 | two ids write to the same place iff they are equal or session keys of the same channel and user |
| LayeredMemory.IsolationIff | crates/uhorse-agent/src/memory.rs:259-293 | no write of one id changes any read of another, on any disk, iff they are different, not of the same channel and user, and the writer is not the id `global` read by a session key |
| LayeredMemory.GetAfterWrites | crates/uhorse-agent/src/memory.rs:259-293 | what any session reads after any writes to any disk: the last value of its channel's user, else what is left in that user's file, else the tenant's file, the global file after the writes of the id `global`, and its own; a write repairs a file that does not parse |
| LayeredMemory.GetFromEmptyDisk | crates/uhorse-agent/src/memory.rs:259-293 | from no files: the last value of the channel's user, else the last one of the id `global`, else nothing |
| LayeredMemory.LayeredMemoryStore.FileStoreKv | crates/uhorse-agent/src/memory.rs:358-380 | updates one entry of one file, starting from nothing if it does not parse |
| LayeredMemory.LayeredMemoryStore.StoreKv | crates/uhorse-agent/src/memory.rs:259-267 | writes in the user's scope, or under the id itself if it is no session key |
| LayeredMemory.LayeredMemoryStore.GetKv | crates/uhorse-agent/src/memory.rs:269-293 | walks the visibility chain to the first value or error, then the session's own file |
| Sse.FormatSse | crates/uhorse-gateway/src/websocket.rs:445-455 | prints the event, data, id and empty lines, each ended by LF |
| Sse.CleanStreamsAreReceived | crates/uhorse-gateway/src/websocket.rs:445-455 | a standard receiver gets, from any stream of events whose fields cannot break lines, each event with data under its name, its data less one final LF, and the id in force |
| Sse.StreamSurvivesIff | crates/uhorse-gateway/src/websocket.rs:445-455 | a stream is received exactly as sent iff every name is non-empty without line ends, every data non-empty, CR-free and not ending in LF, and every id without line ends and NUL |
| BackupCleanup.CleanupConserves | crates/uhorse-backup/src/scheduler.rs:284-314 | for any records min(n, retention) stay, newest first, and kept plus removed are the records there were |
| BackupCleanup.SortedNewestFirst | crates/uhorse-backup/src/scheduler.rs:284-288 | the sorted list has the same records, newer ones first, and those of one time in their order |
| BackupCleanup.UniqueIdsKeepTheNewest | crates/uhorse-backup/src/scheduler.rs:284-314 | with unique ids exactly the newest stay and exactly the others go |
| BackupCleanup.NewestKeptIff | crates/uhorse-backup/src/scheduler.rs:284-314 | every kept record is at least as new as every removed one iff records on both sides of the limit that share an id started at the same time |
| BackupCleanup.RestartedBackupCanGo | crates/uhorse-backup/src/scheduler.rs:212-314 | a backup that failed, was started anew and completed leaves two records of one id, of which a limit of one keeps the failure |
| BackupCleanup.BackupScheduler.CleanupOldBackups | crates/uhorse-backup/src/scheduler.rs:284-314 | leaves the kept records, deletes the removed ones' files, and returns how many went |
| HealthTracker.StatusCannotFlap | crates/uhorse-discovery/src/health.rs:120-151 | over any run entries into Unhealthy times the failure threshold never exceed the failed checks, and likewise for Healthy |
| HealthTracker.CountersAreTails | crates/uhorse-discovery/src/health.rs:120-138 | the counters are the lengths of the current rows of equal results |
| HealthTracker.StatusIsLastDecision | crates/uhorse-discovery/src/health.rs:120-151 | the status is that of the last completed row since the last reset, told from the events alone |
| HealthTracker.Tracker.Update | crates/uhorse-discovery/src/health.rs:120-138 | counters and status change as the check step says, and the status is returned |
| TaskProtocol.EachTaskInOnePlace | crates/uhorse-hub/src/task_scheduler.rs:236-634 | under every interleaving each submitted task is in exactly one place: not yet queued, queued, in a scheduling call's hand, running, ended, stored or evicted |
| TaskProtocol.FirstVerdictIsFinal | crates/uhorse-hub/src/task_scheduler.rs:444-634 | the first answer, cancellation or timeout that takes a task decides its status; it is never overwritten, and its result is sent once |
| TaskProtocol.OneResultEach | crates/uhorse-hub/src/task_scheduler.rs:236-634 | when nothing is waiting, running or still to be sent, exactly one result has been sent for each submitted task and none for any other |
| TaskProtocol.RunningIff | crates/uhorse-hub/src/task_scheduler.rs:397-410 | a task is running exactly from its entry into the running map to its verdict |
| TaskProtocol.VerdictIff | crates/uhorse-hub/src/task_scheduler.rs:444-634 | a task ends as completed or failed by an answer, cancelled by a cancellation, or timed out after the limit given at its start, at the time of the first event that finds it running, or queued in the case of a cancellation |
| TaskProtocol.AnsweredIff | crates/uhorse-hub/src/task_scheduler.rs:380-500 | a task ends as completed (or failed) iff some answer saying so comes after its entry as running and before any verdict |
| TaskProtocol.AnswerCanBeLost | crates/uhorse-hub/src/task_scheduler.rs:380-500 | an answer that overtakes the entry as running is dropped, and a timeout is sent as the result |
| TaskProtocol.StoreIsBounded | crates/uhorse-hub/src/task_scheduler.rs:216-233 | at most 500 ended tasks are stored at any time |
| TaskProtocol.StoreCompleted | crates/uhorse-hub/src/task_scheduler.rs:216-233 | beyond 500 tasks exactly 250 go, none of which ended later than one that stays; up to 500 none goes |
| TaskOrder.FirstInFirstOut | crates/uhorse-hub/src/task_scheduler.rs:259-431 | while scheduling calls do not overlap, what has been submitted at a priority and not cancelled while queued is, in the order of submission, what has started, then what is in hand, then what waits |
| TaskOrder.UnstartedBlocksTheRest | crates/uhorse-hub/src/task_scheduler.rs:272-431 | then a task that never starts keeps every later one of its priority from starting |
| TaskOrder.LaterCanStartFirst | crates/uhorse-hub/src/task_scheduler.rs:285-411 | when two scheduling calls overlap, the task submitted second can run while the first is still in hand |
| TaskRetries.RetriesCountPutBacks | crates/uhorse-hub/src/task_scheduler.rs:418-431 | a task in a queue or in hand carries the number of times it was put back while nodes were connected, up to the limit |
| Text.SplitUndoesJoin | crates/uhorse-agent/src/session_key.rs:250 | splitting undoes joining iff no part contains the separator |
| Text.LinesLoseOnlyAFinalLf | crates/uhorse-gateway/src/websocket.rs:447 | on CR-free text `lines` loses only a final line end |
| Text.CrLfLinesAreReadBack | crates/uhorse-config/src/versioning.rs:239-273 | any lines without LF, ended by CR LF, are read back whole, and a last line without an ending as it is |
| Text.LfLinesAreReadBackIff | crates/uhorse-config/src/versioning.rs:239-273 | lines ended by LF are read back iff none ends in CR |
| Text.TrimCutsPadding | crates/uhorse-agent/src/session_key.rs:168 | trimming removes all white space at both ends and nothing else |
| Text.WhiteSpaceIs | crates/uhorse-agent/src/session_key.rs:168 | what trimming counts as white space: the 25 characters with that Unicode property |
| Text.LeqIff | crates/uhorse-agent/src/session_key.rs:182 | the order of texts is that of the first differing character, a prefix coming first |

## Left out

- Typed configuration: trees stand for `UHorseConfig`, and its serialisation round trip is taken as the identity; so is the JSON form of a session. Whether a tree deserialises is an input of `Load`. TOML parsing is an input (its outcome), the mapping of names to lower case is a parameter, and `apply_env_overrides` and the file watcher are not part of this model.
- Clocks, UUIDs, checksums and log lines: timestamps and ids are inputs.
- Expiry and errors of the shared store, and `refresh`, which promotes only what L1 holds already; `get_tenant_sessions` and `delete_tenant_sessions`, which see L1 only.
- The internals of the `lru` crate: `put` and `get_mut` move an entry to the front, `put` evicts the last one when full, `contains` does not reorder.
- The sort of the standard library: modelled by the stable insertion sort; its results are the same wherever the order leaves no ties, and in the clean-up stability is kept.
- Rust's ownership of registries: the layered registry holds catalogues as values, since a registry given to it cannot be reached from elsewhere.
- `ListAllEntries` asks for catalogues filed under the skills' own names, which `register` keeps for every registry.
- The file system: `kv.json` files are a map from directory components to contents; ids without separators that are not `.` or `..` are assumed, and I/O errors other than unparsable content are not modelled. In the clean-up, deletion is recorded but its failure, which the program only logs, is not.
- Session history and Markdown memory files, `recent_changes`, `list_keys`, skill loading and execution.
- Machine integers: counters are naturals.
- A lock as such: each critical section of `record` and of the task scheduler, and the whole of `clear_history`, is one atomic step on values, which the locks ensure.
- SessionCache.LookupsSeeOnlyTheHistory: one operation at a time; what overlapping ones do is in `CacheProtocol`, where each access to L1 and each to the shared store is one step. Other processes that share the store are outside this model.
- The hub apart from its task scheduler: which node gets a task is an input of `TaskProtocol`, and the node manager, the message router and the session runtime are outside this model. In `TaskProtocol` every critical section may come at any time, the order in which one scheduling call visits the queues included; commands, contexts and node ids are not carried, and the result channel is taken as open.
- Channel adapters, discovery clients, encryption, consent and the web interfaces: input and output, or easy members.
