# Verified models of the GPT Protocol repository

The project models the parts of the repository that keep state in several places at once or
transform data by its type, and proves what they promise:

- **The canister pool of `gpt_index`** (`IndexState`, `IndexCanister`, `IndexInvariants`,
  `IndexTheorems`, `Reservations`, `Sweeps`, `SweepOutcomes`, `SweepRuns`, `Orphans`, `TrialClocks`, `IndexReplies`,
  `Interleavings`, `InterleavedOutcomes`). Users lease canisters from a pool. Three stable maps and three heap
  indexes must agree while registrations, confirmations, manager changes, a periodic sweep and upgrades
  run. `IndexCanister` is the code as it updates its maps; each handler is proved to do what the
  functions of `IndexState` say, the sweep and the rebuild in closed form. The theorems are about every
  run of messages from the initial state. `Reservations` cuts `register_user` at the await of its
  install call and lets every other message run in between; an upgrade wipes the heap and with it the
  waiting registrations. `Sweeps` cuts the periodic sweep at the awaits of its uninstall calls, and
  `SweepOutcomes` says who is still registered when it ends. `Interleavings` has both kinds of await at
  once, and `InterleavedOutcomes` the survivors there. `Orphans` is about upgrades that cut a sweep short.
- **Conversation branches** (`MessageTree`): the child index, siblings, and the newest leaf found by a
  breadth-first search over a graph that may have cycles.
- **The Candid adapter** (`CandidAdapter`, `CandidShapes`, `CandidIdempotence`): a normaliser driven by recursive IDL types.
- **BM25 search** (`Search`), **page cropping** (`Autocrop`), **chunking** (`Chunks`) and **free file
  names** (`FileNames`) of the frontend.
- **The host daemon**: unit files and the port pattern (`UnitFiles`), port allocation
  (`HostServices`), what the units start (`CommandLines`), and the routing table (`Routing`).

What comes from outside is a parameter. The management canister's replies are inputs of the events; a
created id is new to the pool. The outcome of an uninstall is arbitrary, because the code ignores it.
In `CandidAdapter`, `Host` holds `BigInt(text)`, `Principal.fromText` and the odd element conversions
of `Uint8Array`; `Productive` says that no IDL definition reaches itself through opts and names alone
(on such a type the adapter does not return). In `Search`, `Library` holds the text functions and the
logarithm, of which only two laws are used: it is positive above 1, and it increases. In `Routing` and `HostServices` a directory is
data, and whether a port can be bound is an arbitrary predicate. Principals are naturals: only their
identity and order matter. In `MessageTree`, `millis` is what `Date` makes of the time text.

Where code and comments disagree, the model follows the code:

- `register_user` says it creates a canister when the pool is empty; it returns `PoolExhausted`, and the
  user id stays spent.
- `replenish_pool` is announced as keeping a number of *available* canisters; it compares the *total*.
- `findBestSplitPoint` announces sentence and paragraph boundaries; its test compares with a distance
  that starts at 0, so no boundary is ever taken. The overlap of 500 has no effect either.
- The adapter announces that a bare value becomes `[value]`; this fails for a bare tuple and for a bare
  value that looks missing.

Some properties are false as one would first state them. Each has the condition under which it holds, in
both directions:

- overlapping registrations of one principal break the lease bijection (`OverlapBreaksLeases`,
  `FinishKeepsLeasesIff`);
- a registration granted while a sweep runs may be removed by that sweep (`NewRegistrationLostRun`,
  `NewRegistrationKeptIff`, and with installs under way `FinishedRegistrationKeptIff`);
- a lease made permanent while a sweep runs may still be swept (`LateClaimRun`, `ClaimDuringSweepIff`,
  `PermanentThroughSweepIff`);
- an upgrade keeps the lease bijection only while no sweep waits for an uninstall
  (`UpgradeKeepsLeasesIff`); the lease it leaves behind otherwise lasts until a sweep after its expiry, or
  for ever (`OrphanFreedIff`, `PermanentOrphanIsLost`);
- the table depends on the hash map's order when nodes on different ports share a key
  (`OrderIndependentIff`, and per node `KnownHostRouted`, `SubdomainRouted`);
- the port in a unit file is not read back if the executable path holds a port flag
  (`PortRoundTripIff`), and ports asked for by hand can collide (`ExplicitPortIff`);
- an option written bare arrives as its value only if it is plain: neither missing-looking, nor empty,
  nor an array where the type is not a vec (`ErasedNormalizesIff`, `BareOptIff`);
- normalising is idempotent only on types in which no opt over a vec occurs (`IdempotentIff`);
- without padding, cropping keeps the content of every page only where the scale is a whole number
  (`CropKeepsContentIff`).

## Model

| member | source | states |
|---|---|---|
| IndexTheorems.LeaseBijection | src/gpt_index/src/handlers/user.rs:23-220 | in every reachable state a user's record names a canister iff that canister's entry is assigned to the user; no two users share one; the pool has as many entries as there are users and free entries |
| IndexInvariants.RunKeepsInv | src/gpt_index/src/storage.rs:98-154 | every run of messages keeps leases, indexes and user ids consistent |
| IndexTheorems.IndexAgreement | src/gpt_index/src/storage.rs:144-153 | in every reachable state the trial index is exactly the leases with an expiry, the free list holds only free canisters, and the pending index agrees with the status of every user it names and misses no pending user |
| IndexTheorems.PoolOnlyGrows | src/gpt_index/src/handlers/user_canister.rs:62-76 | no run removes a canister id from the pool |
| IndexTheorems.RegistrationEffect | src/gpt_index/src/handlers/user.rs:29-219 | exactly when a registration succeeds or finds the pool exhausted, and the record, lease and expiry it grants: none for managers, one hour otherwise |
| IndexTheorems.RegistrationSparesOthers | src/gpt_index/src/handlers/user.rs:148-205 | a registration, successful or not, changes no other user's record or lease |
| IndexTheorems.ActivatedOnlyByOwnCanister | src/gpt_index/src/handlers/user.rs:235-270 | whatever the message, a pending registration becomes active only by a confirmation that comes from its own canister, and then leaves the pending index |
| IndexTheorems.LeaseFixed | src/gpt_index/src/handlers/governance.rs:54-91 | while a registration lasts no message changes its lease, except that the first claim of the manager role drops the claimer's expiry |
| IndexTheorems.SweepExact | src/gpt_index/src/lib.rs:57-178 | from any reachable state a tick keeps exactly the users who neither let a registration lapse nor own an overdue trial, with record and lease unchanged; every removed user's canister is free and listed as available |
| IndexTheorems.TickIsSweep | src/gpt_index/src/lib.rs:182-224 | beyond the sweep, a tick only adds created canisters, and stops short of the target only at a failed creation |
| IndexTheorems.StrandedExactly | src/gpt_index/src/handlers/user.rs:108-127 | a free canister is missing from the free list only after a failed install, which strands exactly one; a rebuild recovers all |
| IndexTheorems.StaleExactly | src/gpt_index/src/handlers/user.rs:49-53 | a pending entry without a user appears only when a late re-registration fails to install, and goes with a success, a sweep or a rebuild |
| IndexTheorems.FailedInstallDrifts | src/gpt_index/src/handlers/user.rs:49-127 | a run of three messages in which both indexes drift |
| IndexTheorems.UpgradeRepairs | src/gpt_index/src/handlers/upgrade.rs:84-153 | from any reachable state the rebuild keeps the trial index and all stable state, adds back exactly the stranded canisters, drops exactly the stale entries, and is the identity iff there are none |
| IndexTheorems.ExactSinceRebuild | src/gpt_index/src/handlers/upgrade.rs:84-138 | as long as no install has failed since a rebuild, the indexes are exactly what the stable maps say and the next rebuild changes nothing |
| IndexTheorems.RoleClaimedAtMostOnce | src/gpt_index/src/handlers/governance.rs:46-131 | along any run at most one claim of the manager role succeeds, and from then on there is always a manager |
| IndexTheorems.ManagersChangeOnlyByManagers | src/gpt_index/src/handlers/governance.rs:22-131 | only the first claim or a current manager changes the set of managers |
| IndexTheorems.ClaimMakesPermanent | src/gpt_index/src/handlers/governance.rs:54-91 | the claimer's lease loses its expiry |
| IndexTheorems.PermanentWhileKept | src/gpt_index/src/lib.rs:95-101 | over any run a permanent lease stays permanent, on the same canister, for as long as its registration lasts, and no trial sweep at any time selects the canister |
| IndexTheorems.UserIdsNeverReused | src/gpt_index/src/handlers/user.rs:91-100 | over any run a record with an already spent id is the same registration that had the id before |
| IndexReplies.PendingKeptIff | src/gpt_index/src/lib.rs:60-91 | from any reachable state a tick keeps a pending user without an overdue trial for exactly 900 seconds after the registration |
| IndexReplies.RepeatedRegistrationIff | src/gpt_index/src/handlers/user.rs:40-85 | a registration repeated by a pending user is answered from the same record, and changes nothing, for exactly 900 seconds |
| IndexReplies.FreshTrialLastsAnHour | src/gpt_index/src/handlers/user.rs:148-190 | a trial granted in any reachable state and confirmed is kept by a tick iff it comes less than 3600 seconds later |
| IndexReplies.RegistrationFailsExactly | src/gpt_index/src/handlers/user.rs:29-127 | each error of a registration, and when it occurs: a name that trimming leaves empty, an exhausted pool, a failed install |
| IndexReplies.TickFillsPool | src/gpt_index/src/lib.rs:182-224 | in any reachable state, if no creation fails, a tick fills the pool up to five canisters and takes none away |
| IndexReplies.ProvisionAnswers | src/gpt_index/src/handlers/user_canister.rs:194-229 | the answer counts the canisters added and those available then; others than managers are refused |
| IndexReplies.RunKeepsOrigin | src/gpt_index/src/handlers/user_canister.rs:62-170 | over any run a pool entry keeps its canister id and creation time |
| IndexReplies.ManagersAfter | src/gpt_index/src/handlers/governance.rs:45-131 | exactly who manages after any message |
| IndexReplies.AddManagerExactly | src/gpt_index/src/handlers/governance.rs:96-104 | an addition adds exactly the principal named |
| IndexReplies.RemoveManagerExactly | src/gpt_index/src/handlers/governance.rs:106-131 | a removal removes exactly the principal named; it fails for non-managers, unknown principals and the last manager, each with its own error |
| IndexReplies.ConfirmExactly | src/gpt_index/src/handlers/user.rs:235-270 | each answer to a confirmation, and what it leaves alone |
| IndexCanister.IndexCanister.RegisterUser | src/gpt_index/src/handlers/user.rs:23-220 | the handler, step by step, produces the state and reply the theorems speak about |
| IndexCanister.IndexCanister.ConfirmRegistration | src/gpt_index/src/handlers/user.rs:222-271 | only the user's own canister can confirm; the record turns active and leaves the pending index; unknown users and other callers are refused without effect |
| IndexCanister.IndexCanister.CreateEmptyCanisterForPool | src/gpt_index/src/handlers/user_canister.rs:24-84 | a created canister enters pool and free list; a failed creation changes nothing and is reported |
| IndexCanister.IndexCanister.ReturnCanisterToPool | src/gpt_index/src/handlers/user_canister.rs:131-170 | the canister is free, available and without a trial clock, whatever the uninstall outcome |
| IndexCanister.IndexCanister.TakeCanisterFromPool | src/gpt_index/src/handlers/user_canister.rs:173-191 | takes the least available canister, or reports an exhausted pool |
| IndexCanister.IndexCanister.ProvisionCanisters | src/gpt_index/src/handlers/user_canister.rs:194-229 | managers only; adds the canisters created before the first failure and counts them |
| IndexCanister.IndexCanister.SweepPending | src/gpt_index/src/lib.rs:60-91 | the draining loop and the clean-up loop remove exactly the overdue registrations and free exactly their canisters |
| IndexCanister.IndexCanister.SweepTrials | src/gpt_index/src/lib.rs:93-114 | the loop over the snapshot of overdue trials, which it changes as it goes, frees exactly those canisters and removes exactly their owners |
| IndexCanister.IndexCanister.GcTick | src/gpt_index/src/lib.rs:57-121 | the three parts in sequence are the tick of the theorems |
| IndexCanister.IndexCanister.PostUpgrade | src/gpt_index/src/handlers/upgrade.rs:84-153 | clearing and refilling the indexes gives exactly what the stable maps say |
| IndexCanister.IndexCanister.ClaimManagerRole | src/gpt_index/src/handlers/governance.rs:45-94 | the first caller becomes the only manager and its lease, if any, loses its expiry in pool and trial index; later callers are refused |
| IndexCanister.IndexCanister.AddManager | src/gpt_index/src/handlers/governance.rs:96-104 | a manager adds a manager; anyone else is refused without effect |
| IndexCanister.IndexCanister.RemoveManager | src/gpt_index/src/handlers/governance.rs:106-131 | a manager removes a manager, but not the last one; the error for each refusal |
| Reservations.HalvesMakeTheWhole | src/gpt_index/src/handlers/user.rs:91-205 | the two halves of a first-time registration, run back to back, are the whole message |
| Reservations.CanistersPartitioned | src/gpt_index/src/handlers/user.rs:91-205 | however registrations by distinct principals overlap with each other and with any other message, upgrades included, available, reserved, leased and abandoned canisters are disjoint and cover the pool, and every waiting registration and every user has a canister of its own |
| Reservations.RunKeepsAsyncInv | src/gpt_index/src/handlers/user.rs:91-205 | every such interleaving keeps the pool invariant and keeps each waiting registration fit to be completed |
| Reservations.IssuedIdsIncrease | src/gpt_index/src/handlers/user.rs:91-100 | under any interleaving the user ids handed out strictly increase |
| Reservations.FinishKeepsLeasesIff | src/gpt_index/src/handlers/user.rs:148-205 | completing an install keeps the lease bijection iff the principal has no user record by then |
| Reservations.OverlapBreaksLeases | src/gpt_index/src/handlers/user.rs:91-205 | two overlapping registrations of one principal leave a lease nobody's record names |
| Sweeps.UninterruptedSweep | src/gpt_index/src/lib.rs:57-178 | the sweep cut at its uninstall calls, run without messages in between, ends in the state of the sweep that runs as one step |
| Sweeps.RunKeepsSweepInv | src/gpt_index/src/lib.rs:57-178 | however messages fall between the uninstall calls of sweeps, the index is consistent up to the one canister being returned and the pending entries already drained; while a sweep runs there is no upgrade or second sweep, and no late re-registration out of the trial snapshot, which QuietIsGentle shows not to occur |
| Sweeps.IndexBetweenSweeps | src/gpt_index/src/lib.rs:57-178 | in every state reached that way the lease bijection holds outside the canister being returned, which nobody's record names; whenever no sweep runs the whole invariant holds |
| Sweeps.UpgradeKeepsLeasesIff | src/gpt_index/src/handlers/upgrade.rs:84-138 | an upgrade keeps every lease with a user record iff no sweep waits for an uninstall |
| Orphans.OrphanFreedIff | src/gpt_index/src/lib.rs:95-178 | the lease that an upgrade in mid-sweep leaves without a user stays over any run without a sweep at or after its expiry, and the next message frees the canister iff it is such a sweep; that sweep also removes the record its owner may have by then |
| Orphans.PermanentOrphanIsLost | src/gpt_index/src/handlers/upgrade.rs:108-138 | without an expiry that lease stays over every run |
| SweepOutcomes.SweepDecides | src/gpt_index/src/lib.rs:57-178 | at every point of a sweep it is decided who keeps a record, and only its holder can change that: by a late re-registration, or by claiming the manager role before the trial snapshot |
| SweepOutcomes.InterruptedSweepExact | src/gpt_index/src/lib.rs:57-178 | of the users registered when it starts, in any reachable state, a sweep removes exactly those whose registration has lapsed or whose trial is overdue, whatever messages of others run at its awaits; the others keep their leases |
| SweepOutcomes.NewRegistrationKeptIff | src/gpt_index/src/lib.rs:62-139 | a registration granted while a sweep runs is kept iff its principal is not among the drained users the sweep still has to work through |
| SweepOutcomes.SweepKeepsLease | src/gpt_index/src/lib.rs:95-178 | who keeps the record through a running sweep keeps canister and lease, but for a first claim of the manager role |
| SweepOutcomes.PermanentThroughSweepIff | src/gpt_index/src/lib.rs:57-111 | a permanent lease outlasts a running sweep iff its user is not in the rest of the drained list or, after the snapshot, its canister not in the rest of that; unless the user re-registers late |
| SweepOutcomes.ClaimDuringSweepIff | src/gpt_index/src/handlers/governance.rs:54-91 | the first claim of the manager role, made while a sweep runs, keeps the claimer's lease under the same condition, so before the snapshot it saves an overdue trial |
| SweepOutcomes.LateClaimIsLost | src/gpt_index/src/lib.rs:95-111 | a first claim by the owner of a canister in the rest of the snapshot makes the lease permanent, and the sweep removes it all the same |
| SweepRuns.LateClaimRun | src/gpt_index/src/lib.rs:95-111 | a run from the initial state in which that happens |
| SweepRuns.NewRegistrationLostRun | src/gpt_index/src/lib.rs:62-139 | a run from the initial state in which a sweep removes a registration granted while it ran |
| TrialClocks.MessageKeepsClock | src/gpt_index/src/handlers/user.rs:148-205 | while a sweep runs, messages keep this: pending users with overdue trials are on the sweep's list, and the snapshot holds canisters of active users only |
| TrialClocks.QuietIsGentle | src/gpt_index/src/handlers/user.rs:40-56 | so no late re-registration frees a canister of the snapshot |
| Interleavings.RunKeepsWorldInv | src/gpt_index/src/lib.rs:57-178 | the invariants of waiting registrations and of a running sweep hold together over every run in which both happen at once, late re-registrations included; clocks run forward and no install takes an hour |
| Interleavings.CanistersInFiveParts | src/gpt_index/src/handlers/user_canister.rs:131-191 | over every such run available, reserved, leased, returning and abandoned canisters are disjoint and cover the pool, and every waiting registration and every user has a canister of its own |
| InterleavedOutcomes.InterleavedSweepDecides | src/gpt_index/src/lib.rs:57-178 | with installs under way too, it is decided at every point of a sweep who keeps a record, up to the same two acts of the holder |
| InterleavedOutcomes.InterleavedSweepExact | src/gpt_index/src/lib.rs:57-178 | the exact sweep, with installs under way or begun at its awaits |
| InterleavedOutcomes.FinishedRegistrationKeptIff | src/gpt_index/src/lib.rs:62-139 | a registration whose install is answered while a sweep runs is kept iff its principal is not among the drained users still to be worked through |
| MessageTree.BuildChildMap | src/gpt_frontend/src/utils/messageTree.ts:4-34 | the index holds, for exactly the non-empty parent ids with non-tool children, these children without repeated ids, in time order |
| MessageTree.GetSiblings | src/gpt_frontend/src/utils/messageTree.ts:72-90 | the non-tool messages with the given parent, in time order |
| MessageTree.SortByTimeProperties | src/gpt_frontend/src/utils/messageTree.ts:26-32 | the sort is a sorted permutation that keeps the order of equal times |
| MessageTree.ScanSplits | src/gpt_frontend/src/utils/messageTree.ts:76-85 | the scan of a list is that of its parts, in order |
| MessageTree.IsChildExactly | src/gpt_frontend/src/utils/messageTree.ts:8-64 | the children of a message go by exactly the backend ids, or own ids without one, of the non-tool messages that answer it |
| MessageTree.ChildrenGoByDistinctIds | src/gpt_frontend/src/utils/messageTree.ts:17-23 | no two messages of the index under one parent go by the same id |
| MessageTree.FirstAnswerIsListed | src/gpt_frontend/src/utils/messageTree.ts:17-23 | of the answers that go by one id, the index lists the first |
| MessageTree.ChildIndexEqualsScanIff | src/gpt_frontend/src/utils/messageTree.ts:4-90 | index and scan agree at a parent, as sequences, iff its children have distinct effective ids |
| MessageTree.ChildIndexEqualsScan | src/gpt_frontend/src/utils/messageTree.ts:4-90 | with distinct effective ids they agree at every non-empty parent id |
| MessageTree.FindNewestLeaf | src/gpt_frontend/src/utils/messageTree.ts:36-70 | terminates on any map, cycles included; returns the start or a reachable childless non-tool message, no reachable leaf being newer, and the start only if every reachable leaf is older |
| MessageTree.NewestIsNewestLeaf | src/gpt_frontend/src/utils/messageTree.ts:36-70 | if every message is found in the map under its effective id and children are never older than their parents, the result is the newest reachable leaf whenever there is a reachable leaf |
| MessageTree.NewestLeafOfTree | src/gpt_frontend/src/utils/messageTree.ts:36-70 | if every message is found in the map under its effective id and children are younger than their parents, there always is one, and the result is the newest |
| CandidAdapter.SpellingsNormalize | src/gpt_frontend/src/utils/candidAdapter.ts:20-160 | for every IDL type, recursive ones included, every frontend spelling of a value whose bare options are plain is normalised to exactly the value's Candid form |
| CandidAdapter.ErasedNormalizesIff | src/gpt_frontend/src/utils/candidAdapter.ts:20-160 | with every option written bare, a value of any type arrives as itself iff every bare option in it is plain |
| CandidAdapter.BareOptIff | src/gpt_frontend/src/utils/candidAdapter.ts:36-61 | a value that arrives as itself does so bare under an opt iff it is neither nullish nor the empty array, nor an array where the type is not a vec |
| CandidAdapter.ErasedNormalizes | src/gpt_frontend/src/utils/candidAdapter.ts:20-160 | on values without opt over opt, null or tuple and without a present empty vec under an opt, all bare forms arrive as the value |
| CandidAdapter.SpellingsAreUnambiguous | src/gpt_frontend/src/utils/candidAdapter.ts:20-160 | no spelling stands for two different Candid values of a type |
| CandidAdapter.MissingArrivesAsNone | src/gpt_frontend/src/utils/candidAdapter.ts:36-45 | under any opt, undefined, null and the empty array always arrive as None |
| CandidAdapter.BareTupleIsCut | src/gpt_frontend/src/utils/candidAdapter.ts:47-56 | a bare non-empty tuple under an opt is taken for its first component and never arrives as itself |
| CandidIdempotence.NormalizeIdempotent | src/gpt_frontend/src/utils/candidAdapter.ts:20-160 | normalising twice is normalising once, for every JavaScript value, on every type in which no opt over a vec occurs |
| CandidIdempotence.IdempotentIff | src/gpt_frontend/src/utils/candidAdapter.ts:20-160 | on a type with distinct field names and defined names, recursive ones included, normalising is idempotent on all values iff no opt over a vec occurs in it, at any depth |
| CandidAdapter.VisitRecord | src/gpt_frontend/src/utils/candidAdapter.ts:20-34 | the result object filled property by property is the record of normalised fields, and an exception in one field leaves the visitor |
| CandidAdapter.PayloadNormalizes | src/gpt_frontend/src/utils/candidAdapter.ts:174-204 | argument lists are normalised argument by argument; surplus arguments pass through |
| CandidShapes.BigNumberShape | src/gpt_frontend/src/utils/candidAdapter.ts:102-122 | what becomes of every value under a big number type: text that is no number is zero, a fraction throws, other values are kept |
| CandidShapes.PrincipalShape | src/gpt_frontend/src/utils/candidAdapter.ts:91-100 | text that names no principal is kept, like everything that is no text |
| CandidShapes.BlobShape | src/gpt_frontend/src/utils/candidAdapter.ts:63-73 | bytes are kept, numbers wrap around at 256, other values are kept |
| CandidShapes.VecShape | src/gpt_frontend/src/utils/candidAdapter.ts:75-82 | for every value the result is an array: of the same length, or empty if the value is no array |
| CandidShapes.RecordShape | src/gpt_frontend/src/utils/candidAdapter.ts:20-34 | whatever counts as an object becomes one with exactly the fields of the type; other values are kept |
| CandidShapes.VariantShape | src/gpt_frontend/src/utils/candidAdapter.ts:134-163 | only the name of a null case, or a value whose single own property is a case, is changed |
| CandidShapes.OnlyPropExactly | src/gpt_frontend/src/utils/candidAdapter.ts:148-152 | which values have a single own property, arrays and bytes included |
| Search.BuildTermFrequencyMap | src/gpt_frontend/src/store/embeddingStore.ts:89-95 | the map counts the occurrences of exactly the tokens present |
| Search.BuildDocFrequencies | src/gpt_frontend/src/store/embeddingStore.ts:193-200 | for every term, the number of chunks that contain it |
| Search.CalculateBM25Score | src/gpt_frontend/src/store/embeddingStore.ts:101-129 | the loop computes the sum of the term scores over the query |
| Search.IdfPositive | src/gpt_frontend/src/store/embeddingStore.ts:112 | every inverse document frequency is positive |
| Search.RarerTermScoresMore | src/gpt_frontend/src/store/embeddingStore.ts:117-126 | of two terms that occur equally often in a chunk, the one in fewer chunks scores more |
| Search.DenserChunkScoresMore | src/gpt_frontend/src/store/embeddingStore.ts:117-126 | a chunk with more occurrences at equal length, or as many in less text, scores more for a term |
| Search.SaturationExactly | src/gpt_frontend/src/store/embeddingStore.ts:121-123 | the normalised frequency as an equation with 1.2 and 0.75 written out |
| Search.SaturationBounds | src/gpt_frontend/src/store/embeddingStore.ts:121-123 | one occurrence at average length counts once; no number of them counts 2.2 times |
| Search.ScorePositiveIffShared | src/gpt_frontend/src/store/embeddingStore.ts:137-155 | a chunk's score is positive iff it shares a token with the query, and zero otherwise |
| Search.KeywordSearch | src/gpt_frontend/src/store/embeddingStore.ts:131-158 | the positive scores, in chunk order |
| Search.FinalScoreExactly | src/gpt_frontend/src/store/embeddingStore.ts:176-219 | which tokens a chunk is cut into, and that an exact phrase counts half as much again |
| Search.SortByScoreRanks | src/gpt_frontend/src/store/embeddingStore.ts:227-228 | sorting ranks by score, earlier chunks first among equals, and is a permutation |
| Search.TextBasedSearch | src/gpt_frontend/src/store/embeddingStore.ts:167-244 | the results are the best min(20, matches) chunks of a ranking of exactly the chunks that share a token with the query, in order, with scores relative to the best |
| Search.NoBetterMatchLeftOut | src/gpt_frontend/src/store/embeddingStore.ts:226-229 | a chunk that shares a token with the query but is not among the first results scores no better than any of them, and comes later if it scores as well |
| Search.RankingSize | src/gpt_frontend/src/store/embeddingStore.ts:226-229 | the ranking has as many entries as there are matching chunks, and no chunk twice |
| Search.ScoresNormalized | src/gpt_frontend/src/store/embeddingStore.ts:231-243 | relative scores lie in (0, 1], and the first is 1 |
| UnitFiles.RenderedPortIsRead | src/gpt_host/src/systemd/service.rs:84-114 | the port read from a rendered unit file is the port rendered, if the path holds no port flag |
| UnitFiles.PortRoundTripIff | src/gpt_host/src/network/port_manager.rs:56-61 | every port survives rendering and reading iff the path holds no port flag, that is no "-p " before a decimal digit of any script |
| CommandLines.RenderedCommandIsRead | src/gpt_host/src/systemd/service.rs:84-114 | for every path that is one line, the command line read back from the unit file is this path, this node and this port; the check before it runs the same path |
| CommandLines.AddedServiceStartsNode | src/gpt_host/src/systemd/service.rs:54-124 | after any add whose file was written, the node's unit starts that node on the port chosen |
| HostServices.FindFreePort | src/gpt_host/src/network/port_manager.rs:68-70 | the least port of the range that is neither allocated nor in use, or none if there is none |
| HostServices.Host.GetAllocatedPorts | src/gpt_host/src/network/port_manager.rs:15-44 | the ports of all unit files with a readable port |
| HostServices.Host.AddService | src/gpt_host/src/systemd/service.rs:54-136 | the directory and the reply on every exit: an unreadable port, no free port, a failed write, and a failed systemctl after which the unit file stays written |
| HostServices.Host.RemoveService | src/gpt_host/src/systemd/service.rs:159-179 | the unit file is removed, and nothing else; a missing service or a failed removal changes nothing |
| HostServices.AddFailsExactly | src/gpt_host/src/systemd/service.rs:62-129 | which error an add ends in, and when |
| HostServices.AddLeaves | src/gpt_host/src/systemd/service.rs:62-129 | an add writes one file or changes nothing |
| HostServices.RemoveOutcome | src/gpt_host/src/systemd/service.rs:159-179 | which error a removal ends in, when, and what it leaves |
| HostServices.PortsStayDistinct | src/gpt_host/src/systemd/service.rs:54-179 | along any run of automatic adds, by paths without a port flag, and of removes, nodes have distinct ports in [8000, 9000) |
| HostServices.AddKeepsKnownPort | src/gpt_host/src/systemd/service.rs:65-72 | after any such run an automatic add by such a path keeps a known node's port and spares the other nodes |
| HostServices.AddFindsLeastPort | src/gpt_host/src/systemd/service.rs:73-79 | after any such run a new node added by such a path gets the least port of the range that no node has and that can be bound, and is refused exactly when there is none |
| HostServices.ExplicitPortIff | src/gpt_host/src/systemd/service.rs:63-64 | a port asked for by hand, for a path without a port flag, keeps ports distinct iff no other node has it |
| Routing.Watcher.SyncState | src/gpt_host/src/systemd/watcher.rs:61-186 | after a successful pass the cache has exactly the nodes with a parsable unit file, at its port, with known hostnames kept and missing ones filled in, and the table is rebuilt from it; a failed pass leaves the table alone |
| Routing.ScanFindsFile | src/gpt_host/src/systemd/watcher.rs:77-106 | with one file per node, the port found is that file's port |
| Routing.LastFileDecides | src/gpt_host/src/systemd/watcher.rs:77-106 | of several parsable files of a node the last one listed decides the port |
| Routing.FirstReplyDecides | src/gpt_host/src/systemd/watcher.rs:106-140 | a missing hostname is the first one the index gives during the pass |
| Routing.TableKeysExactly | src/gpt_host/src/systemd/watcher.rs:151-167 | the keys of the table are exactly the ids, hostnames and first hostname labels of the cached nodes, under every iteration order |
| Routing.OrderIndependentIff | src/gpt_host/src/systemd/watcher.rs:151-167 | all iteration orders of the cache build the same table iff no key is shared by nodes on different ports |
| Routing.KnownHostRouted | src/gpt_host/src/network/router.rs:92-107 | under every iteration order the hostname of a cached node, if it has no colon, leads to that node's port, with or without a port in the header, iff every cached node with that key has that port |
| Routing.SubdomainRouted | src/gpt_host/src/network/router.rs:96-107 | under any domain of which the full host is no node's key, a node's id, or what its hostname has before the first dot, leads to its port under every iteration order iff every cached node with that key has that port |
| Autocrop.ScanBounds | src/gpt_frontend/src/utils/pdfUtils.ts:97-121 | the double loop computes the tight bounding box of the set of foreground pixels |
| Autocrop.ScannedBoundsTight | src/gpt_frontend/src/utils/pdfUtils.ts:97-121 | at every pixel of the scan the bounds are tight for the pixels seen so far |
| Autocrop.ForegroundExactly | src/gpt_frontend/src/utils/pdfUtils.ts:102-113 | for a page given by its pixels, row by row, a pixel is foreground iff its alpha is at least 20 and some way of adding and subtracting its three colour differences exceeds the tolerance |
| Autocrop.RectInsideSource | src/gpt_frontend/src/utils/pdfUtils.ts:123-148 | any rectangle returned is non-empty and inside the source canvas, for every padding |
| Autocrop.CropIsTight | src/gpt_frontend/src/utils/pdfUtils.ts:130-144 | the crop of an axis starts at the padded content or the edge, and ends with the padded content or as far behind it as the padding reaches over the near edge, each to within a pixel |
| Autocrop.RectCoversForeground | src/gpt_frontend/src/utils/pdfUtils.ts:127-148 | with foreground and a padding of at least one source pixel per axis, a rectangle is returned and covers the scaled image of every foreground pixel |
| Autocrop.AutocropRect | src/gpt_frontend/src/utils/pdfUtils.ts:97-148 | scan and rectangle together; nothing is returned for a page without foreground |
| Autocrop.CropCoversIff | src/gpt_frontend/src/utils/pdfUtils.ts:127-141 | on an axis no shorter than its analysed copy, every crop covers its content iff there is a pixel of padding, or none and a scale that is a whole number |
| Autocrop.CropKeepsContentIff | src/gpt_frontend/src/utils/pdfUtils.ts:123-148 | the rectangle is returned and covers all foreground of every page iff both axes are safe in that sense |
| FileNames.GetUniqueFileName | src/gpt_frontend/src/utils/fileUtils.ts:191-213 | returns a free name, the desired one iff that is free, and otherwise the least free counter, within as many candidates as there are names taken |
| FileNames.CandidateKeepsExtension | src/gpt_frontend/src/utils/fileUtils.ts:197-208 | a candidate is the name with the counter in front of its extension |
| FileNames.TakenCandidates | src/gpt_frontend/src/utils/fileUtils.ts:205-210 | the candidates and the desired name are pairwise distinct, so more candidates cannot be taken than there are names |
| Chunks.FindBestSplitPoint | src/gpt_frontend/src/services/fileProcessingService.ts:19-59 | whatever boundaries the patterns find, the result is the target, cut at the end of the text |
| Chunks.CreateChunks | src/gpt_frontend/src/services/fileProcessingService.ts:64-104 | the chunks are the consecutive 8000-character spans of the text |
| Chunks.EmbedFileContent | src/gpt_frontend/src/store/embeddingStore.ts:298-355 | the same spans with their texts, for every text it accepts; rejects empty and over-long texts |
| Chunks.ChunksTile | src/gpt_frontend/src/services/fileProcessingService.ts:64-104 | these spans are 8000 long but for the last, non-empty, numbered from 0, without gap or overlap, and cover the text |
| Chunks.ChunksRestoreText | src/gpt_frontend/src/store/embeddingStore.ts:298-355 | joining the chunk texts gives the text back |

## Left out

- Awaits inside a late re-registration and inside a creation: each is one step; installs of first-time registrations and uninstalls of the sweep are cut.
- Clocks that run backwards while a sweep works, and installs that take an hour or more.
- Two sweeps at once: the timer could start a second one if the first lasted longer than its interval.
- Integer width: ids, counters and timestamps are unbounded; the overflow of `next_user_id` and of expiry times is not modelled.
- Node registration, liveness, models, measurements and attestation policies of `gpt_index`: maps without cross-index invariants.
- `list_canister_pool`, `get_user_assignment`, `whoami` and the other queries: they only read.
- User fields `enc_salt` and `enc_validator`: the index only ever stores `None`.
- Invalid dates in messages: a comparator that returns NaN makes the order of the result unspecified.
- Strings are compared by code point; JavaScript compares UTF-16 units, which is the same for ISO times.
- func, service, reserved and empty IDL types, and prototype properties of JavaScript objects (a record field named like an array method).
- The Unicode details of tokenisation, floating-point rounding of scores and crop coordinates.
- The choice of the background colour and the scaled-down copy in `autocropCanvas`: the scan takes the image and the colour as given.
- The settings of a unit file other than its two command lines: they are written as the source writes them.
- Partial writes of unit files, unreadable unit files in `add_service`, and the lock itself: adds run one after the other.
- Network, process control, cryptography and the user interface.

Nothing was executed.
