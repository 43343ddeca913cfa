# vaultmp client bookkeeping, modelled in Dafny

vaultmp is a multiplayer mod. Its client sits between the game engine and the server. The engine executes commands the client issues. Each command may carry a *correlation key*, which names a typed slot a waiting caller shares with the command handler. The engine's answers come back through `Game::CommandHandler`, and the client turns them into state changes and packets for the server.

This project models the bookkeeping layer of that client and proves what it promises:

- **the cell interest index** (`CellIndex`, `CellSets`, `RefSets`, `Switching`): which refIDs are known in which cell, by object type; which cells surround the player (the *context*); enabling and disabling on a cell change and on a context change; the context diff; the two-phase cell scan;
- **container reconciliation** (`Netting`, `BestMatch`, `Matching`): sibling netting of a container's inventory diff, candidate admission, the shortest exact `best_match`, and removal of handled lines;
- **the scan records** (`ScanRecords`): the packed 20-byte item records a container scan returns;
- **limb bitmasks** (`Limbs`): the `IsLimbGone` collector and the `KillActor` expansion;
- **correlation slots and command routing** (`Slots`, `Dispatch`, `Routing`): `FutureSet`; the poll / keep / release routing of `CommandHandler` and its per-opcode answers; `DelayOrExecute`; the Pip-Boy guard; lock and owner mappings; the container-diff commands; the startup job queue;
- **small guards** (`Guards`): the per-base race cache, the chat/quit state machine and weapon debounce of the actor-state poll, the pending position update, the first-spawn rule of `CenterOn*`, and chat truncation;
- **type tags and handle sessions** (`TypeFlags`, `Sessions`): the `ID_*` bit flags, `vaultcast`, and the start/end-session balance of `FactoryObject`.

Engine commands are values of `Base.Command`, collected in sequences in the order they are issued. Packets are values of `Base.Packet`. A key of 0 (`NO_KEY`) means no correlation. Imperative parts of the source are modelled as classes whose methods are specified by functions: `CellIndex.Index`, `Dispatch.Scheduler`, `Guards.RaceCache`, `Guards.StateWatch`, `Guards.PosWatch`, `Guards.Spawner` and `Sessions.FactoryObject`. The properties are proved about those functions.

## Model

| member | source | states |
|---|---|---|
| TypeFlags.TagsAreDistinctBits | GameFactory.h:31-36 | the six ID_* tags are single bits, pairwise disjoint, 0x01 up to 0x20, each the previous one shifted left |
| TypeFlags.MasksNest | GameFactory.h:38-40 | ALL_ACTORS ⊂ ALL_CONTAINERS ⊂ ALL_OBJECTS as masks, strictly; ID_REFERENCE is in none of them |
| TypeFlags.CastFollowsHierarchy | GameFactory.h:204-236 | on a reference of one class, `vaultcast<T>` succeeds exactly when that class is T or derives from T |
| TypeFlags.CastIsMonotone | GameFactory.h:204-236 | a cast that succeeds to Player, Actor, Container or Item also succeeds to every class above it |
| TypeFlags.VaultCast | GameFactory.h:204-236 | a cast to anything but Object succeeds only on an object-typed reference; on a bare ID_REFERENCE only the cast to Object succeeds |
| Sessions.FactoryObject.Open | GameFactory.h:161-164 | the private constructor starts one session; StartSession answering null raises "Unknown object" and changes nothing; the session balance is kept |
| Sessions.FactoryObject.Empty | GameFactory.h:168 | a default holder holds null |
| Sessions.FactoryObject.Default | GameFactory.h:168 | a default-constructed holder touches no reference and keeps the balance |
| Sessions.FactoryObject.Copy | GameFactory.h:173-176 | a copy holds the same reference and starts one session on it when it is non-null; balance kept |
| Sessions.FactoryObject.Assign | GameFactory.h:177-191 | self-assignment changes nothing; otherwise the old reference's session ends and the new one's starts, also when both holders hold the same reference (then it is ended once and started once more); balance Valid() kept (started − ended = live holders) |
| Sessions.FactoryObject.Destroy | GameFactory.h:169-172 | the destructor ends one session on a non-null reference and the holder leaves; balance kept |
| Sessions.Pool.Adopt | GameFactory.h:156-197 | a reference with no open session joins the balance |
| CellSets.Insert | source/Game.cpp:858-860 | the bucket of (cell, type) gains the refID; every other bucket is unchanged |
| CellSets.Erase | source/Game.cpp:947-949 | the bucket of (cell, type) loses the refID; every other bucket is unchanged |
| CellSets.InsertIdempotent | source/Game.h:41 | buckets are sets: inserting a refID twice is inserting it once |
| CellSets.EraseUndoesInsert | source/Game.h:41 | erasing a refID that was just inserted into a bucket without it restores every bucket |
| CellSets.MoveBetweenBuckets | source/Game.cpp:1663-1666 | after erase-from-old and insert-into-new, the refID is in the new bucket, not in the old one when the cells differ, and other buckets are untouched |
| CellSets.Find | source/Game.cpp:1574 | `std::find`: the first index of the cell, or the length when absent |
| CellSets.IsInContext | source/Game.cpp:1566-1578 | true iff the cell is nonzero and in the context; cell 0 is never in context |
| CellSets.Sort | source/Game.cpp:1975 | the sorted permutation of the context list |
| CellSets.SortedUnique | source/Game.cpp:1975 | two sorted permutations of the same list are equal, so the sorted context is determined |
| CellSets.SortOfSorted | source/Game.cpp:1975 | sorting a sorted list changes nothing |
| CellSets.SetDifference | source/Game.cpp:1978-1979 | `std::set_difference` on sorted lists: sorted, the multiset difference |
| CellSets.DifferenceWithSelf | source/Game.cpp:1978-1979 | a list minus itself is empty |
| CellSets.DifferenceMembers | source/Game.cpp:1978-1979 | x is in a − b only if in a, and x in a but not in b is in a − b |
| RefSets.CellRefsOf | source/Game.cpp:1589-1592 | the refIDs of the buckets of one cell whose type shares a bit with the mask |
| RefSets.SetToSeq | source/Game.cpp:1592 | a set copied into a vector keeps exactly its elements |
| CellIndex.ContextRefs | source/Game.cpp:1580-1597 | the gathered set contains the matching buckets of every nonzero context cell |
| CellIndex.ContextRefsMembers | source/Game.cpp:1580-1597 | a refID is gathered iff it is in a matching-type bucket of a nonzero context cell |
| CellIndex.ScanBucketTag | source/Game.cpp:2730-2740 | the scanned form type is stored under 0 exactly when it is neither an item nor an actor form, and under a single tag bit inside ALL_OBJECTS otherwise; that bit meets ID_ITEM exactly for item forms and ALL_ACTORS exactly for actor forms, and a 0 bucket is seen by no type mask |
| CellIndex.SetBucket | source/Game.cpp:2773 | the swap: the scanned bucket becomes the accumulated set and nothing else changes |
| CellIndex.Index.constructor | source/Game.h:41 | an empty index, empty context and a scan not yet begun |
| CellIndex.Index.NewObject | source/Game.cpp:770-860 | an object without a refID issues PlaceAtMe of its base at the player with count 1 and the slot's key, and takes the answered refID, no answer in time being an error; an object with one issues nothing; a persistent object is enabled in its network cell; the refID joins its bucket |
| CellIndex.Index.RemoveObject | source/Game.cpp:936-950 | disabled (ToggleEnabled only if it was enabled), MarkForDelete, and erased from its bucket |
| CellIndex.Index.ForgetForReload | source/Game.cpp:691-700 | a non-persistent object, and the player, leave their bucket; a non-persistent non-player forgets its refID |
| CellIndex.SpawnKind | source/Game.cpp:702-746 | LoadEnvironment spawns by type; an item inside a container is left to it; any other type raises "unknown type" |
| CellIndex.EnvironmentCommands | source/Game.cpp:681-685 | the globals first, each restored with its stored value, then SetWeather as the last command exactly when a weather is set; nothing else is issued |
| CellIndex.Index.SetCell | source/Game.cpp:1641-1667 | network cell set; the refID moves between buckets; a non-player is enabled iff the new cell is in context, moved to the player when its game cell changes |
| CellIndex.Index.ApplyCellChange | source/Game.cpp:1646-1660 | the ToggleEnabled / MoveTo commands and new enabled / game-cell state of a non-player |
| CellIndex.MoveRef | source/Game.cpp:1663-1666 | the bucket step of net_SetCell, in membership terms |
| CellIndex.Index.GetContext | source/Game.cpp:1580-1597 | the loop returns exactly the refIDs of matching buckets of nonzero context cells, as a set of elements: how often and in what order the source's vector lists them is not stated |
| CellIndex.Index.Recenter | source/Game.cpp:1961-1990 | the player moves to context[0] in both cells and the player bucket; context becomes the sorted list; entering = new − old, leaving = old − new; the copy holds exactly the nonzero changed cells' buckets |
| CellIndex.Index.UpdateContext | source/Game.cpp:1961-2034 | Recenter, then the disable loop over the leaving cells and the enable loop over the entering cells on the copy: the commands issued are the switch's; a known non-player in an entering cell ends enabled in the last entering cell that lists it; one only in leaving cells and not persistent ends disabled; every other object, and the player, is unchanged |
| CellIndex.CopyBuckets | source/Game.cpp:1982-1990 | the copy holds exactly the nonzero entering and leaving cells, each with its current buckets |
| CellIndex.RepeatedContextIsQuiet | source/Game.cpp:1975-1979 | repeating the same context reports nothing entering and nothing leaving |
| CellIndex.ContextDiffMembers | source/Game.cpp:1975-1979 | entering cells are new cells not in the old context; leaving cells were in it |
| Switching.Ascending | source/Game.cpp:2000 | the std::set of a bucket is walked in strictly ascending order and exactly once per element |
| Switching.CellOrder | source/Game.cpp:1999-2000 | walking the type buckets of a copied cell visits exactly the refIDs of that cell; the buckets are taken in ascending type order, which the model picks for the unordered map |
| Switching.DisableRefs | source/Game.cpp:2000-2012 | the loop over one bucket of a leaving cell computes the leave step for each refID in turn |
| Switching.EnableRefs | source/Game.cpp:2017-2034 | the loop over one bucket of an entering cell computes the enter step for each refID in turn |
| Switching.DisableCells | source/Game.cpp:1997-2012 | the loop over the leaving cells (cell 0 skipped) computes the leave fold over their copied buckets |
| Switching.EnableCells | source/Game.cpp:2014-2034 | the loop over the entering cells (cell 0 skipped) computes the enter fold over their copied buckets |
| Switching.SwitchObjects | source/Game.cpp:1997-2034 | the two loops together: the leave fold, then the enter fold on its result |
| Switching.SwitchState | source/Game.cpp:1997-2034 | the known objects keep their refIDs; a non-player in an entering cell is enabled, persistent or not, and its game cell is the last entering cell that lists it; a non-persistent one only in leaving cells is disabled; any other object, the player included, is untouched; unknown refIDs are skipped |
| Switching.SwitchOnIndex | source/Game.cpp:1982-2034 | the same outcome read against the index the copy was taken from, for the changed cells |
| Switching.SwitchCommands | source/Game.cpp:1997-2034 | every command is a ToggleEnabled, or a keyless MoveTo to the player into the cell, of a known non-player of a leaving or entering cell; the disable loop issues only ToggleEnabled, and its commands come first |
| CellIndex.Index.GetNextRef | source/Game.cpp:2723-2786 | first call fixes cell and type; a nonzero refID is accumulated and GetNextRef reissued; the terminating 0 answers (scanned − bucket, bucket − scanned), swaps the scanned set in, clears and resets; expired or corrupt slots raise |
| Slots.Share | source/Game.cpp:563-564 | a fresh key names a new unanswered slot of the given type; other slots unchanged |
| Slots.Retrieve | source/Game.cpp:71-72 | the key's slot is released; other slots unchanged |
| Slots.FutureSet | source/Game.cpp:464-485 | "Storage has expired" iff the slot is gone, "corrupted" iff its type differs; otherwise the value is stored and promised, nothing else changes |
| Slots.DoubleFulfilmentIsSwallowed | source/Game.cpp:480-484 | a second FutureSet on a fulfilled slot succeeds and stores the new value |
| Slots.FutureSetAnswers | source/Game.cpp:464-485 | after FutureSet the waiter reads exactly that value, and every other waiter reads what it read before |
| ScanRecords.Word | source/Game.cpp:2633-2641 | a little-endian 32-bit field is an unsigned 32-bit value |
| ScanRecords.Records | source/Game.cpp:2644-2648 | count = size / 20; record i is the one at byte 20·i; every field fits 32 bits |
| ScanRecords.WordOfBytes | source/Game.cpp:2633-2641 | reading back the four bytes of a word gives the word |
| ScanRecords.RecordOfBytes | source/Game.cpp:2633-2641 | reading back a packed record gives the record, whatever follows it |
| ScanRecords.RecordsOfPack | source/Game.cpp:2644-2648 | splitting a packed scan gives back its records |
| ScanRecords.TrailingBytesIgnored | source/Game.cpp:2644 | bytes that do not fill a record do not change the split |
| Netting.NonZero | source/Game.cpp:2350 | the zero-count filter keeps every nonzero line with its multiplicity and only those |
| Netting.NonZeroIdempotent | source/Game.cpp:2395 | filtering twice is filtering once |
| Netting.NonZeroKeeps | source/Game.cpp:2395 | a diff without zero lines is unchanged by the filter |
| Netting.NetPair | source/Game.cpp:2386-2391 | d changes iff s and d are nonzero, of opposite signs, and abs(s) ≥ abs(d); then it becomes d + s, which is 0 or has the sign of s |
| Netting.NetEntry | source/Game.cpp:2386-2391 | a line is netted only against a sibling line of the same base |
| Netting.NetEach | source/Game.cpp:2387-2391 | every line of the diff is netted against one sibling line |
| Netting.NetFoldShape | source/Game.cpp:2386-2391 | netting keeps the lines and their bases; a base the sibling lacks is unchanged |
| Netting.NetFoldQuiet | source/Game.cpp:2386-2391 | a sibling diff with only zero counts changes nothing |
| Netting.NetSibling | source/Game.cpp:2386-2391 | the nested loops compute the netting fold |
| Netting.NetAcrossSkips | source/Game.cpp:2368-2377 | other containers skipped (the same container, another cell, no diff) change nothing |
| Netting.NetAcrossShape | source/Game.cpp:2366-2392 | netting over all siblings keeps the lines and their bases |
| Netting.NetSiblings | source/Game.cpp:2366-2395 | the loop over sibling containers is netting followed by the zero filter |
| BestMatch.Best | source/Game.cpp:2405-2440 | a found match is a subsequence of the candidates whose counts sum exactly to the target |
| BestMatch.BestIsShortest | source/Game.cpp:2405-2440 | no exact-sum subsequence has fewer stacks than the match, and one exists whenever an exact-sum subsequence does |
| BestMatch.BestMatchOf | source/Game.cpp:2405-2440 | a nonempty result is a subsequence with the exact count |
| BestMatch.BestMatchEmpty | source/Game.cpp:2405-2440 | the result is empty iff no subsequence sums to the count |
| BestMatch.PrefixWalk | source/Game.cpp:2416-2429 | the inner loop over one permutation: the running remainder and prefix length, as Walk |
| BestMatch.Walk | source/Game.cpp:2416-2429 | the stack count never exceeds the stacks walked, and a walk whose remainder stays above 0 counts every stack |
| BestMatch.WalkHits | source/Game.cpp:2416-2429 | on positive counts, the walk hits exactly when some prefix sums to the target, and it reports that prefix's length |
| BestMatch.Rest | source/Game.cpp:2437 | a subsequence and the rest of the candidates form a permutation of them |
| BestMatch.SubseqIsPermutationPrefix | source/Game.cpp:2437 | every subsequence is the prefix of some permutation of the candidates |
| BestMatch.SubmultisetIsSubseq | source/Game.cpp:2408 | every sub-multiset of the candidates is a subsequence of the sorted list |
| BestMatch.SumPermutation | source/Game.cpp:2437 | permuting stacks keeps their count |
| BestMatch.HitIsSubseq | source/Game.cpp:2431-2436 | an exact hit of the walk over any permutation is an exact-sum subsequence of the same length |
| BestMatch.BestIsShortestWalk | source/Game.cpp:2405-2440 | the match is the hit of some permutation's walk, and no permutation's hit is shorter: the subsequence search and the permutation walk agree on the shortest length |
| Matching.FirstOf | source/Game.cpp:2446 | `find_if`: the first line of the base, or none |
| Matching.FitsMeans | source/Game.cpp:2450-2454 | a stack fits a line iff the line has the right sign (loss for drops, gain for pickups) and the stack's count is at most its abs |
| Matching.Admit | source/Game.cpp:2442-2470 | every admitted base points at its own diff line |
| Matching.AdmitAll | source/Game.cpp:2442-2470 | the admission loop computes Admit |
| Matching.AdmitOnlyAdmissible | source/Game.cpp:2442-2470 | every admitted stack is a reported refID whose line exists and fits |
| Matching.AdmitEveryAdmissible | source/Game.cpp:2442-2470 | every reported refID whose stack fits its base's line is admitted |
| Matching.AdmitAscending | source/Game.cpp:2442-2470 | on ascending refIDs, each base's candidates come out ascending |
| Matching.Matches | source/Game.cpp:2492-2494 | each nonempty best match is a subsequence of the base's candidates summing to the abs of its line |
| Matching.EraseAt | source/Game.cpp:2525 | the diff without the erased positions |
| Matching.HandledAt | source/Game.cpp:2525 | a line is erased iff its base was admitted |
| Matching.EraseHandled | source/Game.cpp:2525 | after the erase, the diff holds exactly the lines whose base had no candidate |
| Matching.NettedUnique | source/Game.cpp:2350-2395 | filtering and netting keep one line per base |
| Matching.MatchedAreAdmitted | source/Game.cpp:2492-2522 | every matched stack is one of the reported refIDs with the counts the game answered |
| Matching.Reconcile | source/Game.cpp:2335-2597 | every line left unmatched is nonzero and is a line of the filtered, netted diff |
| Matching.MatchPhases | source/Game.cpp:2442-2597 | no more lines are left than there were, each left line was a line of the diff, and drops are matched only for bases of its lines |
| Matching.AdmitWaiting | source/Game.cpp:2442-2470 | the drop admission with its GetBase and GetRefCount waits: it fails, with Timeout, exactly when some refID's base is not answered, or its base has a losing line and its count is not answered; otherwise it is Admit on the answers |
| Matching.ReconcileJob | source/Game.cpp:2335-2611 | the job fails, with Timeout, exactly when the netted diff is nonempty and some appeared refID's wait fails, so nothing is produced; otherwise it is Reconcile on the answers |
| Matching.AnsweredJobIsSound | source/Game.cpp:2335-2611 | a job whose every wait is answered succeeds, with the sound reconciliation |
| Matching.ReconcileSound | source/Game.cpp:2335-2627 | the whole reconciliation: drops are matched from appeared refIDs, pickups from vanished ones, with exact counts; the lines left over are nonzero and took part in no match |
| Matching.MatchPhasesSound | source/Game.cpp:2442-2597 | the drop phase, then the pickup phase on what the drops left, has those properties |
| Matching.UnmatchedLeft | source/Game.cpp:2525-2595 | a line still in the diff is nonzero and its base was in neither phase |
| Limbs.IsLimbGone | source/Game.cpp:2239-2258 | expired iff no slot, corrupted iff not a limb slot; otherwise bit `limb` is ORed in when gone, and the promise is fulfilled when the weapon limb arrives (or already was) |
| Limbs.Feed | source/Game.cpp:2239-2258 | for a nonempty run of answers: expired when the limb slot is gone, corrupted when it has another type; on success the same keys remain and no other slot changes |
| Limbs.NotFulfilledBeforeWeapon | source/Game.cpp:2254-2257 | an answer for a limb other than the weapon leaves the waiter unanswered |
| Limbs.FeedCollects | source/Game.cpp:2239-2258 | answering the remaining limbs in order collects their bits, and the slot is fulfilled exactly when the weapon limb was among them |
| Limbs.LimbQueryCollects | source/Game.cpp:2239-2258 | the fifteen answers of a limb query fulfil the slot with bit i set iff limb i is gone |
| Limbs.MaskOfBits | source/Game.cpp:2254 | bit i of the collected mask is set iff limb i was reported gone |
| Limbs.KillActor | source/Game.cpp:1262-1279 | the shift loop computes KillCommands |
| Limbs.KillCommands | source/Game.cpp:1262-1279 | every command is a Kill of the actor with the given cause, and any key it carries is the caller's |
| Limbs.KillActorBits | source/Game.cpp:1267-1274 | a nonzero mask yields one Kill per set bit, with that limb, in ascending order |
| Limbs.KillActorKey | source/Game.cpp:1271-1273 | only the last Kill carries the key; every earlier one carries none |
| Limbs.LastKillIsHighest | source/Game.cpp:1271-1273 | the last Kill is for the highest set bit |
| Limbs.KillActorWhole | source/Game.cpp:1275-1276 | a mask of 0 yields a single Kill with Limb_None carrying the key |
| Routing.Release | source/Game.cpp:508-509 | a nonzero key's slot is released; key 0 changes nothing |
| Routing.DelayOrExecute | source/Game.cpp:504-515 | in context the call runs with the key; out of context the key is released and the call is queued on the object with key 0 |
| Routing.NoOrphanedKey | source/Game.cpp:504-515 | the caller's key rides on a command issued now or is released; a queued task never carries a key |
| Routing.Swallow | source/Game.cpp:1297-1302 | the Pip-Boy guard issues nothing and releases the key |
| Routing.PipBoyStaysPut | source/Game.cpp:1297-1302 | AddItem, RemoveItem, EquipItem and UnequipItem of either Pip-Boy on the player are swallowed |
| Routing.AddItem | source/Game.cpp:1295-1316 | a Pip-Boy on the player is swallowed; otherwise AddItem goes out with the key in context, and out of context the key is released and AddItem is queued keyless |
| Routing.RemoveItem | source/Game.cpp:1323-1344 | routed as AddItem, with RemoveItem |
| Routing.EquipItem | source/Game.cpp:1427-1441 | a Pip-Boy on the player is swallowed; otherwise EquipItem goes out at once with the key and the slots are unchanged |
| Routing.UnequipItem | source/Game.cpp:1448-1462 | as EquipItem, with UnequipItem |
| Routing.LockCommand | source/Game.cpp:1098-1120 | UINT_MAX unlocks; any other level locks, the broken level UINT_MAX − 1 as 255 |
| Routing.SetLock | source/Game.cpp:1098-1120 | the mapped lock command goes out with the key in context; out of context the key is released and it is queued keyless |
| Routing.SetOwner | source/Game.cpp:1122-1141 | SetOwnership with the mapped owner, with the key in context; out of context the key is released and it is queued keyless |
| Routing.OwnedByPlayer | source/Game.cpp:1122-1141 | exactly one SetOwnership goes out, naming PLAYER_BASE when the owner is the player's own base and the owner otherwise, keyed exactly when issued at once; out of context a nonzero key is released |
| Routing.GetLocked | source/Game.cpp:2689-2710 | reported 0 means unlocked (UINT_MAX), 2 broken (UINT_MAX − 1), any other value changes nothing; a packet goes out iff the level changed |
| Routing.GetLockedIdempotent | source/Game.cpp:2689-2710 | the same report twice sends at most one packet |
| Routing.LockRoundTrip | source/Game.cpp:1098-1120 | an unlocked report sets Unlock back; a broken report sets the impossible level 255 |
| Routing.LineCommand | source/Game.cpp:1720-1736 | a diff line becomes Equip / Unequip when equipped changed, otherwise AddItem / RemoveItem by the sign of the count, nothing for a zero line, with the line's key and base |
| Routing.LineStep | source/Game.cpp:1716-1740 | one diff line issues or queues at most one command; a queued one carries no key; no slot but the line's own key is released and no slot is changed |
| Routing.ApplyDiff | source/Game.cpp:1716-1740 | the lines in order give at most one command each; queued commands carry no key; only the lines' own keys are released and no slot is changed |
| Routing.ApplyDiffInContext | source/Game.cpp:1720-1736 | for a non-player in context, net_UpdateContainer issues exactly the line commands, each with its own key |
| Routing.ApplyDiffOutOfContext | source/Game.cpp:1720-1736 | out of context only equips go out now; adds and removes are queued keyless and their keys released |
| Routing.ApplyDiffSparesPipBoy | source/Game.cpp:1720-1736 | on the player no command names a Pip-Boy |
| Routing.RemoveRecordsInContext | source/Game.cpp:2670-2687 | GetRemoveAllItemsEx removes every scanned record's count of its base, silently and keyless |
| Routing.RemoveRecords | source/Game.cpp:2670-2687 | the slots are untouched; at most one command per record, each a silent keyless RemoveItem on the container |
| Dispatch.At | source/Game.cpp:38 | `info.at(i)` out of range is an error |
| Dispatch.RouteKey | source/Game.cpp:48-74 | a nonzero key is released unless the opcode is polled or kept |
| Dispatch.Poll | source/Game.cpp:52-63 | a polled opcode's nonzero key gives the slot handle |
| Dispatch.SetShared | source/Game.cpp:464-485 | FutureSet through the polled handle; an empty handle has expired |
| Dispatch.OnSuccess | source/Game.cpp:40-348 | only the answered key's own slot may change; a key outside the polled and kept groups is released; an unknown opcode releases it and raises "Unhandled function" |
| Dispatch.CommandHandler | source/Game.cpp:36-371 | only the answered key's own slot may change, and a failed command changes no slot |
| Dispatch.ReleasedUnlessPolledOrKept | source/Game.cpp:48-74 | an opcode outside the polled and kept groups releases its key first, even an unknown one, which raises "Unhandled function" |
| Dispatch.UnkeyedAnswerExpires | source/Game.cpp:76-79 | a polled answer with key 0 raises "Storage has expired" and changes nothing |
| Dispatch.PolledAnswerFulfils | source/Game.cpp:78-79 | PlaceAtMeHealthPercent fulfils its slot with the result and leaves every other waiter alone |
| Dispatch.OnFailure | source/Game.cpp:350-369 | a failed command changes no slot; only PlaceAtMeHealthPercent is issued again, as written: `PlaceAtMe(refID, baseID, condition, key)` with no key; fewer than three arguments raise |
| Dispatch.FixedOnFailure | source/Game.cpp:350-369 | the corrected failure path: the placement is reissued with its own count and key; fewer than four arguments raise |
| Dispatch.FixedCommandHandler | source/Game.cpp:36-371 | the handler with the corrected retry: a failure changes no slot, and a success is handled as CommandHandler does |
| Dispatch.OnlyPlacementIsRetried | source/Game.cpp:361-369 | through the handler, a failed command changes no slot; one other than PlaceAtMeHealthPercent is dropped; the placement goes out again with `key` as its count and no key |
| Dispatch.Retry | source/Game.cpp:363-364 | the reissued placement, corrected: refID, baseID, condition, count and the key |
| Dispatch.RetryAsWrittenLosesKey | source/Game.cpp:364 | as written the reissued placement has `key` as its count and no key, so its answer raises "expired" and the waiter stays unanswered |
| Dispatch.RetryKeepsKey | source/Game.cpp:364 | corrected, the reissued placement carries the key, and its answer fulfils the waiter |
| Dispatch.Scheduler.constructor | source/Game.cpp:493-502 | before startup nothing is queued or pushed |
| Dispatch.Scheduler.JobDispatch | source/Game.cpp:493-502 | before startup a job is queued; after startup it is pushed at once |
| Dispatch.Scheduler.Startup | source/Game.cpp:455-461 | startup pushes the queued jobs in FIFO order and leaves the queue empty; every dispatched job has been pushed, in dispatch order |
| Guards.RaceStep | source/Game.cpp:1221-1244 | no command when the remembered race (0 when unseen) equals it or it is UINT_MAX, and the key is released; otherwise the race is recorded, MatchRace issued, and AgeRace when the age delta is nonzero, the key on the last |
| Guards.RaceAppliedOnce | source/Game.cpp:1226-1232 | the same race for the same base a second time issues nothing and releases the key |
| Guards.ClearedRaceReapplied | source/Game.cpp:1886 | after the cache is cleared, every real race is applied again |
| Guards.RaceCache.SetActorRace | source/Game.cpp:1221-1244 | the method computes RaceStep on the cache |
| Guards.RaceCache.Clear | source/Game.cpp:1886 | the cache is empty |
| Guards.SexStep | source/Game.cpp:1246-1258 | a creature releases the key; anyone else gets SexChange carrying it |
| Guards.ChatStep | source/Game.cpp:2285-2305 | chat never coexists with quit; controls are disabled exactly when chat opens, enabled exactly when it closes; the game ends exactly on the quit key outside chat in quit mode |
| Guards.StateStep | source/Game.cpp:2276-2333 | when the chat step ends the game the actor is unchanged and nothing is sent; otherwise idle and sneaking are taken, movingXY is the low two flag bits, and the moving animation is normalised |
| Guards.StateSentIffChanged | source/Game.cpp:2307-2332 | the state packet goes out exactly when the poll changed the actor; ending the game changes nothing |
| Guards.WeaponNeedsTwoPolls | source/Game.cpp:2316-2327 | the weapon animation changes only to the value the previous poll reported, and is taken when two polls agree; alerted follows Equip / Unequip only |
| Guards.SteadyWeaponTaken | source/Game.cpp:2316-2327 | a new weapon value reported twice is taken on the second poll, with a state packet |
| Guards.StateWatch.constructor | source/Game.cpp:2278-2280 | chat off, quit on, both weapon samples Idle |
| Guards.StateWatch.GetActorState | source/Game.cpp:2276-2333 | the method computes StateStep and keeps chat ⇒ ¬quit |
| Guards.PosStep | source/Game.cpp:2088-2116 | only the player's answers count; a change marks an update; the Z answer sends the position and clears the mark |
| Guards.PosRound | source/Game.cpp:2088-2116 | an X, Y, Z round sends one position, on Z, iff some axis changed or one was pending, and leaves nothing pending |
| Guards.PosWatch.GetPos | source/Game.cpp:2088-2116 | the method computes PosStep |
| Guards.CenterCommand | source/Game.cpp:563-568 | the Center command for the destination carries the key |
| Guards.CenterStep | source/Game.cpp:550-659 | a spawn request remembers its destination; only the first one travels and loads the environment; a wait without an answer fails |
| Guards.LatestSpawnReplayed | source/Game.cpp:554-560 | of two spawn requests the first travels, the second does not, and the respawn replays the second |
| Guards.CenterIsAnswered | source/Game.cpp:335-341 | the Center answers fulfil the waiter's `bool` slot with true |
| Guards.Spawner.CenterOn | source/Game.cpp:550-659 | the method computes CenterStep |
| Guards.GetMessage | source/Game.cpp:2788-2800 | an empty message sends nothing; otherwise a prefix of length min(length, limit) is sent |
| Guards.GetMessageIdempotent | source/Game.cpp:2788-2800 | a sent message, sent again, goes out unchanged |

## Left out

- Engine calls (`Interface::ExecuteCommand`, `StartDynamic`/`EndDynamic`, `PushJob`, `SignalEnd`) are values in command sequences or result flags. Their parameter encoding is not modelled.
- Network transport is not modelled. Packets are symbolic values without RakNet priorities or channels. `Guards.PosStep` sends `UpdatePos(ref)` without the coordinates. The actor state packet is the flag `sent` beside the new actor state.
- Concurrency and timing are not modelled: detached threads, `sleep_for`, the off-thread reconciliation job, and `Guarded` sessions, each of which is taken as atomic. A wait that times out is an input: `answered` in `Guards.CenterStep` and `answer` in `CellIndex.Index.NewObject`.
- Floating point is not modelled: `AdjustZAngle`, positions and spawn offsets of matched items, the condition of items and its `/100` scaling, and actor-value differences.
- `Lockable` internals are not part of this model. Slots are a map from key to typed slot. `Share` takes the fresh key as a parameter.
- `Dispatch.OnSuccess`: each engine result arrives as an integer. The bit reinterpretation of the result `double`, the signed-char conversion of `GetCauseofDeath`, and the pointer `result` of the scan opcodes are not modelled. A scan's bytes arrive as a separate parameter.
- `Dispatch.OnSuccess`: observer opcodes hand an `Observation` to their handlers, which are modelled in their own modules: GetPos, GetActorState, GetLocked, Chat, GetNextRef, the reconciliation and RemoveAllItemsEx. GetAngle, GetActorValue, GetDead, GetParentCell and GetControl are not part of this model; their handlers only forward changes to the server.
- `Dispatch.OnSuccess`: when the FutureSet after `GetRemoveAllItemsEx` raises, the model reports only the exception. The removal commands already issued are not reported.
- `Dispatch.OnSuccess`: a keyed ScanContainer answer stores the split records (`ScanRecords.Records`). The source stores their comparison with the container's item list. `ItemList::Compare`, `ApplyDiff`, `ToNetDiff` and `ToContainerDiff` are not part of this model.
- `Limbs.IsLimbGone`: `Poll`'s second argument is not part of this model. The slot is kept after the weapon limb arrives, as the kept-key routing leaves it to its waiter. The source fulfils the promise with a direct `set_promise`, so a second weapon-limb answer would raise there. The model accepts it and leaves the slot fulfilled.
- `CellIndex.Index.GetNextRef` fulfils its slot through `FutureSet`. The source calls `set_promise` directly, so a second fulfilment there would raise rather than be swallowed.
- The packed record's 8-byte `double condition` is carried as bytes and not decoded.
- `BestMatch.Best`: the search is over subsequences, bridged to the source's `next_permutation` walk by `BestMatch.BestIsShortestWalk`. Ties among shortest matches are broken towards the first candidates in sorted order, but that this equals the first permutation in the source's order is not proved.
- Matching: the game's answers for a refID (`GetBase`, `GetRefCount`, the item lookup) are a `Lookup` function. In `Matching.ReconcileJob` the drop phase's two waits are `Answers` that may be missing, and a missing one ends the job. Creating the matched items and building the network diff are not modelled.
- `Matching.ReconcileJob`: only the drop phase's `GetBase` and `GetRefCount` waits can fail in the model. The `ScanCell` waits and sibling lookups inside the same `catch(...)` are not modelled as failing.
- `CellIndex.Index.UpdateContext` and `Switching.CellOrder`: a cell's type buckets sit in an `unordered_map`, so the source walks them in an unspecified order. The model walks them in ascending type order, so the order of the issued commands across types is the model's choice. The cells of the diff are the sorted vectors that `set_difference` fills (source/Game.cpp:1975-1979), so they are walked ascending. The refIDs within a bucket are `std::set`s, walked ascending. Both orders are the source's. `Switching.SwitchState` states the final object state without reference to this order.
- `CellIndex.Index.UpdateContext`: known objects are a value map from refID to (persistent, enabled, game cell), and a refID the factory does not know is one missing from the map. `object->Work()`, which runs the commands queued on an object, is not modelled.
- `CellIndex.Index.NewObject`: of the commands it issues, only the PlaceAtMe is in its command sequence. SetName and SetAngle are not. SetLock and SetOwner are modelled on their own as `Routing.SetLock` and `Routing.SetOwner`. The 500 ms job at source/Game.cpp:826-855, which enables and moves or disables a new non-persistent object, is not modelled. The item condition is an integer parameter.
- `CellIndex.EnvironmentCommands`: `globals` is an `unordered_map`, whose iteration order is unspecified. The model restores the globals in ascending id order. Its contract fixes only which commands go out and that the weather comes last.
- The numbering of limbs, animation groups and the Pip-Boy base forms comes from headers that are not part of this model. `Limbs` uses limbs 0 to 14 in the order the `IsLimbGone` queries are issued, with the weapon limb last. `Guards.Groups` takes the animation groups as parameters.
- The animation, lock and position setters of game objects return whether the value changed. `Guards.StateStep` computes that by comparison. `Guards.PosStep` takes it as the input `changed`.
- 32-bit wrap-around of counts and refIDs is not modelled. Counts are unbounded integers. `ScanRecords` bounds its words to 32 bits explicitly.
- `Game.h` declares several functions with other signatures than `Game.cpp` defines. The model follows `Game.cpp`. `GameFactory.h` is an older API than the one `Game.cpp` calls, and it is modelled as written.
- `Reference` is a stand-in: a `known` flag and counts of started and ended sessions. `Reference.h` and its locking are not part of this model. `FactoryObject::operator*` is the public field `reference`.
- The startup schedule table, debug printing, and the bodies of the `GameFactory` lookup, creation and destruction functions are not part of this model.

## Findings

| source | as written | input that shows it | evidently intended | confidence | as-written member | corrected member |
|---|---|---|---|---|---|---|
| source/Game.cpp:364 | the failed PlaceAtMeHealthPercent is reissued as `PlaceAtMe(refID, baseID, condition, key)`, which binds `key` to the count parameter (source/Game.h:143) and sends key 0 | a failed placement with key 7: the retry places 7 copies with no key; its answer raises "Storage has expired" and the waiting NewObject never gets its refID | `PlaceAtMe(refID, baseID, condition, count, key)` with the original count `info.at(4)` | medium, not executed | Dispatch.RetryAsWrittenLosesKey | Dispatch.RetryKeepsKey |
