# dagron in Dafny

A model of the parts of dagron that are hardest to get right by reading: the
tiered artifact store and its ledger, workflow inlining and template import,
the live log relay, segmented logs, encrypted artifact streams and their
rotation, the SQLite change pump, the Python builder's cycle check, and the
service token cache. Each module is one part; its first comment names the
source file.

Where the source updates an object in place, the model is a class whose methods
are proved equal to functions of the old state, and the promises are lemmas
about those functions. Where calls interleave (puts around a drain, a reader
against a closer, lookups around revokes) the model is a state machine whose
every step is proved to keep an invariant, and a lemma carries it over any run.

    dafny verify dfyconfig.toml

## The parts

- **Tiered artifact store.** `Keys` is what a key's path is. `Ledger` is the
  ledger in memory: records, the state they make, the dedup index, the drain
  order, and a snapshot. `LedgerFile` is its file, line by line, and what a torn
  write leaves. `LedgerStore` keeps one in step with the other through appends,
  rewrites, failed writes and crashes. `LedgerTruth` is whether memory and the
  file call uploaded only what is. `Uplink` interleaves puts, task writes and
  reads with a drain that lets go of the ledger to hash and upload, with failing
  writes and crashes; `Misleading` is runs that go wrong, and `Billing` is
  what that drain costs. `DrainQueue`
  and `TieredStore` are one drain alone, and the store's own calls.
- **Workflow inlining.** `Expand` is the pass as written; `ExpandLeaves` says
  when it succeeds and what it yields; `Inlining` is the graph half of it, over
  `Graph`; `ExpandOrder` joins the two; `ExpandRefs` gathers the workflows
  first. `Templates` is `use:`.
- **Live log relay.** `Utf8` is section 4 of RFC 3629 for a reader that may stop
  anywhere; `Follow` is one task's log followed pass by pass; `LayoutRead` reads
  across segments, open part and row; `RelayLog` is both over a log written and
  closed beneath them; `Watchers` is the registry.
- **Segmented logs.** `LogSegments` is the reader against the closer;
  `LogNames` is what a writing is named and what a removal takes.
- **Encryption.** `Crypto` is the wrapped key in front of what it seals,
  `Frames` the streamed form, `Rotation` the sweep onto another key.
- **Change pump, builder, token cache.** `Pump`, `Builder`, `TokenCache`.

## What is taken as given

- A hash is a function of the bytes; only `RunReadsRecorded` needs it injective.
- The ledger's JSON is a pair of functions: a record is one line, is read back
  as written, and neither a proper part of its line nor a line with more after it
  is a record (`Faithful`).
- A cipher opens what it sealed and adds 16 bytes (`Opens`); a key provider
  unwraps what it wrapped, in at most 64 KiB (`Works`), and no bytes unwrap to
  two different keys under the two providers of a rotation (`Agree`).
- Places, hashes, runs, tokens and data keys are opaque values that can be
  compared, declared as types without a definition.
- What the environment does (when a write fails, what a read of a file that is
  changing gives, which rows a statement returned, the clock) is a parameter of
  the method, or an action of the state machine.

## Where the code does not do what was hoped

Each of these is a lemma with the state that shows it, beside the condition
under which the property does hold.

- A crash that tears the ledger's tail exactly before a newline is not noticed,
  and the next append glues two records into none
  (`LedgerStore.GluedRecordsAreLost`; exactly then, `LedgerStore.CrashKeeps`).
- A crash may bring back a `done` entry whose object has been overwritten since:
  while a failed ledger write is unhealed (`Misleading.SuspectFileMisleads`), or
  once a record is glued to one so torn (`Misleading.GluedFileMisleads`); exactly
  where the file left calls a key uploaded that the remote tier took other bytes
  for since the file last followed memory (`Uplink.StepTrueIff`,
  `Uplink.RunTrueIff`). None does where no crash is cut short and none comes
  while the ledger is suspect (`Uplink.SteadyIsAbreast`, `Uplink.AbreastIsTrue`).
- A read picks its remote key under the lock and asks after it: it may get what
  was overwritten in between (`Misleading.ReadIsOvertaken`; exactly then,
  `Uplink.PickedIsRecordedIff`).
- A ledger may forget what was uploaded, and pass the day's cap: after a crash
  that brings back an older count (`Misleading.SuspectFileForgets`), or under a
  clock set back (`Billing.ClockBackForgets`); exactly where it comes to count a
  day as memory did not last count it (`Billing.RunBilledIff`). An upload that a
  put raced, or that a crash came before the record of, is missed (exactly those,
  `Billing.MissedIff`).
- A cap of the largest 64-bit number caps nothing (`Billing.FitsIff`).
- A call of a list with a task on cycles alone loses order that goes through it
  (`Inlining.CycleCutsOrder`; exactly such, `Inlining.CarriesIff`); the engine
  refuses the cycle later (`ExpandOrder.FlatAcyclic`).
- A reader can be told a log moved on with no close made, where the log had not
  been begun when its open part was looked for
  (`LogSegments.MovedWithoutClose`); exactly otherwise two closes were made
  (`LogSegments.ReaderAgainstCloser`).
- A layout can count nothing of a log of which no segment was counted, where it
  grew and was closed twice before its open part was measured
  (`RelayLog.UnmeasuredIsNothing`; only then, `RelayLog.LayoutCounts`).
- A relay stream may begin inside a character (`Follow.BeginsInsideCharacter`;
  exactly when, `Follow.BeginsOnCharacterIff`), though never of a log seen at a
  character's end (`Follow.SeenWholeBeginsOnCharacter`).
- The pump's cursor may be past a change it has not sent, where that change's
  run changed again past the cursor and is still to come. A file put back from
  an older copy and written up to the cursor before the next poll has changes
  that are never sent (`Pump.RestoredAndGrownLoses`; exactly which,
  `Pump.BelowCursorIsToldIff`).
- A service token may be kept past its expiry by as long as its lookup waited
  for the cache (`TokenCache.OutlivesIff`, `TokenCache.OutlivesByWaiting`).
- Streaming an artifact cut to nothing gives an empty text and no error, where
  a whole read of it is one (`Frames.StreamIsWholeIff`).
- The builder's check meets a name without a task (a `KeyError`) when a call
  that failed had already reserved it (`Builder.TaskSet.AddTask`,
  `Builder.TaskSet.AssertAcyclic`).

## Model

| member | source | states |
|---|---|---|
| `Keys.SanitizedIsPlain` | crates/dagron-artifact/src/lib.rs:77-84 | a sanitized part is one safe, non-empty name that is neither `.` nor `..` |
| `Keys.PlainIsKept` | crates/dagron-artifact/src/lib.rs:77-84 | a safe name is left alone, so what a tier lists under a path is found under it |
| `Keys.SamePlaceIff` | crates/dagron-artifact/src/lib.rs:43-50 | two keys share a path exactly when each of their sanitized parts is the same |
| `Ledger.AppliedWf` | crates/dagron-artifact/src/tiered.rs:236-277 | every record keeps entries under their own keys with distinct numbers, and the dedup index naming only uploaded entries of that hash |
| `Ledger.PendingIsSorted` | crates/dagron-artifact/src/tiered.rs:328-333 | the drain order is by time, then by insertion |
| `Ledger.PendingIsAll` | crates/dagron-artifact/src/tiered.rs:328-333 | the drain order is exactly the pending entries |
| `Ledger.AppliedEquiv` | crates/dagron-artifact/src/tiered.rs:236-267 | states alike in entries, states, day count and order stay alike under any record |
| `Ledger.EquivDrainsAlike` | crates/dagron-artifact/src/tiered.rs:328-333 | states alike drain in the same order |
| `Ledger.SnapshotReplays` | crates/dagron-artifact/src/tiered.rs:348-378 | a snapshot replays, with fresh numbers, to a state alike in entries, states, day count and order, with a sound index |
| `LedgerFile.ReplayEncoded` | crates/dagron-artifact/src/tiered.rs:383-424 | the lines records were written as replay to those records applied |
| `LedgerFile.ReplayInTurn` | crates/dagron-artifact/src/tiered.rs:383-440 | what is appended to a file that ends its last line replays after what was there |
| `LedgerFile.TornReloads` | crates/dagron-artifact/src/tiered.rs:396-413 | an append torn at any byte brings back some of its records, in turn; the tear is known of, unless it came exactly before a newline, in which case it is not |
| `LedgerStore.PersistKeeps` | crates/dagron-artifact/src/tiered.rs:629-654 | through appends, compactions and failed writes, a file not known suspect replays to memory |
| `LedgerStore.WriteHeals` | crates/dagron-artifact/src/tiered.rs:629-654 | the next write that succeeds brings the file back in step, whatever failed before |
| `LedgerStore.ReloadSyncedIff` | crates/dagron-artifact/src/tiered.rs:383-415 | a reload is in step with its file exactly unless the last line reads whole and lacks its end |
| `LedgerStore.CrashKeeps` | crates/dagron-artifact/src/tiered.rs:426-463 | a crash in a write, append or rewrite, keeps all there was and some of the write's records in turn, all of them exactly where no more than its last newline is missing or it was renamed; of a ledger known suspect the file is the old one or has it all; it is cut short exactly when an append tears before a newline |
| `LedgerStore.RunKeeps` | crates/dagron-artifact/src/tiered.rs:348-463 | over any run of writes, failures and crashes none of which is cut short, the file replays to memory whenever it is not known suspect |
| `LedgerStore.GluedRecordsAreLost` | crates/dagron-artifact/src/tiered.rs:396-440 | cut exactly before a newline and then appended to, a ledger reloads with neither record |
| `LedgerStore.TierLedger.Load` | crates/dagron-artifact/src/tiered.rs:383-415 | loading replays the file, and is in step exactly unless it is cut short |
| `LedgerStore.TierLedger.Detach` | crates/dagron-artifact/src/tiered.rs:271-277 | the index forgets a place whose bytes are about to change |
| `LedgerStore.TierLedger.Insert` | crates/dagron-artifact/src/tiered.rs:260-267 | an entry in place of any other, numbered after all before it |
| `LedgerStore.TierLedger.Apply` | crates/dagron-artifact/src/tiered.rs:236-258 | one record's change of the ledger, the same live and on replay |
| `LedgerStore.TierLedger.Persist` | crates/dagron-artifact/src/tiered.rs:629-654 | memory first, then an append or a rewrite; in step or known suspect after, failed or not |
| `LedgerTruth.AppendTrue` | crates/dagron-artifact/src/tiered.rs:396-440 | what is appended to a file, whole or torn at any byte, and even glued to a record that lacked its newline, leaves a file that calls nothing uploaded that is not, now or whatever is appended next |
| `LedgerTruth.PersistTrue` | crates/dagron-artifact/src/tiered.rs:629-654 | a write of true records, whole or failing, keeps memory true, and the file but at what the remote tier took since it last followed memory |
| `LedgerTruth.CrashTrue` | crates/dagron-artifact/src/tiered.rs:426-463 | so does one cut by a crash anywhere |
| `Uplink.WroteTrueIff` | crates/dagron-artifact/src/tiered.rs:629-654 | a ledger write of true records keeps the ledger true; a crash in it does exactly unless the file it leaves misleads |
| `Uplink.StepTrueIff` | crates/dagron-artifact/src/tiered.rs:624-860 | every step of puts, task writes, scans, uploads, racing puts, failed writes and crashes keeps each `done` entry's hash that of what the remote tier holds under its key; a crash, cut anywhere and at any time, does exactly unless the file it leaves calls a key uploaded that the remote tier took other bytes for since the file last followed memory |
| `Uplink.RunTrueIff` | crates/dagron-artifact/src/tiered.rs:624-860 | over any run, the ledger is true all along exactly when no crash of it misleads so |
| `Uplink.SteadyIsAbreast` | crates/dagron-artifact/src/tiered.rs:383-415 | where no crash of a run is cut short and none comes while the ledger is suspect, each comes with the file following memory |
| `Uplink.AbreastIsTrue` | crates/dagron-artifact/src/tiered.rs:624-860 | and then none misleads |
| `Uplink.ReadIsRecorded` | crates/dagron-artifact/src/tiered.rs:303-314 | what a key picks, as it is picked, has the hash recorded, through a done entry or a valid alias; an alias whose target moved on picks nothing |
| `Uplink.PickedIsRecordedIff` | crates/dagron-artifact/src/tiered.rs:897-914 | a read that asks the remote tier any number of steps after it picked its key gets the hash recorded then exactly unless the tier took other bytes under that key in between |
| `Uplink.RunReadsRecorded` | crates/dagron-artifact/src/tiered.rs:897-914 | over any run no crash of which misleads, with an injective hash, such a read gets the bytes the hash was taken of exactly unless so |
| `Misleading.SuspectFileMisleads` | crates/dagron-artifact/src/tiered.rs:624-654 | a run from a ledger in step, through a put whose write fails, a drain and a crash, to a ledger that calls uploaded what the remote tier no longer holds |
| `Misleading.GluedFileMisleads` | crates/dagron-artifact/src/tiered.rs:396-440 | and one through a put cut just before its newline, with no crash while the ledger is suspect |
| `Misleading.SuspectFileForgets` | crates/dagron-artifact/src/tiered.rs:624-654 | a run through an upload whose record fails, and a crash, to a ledger that counts it no more, though none was missed; and on through the day's next drain, past the cap |
| `Misleading.ReadIsOvertaken` | crates/dagron-artifact/src/tiered.rs:897-914 | a run in which a read picks the key of an upload and asks for it once it was put again and uploaded |
| `Billing.StepDoes` | crates/dagron-artifact/src/tiered.rs:739-860 | every step, however its ledger write goes, leaves the count alone, begins a drain, settles its day, chooses an upload that fits, makes one, counts the one made, or counts a day anew (exactly a reload that has not the upload under way counted, and a drain on another day than the ledger's) |
| `Billing.StepBilledIff` | crates/dagron-artifact/src/tiered.rs:739-860 | a step, with any crash in it, keeps what was last counted for each day equal to the bytes uploaded then less those missed, up to saturation, exactly unless it counts a day anew as memory did not last count it |
| `Billing.RunBilledIff` | crates/dagron-artifact/src/tiered.rs:739-860 | over any run so it is all along, exactly when no step does that |
| `Billing.AbreastIsBilled` | crates/dagron-artifact/src/tiered.rs:739-860 | nor does any where crashes come with the file following memory and no drain is on a day already counted, another being the ledger's |
| `Billing.FitsIff` | crates/dagron-artifact/src/tiered.rs:174-180 | what fits is within the cap, exactly unless the cap is the largest count |
| `Billing.RunIsCapped` | crates/dagron-artifact/src/tiered.rs:174-180 | over any run that forgets nothing, with uploads no larger than ledgered, no day's uploads pass the cap by more than what was missed |
| `Billing.MissedIff` | crates/dagron-artifact/src/tiered.rs:838-860 | an upload is missed exactly by a put that raced it or a crash whose file has it not counted, and less that the counts are right exactly unless the step forgets |
| `Billing.BudgetIsKept` | crates/dagron-artifact/src/tiered.rs:742-860 | with nothing forgotten and none missed, what was last counted for a day is what was uploaded then, but for one under way, and no day passes the cap |
| `Billing.ClockBackForgets` | crates/dagron-artifact/src/tiered.rs:739-747 | a run of a drain on an earlier day and one back on the later leaves the later day's count at nothing |
| `DrainQueue.QueueIsFair` | crates/dagron-artifact/src/tiered.rs:750-860 | what leaves the queue is a prefix of it, less what is oversize; a drain stops only at an entry that could move, for want of budget or of a link, and leaves what follows as it was |
| `DrainQueue.OldestMoves` | crates/dagron-artifact/src/tiered.rs:750-792 | on a new day with the link up, the oldest entry that is not oversize leaves |
| `DrainQueue.QueueKeepsAliases` | crates/dagron-artifact/src/tiered.rs:765-781 | a drain leaves no alias stale that was not |
| `DrainQueue.DrainShrinks` | crates/dagron-artifact/src/tiered.rs:689-860 | with the link up and nothing new, a drain on a new day moves at least one entry that can move, and adds none |
| `DrainQueue.QueueEmpties` | crates/dagron-artifact/src/tiered.rs:689-860 | `n` entries that can move have left after drains on `n` days |
| `TieredStore.Store.Put` | crates/dagron-artifact/src/tiered.rs:889-895 | the bytes are local, and one pending record is written unless the ledger has exactly them |
| `TieredStore.Store.Get` | crates/dagron-artifact/src/tiered.rs:897-914 | local bytes first; remote bytes of a done entry or alias have its hash |
| `TieredStore.Store.Move` | crates/dagron-artifact/src/tiered.rs:754-860 | one entry of the order: skipped, aliased, oversize, deferred, forgotten, or uploaded and billed |
| `TieredStore.Store.DrainAt` | crates/dagron-artifact/src/tiered.rs:689-860 | scan, stale aliases and new day in one write, then the queue; the ledger stays true |
| `Expand.Boundary` | crates/dagron-api/src/expand.rs:306-329 | the roots of an inlined list are the tasks depending on nothing in it, the exits those nothing in it depends on |
| `Expand.Rewire` | crates/dagron-api/src/expand.rs:216-243 | a call's roots inherit its upstreams, and dependents attach to its exits |
| `Expand.ExpandPure` | crates/dagron-api/src/expand.rs:181-331 | the whole pass, with its budget, depth and chain |
| `ExpandLeaves.FlattensIff` | crates/dagron-api/src/expand.rs:192-331 | flattening succeeds exactly when calls are bare, lists non-empty, nothing repeats on a reference path, nesting is within 32, and leaves are at most 10,000 |
| `ExpandLeaves.InlineYieldsLeaves` | crates/dagron-api/src/expand.rs:192-331 | the tasks are, in order, the leaves of the reference tree under their qualified names with their other fields unchanged |
| `Inlining.AcrossBlocks` | crates/dagron-api/src/expand.rs:192-243 | in a graph whose elements are replaced by threaded blocks (every node led to from an exit and leading to a root), reachability between two blocks is reachability between their elements |
| `Inlining.CarriesIff` | crates/dagron-api/src/expand.rs:192-243 | a block between two others carries order through each of its nodes exactly when it is threaded |
| `Inlining.CycleCutsOrder` | crates/dagron-api/src/expand.rs:216-243 | a block of two nodes on a cycle, between two others, leaves them unordered |
| `Inlining.WithinBlockIff` | crates/dagron-api/src/expand.rs:192-243 | within one block it is the block's own, or, where the element is on an outer cycle, all of it |
| `Inlining.FlatAcyclicIff` | crates/dagron-api/src/expand.rs:192-243 | the flat graph is acyclic exactly when the outer graph and every block are |
| `ExpandOrder.RewiringInlines` | crates/dagron-api/src/expand.rs:216-243 | rewiring a well-named list makes exactly that graph |
| `ExpandOrder.FlatAcyclic` | crates/dagron-api/src/expand.rs:192-331 | the flattened graph is acyclic exactly when every inlined list is |
| `ExpandOrder.FlatThreaded` | crates/dagron-api/src/expand.rs:192-331 | threaded lists flatten to a threaded graph |
| `ExpandOrder.AcyclicAllThreaded` | crates/dagron-api/src/expand.rs:192-331 | lists without cycles are threaded |
| `ExpandOrder.OrderPreserved` | crates/dagron-api/src/expand.rs:192-331 | where the lists called are threaded, a leaf transitively depends on another exactly when, in some list holding both, its element does on the other's |
| `ExpandOrder.LowestDecides` | crates/dagron-api/src/expand.rs:192-331 | where no list has a cycle, that list is the lowest holding both |
| `ExpandOrder.FlattenedIsClosed` | crates/dagron-api/src/expand.rs:181-331 | a flattened workflow has distinct names and no dangling dependency |
| `ExpandOrder.FlattenedOrder` | crates/dagron-api/src/expand.rs:181-331 | and the order its lists give, of the lowest list holding both where none has a cycle |
| `ExpandRefs.CollectReferencedSpecs` | crates/dagron-api/src/expand.rs:101-176 | gathering succeeds exactly when every workflow reached is saved and declares no imports or templates, and yields those and no others |
| `ExpandRefs.InlineKnown` | crates/dagron-api/src/expand.rs:246-331 | over gathered workflows inlining never meets an unknown reference |
| `ExpandRefs.ExpandWorkflowRefs` | crates/dagron-api/src/expand.rs:60-75 | a spec without references is left alone; any other is gathered and flattened, or refused for what it says |
| `Templates.TemplateClosure` | crates/dagron-api/src/expand.rs:407-432 | terminates with exactly the declared templates reached by calls from the named one, each once |
| `Templates.MergeUses` | crates/dagron-api/src/expand.rs:438-494 | succeeds exactly when every entry is valid and no name is wanted of two places; local templates first, then each wanted one once |
| `Templates.MergedIsClosed` | crates/dagron-api/src/expand.rs:438-494 | an imported template's calls are imported with it, from its own library |
| `Templates.MergedIsDistinct` | crates/dagron-api/src/expand.rs:438-494 | with distinct local names the merged names are distinct |
| `Utf8.TextAfter` | crates/dagron-api/src/relay.rs:838-851 | past a character's end, text is text |
| `Utf8.NewlineEndsCharacter` | crates/dagron-api/src/relay.rs:838-851 | no longer character holds a newline byte |
| `Follow.AdvanceIsExact` | crates/dagron-api/src/relay.rs:652-815 | one pass sends the log's next bytes in order, keeps what follows them, and stays within its bound |
| `Follow.TakeFollows` | crates/dagron-api/src/relay.rs:700-770 | during a pass the carry is the log past what was sent, at most one step longer than before |
| `Follow.AdvanceIsWhole` | crates/dagron-api/src/relay.rs:652-815 | from a character's start a pass sends whole characters, and a complete end of valid text is at its total |
| `Follow.UnforcedEndsLine` | crates/dagron-api/src/relay.rs:838-851 | a piece not forced out ends at a newline |
| `Follow.BeginsOnCharacterIff` | crates/dagron-api/src/relay.rs:652-740 | a stream of text begins on a character exactly when its window holds a newline, or starts or ends on a character |
| `Follow.BeginsInsideCharacter` | crates/dagron-api/src/relay.rs:652-740 | with the relay's own line bound, a log of three-byte characters seen inside its last one begins inside another |
| `Follow.SeenWholeBeginsOnCharacter` | crates/dagron-api/src/relay.rs:652-740 | a log seen at a character's end always begins on one |
| `Follow.RunIsExact` | crates/dagron-api/src/relay.rs:652-815 | over any passes on one growing writing, what is sent is the log from where it started, contiguous, and the carry is what follows |
| `Follow.RunIsWhole` | crates/dagron-api/src/relay.rs:652-815 | and never splits a character |
| `Follow.StreamIsTheLog` | crates/dagron-api/src/relay.rs:652-815 | from the pass that begins a writing: it says where, and all the passes after send is the log from there |
| `Follow.Tail.Pass` | crates/dagron-api/src/relay.rs:652-815 | a pass over a task's row: on with the writing followed, or the start of another |
| `LayoutRead.KeptInRow` | crates/dagron-api/src/relay.rs:886-947 | a log kept in its row alone is found to be what the row holds, or the output of a task over that logged nothing |
| `LayoutRead.Read` | crates/dagron-api/src/relay.rs:949-1070 | though segments close, are gone or are cut short, the open part goes and the row grows meanwhile, what is read is the log's own bytes from where it was asked; all that were counted, while every part is there, and those alone where the row did not grow |
| `LayoutRead.ReadStill` | crates/dagron-api/src/relay.rs:949-1070 | an unchanging log, or the output that stands in for one, is read exactly, across any segments, open part and row |
| `RelayLog.LayoutCounts` | crates/dagron-api/src/relay.rs:886-947 | while a log is written and closed, its layout counts at least all logged at the statement and no more than when its open part was measured; told moved on only after two closes of a log that grew; and short only where no segment was counted and two such closes took the open part |
| `RelayLog.UnmeasuredIsNothing` | crates/dagron-api/src/relay.rs:932-945 | a run in which a log written on meanwhile is so measured as nothing |
| `RelayLog.HeldIsTheLogs` | crates/dagron-api/src/relay.rs:949-1070 | whatever the writer does between a read's steps, what each finds is the log's in its place |
| `RelayLog.See` | crates/dagron-api/src/relay.rs:886-1070 | so what a pass is told is no more than there is, all of it of a log all there when it counted, and what it reads the log's |
| `RelayLog.RunInTurn` | crates/dagron-api/src/relay.rs:562-652 | in any interleaving of the passes with the writer's steps |
| `RelayLog.Relay` | crates/dagron-api/src/relay.rs:652-815 | all the passes of a relay over a log written and closed beneath it send where the stream began and from there the log, in order and without a gap |
| `Watchers.Add` | crates/dagron-api/src/relay.rs:236-247 | a watcher's keys are counted, each as often as it is there |
| `Watchers.Remove` | crates/dagron-api/src/relay.rs:249-265 | and given back, with no count below one when it is taken |
| `Watchers.SnapshotWantsIff` | crates/dagron-api/src/relay.rs:267-289 | a pass wants a task exactly when a live watcher of that epoch's entry does |
| `Watchers.Relay.Join` | crates/dagron-api/src/relay.rs:393-446 | joins exactly when the run is watched, there is room, or one idle longest can be let go; counts stay exact and at most `max_tails` |
| `Watchers.Relay.DropGuard` | crates/dagron-api/src/relay.rs:303-313 | a guard gives back to its own epoch's entry, and touches no other |
| `Watchers.Relay.Take` | crates/dagron-api/src/relay.rs:536-561 | the dirty runs with what they want; counts stay exact |
| `Watchers.TakenIff` | crates/dagron-api/src/relay.rs:536-546 | a run stays exactly while it is received or idle for less than the linger |
| `Watchers.Relay.Clear` | crates/dagron-api/src/relay.rs:374-377 | all entries go, and guards dropped later touch no entry begun since |
| `LogSegments.StepKeeps` | crates/dagron-engine/src/log_batch.rs:212-282 | every step of an append or a close, finished or given up, keeps the recorded segments and the open part together the log |
| `LogSegments.StepSince` | crates/dagron-engine/src/log_batch.rs:212-282 | what a count names stays, no shorter and nothing else, until the second close after it, which comes only of a log that grew |
| `LogSegments.Assemble` | crates/dagron-artifact/src/log_segments.rs:507-557 | the segments counted, the open part the count goes on to, and the row; or told it moved on |
| `LogSegments.ReaderAgainstCloser` | crates/dagron-artifact/src/log_segments.rs:507-613 | in any interleaving the reader gets a prefix of the log with at least all that was logged when it counted, each byte once (exactly that, where the open part is in the row); or is told it moved on, two closes of a log that grew having been made exactly where anything was logged when it looked |
| `LogSegments.MovedWithoutClose` | crates/dagron-artifact/src/log_segments.rs:528-549 | a run in which a reader is told so with no close made |
| `LogNames.NameParsesIff` | crates/dagron-artifact/src/log_segments.rs:80-133 | a writing's name says which it is exactly while its numbers have at most 18 digits |
| `LogNames.RemoveLog` | crates/dagron-artifact/src/log_segments.rs:290-330 | a removal keeps exactly the names that are not a writing before the current one: its own, later ones, and what is no writing's; with none current, nothing |
| `Crypto.Le32Reads` | crates/dagron-artifact/src/lib.rs:656-660 | a length written is read back, modulo 2^32 |
| `Crypto.BlockUnlocks` | crates/dagron-crypto/src/lib.rs:241-284 | a key block unlocks under its own provider to its key and what follows it |
| `Crypto.RewrappedUnlocks` | crates/dagron-crypto/src/lib.rs:337-375 | wrapped again, it unlocks under the new key to the same key and the same sealed bytes; it fails exactly when the old key does not unlock it |
| `Frames.FrameReads` | crates/dagron-artifact/src/lib.rs:688-706 | a frame reads back, with what follows it |
| `Frames.CutFrame` | crates/dagron-artifact/src/lib.rs:688-706 | a frame cut anywhere is no frame |
| `Frames.ChunkOpens` | crates/dagron-crypto/src/lib.rs:419-500 | a sealed chunk opens at its own index with its own flag |
| `Frames.PutStream` | crates/dagron-artifact/src/lib.rs:433-479 | whatever the reads, the blob is tag, header and one frame for each chunk with the last marked |
| `Frames.DecryptStreamBlob` | crates/dagron-artifact/src/lib.rs:709-728 | the text of the frames up to the marked one, or an error |
| `Frames.RoundTrip` | crates/dagron-artifact/src/lib.rs:433-728 | what was streamed in comes back, however it was split, and also when empty |
| `Frames.CutShortFails` | crates/dagron-artifact/src/lib.rs:688-728 | every proper prefix of a blob is an error |
| `Frames.SealedIsWellFramed` | crates/dagron-artifact/src/lib.rs:447-470 | exactly one chunk is final and it is last, and every frame is within the bound a reader enforces |
| `Frames.StreamIsWholeIff` | crates/dagron-artifact/src/lib.rs:480-537 | the lazy reader ends well exactly where the whole decrypts, with the same text, but for an empty object |
| `Rotation.RotatedOpens` | crates/dagron-artifact/src/lib.rs:732-746 | rotated, an object opens under the new key to the same data key and sealed bytes; it fails exactly when the old key does not open it |
| `Rotation.TurnedHolds` | crates/dagron-artifact/src/lib.rs:551-571 | an object is rotated, or left where it was already; it fails only where neither key opens it |
| `Rotation.EncryptedStore.RotateFrom` | crates/dagron-artifact/src/lib.rs:538-574 | a sweep in listing order, cut short anywhere or at the first object that fails |
| `Rotation.SweepFinishes` | crates/dagron-artifact/src/lib.rs:538-574 | after any number of interrupted sweeps, one that is not succeeds exactly when every object opens under one of the keys, and then each is under the new key with its sealed bytes and text unchanged |
| `Pump.Listener.ChangedRuns` | crates/dagron-api/src/stream.rs:160-203 | a poll of at most eight reads; a read that fails sends nothing and leaves the cursor |
| `Pump.SentOnce` | crates/dagron-api/src/stream.rs:160-203 | a poll sends a run at most once |
| `Pump.TellsSends` | crates/dagron-api/src/stream.rs:168-198 | a change told of by a row has its run sent, and by a snapshot every live run |
| `Pump.StepKeeps` | crates/dagron-api/src/stream.rs:160-203 | through changes, trims, polls, failed reads and files put back, every change at or below the cursor was told of or its run changed again past it |
| `Pump.NothingIsLost` | crates/dagron-api/src/stream.rs:115-203 | so does any run |
| `Pump.PollTellsAll` | crates/dagron-api/src/stream.rs:160-203 | a poll whose last read was not full leaves no change of the file untold |
| `Pump.RowsAre` | crates/dagron-core/migrations/081_run_changes.sql:9-26 | the rows read past a cursor are, in order, each run's last change not trimmed |
| `Pump.BelowCursorIsToldIff` | crates/dagron-core/src/db/sqlite.rs:9969-9987 | a change below the cursor that was not repeated is told of again exactly when the cursor is past the newest change or too far behind it |
| `Pump.RestoredAndGrownLoses` | crates/dagron-core/src/db/sqlite.rs:9946-9951 | a file put back and written up to the cursor has a change the next poll does not send |
| `Builder.TaskSet.AddTask` | sdks/python/dagron.py:643-663 | every reserved name stays a task's exactly unless a call fails after it reserved its name |
| `Builder.TaskSet.EnsureBuild` | sdks/python/dagron.py:956-1013 | one build task for each tag, under a name nothing had; none exactly when both its names are taken |
| `Builder.TaskSet.AssertAcyclic` | sdks/python/dagron.py:931-954 | raises through a name exactly on a cycle when every reserved name is a task's; passes exactly when there is none and every known dependency is a task |
| `Builder.Coloring.Visit` | sdks/python/dagron.py:940-950 | terminates with the node and all it leads to black and on no cycle, or with a cycle it is on |
| `TokenCache.TokenCache.Put` | crates/dagron-api/src/auth.rs:304-330 | kept for its time left or ten seconds, and not where a revoke came since the generation was taken |
| `TokenCache.TokenCache.Get` | crates/dagron-api/src/auth.rs:279-289 | a token within its time; one past it is dropped |
| `TokenCache.KeptFor` | crates/dagron-api/src/auth.rs:304-330 | at most ten seconds, and past its expiry by at most the wait for the cache |
| `TokenCache.OutlivesIff` | crates/dagron-api/src/auth.rs:311-329 | an entry outlives its token exactly when the cache was waited for, to within ten seconds of the expiry |
| `TokenCache.OutlivesByWaiting` | crates/dagron-api/src/auth.rs:311-329 | a token got after its expiry, and the same one kept at once and not |
| `TokenCache.KeptIsBounded` | crates/dagron-api/src/auth.rs:322-325 | never more than 1,024 entries |
| `TokenCache.RunKeeps` | crates/dagron-api/src/auth.rs:146-251 | over any interleaving of lookups and revokes only services' tokens are kept, and none a revoke has removed |
| `TokenCache.RevokedIsNeverGot` | crates/dagron-api/src/routes/tokens.rs:319-336 | once a revoke has emptied the cache, no look finds its token again |

## Left out

- TieredStore.Store.DrainAt: the counts it returns and logs are not modelled, nor is a drain whose ledger write fails or whose local read faults; `Uplink` has those as steps.
- TieredStore.Store.Move: its ledger writes succeed; `Uplink` has their failures and crashes as steps.
- Billing.RunIsCapped: a cap of the largest 64-bit number, within which any sum fits, is excluded (see above); so too in `Billing.BudgetIsKept`.
- Uplink.StepTrueIff: bytes uploaded by a put that then failed are not counted as an upload by `Billing`; object stores are taken to replace an object whole.
- LedgerStore.RunKeeps: power loss that drops appends the file system had acknowledged is not modelled; only process crashes are.
- DrainQueue.QueueEmpties: the order stale aliases are requeued in is one of the many the source's map could give; nothing proved depends on it.
- Expand.Rewire: a task's dependencies are kept as a set, as the source collects them into a sorted one; their sorted order is not modelled.
- Templates.MergeUses: `use:` entries come parsed; splitting and trimming them, and `templates:` that is no list, are not modelled.
- ExpandRefs.CollectReferencedSpecs: which of several workflows that cannot be used is the one refused is left open.
- ExpandOrder.OrderPreserved: a called list with a task on cycles alone may carry no order (see above), so the lists called are threaded; names in a list are distinct, non-empty and without dots, and dependencies name tasks of their own list; the engine refuses anything else later.
- Watchers.SnapshotWantsIff: lower-casing is of ASCII letters alone.
- Follow.Tail.Pass: the budget shared by a pass's tasks and the statements that read their rows are parameters; grouping tasks into statements is not modelled.
- LogSegments.ReaderAgainstCloser: one writing of a log; a log begun again is another writing, under names of its own. How a close cuts its text into pieces is any cut that leaves less than a segment.
- RelayLog.Relay: one writing of a log, with nothing in the row of a `file://` store and no output in its place; a row that is over says so of a log all there. A store or database error is a pass that learns nothing.
- LogNames.RemoveLog: fences are natural numbers; a negative one's name is no writing's. Counting what is removed is left out.
- Frames.PutStream: the pipe between sealer and store, and which of their two errors is returned, are not modelled.
- Pump.StepKeeps: the same files put back are excluded as for `Pump.NothingIsLost`.
- Pump.NothingIsLost: a file put back from an older copy while changes below the cursor are still untold is excluded, as is one written up to the cursor before the next poll reads it (see above).
- Builder.TaskSet.AddTask: a task's fields other than its name, dependencies and recipe are one flag, whether the call is well formed; recursion depth of the visit is unbounded.
- TokenCache.RevokedIsNeverGot: reads of the database see every write made before them; a lagging read replica is not modelled. Hashes stand for tokens, and wall clock and monotonic clock are one.
- Cloud, S3, GCS and Azure stores, presigned URLs, compression and file-system calls: I/O behind the modelled calls.
- Postgres' LISTEN, the relay's task loop and SSE: transport around the modelled passes.
- Rate limits, OIDC, passwords, templating, autopsy and device parsing, the rest of the SDK: would only add easy members.
