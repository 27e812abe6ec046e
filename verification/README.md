# SHook verification model

A Dafny model of the SHook kernel module and of its PMU client: the sample buffers a performance-monitoring interrupt
writes into, the three interchangeable process trackers, the fork and exit handling built on them, the hook life cycle
from registration to unload, and the per-CPU counter control. The proofs are about these models; nothing here executes the
modules.

Check everything with `dafny verify dfyconfig.toml`.

## What is modelled

- **Non-blocking sample ring** (`client/clist/nbboundedlist.c`). `PackedIndex` has the `<HEAD, TAIL>` word and the
  arithmetic of `xadd` and of adding `stride << 32`. `SampleRing` is the ring run by one thread at a time, with its byte
  buffer and real offsets. `RingFifo` says when that ring is a drop-oldest queue. `RingProtocol`, `RingProof` and
  `RingRuns` are the same code with one writer and any number of readers, one memory access per step: `memcpy` copies
  byte by byte in any order, and `idx +=` is a load and a store. `RingAlone` shows that those steps, undisturbed, are the
  sequential write and read, `RingTearing` says when a read can go wrong, and `RingProgress` that nobody ever waits for
  another.
- **Array ring** (`client/clist/carray.c`): `ArrayRing`. Both rings address their bytes through `Slots`, and
  `ClientSizes` has the sizes the client gives them.
- **Trackers**: `HashTracker`, `StackTracker` (with the tagged word of `TaggedWord`) and `PerfTracker` keep the fields of
  the C code and are proved against the state machines of `TrackerSpec`; `TrackerHistory` tells their answers from the
  calls made so far, `TrackerAgreement` compares them, and `TrackerDrivers` drives the three through the same calls.
- **Fork, exit and records** (`ptracker.c`, `client/client_module.c`): `ProcessTracker` is the code over the hash tracker,
  `ProcessWorld` its meaning, `Genealogy` says which tasks are tracked, `Ownership` who owns each record.
- **Hooks**: `SystemHook` (`system_hook.c` without interference), `HookRegistry` (`hooks.c` and the registration loops),
  `HandlerProtocol`, `WrapperRuns`, `UnloadSafety` and `UnloadLiveness` (handlers entering and leaving while the module
  is unloaded).
- **Counters**: `PmcGating` (counters switched at context switches), `FamilyCounting` (over the tracker) and
  `PmiAccounting` (reload value, 48-bit counter, interrupt count).

Results worth knowing before reading on:

- The non-blocking ring is a drop-oldest queue exactly when the entry size divides the entry count. Neither ring the
  client builds meets that (88 does not divide 11915, 96 does not divide 682): those rings never drop and stop answering
  readers for good once 136, or 8, samples are unread. Until then they are queues.
- The array ring uses 137 of 11915 slots, or 9 of 682.
- A read can return bytes older than its sample exactly when, as it begins, the writer has yet to write a byte of that
  same sample that differs from what the slot holds. No copy spoilt by an overwrite survives the compare-and-swap.
- Under a fair scheduler the drain loop of module exit ends with usage at 1 for good, and the unload completes. The loop
  does not by itself keep handlers out: one can still enter exactly when it passed the unmounting test and has not yet
  counted itself. Unregistering and synchronising does keep them out.
- A run never gives a task two tracker entries exactly when no registration goes through for a task that is tracked
  already (`query_tracker` tells). A task registered twice is still tracked after its exit.
- Every record allocated is live or was handed to detach once. The records of registered tasks, and no others, reach
  detach with their `clist` never set.
- The interrupt handler means to pass over interrupts that are not counter overflows (comment at client/pmi.c:60), but
  its test uses `&&` for `&` and takes every non-zero status. The interrupt count measures events exactly when no such
  interrupt comes before the counter has overflowed.
- With the thread filter off, which is the default, context switches never touch a counter.
- A tracked task that exits on its CPU leaves the counters on until a tracked task is next switched out there.

Conventions: machine integers are mathematical integers with the wrap written out, except the tagged word, which is a
`bv64`. Allocation results, lock outcomes and kernel answers are parameters. Fields named `history`, `samples`, `before`,
`log` or `periods` only record the past.

## Model

| member | source | states |
|---|---|---|
| PackedIndex.AddTail | client/clist/nbboundedlist.c:6-9 | `xadd` on the packed word moves TAIL and leaves HEAD alone exactly when TAIL does not carry past 32 bits |
| PackedIndex.AddHead | client/clist/nbboundedlist.c:58-59 | adding `stride << 32` moves HEAD only |
| RingFifo.RingIsFifo | client/clist/nbboundedlist.c:39-81 | when stride divides len, every sequence of writes and reads answers as a drop-oldest queue of len / stride samples |
| RingFifo.RefinesIffDivides | client/clist/nbboundedlist.c:46-78 | agreement with the drop-oldest queue on all sequences holds if and only if stride divides len |
| RingFifo.AgreesIffReadsFit | client/clist/nbboundedlist.c:46-78 | without divisibility, the ring answers a run as the queue does if and only if no read of the run finds more than len / stride samples unread |
| RingFifo.FifoUntilOverrun | client/clist/nbboundedlist.c:51-60 | in particular it is a first-in first-out queue as long as the writes fit |
| RingFifo.HistoryIsWrites | client/clist/nbboundedlist.c:64-81 | every write takes the next ticket with its sample, however full the ring, and HEAD never goes back |
| RingFifo.DropsIffDivides | client/clist/nbboundedlist.c:77-78 | some sequence makes a writer advance HEAD if and only if stride divides len |
| RingFifo.OverrunIffTooMany | client/clist/nbboundedlist.c:47-49 | the reload condition holds exactly when more than len / stride samples are unread |
| RingFifo.WedgedForever | client/clist/nbboundedlist.c:47-49 | without divisibility, a ring once overrun answers no later read, whatever is written |
| RingFifo.ClientRingsWedge | client/buffering/bthread.c:7-15 | the per-task ring wedges once 8 samples are unread, the per-CPU ring (bcpu.c) once 136 are |
| SampleRing.LapAfterWrite | client/clist/nbboundedlist.c:72-75 | a write into its slot keeps every other sample of the last lap in the byte buffer |
| SampleRing.SlotsUsed | client/clist/nbboundedlist.c:72-75 | when stride divides len, ticket j goes to slot stride * (j mod capacity), so one slot in stride is ever used |
| SampleRing.NbBoundedList.constructor | client/clist/nbboundedlist.c:19-32 | a new ring owes nothing, whatever the uncleared memory holds |
| SampleRing.NbBoundedList.Write | client/clist/nbboundedlist.c:64-81 | the byte-level write appends the sample, dropping the oldest exactly when the writer's ticket is len ahead of HEAD, and touches the bytes of its own slot only |
| SampleRing.NbBoundedList.Read | client/clist/nbboundedlist.c:39-62 | the byte-level read delivers the oldest sample owed, reports empty, or spins; the bucket changes only on success |
| RingProof.StepKeeps | client/clist/nbboundedlist.c:39-81 | every step of the writer or of any reader keeps the protocol invariant |
| RingProof.OneLapBack | client/clist/nbboundedlist.c:72-75 | with divisibility the slot of a new ticket still holds the sample one capacity older |
| RingRuns.ReadsAreExact | client/clist/nbboundedlist.c:54-59 | along every run a successful read returns, byte for byte, the sample of its ticket except bytes it copied before the writer of that ticket stored them, which are the slot's former bytes; none if the writer had finished when the index was loaded |
| RingTearing.BeginsIff | client/clist/nbboundedlist.c:46-52 | in any state of the protocol a read begins to copy, the ticket at HEAD, if and only if between 1 and len / stride samples are queued; early exactly when the writer is still copying that ticket |
| RingTearing.TearsIff | client/clist/nbboundedlist.c:46-59 | a read that has just begun can go on to succeed with bytes other than its sample's if and only if the writer has yet to write a byte of that sample which differs from what the slot holds |
| RingProgress.WriterFinishes | client/clist/nbboundedlist.c:64-81 | the writer never waits: from any state it finishes in at most stride + 4 steps of its own, whatever the readers hold |
| RingProgress.ReaderGetsOut | client/clist/nbboundedlist.c:54-59 | a reader's attempt ends after the bytes it misses and one compare-and-swap, which takes the ticket at HEAD if and only if the index is the one it loaded |
| RingRuns.OverwriteWindow | client/clist/nbboundedlist.c:72-78 | from a ticket taken on a full ring until HEAD moves, TAIL - HEAD = len + stride and no compare-and-swap succeeds; otherwise, with divisibility, TAIL - HEAD <= len |
| RingRuns.OverwritesOnlyTheOldest | client/clist/nbboundedlist.c:72-78 | the writer's slot is shared with no queued sample except, inside the window, the one about to be dropped |
| RingRuns.StoreLosesNoUpdate | client/clist/nbboundedlist.c:77-78 | the load and store of `idx +=` act as one addition, and drop the ticket one lap behind the writer's |
| RingRuns.TicketsInOrder | client/clist/nbboundedlist.c:58-60 | tickets leave the queue in increasing order across all readers and drops, none twice |
| RingRuns.TicketsAreConserved | client/clist/nbboundedlist.c:58-78 | HEAD counts reads plus drops, TAIL all samples; a ticket has left exactly when HEAD is past it |
| RingRuns.OverrunIsFinal | client/clist/nbboundedlist.c:47-49 | without divisibility no ticket leaves an overrun ring again, in any interleaving |
| RingRuns.TornReadIsReachable | client/clist/nbboundedlist.c:54-59 | a real run, from an empty ring, in which that happens |
| RingAlone.WriteAlone | client/clist/nbboundedlist.c:64-81 | the protocol's writer steps, from its ticket on and without interference, are the sequential write |
| RingAlone.ReadAlone | client/clist/nbboundedlist.c:39-62 | the protocol's reader steps, from its index load on and without interference, are the sequential read |
| ArrayRing.CArray.constructor | client/clist/carray.c:19-34 | a new array ring is empty with index 0 |
| ArrayRing.CArray.Write | client/clist/carray.c:58-77 | after k writes idx = stride * (k mod P), every write is inside the buffer, and the last min(k, P) samples are at their slots |
| ArrayRing.IndexSteps | client/clist/carray.c:69-72 | the two branches step from slot k mod P to slot k + 1 mod P |
| ArrayRing.KeepsLastAfterWrite | client/clist/carray.c:65-66 | one more copy keeps the other samples of the last P |
| ArrayRing.AllSlotsUsedIff | client/clist/carray.c:69-72 | the period P equals len if and only if entries are one byte or there are at most two |
| ArrayRing.ClientArraysKeepFew | client/buffering/bthread.c:10-12 | the client's arrays keep 9 of 682 and (bcpu.c) 137 of 11915 entries, and every write after any number of writes stays in their first 864 or 12056 bytes |
| TaggedWord.RoundTrip | ptracker_stack.c:55-62 | every stored word is accepted and decodes to the pointer with bit 47 sign-extended; it is the identity iff the pointer is canonical |
| TaggedWord.WordLayout | ptracker_stack.c:55-62 | bits 0-47 of the stored word are the pointer's, 48-61 its low 14 bits with the magic number folded in, 62 is clear and 63 set |
| TaggedWord.AcceptedIsEncoded | ptracker_stack.c:108-122 | a word is accepted exactly when, process bit aside, it is the encoding of what it decodes to |
| TaggedWord.RestoredIsRejected | ptracker_stack.c:92 | the word written on restore is not accepted |
| HashTracker.EveryBucketIsHit | ptracker_hash.c:45 | every one of the 256 buckets is the bucket of some id |
| StackTracker.Tracker.PatchThreadStack | ptracker_stack.c:36-78 | the task becomes tracked with the sign-extended pointer and its stack word is the encoding; no stack page changes nothing and returns -EINVAL |
| StackTracker.Tracker.RestoreThreadStack | ptracker_stack.c:80-97 | the stack word is 0 again and the task, and no other, stops being tracked |
| StackTracker.Tracker.GetMagicEntry | ptracker_stack.c:99-112 | finds an entry exactly for the tracked tasks |
| StackTracker.Tracker.Add | ptracker_stack.c:130-134 | the last add wins; errors are dropped |
| StackTracker.Tracker.Del | ptracker_stack.c:142-153 | returns the datum and forgets the task |
| StackTracker.Tracker.Query | ptracker_stack.c:156-159 | answers membership |
| StackTracker.Tracker.QueryData | ptracker_stack.c:162-165 | answers the datum |
| HashTracker.RemoveFirst | ptracker_hash.c:72-79 | unlinking the first match pops that task's newest datum and no other task's |
| HashTracker.TableAdd | ptracker_hash.c:43-48 | linking at the head of the bucket keeps nodes in their buckets, counts one more, pushes one task's datum |
| HashTracker.TableDel | ptracker_hash.c:72-79 | unlinking keeps nodes in their buckets, counts one less, pops one task |
| HashTracker.Tracker.constructor | ptracker_hash.c:152-155 | an empty table tracks nobody |
| HashTracker.Tracker.Add | ptracker_hash.c:30-53 | pushes on the pid's stack of data, or returns -ENOMEM unchanged; `tracked_count` equals the number of nodes |
| HashTracker.Tracker.Del | ptracker_hash.c:61-91 | pops the newest datum of the pid, NULL if none; other pids keep their answers |
| HashTracker.Tracker.Query | ptracker_hash.c:94-119 | exact when the lock was taken; a lost trylock answers false, never true for an untracked pid |
| HashTracker.Tracker.QueryData | ptracker_hash.c:122-149 | the newest datum when the lock was taken, else NULL |
| TrackerHistory.HashAnswersFromHistory | ptracker_hash.c:30-149 | every answer of the hash tracker is told by the newest add of the task that no later deletion took |
| PerfTracker.Tracker.GetTaskEvent | ptracker_perf.c:15-22 | sees no event while a removal is under way on the CPU |
| PerfTracker.Tracker.CreateTaskData | ptracker_perf.c:34-63 | an event with the datum at the end of the task's list, seen by later calls only if the list was empty; nothing if the kernel counter cannot be created |
| PerfTracker.Tracker.DestroyTaskData | ptracker_perf.c:65-91 | the task's first event, and no other, is gone, the next one if any takes its place, and the removal flag is down again |
| PerfTracker.Tracker.Add | ptracker_perf.c:98-104 | the first add wins; the tracker's invariant of one event per task breaks exactly when a tracked task is added during a removal |
| PerfTracker.Tracker.Del | ptracker_perf.c:112-123 | returns the datum and forgets the task; with a second event in the list the task stays tracked by it; during a removal nothing is found and nothing changes |
| PerfTracker.Tracker.Query | ptracker_perf.c:126-129 | answers membership; false during a removal |
| PerfTracker.Tracker.QueryData | ptracker_perf.c:132-135 | answers the datum; NULL during a removal |
| TrackerHistory.MapAnswersFromHistory | ptracker.h:6-9 | every answer of the other two is told by the add in force: the first (perf event) or the last (stack word) since the task's last deletion |
| TrackerHistory.TrackedIffAddCounts | ptracker.h:6-9 | a task is tracked if and only if some add of it is in force |
| TrackerAgreement.TrackersAgree | ptracker.h:6-9 | on every such sequence the three specification machines give the same answers |
| TrackerDrivers.RunTogether | ptracker.h:6-9 | the three implementations, driven through one sequence of calls whose adds target untracked tasks with canonical pointers, answer alike call by call and end tracking the same tasks |
| TrackerAgreement.AddKeepsAgreementIff | ptracker.h:6-9 | one add keeps them indistinguishable if and only if the task was untracked and the pointer canonical |
| TrackerAgreement.ReAddedHash | ptracker_hash.c:45 | after a second add and one deletion the hash tracker still knows the task |
| TrackerAgreement.ReAddedMap | ptracker_perf.c:100-101 | the stack word then hands back the second datum, the perf event the first, and both forget the task |
| TrackerAgreement.CutPointerShows | ptracker_stack.c:56 | a pointer that is not canonical comes back changed from the stack word |
| ProcessTracker.ProcessTracker.OnAttach | client/client_module.c:23-35 | a record is allocated and its clist set, or NULL returned |
| ProcessTracker.ProcessTracker.OnDetach | client/client_module.c:37-47 | the record is freed; NULL frees nothing |
| ProcessTracker.ProcessTracker.RegisterProcess | client/client_module.c:13-21 | the registration step, with both ways of failing; the clist of the record stays unset |
| ProcessTracker.ProcessTracker.TrackFork | ptracker.c:18-28 | a child of a parent seen as tracked is given a record and tracked; a lost trylock leaves it untracked; the outcome of the add is ignored |
| ProcessTracker.ProcessTracker.TrackExit | ptracker.c:30-35 | the newest entry of the task is removed and its record freed |
| Genealogy.TrackedIsFamily | ptracker.c:18-35 | in every run whose successful registrations target untracked tasks, a task is tracked iff it was registered, or forked by a parent then in the family, and has not exited since; such tasks are alive |
| Genealogy.TrackedOnce | ptracker.c:18-35 | in those runs no task has two entries and tracked tasks are alive |
| Genealogy.OneEntryIff | ptracker_hash.c:30-53 | a possible run has at most one entry for every task throughout if and only if none of its registrations goes through for a task tracked by then |
| Genealogy.DoublyRegisteredOutlives | ptracker_hash.c:72-79 | from every start, registering a living task twice and letting it exit is a possible run that leaves the dead task tracked |
| Ownership.OwnedInEveryRun | ptracker.c:18-35 | in every run a live record is held by exactly one entry or has leaked, never both, and no entry holds a freed record |
| Ownership.RecordsAreConserved | client/client_module.c:23-47 | in every run the records allocated are as many as those live plus those handed to detach |
| Ownership.ExitFreesItsOwn | ptracker.c:33-34 | the record passed to detach is live, so never freed twice, and is held nowhere afterwards; NULL data frees nothing |
| Ownership.UnfittedIffRegistered | client/client_module.c:13-35 | in every run a live record is without a clist if and only if register_process allocated it |
| Ownership.DetachesUnfittedIff | client/client_module.c:37-47 | so detach passes an unset clist to buffering_dynamic_fini if and only if the record came from a registration |
| Ownership.NothingLeaksIff | ptracker.c:24 | every live record stays reachable if and only if no add that was given a record failed |
| SystemHook.SystemHook.StartHandler | system_hook.c:33-45 | succeeds and counts exactly when hooks are enabled and unmounting is not marked |
| SystemHook.SystemHook.StopHandler | system_hook.c:47-51 | uncounts |
| SystemHook.SystemHook.SetShookCallback | system_hook.c:60-89 | replaces the callback of that hook only; NULL restores the dummy; other types are skipped |
| SystemHook.SystemHook.Whook | system_hook_tracep.c:7-31 | the hook runs exactly when the module is open and usage is balanced either way |
| HandlerProtocol.StepKeeps | system_hook_tracep.c:7-129 | every step of a handler, a client or the unloading thread keeps the protocol invariant |
| WrapperRuns.WrapperAlone | system_hook_tracep.c:7-31 | a wrapper nobody interferes with, from its call to its return, runs its hook if and only if hooks are enabled and unmounting is unmarked, and leaves everything as it was |
| WrapperRuns.AdmittedWhileEnabled | system_hook.c:35-36 | whoever is past the first test of start_handler made it at a moment when the last setting of shook_enabled was on |
| UnloadSafety.UnloadedMeansEmpty | hooks.c:109-110 | usage is 1 plus the handlers inside; a hook unregistered and synchronised has no handler in its wrapper; after unload none is anywhere |
| UnloadSafety.PassedBeforeMark | system_hook.c:35-44 | a handler found past the test made that test while unmounting was unmarked and has not left since |
| UnloadSafety.InsideAfterMark | system_hook_tracep.c:108-120 | whoever is inside after unmounting was marked had passed the test before the mark |
| UnloadSafety.DebtIsPaidOff | system_hook_tracep.c:108-120 | after the mark the outstanding handler steps only shrink, by one for each count and each stop |
| UnloadSafety.DrainProgresses | system_hook_tracep.c:119-120 | at most two such steps per handler remain, one can always be taken, and when all are taken usage is 1 |
| UnloadSafety.PollLeavesIff | system_hook_tracep.c:119-120 | a poll leaves the drain loop if and only if no handler is counted inside at that moment |
| UnloadSafety.InsideAfterDrain | system_hook_tracep.c:119-122 | so tracker_fini runs under no handler counted by then: whoever is inside later had at that poll passed the test and not yet counted itself |
| UnloadLiveness.DrainEnds | system_hook_tracep.c:115-120 | in every endless run that does not neglect a handler past the test for ever, some time after the mark usage is 1 for good |
| UnloadLiveness.DrainLoopExits | system_hook_tracep.c:115-120 | if the loop is also polled again and again, it is left |
| UnloadLiveness.OnlyGracePeriodsWait | system_hook_tracep.c:101-129 | the unloading thread can take its next step in every state unless a grace period has not ended |
| UnloadLiveness.UnloadFinishes | system_hook_tracep.c:101-129 | in every endless fair run that begins to unload, the unload completes, grace periods included, and from then on no handler is in a wrapper |
| UnloadSafety.MayEnterIff | system_hook.c:33-45 | after the mark some continuation finds a handler inside a hook if and only if it is past the unmounting test by now |
| UnloadSafety.EntersAfterDrainIff | system_hook_tracep.c:119-120 | when the loop has read 1, some handler can still get inside a hook if and only if one has passed the test and not yet counted itself |
| UnloadSafety.DrainIsNotTheEnd | system_hook_tracep.c:119-120 | a run in which the loop ends and a handler then enters |
| HookRegistry.RemoveAllLeavesRest | hooks.c:100-107 | first-match removal of a table, in any order and with repeated pairs, leaves the rest of the list |
| HookRegistry.InitThenFini | system_hook_tracep.c:61-67 | registering a table and removing it in table order restores the list as a sequence |
| HookRegistry.NameServes | hooks.c:21-38 | which hooks a tracepoint name stands for, read backwards |
| HookRegistry.ModuleProbes | system_hook_tracep.c:38-40 | a loaded module sits on the switch, fork and exit tracepoints, each with its own wrapper |
| HookRegistry.Registry.RegisterHook | hooks.c:48-93 | returns 0, lists the hook first and attaches its probe if and only if there is a function, memory, the tracepoint and the kernel's consent; else nothing changes, with -EINVAL, -ENOMEM or -ENXIO in that order |
| HookRegistry.Registry.UnregisterHook | hooks.c:95-115 | the first match leaves the list and its probe is detached |
| HookRegistry.Registry.SystemHooksInit | system_hook_tracep.c:42-59 | returns 0 with all entries registered if and only if every entry has all four; else list and probes are as before, with the error of the first failing entry |
| HookRegistry.Registry.Rollback | system_hook_tracep.c:54-56 | undoes the first n registrations |
| HookRegistry.Registry.SystemHooksFini | system_hook_tracep.c:61-67 | removes the table entry by entry |
| HookRegistry.Registry.ModuleInit | system_hook_tracep.c:69-99 | load succeeds if and only if every registration and the tracker do; otherwise it leaves no trace and reports the first failure |
| PmcGating.TrackedTasksAreCounted | client/client_module.c:49-67 | no run of switches, forks, exits and off-CPU registrations leaves a tracked task running with its counters off |
| PmcGating.FilterOffNeverSwitches | client/client_module.c:53-54 | with the thread filter off no run of events switches a counter |
| FamilyCounting.GatingMirrorsTracker | client/client_module.c:56-57 | the tasks the switch hook goes by are those the tracker knows, along every run of process events and switches |
| FamilyCounting.FamilyIsCounted | client/client_module.c:49-67 | with the filter on, a CPU that runs a registered task or one of its descendants counts |
| PmcGating.RegisterCoversIff | client/client_module.c:13-21 | registering a task keeps that if and only if the counters of every CPU it runs on are on |
| PmcGating.SwitchIsExactIff | client/client_module.c:59-66 | a switch leaves the CPU exact iff it was exact or tracking differs between the two tasks |
| PmcGating.ExactStepIff | client/client_module.c:49-67 | one event keeps counters on iff a tracked task runs if and only if it changes the membership of no running task |
| PmcGating.ExactAlongIff | client/client_module.c:49-67 | a run from an exact state is exact throughout if and only if membership changes off the CPUs only |
| PmcGating.ExactStaysExact | client/client_module.c:49-67 | after any such run the counters are on iff a tracked task runs |
| PmcGating.CountersOutliveExit | ptracker.c:30-35 | after a tracked task exits on its CPU, switches among untracked tasks leave the counters on |
| PmcGating.Client.SchedIn | client/client_module.c:49-67 | the switch step, including the filter being off |
| PmiAccounting.Reload | client/pmi.c:78 | the doubly trimmed complement is 2^48 - 1 - reset_period |
| PmiAccounting.ParameterPeriods | client/params.c:46-49 | for 12 <= v <= 48 the reload value is 2^48 - 2^v |
| PmiAccounting.Pow2Sum | client/params.c:49 | BIT_ULL shifts add up |
| PmiAccounting.DefaultIs28 | client/pmu.c:19 | the default period is that of parameter value 28 |
| PmiAccounting.EventsAreAccounted | client/pmi.c:71-78 | over every run, reset_period changes included, events counted are the sum of finished periods plus the distance from the reload value |
| PmiAccounting.PmiCountMeasuresEvents | client/pmi.c:60-78 | with one period in force events = interrupts * (reset_period + 1) + (counter - reload) if and only if no interrupt of other origin found the counter short of overflow; never more |
| PmiAccounting.OverflowsAfterPeriod | client/pmu.c:106-114 | a loaded counter has overflowed exactly from reset_period + 1 events on |
| PmiAccounting.SamplesForever | client/pmi.c:71-78 | each reset_period + 1 events bring one interrupt, which is counted, clears the overflow and reloads the counter, for any number of rounds |
| PmiAccounting.NewPeriodSamples | client/pmi.c:78 | a period set before an interrupt is in force from that interrupt's reload on |
| PmiAccounting.Pmu.InitPmuLocal | client/pmu.c:87-122 | the sampling counter is loaded, every other fixed counter cleared, stale overflow dropped |
| PmiAccounting.Pmu.ResetPeriodSet | client/params.c:35-53 | 2^v - 1 for v in 12..48, else -EINVAL and nothing changes |
| PmiAccounting.Pmu.PmiHandler | client/pmi.c:42-92 | one interrupt counted and the counter reloaded for every non-zero status, whatever its origin; nothing for a zero status |

## Left out

- Several writers on one non-blocking ring: per-CPU and per-task buffering give each ring one writer.
- TAIL past 2^32: the carry goes into HEAD, as PackedIndex.AddTail shows; writes assume room below it.
- `read_clist` line 56 copies to `&bucket`; the model copies to `bucket`, the evident intent.
- SampleRing.NbBoundedList.Read: reports a reload loop that nothing can end as `Spins` instead of not returning.
- Memory order and real parallelism of single accesses: steps are totally ordered.
- Allocation size and failure in the two `init_clist`, and empty rings (no entry, or entries of size 0).
- PerfTracker.Tracker.CreateTaskData: the check for a NULL task, and the event mutex, are not modelled.
- StackTracker.Tracker.constructor: stack words are taken to be invalid at the start; words that pass the crc by accident are not modelled.
- HashTracker.Tracker.QueryData: reads the node's data under the lock, where the code reads it after unlocking.
- ProcessTracker.ProcessTracker.TrackFork: preemption and interrupt toggling are not modelled.
- ProcessTracker.ProcessTracker.RegisterProcess: of a record only whether its `clist` was set is modelled.
- HookRegistry.Registry.RegisterHook: `hook->tp` starts out as NULL, which the code leaves to chance; tracepoints are found by name in a given set.
- HookRegistry.Registry.UnregisterHook: requires a registered hook; for an unknown one the code is undefined.
- The scheduler: that a handler, or the unloading thread, that can take its next step takes it some time is a hypothesis.
- Callbacks are taken to terminate; reference-count saturation and the check for a second module exit are not modelled.
- PmiAccounting.Pmu.PmiHandler: the status is two bits, the sampling counter's and any other; counters freeze on overflow as section "Freezing LBR and Performance Counters on PMI" of the Intel SDM, volume 3, describes.
- PmcGating.TrackedTasksAreCounted: queries are uncontended and tasks are registered off the CPUs; RegisterCoversIff says when that matters.
- `gbl_fixed_ctrl` bit programming, CPUID, APIC and NMI set-up, snapshots of the other counters.
- `client/buffering/bsystem.c` (a drain without a grace period) and the failed-allocation path of `bcpu.c`.
- `system_hook_kprobe.c`: the same unload protocol over another probe interface.
- Reader modules, tools, proc files and parameter parsing: input and output only.
