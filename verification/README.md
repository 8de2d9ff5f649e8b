# ROCm SMI monitoring: verified models

This project models the parts of the ROCm SMI monitoring stack that hold algorithms rather than plumbing, and
proves what they promise. It covers PAPI's ROCm SMI component (its hash table, its measurement contexts, the layer
between them and PAPI, and its native event table), the sampling plugin that records PAPI counters, and a few
algorithms of the ROCm SMI library and its command-line tool.

`dafny verify dfyconfig.toml` checks everything.

## The modules

- `HTableSizing`, `HTable`, `HTableOps`, `HTableRuns`: the resizing chained hash table. The buckets, entries and
  `next` pointers are mutated in place; a ghost picture of the pointers (`Layout`) says which entry sits where. Over
  every run of operations the table answers as a finite map would, it stays within its load bound, and all the
  rehashing together relocates at most three entries for each operation that adds one, and one for each that removes
  one.
- `DeviceMask`, `Exclusivity`, `Contexts`, `PapiLayer`, `PapiProtocol`, `PapiDevices`, `PapiRuns`: measurement contexts. Devices are
  acquired through one global bit mask. Every hardware callback and allocation may fail, as an arbitrary sequence of
  outcomes says, and a ghost log records each callback. `Exclusivity` is the protocol over any number of contexts and
  any run; `Contexts` is the code, whose every step is a step of that protocol; `PapiLayer` adds threads and event sets
  with their guards. `PapiProtocol` is what PAPI sees of all this over any run of requests by any threads, as a machine
  on plain values; it fixes every answer, to reads and writes too, by the outcomes of the callbacks. `PapiDevices`
  follows the acquired devices over such runs, and `PapiRuns` runs requests on the code and proves that every one is a
  step of that machine.
  Contexts and event-number arrays have a ghost `live` flag that says they have not been freed. A context that is freed
  twice is counted; from then on nothing is known of which contexts are alive, since its memory may have been given to
  another one.
- `EventTableSpec`, `EventSlots`, `EventTable`: the native event table. One pass over what the devices report counts the
  events, a second fills the array and the hash table. The specification is a function from reports, and from the marks
  that earlier builds have left in the memo arrays, to the finished table. `EventSlots` says what every slot of such a
  table holds, for each kind of report, from the reports alone.
- `Sampler`, `Registration`: the sampling plugin. A thread appends records to a flat buffer, from which one counter's
  series is taken out; counters are registered by many threads, interleaved in any order.
- `ClockLevels`, `PowerProfiles`, `PciIds`, `PerfConfig`, `PerfCounters`: the SMI library's clock levels, power
  profiles, pci.ids scan, and perf-counter configuration and accounting. `Bits` holds binary numbers without a width.

## Where the code falls short of its intent

These are facts about the code, each with an exact condition:

- Opening a context that fails after its devices were acquired does not give them back, and neither does freeing an
  open context. The mask equals what open contexts hold if and only if that never happened (`MaskIsUnionUnlessLost`;
  `OneFailureLosesADevice`). A lost device stays acquired for ever, so that starting the same events again is refused
  ever after, by whatever thread, if and only if one of them is bound to a device (`RetriesAreRefusedForEver`).
- Devices are lost in the same way when an event set does not start and cannot be closed, when it is stopped but closing
  fails, and when its thread ends while it is running: its context stays open, and no request reaches it. At every point
  of a run the acquired devices are those of the event sets that are running, and apart from them exactly the devices
  that such a step has abandoned (`AcquiredIsUsedOrAbandoned`). So the mask is the union over running event sets if and
  only if no step has abandoned a device (`NothingIsAbandoned`), an idle thread's start is refused if and only if one of
  the devices is used by a running thread or was abandoned (`RefusedExactly`), and after any such step the same events
  are refused ever after if and only if one is bound (`AbandonedForEver`; `UnclosedEventSet`).
- When starting event `k` fails, the clean-up stops event `k` again and again instead of the events before it. The
  events before it have all been stopped if and only if all of them are event `k` (`CtxStart`; `StartFailsHalfway`).
- The context pointer of an event set is cleared only when there is no memory for a context; it dangles whenever an
  event fails to open, and when one fails to start and the context is closed again (`StartEvents`). Starting an event
  set from an idle thread frees a context twice if and only if the pointer dangles and a device of the set is in use.
  Over a whole run, nothing is freed twice if and only if no such start occurs (`NothingFreedTwice`). After an event
  failed to open, an event set with a bound event is stuck for as long as its events are not replaced: no thread can
  clean it up, and every start is refused and frees the context once more (`StuckForEver`, `StuckSetsAnswer`;
  `StuckEventSet`).
- The two passes over the reports agree, whatever is marked, if and only if no reported PCIe link has transfer rates
  (`PassesAgree`; `OneRateDisagrees`). The tables are compiled without them: the source defines `NOPCIE` but asks for
  `NO_PCIE`.
- A merged event is readable and writable if and only if a setter was reported after another report of the same key;
  a setter reported first leaves the event read-only (`ReadWriteIffSetAfter`, `SetterFirstIsNotReadWrite`).
- The memo arrays are never cleared. Building the table a second time counts one event fewer for each merged key
  (`MarkedKeysAreNotCounted`), but a setter still changes the slot its key had before. A build writes behind the end of
  its array if and only if it meets a setter whose mark lies there (`GetNtvEvents`, `InitEventTable`). Without transfer
  rates a second build from the same reports does so if and only if one of them sets something whose slot is among the
  last ones of the first table, as many as there are keys (`RefillWritesBehind`; `FanSpeedTableTwice`).
- Doubling the capacity leaves 32 bits, and gives a table of capacity zero, exactly when the table holds 2^30 entries
  and gets another one (`InsertKeepsBound`; `FullTableBreaks`).
- Counter numbers are distinct if and only if no slot but the last has more than 256 counters (`IdsAreDistinct`;
  `TwoThreadsCollide`). There are at most 32 event codes (plugins/scorep-coretemp-plugin/apapi.c:43 and 81), so this is
  about repeated calls of `add_counter`, each of which raises the count and gives out a new number.
- A device that its vendor does not list is called by its vendor's number, not its own, if and only if the vendor is the
  last of the pci.ids files (`UnlistedDevice`; `LastVendorsDevice`).
- A value wider than its perf field spills into other fields (`ReadsBack`, `WideValueSpills`), and a discarded counter
  difference is lost for good (`ExactWhenSteady`).

## Model

| member | source | states |
|---|---|---|
| HTable.HashTable.constructor | patches/rocm_smi/htable.h:192-213 | a new table of positive capacity is well formed, empty, and fresh |
| HTable.HashTable.InsertEntry | patches/rocm_smi/htable.h:344-359 | a new entry becomes the head of the chain its key hashes to; every other chain and entry stays as it was |
| HTable.HashTable.DeleteEntry | patches/rocm_smi/htable.h:361-390 | exactly one entry leaves its chain, at the head or behind it, and the chains stay acyclic and apart |
| HTable.HashTable.FindEntry | patches/rocm_smi/htable.h:392-415 | finds the entry filed under a key; reports no value if and only if there is none |
| HTable.HashTable.Rehash | patches/rocm_smi/htable.h:231-247 | every entry of the old table moves to the new one, which has its own capacity; the old table ends empty, contents are the same, and as many entries are relocated as there were |
| HTable.HashTable.RehashChain | patches/rocm_smi/htable.h:235-244 | walking a chain while deleting its head moves exactly that chain's entries and leaves the other chains alone |
| HTable.HashTable.Relocate | patches/rocm_smi/htable.h:238-243 | one entry moves: at each moment every entry and key is in exactly one of the two tables |
| HTable.HashTable.MoveTable | patches/rocm_smi/htable.h:249-262 | the old table takes over buckets, size and capacity, and stays well formed |
| HTable.HashTable.CheckNResize | patches/rocm_smi/htable.h:285-317 | one check resizes at most once, to the capacity the thresholds give, and keeps all entries |
| HTable.HashTable.DestroyEntries | patches/rocm_smi/htable.h:264-283 | every entry is unlinked and freed once |
| HTable.HashTable.DestroyChain | patches/rocm_smi/htable.h:270-280 | freeing a chain head by head frees exactly the entries of that chain |
| HTable.PushedCoherent | patches/rocm_smi/htable.h:349-356 | pushing an entry that is in no chain keeps chains acyclic, disjoint and filed by hash, keys unique |
| HTable.RemovedCoherent | patches/rocm_smi/htable.h:366-388 | removing an entry at any position keeps the same invariants |
| HTable.MovingKeepsSharedOut | patches/rocm_smi/htable.h:238-243 | moving the head of a chain of one table to another keeps the entries shared out between the two |
| HTable.ChainFindsKey | patches/rocm_smi/htable.h:405-411 | a walk along the chain of a key meets the key if and only if the table has it |
| HTableOps.HtableInit | patches/rocm_smi/htable.h:52-71 | a new handle holds the empty map, at the least capacity |
| HTableOps.HtableFind | patches/rocm_smi/htable.h:158-177 | gives the value of a present key, no value for an absent one, and writes its output only on success |
| HTableOps.HtableInsert | patches/rocm_smi/htable.h:89-125 | the contents are the old map updated at the key; size, capacity and relocations follow; null arguments are refused |
| HTableOps.HtableDelete | patches/rocm_smi/htable.h:127-156 | the contents lose exactly the key; an absent key is reported and nothing changes |
| HTableOps.HtableShutdown | patches/rocm_smi/htable.h:73-87 | every entry of the table is freed |
| HTableOps.Overwrite | patches/rocm_smi/htable.h:100-104 | overwriting a present key's value changes that key only |
| HTableOps.InsertAbsent | patches/rocm_smi/htable.h:106-116 | adding an absent key grows the table by the thresholds, and keeps it within its load bound |
| HTableOps.DeletePresent | patches/rocm_smi/htable.h:145-155 | a found entry is unlinked and freed, and the table shrinks by the thresholds |
| HTableSizing.Thresholds | patches/rocm_smi/htable.h:15-16 | the divisions ask for growth if and only if capacity < 2 size, and for shrinking if and only if capacity >= 9 size |
| HTableSizing.InsertKeepsBound | patches/rocm_smi/htable.h:285-308 | after an insertion and one check the table is within its load bound and in 32 bits, if and only if it held fewer than 2^30 entries; at 2^30 the new capacity is zero |
| HTableSizing.FullTableBreaks | patches/rocm_smi/htable.h:294-296 | a table of 2^30 entries and capacity 2^31 is within its load bound, and one more entry makes the new capacity zero |
| HTableSizing.DeleteKeepsBound | patches/rocm_smi/htable.h:285-308 | after a deletion one halving at most restores the load bound; an empty table is back at the least capacity |
| HTableSizing.InsertPays | patches/rocm_smi/htable.h:231-247 | what an insertion's rehash relocates is paid for by three units of potential |
| HTableSizing.DeletePays | patches/rocm_smi/htable.h:231-247 | what a deletion's rehash relocates is paid for by one unit of potential |
| HTableRuns.LastInsertWins | patches/rocm_smi/htable.h:89-177 | after any run a key has the value of its last insertion if no deletion came after it, and else none |
| HTableRuns.RepliesByLastTouch | patches/rocm_smi/htable.h:89-177 | in any run a lookup succeeds if and only if the last operation before it that touched its key inserted it, and gives the value inserted then; a deletion succeeds just then; an insertion always does |
| HTableRuns.ReachableIsWellSized | patches/rocm_smi/htable.h:15-16 | in every reachable table the capacity is 8 times a power of two, 2 size <= capacity < 9 size or empty with capacity 8, in 32 bits |
| HTableRuns.RelocationsAreAmortised | patches/rocm_smi/htable.h:231-308 | all rehashes of a run relocate at most three entries per added and one per removed entry |
| HTableRuns.Execute | patches/rocm_smi/htable.h:89-177 | one operation on the heap is answered, and changes the table, as the finite map says |
| HTableRuns.Run | patches/rocm_smi/htable.h:52-177 | any run on a new table gives the finite map's answers and contents: what each operation is answered follows from the last operation before it that touched its key; relocations are bounded |
| DeviceMask.DevicesOfOr | patches/rocm_smi/rocs.c:1014 | OR of masks is the union of the devices |
| DeviceMask.DevicesOfAnd | patches/rocm_smi/rocs.c:1010 | AND of masks is the devices in common |
| DeviceMask.DevicesOfXor | patches/rocm_smi/rocs.c:1029-1030 | XOR of masks is the symmetric difference |
| DeviceMask.Include | patches/rocm_smi/rocs.c:1007 | setting a device's bit adds that device only |
| DeviceMask.Overlap | patches/rocm_smi/rocs.c:1010-1012 | the conflict test finds out whether the masks share a device |
| DeviceMask.Covers | patches/rocm_smi/rocs.c:1025-1027 | the release test finds out whether all the devices are acquired |
| Exclusivity.StepKeepsExclusive | patches/rocm_smi/rocs.c:484-567 | every opening, refusal, failure or closing keeps holders disjoint, and the mask the union of held and lost devices |
| Exclusivity.RunsAreExclusive | patches/rocm_smi/rocs.c:484-567 | over every run with any number of contexts, devices are held exclusively and the mask covers them |
| Exclusivity.MaskIsUnionUnlessLost | patches/rocm_smi/rocs.c:494-539 | the mask is exactly the union of held devices if and only if no opening failed with devices acquired and no open context was freed |
| Exclusivity.OneFailureLosesADevice | patches/rocm_smi/rocs.c:511-539 | one failed opening of one device leaves it acquired and held by nobody |
| Exclusivity.LostForEver | patches/rocm_smi/rocs.c:996-1033 | a lost device stays acquired over every later run |
| Exclusivity.RefusedForEver | patches/rocm_smi/rocs.c:494-539 | after a failed opening the same devices are refused over every later run, if and only if there are any |
| Contexts.Rocs.AcquireDevices | patches/rocm_smi/rocs.c:996-1018 | acquires exactly the devices of the events, or refuses if and only if one is taken and then changes nothing |
| Contexts.Rocs.ReleaseDevices | patches/rocm_smi/rocs.c:1020-1033 | succeeds if and only if all devices are acquired, and then removes exactly those |
| Contexts.Rocs.CtxOpen | patches/rocm_smi/rocs.c:484-540 | fails exactly when a device is taken, memory or an event fails; a success opens every event once, in order, with zeroed counters; a failing event closes exactly the ones opened before it, the devices stay acquired, and the freed context is handed out; a refusal frees what the caller's pointer leads to, for the second time if it is dead |
| Contexts.Rocs.OpenEvents | patches/rocm_smi/rocs.c:511-532 | either all events are opened, or the opened prefix is closed again |
| Contexts.Rocs.CtxClose | patches/rocm_smi/rocs.c:542-567 | closes every event once and gives the devices back, which cannot fail; a failing close leaves the context as it was |
| Contexts.Rocs.CtxStart | patches/rocm_smi/rocs.c:569-601 | starts every event once; on a failure at event k the events before it have been stopped since if and only if all of them are event k |
| Contexts.Rocs.CtxStop | patches/rocm_smi/rocs.c:603-626 | stops every event once, only on a running context; a failing stop leaves it running |
| Contexts.Rocs.CtxRead | patches/rocm_smi/rocs.c:628-645 | succeeds if and only if the callback of every event does; the counters and the events hold the values read, in order; after a failing read, the last callback made, the rest keep theirs |
| Contexts.Rocs.CtxWrite | patches/rocm_smi/rocs.c:647-663 | succeeds if and only if the callback of every event does; every event gets its value and is accessed, in order, up to the first that fails |
| Contexts.Rocs.CtxReset | patches/rocm_smi/rocs.c:665-676 | all counters and all events of the context become zero, and no other event changes |
| Contexts.LastStoredStays | patches/rocm_smi/rocs.c:652-655 | of several values stored under one event number the last one stays, and events with other numbers keep theirs |
| Contexts.DeviceEventsHaveOneContext | patches/rocm_smi/rocs.c:1002-1012 | an event that is bound to a device is open in at most one context |
| Contexts.FailedStartLeavesEventsStarted | patches/rocm_smi/rocs.c:595-599 | from the calls of a start that failed at event k: the events before it were all stopped if and only if all of them are event k |
| Contexts.StartFailsHalfway | patches/rocm_smi/rocs.c:595-599 | two events of which the second does not start: the first is not stopped |
| PapiLayer.Component.InitThread | patches/rocm_smi/linux-rocm-smi.c:52-60 | a new thread is idle |
| PapiLayer.Component.StartEvents | patches/rocm_smi/linux-rocm-smi.c:197-230 | success if and only if the thread is idle, no device is taken, both allocations are granted and all events open and start; a conflict if and only if it is idle and a device is taken; no memory if and only if an allocation is then refused; a thread with an open event set is refused and nothing changes. In which of eight ways it ends and how many callbacks it makes; for each way, the calls made, the state of the thread, the context pointer, who holds which device; a context is freed twice if and only if the thread is idle, the pointer dangles and a device is in use |
| PapiLayer.Component.StopEvents | patches/rocm_smi/linux-rocm-smi.c:258-282 | success if and only if the thread is running and all events stop and close; else it is refused. A success frees the context and gives its devices back; once stopping succeeded the thread is idle and the pointer cleared, even if closing fails |
| PapiLayer.Component.ReadEvents | patches/rocm_smi/linux-rocm-smi.c:232-243 | succeeds if and only if the thread is running and the callback of every event succeeds; then the counters of the started event set's context and the events hold what was read, and a failure leaves the rest as they were |
| PapiLayer.Component.WriteEvents | patches/rocm_smi/linux-rocm-smi.c:245-256 | succeeds if and only if the thread is running and the callback of every event succeeds; every event up to the first that fails gets its value and is accessed |
| PapiLayer.Component.ResetEvents | patches/rocm_smi/linux-rocm-smi.c:325-336 | refused unless running; else zeroes the live context's counters |
| PapiLayer.Component.UpdateControlState | patches/rocm_smi/linux-rocm-smi.c:140-189 | refused while running, so that the array a context aliases is never replaced; else the event set has the new events and the old array is freed |
| PapiLayer.Component.CleanupEventset | patches/rocm_smi/linux-rocm-smi.c:284-298 | refused while the event set has a context; else frees the array |
| PapiLayer.Component.ShutdownThread | patches/rocm_smi/linux-rocm-smi.c:300-307 | the thread is idle, the invariant of all others holds |
| PapiLayer.Component.InitControlState | patches/rocm_smi/linux-rocm-smi.c:131-135 | a new event set has no events and no context |
| PapiLayer.RunningThreadIsSafe | patches/rocm_smi/linux-rocm-smi.c:232-282 | at every call boundary up to which nothing was freed twice, a running thread's event set has a context that is alive, open, running and holds its devices, and that shares an array nobody has freed |
| PapiLayer.RunningThreadsShareNoDevice | patches/rocm_smi/linux-rocm-smi.c:197-230 | two running threads never measure the same device |
| PapiProtocol.RunningStaysAlive | patches/rocm_smi/linux-rocm-smi.c:232-282 | at every point of a run of requests up to which nothing was freed twice, the context of every started event set is alive |
| PapiProtocol.StartSetAnswers | patches/rocm_smi/linux-rocm-smi.c:197-230 | in a run, a start succeeds if and only if the thread goes from running nothing to running that event set, which is so if and only if no device is taken and both allocations and all callbacks succeed; when it answers conflict, and when no memory |
| PapiProtocol.StopSetAnswers | patches/rocm_smi/linux-rocm-smi.c:258-282 | in a run, a stop succeeds if and only if the thread runs the event set and all its events stop and close; the thread is idle afterwards if they stop |
| PapiProtocol.StartSetLeaves | patches/rocm_smi/linux-rocm-smi.c:197-230 | what a start leaves of pointer, devices and double frees when it succeeds or is refused |
| PapiProtocol.FailedStartLeaves | patches/rocm_smi/linux-rocm-smi.c:197-230 | what a start leaves whose first failure is the i-th callback or allocation, for every i: whether the pointer is null, dangles or leads to an open context, which devices stay acquired, which of them are lost, and how many callbacks are made |
| PapiProtocol.StopSetLeaves | patches/rocm_smi/linux-rocm-smi.c:258-282 | what a stop leaves of pointer, devices and double frees, by whether all events stop and close |
| PapiProtocol.NothingFreedTwice | patches/rocm_smi/rocs.c:528-539 | in a run nothing was freed twice if and only if no idle thread started an event set with a freed context and a device in use |
| PapiProtocol.LostStaysLost | patches/rocm_smi/rocs.c:494-539 | over a run of requests lost devices only increase |
| PapiProtocol.RetriesAreRefusedForEver | patches/rocm_smi/linux-rocm-smi.c:204-211 | after an event set failed to open, starting the same events from an idle thread is refused ever after, if and only if one of them is bound to a device |
| PapiProtocol.StuckForEver | patches/rocm_smi/rocs.c:528-539 | an event set with a bound event that failed to open keeps a dangling pointer and a device in use for as long as its events are not replaced, whatever any thread does |
| PapiProtocol.StuckSetsAnswer | patches/rocm_smi/linux-rocm-smi.c:284-291 | such an event set cannot be cleaned up, and every start from an idle thread is refused and frees its context once more |
| PapiDevices.StepKeepsAccount | patches/rocm_smi/linux-rocm-smi.c:197-307 | every request keeps the devices of running event sets apart and acquired, and the acquired devices that no running event set uses grow by exactly what the request abandons |
| PapiDevices.AcquiredIsUsedOrAbandoned | patches/rocm_smi/linux-rocm-smi.c:197-307 | at every point of a run a device is acquired if and only if a running event set uses it or a step has abandoned it, never both |
| PapiDevices.NothingIsAbandoned | patches/rocm_smi/linux-rocm-smi.c:197-307 | the acquired devices are those of the running event sets if and only if no step has abandoned a device |
| PapiDevices.RefusedExactly | patches/rocm_smi/rocs.c:996-1019 | an idle thread's start is refused if and only if one of its devices is used by a running event set or was abandoned |
| PapiDevices.AbandonedForEver | patches/rocm_smi/linux-rocm-smi.c:274-307 | after an event set failed to open, was not closed after it failed to start or was stopped, or lost its thread while running, starting the same events from an idle thread is refused ever after, if and only if one of them is bound to a device |
| PapiRuns.DoStart | patches/rocm_smi/linux-rocm-smi.c:197-230 | a start on the heap is the start step of the protocol, for the thread, its event set and all others |
| PapiRuns.DoStop | patches/rocm_smi/linux-rocm-smi.c:258-282 | a stop on the heap is the stop step of the protocol |
| PapiRuns.Do | patches/rocm_smi/linux-rocm-smi.c:52-336 | every request is answered, with the errno the outcomes of the callbacks make it, and changes threads, event sets and contexts, as the protocol says |
| PapiRuns.Run | patches/rocm_smi/linux-rocm-smi.c:52-336 | any requests of any threads on a new component make a run of the protocol, whatever callbacks and allocations fail; the protocol fixes every answer |
| PapiRuns.RunningIsSafeAfterRuns | patches/rocm_smi/linux-rocm-smi.c:232-282 | at the end of any run without a start that frees twice, a running thread reaches a live, open and running context and an array that was not freed |
| PapiRuns.StuckEventSet | patches/rocm_smi/rocs.c:511-539 | a run on the code: an event set whose only event fails to open; the second start conflicts and frees the context again, and the event set cannot be cleaned up |
| PapiRuns.UnclosedEventSet | patches/rocm_smi/linux-rocm-smi.c:274-281 | a run on the code: an event set that starts and stops, but is not closed; it cannot be started again |
| EventTableSpec.CountExceedsSize | patches/rocm_smi/rocs.c:1490-1500 | whatever is marked, the count exceeds the slots filled by the number of reported PCIe transfer rates |
| EventTableSpec.PassesAgree | patches/rocm_smi/rocs.c:1451 | whatever is marked, the passes agree if and only if no reported PCIe link has transfer rates |
| EventTableSpec.OneRateDisagrees | patches/rocm_smi/rocs.c:1490-1500 | one link with one transfer rate makes the count one more than the slots filled |
| EventTableSpec.IdsAreIndices | patches/rocm_smi/rocs.c:1309-1322 | slot i carries event number i |
| EventTableSpec.OneSlotPerKey | patches/rocm_smi/rocs.c:1830-1879 | a getter and setter pair has exactly one slot, that of its first report |
| EventTableSpec.ReadWriteIffSetAfter | patches/rocm_smi/rocs.c:1837-1842 | a merged event is readable and writable if and only if a setter came after another report of its key |
| EventTableSpec.SetterFirstIsNotReadWrite | patches/rocm_smi/rocs.c:1847-1862 | a power-cap setter reported before its getter does not become readable and writable |
| EventTableSpec.MarkedKeysAreNotCounted | patches/rocm_smi/rocs.c:1526-1554 | a count that finds all keys marked misses one event for each key |
| EventTableSpec.RefillWritesBehind | patches/rocm_smi/rocs.c:1837-1859 | without transfer rates, a second build from the same reports writes behind its array if and only if a setter's slot is among the last of the first table, as many as there are keys |
| EventTableSpec.FanSpeedWritesBehind | patches/rocm_smi/rocs.c:1830-1845 | one device with a getter and a setter of the fan speed: the second array has three slots, and the setter's mark is the fourth |
| EventTableSpec.NamesLeadBack | patches/rocm_smi/rocs.c:444-471 | looking up the name of every event gives it back if and only if names are distinct |
| EventTableSpec.IndexOneMore | patches/rocm_smi/rocs.c:1321-1322 | inserting an event's name keeps the index complete, the last of several events with a name winning |
| EventTableSpec.KeysTellApart | patches/rocm_smi/rocs.c:1830-1879 | two reports are merged if and only if they are about the fan speed, the power cap or the performance level of the same device, and of the same subvariant for power caps |
| EventSlots.SlotsOfReport | patches/rocm_smi/rocs.c:1599-1882 | for each kind of report that is not merged away: how many slots it takes, and which variant and subvariant each of them has, in order; each has the report's function and device, its own number, and the name of these four. A clock with n > 0 levels takes n + 2 slots of its variant, with subvariants 0 to n + 1 |
| EventSlots.EverySlotWasTaken | patches/rocm_smi/rocs.c:1298-1399 | every slot but the first three was taken by a report that is not merged away, and by one only |
| EventSlots.ModeOfSlot | patches/rocm_smi/rocs.c:1599-1882 | a slot is readable and writable if a setter found it marked; else split reports are read-only, setters of clocks and links write-only, and others have their function's mode |
| EventSlots.FirstBuildSets | patches/rocm_smi/rocs.c:1830-1879 | in a first build, a setter finds a slot marked if and only if it is reported after the report that took the slot, for the same thing |
| EventSlots.DescribedByLast | patches/rocm_smi/rocs.c:1837-1842 | a slot that setters found marked has the description of the last of them |
| EventSlots.DescribedBySelf | patches/rocm_smi/rocs.c:1309-1322 | any other slot has the description of its own function |
| EventSlots.FirstThree | patches/rocm_smi/rocs.c:1268-1291 | the first three events are the device count, the library version and the driver version, of no device, read-only as long as no mark leads to them |
| EventTable.Memo.FirstSeen | patches/rocm_smi/rocs.c:1526-1554 | a key is new if and only if its entry is zero; only that entry changes |
| EventTable.Memo.Mark | patches/rocm_smi/rocs.c:1830-1879 | a key that has no mark is marked with the slot to come; a marked one keeps its mark |
| EventTable.NtvTable.HandleSpecialEventsCount | patches/rocm_smi/rocs.c:1459-1558 | adds what a split report counts, or says whether a merged one has been seen |
| EventTable.NtvTable.GetNtvEventsCount | patches/rocm_smi/rocs.c:1113-1210 | counts the slots of all reports whose keys were not marked before, and marks the keys |
| EventTable.NtvTable.HandleSpecialEvents | patches/rocm_smi/rocs.c:1599-1882 | from whatever marks, fills in exactly the slots of a split report, or merges a report into the slot marked for its key; says when that lies behind the array |
| EventTable.NtvTable.SplitFixed | patches/rocm_smi/rocs.c:1610-1696 | a report of a fixed number of variants fills one slot for each |
| EventTable.NtvTable.SplitBandwidthGet | patches/rocm_smi/rocs.c:1698-1742 | a bandwidth report fills two slots and two for each transfer rate, or none |
| EventTable.NtvTable.SplitClockGet | patches/rocm_smi/rocs.c:1765-1806 | a clock report fills two slots and one for each level, or none; all of its own variant, with increasing subvariants |
| EventTable.NtvTable.SplitSetter | patches/rocm_smi/rocs.c:1808-1828 | a setter of a clock or link fills one slot if there are levels or rates |
| EventTable.NtvTable.MergeSetter | patches/rocm_smi/rocs.c:1837-1842 | a merged setter changes description and mode of one slot, and finding by name still works; it writes behind the array if and only if the array does not have the slot |
| EventTable.NtvTable.FillReport | patches/rocm_smi/rocs.c:1298-1399 | from whatever marks, one report turns the table and the marks of the earlier reports into those of one more |
| EventTable.NtvTable.GetNtvEvents | patches/rocm_smi/rocs.c:1255-1457 | from whatever marks earlier builds have left, the array starts with the table of all reports, indexed by name; it succeeds if and only if that fills the array, and writes behind it if and only if some setter's mark lies there |
| EventTable.NtvTable.InitEventTable | patches/rocm_smi/rocs.c:947-979 | the first initialisation or any later one succeeds if and only if no link has rates, and then the array is exactly the table that the reports make from the marks left by earlier ones; the marks afterwards; when it writes behind the array |
| EventTable.FanSpeedTableTwice | patches/rocm_smi/rocs.c:947-979 | on the code: one device with a getter and a setter of the fan speed; the table is built, everything shut down and initialised again, and the second build writes behind its array |
| EventTable.NtvTable.EvtNameToCode | patches/rocm_smi/rocs.c:444-461 | gives the last event with a name; reports none if and only if there is none |
| EventTable.NtvTable.EvtCodeToName | patches/rocm_smi/rocs.c:463-471 | gives as much of the name of a code below the count as the caller has room for, refuses others |
| EventTable.NtvTable.EvtRoundTrip | patches/rocm_smi/rocs.c:444-471 | from a code to its name, when that is not cut, and back gives the code if and only if no later event shares the name |
| EventTable.NtvTable.EvtEnum | patches/rocm_smi/rocs.c:407-431 | the first code is zero, each next one is one more, and the end is the count |
| EventTable.NtvTable.EvtGetCount | patches/rocm_smi/linux-rocm-smi.c:78-92 | enumeration visits 0 to count-1 once each, in order, so the table size is added to the count |
| Sampler.SamplesAreEnabledReadings | plugins/scorep-coretemp-plugin/apapi.c:304-372 | sample k is the k-th enabled reading; there are as many as come before a failure and fit; the loop ends on a full buffer if and only if there are as many as fit and an enabled tick is left, and by being disabled if and only if all enabled ticks were recorded |
| Sampler.EnabledOneMore | plugins/scorep-coretemp-plugin/apapi.c:304-309 | the enabled ticks are those that are enabled, in order |
| Sampler.Event.ThreadReport | plugins/scorep-coretemp-plugin/apapi.c:284-389 | the buffer starts with the samples of the run, the sample count is theirs, and the loop ends for the reason the run gives |
| Sampler.Event.AppendRecord | plugins/scorep-coretemp-plugin/apapi.c:325-342 | a complete record is appended and counted; a failed read leaves the samples as they were |
| Sampler.Event.GetAllValues | plugins/scorep-coretemp-plugin/apapi.c:474-491 | for each sample gives its timestamp, and the counter's value: as it is if it is not negative, and else 2^64 above it |
| Sampler.Event.SampleAndCollect | plugins/scorep-coretemp-plugin/apapi.c:284-491 | sampling and then asking for counter c gives, for each k, the k-th enabled timestamp and that reading's value c, as it is or 2^64 above it if it is negative; how the loop ended |
| Registration.InvariantAfter | plugins/scorep-coretemp-plugin/apapi.c:391-457 | after every interleaving slots are one per thread, counters are handed out once, and threads are started on time |
| Registration.StartedAtMostOnce | plugins/scorep-coretemp-plugin/apapi.c:431-454 | a slot's sampling thread is started once, exactly when its count has reached the total and the last call has returned |
| Registration.IdTakenApart | plugins/scorep-coretemp-plugin/apapi.c:462-463 | a counter number decodes to its slot and place if and only if the place is below 256 |
| Registration.IdsAreDistinct | plugins/scorep-coretemp-plugin/apapi.c:421 | counter numbers are distinct if and only if no slot but the last has more than 256 counters |
| Registration.TwoThreadsCollide | plugins/scorep-coretemp-plugin/apapi.c:421 | a thread with 257 calls of `add_counter` and a second thread get one number twice |
| Registration.EventList.AddCounter | plugins/scorep-coretemp-plugin/apapi.c:398-429 | the locked section finds the thread's slot or makes one behind the others, counts one more there and changes no other slot, and gives the number of the place |
| ClockLevels.MaskComparesLikeLevels | patches/rocm_smi_lib/python_smi_tools/rocm_smi.py:1445-1450 | the mask is below 2^n if and only if every level is below n |
| ClockLevels.IndicesAreTheBits | patches/rocm_smi_lib/src/rocm_smi.cc:1824-1829 | the listed indices are the set bits below the number of levels, in increasing order |
| ClockLevels.ListingReadsBack | patches/rocm_smi_lib/src/rocm_smi.cc:1824-1829 | reading the written text gives the listed levels |
| ClockLevels.ListingIsListing | patches/rocm_smi_lib/src/rocm_smi.cc:1824-1829 | the written text has digits and one blank behind each number, no leading zeros, and nothing else |
| ClockLevels.ListedAndReadBack | patches/rocm_smi_lib/src/rocm_smi.cc:1815-1831 | what is written is a listing of the requested levels sorted without duplicates, and rebuilds the mask |
| ClockLevels.BitfieldToFreqString | patches/rocm_smi_lib/src/rocm_smi.cc:1815-1831 | the text of a mask, refused when the device claims too many levels |
| ClockLevels.SetClocks | patches/rocm_smi_lib/python_smi_tools/rocm_smi.py:1391-1459 | succeeds if and only if there are levels, all below 64, of a known clock, and every device takes them; devices are tried up to the first that is not in manual mode, reports no levels or lacks one; every tried device that accepts gets exactly the levels |
| PowerProfiles.FindsPowersOf2 | patches/rocm_smi_lib/src/rocm_smi.cc:450-452 | the bit trick holds if and only if the number is a power of two |
| PowerProfiles.Truncate | patches/rocm_smi_lib/src/rocm_smi.cc:276-282 | repeated cutting at the last star, blank or colon ends with the prefix before the first one |
| PowerProfiles.NamesReadBack | patches/rocm_smi_lib/python_smi_tools/rocm_smi.py:4031-4039 | the library reads a word as a mask if and only if the word is the name, with underscores for blanks, that the tool shows for that mask; all other words are invalid |
| PowerProfiles.AgreeOneMore | patches/rocm_smi_lib/src/rocm_smi.cc:1210-1227 | one more line keeps bits, numbers and lines in agreement |
| PowerProfiles.GetPowerProfiles | patches/rocm_smi_lib/src/rocm_smi.cc:1182-1231 | a mask's bit is set, and it has a number, if and only if some line's word, cut at its first separator, is its name; the number is that of the last such line; the current profile is that of the last known line with a star, if there is one |
| PowerProfiles.SetPowerProfile | patches/rocm_smi_lib/src/rocm_smi.cc:1677-1714 | refused as out of bounds if and only if no line's word, cut at its first separator, is the name of the mask; else the number of the last such line is written, if the driver accepts the manual level |
| PciIds.ScanOfDevices | patches/rocm_smi_lib/src/rocm_smi.cc:2084-2130 | once the vendor is found, the scan gives the first matching device before the next vendor |
| PciIds.EntryNames | patches/rocm_smi_lib/src/rocm_smi.cc:1955-1981 | after tabs and the hexadecimal digits of a number, what follows the blanks is the name of that number, and the line is about no other |
| PciIds.OtherEntries | patches/rocm_smi_lib/src/rocm_smi.cc:1955-1981 | a line about another number says nothing, whatever follows; a number beyond 64 bits, or the number asked for with nothing but blanks behind it, throws |
| PciIds.KindsOfLines | patches/rocm_smi_lib/src/rocm_smi.cc:2078-2130 | empty lines and comments are ignored; others are a vendor's, a device's or a subsystem's by the tabs in front |
| PciIds.ScanIsLookup | patches/rocm_smi_lib/src/rocm_smi.cc:2075-2150 | scanning lines is looking up in the tree they write down |
| PciIds.ScanFiles | patches/rocm_smi_lib/src/rocm_smi.cc:2075-2150 | scanning several files one after the other is looking up in the tree of all their lines |
| PciIds.ScanAnswersWhatLinesSay | patches/rocm_smi_lib/src/rocm_smi.cc:2075-2150 | the scan answers with the text after the blanks of the vendor's first line, or of the device's first line before the next vendor's; and with a number in lower-case hexadecimal digits when there is no such line |
| PciIds.VendorAndDevice | patches/rocm_smi_lib/src/rocm_smi.cc:2075-2150 | a file of a comment, the line `1002 AMD` and a device of it names both |
| PciIds.UnlistedDevice | patches/rocm_smi_lib/src/rocm_smi.cc:2122-2150 | scanning for a device its vendor does not list gives the vendor's number if and only if the vendor is the last, and else the device's own |
| PciIds.LastVendorsDevice | patches/rocm_smi_lib/src/rocm_smi.cc:2148-2150 | scanning a file with one vendor line: any device of that vendor is called by the vendor's number |
| PciIds.BackupNameReadsBack | patches/rocm_smi_lib/src/rocm_smi.cc:1983-2006 | the name made up from an id can be read back as the id |
| PciIds.CopyName | patches/rocm_smi_lib/src/rocm_smi.cc:2151-2159 | the buffer holds as much of the name as fits and a NUL; the size is insufficient if and only if the name was cut |
| PciIds.GetDevNameFromId | patches/rocm_smi_lib/src/rocm_smi.cc:2033-2160 | refused when a number it needs cannot be read; else the buffer holds as much as fits of the text after the blanks of the first line about the device among those of the vendor, or about the vendor, or the number that takes its place |
| PerfConfig.ParseFieldConfig | patches/rocm_smi_lib/src/rocm_smi_counters.cc:198-225 | a field's place fits in bytes, or is refused |
| PerfConfig.GetPerfAttrConfig | patches/rocm_smi_lib/src/rocm_smi_counters.cc:306-316 | the loop computes the word of all fields |
| PerfConfig.ConfigBits | patches/rocm_smi_lib/src/rocm_smi_counters.cc:312-314 | a bit of the word is set if and only if some field sets it |
| PerfConfig.ConfigIsOfASet | patches/rocm_smi_lib/src/rocm_smi_counters.cc:306-316 | neither order nor repetition of fields matters |
| PerfConfig.ReadsBack | patches/rocm_smi_lib/src/rocm_smi_counters.cc:306-316 | a field's place gives its value if and only if the value fits and no other field disturbs it |
| PerfConfig.WellPlacedReadBack | patches/rocm_smi_lib/src/rocm_smi_counters.cc:306-316 | fields that fit and do not overlap all read back |
| PerfConfig.WideValueSpills | patches/rocm_smi_lib/src/rocm_smi_counters.cc:313 | a value wider than its field changes what its neighbour reads back |
| PerfCounters.Readn | patches/rocm_smi_lib/src/rocm_smi_counters.cc:389-411 | gives the same bytes however they are chunked and however often reads are interrupted; fails with the first failure it meets |
| PerfCounters.WhenFailuresAreMet | patches/rocm_smi_lib/src/rocm_smi_counters.cc:394-407 | a failure is met if and only if the bytes delivered before the first failing read fall short of what is wanted and the stream has not ended before it |
| PerfCounters.BytesHaveWeights | patches/rocm_smi_lib/src/rocm_smi_counters.cc:413-425 | the byte at place k of a word has the weight 256^k |
| PerfCounters.EightBytes | patches/rocm_smi_lib/src/rocm_smi_counters.cc:413-425 | the word of eight bytes, written out |
| PerfCounters.Event.GetValue | patches/rocm_smi_lib/src/rocm_smi_counters.cc:413-434 | gives the difference to the last raw value modulo 2^64, and the two times; raw value and times are the words of bytes 0 to 7, 8 to 15 and 16 to 23; a failed or short read changes nothing |
| PerfCounters.Event.CounterRead | patches/rocm_smi_lib/src/rocm_smi.cc:4028-4043 | succeeds if and only if the first raw value can be had, and the second one too when the first difference is beyond the limit; returns the first difference in the one case, and what the second raw value is above the first in the other, with that record's times; books what it returns and what it discards |
| PerfCounters.Event.Poll | patches/rocm_smi_lib/src/rocm_smi.cc:4012-4043 | any number of reads returns values that add up as the books say |
| PerfCounters.BooksBalance | patches/rocm_smi_lib/src/rocm_smi_counters.cc:427-428 | returned and discarded differences add up to the last raw value modulo 2^64 |
| PerfCounters.ReturnedTellsTheCount | patches/rocm_smi_lib/src/rocm_smi.cc:4028-4034 | returned differences alone do so if and only if the discarded ones add up to whole turns |
| PerfCounters.ExactWhenSteady | patches/rocm_smi_lib/src/rocm_smi.cc:4030-4034 | callers see every count exactly once if and only if no read finds the counter lower, or higher by more than the limit |

## Left out

- Memory exhaustion in the hash table: allocation succeeds there. `create_table` looks at the wrong pointer for its first allocation (patches/rocm_smi/htable.h:198).
- Freeing memory: an object's end of life is a ghost flag. What reading or writing freed memory does is not modelled; freeing a context twice may free one other open context.
- PapiLayer.RunningThreadIsSafe: speaks of runs up to which nothing was freed twice; `NothingFreedTwice` says exactly when that is so.
- HTableOps.HtableInsert: requires fewer than 2^30 entries before another one is added, because the doubled capacity would be zero and the next `% capacity` divide by it; `InsertKeepsBound` shows that this is exact.
- HTable.HashTable.CheckNResize: requires the same, that the new capacity is neither zero nor beyond 32 bits.
- HTableOps.InsertAbsent: requires the same.
- HTableRuns.Execute: requires the same of an insertion, and `Run` of every insertion of a run.
- Hash table values are of any type and never null; the C code stores untyped pointers.
- Whether the component is initialised is checked before event sets are set up; here it is. `rocs_init`, `rocs_shutdown` and loading of symbols are not modelled.
- What hardware callbacks, access functions and event descriptions do: a callback succeeds or fails, and an event that is read successfully has some value.
- Locks: every function that takes the component's lock is one step.
- PapiLayer.Component.StopEvents: requires that a running thread stops the event set it started, as PAPI sees to; with another event set the code would follow a pointer that may be null or dangle.
- PapiLayer.Component.ReadEvents: requires the same.
- PapiLayer.Component.WriteEvents: requires the same.
- PapiLayer.Component.ResetEvents: requires the same.
- PapiRuns.Run: takes requests of any kind; those that PAPI does not pass on, such as a thread's use of another thread's event set, are answered without calling the component.
- Devices are numbered 0 to 31, the width of the mask.
- XGMI and peer-to-peer events of the event table, where the two passes use different bounds, and the energy events that are not compiled in.
- The nested iterators over functions, variants and subvariants are one sequence of reports; failures to open or close an iterator, which end or skip it, are not modelled.
- How names, descriptions, modes and callbacks are chosen for a function: names and modes are arbitrary functions, and reported functions are told apart only where the code does. Functions that are merged are taken to have names, as all of them have; modes that are not merged are never both readable and writable.
- EventTable.NtvTable.GetNtvEvents: a write behind the array is reported and not made; what it overwrites is not part of the model.
- EventTable.NtvTable.InitEventTable: the same; both memo arrays have the same keys marked, as every completed build leaves them.
- Indices outside the tables of the event table's passes (a device from 32 on, a power-cap subvariant outside 0 to 31, a clock the table does not have), which C leaves undefined.
- The description lookup, and the missing NUL behind a name that fills the caller's buffer.
- `shutdown_event_table`, which deletes the names from the hash table.
- Copies of the plugin under plugins/scorep-arocm-smi-plugin and plugins/scorep-arocm2-smi-plugin, which count one sample more for their debug output.
- In the plugin: sleeping and joining threads, parsing of environment variables, failures of PAPI when a slot's counters are set up, the 512 slots of the event list, the 32 bits of the sample count, and adding counters to a slot whose thread is sampling.
- Sampler.Event.ThreadReport: takes the readings of a run as a given sequence of ticks; the loop ends when sampling is disabled, which is when they run out.
- Registration.EventList.AddCounter: is only the locked section; what follows it is the second kind of step of `Registration.Step`.
- ClockLevels.SetClocks: models the branch for clocks other than PCIe, whose other branch takes the same steps with a link's transfer rates; levels are numbers that are not negative.
- The text of power-profile lines before extraction: a line is its number, its next word and the rest. Assertions that at most one profile is current are compiled out; the last one counts.
- Subsystem queries of the pci.ids scan, where the flag for a matching device is never reset, so that they do not follow the tree; signs in front of ids.
- Opening, starting and stopping perf events. A shift by 64 or more, which C leaves undefined, gives zero.
- PerfConfig.ParseFieldConfig: starts from the two numbers of a field's description; reading them out of the text is left out.
- PerfCounters.Readn: the descriptor gives a fixed stream of bytes and follows a finite script of chunks, interruptions and failures, after which reads give all they can.
- Everything else in the SMI library and its tools: reading and writing of sysfs files, logging, floating-point scaling of frequencies and energy, event notifications, and the benchmarks under runs.
