# XENHID function driver: a Dafny model

This project models the core of the XENHID function driver (`src/xenhid/fdo.c`) and proves properties of that model. XENHID is the Windows HID minidriver for Xen paravirtual keyboards and mice. The function device object (FDO) does four things:

- It keeps a cancel-safe FIFO queue of pending `IOCTL_HID_READ_REPORT` requests. The backend's report callback drains that queue.
- It moves between device power states D3 and D0. Going to D0 acquires five services in order: the XENBUS store, the XENBUS suspend interface, a late suspend callback, the XENHID HID interface, and HID enable. A goto ladder undoes them in reverse order when a step fails. Going back to D3 releases them all.
- While in D0 it publishes a "distribution" entry (`<vendor> XENHID <major>.<minor>.<micro>.<build> <attrs>`) in the store's `drivers` directory, and it removes matching entries when it powers down.
- It routes power, PnP and internal HID IOCTL requests. Device-power SET_POWER requests go through a single-slot mailbox to a worker thread.

The modules are:

- `Kernel` (`kernel.dfy`): NTSTATUS values, device power states, power actions, and an `Option` type.
- `Distribution` (`distribution.dfy`): the entry string logic over a model of the store.
  - Decimal keys, `__strtok_r` tokenising, sanitising, and the entry format.
  - The matcher and the multi-string splitter, which works in place on an array.
  - The set and clear operations. Each is a method with loops, proved against a specification function.
- `ReadQueue` (`read_queue.dfy`): the pending-read queue.
  - As a value: a list plus a map from request to outcome, with lemmas on FIFO order, cancellation and completion.
  - As a class `PendingReads`: the CSQ callbacks and `FdoHidCallback`, each proved against those functions.
- `Services` (`services.dfy`): a log of service calls, replayed over the set of held resources. It proves that every protocol-respecting log is undone by its rollback, so no failed step of the D3-to-D0 ladder leaks a resource.
- `Routing` (`routing.dfy`): the pure classification in `FdoDispatchPower`, `__FdoSetDevicePower`, `FdoDispatchPnp` and `FdoDispatchInternal`.
- `FunctionDriver` (`fdo.dfy`): `class Fdo`, with the fields of `struct _XENHID_FDO` that the logic updates and a ghost log of service calls.
  - The power transitions, the distribution wrappers, and the PnP and power handlers.
  - One turn of the power worker loop.
  - Internal IOCTL dispatch, and creation and teardown.

Calls into services the model cannot see are parameters (`Environment`, `CreateAnswers`): the store, suspend and HID interfaces, the lower driver, and pool allocation. A call that fails has no effect and shows only as its status. The ghost log records only effective calls.

## Model

| member | source | states |
|---|---|---|
| Distribution.Sanitize | src/xenhid/fdo.c:450-452 | the sanitised vendor name keeps its length and contains no space and no NUL |
| Distribution.Decimal | src/xenhid/fdo.c:412-414 | "%u" yields a non-empty string of decimal digits |
| Distribution.DecimalRoundTrip | src/xenhid/fdo.c:412-414 | reading the digits of "%u" back gives the index |
| Distribution.DecimalInjective | src/xenhid/fdo.c:404-435 | distinct indexes probe distinct keys |
| Distribution.WordLength | src/xenhid/fdo.c:346 | a token runs to the first space |
| Distribution.StrTokWords | src/xenhid/fdo.c:346-352 | successive strtok calls enumerate exactly the space-separated words of the value (against the reference `Words`) |
| Distribution.StrTokOfWord | src/xenhid/fdo.c:346-352 | a word followed by a space is returned as the next token, with the rest of the text after it |
| Distribution.VendorMatchesIsPrefix | src/xenhid/fdo.c:356-370 | the vendor loop accepts iff the sanitised vendor name is a prefix of the first token; trailing characters are not examined |
| Distribution.VendorMatchesFromSuffix | src/xenhid/fdo.c:358-370 | from index i the loop accepts iff every later position of the vendor name is matched |
| Distribution.MatchDistributionWords | src/xenhid/fdo.c:329-386 | the matcher is false on fewer than two words; otherwise true iff the first word starts with the sanitised vendor name and the second equals "XENHID" ignoring case |
| Distribution.FormatValueMatches | src/xenhid/fdo.c:346-386 | any value in the "%s %s ..." layout whose first word is the sanitised vendor name is accepted by the matcher |
| Distribution.PublishedValueMatches | src/xenhid/fdo.c:440-475 | round trip: the value set writes is accepted by the matcher |
| Distribution.ProbeSkipsReadable | src/xenhid/fdo.c:404-435 | the probe walks past every key that reads back |
| Distribution.SetWritesFirstFreeKey | src/xenhid/fdo.c:404-480 | set writes the formatted value under the smallest key in "0".."255" that reads "not found", returns success, and changes nothing else |
| Distribution.SetStopsAtReadError | src/xenhid/fdo.c:417-428 | any other read error before a free key is returned, with nothing written |
| Distribution.SetFailsWhenAllKeysExist | src/xenhid/fdo.c:437-438 | when all 256 keys exist set returns STATUS_UNSUCCESSFUL with nothing written |
| Distribution.ClearListed | src/xenhid/fdo.c:522-544 | the loop over the listing leaves the store as `Cleared`, one name at a time in listing order; a failing Remove has its status dropped and leaves the key |
| Distribution.ClearedExactly | src/xenhid/fdo.c:522-544 | clear removes exactly the listed keys whose value reads back and matches and whose Remove succeeds; every other entry and its value is unchanged |
| Distribution.DoubleNulFrom | src/xenhid/fdo.c:261-274 | the scan stops at the first NUL that is followed by a NUL |
| Distribution.NulIndex | src/xenhid/fdo.c:285 | strlen stops at a NUL or at the end of the text |
| Distribution.NulIndexFirst | src/xenhid/fdo.c:285 | no NUL comes before the offset strlen returns, so it is the first NUL |
| Distribution.SplitNulJoin | src/xenhid/fdo.c:282-297 | the pieces contain no NUL and join back, with NULs, to the listing |
| Distribution.SplitNulCount | src/xenhid/fdo.c:261-274 | the string count is the number of NULs before the terminator plus one |
| Distribution.NulIndexUpTo | src/xenhid/fdo.c:285 | strlen over the buffer equals strlen over the text up to a NUL |
| Distribution.EmptyListingHasOneEmptyName | src/xenhid/fdo.c:261-274 | the listing "\0\0" yields exactly one empty string |
| Distribution.UpcaseDecimal | src/xenhid/fdo.c:271 | upper-casing the listing leaves decimal keys unchanged |
| Distribution.UpcaseAndCount | src/xenhid/fdo.c:259-274 | the first loop upper-cases the buffer in place up to the double NUL, leaves the rest alone, and counts the strings |
| Distribution.TakePiece | src/xenhid/fdo.c:285-296 | one turn of the copy loop takes the first of the strings still to be copied, and the pointer stepped past its NUL starts the others |
| Distribution.PieceBeforeTerminator | src/xenhid/fdo.c:285-296 | a string ending before the terminator is followed by the strings between its NUL and the terminator |
| Distribution.LastPiece | src/xenhid/fdo.c:285-296 | a string running up to the terminator is the last one |
| Distribution.CopyStrings | src/xenhid/fdo.c:282-297 | the copy loop returns exactly the NUL-separated strings before the terminator |
| Distribution.MultiSzToUpcaseAnsi | src/xenhid/fdo.c:250-313 | upper-cases the listing in place and returns its strings, or nothing when an allocation fails |
| Distribution.SanitizeVendor | src/xenhid/fdo.c:450-452 | the in-place loop turns the vendor buffer into its sanitised form up to the NUL |
| Distribution.SetDistribution | src/xenhid/fdo.c:391-489 | the probing loop and write produce exactly the status and store of `SetResult` |
| Distribution.ClearDistribution | src/xenhid/fdo.c:492-550 | clear leaves the store unchanged when the directory read or an allocation fails, and otherwise equals `Cleared` over the listed names, failing Removes included |
| Distribution.FailedRemoveLeavesEntry | src/xenhid/fdo.c:535-539 | when the store fails to remove the published key, its status is dropped and the entry still reads back with its value after the clear |
| Distribution.SetThenClearRemoves | src/xenhid/fdo.c:391-550 | after set publishes under the first free key, a clear whose listing names that key removes it, provided the store removes it |
| ReadQueue.Empty | src/xenhid/fdo.c:1382 | an initialised list is empty and well formed |
| ReadQueue.IndexOf | src/xenhid/fdo.c:96-104 | the position found holds the request and no earlier one does |
| ReadQueue.UnlinkedKeepsOrder | src/xenhid/fdo.c:96-104 | unlinking removes exactly that request and keeps the others distinct and in their relative order |
| ReadQueue.DistinctIndex | src/xenhid/fdo.c:109-133 | in a duplicate-free list a request's position is its index |
| ReadQueue.PeekNextWalksList | src/xenhid/fdo.c:109-133 | peeking from NULL and following each answer visits the queued requests head first, then returns NULL |
| ReadQueue.Enqueued | src/xenhid/fdo.c:83-91 | insertion appends at the tail, marks the request queued, and keeps the queue well formed |
| ReadQueue.DeliveredOnEmpty | src/xenhid/fdo.c:190-191 | the callback on an empty queue returns FALSE and changes nothing |
| ReadQueue.DeliveredCompletesOldest | src/xenhid/fdo.c:182-207 | the callback completes the head, which was not already completed, with STATUS_SUCCESS, Information = length and the report, whatever its buffer size; it returns TRUE, keeps the rest in order, and keeps every other outcome |
| ReadQueue.CancelledUnlinks | src/xenhid/fdo.c:169-179 | a queued read that is cancelled is unlinked and completed with STATUS_DEVICE_NOT_READY and Information 0; the others keep their outcomes and order; cancelling a read that is not queued is a no-op |
| ReadQueue.Step | src/xenhid/fdo.c:83-207 | every queue event keeps the queue invariant: a request is linked iff queued, and never twice |
| ReadQueue.Run | src/xenhid/fdo.c:83-207 | any run of events keeps the queue invariant |
| ReadQueue.CompletionIsFinal | src/xenhid/fdo.c:169-207 | no request is completed twice: a completed outcome survives every later event unless the request is queued again |
| ReadQueue.EnqueuedAll | src/xenhid/fdo.c:83-91 | queuing several requests appends them in order |
| ReadQueue.DeliveredAll | src/xenhid/fdo.c:182-207 | repeated callbacks keep the queue invariant |
| ReadQueue.DeliveredAllInOrder | src/xenhid/fdo.c:182-207 | n callbacks complete the n oldest reads in order, the k-th report going to the k-th read, and leave the rest queued |
| ReadQueue.CompletionIsFinalAfterDeliveries | src/xenhid/fdo.c:182-207 | later callbacks never touch a completed read |
| ReadQueue.ReadsServedInArrivalOrder | src/xenhid/fdo.c:83-207 | FIFO: reads queued on an empty queue are completed in arrival order |
| ReadQueue.PendingReads.constructor | src/xenhid/fdo.c:1382 | a new queue is empty and well formed |
| ReadQueue.PendingReads.InsertIrp | src/xenhid/fdo.c:83-91 | the list is the old list with the request appended, as `Enqueued` |
| ReadQueue.PendingReads.PeekNextIrp | src/xenhid/fdo.c:109-133 | the answer is always a queued request: the head for NULL and the successor otherwise, in the order `PeekNextWalksList` proves |
| ReadQueue.PendingReads.RemoveIrp | src/xenhid/fdo.c:96-104 | the request's entry is unlinked and no outcome changes |
| ReadQueue.PendingReads.CompleteCanceledIrp | src/xenhid/fdo.c:169-179 | the request is completed with STATUS_DEVICE_NOT_READY, Information 0 |
| ReadQueue.PendingReads.RemoveNextIrp | src/xenhid/fdo.c:187 | takes the head, or nothing when the list is empty |
| ReadQueue.PendingReads.CancelIrp | src/xenhid/fdo.c:96-179 | the state afterwards is `Cancelled` of the state before |
| ReadQueue.PendingReads.HidCallback | src/xenhid/fdo.c:182-207 | the state and result afterwards are `Delivered` of the state before |
| ReadQueue.PendingReads.Reset | src/xenhid/fdo.c:1475-1477 | the list is dropped and the outcomes are left as they were |
| Services.Undo | src/xenhid/fdo.c:656-681 | every call is undone by the call on the same resource in the other direction |
| Services.Rollback | src/xenhid/fdo.c:656-681 | the rollback has the undoing calls, last call first |
| Services.ApplyKeepsClosed | src/xenhid/fdo.c:610-713 | a protocol-respecting call never leaves a callback registered without its session |
| Services.ReplayAppend | src/xenhid/fdo.c:610-713 | replaying a concatenation is replaying one log after the other |
| Services.UndoRestores | src/xenhid/fdo.c:656-681 | a call followed by its undoing call restores the held set |
| Services.RollbackUndoes | src/xenhid/fdo.c:656-681 | every log that keeps to the protocol is undone by its rollback without a protocol error, back to the original held set |
| Services.RollbackCons | src/xenhid/fdo.c:656-681 | the ladder undoes later steps before earlier ones |
| Services.StepsAcquire | src/xenhid/fdo.c:624-652 | the first k steps keep to the protocol and hold what they acquired; all five hold everything |
| Services.FailedLadderLeaksNothing | src/xenhid/fdo.c:656-681 | whichever step fails, the ladder's log ends holding nothing |
| Services.RollbackOfSteps | src/xenhid/fdo.c:684-713 | the release order is HID disable, HID release, deregister, suspend release, store release, and the ladder after step k runs the last k-1 of these |
| Services.PowerCycleLeaksNothing | src/xenhid/fdo.c:610-713 | a successful D3-to-D0 holds everything and D0-to-D3 releases everything in protocol order |
| Services.ReleaseOrderMatters | src/xenhid/fdo.c:600-604 | releasing the suspend session while the callback is registered breaks the protocol |
| Routing.RoutePowerToWorker | src/xenhid/fdo.c:1063-1116 | the worker receives exactly device-state SET_POWER requests below shutdown, which satisfy the worker's and `__FdoSetDevicePower`'s assertions |
| Routing.ShutdownActionsPassDown | src/xenhid/fdo.c:1080-1085 | shutdown and later actions are always passed down |
| Routing.SetPowerRouteOrdering | src/xenhid/fdo.c:970-1007 | pass-through iff the states are equal; power up iff the requested state is lower; swapping the states swaps up and down |
| Routing.SetPowerRouteBetweenD0AndD3 | src/xenhid/fdo.c:913-950 | between D0 and D3, power up goes D3 to D0 and power down goes D0 to D3, as the up and down handlers assert |
| Routing.RoutePnpClassifies | src/xenhid/fdo.c:860-900 | only start, stop and remove touch the device; the five accepted queries are marked successful; the rest pass down untouched |
| Routing.DispatchInternalOutcome | src/xenhid/fdo.c:1119-1260 | read-report requests are queued and left pending; others are completed with the HID call's status unless that status is pending; unknown codes give STATUS_NOT_SUPPORTED; Information is set only after a successful call that returns a count |
| Routing.PendingHidAnswerStrandsRequest | src/xenhid/fdo.c:1246-1259 | a HID call answering STATUS_PENDING leaves the request neither queued nor completed |
| FunctionDriver.FirstFailure | src/xenhid/fdo.c:624-652 | the index of the first failing step of the D3-to-D0 sequence: all earlier steps succeed and this one fails |
| FunctionDriver.D3ToD0Outcome | src/xenhid/fdo.c:610-682 | D3-to-D0 succeeds iff already enabled or all five steps succeed. On success it holds everything. On failure it returns the failing step's status after undoing exactly the earlier steps in reverse order, holding nothing. When already enabled it calls nothing |
| FunctionDriver.PowerUpHoldsAll | src/xenhid/fdo.c:624-652 | from a log holding nothing, the five steps end holding every service |
| FunctionDriver.PowerUpFailureReleasesAll | src/xenhid/fdo.c:656-681 | from a log holding nothing, a failed power-up ends holding nothing |
| FunctionDriver.PowerDownReleasesAll | src/xenhid/fdo.c:684-713 | from a log holding everything, the five releases of power-down end holding nothing |
| FunctionDriver.PowerCycleReleasesAll | src/xenhid/fdo.c:610-713 | a successful power-up followed by power-down leaves no service held |
| FunctionDriver.PowerCycleRemovesEntry | src/xenhid/fdo.c:562-608 | the entry published during power-up is present, and gone after power-down clears with a listing that names its key |
| FunctionDriver.SetDevicePowerKeepsProtocol | src/xenhid/fdo.c:903-1007 | handling a device power request between D0 and D3 keeps every service held exactly while enabled and enabled only in D0; the device reaches the requested state unless a power-up fails, which leaves it where it was and completes the request with the failure; only power-up completes the request here, all else is passed down with the lower status |
| FunctionDriver.Fdo.constructor | src/xenhid/fdo.c:1360-1370 | the extension starts zero-filled with an empty queue |
| FunctionDriver.Fdo.Acquire | src/xenhid/fdo.c:624-652 | an acquiring call is logged only when it succeeds |
| FunctionDriver.Fdo.Release | src/xenhid/fdo.c:656-713 | a releasing call is always logged |
| FunctionDriver.Fdo.SetDistribution | src/xenhid/fdo.c:563-591 | publishes the entry with its status ignored; on a failed registration clears matching entries and returns that status; otherwise the callback is registered and the result is success |
| FunctionDriver.Fdo.ClearDistribution | src/xenhid/fdo.c:594-608 | deregisters, forgets the callback, and clears matching entries |
| FunctionDriver.Fdo.OnSuspendCallback | src/xenhid/fdo.c:553-560 | after a resume the entry is published again and nothing else changes |
| FunctionDriver.Fdo.AcquireAll | src/xenhid/fdo.c:624-652 | runs the steps in order up to the first failure and logs exactly the steps that succeeded |
| FunctionDriver.Fdo.Unwind | src/xenhid/fdo.c:656-681 | the ladder entered after k successful steps logs the rollback of those k steps and clears the entry once the callback was registered |
| FunctionDriver.Fdo.D3ToD0 | src/xenhid/fdo.c:610-682 | status, log and store are those of `D3ToD0Status`, `D3ToD0Log` and `D3ToD0Store`; success leaves the device enabled in D0 with the callback registered; failure leaves it disabled in D3 |
| FunctionDriver.Fdo.D0ToD3 | src/xenhid/fdo.c:684-713 | always ends in D3 and disabled; when enabled it logs the full rollback and clears the entry; otherwise it changes nothing else, so a second call is a no-op |
| FunctionDriver.Fdo.StartDevice | src/xenhid/fdo.c:787-817 | a failed forward is returned and nothing changes; otherwise D3-to-D0 runs with its log and store, and its failure, or else the lower status, is returned; success leaves the device enabled in D0 and failure disabled in D3 |
| FunctionDriver.Fdo.StopDevice | src/xenhid/fdo.c:820-835 | powers down: ends disabled in D3, with the release log and the entry cleared when it was enabled; returns the lower driver's status |
| FunctionDriver.Fdo.RemoveDevice | src/xenhid/fdo.c:838-857 | powers down (release log, entry cleared when enabled), passes the request on and tears down, holding no service |
| FunctionDriver.Fdo.DispatchPnp | src/xenhid/fdo.c:860-900 | start gives StartDevice's status, log, store and state; stop and remove give the lower status with the power-down log and store; every other request is passed down and nothing changes |
| FunctionDriver.Fdo.SetDevicePowerUp | src/xenhid/fdo.c:903-937 | a failed forward completes the request with that status and nothing changes; otherwise D3-to-D0 runs and its status, log and store are the result; success holds iff the device is now in D0 |
| FunctionDriver.Fdo.SetDevicePowerDown | src/xenhid/fdo.c:940-967 | runs D0-to-D3 only from D0, with its log and its clearing of the entry, then passes the request down |
| FunctionDriver.Fdo.SetDevicePower | src/xenhid/fdo.c:970-1007 | the outcome, log, store, power state and Enabled flag are those of `SetDevicePowerEffect`: pass-through on an equal state, power-up from D3, power-down from D0 |
| FunctionDriver.Fdo.DevicePowerStep | src/xenhid/fdo.c:1010-1060 | blocks on an empty slot with no signal, exits when alerted, loops (Idle) when woken with an empty slot, all without touching the device; otherwise empties the slot and handles the request it held with the effect `SetDevicePowerEffect` gives |
| FunctionDriver.Fdo.DispatchPower | src/xenhid/fdo.c:1063-1116 | a device-state SET_POWER below shutdown fills the empty slot, signals the worker and returns STATUS_PENDING; every other request is passed down and nothing changes |
| FunctionDriver.Fdo.DispatchInternal | src/xenhid/fdo.c:1119-1260 | the result is `Routing.DispatchInternal`, and a read-report request is appended to the pending reads |
| FunctionDriver.Fdo.HidCallback | src/xenhid/fdo.c:182-207 | the pending reads change as `ReadQueue.Delivered` |
| FunctionDriver.Fdo.CancelRead | src/xenhid/fdo.c:169-179 | the pending reads change as `ReadQueue.Cancelled` |
| FunctionDriver.Fdo.CreateSteps | src/xenhid/fdo.c:1368-1411 | the set-up steps run in order up to the first failure, each setting up its part |
| FunctionDriver.Fdo.CreateUnwind | src/xenhid/fdo.c:1416-1449 | the ladder zeroes every part that was set up but leaves the power state alone |
| FunctionDriver.Fdo.CreateAsWritten | src/xenhid/fdo.c:1360-1453 | success leaves a valid device in D3 with everything set up; failure leaves DevicePowerState at D3, so the extension is not all zero |
| FunctionDriver.Fdo.Create | src/xenhid/fdo.c:1360-1453 | success as above; failure leaves the extension all zero |
| FunctionDriver.Fdo.Destroy | src/xenhid/fdo.c:1456-1484 | the extension ends all zero and the worker is alerted; reads still queued are dropped without completion, so their outcomes stay "queued" |

## Left out

- I/O forwarding (`IoCallDriver`, `FdoDispatchDefault`, `FdoForwardIrpSynchronously` with its completion routine and event wait) and `FdoQueryInterface`: their outcomes depend on the lower driver, so they are parameters.
- `FdoDispatch`, the top-level switch on the major function, is not modelled separately. Its three branches are the dispatchers above.
- Spin locks, IRQL, memory barriers and event waits are not modelled. Each queue operation and each mailbox hand-off is one atomic step.
- The worker thread is one step of its loop (`DevicePowerStep`). `ThreadAlert` followed by `ThreadJoin` is modelled as setting the alert and forgetting the thread. The thread primitives are only declared in `src/xenhid/thread.h`.
- `IoCsqInsertIrp`, `IoCsqRemoveNextIrp` and the cancel path are library code. They are modelled as peek-and-unlink and as an atomic unlink-and-complete.
- The HID getters and setters in `FdoDispatchInternal` are one status and one count per request. `XENHID_HID(ReadReport)` has no modelled effect.
- Pool allocation and freeing, `__FdoFreeAnsi`, and the store's `Free` are not modelled. Allocation failure in the splitter is a single boolean, and any failed allocation makes the splitter return nothing.
- Report bytes are a `seq<byte>`. The request's buffer is a capacity that the model records but never checks, as in the source.
- `VENDOR_NAME_STR`, the version macros and `DBG` come from headers that are not part of this model. They are the `Identity` parameter.
- NTSTATUS values are reduced to the ones the driver names plus `Failure(code)`, which is never NT_SUCCESS. Other success and informational codes a service or the lower driver could return are not modelled; the source would treat them as successes.
- Store values are modelled without their NUL terminator. The store's `Directory` listing is a parameter, not computed from the map.
- Requirements taken from the source's assertions:
  - `FdoD3ToD0` requires D3.
  - `FdoDispatchPower` requires an empty slot.
  - `__FdoSetDevicePower` requires an action below shutdown.
  - `__FdoSetDevicePowerUp` and `__FdoSetDevicePowerDown` require a target of D0 or D3 respectively. The model requires every device power target to be D0 or D3.
  - `FdoDestroy`'s final assertion requires the device to be disabled with no suspend callback.
- `ASSERT(NT_SUCCESS(status))` after `FdoD3ToD0` in `__FdoSetDevicePowerUp` is not a requirement. The failing status completes the request, as in a free build.
- Teardown does not drain queued reads: `FdoDestroy` zeroes the list without completing them, so `FunctionDriver.Fdo.Destroy` leaves them queued in their outcomes and linked nowhere. Completing them with "device not ready" is not part of the model.
- Routing lemmas such as `Routing.RoutePowerToWorker` need no proof beyond the definitions. They state the classification in the form the other modules use.

## Findings

| source | as written | input that shows it | evidently intended | confidence | as-written member | corrected member |
|---|---|---|---|---|---|---|
| src/xenhid/fdo.c:1372 | `FdoCreate` sets `DevicePowerState` to `PowerDeviceD3` before its first fallible step, and no label of the failure ladder resets it. The final `ASSERT(IsZeroMemory(Fdo, sizeof (XENHID_FDO)))` then fails on every failure path | `ThreadCreate` failing (any failing status in `CreateAnswers.thread`) | reset `DevicePowerState` to zero on failure, as `FdoDestroy` does (src/xenhid/fdo.c:1473), so the extension is all zero | not executed; high (follows from the source text) | FunctionDriver.Fdo.CreateAsWritten | FunctionDriver.Fdo.Create |
