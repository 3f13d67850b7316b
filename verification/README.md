# zhac-net-core: protocols, tables and codecs, verified

A Dafny 4.11 model of the parts of the zhac-net-core firmware whose correctness rests
on an argument over whole runs or over every input: the task protocols around shared
tables, the bounded tables against their simple specifications, and the codecs.
`dafny verify dfyconfig.toml` checks everything.

Protocols are step systems. A state holds the shared variables, both ends of every lock
and a program counter per task; `Enabled` and `Apply` give the steps, and `Exec` is the
state after any list of steps, so a statement about `Exec` is a statement about every
interleaving. Fields named as history are read by no step. Beside each system, the code
of its critical sections is written as a class over the same arrays and fields, and each
method is proved to perform the steps of the system. In-place algorithms keep their
arrays and are proved equal to a function, about which the lemmas are.

| files | component |
|---|---|
| RmkBridge, RmkBridgeSafety, RmkBridgeReports, RmkBridgeCount, RmkBridgeCode, RmkTypemap | RainMaker registry, report queue and teardown; unit conversions |
| HapWaiters, HapWaitersSafety, HapWaitersCode, BulkCoalescer | request/response matching over the inter-chip link; attribute coalescing |
| WsServer, WsServerSafety, WsServerTheorems, WsServerCode, WsServerSender | WebSocket client table and serialised sender |
| RemoteClient, RemoteClientCode | cloud client task loop and state machine |
| Utf8, JsonWriter, JsonReader, Format | UTF-8 validation, the sanitising JSON writer, a reader for what it writes, number formatting |
| Improv, ImprovCode | Improv serial framing |
| PathNormalize, PathNormalizeCode | path normaliser of the static file server |
| AuthLockout | per-peer window of failed sign-ins |
| DgmStore, DgmByGid, DgmStoreCode | group-membership mirror and its by-group view |
| GroupsStore, GroupsApi | stored groups and the group list under a byte budget |
| DeviceList | paged device list |
| Common | options, bytes, sequences, pigeonhole |

What is assumed of code outside the repository is what its comments state: the
RainMaker work queue is FIFO with one consumer and may refuse an item; the sequence
counter skips 0 and eight draws in a row differ; a JSON library reports what it parsed.
Flash, sockets, clocks, random numbers and memory allocation are inputs of the steps, so
every outcome an input can name is covered; those that none names are under "Left out".

Where the repository's own words and its code differ, the model follows the code:

- `dgm_tbl_set` is documented to return whether the table changed and does not
  (SetAnswerIff gives the exact condition);
- the RainMaker device counter is documented as the number of committed entries: it
  falls below it when a reservation is unexposed (CountDrifts) and exceeds it when a
  lost reservation is taken again for the same address, whose re-check cannot tell the
  two apart (CountOverruns); CountStaysIff says when it stays right;
- the Improv receiver consumes the byte in the place of the version and of the checksum,
  so a header that begins there is not seen (SearchStateIff, ChecksumByteIsConsumed);
- `grp_save` reports success when the bitmap write is lost, and when the bitmap could not
  be read and every other group's bit goes with it (SaveEffect, SaveLosesGroup,
  SaveLosesOthers);
- a gathered attribute frame with a NUL in a payload is cut there (BatchWholeIff);
- commands are described as reaching dispatch in Ready and are dispatched in every state
  but Authenticating (DrainDispatches, DispatchedUnready); an auth reply is described as
  bound to its request, and it is, but the request may be one of an earlier connection,
  if the peer answers it over the present socket (EarlyReadyIff, ReadyWithoutOwnFrame,
  RepliesAreOfThisConnection);
- a disable is described as always winning and loses to an enable taken in the same pass
  (DisabledIff); enabling is described as respawning the task and is lost during the
  pass that ends it (EnableLostIff, LostEnable).

## Model

| member | source | states |
|---|---|---|
| RmkBridgeSafety.RunInv | components/rainmaker_gw/rmk_bridge.c:397-690 | Every interleaving of exposes, unexposes, attribute updates, recorded writes and the single FIFO consumer keeps the joint invariant of lock, registry, queue, task positions and object lifetimes. |
| RmkBridgeSafety.NoUseAfterFree | components/rainmaker_gw/rmk_bridge.c:609-661 | In every reachable state no item the consumer is running or will run, and no registry slot, refers to a deleted device. |
| RmkBridgeSafety.ReportsAheadOfTeardown | components/rainmaker_gw/rmk_bridge.c:649-660 | Nothing about a device is ever behind that device's teardown in the queue, so each report is ahead of it and there is one teardown at most. |
| RmkBridgeSafety.NoReportAfterUnlink | components/rainmaker_gw/rmk_bridge.c:596-607 | A step that enqueues a report enqueues one report, about a device no unexpose has unlinked: not being torn down, not queued for teardown, not deleted. |
| RmkBridgeSafety.InlineDeleteWasPrivate | components/rainmaker_gw/rmk_bridge.c:524-549 | When a losing expose deletes its device inline, that device is alive, has never been in the registry and nothing queued refers to it. |
| RmkBridgeSafety.DeletedStays | components/rainmaker_gw/rmk_bridge.c:582-587 | A deleted device stays deleted over every later step. |
| RmkBridgeReports.LastReportedIsLast | components/rainmaker_gw/rmk_bridge.c:894-900 | In every reachable state each registry parameter holds exactly the value and time of the last report enqueued or app write recorded for it, and none if there was none. |
| RmkBridgeReports.EchoSuppressed | components/rainmaker_gw/rmk_bridge.c:337-355 | When a parameter's last event is a recorded app write of a value, an unforced update with that value selects nothing to report. |
| RmkBridgeReports.EchoNeverReported | components/rainmaker_gw/rmk_bridge.c:775-908 | Over every run, whatever others do between the start of such an update and its scan, the update ends at the scan with nothing queued, logged or changed. |
| RmkBridgeReports.RateLimited | components/rainmaker_gw/rmk_bridge.c:794-806 | With times of its own events nondecreasing in lock order, no window of length T holds more than T / interval + 1 unforced reports of a non-boolean parameter. |
| RmkBridgeCount.CountStaysIff | components/rainmaker_gw/rmk_bridge.c:602-607 | From agreement, a step keeps the device counter equal to the number of committed devices exactly if it neither unexposes an uncommitted reservation nor commits over a committed device. |
| RmkBridgeCount.CountDrifts | components/rainmaker_gw/rmk_bridge.c:602-607 | A reachable state in which the counter is 0 while a device is committed. |
| RmkBridgeCount.CountOverruns | components/rainmaker_gw/rmk_bridge.c:524-554 | A reachable commit over a committed device, and the state after it: the counter is 2 and one device is committed. |
| RmkBridgeCode.Bridge.Reserve | components/rainmaker_gw/rmk_bridge.c:403-418 | The first critical section of expose performs the reservation step and returns the slot. |
| RmkBridgeCode.Bridge.ReleaseReservation | components/rainmaker_gw/rmk_bridge.c:433-443 | The failure path of device creation releases the slot only if it is still this reservation. |
| RmkBridgeCode.Bridge.Commit | components/rainmaker_gw/rmk_bridge.c:524-554 | The second critical section of expose performs the commit step; false means the built device must be discarded. |
| RmkBridgeCode.Bridge.Clear | components/rainmaker_gw/rmk_bridge.c:592-607 | The critical section of unexpose clears the slot and hands back the device to tear down. |
| RmkBridgeCode.Bridge.OnAttrUpdate | components/rainmaker_gw/rmk_bridge.c:775-908 | Scan, throttle, enqueue and bookkeeping under one lock perform exactly the scan and send steps. |
| RmkBridgeCode.Bridge.RecordWrite | components/rainmaker_gw/rmk_bridge.c:342-356 | The bookkeeping half of the write callback performs the record step, only for a slot that is still the same device. |
| RmkTypemap.DivDiv | components/rainmaker_gw/rmk_typemap.c:54-58 | For positive n and m with n / m >= m, dividing n by that quotient gives m back. |
| RmkTypemap.MiredRoundTrip | components/rainmaker_gw/rmk_typemap.c:54-58 | For every integer m, mired to kelvin to mired is m clamped to 153..370. |
| RmkTypemap.BrightnessAppRoundTrip | components/rainmaker_gw/rmk_typemap.c:52-53 | For every integer x, app brightness to device and back is x clamped to 0..100. |
| RmkTypemap.BrightnessDeviceRoundTrip | components/rainmaker_gw/rmk_typemap.c:52-53 | Device brightness to app and back is within one of the clamped value, and equal to it exactly when the app scale can express it. |
| RmkTypemap.BuildParams | components/rainmaker_gw/rmk_typemap.c:82-100 | The nested loops write the first `cap` entries of the plan: the mapped exposes, in order, each with its first map row. |
| RmkTypemap.ClassifiedHasPrimary | components/rainmaker_gw/rmk_typemap.c:13-38 | A device classified as anything but a light bulb or other has its primary parameter in its plan. |
| HapWaitersSafety.RunInv | main/hap_bridge.cpp:193-456 | Every interleaving of round trips, deliveries and time-outs keeps the joint invariant of mutex, slots, callers, receiver, buffers and permits. |
| HapWaitersSafety.PermitsConserved | main/hap_bridge.cpp:386-405 | Free permits plus the callers between take and give always total 8. |
| HapWaitersSafety.FreeSlotExists | main/hap_bridge.cpp:240-246 | A caller that holds a permit and is about to claim finds a free slot. |
| HapWaitersSafety.SearchSucceeds | main/hap_bridge.cpp:248-258 | Eight different nonzero candidates cannot all collide with the at most seven live slots. |
| HapWaitersSafety.ClaimNeverFails | main/hap_bridge.cpp:243-266 | In every run, a claim whose eight draws are different and nonzero succeeds: both failure exits are unreachable. |
| HapWaitersSafety.LiveSeqsDiffer | main/hap_bridge.cpp:224-233 | In every run, two live waiters hold different nonzero sequence numbers. |
| HapWaitersSafety.ReturnedTrueHolds | main/hap_bridge.cpp:309-321 | A call that returned true holds the capacity-bounded prefix of the last frame published to it, which acknowledges its own sequence number and has the type it expects. |
| HapWaitersSafety.DoneWasReceived | main/hap_bridge.cpp:298-335 | Every frame published to a call or waking one was received earlier in the run. |
| HapWaitersSafety.NoLateDelivery | main/hap_bridge.cpp:289-295 | No step changes the buffer or length of a call that has given its slot back. |
| HapWaitersSafety.WakeIsForThisClaim | main/hap_bridge.cpp:274-276 | A call that wakes was signalled by a frame acknowledging the number of this very claim, so a token from an earlier use wakes nobody. |
| HapWaitersCode.WaiterTable.Claim | main/hap_bridge.cpp:234-278 | The two searches over the slot array perform the claim step. |
| HapWaitersCode.WaiterTable.Deliver | main/hap_bridge.cpp:298-335 | The delivery performs the receive, search, copy, publish and give steps; true exactly when the nonzero number is held by a slot. |
| HapWaitersCode.WaiterTable.ReleaseSlot | main/hap_bridge.cpp:337-343 | The release performs the unlink and give-permit steps. |
| HapWaitersCode.AfterDeliverIs | main/hap_bridge.cpp:298-335 | One undisturbed delivery, as the composition of its steps, leaves exactly the state stated field by field. |
| BulkCoalescer.NothingLost | main/hap_bridge.cpp:637-672 | For every sequence of payloads and window timers, the emitted frames, flattened, plus the buffered tail are the nonempty payloads in order. |
| BulkCoalescer.FramesFit | main/hap_bridge.cpp:485-512 | Every gathered frame is a nonempty bracketed comma-join of nonempty payloads of at most 4096 bytes. |
| BulkCoalescer.BatchNeverDegraded | components/remote_client/include/remote_client.h:36-55 | No gathered frame of any run is degraded: its envelope carries it as far as its first NUL, where the copy stops. |
| BulkCoalescer.BatchWholeIff | components/remote_client/include/remote_client.h:42-44 | A gathered frame is carried whole exactly if none of its payloads holds a NUL. |
| BulkCoalescer.NulCutsTheFrame | components/remote_client/include/remote_client.h:42-44 | A run with one payload that holds a NUL, and its frame cut there. |
| BulkCoalescer.DirectDegradedIff | components/remote_client/include/remote_client.h:42-55 | An oversize payload is degraded exactly from 4195 bytes on, counted up to its first NUL, and some frame always goes out. |
| BulkCoalescer.Coalescer.Append | main/hap_bridge.cpp:492-503 | Append succeeds exactly when the payload is empty or fits, and then only adds it. |
| BulkCoalescer.Coalescer.Flush | main/hap_bridge.cpp:505-512 | Flush emits the waiting payloads as one frame and empties the buffer. |
| BulkCoalescer.Coalescer.OnBulk | main/hap_bridge.cpp:637-672 | The receive branch performs the received step, and the append after a flush never fails. |
| WsServerSafety.RunInv | components/ws_server/ws_server.cpp:487-602 | Every interleaving of broadcasters, repliers and table updates keeps the joint invariant of both mutexes, marker, snapshots, wire and event log. |
| WsServerTheorems.NoDeadlock | components/ws_server/ws_server.cpp:419-437 | Whenever a task is in a call, following the waits (s_mutex, then s_tx_mutex) leads to a task whose next step is enabled. |
| WsServerTheorems.CallsTerminate | components/ws_server/ws_server.cpp:487-602 | From every state of a run, a schedule in which calls only advance is no longer than the work they had left, and where it cannot be extended every task is idle. |
| WsServerTheorems.ReentryTakesNoLock | components/ws_server/ws_server.cpp:417-422 | A line logged inside a send finds the marker set by its own task and changes nothing. |
| WsServerTheorems.LockOrder | components/ws_server/ws_server.cpp:484-486 | The holder of s_mutex can always leave its critical section, and a task that asks for a mutex holds neither s_mutex nor the one it asks for. |
| WsServerTheorems.NeverInterleaved | components/ws_server/ws_server.cpp:439-450 | On every socket a payload directly follows the header of its own frame. |
| WsServerTheorems.BroadcastWritesAreChecked | components/ws_server/ws_server.cpp:451-459 | While a broadcast writes to a socket, header or payload, it holds s_tx_mutex and has since taking it found the client registered and signed in; every earlier failed send to that socket was followed by a new registration. |
| WsServerTheorems.BroadcastSendsAreChecked | components/ws_server/ws_server.cpp:461-468 | The same for every broadcast send in the history of a run. |
| WsServerTheorems.CheckMeansMayReceive | components/ws_server/ws_server.cpp:429-437 | The re-check passes, and the send goes ahead, exactly when the table then lets the client receive; otherwise the fd is skipped. |
| WsServerTheorems.BroadcastLinesBounded | components/ws_server/ws_server.cpp:569-578 | Over any run broadcasts fail at most one send per registration, and clients are taken out at most once per registration, so the lines these log, and the broadcasts those lines start, are bounded by the registrations. |
| WsServerTheorems.OneClosePerAdd | components/ws_server/ws_server.cpp:469-480 | In every run, for every fd: additions equal removals plus presence; closes requested plus closes still in hand equal the removals by failed sends; with every task idle, closes equal them. |
| WsServerTheorems.ClosesAreOwnRemovals | components/ws_server/ws_server.cpp:503-511 | In every run, a task's own removals of an fd are its closes and the ones it has in hand; out of a call its closes are for exactly its own removals. |
| WsServerTheorems.EachRemovalClosedOnce | components/ws_server/ws_server.cpp:469-480 | In every run, a removal by a failed send is not closed exactly while its sender has the close in hand, and is closed once, later, by that sender for that fd; a removal by remove_fd, the filter included, is closed by no sender. |
| WsServerTheorems.EvictionsGetClosed | components/ws_server/ws_server.cpp:503-511 | Where the calls of a run have advanced as far as they can, every removal by a failed send has been closed, each once. |
| WsServerTheorems.FilterRemoves | components/ws_server/ws_server.cpp:553-557 | A dead session met before a broadcast leaves the table, with its removal logged exactly if it was there, no other client touched and no close due. |
| WsServerTheorems.CloseIsForOwnRemoval | components/ws_server/ws_server.cpp:503-511 | The next close step of a task closes the removal at the head of its list, its own, of that fd and not closed before, and does nothing if that send removed nothing. |
| WsServerCode.ClientTable.AddFd | components/ws_server/ws_server.cpp:56-73 | add_fd as a table function: overwrite the sign-in state, append, or refuse when full. |
| WsServerCode.ClientTable.RemoveFdQuiet | components/ws_server/ws_server.cpp:117-131 | remove_fd_quiet moves the last entry into the gap; the result is the new size, or -1 when the fd was not there. |
| WsServerCode.ClientTable.FdMayReceive | components/ws_server/ws_server.cpp:429-437 | True exactly when the fd is registered and, with sign-in on, signed in. |
| WsServerCode.ClientTable.SetAuthed | components/ws_server/ws_server.cpp:151-157 | Signs in the given fd and touches no other entry. |
| WsServerCode.ClientTable.DeauthAll | components/ws_server/ws_server.cpp:160-164 | Signs out every entry and keeps the fds. |
| WsServerCode.ClientTable.TableSection | components/ws_server/ws_server.cpp:81-131 | In any state the other tasks leave, the table operations perform the step of the system. |
| WsServerCode.ClientTable.SnapSection | components/ws_server/ws_server.cpp:533-538 | In any such state the snapshot is the table at that moment. |
| WsServerCode.ClientTable.FilterSection | components/ws_server/ws_server.cpp:553-557 | In any such state the removal of a dead session performs its step. |
| WsServerCode.ClientTable.CheckSection | components/ws_server/ws_server.cpp:429-437 | In any such state the re-check performs its step, and the send follows exactly if it passes. |
| WsServerCode.ClientTable.EvictSection | components/ws_server/ws_server.cpp:487-502 | In any such state the eviction performs its step, and a close is due exactly if this call removed the fd. |
| WsServerCode.SweepEffect | components/ws_server/ws_server.cpp:487-511 | One undisturbed sweep: a send fails iff it was tried and did not succeed, a failed client leaves the table iff it was there, and every remaining client may receive as before. |
| WsServerCode.ClosesAreDropped | components/ws_server/ws_server.cpp:503-511 | The sessions closed after a sweep are exactly the fds this sweep removed. |
| WsServerSender.Server.SendLocked | components/ws_server/ws_server.cpp:487-511 | With any steps of other tasks between any two of its own, the code with its local err/left arrays performs a run of the system in which it requests exactly the closes it returns, and ends with every removal of its own closed once. |
| WsServerSender.Server.SendOne | components/ws_server/ws_server.cpp:493-500 | One turn of the loop among the other tasks: the re-check, the two parts of the frame and the eviction leave the failure list as the arrays say. |
| WsServerSender.Server.WaitTx | components/ws_server/ws_server.cpp:490 | Waiting for s_tx_mutex ends, because the others finish their calls, and changes nothing of the waiting task. |
| RemoteClient.AuthOkNeverSeen | components/remote_client/remote_client.cpp:438-455 | Whatever is posted and received, no pass looks at Authenticating with the AUTH_OK bit in hand. |
| RemoteClient.RunInv | components/remote_client/remote_client.cpp:402-584 | Every run of passes, posts and respawns keeps the multi-pass invariant of pending id, auth frames sent, replies consumed and posted bits. |
| RemoteClient.ReadyNeedsItsOwnAuthFrame | components/remote_client/remote_client.cpp:289-318 | Over every run, entries to Ready equal the granting replies consumed; each consumed the nonzero id of its own auth request, none twice, so entries never exceed auth ids drawn. |
| RemoteClient.RepliesAreOfThisConnection | components/remote_client/remote_client.cpp:289-318 | In every run, a pass that accepts a reply starts in Authenticating with a socket, and every frame it drains came over that socket. |
| RemoteClient.StepToReadyIsDead | components/remote_client/remote_client.cpp:501-503 | The step for AUTH_OK in Authenticating, the only other way into Ready, is never taken. |
| RemoteClient.CommandsBehindTheAck | components/remote_client/remote_client.cpp:299-308 | In one drain, frames before the granting reply dispatch nothing and every allowed command after it is dispatched, in order. |
| RemoteClient.DrainDispatches | components/remote_client/remote_client.cpp:280-343 | From every state, one drain dispatches in order exactly the allowed commands it listens to: in Authenticating those behind the granting reply, in every other state all. |
| RemoteClient.DispatchedUnready | components/remote_client/remote_client.cpp:324-341 | A run in which an allowed command received before a disable is dispatched in Disabled, before any auth frame was sent. |
| RemoteClient.EarlyReadyIff | components/remote_client/remote_client.cpp:449-461 | The first pass of a stay in Authenticating enters Ready before it sends its auth frame exactly if no bit takes it away, an id of an earlier stay is pending and the first reply to it among the frames drained grants. |
| RemoteClient.ReadyWithoutOwnFrame | components/remote_client/remote_client.cpp:449-461 | A run that becomes Ready on its second socket, over which a reply to the first one's auth frame comes in, with none sent on the second. |
| RemoteClient.DisabledIff | components/remote_client/remote_client.cpp:444-447 | A pass looks at Disabled exactly if no enable is among its bits and either a disable is or it was Disabled: an enable beats a disable taken with it, whichever was posted last. |
| RemoteClient.EnableLostIff | components/remote_client/remote_client.cpp:668-683 | An enable posted while a pass runs leaves its bit pending, with no task to take it, exactly if that pass ends the task. |
| RemoteClient.EnableStaysLost | components/remote_client/remote_client.cpp:628-636 | It stays pending and the client disabled over every run without another spawn, and the first pass after one takes it. |
| RemoteClient.LostEnable | components/remote_client/remote_client.cpp:463-471 | A run that loses an enable. |
| RemoteClient.PassWindow | components/remote_client/remote_client.cpp:494-517 | A pass that ends in Authenticating drew one auth id if it was the first to see it and none otherwise, and is inside the 5 s window. |
| RemoteClient.OneFrameOneWindow | components/remote_client/remote_client.cpp:494-517 | However long the client stays in Authenticating, it asks for authentication exactly once, and no pass finds it there 5 s or more after entry. |
| RemoteClientCode.RemoteTask.HandleRxFrame | components/remote_client/remote_client.cpp:280-343 | Handling one received frame performs the receive step. |
| RemoteClientCode.RemoteTask.OnData | components/remote_client/remote_client.cpp:202-239 | A received frame is queued, or dropped when four are waiting. |
| RemoteClientCode.RemoteTask.PostBit | components/remote_client/remote_client.cpp:668-683 | Posting a bit performs the post step. |
| RemoteClientCode.RemoteTask.SpawnTask | components/remote_client/remote_client.cpp:628-636 | Spawns exactly when no task is alive; a fresh task starts from Disabled. |
| RemoteClientCode.RemoteTask.DrainRx | components/remote_client/remote_client.cpp:449-455 | Draining the queue handles its frames in order. |
| RemoteClientCode.RemoteTask.Act | components/remote_client/remote_client.cpp:463-580 | The switch of the loop performs the action of the current state. |
| RemoteClientCode.RemoteTask.OnePass | components/remote_client/remote_client.cpp:416-583 | One turn of the loop performs one pass of the run. |
| RemoteClientCode.RemoteTask.SendAuthFrame | components/remote_client/remote_client.cpp:247-271 | Draws a positive 31-bit id, remembers it and records the frame. |
| Utf8.SeqLenSound | main/json_buf.h:17-39 | An accepted sequence is within the bound and is the encoding of a Unicode scalar value. |
| Utf8.SeqLenComplete | main/json_buf.h:17-39 | The encoding of every scalar value is accepted at its full length, whatever follows it. |
| Utf8.DecodeEncode | main/json_buf.h:9-16 | Encoding a scalar value and reading its bits back gives the value. |
| Utf8.EncodedIsWellFormed | main/json_buf.h:9-16 | Every sequence of encoded scalar values is a well-formed string. |
| Utf8.WellFormedIsEncoded | main/json_buf.h:9-16 | Every well-formed string is a sequence of encoded scalar values. |
| Utf8.SeqLenTrim | main/json_buf.h:13-14 | What lies at and beyond a NUL or the read bound makes no difference to the answer. |
| Utf8.Utf8SeqLen | main/json_buf.h:17-39 | The loop computes the sequence length and reads no byte past a NUL or the bound. |
| Utf8.FittingIsLongest | main/json_buf.h:41-49 | What the bounded copy keeps extends every well-formed prefix of the text that fits. |
| Utf8.FittingFits | main/json_buf.h:41-49 | What the bounded copy keeps is a well-formed prefix of the text that fits. |
| Utf8.Utf8SafeCopy | main/json_buf.h:50-62 | The destination holds the longest well-formed prefix that fits and its NUL, only the NUL for a null source; the rest is untouched. |
| JsonWriter.EscapeReadsBack | main/json_buf.h:112-164 | Reading the escaped text as a JSON string body gives the source with exactly each byte that starts no valid sequence replaced by U+FFFD. |
| JsonWriter.IdentityExactlyOnValid | main/json_buf.h:121-124 | Reading back gives the source itself exactly when the source is valid UTF-8. |
| JsonWriter.EscapeIsValid | main/json_buf.h:116-120 | The escaped text is well-formed UTF-8. |
| JsonWriter.SanitizedIsValid | main/json_buf.h:121-124 | The sanitised text is well-formed UTF-8. |
| JsonWriter.EscapeExpands | main/json_buf.h:128-161 | The escaped text is at least as long as the source and at most six times as long. |
| JsonWriter.StrReadsBack | main/json_buf.h:125-164 | A `str` that did not overflow appended a well-formed body that reads back as the sanitised text. |
| JsonWriter.StrFits | main/json_buf.h:125-164 | With room for six times the bound, `str` never overflows. |
| JsonWriter.AppendAppend | main/json_buf.h:172-176 | Appending in pieces is appending the whole, the latched prefix on overflow included. |
| JsonWriter.Writer.Put | main/json_buf.h:172-176 | One byte is written inside the capacity, or the writer latches; nothing at or past the capacity changes. |
| JsonWriter.Writer.RawN | main/json_buf.h:93-97 | Appends exactly the bytes given, byte by byte, up to the capacity. |
| JsonWriter.Writer.RawZ | main/json_buf.h:83-87 | Appends the text up to the NUL and reads nothing past it. |
| JsonWriter.Writer.Fmt | main/json_buf.h:101-110 | Appends the formatted bytes whole, or latches when there is no room for them and a terminator. |
| JsonWriter.Writer.Str | main/json_buf.h:125-164 | Appends the escape of the text at the source, reading nothing past a NUL or the bound. |
| JsonWriter.AskedAll | main/json_buf.h:101-110 | Once the last piece is written byte by byte, the room `fmt` wants for a terminator has made no difference. |
| Improv.StreamIsReceived | main/improv_proto.h:21-48 | From any search state, packets with header-free noise before each are reported in order, and nothing else is. |
| Improv.FramedIsReceived | main/improv_proto.h:94-112 | From any search state, one framed packet is reported whatever its data, and the receiver is searching again. |
| Improv.NoiseIsSkipped | main/improv_proto.h:32-37 | From every search state, header-free input is skipped without a report, and the search state is the longest part of the header that state and input end with. |
| Improv.SegmentsAreReceived | main/improv_proto.h:26-48 | For every input, cut into frames by the input alone: exactly what the frames say is reported, in order, and the buffer holds the frame begun behind the last of them, or the longest header part. |
| Improv.SinceLastFrame | main/improv_proto.h:30-48 | For every input: what precedes the rest of that cut is empty or ends a frame; in search, no header has come about in the rest, and the buffer is the longest header part it ends with. |
| Improv.SearchStateIff | main/improv_proto.h:30-48 | For every input in search, the buffer is the longest header part the whole input ends with exactly if no header part straddles the end of the last frame. |
| Improv.AfterFrameIff | main/improv_proto.h:39-46 | Right after a frame, good, corrupt or of another version, that is exactly if the input ends with no header part. |
| Improv.ChecksumByteIsConsumed | main/improv_proto.h:42-46 | For every packet whose last byte is the first header letter, checksum right or wrong, the buffer is empty though the input ends with that letter. |
| Improv.ChecksumByteExamples | main/improv_proto.h:42-46 | Two such inputs: kind 107 without data, which is a packet, and kind 106, which is corrupt. |
| Improv.FindsBack | main/improv_proto.h:30-48 | From every state, in a false header or a corrupt length as well, once the buffer and the header-free bytes that follow are 265 together, the next framed packet is reported. |
| Improv.NotSooner | main/improv_proto.h:38-43 | With 263 a packet can be lost. |
| Improv.ReportsOnlyPackets | main/improv_proto.h:38-47 | For every input, a packet is reported only when the input ends with exactly that packet. |
| Improv.BufferIsTail | main/improv_proto.h:26-41 | For every input, the buffer is the start of a packet and the end of the input. |
| Improv.VersionByteIsConsumed | main/improv_proto.h:39 | After one header with another version, the search state is the longest header part exactly if that byte does not start a header; SearchStateIff is the general form. |
| Improv.ResultReadsBack | main/improv_proto.h:54-61 | A result body reads back as its command and its strings. |
| Improv.ResultOverTheWire | main/improv_proto.h:80-112 | A framed result, fed from any search state, arrives as one packet with the command and the strings. |
| Improv.SettingsExactly | main/improv_proto.h:63-76 | Exactly the encodings of an ssid of 1..32 and a password of at most 64 bytes are accepted, as those strings. |
| ImprovCode.Parser.FeedByte | main/improv_proto.h:30-48 | The receiver performs the feed step, its index stays inside the buffer, and a completed packet is readable in place. |
| ImprovCode.FrameInto | main/improv_proto.h:97-112 | Writes the framed packet, of length 12 more than its data. |
| ImprovCode.ResultInto | main/improv_proto.h:80-92 | Writes the result body, or returns 0 exactly when the strings do not fit one packet. |
| ImprovCode.ParseInto | main/improv_proto.h:65-76 | Fills both arrays with their strings and terminators, or touches neither. |
| PathNormalize.RefusedIff | main/rest_ops.cpp:446-454 | An absolute path that fits is refused exactly when '..' meets the root or a name would be the seventeenth. |
| PathNormalize.NeverGrows | main/rest_ops.cpp:457-464 | The normal form of an absolute path is no longer than the path. |
| PathNormalize.Idempotent | main/rest_ops.cpp:431-468 | A normal form consists of names only, at most sixteen, and is its own normal form. |
| PathNormalize.SplitJoined | main/rest_ops.cpp:457-467 | Splitting a rejoined stack gives its segments back, so rejoining loses none. |
| PathNormalize.OpensBelowMountOnly | main/rest_ops.cpp:499-517 | Whatever is requested, the path opened is the mount point followed by one or more plain names. |
| PathNormalizeCode.CopySegments | main/rest_ops.cpp:457-464 | The copy loop writes the whole joined path or fails, exactly by its length; its guard drops no segment. |
| PathNormalizeCode.Cut | main/rest_ops.cpp:439-456 | Cutting the scratch copy and keeping segment starts computes the resolved stack. |
| PathNormalizeCode.NormalizeInPlace | main/rest_ops.cpp:431-468 | The in-place code succeeds exactly when there is a normal form, and leaves it in the buffer. |
| AuthLockout.LockedIffFiveRecentFailures | main/main.cpp:130-140 | A peer is locked exactly when it has a bucket and at least five of its failures since that bucket was allocated are less than 60 s old. |
| AuthLockout.ExactForEightPeers | main/main.cpp:107-140 | As long as at most eight peers have ever failed, the answer is that of the full history. |
| AuthLockout.NeverLockedWithoutFive | main/main.cpp:130-140 | Over every run, a locked peer has at least five failures in the last 60 s of the full history. |
| AuthLockout.EvictedByEightOthers | main/main.cpp:111-118 | A bucket in use is given away only after failures of eight other peers, each no earlier than the victim's last use. |
| AuthLockout.RunInv | main/main.cpp:120-128 | Over every run the ring of each bucket is the last five failures since its allocation, and bucket peers are distinct. |
| AuthLockout.Lockout.BucketGet | main/main.cpp:111-118 | Finds the peer's bucket or recycles the first least recently used one. |
| AuthLockout.Lockout.RecordFailure | main/main.cpp:120-128 | Performs the record step, or nothing when the mutex is not obtained. |
| AuthLockout.Lockout.IsLocked | main/main.cpp:130-140 | Answers from the ring, or no when the mutex is not obtained. |
| DgmStore.AddRefines | main/dgm_store.cpp:22-36 | Adding is adding to the map (deduplicated, 16 per device, 64 devices), and the answer is whether the map changed. |
| DgmStore.ForgetRefines | main/dgm_store.cpp:38-47 | Swap-with-last forgets exactly the device, and the answer is whether it was tracked. |
| DgmStore.RemoveRefines | main/dgm_store.cpp:49-60 | Removing is removing from the map, an emptied device included, and the answer is whether the map changed. |
| DgmStore.SetRefines | main/dgm_store.cpp:73-80 | Set leaves the device the first sixteen distinct ids given and no other device touched; with no room for a new device it only forgets. |
| DgmStore.SetAnswerIff | main/dgm_store.cpp:73-80 | The answer of set is wrong exactly when the tracked device already has the list it is given. |
| DgmStore.SetAnswerCounterexample | main/dgm_store.cpp:76-79 | An input on which set answers true and changes nothing. |
| DgmStore.ListRefines | main/dgm_store.cpp:62-71 | List returns the map's list, cut at max. |
| DgmByGid.CollectedIsFirstDistinct | main/dgm_store.cpp:131-145 | The ids collected are strictly ascending and are the first 128 distinct ones in scan order. |
| DgmByGid.ViewIsTranspose | main/dgm_store.cpp:146-163 | The by-group view is the map turned around, restricted to the first 128 distinct groups; with no more than that, all of it. |
| DgmByGid.MembersInOrder | main/dgm_store.cpp:149-162 | The devices under a group are those of its rows in table order, none twice. |
| DgmByGid.ListedHasMembers | main/dgm_store.cpp:149-162 | Every listed group has a member. |
| DgmByGid.ViewReadsBack | main/dgm_store.cpp:130-166 | Reading the whole document as JSON gives the listed groups, each with its devices, in order. |
| DgmStoreCode.Table.AddGid | main/dgm_store.cpp:22-36 | The in-place add equals the table function. |
| DgmStoreCode.Table.ForgetDev | main/dgm_store.cpp:38-47 | The in-place swap equals the table function. |
| DgmStoreCode.Table.RemoveGid | main/dgm_store.cpp:49-60 | The in-place shift and drop equal the table function. |
| DgmStoreCode.Table.SetGids | main/dgm_store.cpp:73-80 | Forget-then-add equals the table function. |
| DgmStoreCode.Table.ListGids | main/dgm_store.cpp:62-71 | The copy loop writes the list, cut at max. |
| DgmStoreCode.CollectGids | main/dgm_store.cpp:131-145 | The insertion sort into a local array collects the listed ids. |
| DgmStoreCode.AllJson | main/dgm_store.cpp:130-166 | Returns the whole by-group document exactly when it fits, 0 otherwise, writing inside the capacity. |
| DeviceList.CollectsAll | main/api_devices.cpp:199-271 | Against an unchanging peer whose cursor advances, whatever round trips fail, what is collected is every device exactly once, in order. |
| DeviceList.ReachesTheEnd | main/api_devices.cpp:259-270 | The cursor is the measure: with one page more than devices left, the last page is reached. |
| DeviceList.AllDevicesOrNothing | main/api_devices.cpp:162-282 | The fetch returns nothing or the document of all devices; with at most 200 devices and every page arriving, the document exactly when it fits with its terminator. |
| DeviceList.FetchAll | main/api_devices.cpp:162-282 | The page loop returns the collected document inside the buffer, or 0. |
| GroupsStore.GroupShort | main/groups_store.cpp:165-190 | Any record, even with a corrupt count or an unterminated name, serialises in at most 850 bytes. |
| GroupsStore.GrpToJson | main/groups_store.cpp:165-190 | Returns the whole object exactly when it fits, 0 otherwise, NUL-terminated where there is room. |
| GroupsStore.GroupReadsBack | main/groups_store.cpp:165-190 | For any record, reading the object as JSON gives the id, the sanitised name up to its NUL and the listed members, in order. |
| GroupsStore.GroupsAreTheLoadable | main/groups_store.cpp:82-103 | The list loaded is exactly the loadable groups in strictly ascending id order. |
| GroupsStore.SaveEffect | main/groups_store.cpp:105-120 | A saved record is loadable exactly when its bit was written now or before; any other group is loadable exactly when it was and the bitmap was read or not written. |
| GroupsStore.SaveLosesGroup | main/groups_store.cpp:105-120 | When the bitmap write of a new group is lost, the save answers true, the record is stored and the list is what it was. |
| GroupsStore.SaveLosesOthers | main/groups_store.cpp:59-63 | When the bitmap cannot be read, the save answers true and the saved group is the only one listed. |
| GroupsStore.DeleteEffect | main/groups_store.cpp:133-152 | A deleted group is not loadable whatever flash step fails after the erase; any other group is loadable exactly when it was and the bitmap was read or not written. |
| GroupsStore.Store.NextId | main/groups_store.cpp:71-80 | The lowest id without a bit, 0 when all are taken; 1 when the store cannot be opened or its bitmap not read. |
| GroupsStore.Store.Create | main/groups_store.cpp:122-131 | Saves under the next id, which had no bit unless the store could not be read and its first slot was in use; the other groups fare as in SaveEffect. |
| GroupsStore.Store.LoadAll | main/groups_store.cpp:82-103 | The bitmap scan loads the list, cut at max. |
| GroupsApi.AllListedIffRoom | main/api_groups.cpp:65-69 | Every group is listed exactly when the whole list fits. |
| GroupsApi.LeftOutOnlyForRoom | main/api_groups.cpp:79-84 | A group is left out exactly when, at its turn, a complete response with it would not have fitted. |
| GroupsApi.ChosenInOrder | main/api_groups.cpp:73-85 | The groups listed are a subsequence of the groups stored. |
| GroupsApi.ResponseFits | main/api_groups.cpp:81 | For every cap of at least 13 the response fits, whatever is stored. |
| GroupsApi.GroupList | main/api_groups.cpp:62-94 | The handler returns the complete response, or 0 exactly when the cap is below 13; the writer never overflows otherwise. |

## Left out

- RmkBridge: the rename handler and the SDK pointer use inside the write callback, which the code documents as accepted unlocked windows; only the callback's bookkeeping is modelled.
- RmkBridge: the lifecycle guard and the value-type filter in front of an attribute update; the model allows every update.
- RmkBridgeReports.RateLimited: takes nondecreasing times of the parameter's own events in lock order as a premise, because the code reads the clock before it takes the lock.
- HapWaitersSafety.ClaimNeverFails: takes eight different nonzero draws as a premise; the session's counter is not part of this repository.
- HapWaiters: the consecutive-time-out counter that forces a re-synchronisation.
- WsServer: a line logged outside both mutexes re-enters as a broadcast of the same task; the model runs it as a broadcast of another task, which takes the same locks; BroadcastLinesBounded says how many such lines there can be.
- WsServer: the reply hook of the cloud client, which takes no lock, and the handshake's token parsing.
- RemoteClient: the transmit queue, the status counters, the credential reload and the backoff delay; the pass keeps every state, bit, id and socket decision.
- RemoteClient: the fixed reply to a refused command.
- JsonWriter.Writer.Fmt: the formatted bytes are an input; conversions used by the callers are in Format.
- JsonWriter: escaped surrogate pairs are not decoded by the reference reader; the writer emits none.
- PathNormalizeCode.NormalizeInPlace: needs two bytes of memory behind the path even where the size given is one, because the code writes the root path as two; the one caller has 256.
- PathNormalize: reading and sending the file, its MIME type and the fallback page.
- AuthLockout.LockedIffFiveRecentFailures: takes a positive clock that neither wraps nor runs backwards in lock order as a premise; at time 0 and after 49.7 days the stamps mean something else.
- DgmStore: the flash blob behind the table; a stored entry whose count exceeds its array is not clamped by the loader and is not modelled.
- GroupsStore: the recursive mutex, which makes each operation one step, and the lookup of a single group; a stored record that is there and cannot be read when the list is loaded.
- DeviceList: the one-second cache in front of the fetch and the debounced option writes.
- DeviceList.AllDevicesOrNothing: a peer whose device list changes between pages, where the code documents that a device may be missed or doubled.
- REST and WebSocket handlers, Home Assistant glue, metrics, status documents, the captive DNS responder, allow-lists, password hashing and the small table code (rmk_store, remote_nvs, remote_backoff, log and alert rings).
