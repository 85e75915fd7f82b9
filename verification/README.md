# Verified models of the WiFi library and its toolbox

This project models the algorithmic parts of an ESP32 WiFi library in Dafny and proves what they promise: the
static hash map, the timer engine, the event dispatcher, the TCP and UDP byte streams, the soft access point's
DHCP lease, futures, the executor and the shared pointer. `dafny verify dfyconfig.toml` checks everything.

How the parts are modelled and what is proved of them:

* **Static hash map** (`HashTable`, `StaticHashMap`). The ring of buckets and the dense entry array are fields
  of a class; every probe, the backward shift and the renumbering are the loops of the source. The result is
  that any run of operations answers like, and leaves the contents of, a plain map with a size limit, for any
  hash function, with wrap-around and on a completely full table.
* **Timer engine** (`TimerAsm`, `TimerHeap`, `TimerTypes`, `TimerState`, `TimerStorage`, `TimerManager`,
  `TimerProcessor`, `Timer`). The code sees 32-bit stamps; beside them ghost data keep the true, unbounded
  times. A callback is an arbitrary finite list of manager operations, so it may re-enter the manager at will.
  The invariant says that each pool node is in exactly one of the free list, the heap, the paused list and the
  pending part of the execution queue, that the active list is a heap in true deadlines while all of them stay
  within 2^30 ms of the clock (`faithful`), that every timer has its own delay still before it (whatever the others
  do), and that the counters count.
* **Event dispatcher** (`EventModel`, `EventStorage`, `EventDispatcher`). A run is a log: every dispatch carries
  its calls, and every call what the callback did. The reference is a list from which removal is immediate; the
  dispatcher, which only marks entries during a dispatch, produces exactly the logs the reference allows.
* **Byte streams** (`RxBuffer`, `TxStream`, `Udp`). The kernel is an object that may accept or deliver any
  part of what it is offered, or fail. Nothing is lost, repeated or reordered.
* **Lease arithmetic** (`Words`, `SoftApLease`). A word is its 32 bits, so masks and shifts are exact, and a
  number where the code compares and adds. For a contiguous netmask the code accepts exactly the safe requests.
* **Futures** (`Futures`). A future is a machine that remembers its first settled result. The laws of `and_then`
  are stated over everything a caller sees: results and callback invocations, on every sequence of polls.
* **Shared pointer** (`SharedPtr`). Every access to a shared count is a step of its own, and the steps of
  different threads interleave freely; the main results hold in every reachable configuration.
* **Executor** (`Executors`). The pointer arrays with swap-and-pop, against a map from slots to jobs.

`Counting` and `Prelude` hold what several parts share.

Where the code and its comments disagree the code is followed: the pop loop of `process` compares with the
shrinking heap, so one tick takes at most half (rounded up) of the active timers; `pause` during a timer's own
callback parks it even if it should have stopped; the expiry test is the sign-bit test of the target, not the
`>=` of the comment and of the fallback, so a delay above 2^31 ms, which `days` allows up to some 49 days, is
taken for expired at once; the lease has eleven addresses where its comment says ten.

## Model

| member | source | states |
|---|---|---|
| HashTable.MaskWraps | src/Optimization/HashMapBase.cpp:16 | on a power-of-two size the 16-bit mask steps to the next slot with wrap-around, and keeps a hash in range |
| Words.MaskIsRemainder | include/Optimization/StaticHashMap/StaticHashMapDecl.h:66 | masking a word of any width with 2^k - 1 is its remainder by 2^k, so a key's home slot is its hash modulo the size |
| HashTable.ProbeIsComplete | src/Optimization/HashMapBase.cpp:6-20 | an entry not met before an empty bucket, or on a whole turn, cannot have the probed home slot |
| HashTable.ShiftTestIsDistance | src/Optimization/HashMapBase.cpp:53-54 | the comparison of raw slot numbers holds exactly when the hole is nearer to the entry's home than its bucket, on the ring |
| HashTable.MoveHole | src/Optimization/HashMapBase.cpp:53-59 | a shift keeps buckets and dense indices in bijection, and every entry reachable but for the new hole |
| HashTable.CloseHole | src/Optimization/HashMapBase.cpp:48-61 | when the loop meets an empty bucket, or has turned all the way round, no probe path crosses the hole |
| HashTable.ShiftLowersDrift | src/Optimization/HashMapBase.cpp:56-58 | each shift lowers the total distance of the entries from home, so the loop ends |
| HashTable.Renumber | src/Optimization/HashMapBase.cpp:66-78 | giving the last dense entry the erased number keeps the bijection and the reachability |
| HashTable.FullRing | src/Optimization/HashMapBase.cpp:22-40 | no bucket is empty exactly when the table is full |
| StaticHashMap.ToMapSwapRemove | include/Optimization/StaticHashMap/StaticHashMapModifiers.h:58-64 | moving the last entry into the erased place removes exactly the erased key |
| StaticHashMap.StaticHashMap.constructor | include/Optimization/StaticHashMap/StaticHashMapModifiers.h:9-13 | a new table is the empty map |
| StaticHashMap.StaticHashMap.FindIndex | src/Optimization/HashMapBase.cpp:6-20 | the bucket of the key, or none exactly when the key is absent |
| StaticHashMap.StaticHashMap.FindSlot | src/Optimization/HashMapBase.cpp:22-40 | the key's bucket, else the first empty bucket of its probe path, else none on a full table |
| StaticHashMap.StaticHashMap.Find | include/Optimization/StaticHashMap/StaticHashMapAccess.h:21-31 | the value the map holds for the key |
| StaticHashMap.StaticHashMap.Contains | include/Optimization/StaticHashMap/StaticHashMapAccess.h:33-36 | membership in the map |
| StaticHashMap.StaticHashMap.Insert | include/Optimization/StaticHashMap/StaticHashMapModifiers.h:16-31 | fails exactly when the table is full and the key absent; otherwise updates the map at the key |
| StaticHashMap.StaticHashMap.Subscript | include/Optimization/StaticHashMap/StaticHashMapAccess.h:38-48 | on a table that is not full, or a key that is present, finds or adds the key |
| StaticHashMap.StaticHashMap.RemoveBucketAndRehash | src/Optimization/HashMapBase.cpp:42-64 | terminates and restores the probe invariant for every entry but the erased one |
| StaticHashMap.StaticHashMap.UpdateLastElementBucket | src/Optimization/HashMapBase.cpp:66-78 | exactly the bucket of the last entry changes its number |
| StaticHashMap.StaticHashMap.Erase | include/Optimization/StaticHashMap/StaticHashMapModifiers.h:50-66 | succeeds exactly on a present key and removes just that key |
| StaticHashMap.StaticHashMap.Clear | include/Optimization/StaticHashMap/StaticHashMapModifiers.h:68-72 | leaves the empty map |
| StaticHashMap.StaticHashMap.Run | include/Optimization/StaticHashMap/StaticHashMapModifiers.h:16-72 | any run of operations gives the replies and leaves the contents of a plain map with a size limit |
| TimerAsm.DriftIsTrue | include/Timer/Optimization/TimerAsm.h:31-53 | less than 2^31 ms apart, the signed difference, the heap order and the expiry test agree with unbounded time |
| TimerAsm.ExpiryIsPeriodic | include/Timer/Optimization/TimerAsm.h:36-47 | outside that window the expiry test is the true one shifted by whole wraps |
| TimerAsm.ExpiryIsEarly | include/Timer/Optimization/TimerAsm.h:36-47 | a deadline less than 2^32 ms away and still to come is taken for expired if and only if it is more than 2^31 ms away |
| TimerHeap.TopIsLeast | include/Timer/TimerProcessor.h:38 | the first element of a heap is a least one |
| TimerHeap.PushHeap | include/Optimization/SortStrategy.h:66-72 | pushes one element: a heap again, with one element more |
| TimerHeap.PopHeap | include/Timer/TimerProcessor.h:41-46 | moves the top to the end: the rest is a heap, the elements are the same |
| TimerHeap.MakeHeap | include/Timer/TimerStorage.h:84-87 | makes any order a heap of the same elements |
| TimerTypes.IssuedIdsAreValid | include/Timer/TimerStorage.h:35-40 | no id ever issued is 0, the value for failure |
| TimerTypes.SameGeneration | include/Timer/TimerStorage.h:36-37 | two allocations share a generation exactly when they are a multiple of 65535 apart |
| TimerTypes.StaleIdIsUnlike | include/Timer/TimerStorage.h:36-39 | ids of different allocations less than 65535 apart differ |
| TimerState.StaleIdMisses | include/Timer/TimerStorage.h:62-69 | an id used within 65534 later allocations never resolves to a newer timer |
| TimerState.ResolveIsComplete | include/Timer/TimerStorage.h:62-69 | the id of a live timer resolves to its node |
| TimerState.WhereIs | include/Timer/TimerTypes.h:48-53 | in every reachable state a node's state tells the one list it is in |
| TimerState.NeverFull | include/Timer/TimerStorage.h:50-54 | a node outside all lists always finds room on the heap: the "active full" branch is never taken |
| TimerState.PlacedInv | include/Timer/TimerStorage.h:50-60 | a node put into the list of its state keeps the invariant |
| TimerStorage.TimerStorage.AllocateNode | include/Timer/TimerStorage.h:30-41 | fails exactly when no node is free; otherwise takes the last free node under a new id |
| TimerStorage.TimerStorage.FreeNode | include/Timer/TimerStorage.h:43-48 | the node is cleared and free again |
| TimerStorage.TimerStorage.AddActiveNode | include/Timer/TimerStorage.h:50-60 | the heap gains exactly this node |
| TimerStorage.TimerStorage.RemoveActiveNode | include/Timer/TimerStorage.h:80-92 | the heap loses exactly this node and is a heap again |
| TimerStorage.TimerStorage.RemovePausedNode | include/Timer/TimerStorage.h:94-102 | the paused list loses exactly this node |
| TimerStorage.TimerStorage.Lookup | include/Timer/TimerStorage.h:62-69 | resolves an id to the live node that carries it |
| TimerManager.RemainingIsTrue | include/Timer/TimerManager.h:122 | within the window the remaining time is the true time left, and 0 once due |
| TimerManager.RemainingIsEnough | include/Timer/TimerManager.h:122 | a pause keeps at least the time left, or nothing at all exactly when more than 2^31 ms of it are left |
| TimerManager.TopTells | include/Timer/Timer.h:361-364 | the top of the heap is due exactly when some active timer is, and none is due earlier |
| TimerManager.TimerManager.AddTimeout | include/Timer/TimerManager.h:29-37 | returns 0 exactly when no node is free; otherwise the id names an active one-shot timer due after the delay, with its callback |
| TimerManager.TimerManager.AddInterval | include/Timer/TimerManager.h:39-47 | the same for an interval with its length and callback; repeat count 0 means unlimited |
| TimerManager.TimerManager.AddIntervalUntil | include/Timer/TimerManager.h:50-61 | the same for an interval that ends on its own answer, without a time limit |
| TimerManager.TimerManager.AddIntervalUntilWithTimeout | include/Timer/TimerManager.h:63-75 | the same with a time limit, counted from now, and its callback |
| TimerManager.TimerManager.Remove | include/Timer/TimerManager.h:78-102 | a waiting timer is freed and uncounted at once, a running one only marked |
| TimerManager.TimerManager.Pause | include/Timer/TimerManager.h:110-128 | an active timer keeps its remaining time and moves to the paused list; a running one is only marked |
| TimerManager.TimerManager.Resume | include/Timer/TimerManager.h:130-139 | a paused timer is active and due after its remaining time |
| TimerManager.TimerManager.IsPaused | include/Timer/TimerManager.h:141-144 | whether the id names a paused timer |
| TimerManager.TimerManager.GetNextExpiry | include/Timer/TimerManager.h:146-151 | finds a deadline exactly when some timer is active; it is expired exactly when some active timer is due |
| TimerManager.TimerManager.FreeFinishedNode | include/Timer/TimerProcessor.h:121-125 | frees a live node and uncounts it; the decrement guard never trips |
| TimerProcessor.PulledSize | include/Timer/TimerProcessor.h:36-53 | with n active timers of which e are due, the loop pulls exactly min(e, (n + 1) / 2) |
| TimerProcessor.PulledStep | include/Timer/TimerProcessor.h:38-52 | each pull keeps deadline order, and leaves nothing earlier behind |
| TimerProcessor.PulledAreClean | include/Timer/TimerProcessor.h:41-51 | a pulled node is Processing without requests of earlier runs, and otherwise as it was |
| TimerProcessor.TimerProcessor.PullExpired | include/Timer/TimerProcessor.h:33-53 | the execution queue is that batch |
| TimerProcessor.TimerProcessor.RunActions | include/Timer/TimerProcessor.h:70-84 | a callback's actions change the timers one by one as the manager's operations do, keep the invariant, and leave the pending nodes untouched but for their request flags |
| TimerProcessor.TimerProcessor.Turn | include/Timer/TimerProcessor.h:59-117 | one node leaves the queue, its callback runs once and is logged, each of its actions changes the timers as the manager's operation does, and then the node is settled as its flags and repeats say |
| TimerProcessor.TurnEnds | include/Timer/TimerProcessor.h:86-116 | after a turn the node is freed when its removal is asked for or it has ended, parked with its remaining time when a pause is asked for, else due one interval after the cached time and active; requests made before the turn and in it count |
| TimerProcessor.UntilTurn | include/Timer/TimerProcessor.h:70-116 | a timer with an until-callback ends by itself if and only if that answers so, or its time limit has passed on the cached clock and it has a timeout callback, which then runs after the other; a removal asked for wins over a pause and a pause over the end, and otherwise it is due one interval after the cached time |
| TimerProcessor.PlainTurn | include/Timer/TimerProcessor.h:68-116 | any other timer does the actions of its callback, and ends by itself if and only if it is a one-shot |
| TimerProcessor.SparedInLastRun | include/Timer/TimerProcessor.h:86-102 | a turn spares a timer from its limit exactly when it is the last of its runs and a pause, but no removal, is asked for |
| TimerProcessor.TimerProcessor.Process | include/Timer/TimerProcessor.h:32-118 | every node of the batch has exactly one turn, in deadline order, whatever the callbacks do; the moments between the turns are returned |
| TimerProcessor.SettledIsQuiet | include/Timer/TimerProcessor.h:86-116 | the end of a turn makes no timer due again at the same time when intervals are positive |
| Timer.TimerBase.Tick | include/Timer/Timer.h:348-377 | does nothing while another tick runs; otherwise processes exactly when the top of the heap tests as expired, within the window exactly when some active timer is due, and then every node of the batch has its turn |
| Timer.BatchHalves | include/Timer/TimerProcessor.h:36-53 | a batch leaves at most half of the due timers behind |
| Timer.TimerBase.DrainDue | include/Timer/Timer.h:348-377 | at a frozen time e due timers are gone after floor(log2 e) + 1 ticks when callbacks add or resume nothing |
| Timer.NeverEarly | include/Timer/TimerManager.h:110-139 | no callback in the whole run so far ran before its delay had passed in unpaused time, for every delay of at most 2^31 ms whatever other timers do, and for a longer one that was never compared from further away |
| Timer.RunBeforeItsTime | include/Timer/TimerProcessor.h:36-53 | the limit is sharp: added at any time of the clock and looked at before its delay has passed, a timer runs if and only if more than 2^31 ms of the delay are left |
| Timer.RepeatBound | include/Timer/TimerProcessor.h:86-89 | the runs of a timer are numbered as the log counts them, and one limited to k runs has a run beyond the k-th if and only if it was spared in it |
| Timer.LimitedTimersEnd | include/Timer/TimerProcessor.h:86-116 | a live limited timer has the repeats it has not yet run; all k runs are behind it if and only if it was spared, any other was freed by the k-th |
| Timer.PausedInTurnIsDueAtOnce | include/Timer/TimerProcessor.h:96-102 | the exemption of the delay: parked inside its own turn, a timer is due at once on resume |
| Timer.RunBeyondTheLimit | include/Timer/TimerProcessor.h:86-102 | both exemptions are real: from an empty timer, an interval of 10 ms limited to one run, paused by its callback and resumed, runs a second time, and at once |
| Timer.EndsOnItsAnswer | include/Timer/TimerProcessor.h:70-116 | from an empty timer, an interval that answers with its end runs once and not again however late the clock is looked at |
| EventModel.OnceFiresOnce | include/Events/Base/BaseEventDispatcher.h:81-91 | in every legal log a once-listener, live at its start or registered in it, is called at most once if and only if no dispatch made inside its own call comes to it while it is still live |
| EventModel.HitIsRedispatch | include/Events/Base/BaseEventDispatcher.h:81-91 | so a once-listener whose own calls, at any depth, dispatch its event nowhere is never hit |
| EventStorage.MirrorsUpdate | include/Events/Base/EventStorage.h:36-74 | changing one group's entries like its event's listeners keeps every event in step |
| EventStorage.EventStorage.FindGroup | include/Events/Base/EventStorage.h:36-46 | finds the active group of an event exactly when there is one |
| EventStorage.EventStorage.GetOrCreateGroup | include/Events/Base/EventStorage.h:60-74 | refuses exactly when there is no group and no room; inactive groups are never used again |
| EventDispatcher.MarkListener | include/Events/Base/BaseEventDispatcher.h:45 | marking an entry removes its listener from the live list at once, and moves no entry |
| EventDispatcher.EraseListener | include/Events/Base/BaseEventDispatcher.h:46 | erasing an entry removes its listener from the live list |
| EventDispatcher.CompactGroup | include/Events/Base/BaseEventDispatcher.h:122-133 | cleaning up changes no live listener |
| EventDispatcher.BaseEventDispatcher.AddListener | include/Events/Base/BaseEventDispatcher.h:18-34 | appends a live listener under a new id, or refuses exactly on a null callback or a full storage |
| EventDispatcher.BaseEventDispatcher.RemoveListenerById | include/Events/Base/BaseEventDispatcher.h:36-52 | exactly the listener with this event and id is gone from the live list, during a dispatch or not; true exactly when the event has an entry with the id, marked or not, which outside a dispatch makes room |
| EventDispatcher.BaseEventDispatcher.RemoveListener | include/Events/Base/BaseEventDispatcher.h:54-72 | exactly the listeners of this event are gone; returns how many were live or, outside a dispatch, how many entries there were, and then leaves none |
| EventDispatcher.BaseEventDispatcher.DispatchEvent | include/Events/Base/BaseEventDispatcher.h:74-95 | under any nesting calls, in registration order, exactly the listeners live at its start and not removed before their turn, and each call does what its script says; at the top level a called once-listener leaves no marked entry of the event behind |
| EventDispatcher.BaseEventDispatcher.RunActions | include/Events/Base/BaseEventDispatcher.h:18-95 | any run of additions, removals and nested dispatches does what it was told, and logs a legal run of the immediate-removal list |
| EventDispatcher.BaseEventDispatcher.RunOnce | include/Events/Base/BaseEventDispatcher.h:81-91 | over any run of the dispatcher, for any once-listener whenever registered, the same if and only if holds |
| EventDispatcher.OnceFiresTwice | include/Events/Base/BaseEventDispatcher.h:83-87 | the exception is real: from an empty dispatcher, a once-listener whose callback dispatches its event again is called twice |
| EventDispatcher.BaseEventDispatcher.CountAll | include/Events/Base/BaseEventDispatcher.h:99-108 | the number of live listeners |
| EventDispatcher.BaseEventDispatcher.Count | include/Events/Base/BaseEventDispatcher.h:110-119 | the number of live listeners of the event |
| RxBuffer.WiFiClientRxBuffer.Conservation | lib/WiFi/src/WiFiClientInternal.h:40-46 | delivered, staged and queued bytes together are always exactly the arrived stream |
| RxBuffer.WiFiClientRxBuffer.FillBuffer | lib/WiFi/src/WiFiClientInternal.h:65-86 | one recv of exactly the room behind the staged bytes, unless there is none; what it gives goes behind the staged bytes, and a hard error is remembered |
| RxBuffer.WiFiClientRxBuffer.Read | lib/WiFi/src/WiFiClientInternal.h:112-173 | writes and returns as much as fits of the staged bytes and, exactly if these are too few, of what one recv gives, whose size is the rest but at least the buffer; the surplus stays staged, and only a hard error makes it failed; -1 exactly on a failure with nothing read |
| RxBuffer.WiFiClientRxBuffer.Peek | lib/WiFi/src/WiFiClientInternal.h:175-182 | the next byte of the stream, not consumed; a drained buffer is filled by exactly one recv, and -1 means that it gave nothing |
| RxBuffer.WiFiClientRxBuffer.Flush | lib/WiFi/src/WiFiClientInternal.h:198-213 | drops the staged bytes and all that recv gives, the next part of the stream, until a recv gives nothing; later reads follow right behind |
| RxBuffer.WiFiClientRxBuffer.Available | lib/WiFi/src/WiFiClientInternal.h:187-196 | the staged bytes, or the socket's count when there are none |
| TxStream.AsyncTxView.Advance | lib/WiFi/src/WiFiClient.h:89-100 | drops what was sent from the front of the pending bytes |
| TxStream.WiFiClient.WriteAsync | lib/WiFi/src/WiFiClientAsync.cpp:145-168 | one send, of the whole buffer; unless it fails for good, which alone loses the connection, the kernel stream plus the pending bytes grow by exactly the buffer |
| TxStream.WiFiClient.PollWrite | lib/WiFi/src/WiFiClientAsync.cpp:170-223 | 1 exactly when nothing is pending on a connected client, -1 exactly when the connection is gone; no pending byte is lost or repeated; offers all of them until some are taken, for 250 microseconds, and loses the connection exactly when a send fails for good |
| TxStream.WiFiClient.WriteThenPoll | lib/WiFi/src/WiFiClientAsync.cpp:145-223 | over any number of polls the kernel stream and the view together hold the buffer; 1 means all of it was sent |
| TxStream.WiFiClient.Write | lib/WiFi/src/WiFiClientWrite.cpp:33-130 | the kernel stream grows by exactly the bytes reported; every send offers all the rest; the connection is given up if and only if the last call failed for good, or took nothing although the write did not wait for room; otherwise less than all only when the kernel has taken nothing for the timeout |
| TxStream.OnlyTheLastIsFatal | lib/WiFi/src/WiFiClientWrite.cpp:55-129 | no call of such a write but its last is one after which the connection is given up |
| Udp.PutAllConserves | lib/WiFi/src/WiFiUdp.cpp:200-232 | emitted payloads and buffer together grow by exactly the written bytes |
| Udp.AutomaticDatagramsAreFull | lib/WiFi/src/WiFiUdp.cpp:202-206 | every automatic datagram is exactly 1460 bytes, earlier ones never change |
| Udp.DatagramCount | lib/WiFi/src/WiFiUdp.cpp:200-209 | n bytes from an empty buffer make (n - 1) / 1460 automatic datagrams and leave 1 to 1460 bytes |
| Udp.PacketIsWhole | lib/WiFi/src/WiFiUdp.cpp:143-209 | from an empty buffer the automatic datagrams and the last one hold together exactly the written bytes |
| Udp.WiFiUDP.BeginPacket | lib/WiFi/src/WiFiUdp.cpp:143-164 | empties the buffer; without a socket it asks for one, once; succeeds exactly with a port and a socket |
| Udp.WiFiUDP.EndPacket | lib/WiFi/src/WiFiUdp.cpp:185-198 | hands the buffer to sendto as one datagram, and returns 1 exactly when sendto took it |
| Udp.WiFiUDP.WriteByte | lib/WiFi/src/WiFiUdp.cpp:200-209 | the one-byte step of the reference |
| Udp.WiFiUDP.Write | lib/WiFi/src/WiFiUdp.cpp:211-232 | the chunked write equals folding the one-byte write: same datagrams, same buffer |
| Udp.WiFiUDP.SendPacket | lib/WiFi/src/WiFiUdp.cpp:143-232 | a packet begun, written in any pieces and ended hands exactly those bytes to sendto, all datagrams but the last full; if sendto took them all, these bytes went out |
| SoftApLease.ByteSwapReverses | lib/WiFi/src/WiFiGeneric.cpp:52 | the shifts and masks reverse the four octets |
| SoftApLease.ByteSwapIsInvolution | lib/WiFi/src/WiFiGeneric.cpp:52 | swapping twice gives the word back |
| SoftApLease.CalculateNetworkID | lib/WiFi/src/WiFiGeneric.cpp:1976-1984 | octet by octet the loop masks the whole address |
| SoftApLease.CalculateBroadcast | lib/WiFi/src/WiFiGeneric.cpp:1986-1994 | octet by octet the loop sets all host bits |
| SoftApLease.BroadcastIsLast | lib/WiFi/src/WiFiGeneric.cpp:1986-1994 | for a contiguous netmask that is the last address of the subnet (section 3.2.1.3 of RFC 1122) |
| SoftApLease.CalculateSubnetCIDR | lib/WiFi/src/WiFiGeneric.cpp:1996-2021 | the loop adds up the prefix bits of the four octets |
| SoftApLease.CidrIsPrefixLength | lib/WiFi/src/WiFiGeneric.cpp:1996-2021 | for a contiguous netmask the sum is the prefix length (section 3.1 of RFC 4632) |
| SoftApLease.ConfigureLease | lib/WiFi/src/WiFiGeneric.cpp:162-212 | the branch on network-order words gives the range of the host-order checks or fails with them, and for every contiguous netmask exactly what is granted as given |
| SoftApLease.ConfigureIsPlan | lib/WiFi/src/WiFiGeneric.cpp:162-212 | for every contiguous netmask the bitwise checks grant a range if and only if the prefix has 24 to 28 bits, the start asked for (the one given, else the address behind the access point) is in its subnet, and neither access point nor gateway is in the range; it starts as asked unless it would reach the broadcast address, then at the second address |
| SoftApLease.LeaseIsSafe | lib/WiFi/src/WiFiGeneric.cpp:162-212 | success means eleven addresses in the access point's subnet, strictly below broadcast, without access point and gateway |
| SoftApLease.LeaseHoldsTheNetworkAddress | lib/WiFi/src/WiFiGeneric.cpp:162-212 | a granted range contains the subnet's own address if and only if the caller gave that as the start: the checks do not exclude it |
| Futures.SettledStays | include/Core/Async/Future/FutureBase.h:47-52 | a settled future never changes and calls no callback again |
| Futures.CallbackIsTold | include/Core/Async/Future/FutureBase.h:47-52 | until it has settled, a future calls its callback at every poll with the input of that poll, after exactly the inputs of the polls before |
| Futures.ChainIsSequence | include/Core/Async/Future/FutureBase.h:62-78 | a chain shows its first stage until that settles, then its second stage on the first's value, errors unchanged |
| Futures.SecondStageWaits | include/Core/Async/Future/FutureBase.h:65-75 | until the first stage resolves, the second is untouched and the chain makes exactly the first's calls |
| Futures.AndThenIsAssociative | include/Core/Async/Future/FutureBase.h:62-78 | both groupings show the same results and the same calls on every sequence of polls, in whatever states the stages are |
| Futures.ResolveIsLeftIdentity | include/Core/Async/Future/FutureBase.h:31-34 | resolve(v) in front is the second stage polled with v |
| Futures.RejectIsLeftZero | include/Core/Async/Future/FutureBase.h:36-40 | reject(e) in front rejects every poll and never calls the second stage |
| Futures.PassOnIsRightIdentity | include/Core/Async/Future/FutureBase.h:88-95 | and_then with a function that resolves with its input changes nothing a caller sees |
| Futures.PassOnIsLeftIdentity | include/Core/Async/Future/FutureBase.h:47-52 | as a first stage it is an identity for all futures if and only if all polls carry the same input, because it remembers the first |
| Futures.MappedResults | include/Core/Async/Future/FutureBase.h:88-95 | chaining a function applies it to the value the future resolves with, and changes neither pending nor rejected polls |
| Futures.FunctionsCompose | include/Core/Async/Future/FutureBase.h:88-95 | chaining two functions gives the results of chaining their composition |
| Futures.Future.Chained | include/Core/Async/Future/FutureBase.h:62-78 | and_then builds the chain of the two futures it takes over |
| Futures.Future.Poll | include/Core/Async/Future/FutureBase.h:47-52 | the object's poll is one step of the machine: same result, same calls, same new state |
| SharedPtr.StepKeepsInv | include/Optimization/AtomicSharedPtr.h:39-80 | every step of every thread keeps: a count is the number of counting handles, and at 0 the State is deleted or exactly one thread is about to delete it |
| SharedPtr.OperationDone | include/Optimization/AtomicSharedPtr.h:39-80 | however other threads interleave, after a copy both handles hold the source's State of the start, after a move only the target does, a reset handle is empty, a destroyed one gone, self-assignment changes nothing, and no other handle of the thread changes |
| SharedPtr.AdvanceShortens | include/Optimization/AtomicSharedPtr.h:39-80 | every operation ends after at most five steps of its own thread |
| SharedPtr.StepsTouchLiveStates | include/Optimization/AtomicSharedPtr.h:72-79 | no step reads, counts or deletes a State already deleted |
| SharedPtr.HandlesPointToLiveStates | include/Optimization/AtomicSharedPtr.h:82-88 | a handle of a thread between operations points to a State that is not deleted |
| SharedPtr.DeletedOnceByTheLast | include/Optimization/AtomicSharedPtr.h:39-80 | in every reachable configuration a State is deleted at most once and never while counted; at rest, exactly when no handle is left |
| SharedPtr.OnlyTheLastDropDeletes | include/Optimization/AtomicSharedPtr.h:74-76 | a drop goes on to delete exactly when its handle is the only counting one |
| Executors.StaysWhilePending | include/Core/Async/Executor.h:95-110 | over n calls of poll() a job stays exactly as long as its answers are pending, and each call polls it |
| Executors.PartitionCovers | include/Core/Async/Executor.h:22-28 | every slot is on exactly one of the two lists |
| Executors.SettleKeepsPartition | include/Core/Async/Executor.h:102-105 | swap-and-pop with the push to the free list moves just the settled slot |
| Executors.Executor.constructor | include/Core/Async/Executor.h:22-28 | all slots are free |
| Executors.Executor.Execute | include/Core/Async/Executor.h:39-54 | fails exactly when all slots run; otherwise one more slot runs the job |
| Executors.Executor.Poll | include/Core/Async/Executor.h:95-110 | asks every running job exactly once, keeps exactly the pending ones and frees the others |

## Left out

- StaticHashMap with C-string keys: its erase only clears an occupied flag and so breaks probe chains; it does not refine a map.
- Hash map key equality other than equality, iterators and move-insert: plumbing; the hash function is arbitrary, and a table has fewer than 65535 buckets, so that no dense index is EMPTY_BUCKET.
- `TimerStorage::clear` and the manager's and dispatcher's `clear`: runs without them; the first resets the generation counter and ignores the execution queue.
- A callback that calls `process` directly: callbacks may call every other operation; a nested `tick` does nothing, by its guard.
- Timer groups, timer events, bitmap helpers and the sort strategies other than the heap: not used by the modelled paths.
- The standard heap algorithms are modelled by the usual sift-up and sift-down on sequences; claims depend only on the order property and the elements, never on the layout. The pool, StaticArray and listener arrays are sequences with a length, so aliasing of node pointers is by pool index.
- Timer.NeverEarly: exempt is the first run after a pause that arrived during the timer's own turn (Timer.PausedInTurnIsDueAtOnce), and a timer for which the clock went back.
- EventDispatcher.BaseEventDispatcher.DispatchEvent: for nesting that stays below 256 and while fewer than 2^32 ids have been drawn, at most one by each addition of the script; after that ids repeat.
- Callbacks that throw, and ErrorHandler: a throw would leave the dispatch depth raised.
- RxBuffer.WiFiClientRxBuffer.Flush: ends because the peer sends finitely many bytes, however many; against an endless stream the source's loop need not end.
- The microsecond and millisecond clocks of the write loops do not wrap around in the model, and every call takes at least a microsecond; the real duration of a spin is not modelled.
- TxStream.WiFiClient.Write: is not called while an asynchronous view is pending; the source lets the two interleave.
- UDP receive, multicast, name resolution and addresses of datagrams. A datagram `sendto` refuses is dropped, as in the source, and an automatic one without a word to the caller.
- SoftApLease.LeaseIsSafe: for contiguous netmasks; a netmask with a hole whose octets add up to 24 to 28, such as 255.0.255.255, passes the check and is not covered.
- The rest of set_esp_interface_ip: stopping and starting the DHCP server, setting the interface address, and the station branch.
- Futures: value and error types are the same along a chain, so the error conversion is the identity; the void specialisations, combinators and timeout futures are not modelled.
- Futures.FunctionsCompose: states results only; the composed function is called once where the two functions are called once each.
- SharedPtr: a handle is used by the thread that owns it, and no handle is stored inside a State; memory orders are those of sequentially consistent steps.
- Executors.Executor.Poll: futures do not call back into the executor.
- WiFi station, scan, provisioning, server, DNS, connect and socket options: foreign calls and I/O.
