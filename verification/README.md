# Verification of iocpsock's concurrent core

iocpsock is a Tcl channel driver for Winsock sockets. One completion thread serves an I/O completion
port, each Tcl thread reads and closes its channels, and the two share reference counts, caps, flags,
linked lists and a ready list. This project models that core in Dafny and proves what the code relies
on. `dafny verify dfyconfig.toml` checks everything.

| file | models |
|---|---|
| `ReceiveMerge.dfy` | `IocpInputProc` and its filters: a loop over mutable buffers that moves an output pointer, proved against a functional merge whose meaning is then proved |
| `RecvEngine.dfy` | the receive side of a connected socket as a machine: posting (with its recursion), OP_READ and OP_DISCONNECT completions, reads, close, and the kernel as an oracle; a whole handler is one step, except that in burst mode the test, the post and the clearing of the flag in `RepostRecvs` are three |
| `RecvSocket.dfy` | the same functions as methods that update a `SocketInfo` in place, each tied to its function in `RecvEngine` and proved to keep the invariant of `RecvRuns` |
| `RecvSafety.dfy`, `RecvRuns.dfy` | what every run of that machine keeps: the byte stream, EOF, buffer ownership, counters, memory |
| `RecvErrors.dfy`, `RecvFlow.dfy` | what each answer of the kernel becomes and that errors reach the read unchanged; flow control, the end of receiving, and what each completion is used for |
| `RecvCaps.dfy`, `RecvMemory.dfy`, `RecvLive.dfy` | how much of the memory bound can be used, when the bound is the sum of the caps, and exactly when receiving goes on |
| `Lifetime.dfy` | the reference count of a connected socket, every interlocked operation and every load and store of `flags` being a step |
| `Admission.dfy` | increment, test and rollback against a cap, as separate steps of any number of threads |
| `Notifier.dfy`, `TclThread.dfy` | the ready list, the event queue, accepted connections and received buffers of many sockets, with both threads interleaving; and the Tcl thread's functions as methods |
| `LinkedList.dfy` | the intrusive doubly linked list, on heap nodes |
| `Ring.dfy` | the single-producer, single-consumer ring with wrapping counters, every load and store a step, and the structure itself |
| `Checksum.dfy` | `in_cksum` with its 32-bit accumulator |
| `Common.dfy` | types that several modules use |

What Winsock, the kernel or Tcl decides is a parameter or an arbitrary action. Steps interleave under
sequential consistency. Two assumptions about the kernel are built into `RecvEngine`: receives are
filled in the order in which they were posted, and the port is first in, first out, which is why the
source uses a single completion thread (hackersguide.txt:33-38).

Where code and documentation or intent disagree:

- A blocking read does not wait. `IocpLLPopFront` ignores its timeout (linkedlist.c:463-480). With the
  NULL that is documented for an empty list, a blocking read of one returns zero, which Tcl takes for
  EOF; as written, the code faults at linkedlist.c:476 before that. `EofIsLast` therefore asks for an
  asynchronous socket or a non-empty list, and `BlockingZeroIsNotEof` shows, assuming the documented
  NULL, that every blocking socket needs that.
- The manual says that unread buffers do not exceed the buffer cap (man.html:107-110). That is so
  exactly for a receive cap of zero (`BufferCapKeptIff`), which the option does not accept
  (iocpsock_lolevel.c:1054). Receives in flight and unread buffers together stay within the sum of the
  two caps only up to a post of `RepostRecvs` (iocpsock_lolevel.c:886) behind whose test
  (iocpsock_lolevel.c:877-878) the completion thread has filled the list; after that they stay within
  twice the receive cap plus the buffer cap (`BurstMemoryBound`, `WithinUntilLatePost`), and unread
  buffers alone can reach that (`BigBoundIsMet`). The sum of the caps holds in all runs exactly for a
  receive cap of at most one or a buffer cap of zero (`SumBoundIff`).
- Receiving can stall. In burst mode `RepostRecvs` posts and then clears `needRecvRestart`
  (iocpsock_lolevel.c:886-890), which can overwrite the completion thread's setting
  (iocpsock_lolevel.c:2411); and when a lone receive completes with WSAENOBUFS, its buffer is dropped
  and nothing replaces it. `StepProgress` and `ProgressIff` say that these two steps, and no others,
  stop an open socket, and exactly when they do; `LateClearStalls` and `StallsForLackOfBuffers` give
  the runs.
- An error buffer that also holds bytes loses them, and whatever the call had merged before
  (`LosesIff`, `LosingRun`).
- A disconnect that completes as aborted leaves its reference behind, and the socket is never freed
  (`FreedUnlessDisconnectAborted`, `AbortedDisconnectLeaks`). The path for dud connections is right exactly because a single
  receive is posted at first (`DudFreedRightIff`).
- Popping the front or back of an empty list is documented to return NULL, and callers rely on it,
  but the code reads through the null pointer first (linkedlist.c:439-440, linkedlist.c:475-476). The
  model returns nothing.
- `IocpLLPop` reads `node->ll` before it takes the lock (linkedlist.c:335). The model reads it inside
  the critical section.
- `Tcl_WinIocpQCreate` panics on exactly the powers of two (tclWinIocp.c:329-332), although it asks
  for one. The model takes a power of two.
- `SPSCQueue_Size` returns 0 once the tail counter has wrapped and the head has not
  (SPSCQueue.h:106). `SpscQueue.Size` states exactly when the result is right, and
  `TailWraps` that the other case is reached.

## Model

| member | source | states |
|---|---|---|
| `ReceiveMerge.SocketInfo.IocpInputProc` | iocpsock_lolevel.c:676-727 | the call as the source runs it on buffer objects and the output array leaves the list, the output, the freed buffers, the EOF flag and the result that the functional merge describes, and nothing past the bytes it reports |
| `ReceiveMerge.SocketInfo.MergeAll` | iocpsock_lolevel.c:698-714 | the while loop, from any list of distinct buffers, has that outcome |
| `ReceiveMerge.SocketInfo.MergeOne` | iocpsock_lolevel.c:698-713 | one round either ends the loop with the merge's outcome or has copied and freed exactly the first buffer |
| `ReceiveMerge.SocketInfo.FilterSingleOpRecvBuf` | iocpsock_lolevel.c:767-783 | an EOF or error buffer met after some bytes goes back to the front untouched; otherwise nothing changes |
| `ReceiveMerge.SocketInfo.FilterPartialRecvBufMerge` | iocpsock_lolevel.c:732-765 | a buffer that is too long fills the output exactly to `toRead` and returns to the front with the rest of its bytes |
| `ReceiveMerge.SocketInfo.DoRecvBufMerge` | iocpsock_lolevel.c:785-852 | the three outcomes: an error frees the buffer and writes nothing, no bytes raise EOF and reset the count, bytes are appended |
| `ReceiveMerge.OneCallRead` | iocpsock_lolevel.c:675-852 | an asynchronous read of a list that starts with data returns min(toRead, bytes before the first EOF or error buffer), writes exactly that prefix, and leaves exactly the rest, where every data buffer kept has a byte, if and only if the buffer that ends the data holds no bytes, or there is none, or the data alone fills `toRead` |
| `ReceiveMerge.MergeLoopSpec` | iocpsock_lolevel.c:698-714 | the same from the middle of the loop, after any number of bytes, under that condition |
| `ReceiveMerge.SpoiltRun` | iocpsock_lolevel.c:795-800 | without the condition the call returns something else, from any point of the loop |
| `ReceiveMerge.BlockingRead` | iocpsock_lolevel.c:698-714 | a blocking read of a list that starts with data takes from the first buffer alone, as much as fits, and leaves the rest of it in front |
| `ReceiveMerge.MergeConserves` | iocpsock_lolevel.c:698-714 | for every list and mode, output plus what is left is what was there, freed plus left buffers are all the buffers, and the result is the number of bytes written |
| `ReceiveMerge.ZeroMeansEof` | iocpsock_lolevel.c:698-727 | zero is returned if and only if the EOF buffer is first, or the socket is blocking and the list empty |
| `ReceiveMerge.PositiveStaysPositive` | iocpsock_lolevel.c:770-781 | once a byte is merged, no later buffer can turn the result into zero or raise EOF |
| `ReceiveMerge.LosesIff` | iocpsock_lolevel.c:708-726 | a call loses bytes if and only if the guard `Losing` holds before it: it will come to an error buffer that holds bytes and fits |
| `RecvSafety.PostContract` | iocpsock_lolevel.c:1810-1918 | for every sequence of kernel answers, posting returns NO_ERROR if and only if its buffer now belongs to the kernel or the port; then both counters rose by the number of receives in flight, within the cap; otherwise nothing changed |
| `RecvSafety.PostRecvRaises` | iocpsock_lolevel.c:1832-1918 | the recursion raises both counters by exactly the receives it puts in flight, whatever it detects |
| `RecvSafety.PostRecvHanded` | iocpsock_lolevel.c:1815-1918 | no buffer is lost, duplicated or freed twice on any way through the recursion, including buffers it allocates itself |
| `RecvSafety.PostRecvBytes` | iocpsock_lolevel.c:1815-1918 | receives that complete at once take their bytes from the front of the peer's stream to the back of the port, and no bytes get behind an EOF |
| `RecvErrors.RefusedWith` | iocpsock_lolevel.c:1829-1887 | a shut socket, a full one and a failing kernel are reported as such, each with its own error, and nothing else is |
| `RecvErrors.ForcedError` | iocpsock_lolevel.c:1866-1872 | an error forced to the port is there, behind everything else, for that buffer, without bytes, and is the error the kernel gave |
| `RecvErrors.ForcedErrorOfNew` | iocpsock_lolevel.c:873-876 | the same for a new buffer, as the callers of `PostOverlappedRecv` make it |
| `RecvErrors.QueuedReceive` | iocpsock_lolevel.c:1866 | a receive that stays pending is the last one in the kernel's queue, with its buffer's length and without bytes |
| `RecvErrors.CompletedAtOnce` | iocpsock_lolevel.c:1889-1916 | an immediate completion takes exactly the next bytes of the stream; without bytes, or without burst detection, nothing more is posted |
| `RecvErrors.BurstGoesOn` | iocpsock_lolevel.c:1889-1916 | with bytes and burst detection another receive of the same length is posted behind it |
| `RecvErrors.GetAndPostJoins` | iocpsock_lolevel.c:1815-1918 | all receives that a post puts in flight have the length asked for, belong to new buffers and join at the ends of the queues |
| `RecvSocket.SocketInfo.PostOverlappedRecv` | iocpsock_lolevel.c:1815-1918 | the recursive procedure on fields, with its increments and rollbacks, does what the posting function says and terminates because the cap minus `outstandingRecvs` shrinks; a refusal names its reason, and an error forced to the port is the kernel's |
| `RecvSocket.SocketInfo.RepostRecvs` | iocpsock_lolevel.c:855-892 | run without interference, it keeps the invariant of all runs, leaves a progressing socket with a receive in flight or as many unread buffers as the cap allows, and in flow-controlled mode posts at most one receive |
| `RecvSocket.SocketInfo.HandleIo` | iocpsock_lolevel.c:2239-2248 | the whole handler for the first completion on the port, aborted or not, is the machine's step and keeps the invariant |
| `RecvSocket.SocketInfo.HandleOpRead` | iocpsock_lolevel.c:2384-2436 | the buffer in the handler's hands is freed once exactly when it holds no bytes and the socket is closing or it was refused for lack of buffers, and otherwise goes to the end of the list; only the first makes the socket closable and only the second lowers the cap; stream, ownership, counters and memory bound hold without it in hand |
| `RecvSocket.SocketInfo.EndOperation` | iocpsock_lolevel.c:2528-2534 | the socket is freed exactly when it is closable with nothing in flight and no disconnect outstanding, and then each of its buffers was freed once |
| `RecvSocket.SocketInfo.FreeSocketInfo` | iocpsock_lolevel.c:1553-1559 | the loop frees every pending buffer once, in order |
| `RecvSocket.SocketInfo.HandleIoDisconnect` | iocpsock_lolevel.c:2508-2534 | keeps the invariant; the socket is freed at once exactly when no receive is in flight, and otherwise exactly those are still counted |
| `RecvSocket.SocketInfo.IocpClose2Proc` | iocpsock_lolevel.c:634-660 | keeps the invariant; `outstandingOps` is then two more than the receives in flight, and every attempt to post one is refused |
| `RecvRuns.StreamIntegrity` | iocpsock_lolevel.c:676-892 | in every run until the socket is freed, past error returns as well: bytes handed to Tcl, unread bytes, bytes on the port and bytes to come are together the peer's stream, in order, if and only if no read of the run met the guard `Losing` |
| `RecvCaps.LosingRun` | iocpsock_lolevel.c:795-800 | on every socket with a non-empty stream, and for every error, there is a run that loses a byte |
| `RecvRuns.EofIsLast` | iocpsock_lolevel.c:802-809 | a read that returns zero leaves no byte undelivered anywhere, and unless a read was losing Tcl has the whole stream |
| `RecvFlow.EofEndsReceiving` | iocpsock_lolevel.c:802-809 | in every run a read that meets EOF raises the flag for good, and the receives in flight never rise again |
| `RecvFlow.EofRead` | iocpsock_lolevel.c:860 | it takes just the EOF buffer and posts nothing |
| `RecvFlow.ErrorReadPostsNothing` | iocpsock_lolevel.c:708-726 | a read that returns an error posts nothing and hands over no bytes |
| `RecvFlow.WouldBlock` | iocpsock_lolevel.c:716-720 | an asynchronous read of an empty list reports that it would block and changes nothing |
| `RecvErrors.ErrorDelivered` | iocpsock_lolevel.c:795-800 | in every run, the error a read returns for a buffer is the one its completion had when it came to the port, whatever happened in between |
| `RecvErrors.ErrorReported` | iocpsock_lolevel.c:795-800 | and a buffer that was completed with an error and no bytes has that error returned when it comes first |
| `RecvErrors.ErrorIsOfBuffer` | iocpsock_lolevel.c:698-726 | an error that a read returns is that of the last buffer it took, behind data only |
| `RecvErrors.CompletionError` | iocpsock_lolevel.c:2245-2249 | a completion carries the next bytes, and the error of the port unless one is stored in the buffer |
| `RecvRuns.ZeroIsEofIff` | iocpsock_lolevel.c:692-714 | in every run a zero return is right about the end of the stream if and only if the socket is asynchronous or its list is not empty, or nothing was left to come (taking the documented NULL of `IocpLLPopFront` on an empty list) |
| `RecvRuns.BlockingZeroIsNotEof` | iocpsock_lolevel.c:692-714 | it is wrong on every blocking socket read before the first completion of a non-empty stream |
| `RecvRuns.BuffersOwnedOnce` | iocpsock_lolevel.c:1563-1600 | in every run each buffer ever allocated is in exactly one of kernel, port, pending list and freed, once |
| `RecvRuns.NoBufferSurvives` | iocpsock_lolevel.c:1516-1561 | a freed socket had nothing in flight and its disconnect done, and each of its buffers was freed exactly once |
| `RecvRuns.CountersExact` | iocpsock_lolevel.c:1840-1848 | between handlers `outstandingOps` is the operations in flight plus the references of close, and `outstandingRecvs` the receives in flight until close |
| `RecvFlow.HandlerUses` | iocpsock_lolevel.c:2239-2436 | every completion is dropped and its buffer freed exactly when it was aborted, ends a closing socket or was refused for lack of buffers, and otherwise goes to the end of the list as it is; only the second makes the socket closable, only the third lowers the cap, and only the first stays counted in `outstandingRecvs` |
| `RecvFlow.FlowControlled` | iocpsock_lolevel.c:863-876 | in every flow-controlled run the receives in flight are at most one more than the reposting reads so far |
| `RecvFlow.FlowRead` | iocpsock_lolevel.c:863-876 | a flow-controlled read posts exactly one receive, of the size asked for, if and only if it returns bytes, is not at EOF and the cap allows it |
| `RecvFlow.FlowStep` | iocpsock_lolevel.c:2386-2413 | no other step raises the receives in flight in that mode |
| `RecvFlow.FirstReceive` | iocpsock_lolevel.c:2490-2502 | a new socket starts with one receive of the fixed size |
| `RecvFlow.BurstBuffersSized` | man.html:103-110 | in every burst run all receives and unread buffers have 4096 bytes |
| `RecvRuns.BurstMemoryBound` | iocpsock_lolevel.c:877-891 | with the test of `RepostRecvs` and its post as separate steps: in every run receives in flight stay within their cap, and in burst mode together with the unread buffers within twice the initial receive cap plus the buffer cap, and within the sum of the caps from each test to its post |
| `RecvMemory.SumBoundIff` | iocpsock_lolevel.c:877-891 | the sum of the caps is the bound in all burst runs with given caps if and only if the receive cap is at most one or the buffer cap is zero |
| `RecvMemory.WithinUntilLatePost` | iocpsock_lolevel.c:886-887 | in every burst run the sum of the caps is the bound as long as no post found more unread buffers than the buffer cap |
| `RecvMemory.BigBoundIsMet` | iocpsock_lolevel.c:877-887 | for all receive caps of at least two and buffer caps of at least one there is a run in which unread buffers alone reach twice the receive cap plus the buffer cap |
| `RecvCaps.BoundIsMet` | iocpsock_lolevel.c:2395-2413 | for all caps of at least one there is a run without any read in which unread buffers alone reach the sum of the caps |
| `RecvCaps.BufferCapKeptIff` | man.html:103-110 | the manual's claim that unread buffers stay within the buffer cap holds in all burst runs if and only if the receive cap is zero |
| `RecvCaps.BurstPost` | iocpsock_lolevel.c:1889-1916 | a burst of n immediate completions puts exactly n + 1 receives in flight, n of them on the port with data |
| `RecvRuns.StepInv` | iocpsock_lolevel.c:2223-2536 | every step of the machine keeps stream, ownership, counters and memory together |
| `RecvLive.StepProgress` | iocpsock_lolevel.c:855-892 | with test, post and clear of `RepostRecvs` as separate steps: a step stops an open, progressing socket if and only if it handles the refusal of its only receive for lack of buffers while no read is awaited and no post under way, or clears the flag with nothing in flight; and sets it going again if and only if it is a blocking read of an empty list |
| `RecvLive.ProgressIff` | iocpsock_lolevel.c:855-892 | so in every run an open socket progresses if and only if the guards of its steps did not stop it |
| `RecvLive.NeverStalls` | iocpsock_lolevel.c:863-876 | in flow-controlled mode receiving never stalls in any run in which the kernel refused no receive for lack of buffers |
| `RecvLive.ClearFindsFullList` | iocpsock_lolevel.c:877-891 | the clearing step finds nothing in flight only when the list was filled to its cap since the post, or the stream ended, or buffers were refused |
| `RecvLive.LateClearStalls` | iocpsock_lolevel.c:886-890 | for all caps of at least one there is such a run in burst mode: the completion thread's setting (line 2411) is overwritten, bytes are still to come, and nothing but closing ends the stall |
| `RecvLive.DeadForever` | iocpsock_lolevel.c:877-891 | a stopped burst-mode socket with the flag clear never posts again, whatever happens, until it is closed |
| `RecvLive.ReadRestarts` | iocpsock_lolevel.c:855-892 | in every run a read of an open socket that returns bytes, with its post, leaves a receive in flight if and only if there was one, or the mode is flow-controlled, or the flag was set and fewer buffers than the cap are left |
| `RecvLive.PostStepProgresses` | iocpsock_lolevel.c:886-887 | the post leaves a receive in flight whatever came between it and the test |
| `RecvLive.StallsForLackOfBuffers` | iocpsock_lolevel.c:2420-2428 | for every cap of at least one, when the first receive is refused for lack of buffers no asynchronous read changes anything |
| `Lifetime.FreedExactlyWhenDone` | iocpsock_lolevel.c:2528-2534 | in every interleaving the number of frees is one if close is over, nothing is in flight, the disconnect has completed and no handler runs, and zero otherwise; for connected and for dud sockets |
| `Lifetime.NothingAfterFree` | iocpsock_lolevel.c:1516-1561 | no thread has a step left on a freed socket |
| `Lifetime.FreedByLastCompletion` | iocpsock_lolevel.c:2528-2534 | only the test after the last decrement frees, even when an early read of zero bytes has set CLOSABLE |
| `Lifetime.ZeroReadMarks` | iocpsock_lolevel.c:2415-2418 | in every run a handler that checks a receive of zero bytes on a closing socket leaves it closable, for good |
| `Lifetime.EarlyClosable` | iocpsock_lolevel.c:2415-2418 | that is reached before the disconnect is even posted, and then the artificial reference keeps the socket |
| `Lifetime.NoFlagLost` | iocpsock_lolevel.c:2416 | although each thread loads and stores the whole word, no bit of `flags` that was set is ever lost |
| `Lifetime.StepFlags` | iocpsock_lolevel.c:644 | each `flags |=` sets the bit it names, and no other step changes any |
| `Lifetime.ClosedRunsEnd` | iocpsock_lolevel.c:634-660 | once close is over only a bounded number of steps is left |
| `Lifetime.FreedUnlessDisconnectAborted` | iocpsock_lolevel.c:2508-2513 | when they are done the socket is freed, unless the disconnect was aborted, and then it is not |
| `Lifetime.AbortedDisconnectLeaks` | iocpsock_lolevel.c:2239-2243 | that case is reached: a closed socket with nothing in flight, nothing enabled, and not freed |
| `Lifetime.DudFreedRightIff` | iocpsock_lolevel.c:2304-2320 | a dud connection is freed exactly once and last in every run if and only if no receive was posted on it |
| `Lifetime.StepInv` | iocpsock_lolevel.c:2415-2418 | every step keeps the account of references: flight, handler, posting, disconnect, artificial |
| `Admission.WithinCap` | iocpsock_lolevel.c:1831-1837 | with increment, test and rollback as separate steps of any threads, operations in flight never exceed a cap that is not lowered |
| `Admission.WithinHighestCap` | iocpsock_lolevel.c:1726-1732 | and in any run they stay within the highest value the cap had, also when a failed accept leaks its count |
| `Admission.RunTickets` | iocpsock_lolevel.c:1934-1940 | at most m attempts hold an increment result up to m |
| `Admission.CounterExceedsCap` | iocpsock_lolevel.c:1832-1835 | the counter itself can exceed the cap by any amount |
| `Admission.CounterExact` | iocpsock_lolevel.c:1832-1835 | in every run the counter is the number of attempts that are not over and of those leaked or aborted: refusals, failures and completions leave no trace |
| `Admission.SafeCapIff` | iocpsock_lolevel.c:1831-1848 | at any moment of any run, setting the cap to a value keeps the operations in flight within it in every continuation if and only if the attempts that are in flight, let through, or counted with a result within the new cap are no more than it |
| `Notifier.ReadyListDiscipline` | iocpsock_lolevel.c:1641-1661 | in every interleaving an open socket is on the ready list exactly when marked, and once; a closed one is on neither list nor event queue |
| `Notifier.NeverListedAgain` | iocpsock_lolevel.c:639-651 | after close's mark and pop no later run puts the socket back |
| `Notifier.NoConnectionStranded` | iocpsock_lolevel.c:1664-1695 | a waiting connection of an open listener always has an alert under way |
| `Notifier.TakenInOrder` | iocpsock_lolevel.c:513-585 | what was taken, followed by what waits, is what arrived, in order |
| `Notifier.OnePerEvent` | iocpsock_lolevel.c:465-472 | a connection is taken only by servicing an event of its listener, the oldest, one at a time |
| `Notifier.MaskAsAsked` | iocpsock_lolevel.c:1389-1392 | the mask of a socket changes only in `IocpWatchProc`, to what that was given |
| `Notifier.ChannelAsOpened` | iocpsock_lolevel.c:513-585 | a channel comes with opening a socket or accepting it, and goes with closing it |
| `Notifier.NewSocket` | iocpsock_lolevel.c:1602-1624 | a socket comes into being only by opening it or as an accepted client, and then it is open and empty, without a channel, unwatched and unmarked |
| `Notifier.ToldAsAsked` | iocpsock_lolevel.c:475-494 | a channel is told that it is readable only for an event of its socket, when it holds buffers and the mask asks for it |
| `Notifier.ArrivesAsCompleted` | iocpsock_lolevel.c:1664-1712 | exactly what the completion thread reports is queued, at the end |
| `Notifier.TakenAsServed` | iocpsock_lolevel.c:513-585 | exactly one item, the oldest, goes for a read or an event of a listener |
| `Notifier.MarkAsListed` | iocpsock_lolevel.c:408-418 | the mark of an open socket is set only together with listing it and cleared only together with taking it off |
| `Notifier.UnwatchedNotListed` | iocpsock_lolevel.c:1697-1712 | a buffer that arrives at a socket nobody watches does not put it on the ready list |
| `Notifier.NoReadableLost` | iocpsock_lolevel.c:1697-1712 | when both threads are done with a readable socket that holds buffers, it was on the ready list after the last arrival, and its channel has been told since or will be |
| `Notifier.QuietMeansServed` | iocpsock_lolevel.c:376-441 | with nothing listed, queued or running, every connection was taken and every readable channel told |
| `Notifier.StepInv` | iocpsock_lolevel.c:1385-1411 | each step of either thread keeps all of this for every socket |
| `TclThread.Shared.IocpEventCheckProc` | iocpsock_lolevel.c:376-441 | the loop over the snapshot of the count empties the ready list, queues an event for each of its sockets that has a channel, in order, and keeps the invariant of every socket |
| `TclThread.CheckMovesAll` | iocpsock_lolevel.c:402-440 | those rounds empty the ready list, clear exactly the marks of the listed sockets, and queue one event for each that has a channel, in order |
| `TclThread.Shared.IocpZapTclNotifier` | iocpsock_lolevel.c:1641-1661 | an open socket is then marked and on the ready list exactly once, a closed one is not put there, the others stay as they are, and every socket keeps its invariant |
| `TclThread.Shared.IocpWatchProc` | iocpsock_lolevel.c:1385-1411 | the mask is then what was given and no other socket changed; a socket that has something to tell is on the ready list exactly once, and otherwise the list is unchanged; every socket keeps its invariant |
| `TclThread.Shared.IocpEventProc` | iocpsock_lolevel.c:452-495 | uses up one event: takes the one connection that arrived first of those left, which then has its channel, or tells a channel exactly if it is readable and asks for it; every socket keeps its invariant |
| `TclThread.Shared.Requeue` | iocpsock_lolevel.c:568-584 | an open listener with connections left is then on the ready list exactly once, and otherwise the list is unchanged; every socket keeps its invariant |
| `TclThread.Shared.IocpClose2Proc` | iocpsock_lolevel.c:638-654 | the socket then has no channel and is on neither ready list nor event queue, the others stay where they are, and every socket keeps its invariant |
| `LinkedList.LList.PushBack` | linkedlist.c:100-150 | appends one item, keeps every other node and the representation, and uses the caller's node if given |
| `LinkedList.LList.PushFront` | linkedlist.c:168-208 | prepends likewise |
| `LinkedList.Pop` | linkedlist.c:326-386 | removes exactly the given node from its position, so that the others stay in order, and leaves its links null or frees it; a node on no list is unchanged |
| `LinkedList.LList.Relink` | linkedlist.c:348-367 | the four cases of unlinking join the neighbours and keep the ends |
| `LinkedList.LList.PopFront` | linkedlist.c:462-480 | takes the first element, nothing on an empty list |
| `LinkedList.LList.PopBack` | linkedlist.c:426-444 | takes the last element, nothing on an empty list |
| `LinkedList.LList.PopAllCompare` | linkedlist.c:275-308 | the walk, which unlinks or destroys nodes as it goes, leaves exactly the nodes whose item differs, in order, with matching count and links |
| `LinkedList.WithoutPositions` | linkedlist.c:295-302 | what is left is a subsequence: increasing positions, exactly those whose item differs |
| `LinkedList.LList.GetCount` | linkedlist.c:527-539 | the count is the length of the list |
| `LinkedList.LList.IsNotEmpty` | linkedlist.c:498-510 | true exactly when the list has elements |
| `Ring.RunRefines` | SPSCQueue.h:49-94 | for every power-of-two capacity below 2^w and every interleaving the wrapping ring with masked indices takes the same steps as one with unbounded counters |
| `Ring.StepInv` | tclWinIocp.c:350-398 | each load and store of the unbounded ring keeps it a queue |
| `Ring.RingIsFifo` | SPSCQueue.h:49-94 | what came out is a prefix of what went in, and the slots hold exactly the difference |
| `Ring.NoSharedSlot` | SPSCQueue.h:59-88 | producer and consumer never are at the same slot |
| `Ring.PushDecision` | SPSCQueue.h:50-57 | the equality test gives up if and only if the ring was full when head was loaded, and otherwise there is room |
| `Ring.PopDecision` | SPSCQueue.h:76-88 | Pop gives up if and only if the ring was empty when tail was loaded, and otherwise loads the oldest item |
| `Ring.MaskIsRemainder` | SPSCQueue.h:59 | masking with capacity - 1 is the remainder by the capacity |
| `Ring.SpscQueue.PushBack` | tclWinIocp.c:350-373 | appends unless the ring holds a capacity of items |
| `Ring.SpscQueue.PopFront` | tclWinIocp.c:378-398 | takes the oldest item unless the ring is empty |
| `Ring.SpscQueue.IsEmpty` | SPSCQueue.h:97-99 | true exactly when nothing is queued, also after the counters wrap |
| `Ring.SpscQueue.Size` | SPSCQueue.h:102-110 | the length is right if and only if head <= tail |
| `Ring.TailWraps` | SPSCQueue.h:67 | on every ring a run reaches a state with one item queued and the tail counter below the head |
| `Checksum.InCksum` | tests/RAWtcpip.h:388-416 | the two loops on a 32-bit accumulator return the checksum function of the bytes, with at most two rounds of folding |
| `Checksum.Fold` | tests/RAWtcpip.h:406-408 | folding ends within two rounds and keeps the one's complement reduction |
| `Checksum.NoOverflowIff` | tests/RAWtcpip.h:391-398 | the accumulator cannot overflow for any data of n bytes if and only if n <= 131074 |
| `Checksum.CksumExact` | tests/RAWtcpip.h:391-415 | up to that length the result is 65535 - r, with r the reduction of the exact word sum |
| `Checksum.AllExactIff` | tests/RAWtcpip.h:391-415 | that holds for all data of n bytes if and only if n <= 131074 |
| `Checksum.CksumExactIff` | tests/RAWtcpip.h:391-415 | and on any buffer if and only if the accumulator wraps a multiple of 65535 times without being left at zero |
| `Checksum.RfcExample` | tests/RAWtcpip.h:388-416 | the sums of the example in section 3 of RFC 1071, in both byte orders |
| `Checksum.OddIsPadded` | tests/RAWtcpip.h:399-404 | an odd buffer has the word sum of the buffer padded with a zero byte, in either byte order |
| `Checksum.SelfVerifying` | tests/RAWtcpip.h:388-416 | storing the checksum in an even 16-bit field that was zero makes the checksum zero, for data of any length |
| `Checksum.ByteOrderIndependentIff` | tests/RAWtcpip.h:394-415 | on any data, the machine of the other byte order computes the byte-swapped result if and only if both accumulators wrap alike, that is to zero both or neither, and as often up to the factor 256 modulo 65535; up to 131074 bytes they do |
| `Checksum.SwappedDataSwapsChecksumIff` | tests/RAWtcpip.h:394-415 | on data of any even length, swapping the bytes of every word swaps the bytes of the checksum under exactly that condition |

## Left out

- Winsock, heap, thread and Tcl calls, option handling, initialisation, address resolution and the `ws2*.c` files: what they decide is an oracle or a parameter here.
- Zero-byte receive mode, and changing the mode or the caps by an option during a run: that branch reads straight into the channel buffer (iocpsock_lolevel.c:810-838).
- Teardown of a listening socket (iocpsock_lolevel.c:661-668) and of the clients still queued on it (iocpsock_lolevel.c:1543-1551), thread transfer and thread exit.
- Ownership of send and accept buffers, and exactness of the accept counter: `PostOverlappedSend` returns one error value for two outcomes (iocpsock_lolevel.c:1936-1939, iocpsock_lolevel.c:1957-1971), and a failed `WSASocket` leaves the counter raised (iocpsock_lolevel.c:1747-1749).
- Memory-model and fence effects: everything is sequentially consistent.
- Failure to allocate a buffer or an accept record.
- Interleavings inside a receive handler or a read, other than between the test, the post and the clearing of the flag in burst mode: `RecvEngine` takes the rest of each as one step. `Lifetime`, `Admission` and `Notifier` interleave at every access to shared state.
- `IocpLLPopAll`, which does not reset `front` and `back` (linkedlist.c:249-265); its caller destroys the list next.
- `tests/synflood.c`, `tclWinError.c`, `nmakehlp.c`, stub tables and `tools/genStubs.tcl`: input and output, lookup tables or generated code.
- `RecvEngine` and `RecvSocket` treat buffers as values with an identity: aliasing between buffers and the caller's array is in `ReceiveMerge`, where they are objects. `RecvSocket` has no read method of its own; the read is `ReceiveMerge.SocketInfo.IocpInputProc`.
- Notifier.NoReadableLost: says nothing about what a channel does once it is told; the generic layer's own buffering is not part of this model.
- LinkedList.LList.PopFront: the empty list follows the documented intent, not the code.
- LinkedList.LList.PopBack: the empty list follows the documented intent, not the code.
