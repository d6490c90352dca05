# A verified model of TinyGameServer

TinyGameServer is a TCP framework with one event loop per thread, and two small servers built on it: Gate,
which clients talk to, and Data, which checks logins for Gate. This project models the parts that are hard to
get right and proves them over all inputs, all runs and all interleavings.

| file | what it models |
|---|---|
| `Tasks.dfy`, `EventLoop.dfy` | functors as spawn trees, and the loop object as one thread sees it |
| `LoopProtocol.dfy`, `LoopProgress.dfy`, `LoopForest.dfy`, `LoopStranding.dfy`, `LoopOrder.dfy` | the task queue and wake channel shared by producers, the loop and threads inside `Stop`, as interleaved steps |
| `Bytes.dfy`, `Codec.dfy`, `Layout.dfy`, `Buffer.dfy`, `BufferLists.dfy` | byte order, typed values, 32-bit capacity arithmetic, the buffer over an array, and lists of values through it |
| `SendPath.dfy`, `Connection.dfy`, `SendOrder.dfy` | the send path, the watcher and connection objects, and the composition with the task queue |
| `Frames.dfy`, `Callbacks.dfy`, `Streams.dfy`, `LoginFrames.dfy`, `Login.dfy`, `OutOfStep.dfy` | frames, the callbacks of both servers, streams cut into arbitrary reads, the login exchange as a whole, and a run that gets out of step |
| `Registry.dfy`, `Lifecycle.dfy`, `LoopLifecycle.dfy`, `SerialId.dfy` | the connection table, the life of connections on queues and on interleaved loops, serial ids |

The pure specification of each object sits beside the object: the methods of `EventLoop`, `Buffer`, `FdWatcher`,
`TCPConnection`, `TCPServer`, `Generator` and the server callbacks are proved equal to it, and the lemmas are about it.
Lemmas whose names end in `Exactly` beside a step or an operation fix all that it does, in plain terms; those that say
no more than that are not listed below.

## How the code is followed

The code is modelled as it stands. `Form` selects between a piece of code `AsWritten` and `Intended`, with one
defect put right, and `Build` holds one such choice for each place in the exchange of logins; `Host` is the byte
order of the machine. Where a promise fails as written, a lemma gives the
exact condition under which it holds. These are the places:

- `grow` compares the request with capacity plus readable length instead of the room left after compaction. For
  blocks below 2 GiB an append of n bytes to L readable ones stays in bounds iff n <= capacity - L or
  n > capacity + L (`GuardAsWritten`); a default buffer that receives 8193 bytes in one read does not
  (`DefaultBufferOverrun`).
- `PeekTagLen` does not convert its length. It is right iff the host is big-endian or the four bytes read the same
  backwards (`PeekIsRight`); on a little-endian host a short frame is in effect never accepted
  (`LittleEndianAccepts`).
- `htonll` always exchanges the halves, so the wire is in network order iff the host is little-endian or the halves
  are equal (`HtonllWire`); it undoes itself on both hosts (`HtonllInvolution`).
- The Data parser is not bounded by the frame length. It stays in step iff the two counts inside the frame add up,
  or run over with nothing behind (`ParseStaysInStep`, `StrayByte`). Gate forwards bodies unchecked, so even with
  every other defect put right authorization is sound only for runs in which the forwarded counts add up: these are
  exactly the runs whose streams stay in step (`StepSound`, `RunSound`, `LoginDelimitedExactly`), and there is a run
  outside them that authorizes a connection which has sent nothing (`StrayLogin`).
- The default branch of Data skips four bytes too many unless nothing follows (`UnknownFrameResync`), and so does
  Gate's `ReadString(len)` (`ForwardIsExact`). An unknown frame with a payload of less than eight bytes is not even
  noticed before more has arrived (`UnknownDelimitedExactly`).
- Gate's database callback drops only the tag of a failure reply (`VerdictReadsReply`, `VerdictDelimitedExactly`).
- Gate forwards logins of authorized connections only, although its connection callback says that a new connection
  needs a login, so as written nobody is ever authorized (`AsWrittenNobodyIsAuthorized`).
- `GetConnection` takes a 32-bit id; it finds a connection iff its serial id fits (`LookupFindsExactly`). No id made
  from a reading of fourteen digits does (`GeneratedIdIsLost`), so by itself this too keeps everybody out
  (`NarrowLookupAuthorizesNobody`).
- A thread in `Stop`, which a server being destroyed runs for each of its loops, may swap the queue while the loop
  holds an unstarted batch. Functors that can be told apart start in the order of the calls, at every point and
  whichever starts next, iff nobody ever takes functors over such a batch (`FifoExactly`). `StopOvertakes` is a run in which a thread does; it
  reverses two sends on the wire (`SendsReversed`), and lets a `Start` run behind the `Close` of its connection, which
  it then does not find in the table (`StopCrashesStart`, `StartFindsExactly`).
- `AsyncCall` does not look at the loop status. A call, whether from outside or by a running functor, is sure to be
  served iff at that moment the loop has not been asked to exit, or is between its wake-up and its swap, or some
  thread in `Stop` has not returned (`CallIsServedExactly`); `CallAfterStopIsStranded` is a run that strands one.
- Write interest stays on after a direct write that took everything (`IdleWriteInterest`, `IdleWriteEventIsStuck`);
  the write event that empties the buffer, and no other, gives it up (`WriteInterestAfterEvent`).
- Beyond 2 GiB a block size may wrap: then the block can outgrow three times the peak content under the guard as
  written (`CapacityAfterWrap`), and even with the guard put right more bytes can be copied than it holds (`CopiesAfterWrap`).
- A closed connection is registered again iff a start or a send still queued runs after the close
  (`ClosedStaysQuiet`, `SendAfterCloseRegisters`).
- The comments in `server/DataServer.cpp` give the replies the tag `l`; the code writes `s` and `x`, and so does the
  model.

Reading an integer past the buffered bytes, or copying past a block, has no defined outcome in the source. The
model returns a result that says so (`Underrun`, `Overread`, `inBounds == false`) and the contracts say exactly when.

## Model

| member | source | states |
|---|---|---|
| LoopProtocol.NoLostWakeup | src/network/EventLoop.cpp:63-95 | in every interleaving a queued functor is covered by a byte in the channel, a thread about to send one, or a loop past its wake-up and before its swap, for any channel capacity |
| LoopProtocol.StepKeepsCover | src/util/EventChannel.cpp:47-76 | each atomic step of producers, loop and stoppers keeps that coverage |
| LoopProtocol.ChannelExactly | src/util/EventChannel.cpp:47-75 | a send adds one byte, or none to a full channel; a receive takes at most 64; no other step touches the channel |
| LoopProtocol.ChannelNeverOverflows | src/util/EventChannel.cpp:18-20 | in every reachable state the channel holds no more than its capacity |
| LoopProtocol.ExitAskedOnEmpty | src/network/EventLoop.cpp:36-46 | the exit is asked for only by a Stop that finds the queue empty, and a Stop returns only after finding it empty in its second loop |
| LoopProtocol.StopAsksBeforeReturning | src/network/EventLoop.cpp:36-46 | in every reachable state a Stop that has returned has asked for the exit first |
| LoopOrder.LoopIsFifo | src/network/EventLoop.cpp:30-95 | with any number of threads draining, as long as nobody takes functors over an unstarted batch, started functors, the batch in hand and the queue are together the lock-order sequence of calls |
| LoopOrder.FifoExactly | src/network/EventLoop.cpp:30-95 | for functors told apart, what has started is the first part of what was queued, at every point of a run and whichever functor starts next, iff no swap of the run overlaps an unstarted batch |
| LoopOrder.StopOvertakes | src/network/EventLoop.cpp:30-48 | a run in which a thread in Stop starts the second functor before the loop starts the first |
| LoopOrder.AloneNeverOverlaps | src/network/EventLoop.cpp:81-95 | a loop that nobody stops never overlaps |
| LoopProtocol.ExactlyOnce | src/network/EventLoop.cpp:30-48 | with any number of threads draining, each queueing is matched by one start or one waiting copy |
| LoopProgress.EveryStepProgresses | src/network/EventLoop.cpp:81-95 | every step other than a new outside call lowers one measure |
| LoopProgress.InternalRunsAreBounded | src/network/EventLoop.cpp:30-48 | without new outside calls every schedule ends within the measure, so both drain loops of Stop terminate |
| LoopProgress.ComesToRest | src/util/EventChannel.cpp:68-76 | from every reachable state the threads can come to rest |
| LoopStranding.CallIsServedExactly | src/network/EventLoop.cpp:63-70 | in every reachable state: under every schedule that very call, from outside or by a running functor, is taken from the queue and all earlier ones have run, iff the loop is not asked to exit, or is about to swap, or a Stop is still draining |
| LoopStranding.ServedExactly | src/network/EventLoop.cpp:30-95 | in every reachable state: everything queued so far is run under every schedule iff the queue is empty or somebody is bound to take it |
| LoopStranding.StopServesEarlierCalls | src/network/EventLoop.cpp:30-48 | everything queued before a thread enters Stop is run under every schedule |
| LoopForest.EveryFunctorRunsOnce | src/network/EventLoop.cpp:63-95 | at rest each functor of each spawn tree handed in has run exactly once or is still queued, and nothing is queued unless Stop asked the loop to exit |
| LoopForest.RestIsReached | src/network/EventLoop.cpp:63-95 | such a state is reachable from every reachable state, within the measure and without new calls |
| LoopForest.StepAccounts | src/network/EventLoop.cpp:81-95 | a step neither loses nor invents a functor, those a running functor will queue included |
| Tasks.BatchSwapIsFifo | src/network/EventLoop.cpp:81-95 | running whole swapped-out batches executes in the order of a one-at-a-time queue |
| Tasks.FifoRunsEachNodeOnce | src/network/EventLoop.cpp:30-48 | draining a finite spawn forest runs each of its nodes once |
| EventLoops.EventLoop.Notify | src/util/EventChannel.cpp:47-51 | one byte more if the channel has room, none if it is full |
| EventLoops.EventLoop.AsyncCall | src/network/EventLoop.cpp:63-79 | the functor is appended, then the channel notified |
| EventLoops.EventLoop.ProcessPendingFunctors | src/network/EventLoop.cpp:81-95 | the queue is executed in order and replaced by what its functors queue |
| EventLoops.EventLoop.Update | src/util/EventChannel.cpp:68-76 | one pass over the queue; whatever was in the channel, it then holds one byte for each functor queued meanwhile, as many as fit |
| EventLoops.EventLoop.Stop | src/network/EventLoop.cpp:30-48 | a running loop is drained in queue order, each functor of the forest once, and all of it before the exit is asked for; another is left alone |
| Bytes.HtonllInvolution | src/util/Buffer.h:182-190 | the 64-bit conversion is its own inverse on either host |
| Bytes.HtonllWire | src/util/Buffer.h:117-121 | its wire bytes on each host; they are in network order iff the host is little-endian or the halves are equal |
| Bytes.HtonIsNtoh | src/util/Buffer.h:123-133 | htons and htonl undo themselves and equal their inverses |
| Codec.IntRoundTrip | src/util/Buffer.h:31-65 | every signed 8, 16, 32 or 64-bit value reads back as itself on either host |
| Codec.ShortWire | src/util/Buffer.h:123-138 | up to 32 bits the wire is network order on either host |
| Codec.LongWire | src/util/Buffer.h:117-121 | a signed 64-bit value is in network order from a little-endian host, with its halves exchanged from a big-endian one |
| Codec.LongRead | src/util/Buffer.h:31-38 | and eight bytes are read accordingly |
| Codec.ListRoundTrip | src/util/Buffer.h:31-77 | any list of integers and strings reads back from its wire form as the same list and the reads stop where it ends |
| BufferLists.AppendAll | src/util/Buffer.cpp:54-93 | a list of values is appended in full, across any growth, iff each append in turn stays in its block |
| BufferLists.WriteAndRead | src/util/Buffer.h:31-138 | a list written to an empty buffer of any capacity and read back by shape is the same list, with nothing left |
| Layouts.GuardAsWritten | src/util/Buffer.cpp:54-93 | exactly when an append stays inside its block, for every 32-bit state, in closed form below 2 GiB |
| Layouts.GuardIntended | src/util/Buffer.cpp:69-86 | with the guard put right only a block beyond 32 bits fails, for every 32-bit state and in closed form below 2 GiB |
| Layouts.GuardsDiffer | src/util/Buffer.cpp:69-72 | exactly the states and requests on which the two guards part |
| Layouts.CapacityAndCopies | src/util/Buffer.cpp:61-86 | over every in-bounds run the block stays within its initial size or three times the peak content, as written if no new block wraps; and if none does, reallocation copies no more bytes than the block holds |
| Buffers.Buffer.constructor | src/util/Buffer.cpp:11-15 | an empty buffer of the given capacity |
| Buffers.Buffer.Adjust | src/util/Buffer.cpp:88-93 | compaction moves the contents to the front and changes nothing visible |
| Buffers.Buffer.Grow | src/util/Buffer.cpp:69-86 | compaction or reallocation as the guard decides; contents unchanged |
| Buffers.Buffer.EnsureCapacity | src/util/Buffer.cpp:61-67 | grows only when the tail is short; contents unchanged |
| Buffers.Buffer.Append | src/util/Buffer.cpp:54-59 | contents grow by the data at the end, in bounds exactly under the guard condition |
| Buffers.Buffer.AppendBuffer | src/util/Buffer.h:145-148 | contents grow by the other buffer's contents |
| Buffers.Buffer.AppendInt | src/util/Buffer.h:117-138 | contents grow by the wire form of the integer |
| Buffers.Buffer.ReadFd | src/util/Buffer.cpp:24-52 | what arrived is appended, through the free tail and the stack buffer; in bounds exactly when the overflow fits |
| Buffers.Buffer.ReadInt | src/util/Buffer.h:31-65 | the integer is decoded from the front, which is dropped; None where the source would over-read |
| Buffers.Buffer.ReadString | src/util/Buffer.h:67-85 | a prefix cut to what is buffered is returned and dropped |
| Buffers.Buffer.PeekTagLen | src/util/Buffer.h:88-95 | tag and raw or converted length of the front, nothing consumed |
| Buffers.Buffer.Forward | src/util/Buffer.h:102-113 | a prefix is dropped, or everything when the unsigned argument is not smaller than the length |
| Buffers.Buffer.Clear | src/util/Buffer.h:171-175 | the contents become empty |
| Buffers.FreshBufferReceive | src/util/Buffer.cpp:24-52 | a full, unread block takes an overflowing read safely as written iff the read exceeds three times its capacity |
| SendPath.SendConservation | src/network/TCPConnection.cpp:97-157 | over every run of sends, partial writes, errors and closes the wire followed by the pending bytes is the concatenation of what was handed over |
| SendPath.SendExactly | src/network/TCPConnection.cpp:127-157 | a direct write is made only with nothing ahead; the wire gains exactly what it took, the send buffer the rest, and write interest is on afterwards |
| SendPath.WireIsWhatWasTaken | src/network/TCPConnection.cpp:97-157 | over every run the wire is as long a prefix of what was handed over as the sum of the positive results of the writes made, and the send buffer the rest |
| SendPath.PendingIsWatched | src/network/TCPConnection.cpp:97-157 | while connected, pending output has write interest in ev_type_ and in the registered set |
| SendPath.ReadInterestOnlyFromStart | src/util/FdWatcher.h:34-70 | nothing but Start turns read interest on |
| SendPath.ClosedStaysQuiet | src/network/TCPConnection.cpp:116-153 | after a close of any connection it stays unregistered throughout a run iff no start and no send comes in it |
| SendPath.IdleWriteInterest | src/network/TCPConnection.cpp:127-157 | when write interest is left on with nothing to write |
| Connections.FdWatcher.Start | src/util/FdWatcher.cpp:105-117 | the registered set becomes ev_type_ |
| Connections.FdWatcher.EnableWriteEvent | src/util/FdWatcher.h:42-48 | write interest on, registered anew when it was off |
| Connections.FdWatcher.DisableWriteEvent | src/util/FdWatcher.h:64-70 | write interest off, registered anew when it was on |
| Connections.FdWatcher.DisableAllEvent | src/util/FdWatcher.h:50-54 | no interest and nothing registered |
| Connections.TCPConnection.HandleRead | src/network/TCPConnection.cpp:78-95 | data is appended before the message callback, end of stream closes, an error does nothing |
| Connections.TCPConnection.HandleWrite | src/network/TCPConnection.cpp:97-114 | what the socket took goes from the send buffer to the wire; write interest goes when that empties the buffer |
| Connections.TCPConnection.CloseNow | src/network/TCPConnection.cpp:116-124 | the watcher is left with no interest and nothing registered, the connection Disconnected, its buffers untouched |
| Connections.TCPConnection.Dispatch | src/util/FdWatcher.cpp:119-132 | the read callback, then the write callback, even on a connection the first has closed |
| Connections.TCPConnection.SendInLoop | src/network/TCPConnection.cpp:127-157 | the wire gains what a direct write took and the send buffer the rest, partial writes included; in bounds exactly when the rest fits |
| SendOrder.WireInStartOrder | src/network/TCPConnection.cpp:97-157 | in every reachable state, threads in Stop or not, wire and send buffer are the buffers in the order their functors started |
| SendOrder.EndToEndOrder | src/network/TCPConnection.cpp:65-157 | in every state reached without an overlapping swap, wire, send buffer and travelling buffers make up the buffers in Send order; the wire is a prefix |
| SendOrder.AtRestAllHanded | src/network/TCPConnection.cpp:65-76 | at rest everything sent is on the wire, in the watched send buffer, or in the queue of a loop that Stop made exit |
| SendOrder.SendsReversed | src/network/TCPConnection.cpp:65-76 | a run with an overlapping swap in which two sends leave in reverse |
| Frames.PeekIsRight | src/util/Buffer.h:88-95 | exactly when the peeked length is the one in the frame |
| Frames.LittleEndianAccepts | server/DataServer.cpp:41-44 | how much a little-endian host must buffer before a short frame is accepted as written |
| Frames.AcceptsExactly | server/DataServer.cpp:41-44 | a frame is taken iff enough is buffered and the four length bytes, in the order they are peeked, tell no more than is behind the tag |
| Frames.ParseLoginExactly | server/DataServer.cpp:53-60 | for any bytes: the parser over-reads iff they end before the second count does, and otherwise the id, the name and the password as long as counted or as there is, and what is left |
| Frames.ParseStaysInStep | server/DataServer.cpp:51-60 | exactly when parsing a login ends where its frame ends |
| Frames.ConsistentExactly | server/DataServer.cpp:48-60 | the counts of a login body add up iff it encodes a name and a password |
| Frames.StrayByte | server/DataServer.cpp:51-60 | a body one byte too long leaves that byte in front of the next frame |
| Frames.UnknownFrameResync | server/DataServer.cpp:84-89 | exactly when the default branch, once taken, leaves the buffer at the next frame, and how much of that it drops otherwise |
| Frames.ForwardIsExact | server/GateServer.cpp:101-112 | exactly when Gate forwards a client's login as one frame with the serial id in front and keeps the rest, and what goes along otherwise |
| Frames.WireLayout | server/DataServer.cpp:64-81 | the frames between the servers byte for byte |
| Frames.DataReadsForwarded | server/DataServer.cpp:51-60 | Data reads serial id, name and password back and leaves following bytes untouched |
| Frames.VerdictReadsReply | server/GateServer.cpp:38-54 | Gate reads a success back exactly, and gets past a failure iff in the intended form |
| Callbacks.DataMessage | server/DataServer.cpp:37-103 | the callback on a real buffer equals the value-level step: status, reply bytes, bytes left, and when it over-reads |
| Callbacks.GateMessage | server/GateServer.cpp:90-141 | the client callback equals the value-level step: forwarded bytes and bytes left |
| Callbacks.GateVerdict | server/GateServer.cpp:30-65 | the database callback equals the value-level step: whom to authorize and bytes left |
| Callbacks.BuildReply | server/DataServer.cpp:64-81 | the reply buffer holds exactly the encoded reply |
| Streams.ChunkingIndependence | src/network/TCPConnection.cpp:78-95 | for any callback that finds in a part of a stream what it finds in all of it, delivered values and those left in the bytes are the values of the whole stream, however it is cut |
| Streams.PacketsArrive | src/network/TCPConnection.cpp:78-95 | for a stream of self-delimiting packets these are the values of the packets |
| Streams.DeliveredExactly | src/network/TCPConnection.cpp:78-95 | with one callback per read, exactly which packets have been delivered, as a count the cuts alone determine, and which bytes are left |
| Streams.NothingLeftExactly | src/network/TCPConnection.cpp:78-95 | no complete packet is left waiting for a later read iff in no final stretch of the reads more packets were completed than reads made |
| LoginFrames.LoginDelimitedExactly | server/DataServer.cpp:41-60 | whatever body Gate forwards, it is self-delimiting for Data iff its length is peeked right and its counts add up; its value is then the name and password under the serial id |
| LoginFrames.UnknownDelimitedExactly | server/DataServer.cpp:84-89 | a frame with another tag is self-delimiting for Data iff its length is peeked right, the branch is put right and its payload has eight bytes |
| LoginFrames.ClientDelimitedExactly | server/GateServer.cpp:95-112 | a client's login is self-delimiting for Gate, and forwarded as such, iff its length is peeked right and ReadString gets the corrected length |
| LoginFrames.DataChunkingIndependence | server/DataServer.cpp:37-103 | what Data has handled and would still handle of a stream of logins and other frames, short ones among them, is what was sent, for every cutting, up to a last frame too short to be noticed |
| LoginFrames.ClientChunkingIndependence | server/GateServer.cpp:90-117 | what Gate has forwarded and would still forward of a client's logins is exactly those behind its serial id, for every cutting |
| LoginFrames.GateChunkingIndependence | server/GateServer.cpp:30-65 | the same for the replies on their way back to Gate |
| LoginFrames.VerdictDelimitedExactly | server/GateServer.cpp:30-65 | a reply is self-delimiting for Gate iff its length is peeked right and it is no failure met as written |
| Logins.AuthorizationSound | server/GateServer.cpp:30-117 | in every state reached by forwarding logins whose counts add up, an authorized connection has itself sent a login, taken as such by Gate, that the database maps to its user id |
| Logins.NobodyOverreads | server/DataServer.cpp:51-60 | in these runs no callback reads past its buffer |
| Logins.RunSound | server/GateServer.cpp:101-111 | these are exactly the runs at every point of which the streams consist of packets backed by the connections they name |
| OutOfStep.StrayLogin | server/DataServer.cpp:53-60 | a run outside them, for every repaired build, that authorizes a connection which has sent nothing |
| Logins.StepSound | server/DataServer.cpp:51-83 | a connect, read, callback or disconnect keeps both streams made of packets backed by the connections they name iff it does not forward a login whose counts do not add up |
| Logins.LoginSucceeds | server/GateServer.cpp:38-54 | a login with quiet streams authorizes iff the database knows the pair, under its user id |
| Logins.AsWrittenNobodyIsAuthorized | server/GateServer.cpp:90-141 | with the test as written no run authorizes any connection, whatever else is put right |
| Logins.NarrowLookupAuthorizesNobody | server/GateServer.cpp:47-52 | with the lookup as written and ids beyond 32 bits no run does either |
| Registry.LookupFindsExactly | src/network/TCPServer.h:34-37 | a lookup by serial id finds the connection iff the id fits the parameter |
| Registry.GeneratedIdIsLost | src/util/UID.h:39-42 | no generated id fits, so a listed connection is found by its id iff the parameter is put right |
| Registry.TCPServer.GetConnection | src/network/TCPServer.h:34-37 | the entry under the key, a null entry left behind on a miss as written, and no lookup changed |
| Registry.TCPServer.Register | src/network/TCPServer.cpp:44-61 | every lookup that comes down to the new serial id finds the new connection, every other finds what it did |
| Registry.TCPServer.Erase | src/network/TCPServer.cpp:51-59 | no lookup finds the closed connection's id any more, every other finds what it did |
| LoopLifecycle.OrderlyOnLoops | src/network/TCPServer.cpp:42-70 | with any number of loops, producers and threads in Stop interleaved step by step and nobody overtaking a batch, a queued Start finds its entry, callbacks are one connect, then messages, then closes, the table lists exactly the connections not closed, and a connection is read exactly between connect and close |
| LoopLifecycle.StartFindsExactly | src/network/TCPServer.cpp:63-67 | overtaking or not, a Start about to run finds no entry iff its connection has been closed before |
| LoopLifecycle.StopCrashesStart | src/network/TCPServer.cpp:63-67 | a run in which a thread in Stop runs the Close first and Start finds no entry |
| LoopLifecycle.MoveRefines | src/network/EventLoop.cpp:81-95 | a step of any thread that overtakes no batch is one step of the system with a queue per loop, or none |
| Lifecycle.StepKeepsInv | src/network/TCPConnection.cpp:46-124 | each accept, functor and socket event keeps the invariant behind that |
| SerialIds.Generator.Generate | src/util/UID.h:25-43 | the first id of a reading is a thousand times its digits and one, each further one the next number |
| SerialIds.IncreasingExactly | src/util/UID.h:25-43 | for every sequence of clock readings the ids increase iff the calls before each change of reading fit the gap |
| SerialIds.ThousandPerSecond | src/util/UID.h:25-43 | a clock that does not go back and at most a thousand calls per second suffice |
| SerialIds.ThousandAndOneCollides | src/util/UID.h:42 | the thousand and first id of a second equals the first of the next |

## Left out

- Logins.AuthorizationSound: holds only for runs in which each login Gate forwards has counts that add up, which `RunSound` shows to be exactly the runs that stay in step and `StrayLogin` to be needed; it is stated for servers with the other defects put right and unique serial ids. What a stream out of step decodes to is not followed further.
- LoginFrames.DataChunkingIndependence: stated for streams of frames that Data can tell apart, which `LoginDelimitedExactly` and `UnknownDelimitedExactly` characterize frame by frame.
- Layouts.CapacityAndCopies: its two bounds need the sizes of new blocks not to wrap where it says so; `CapacityAfterWrap` and `CopiesAfterWrap` are runs beyond.
- LoopLifecycle.OrderlyOnLoops: accepting a connection, from the table entry to the queued Start, is one step, the callbacks are taken to be installed, and nobody overtakes a batch, which `StopCrashesStart` shows to be needed.
- SendOrder.EndToEndOrder: a buffer does not change between `Send` and its functor, every append to the send buffer is in bounds, and no swap overlaps a batch, which `SendsReversed` shows to be needed; closing and socket events may come at any point.
- SerialIds.Generator.Generate: the calendar is an abstract function from readings to digits, the counter does not overflow, and calls come from one thread.
- Memory effects of over-reads and overruns: a flagged result takes their place.
- libevent, sockets, accepting, connecting and address parsing: readiness, results of read and write, and the wake channel are free choices of the steps.
- A nested Stop inside a functor and a Stop on another thread are the same thing in the step system, a further consumer that may step at any time; `Run`, `Init` and destruction are not modelled.
- The database and Redis clients: the login query is a function from name and password to an id or -1.
- `TCPClient`, acceptor, connector, thread manager and logging: they wire the other parts together, and what they keep (an index, a list of loops, a socket) has no invariant worth a theorem.
- Object lifetimes, copies of watchers and data races on unprotected fields: each access is atomic and objects outlive the functors that capture them.
- The game server connection and the branches marked as still to be written: they have no behaviour.
